/** One 80-column card: what a put writes into it, what a comment put changes, what a get
    reads back (the column arithmetic of hputc, hputcom and hgetc_thread_safe). */
module Cards {
  import opened CText
  import opened Search

  /** Number values end just before this column; it is also the first comment column. */
  const VALUE_END: nat := 33
  /** The widest unquoted value that stays behind the `=` column. */
  const NUMBER_WIDTH: nat := 24
  /** The widest text a quoted value can hold. */
  const TEXT_WIDTH: nat := 67

  // ------------------------------------------------------------------ keywords

  predicate LegalKeyChar(c: char) {
    '!' <= c <= '~' && c != '=' && c != QUOTE && c != DQUOTE && c != SLASH && c != '[' && c != ','
  }

  /** A keyword a caller may use: one to eight visible characters, none of them special to
      the parser, and none of the three names the code treats apart. */
  ghost predicate LegalKey(k: string) {
    && 1 <= |k| <= 8
    && (forall i | 0 <= i < |k| :: LegalKeyChar(k[i]))
    && FoldText(k) != "END" && k != "COMMENT" && k != "HISTORY"
  }

  ghost predicate SameKey(a: string, b: string) { FoldText(a) == FoldText(b) }

  /** The first column, at most 8, that does not belong to the card's keyword. */
  function KeyEnd(line: string, from: nat): (r: nat)
    requires from <= 8 <= |line|
    ensures from <= r <= 8
    ensures forall i | from <= i < r :: line[i] != BLANK
    ensures r < 8 ==> line[r] == BLANK
    decreases 8 - from
  {
    if from < 8 && line[from] != BLANK then KeyEnd(line, from + 1) else from
  }

  function KeyOf(line: string): (k: string)
    requires |line| == LINE
    ensures k <= line && |k| <= 8
  {
    line[..KeyEnd(line, 0)]
  }

  // ------------------------------------------------------------------ the two shapes of a card

  /** A card with an unquoted value: nothing but the value up to column 33, then blanks or a
      comment that starts with its slash in column 34. Its last column is always blank. */
  ghost predicate NumberCard(line: string)
    requires |line| == LINE
  {
    && (forall i | 0 <= i < LINE :: line[i] != QUOTE)
    && (forall i | 0 <= i < VALUE_END :: line[i] != SLASH && line[i] != DQUOTE)
    && line[VALUE_END] == BLANK && line[LINE - 1] == BLANK
    && (line[VALUE_END + 1] == SLASH || forall i | VALUE_END <= i < LINE :: line[i] == BLANK)
  }

  /** A card with a quoted value that closes in column `close`. */
  ghost predicate StringCard(line: string, close: nat)
    requires |line| == LINE
  {
    && 11 <= close < LINE - 1
    && line[10] == QUOTE && line[close] == QUOTE
    && (forall i | 0 <= i < LINE && i != 10 && i != close :: line[i] != QUOTE)
    && (forall i | 0 <= i < 10 :: line[i] != SLASH)
    && line[close + 1] == BLANK
    && var s := IndexOf(line, SLASH, close);
       && (s.Some? ==> VALUE_END < s.value <= LINE - 2 && close + 2 <= s.value)
       && (s.None? || s.value == VALUE_END + 1 ==> line[LINE - 1] == BLANK)
  }

  /** A card of the store. */
  ghost predicate Card(line: string) {
    && |line| == LINE
    && Printable(line)
    && LegalKey(KeyOf(line))
    && (forall i | |KeyOf(line)| <= i < 8 :: line[i] == BLANK)
    && (line[8] == '=' || line[8] == BLANK)
    && (NumberCard(line) || exists close :: StringCard(line, close))
  }

  // ------------------------------------------------------------------ put

  predicate IsQuoted(value: string) { value != "" && value[0] == QUOTE }

  /** Where hputc looks for the slash of an existing comment. */
  function CommentSlash(line: string): (c1: Option<nat>)
    requires |line| == LINE
    ensures c1.Some? ==> c1.value < LINE && line[c1.value] == SLASH
  {
    match IndexOf(line, QUOTE, 0)
    case None => IndexOf(line, SLASH, 0)
    case Some(q1) =>
      match IndexOf(line, QUOTE, q1 + 1)
      case None => if line[LINE - 1] == SLASH then Some(LINE - 1) else None
      case Some(q2) => IndexOf(line, SLASH, q2)
  }

  /** How much of an old comment hputc keeps: it drops characters from the end while the
      one before the end is a blank. */
  function KeptLength(t: string, n: nat): (r: nat)
    requires n <= |t|
    ensures r <= n && (n > 0 ==> r > 0)
  {
    if n > 1 && t[n - 2] == BLANK then KeptLength(t, n - 1) else n
  }

  function OldComment(line: string): (r: string)
    requires |line| == LINE
  {
    match CommentSlash(line)
    case None => ""
    case Some(c1) =>
      if c1 + 2 > LINE then "" else
      var text := line[c1 + 2..];
      text[..KeptLength(text, |text|)]
  }

  /** The column where hputc puts the blank before the comment's slash. */
  function CommentColumn(value: string): nat {
    if IsQuoted(value) && |value| + 12 > VALUE_END + 1 then |value| + 12 else VALUE_END
  }

  /** Everything left of the comment. */
  function ValueField(key: string, value: string): (r: string)
    requires |key| <= 8
    requires !IsQuoted(value) ==> |value| <= NUMBER_WIDTH
    ensures |r| == if IsQuoted(value) then 10 + |value| else VALUE_END
  {
    if IsQuoted(value) then PadRight(key, 8) + "= " + value
    else PadRight(key, 8) + "=" + PadLeft(value, NUMBER_WIDTH)
  }

  /** A value hputc can place without leaving its card. */
  predicate Fits(value: string, comment: string) {
    && (if IsQuoted(value) then |value| <= TEXT_WIDTH + 2 else |value| <= NUMBER_WIDTH)
    && (comment != "" ==> CommentColumn(value) + 3 <= LINE)
  }

  function Cut(s: string, n: nat): (r: string)
    ensures r <= s && |r| == if |s| <= n then |s| else n
  {
    if |s| <= n then s else s[..n]
  }

  /** The card hputc leaves for `value`, over an old comment. */
  function PutLine(key: string, value: string, comment: string): (r: string)
    requires |key| <= 8
    requires Fits(value, comment)
    ensures |r| == LINE
  {
    var field := ValueField(key, value);
    if comment == "" then PadRight(field, LINE)
    else
      var column := CommentColumn(value);
      PadRight(field, column) + PadRight(" / " + Cut(comment, LINE - 3 - column), LINE - column)
  }

  // ------------------------------------------------------------------ comment put

  /** Stepping back over blanks from column `from`: the column after the last non-blank one. */
  function BackOver(line: string, from: nat): (r: nat)
    requires from < |line|
    requires exists i :: 0 <= i <= from && line[i] != BLANK
    ensures 0 < r <= from + 1 && line[r - 1] != BLANK
    ensures forall i | r <= i <= from :: line[i] == BLANK
  {
    if line[from] != BLANK then from + 1 else BackOver(line, from - 1)
  }

  /** The closing mark of a quoted text, made up when it is missing; None when the text is
      not quoted, or its opening mark stands behind a slash. */
  function Closing(line: string, mark: char): (q2: Option<nat>)
    requires |line| == LINE && mark != BLANK
    ensures q2.Some? ==> q2.value <= LINE && IndexOf(line, mark, 0).Some? && IndexOf(line, mark, 0).value < q2.value
  {
    match IndexOf(line, mark, 0)
    case None => None
    case Some(q1) =>
      var c1 := IndexOf(line, SLASH, 0);
      if c1.Some? && c1.value <= q1 then None
      else
        match IndexOf(line, mark, q1 + 1)
        case Some(q2) => Some(q2)
        case None =>
          assert line[q1] == mark != BLANK;
          Some(BackOver(line, if c1.Some? then c1.value - 1 else LINE - 1))
  }

  /** The column where hputcom puts the blank before the slash. */
  function CommentStart(line: string): int
    requires |line| == LINE
  {
    var c1 := IndexOf(line, SLASH, 0);
    var q2 := Closing(line, QUOTE);
    var c := if q2.Some? && c1.Some? && c1.value < q2.value
             then IndexOf(line, SLASH, q2.value) else c1;
    if c.Some? then c.value - 1
    else if q2.None? || q2.value < VALUE_END then VALUE_END
    else q2.value + 1
  }

  /** Whether hputcom stays inside the card: it gives up when the comment cannot start before
      column 77, and for a comment that would start just there its blank count is negative. */
  predicate CommentFits(line: string, comment: string)
    requires |line| == LINE
  {
    CommentStart(line) >= 0 && (CommentStart(line) == LINE - 3 ==> comment == "")
  }

  /** The card with ` / ` and the comment written from column `c0` on; the last column and,
      for an empty comment, everything behind the slash stays. */
  function ComAt(line: string, c0: nat, comment: string): (r: string)
    requires |line| == LINE
    requires c0 + 3 <= LINE && (comment != "" ==> c0 + 4 <= LINE)
    ensures |r| == LINE
  {
    if comment == "" then line[..c0] + " / " + line[c0 + 3..]
    else
      var room := LINE - 4 - c0;
      line[..c0] + " / " + PadRight(Cut(comment, room), room) + line[LINE - 1..]
  }

  /** The card hputcom leaves; None when it refuses. */
  function ComLine(line: string, comment: string): (r: Option<string>)
    requires |line| == LINE
    requires CommentFits(line, comment)
    ensures r.Some? ==> |r.value| == LINE
  {
    var c0 := CommentStart(line);
    if c0 > LINE - 3 then None else Some(ComAt(line, c0, comment))
  }

  // ------------------------------------------------------------------ get

  function UnquotedSpan(line: string): (r: (nat, nat))
    requires |line| == LINE
    ensures r.0 <= LINE && r.1 < LINE
  {
    var eq := IndexOf(line, '=', 0);
    var c1 := IndexOf(line, SLASH, 0);
    (if eq.Some? then eq.value + 1 else 9, if c1.Some? then c1.value else LINE - 1)
  }

  /** The columns from which hgetc_thread_safe takes the value. */
  function ValueSpan(line: string): (r: (nat, nat))
    requires |line| == LINE
    ensures r.0 <= LINE && r.1 <= LINE
  {
    var mark := if IndexOf(line, QUOTE, 0).Some? then QUOTE else DQUOTE;
    match Closing(line, mark)
    case Some(q2) => (IndexOf(line, mark, 0).value + 1, q2)
    case None => UnquotedSpan(line)
  }

  function DropMinusZero(s: string): string { if s == "-0" then "0" else s }

  /** The text hgetc_thread_safe extracts from a card. */
  function GetText(line: string): string
    requires |line| == LINE
  {
    var (v1, v2) := ValueSpan(line);
    DropMinusZero(if v1 <= v2 then Trim(line[v1..v2]) else line[v1..])
  }

  // ------------------------------------------------------------------ values

  /** A value printed without quotes: what hputi4 and its kin hand to hputc. */
  ghost predicate NumberText(v: string) {
    && 0 < |v| <= NUMBER_WIDTH
    && (forall i | 0 <= i < |v| :: '!' <= v[i] <= '~' && v[i] != QUOTE && v[i] != DQUOTE && v[i] != SLASH)
  }

  /** A text hputs may store. */
  ghost predicate PlainText(t: string) { Printable(t) && forall i | 0 <= i < |t| :: t[i] != QUOTE }

  /** The quoted value hputs hands to hputc: cut to 67 characters, padded to 8. */
  function Quoted(text: string): (v: string)
    ensures IsQuoted(v) && 10 <= |v| <= TEXT_WIDTH + 2
  {
    [QUOTE] + PadRight(Cut(text, TEXT_WIDTH), 8) + [QUOTE]
  }

  /** What a reader gets for a stored text. */
  function Clean(text: string): string { DropMinusZero(Trim(Cut(text, TEXT_WIDTH))) }

  ghost predicate StorableValue(v: string) {
    NumberText(v) || exists t :: PlainText(t) && v == Quoted(t)
  }

  // ------------------------------------------------------------------ the put card

  // Columns of a card, one by one.

  ghost predicate KeyColumns(line: string, key: string) {
    && |line| == LINE && 1 <= |key| <= 8
    && (forall i | 0 <= i < |key| :: line[i] == key[i])
    && (forall i | |key| <= i < 8 :: line[i] == BLANK)
    && line[8] == '='
  }

  ghost predicate NumberColumns(line: string, v: string)
    requires |line| == LINE && |v| <= NUMBER_WIDTH
  {
    var start := VALUE_END - |v|;
    forall i | 9 <= i < VALUE_END :: line[i] == if i < start then BLANK else v[i - start]
  }

  ghost predicate StringColumns(line: string, v: string)
    requires |line| == LINE && |v| <= TEXT_WIDTH + 2
  {
    && line[9] == BLANK
    && forall i | 10 <= i < 10 + |v| :: line[i] == v[i - 10]
  }

  ghost predicate BlankColumns(line: string, from: nat, upto: nat)
    requires upto <= |line|
  {
    forall i | from <= i < upto :: line[i] == BLANK
  }

  /** A blank, the slash, a blank, the comment, blanks, from column `column` on. */
  ghost predicate CommentColumns(line: string, column: nat, c: string)
    requires |line| == LINE && column + 3 <= LINE
  {
    && line[column] == BLANK && line[column + 1] == SLASH && line[column + 2] == BLANK
    && forall i | column + 3 <= i < LINE :: line[i] == if i - column - 3 < |c| then c[i - column - 3] else BLANK
  }

  ghost predicate TailColumns(line: string, end: nat, column: nat, comment: string)
    requires |line| == LINE && end <= LINE && (comment != "" ==> column + 3 <= LINE)
  {
    if comment == "" then BlankColumns(line, end, LINE)
    else BlankColumns(line, end, column) && CommentColumns(line, column, comment)
  }

  lemma FieldOfNumber(line: string, key: string, v: string)
    requires 1 <= |key| <= 8 && |v| <= NUMBER_WIDTH && |line| == LINE
    requires PadRight(key, 8) + "=" + PadLeft(v, NUMBER_WIDTH) <= line
    ensures KeyColumns(line, key) && NumberColumns(line, v)
  {
    var k, p := PadRight(key, 8), PadLeft(v, NUMBER_WIDTH);
    var field := k + "=" + p;
    assert |k| == 8;
    hide PadRight, PadLeft;
    assert forall i | 0 <= i < VALUE_END :: line[i] == field[i];
    assert forall i | 0 <= i < 8 :: field[i] == k[i];
    assert forall i | 9 <= i < VALUE_END :: field[i] == p[i - 9];
    var start := NUMBER_WIDTH - |v|;
    forall i | start <= i < NUMBER_WIDTH
      ensures p[i] == v[i - start]
    {
      assert p[start..][i - start] == p[i];
    }
  }

  lemma PutLineNumber(key: string, v: string, comment: string)
    requires 1 <= |key| <= 8 && |v| <= NUMBER_WIDTH && !IsQuoted(v)
    ensures Fits(v, comment)
    ensures var line := PutLine(key, v, comment);
      KeyColumns(line, key) && NumberColumns(line, v) && TailColumns(line, VALUE_END, VALUE_END, comment)
  {
    var field := PadRight(key, 8) + "=" + PadLeft(v, NUMBER_WIDTH);
    var line := PutLine(key, v, comment);
    assert field == ValueField(key, v) && |field| == VALUE_END;
    if comment == "" {
      assert line == PadRight(field, LINE);
      hide PutLine, ValueField, PadRight, PadLeft, CommentColumn;
      FieldOfNumber(line, key, v);
      assert forall i | VALUE_END <= i < LINE :: line[i] == PadRight(field, LINE)[i];
    } else {
      var tail := PadRight(" / " + Cut(comment, LINE - VALUE_END - 3), LINE - VALUE_END);
      assert line == field + tail;
      hide PutLine, ValueField, PadRight, PadLeft, CommentColumn, Blanks, Cut;
      FieldOfNumber(line, key, v);
      assert line[VALUE_END..] == Blanks(0) + tail;
      TailOfCard(line, VALUE_END, tail, VALUE_END, comment);
    }
  }

  lemma FieldOfString(line: string, key: string, v: string)
    requires 1 <= |key| <= 8 && |line| == LINE && 10 + |v| <= LINE
    requires PadRight(key, 8) + "= " + v <= line
    ensures KeyColumns(line, key) && |v| <= TEXT_WIDTH + 3
    ensures line[9] == BLANK && forall i | 10 <= i < 10 + |v| :: line[i] == v[i - 10]
  {
    var k := PadRight(key, 8);
    var field := k + "= " + v;
    assert |k| == 8;
    hide PadRight;
    assert forall i | 0 <= i < |field| :: line[i] == field[i];
    assert forall i | 0 <= i < 8 :: field[i] == k[i];
  }

  lemma TailOfCard(line: string, at: nat, tail: string, column: nat, comment: string)
    requires |line| == LINE && at <= column && column + 3 <= LINE && comment != ""
    requires line[at..] == Blanks(column - at) + tail
    requires tail == PadRight(" / " + Cut(comment, LINE - column - 3), LINE - column)
    ensures BlankColumns(line, at, column) && CommentColumns(line, column, comment)
  {
    hide Blanks, PadRight;
    assert forall i | at <= i < column :: line[i] == line[at..][i - at];
    assert forall i | column <= i < LINE :: line[i] == line[at..][i - at] == tail[i - column];
  }

  lemma PutStringParts(key: string, v: string, comment: string)
    requires |key| <= 8 && IsQuoted(v) && Fits(v, comment)
    ensures var field := PadRight(key, 8) + "= " + v;
      && |field| == 10 + |v| && 10 + |v| <= CommentColumn(v)
      && PutLine(key, v, comment) ==
           if comment == "" then field + Blanks(LINE - |field|)
           else field + (Blanks(CommentColumn(v) - |field|)
                         + PadRight(" / " + Cut(comment, LINE - CommentColumn(v) - 3), LINE - CommentColumn(v)))
  {
    var field := PadRight(key, 8) + "= " + v;
    assert |PadRight(key, 8)| == 8 && field == ValueField(key, v);
    var column := CommentColumn(v);
    assert column >= |field|;
    hide PadRight, CommentColumn, Cut, Blanks, ValueField;
    PadRightIs(field, LINE);
    if comment != "" {
      PadRightIs(field, column);
      Regroup(field, Blanks(column - |field|), PadRight(" / " + Cut(comment, LINE - column - 3), LINE - column));
    }
  }

  lemma Regroup(a: string, b: string, c: string)
    ensures a + b + c == a + (b + c)
  {
  }

  lemma PadRightIs(s: string, n: nat)
    requires |s| <= n
    ensures PadRight(s, n) == s + Blanks(n - |s|)
  {
  }

  lemma PutLineString(key: string, v: string, comment: string)
    requires 1 <= |key| <= 8 && IsQuoted(v) && Fits(v, comment)
    ensures var line := PutLine(key, v, comment);
      && KeyColumns(line, key) && StringColumns(line, v)
      && TailColumns(line, 10 + |v|, CommentColumn(v), comment)
  {
    PutStringParts(key, v, comment);
    var field := PadRight(key, 8) + "= " + v;
    var line := PutLine(key, v, comment);
    var column := CommentColumn(v);
    assert comment != "" ==> column + 3 <= LINE;
    hide PutLine, PadRight, CommentColumn, Blanks, Cut, Fits;
    assert field <= line;
    FieldOfString(line, key, v);
    if comment == "" {
      assert forall i | |field| <= i < LINE :: line[i] == Blanks(LINE - |field|)[i - |field|];
    } else {
      var tail := PadRight(" / " + Cut(comment, LINE - column - 3), LINE - column);
      assert line[|field|..] == Blanks(column - |field|) + tail;
      TailOfCard(line, |field|, tail, column, comment);
    }
  }

  lemma KeyOfColumns(line: string, key: string)
    requires KeyColumns(line, key)
    requires forall i | 0 <= i < |key| :: LegalKeyChar(key[i])
    ensures KeyOf(line) == key
  {
    assert |KeyOf(line)| == |key|;
  }

  /** A comment as hputc takes it off a card: short enough to end before column 79 unless it
      ends with a blank. */
  ghost predicate CardComment(c: string) {
    PlainText(c) && |c| <= 44 && (|c| == 44 ==> c[43] == BLANK)
  }

  lemma NumberColumnsMakeCard(line: string, key: string, v: string, comment: string)
    requires LegalKey(key) && NumberText(v) && CardComment(comment)
    requires KeyColumns(line, key) && NumberColumns(line, v) && TailColumns(line, VALUE_END, VALUE_END, comment)
    ensures Card(line) && NumberCard(line) && KeyOf(line) == key
  {
    KeyOfColumns(line, key);
  }

  lemma QuotedColumns(text: string)
    requires PlainText(text)
    ensures Quoted(text)[0] == QUOTE && Quoted(text)[|Quoted(text)| - 1] == QUOTE
    ensures forall i | 0 < i < |Quoted(text)| - 1 :: Quoted(text)[i] != QUOTE && IsPrintable(Quoted(text)[i])
  {
  }

  lemma StringColumnsMakeString(line: string, key: string, v: string, comment: string)
    requires LegalKey(key) && CardComment(comment)
    requires 10 <= |v| <= TEXT_WIDTH + 2 && Fits(v, comment)
    requires v[0] == QUOTE && v[|v| - 1] == QUOTE && forall i | 0 < i < |v| - 1 :: v[i] != QUOTE && IsPrintable(v[i])
    requires KeyColumns(line, key) && StringColumns(line, v)
    requires TailColumns(line, 10 + |v|, CommentColumn(v), comment)
    ensures StringCard(line, 9 + |v|)
  {
    var close, column := 9 + |v|, CommentColumn(v);
    if comment == "" {
      IndexOfNone(line, SLASH, close);
    } else {
      IndexOfIs(line, SLASH, close, column + 1);
    }
  }

  lemma StringColumnsMakeCard(line: string, key: string, text: string, comment: string)
    requires LegalKey(key) && PlainText(text) && CardComment(comment) && Fits(Quoted(text), comment)
    requires KeyColumns(line, key) && StringColumns(line, Quoted(text))
    requires TailColumns(line, 10 + |Quoted(text)|, CommentColumn(Quoted(text)), comment)
    ensures Card(line) && StringCard(line, 9 + |Quoted(text)|) && KeyOf(line) == key
  {
    KeyOfColumns(line, key);
    QuotedColumns(text);
    StringColumnsMakeString(line, key, Quoted(text), comment);
  }

  // ------------------------------------------------------------------ the comment of a card

  lemma QuotesOfStringCard(line: string, close: nat)
    requires |line| == LINE && StringCard(line, close)
    ensures IndexOf(line, QUOTE, 0) == Some(10) && IndexOf(line, QUOTE, 11) == Some(close)
  {
    IndexOfIs(line, QUOTE, 0, 10);
    IndexOfIs(line, QUOTE, 11, close);
  }

  lemma SlashOfNumberCard(line: string)
    requires |line| == LINE && NumberCard(line)
    ensures IndexOf(line, QUOTE, 0) == None
    ensures IndexOf(line, SLASH, 0) == if line[VALUE_END + 1] == SLASH then Some(VALUE_END + 1) else None
  {
    IndexOfNone(line, QUOTE, 0);
    if line[VALUE_END + 1] == SLASH {
      IndexOfIs(line, SLASH, 0, VALUE_END + 1);
    } else {
      IndexOfNone(line, SLASH, 0);
    }
  }

  /** The old comment of any card is short enough for hputc's 50-character buffer, is not cut
      off at a negative length, and holds no quote. */
  lemma OldCommentOfCard(line: string)
    requires Card(line)
    ensures var c1 := CommentSlash(line); c1.Some? ==> VALUE_END < c1.value <= LINE - 2
    ensures CardComment(OldComment(line))
  {
    SlashOfCard(line);
    OldCommentShort(line);
  }

  lemma SlashOfCard(line: string)
    requires Card(line)
    ensures |line| == LINE
    ensures var c1 := CommentSlash(line);
      c1.Some? ==> VALUE_END < c1.value <= LINE - 2 && (c1.value == VALUE_END + 1 ==> line[LINE - 1] == BLANK)
    ensures forall i | 0 <= i < LINE && line[i] == QUOTE ::
      CommentSlash(line).Some? ==> i < CommentSlash(line).value
  {
    if NumberCard(line) {
      SlashOfNumberCard(line);
    } else {
      var close :| StringCard(line, close);
      QuotesOfStringCard(line, close);
    }
  }

  lemma OldCommentShort(line: string)
    requires |line| == LINE && Printable(line)
    requires var c1 := CommentSlash(line);
      c1.Some? ==> VALUE_END < c1.value <= LINE - 2 && (c1.value == VALUE_END + 1 ==> line[LINE - 1] == BLANK)
    requires forall i | 0 <= i < LINE && line[i] == QUOTE ::
      CommentSlash(line).Some? ==> i < CommentSlash(line).value
    ensures CardComment(OldComment(line))
  {
    hide CommentSlash;
  }

  // ------------------------------------------------------------------ put, then get

  lemma UnquotedText(line: string, key: string, v: string, comment: string)
    requires LegalKey(key) && NumberText(v) && CardComment(comment)
    requires KeyColumns(line, key) && NumberColumns(line, v) && TailColumns(line, VALUE_END, VALUE_END, comment)
    ensures ValueSpan(line) == (9, if comment == "" then LINE - 1 else VALUE_END + 1)
  {
    NumberColumnsMakeCard(line, key, v, comment);
    SlashOfNumberCard(line);
    IndexOfIs(line, '=', 0, 8);
    assert forall i | 0 <= i < VALUE_END :: line[i] != DQUOTE;
    var q1 := IndexOf(line, DQUOTE, 0);
    if comment == "" {
      IndexOfNone(line, DQUOTE, 0);
    } else {
      assert q1.Some? ==> q1.value > VALUE_END + 1;
    }
    assert Closing(line, DQUOTE) == None;
  }

  lemma GetAfterPutNumber(line: string, key: string, v: string, comment: string)
    requires LegalKey(key) && NumberText(v) && CardComment(comment)
    requires KeyColumns(line, key) && NumberColumns(line, v) && TailColumns(line, VALUE_END, VALUE_END, comment)
    ensures GetText(line) == DropMinusZero(v)
  {
    UnquotedText(line, key, v, comment);
    var v2 := ValueSpan(line).1;
    var a, b := NUMBER_WIDTH - |v|, v2 - VALUE_END;
    assert line[9..v2] == Blanks(a) + v + Blanks(b);
    TrimUndoesPadding(a, v, b);
    TrimIsIdentity(v);
  }

  lemma GetAfterPutString(line: string, key: string, text: string, comment: string)
    requires LegalKey(key) && PlainText(text) && CardComment(comment) && Fits(Quoted(text), comment)
    requires KeyColumns(line, key) && StringColumns(line, Quoted(text))
    requires TailColumns(line, 10 + |Quoted(text)|, CommentColumn(Quoted(text)), comment)
    ensures GetText(line) == Clean(text)
  {
    StringColumnsMakeCard(line, key, text, comment);
    var v := Quoted(text);
    var close := 9 + |v|;
    QuotesOfStringCard(line, close);
    StringSpan(line, close);
    var cut := Cut(text, TEXT_WIDTH);
    assert line[11..close] == PadRight(cut, 8);
    var b := |PadRight(cut, 8)| - |cut|;
    assert PadRight(cut, 8) == Blanks(0) + cut + Blanks(b);
    TrimUndoesPadding(0, cut, b);
  }

  lemma StringSpan(line: string, close: nat)
    requires |line| == LINE && StringCard(line, close)
    ensures Closing(line, QUOTE) == Some(close)
    ensures ValueSpan(line) == (11, close)
  {
    QuotesOfStringCard(line, close);
    var c1 := IndexOf(line, SLASH, 0);
    assert c1.Some? ==> c1.value > 10;
  }

  /** The card of a stored text: legal, found by its keyword, and read back as the cleaned text. */
  lemma PutTextCard(key: string, text: string, comment: string)
    requires LegalKey(key) && PlainText(text) && CardComment(comment) && Fits(Quoted(text), comment)
    ensures var line := PutLine(key, Quoted(text), comment);
      && Card(line) && (exists close :: StringCard(line, close))
      && KeyOf(line) == key && line[8] == '=' && GetText(line) == Clean(text)
  {
    var line := PutLine(key, Quoted(text), comment);
    PutLineString(key, Quoted(text), comment);
    StringColumnsMakeCard(line, key, text, comment);
    GetAfterPutString(line, key, text, comment);
  }

  /** The card of a stored number: legal, found by its keyword, and read back as printed. */
  lemma PutNumberCard(key: string, v: string, comment: string)
    requires LegalKey(key) && NumberText(v) && CardComment(comment)
    ensures Fits(v, comment)
    ensures var line := PutLine(key, v, comment);
      && Card(line) && NumberCard(line)
      && KeyOf(line) == key && line[8] == '=' && GetText(line) == DropMinusZero(v)
  {
    var line := PutLine(key, v, comment);
    PutLineNumber(key, v, comment);
    NumberColumnsMakeCard(line, key, v, comment);
    GetAfterPutNumber(line, key, v, comment);
  }

  // ------------------------------------------------------------------ comment put

  /** hputcom starts its comment behind the value. */
  lemma CommentStartOfNumber(line: string)
    requires |line| == LINE && NumberCard(line)
    ensures CommentStart(line) == VALUE_END
  {
    SlashOfNumberCard(line);
  }

  lemma CommentStartOfString(line: string, close: nat)
    requires |line| == LINE && StringCard(line, close)
    ensures VALUE_END <= CommentStart(line) < LINE && close < CommentStart(line)
    ensures forall j | close <= j <= CommentStart(line) :: line[j] != SLASH
    ensures CommentStart(line) > VALUE_END && close < CommentStart(line) - 1 ==>
      CommentStart(line) + 1 < LINE && line[CommentStart(line) + 1] == SLASH
    ensures CommentStart(line) == VALUE_END ==> line[LINE - 1] == BLANK
  {
    QuotesOfStringCard(line, close);
    StringSpan(line, close);
    var c1 := IndexOf(line, SLASH, 0);
    var s := IndexOf(line, SLASH, close);
    if c1.Some? && c1.value > close {
      IndexOfIs(line, SLASH, close, c1.value);
    } else if c1.None? {
      IndexOfNone(line, SLASH, close);
    }
  }

  ghost predicate CommentWritten(line: string, after: string, c0: nat, comment: string)
    requires |line| == LINE
  {
    && |after| == LINE && c0 + 3 <= LINE
    && (forall i | 0 <= i < c0 :: after[i] == line[i])
    && after[c0] == BLANK && after[c0 + 1] == SLASH && after[c0 + 2] == BLANK
    && forall i | c0 + 3 <= i < LINE ::
         after[i] == if comment == "" || i == LINE - 1 then line[i]
                     else if i - c0 - 3 < |comment| then comment[i - c0 - 3] else BLANK
  }

  lemma ComAtColumns(line: string, c0: nat, comment: string)
    requires |line| == LINE
    requires c0 + 3 <= LINE && (comment != "" ==> c0 + 4 <= LINE)
    ensures CommentWritten(line, ComAt(line, c0, comment), c0, comment)
  {
    if comment != "" {
      var room := LINE - 4 - c0;
      var body := PadRight(Cut(comment, room), room);
      assert forall i | 0 <= i < room :: body[i] == if i < |comment| then comment[i] else BLANK;
      assert ComAt(line, c0, comment) == line[..c0] + " / " + body + line[LINE - 1..];
    }
  }

  lemma KeyOfPrefix(line: string, after: string)
    requires |line| == |after| == LINE
    requires forall i | 0 <= i < 8 :: after[i] == line[i]
    ensures KeyOf(after) == KeyOf(line)
  {
    assert KeyEnd(after, 0) == KeyEnd(line, 0);
  }

  lemma WrittenKeepsNumber(line: string, after: string, comment: string)
    requires Card(line) && NumberCard(line) && PlainText(comment)
    requires CommentWritten(line, after, VALUE_END, comment)
    ensures Card(after) && NumberCard(after) && KeyOf(after) == KeyOf(line)
  {
    KeyOfPrefix(line, after);
    assert |KeyOf(line)| <= 8;
    assert NumberCard(after);
  }

  lemma WrittenKeepsString(line: string, after: string, close: nat, c0: nat, comment: string)
    requires Card(line) && StringCard(line, close) && PlainText(comment)
    requires VALUE_END <= c0 <= LINE - 3 && close < c0
    requires CommentWritten(line, after, c0, comment)
    requires forall j | close <= j <= c0 :: line[j] != SLASH
    requires c0 == VALUE_END ==> line[LINE - 1] == BLANK
    ensures Card(after) && StringCard(after, close) && KeyOf(after) == KeyOf(line)
  {
    KeyOfPrefix(line, after);
    assert |KeyOf(line)| <= 8;
    IndexOfIs(after, SLASH, close, c0 + 1);
    assert StringCard(after, close);
  }

  lemma NumberSpan(line: string)
    requires Card(line) && NumberCard(line) && line[8] == '='
    ensures ValueSpan(line) == (9, if line[VALUE_END + 1] == SLASH then VALUE_END + 1 else LINE - 1)
  {
    SlashOfNumberCard(line);
    assert forall i | 0 <= i < 8 :: line[i] != '=' by {
      assert forall i | 0 <= i < |KeyOf(line)| :: KeyOf(line)[i] == line[i];
    }
    IndexOfIs(line, '=', 0, 8);
    if line[VALUE_END + 1] != SLASH {
      IndexOfNone(line, DQUOTE, 0);
    }
    assert Closing(line, DQUOTE) == None;
  }

  lemma NumberTextOf(line: string)
    requires Card(line) && NumberCard(line) && line[8] == '='
    ensures |line| == LINE && GetText(line) == DropMinusZero(Trim(line[9..VALUE_END]))
  {
    NumberSpan(line);
    var v2 := ValueSpan(line).1;
    var b := v2 - VALUE_END;
    assert line[9..v2] == Blanks(0) + line[9..VALUE_END] + Blanks(b);
    TrimUndoesPadding(0, line[9..VALUE_END], b);
  }

  lemma SameColumns(line: string, after: string)
    requires |line| == |after| == LINE && forall i | 9 <= i < VALUE_END :: after[i] == line[i]
    ensures after[9..VALUE_END] == line[9..VALUE_END]
  {
  }

  lemma NumberTextKept(line: string, after: string, comment: string)
    requires Card(line) && NumberCard(line) && line[8] == '='
    requires CommentWritten(line, after, VALUE_END, comment)
    requires Card(after) && NumberCard(after)
    ensures GetText(after) == GetText(line)
  {
    assert |line| == |after| == LINE && after[8] == '=';
    SameColumns(line, after);
    hide *;
    NumberTextOf(line);
    NumberTextOf(after);
  }

  /** On a number card hputcom always succeeds, and neither keyword nor value notice. */
  lemma ComKeepsNumber(line: string, comment: string)
    requires Card(line) && NumberCard(line) && PlainText(comment)
    ensures CommentFits(line, comment) && ComLine(line, comment).Some?
    ensures var after := ComLine(line, comment).value;
      && Card(after) && NumberCard(after) && KeyOf(after) == KeyOf(line) && after[8] == line[8]
      && CommentWritten(line, after, VALUE_END, comment)
    ensures line[8] == '=' ==> GetText(ComLine(line, comment).value) == GetText(line)
  {
    CommentStartOfNumber(line);
    ComAtColumns(line, VALUE_END, comment);
    var after := ComLine(line, comment).value;
    WrittenKeepsNumber(line, after, comment);
    if line[8] == '=' {
      hide Card, NumberCard, ComLine, GetText, CommentStart;
      NumberTextKept(line, after, comment);
    }
  }

  lemma StringTextOf(line: string, close: nat)
    requires |line| == LINE && StringCard(line, close)
    ensures 11 <= close < LINE && GetText(line) == DropMinusZero(Trim(line[11..close]))
  {
    StringSpan(line, close);
  }

  lemma WrittenKeepsText(line: string, after: string, close: nat, c0: nat, comment: string)
    requires |line| == LINE && StringCard(line, close) && CommentWritten(line, after, c0, comment) && close < c0
    requires StringCard(after, close)
    ensures GetText(after) == GetText(line)
  {
    hide GetText, StringCard, Trim, DropMinusZero;
    StringTextOf(line, close);
    StringTextOf(after, close);
    assert line[11..close] == after[11..close];
  }

  /** On a string card hputcom may refuse; when it does not, keyword and text stay. */
  lemma ComKeepsString(line: string, close: nat, comment: string)
    requires Card(line) && StringCard(line, close) && PlainText(comment)
    requires CommentFits(line, comment) && ComLine(line, comment).Some?
    ensures var after := ComLine(line, comment).value;
      && Card(after) && StringCard(after, close) && KeyOf(after) == KeyOf(line)
      && GetText(after) == GetText(line) && after[8] == line[8]
  {
    var c0 := CommentStart(line);
    var after := ComLine(line, comment).value;
    assert CommentWritten(line, after, c0, comment) by {
      ComAtColumns(line, c0, comment);
    }
    CommentStartOfString(line, close);
    WrittenKeepsString(line, after, close, c0, comment);
    WrittenKeepsText(line, after, close, c0, comment);
  }

  // ------------------------------------------------------------------ numbers and comments are independent

  /** A comment hputcom stores whole on a number card and hputc can take off again. */
  ghost predicate LegalComment(c: string) {
    0 < |c| <= 43 && PlainText(c) && c[|c| - 1] != BLANK
  }

  ghost predicate HasComment(line: string, c: string) {
    |line| == LINE && CommentColumns(line, VALUE_END, c)
  }

  lemma {:induction false} KeptLengthOf(t: string, n: nat, m: nat)
    requires 0 < m < n <= |t| && t[m - 1] != BLANK
    requires forall i | m <= i < n :: t[i] == BLANK
    ensures KeptLength(t, n) == m + 1
  {
    if n > m + 1 {
      KeptLengthOf(t, n - 1, m);
    }
  }

  lemma OldCommentIs(line: string, c: string)
    requires |line| == LINE && NumberCard(line) && HasComment(line, c) && LegalComment(c)
    ensures OldComment(line) == c + " "
  {
    SlashOfNumberCard(line);
    var text := line[VALUE_END + 3..];
    KeptLengthOf(text, |text|, |c|);
    assert text[..|c| + 1] == c + " ";
  }

  predicate FitsNumber(v: string) { !IsQuoted(v) && |v| <= NUMBER_WIDTH }

  predicate AllFit(values: seq<string>) { values == [] || (FitsNumber(values[0]) && AllFit(values[1..])) }

  ghost predicate AllNumbers(values: seq<string>) {
    values == [] || (FitsNumber(values[0]) && NumberText(values[0]) && AllNumbers(values[1..]))
  }

  lemma {:induction false} NumbersFit(values: seq<string>)
    requires AllNumbers(values)
    ensures AllFit(values)
  {
    if values != [] {
      NumbersFit(values[1..]);
    }
  }

  /** A card after a number put over it. */
  function Next(line: string, key: string, v: string): (r: string)
    requires |key| <= 8 && |line| == LINE && FitsNumber(v)
    ensures |r| == LINE
  {
    PutLine(key, v, OldComment(line))
  }

  /** A card after each of a list of number puts. */
  function Reput(line: string, key: string, values: seq<string>): (r: string)
    requires |key| <= 8 && |line| == LINE
    requires AllFit(values)
    ensures |r| == LINE
    decreases |values|
  {
    if values == [] then line else Reput(Next(line, key, values[0]), key, values[1..])
  }

  lemma PutWithComment(key: string, v: string, c: string)
    requires LegalKey(key) && LegalComment(c) && NumberText(v)
    ensures Fits(v, c + " ")
    ensures var next := PutLine(key, v, c + " ");
      Commented(next, c) && KeyOf(next) == key && GetText(next) == DropMinusZero(v)
  {
    var kept := c + " ";
    assert CardComment(kept);
    PutLineNumber(key, v, kept);
    var next := PutLine(key, v, kept);
    NumberColumnsMakeCard(next, key, v, kept);
    GetAfterPutNumber(next, key, v, kept);
    TrailingBlankIsNothing(next, c);
  }

  lemma TrailingBlankIsNothing(line: string, c: string)
    requires |line| == LINE && |c| <= 43 && TailColumns(line, VALUE_END, VALUE_END, c + " ")
    ensures HasComment(line, c)
  {
    var kept := c + " ";
    assert kept != "" && CommentColumns(line, VALUE_END, kept);
  }

  /** A number card with comment `c`. */
  ghost predicate Commented(line: string, c: string)
    ensures Commented(line, c) ==> |line| == LINE
  {
    Card(line) && NumberCard(line) && HasComment(line, c)
  }

  ghost predicate Shows(line: string, key: string, v: string) {
    |line| == LINE && KeyOf(line) == key && GetText(line) == DropMinusZero(v)
  }

  lemma NextKeepsComment(line: string, key: string, v: string, c: string)
    requires Commented(line, c) && LegalComment(c) && LegalKey(key) && NumberText(v)
    ensures FitsNumber(v) && Commented(Next(line, key, v), c) && Shows(Next(line, key, v), key, v)
  {
    OldCommentIs(line, c);
    PutWithComment(key, v, c);
  }

  /** Any number of number puts keep the comment, and the card holds the latest number. */
  lemma {:induction false} NumberPutsKeepComment(line: string, key: string, values: seq<string>, c: string)
    requires Commented(line, c) && LegalKey(key) && LegalComment(c)
    requires AllNumbers(values)
    ensures AllFit(values)
    ensures Commented(Reput(line, key, values), c)
    ensures values != [] ==> Shows(Reput(line, key, values), key, values[|values| - 1])
    decreases |values|
  {
    hide Next, Commented, Shows, LegalComment, NumberText;
    NumbersFit(values);
    if values != [] {
      NextKeepsComment(line, key, values[0], c);
      NumberPutsKeepComment(Next(line, key, values[0]), key, values[1..], c);
    }
  }

  /** hputcom stores its comment whole on a number card, replacing any earlier comment. */
  lemma ComStoresComment(line: string, c: string)
    requires Card(line) && NumberCard(line) && LegalComment(c)
    ensures CommentFits(line, c) && ComLine(line, c).Some?
    ensures HasComment(ComLine(line, c).value, c)
  {
    ComKeepsNumber(line, c);
  }
}
