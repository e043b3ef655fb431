/** How a list of cards lies in the status buffer: the cards, the END line, and the tail. */
module Layout {
  import opened CText
  import opened Search
  import opened Cards
  import opened Store

  const END_LINE: string := "END" + Blanks(LINE - 3)

  function LineAt(s: seq<char>, i: nat): (r: string)
    requires LINE * i + LINE <= |s|
    ensures |r| == LINE
    ensures forall c | 0 <= c < LINE :: r[c] == s[LINE * i + c]
  {
    s[LINE * i..LINE * i + LINE]
  }

  /** Behind END: the next line starts with NUL or is a stale copy of END, and every later
      line starts with NUL. */
  ghost predicate Tail(s: seq<char>, n: nat)
    requires |s| == TOTAL_SIZE
  {
    && n < CAPACITY
    && (LineAt(s, n)[0] == NUL || (LineAt(s, n) == END_LINE && n + 1 < CAPACITY))
    && forall i: nat | n < i < CAPACITY :: LineAt(s, i)[0] == NUL
  }

  /** The buffer holds exactly these cards. */
  ghost predicate Represents(s: seq<char>, cards: seq<string>) {
    && |s| == TOTAL_SIZE
    && AllCards(cards)
    && |cards| + 1 < CAPACITY
    && (forall i: nat | i < |cards| :: LineAt(s, i) == cards[i])
    && LineAt(s, |cards|) == END_LINE
    && Tail(s, |cards| + 1)
  }

  // ------------------------------------------------------------------ keywords on a line

  ghost predicate KeyChars(k: string) { 1 <= |k| <= 8 && forall i | 0 <= i < |k| :: LegalKeyChar(k[i]) }

  /** Keyword `k` starts in column `c` of the line. */
  ghost predicate KeyOnLine(line: string, c: nat, k: string)
    requires |line| == LINE
  {
    && c <= 7 && |k| <= 8
    && FoldOccurs(line, c, k)
    && !ContinuesKey(line[c + |k|])
    && forall j | 0 <= j < c :: line[j] == BLANK
  }

  lemma UpperOfBlank(c: char)
    ensures Upper(c) == BLANK ==> c == BLANK
  {
  }

  /** A card is found by its own keyword, any letter case, and by no prefix or extension of it. */
  lemma KeyOnCard(line: string, c: nat, k: string)
    requires Card(line) && KeyChars(k)
    ensures KeyOnLine(line, c, k) <==> c == 0 && NameOf(line) == FoldText(k)
  {
    var own := KeyOf(line);
    var m := |own|;
    assert forall i | 0 <= i < m :: line[i] == own[i] && LegalKeyChar(own[i]);
    assert |k| < m ==> ContinuesKey(line[|k|]);
    assert |k| > m ==> line[m] == BLANK;
    if |k| > m {
      UpperOfBlank(k[m]);
    }
    if KeyOnLine(line, c, k) {
      assert c == 0;
      assert |k| == m;
      assert FoldText(own) == FoldText(k);
    }
    if c == 0 && FoldText(own) == FoldText(k) {
      assert m == |k|;
      forall i | 0 <= i < |k|
        ensures Upper(line[i]) == Upper(k[i])
      {
        assert FoldText(own)[i] == FoldText(k)[i];
      }
    }
  }

  lemma KeyOnEnd(c: nat, k: string)
    requires KeyChars(k)
    ensures KeyOnLine(END_LINE, c, k) <==> c == 0 && FoldText(k) == "END"
  {
    var line := END_LINE;
    assert line[0] == 'E' && line[1] == 'N' && line[2] == 'D' && forall i | 3 <= i < LINE :: line[i] == BLANK;
    if |k| > 3 {
      UpperOfBlank(k[3]);
    }
    if KeyOnLine(line, c, k) {
      assert c == 0;
      assert |k| == 3;
      assert forall i | 0 <= i < 3 :: Upper(line[i]) == Upper(k[i]);
      assert FoldText(k) == "END";
    }
    if c == 0 && FoldText(k) == "END" {
      assert |k| == 3;
      assert FoldText(k)[0] == 'E' && FoldText(k)[1] == 'N' && FoldText(k)[2] == 'D';
    }
  }

  // ------------------------------------------------------------------ searching the buffer

  /** Where the header text ends: one or two lines behind the last card. */
  lemma HeadLengthOf(s: seq<char>, cards: seq<string>, head: nat)
    requires Represents(s, cards) && IsHeadLength(s, head)
    ensures LINE * (|cards| + 1) <= head <= LINE * (|cards| + 2)
    ensures head > LINE * (|cards| + 1) ==> LineAt(s, |cards| + 1) == END_LINE && |cards| + 2 < CAPACITY
  {
    var e := |cards|;
    forall p: nat | p < LINE * (e + 1)
      ensures s[p] != NUL
    {
      var i, c := p / LINE, p % LINE;
      assert s[p] == LineAt(s, i)[c];
      if i < e {
        assert Card(cards[i]);
      }
    }
    if LineAt(s, e + 1)[0] == NUL {
      assert s[LINE * (e + 1)] == NUL;
    } else {
      assert LineAt(s, e + 2)[0] == NUL;
      assert s[LINE * (e + 2)] == NUL;
    }
  }

  lemma FoldOccursOnLine(s: seq<char>, i: nat, c: nat, k: string)
    requires LINE * i + LINE <= |s| && c + |k| <= LINE
    ensures FoldOccurs(s, LINE * i + c, k) <==> FoldOccurs(LineAt(s, i), c, k)
  {
    var line := LineAt(s, i);
    if FoldOccurs(line, c, k) {
      forall j | 0 <= j < |k|
        ensures Upper(s[LINE * i + c + j]) == Upper(k[j])
      {
        assert line[c + j] == s[LINE * i + (c + j)];
      }
    }
    if FoldOccurs(s, LINE * i + c, k) {
      forall j | 0 <= j < |k|
        ensures Upper(line[c + j]) == Upper(k[j])
      {
        assert line[c + j] == s[LINE * i + (c + j)];
      }
    }
  }

  /** Inside the lines up to the head length, a keyword position is a position on its line. */
  lemma KeyAtIsOnLine(s: seq<char>, head: nat, k: string, p: nat)
    requires |s| == TOTAL_SIZE && head < |s| && |k| <= 8
    requires p < head && p % LINE <= 7 ==> p + |k| <= head
    requires p < head
    ensures KeyAt(s, head, k, p) <==> KeyOnLine(LineAt(s, p / LINE), p % LINE, k)
  {
    var i, c := p / LINE, p % LINE;
    var line := LineAt(s, i);
    if c <= 7 {
      assert forall j | 0 <= j <= c + |k| :: s[LINE * i + j] == line[j];
      assert p - p % LINE == LINE * i;
      FoldOccursOnLine(s, i, c, k);
      assert BlankBefore(s, p) <==> forall j | 0 <= j < c :: line[j] == BLANK by {
        assert forall j | 0 <= j < c :: s[LINE * i + j] == line[j];
        if BlankBefore(s, p) {
          forall j | 0 <= j < c ensures line[j] == BLANK { assert s[LINE * i + j] == BLANK; }
        }
        if forall j | 0 <= j < c :: line[j] == BLANK {
          forall q | LINE * i <= q < p ensures s[q] == BLANK { assert s[q] == line[q - LINE * i]; }
        }
      }
    }
  }

  /** The positions where a legal keyword starts are the starts of its cards. */
  lemma LegalKeyAt(s: seq<char>, cards: seq<string>, head: nat, k: string, p: nat)
    requires Represents(s, cards) && IsHeadLength(s, head) && LegalKey(k)
    ensures KeyAt(s, head, k, p) <==>
      p % LINE == 0 && p / LINE < |cards| && NameOf(cards[p / LINE]) == FoldText(k)
  {
    HeadLengthOf(s, cards, head);
    var i, c := p / LINE, p % LINE;
    var e := |cards|;
    if p < head {
      KeyAtIsOnLine(s, head, k, p);
      if i < e {
        KeyOnCard(cards[i], c, k);
      } else {
        assert LineAt(s, i) == END_LINE;
        KeyOnEnd(c, k);
      }
    }
  }

  /** END is found on its own line, never on a card, and never behind it first. */
  lemma EndKeyAt(s: seq<char>, cards: seq<string>, head: nat, p: nat)
    requires Represents(s, cards) && IsHeadLength(s, head)
    requires p <= LINE * |cards|
    ensures KeyAt(s, head, "END", p) <==> p == LINE * |cards|
  {
    HeadLengthOf(s, cards, head);
    var i, c := p / LINE, p % LINE;
    KeyAtIsOnLine(s, head, "END", p);
    assert KeyChars("END") && FoldText("END") == "END";
    if i < |cards| {
      KeyOnCard(cards[i], c, "END");
    } else {
      KeyOnEnd(c, "END");
    }
  }

  /** A card with keyword `k` starts at `p`. */
  ghost predicate CardStartsAt(cards: seq<string>, k: string, p: nat)
    requires AllLines(cards)
  {
    p % LINE == 0 && p / LINE < |cards| && NameOf(cards[p / LINE]) == FoldText(k)
  }

  lemma FirstCardStart(cards: seq<string>, key: string)
    requires AllLines(cards)
    ensures match Find(cards, key)
      case None => forall p: nat :: !CardStartsAt(cards, Key8(key), p)
      case Some(i) =>
        CardStartsAt(cards, Key8(key), LINE * i) && LINE * i % LINE == 0
        && forall p: nat | p < LINE * i :: !CardStartsAt(cards, Key8(key), p)
  {
    hide NameOf, FoldText, Key8;
    match Find(cards, key)
    case None =>
    case Some(i) =>
      forall p: nat | p < LINE * i
        ensures !CardStartsAt(cards, Key8(key), p)
      {
        assert p / LINE < i;
      }
  }

  /** A search returns the line of the least position. */
  lemma SearchIsLeast(s: seq<char>, head: nat, k: string, r: Option<nat>, at: nat)
    requires head < |s| && IsCardSearchIn(s, head, k, r)
    requires KeyAt(s, head, k, at) && at % LINE == 0
    requires forall p: nat | p < at :: !KeyAt(s, head, k, p)
    ensures r == Some(at)
  {
    hide KeyAt;
  }

  /** ksearch on the buffer is the search of the card list. */
  lemma SearchFindsCard(s: seq<char>, cards: seq<string>, key: string, r: Option<nat>)
    requires Represents(s, cards) && LegalKey(Key8(key))
    requires NUL in s && IsCardSearch(s, Key8(key), r)
    ensures match Find(cards, key)
      case None => r == None
      case Some(i) => r == Some(LINE * i)
  {
    var k := Key8(key);
    assert AllLines(cards);
    var head: nat :| IsHeadLength(s, head) && IsCardSearchIn(s, head, k, r);
    assert head < |s|;
    FirstCardStart(cards, key);
    hide KeyAt, IsHeadLength, Represents, LegalKey, Key8, AllLines, IsCardSearch, CardStartsAt, Find, LineAt;
    forall p: nat
      ensures KeyAt(s, head, k, p) <==> CardStartsAt(cards, k, p)
    {
      LegalKeyStarts(s, cards, head, k, p);
    }
    match Find(cards, key)
    case None =>
    case Some(i) =>
      hide IsCardSearchIn;
      SearchIsLeast(s, head, k, r, LINE * i);
  }

  lemma LegalKeyStarts(s: seq<char>, cards: seq<string>, head: nat, k: string, p: nat)
    requires Represents(s, cards) && IsHeadLength(s, head) && LegalKey(k) && AllLines(cards)
    ensures KeyAt(s, head, k, p) <==> CardStartsAt(cards, k, p)
  {
    hide KeyAt, IsHeadLength, Represents, LegalKey, NameOf, FoldText;
    LegalKeyAt(s, cards, head, k, p);
  }

  lemma SearchFindsEnd(s: seq<char>, cards: seq<string>, r: Option<nat>)
    requires Represents(s, cards)
    requires NUL in s && IsCardSearch(s, "END", r)
    ensures r == Some(LINE * |cards|)
  {
    var head: nat :| IsHeadLength(s, head) && IsCardSearchIn(s, head, "END", r);
    assert head < |s|;
    var at := LINE * |cards|;
    assert at % LINE == 0;
    forall p: nat | p <= at
      ensures KeyAt(s, head, "END", p) <==> p == at
    {
      EndKeyAt(s, cards, head, p);
    }
    hide KeyAt, IsHeadLength, Represents, IsCardSearch, IsCardSearchIn;
    SearchIsLeast(s, head, "END", r, at);
  }

  lemma HasNul(s: seq<char>, cards: seq<string>)
    requires Represents(s, cards)
    ensures NUL in s
  {
    var e := |cards|;
    if LineAt(s, e + 1)[0] == NUL {
      assert s[LINE * (e + 1)] == NUL;
    } else {
      assert LineAt(s, e + 2)[0] == NUL;
      assert s[LINE * (e + 2)] == NUL;
    }
  }

  // ------------------------------------------------------------------ writing whole lines

  lemma LineAtSplice(s: seq<char>, i: nat, data: string, j: nat)
    requires LINE * i + LINE <= |s| && LINE * j + LINE <= |s| && |data| == LINE
    ensures LineAt(Splice(s, LINE * i, data), j) == if j == i then data else LineAt(s, j)
  {
    var t := Splice(s, LINE * i, data);
    forall c | 0 <= c < LINE
      ensures LineAt(t, j)[c] == if j == i then data[c] else LineAt(s, j)[c]
    {
      assert t[LINE * j + c] == if j == i then data[c] else s[LINE * j + c];
    }
  }

  /** Writing inside a line is writing the line anew. */
  lemma SpliceInLine(s: seq<char>, at: nat, line: string, column: nat, data: string)
    requires |line| == LINE && at + LINE <= |s| && column + |data| <= LINE
    ensures Splice(Splice(s, at, line), at + column, data) == Splice(s, at, Splice(line, column, data))
  {
  }

  lemma SpliceBack(s: seq<char>, at: nat)
    requires at + LINE <= |s|
    ensures Splice(s, at, s[at..at + LINE]) == s
  {
  }

  lemma Exchanged(s: seq<char>, t: seq<char>, cards: seq<string>, at: nat, line: string)
    requires Represents(s, cards) && at < |cards| && |t| == TOTAL_SIZE && Card(line)
    requires forall j: nat {:trigger LineAt(t, j)} | j < CAPACITY :: LineAt(t, j) == if j == at then line else LineAt(s, j)
    ensures Represents(t, cards[at := line])
  {
    hide Card, LineAt;
    var e := |cards|;
    assert LineAt(t, e) == LineAt(s, e) && LineAt(t, e + 1) == LineAt(s, e + 1);
    forall i: nat | e + 1 < i < CAPACITY
      ensures LineAt(t, i)[0] == NUL
    {
      assert LineAt(t, i) == LineAt(s, i);
    }
  }

  lemma Replaced(s: seq<char>, cards: seq<string>, i: nat, line: string)
    requires Represents(s, cards) && i < |cards| && Card(line)
    ensures Represents(Splice(s, LINE * i, line), cards[i := line])
  {
    var t := Splice(s, LINE * i, line);
    assert |line| == LINE && |s| == TOTAL_SIZE;
    hide Card, Represents, Splice, LineAt;
    forall j: nat | j < CAPACITY
      ensures LineAt(t, j) == if j == i then line else LineAt(s, j)
    {
      LineAtSplice(s, i, line, j);
    }
    Exchanged(s, t, cards, i, line);
  }

  lemma Extended(s: seq<char>, u: seq<char>, cards: seq<string>, line: string)
    requires Represents(s, cards) && |cards| + 2 < CAPACITY && |u| == TOTAL_SIZE && Card(line)
    requires forall j: nat {:trigger LineAt(u, j)} | j < CAPACITY ::
      LineAt(u, j) == if j == |cards| then line else if j == |cards| + 1 then END_LINE else LineAt(s, j)
    ensures Represents(u, cards + [line])
  {
    hide Card;
    forall i: nat | |cards| + 1 < i < CAPACITY
      ensures LineAt(u, i)[0] == NUL
    {
      assert LineAt(u, i) == LineAt(s, i);
    }
  }

  lemma Appended(s: seq<char>, cards: seq<string>, line: string)
    requires Represents(s, cards) && |cards| + 2 < CAPACITY && Card(line)
    ensures Represents(Splice(Splice(s, LINE * (|cards| + 1), END_LINE), LINE * |cards|, line), cards + [line])
  {
    var e := |cards|;
    var t := Splice(s, LINE * (e + 1), END_LINE);
    var u := Splice(t, LINE * e, line);
    assert |line| == LINE && |s| == TOTAL_SIZE;
    hide Card, Represents, Splice;
    forall j: nat | j < CAPACITY
      ensures LineAt(u, j) == if j == e then line else if j == e + 1 then END_LINE else LineAt(s, j)
    {
      LineAtSplice(s, e + 1, END_LINE, j);
      LineAtSplice(t, e, line, j);
    }
    Extended(s, u, cards, line);
  }

  /** Every line from `at` up to END has moved up by one. The old END line stays where it
      was, a stale copy, and a NUL starts the line behind it. */
  lemma Shifted(s: seq<char>, t: seq<char>, cards: seq<string>, at: nat)
    requires Represents(s, cards) && at < |cards| && |t| == TOTAL_SIZE
    requires forall j: nat {:trigger LineAt(t, j)} | j < CAPACITY && j != |cards| + 1 ::
      LineAt(t, j) == if at <= j < |cards| then LineAt(s, j + 1) else LineAt(s, j)
    requires LineAt(t, |cards| + 1)[0] == NUL
    ensures Represents(t, cards[..at] + cards[at + 1..])
  {
    hide Card;
    var e := |cards|;
    var rest := cards[..at] + cards[at + 1..];
    assert forall j | 0 <= j < |rest| :: rest[j] == cards[if j < at then j else j + 1];
    assert LineAt(t, e) == LineAt(s, e) == END_LINE;
    assert LineAt(t, e - 1) == LineAt(s, e);
    forall i: nat | e < i < CAPACITY
      ensures LineAt(t, i)[0] == NUL
    {
      if i > e + 1 {
        assert LineAt(t, i) == LineAt(s, i);
      }
    }
  }

  lemma Inserted(s: seq<char>, t: seq<char>, cards: seq<string>, at: nat, line: string)
    requires Represents(s, cards) && at <= |cards| && |cards| + 2 < CAPACITY && |t| == TOTAL_SIZE && Card(line)
    requires forall j: nat {:trigger LineAt(t, j)} | j < CAPACITY ::
      LineAt(t, j) == if j == at then line else if at < j <= |cards| + 1 then LineAt(s, j - 1) else LineAt(s, j)
    ensures Represents(t, cards[..at] + [line] + cards[at..])
  {
    hide Card;
    var e := |cards|;
    var rest := cards[..at] + [line] + cards[at..];
    assert forall j | 0 <= j < |rest| :: rest[j] == if j < at then cards[j] else if j == at then line else cards[j - 1];
    assert LineAt(t, e + 1) == LineAt(s, e) == END_LINE;
    forall i: nat | e + 1 < i < CAPACITY
      ensures LineAt(t, i)[0] == NUL
    {
      assert LineAt(t, i) == LineAt(s, i);
    }
  }

  /** An END line and nothing but NULs behind it is the empty list. */
  lemma EmptyStore(s: seq<char>)
    requires |s| == TOTAL_SIZE && LineAt(s, 0) == END_LINE
    requires forall i | LINE <= i < TOTAL_SIZE :: s[i] == NUL
    ensures Represents(s, [])
  {
    forall i: nat | 0 < i < CAPACITY
      ensures LineAt(s, i)[0] == NUL
    {
      assert LineAt(s, i)[0] == s[LINE * i];
    }
  }

  // ------------------------------------------------------------------ the writes of one put

  /** hputc's writes to the 80 columns of a card, one after the other. */
  function Written(key: string, value: string, comment: string): (r: string)
    requires |key| <= 8 && Fits(value, comment)
    ensures |r| == LINE
  {
    var keyed := Splice(Splice(Splice(Blanks(LINE), 0, key), 8, "="), 9, " ");
    var valued := if IsQuoted(value) then Splice(keyed, 10, value) else Splice(keyed, VALUE_END - |value|, value);
    if comment == "" then valued else CommentWrites(valued, CommentColumn(value), comment)
  }

  function CommentWrites(line: string, column: nat, comment: string): (r: string)
    requires |line| == LINE && column + 3 <= LINE
    ensures |r| == LINE
  {
    Splice(Splice(Splice(line, column, " / "), column + 3, Blanks(LINE - column - 3)),
           column + 3, Cut(comment, LINE - column - 3))
  }

  lemma CommentWritesColumns(line: string, column: nat, comment: string)
    requires |line| == LINE && column + 3 <= LINE
    ensures var after := CommentWrites(line, column, comment);
      CommentColumns(after, column, comment) && forall i | 0 <= i < column :: after[i] == line[i]
  {
  }

  lemma WrittenColumns(key: string, value: string)
    requires 1 <= |key| <= 8 && Fits(value, "")
    ensures var line := Written(key, value, "");
      && KeyColumns(line, key)
      && (!IsQuoted(value) ==> NumberColumns(line, value) && BlankColumns(line, VALUE_END, LINE))
      && (IsQuoted(value) ==> StringColumns(line, value) && BlankColumns(line, 10 + |value|, LINE))
  {
  }

  /** Columns settle a card. */
  lemma ColumnsSettle(a: string, b: string, key: string, v: string, comment: string)
    requires Fits(v, comment) && |a| == |b| == LINE
    requires KeyColumns(a, key) && KeyColumns(b, key)
    requires !IsQuoted(v) ==> NumberColumns(a, v) && TailColumns(a, VALUE_END, VALUE_END, comment)
    requires !IsQuoted(v) ==> NumberColumns(b, v) && TailColumns(b, VALUE_END, VALUE_END, comment)
    requires IsQuoted(v) ==> StringColumns(a, v) && TailColumns(a, 10 + |v|, CommentColumn(v), comment)
    requires IsQuoted(v) ==> StringColumns(b, v) && TailColumns(b, 10 + |v|, CommentColumn(v), comment)
    ensures a == b
  {
    forall i | 0 <= i < LINE
      ensures a[i] == b[i]
    {
    }
  }

  lemma WrittenTail(key: string, value: string, comment: string)
    requires 1 <= |key| <= 8 && Fits(value, comment)
    ensures var line := Written(key, value, comment);
      && KeyColumns(line, key)
      && (!IsQuoted(value) ==> NumberColumns(line, value) && TailColumns(line, VALUE_END, VALUE_END, comment))
      && (IsQuoted(value) ==> StringColumns(line, value) && TailColumns(line, 10 + |value|, CommentColumn(value), comment))
  {
    var line := Written(key, value, comment);
    var plain := Written(key, value, "");
    assert Fits(value, "");
    assert line == if comment == "" then plain else CommentWrites(plain, CommentColumn(value), comment);
    hide Written, CommentWrites, CommentColumn, KeyColumns, NumberColumns, StringColumns, BlankColumns, CommentColumns;
    WrittenColumns(key, value);
    if comment != "" {
      assert CommentColumn(value) + 3 <= LINE;
      ColumnRange(value);
      CommentWritesColumns(plain, CommentColumn(value), comment);
      ColumnsKept(plain, line, CommentColumn(value), key, value);
    }
  }

  lemma ColumnsKept(line: string, after: string, column: nat, key: string, value: string)
    requires |line| == |after| == LINE && VALUE_END <= column <= LINE
    requires forall i | 0 <= i < column :: after[i] == line[i]
    ensures KeyColumns(line, key) ==> KeyColumns(after, key)
    ensures |value| <= NUMBER_WIDTH && NumberColumns(line, value) ==> NumberColumns(after, value)
    ensures |value| <= TEXT_WIDTH + 2 && 10 + |value| <= column && StringColumns(line, value) ==> StringColumns(after, value)
    ensures forall e: nat :: BlankColumns(line, e, LINE) ==> BlankColumns(after, e, column)
  {
  }

  lemma ColumnRange(value: string)
    requires if IsQuoted(value) then |value| <= TEXT_WIDTH + 2 else |value| <= NUMBER_WIDTH
    ensures VALUE_END <= CommentColumn(value) && (IsQuoted(value) ==> 10 + |value| <= CommentColumn(value))
    ensures !IsQuoted(value) ==> CommentColumn(value) == VALUE_END
  {
  }

  lemma WrittenIsPutLine(key: string, value: string, comment: string)
    requires 1 <= |key| <= 8 && Fits(value, comment)
    ensures Written(key, value, comment) == PutLine(key, value, comment)
  {
    var line := Written(key, value, comment);
    WrittenTail(key, value, comment);
    hide Written, PutLine;
    if IsQuoted(value) {
      PutLineString(key, value, comment);
    } else {
      PutLineNumber(key, value, comment);
    }
    ColumnsSettle(line, PutLine(key, value, comment), key, value, comment);
  }

  // ------------------------------------------------------------------ searching from a later line

  lemma LaterEndKeyAt(s: seq<char>, cards: seq<string>, at: nat, head: nat, p: nat)
    requires Represents(s, cards) && at <= |cards| && p <= LINE * (|cards| - at)
    requires LINE * at + head < |s| && IsHeadLength(s, head + LINE * at)
    ensures KeyAt(s[LINE * at..], head, "END", p) <==> p == LINE * (|cards| - at)
  {
    hide KeyAt, IsHeadLength, Represents;
    LaterKeyAt(s, at, head, "END", p);
    EndKeyAt(s, cards, head + LINE * at, p + LINE * at);
  }

  /** The buffer from line `at` on keeps its columns, so END is found on the same line. */
  lemma SearchFindsEndFrom(s: seq<char>, cards: seq<string>, at: nat, r: Option<nat>)
    requires Represents(s, cards) && at <= |cards|
    requires var rest := s[LINE * at..]; NUL in rest && IsCardSearch(rest, "END", r)
    ensures r == Some(LINE * (|cards| - at))
  {
    var off := LINE * at;
    var rest := s[off..];
    var head: nat :| IsHeadLength(rest, head) && IsCardSearchIn(rest, head, "END", r);
    LaterHeadLength(s, cards, at, head);
    var end := LINE * (|cards| - at);
    assert end % LINE == 0;
    assert head < |rest|;
    hide KeyAt, IsHeadLength, Represents, IsCardSearch;
    forall p: nat | p <= end
      ensures KeyAt(rest, head, "END", p) <==> p == end
    {
      LaterEndKeyAt(s, cards, at, head, p);
    }
    hide IsCardSearchIn;
    SearchIsLeast(rest, head, "END", r, end);
  }

  lemma NoNulInCards(s: seq<char>, cards: seq<string>, i: nat)
    requires Represents(s, cards) && i <= |cards|
    ensures NUL !in LineAt(s, i)
  {
    if i < |cards| {
      assert Card(cards[i]);
    }
  }

  lemma LaterHeadLength(s: seq<char>, cards: seq<string>, at: nat, head: nat)
    requires Represents(s, cards) && at <= |cards|
    requires IsHeadLength(s[LINE * at..], head)
    ensures IsHeadLength(s, head + LINE * at)
  {
    var off := LINE * at;
    var rest := s[off..];
    forall p | 0 <= p < head + off
      ensures s[p] != NUL
    {
      if p >= off {
        assert s[p] == rest[p - off];
      } else {
        NoNulInCards(s, cards, p / LINE);
        assert s[p] == LineAt(s, p / LINE)[p % LINE];
      }
    }
  }

  lemma LaterKeyAt(s: seq<char>, at: nat, head: nat, key: string, p: nat)
    requires LINE * at + head < |s|
    ensures KeyAt(s[LINE * at..], head, key, p) <==> KeyAt(s, head + LINE * at, key, p + LINE * at)
  {
    var off := LINE * at;
    var rest := s[off..];
    if p < head && p + |key| <= head {
      assert (p + off) % LINE == p % LINE;
      assert rest[p + |key|] == s[p + off + |key|];
      LaterOccurs(s, off, p, key);
      LaterBlanks(s, off, p);
    }
  }

  lemma LaterOccurs(s: seq<char>, off: nat, p: nat, key: string)
    requires off + p + |key| <= |s|
    ensures FoldOccurs(s[off..], p, key) <==> FoldOccurs(s, p + off, key)
  {
    var rest := s[off..];
    if FoldOccurs(rest, p, key) {
      forall i | 0 <= i < |key|
        ensures Upper(s[p + off + i]) == Upper(key[i])
      {
        assert rest[p + i] == s[p + off + i];
      }
    }
    if FoldOccurs(s, p + off, key) {
      forall i | 0 <= i < |key|
        ensures Upper(rest[p + i]) == Upper(key[i])
      {
        assert rest[p + i] == s[p + off + i];
      }
    }
  }

  lemma LaterBlanks(s: seq<char>, off: nat, p: nat)
    requires off + p <= |s| && off % LINE == 0
    ensures BlankBefore(s[off..], p) <==> BlankBefore(s, p + off)
  {
    var rest := s[off..];
    assert (p + off) % LINE == p % LINE;
    if BlankBefore(rest, p) {
      forall i | p + off - (p + off) % LINE <= i < p + off
        ensures s[i] == BLANK
      {
        assert rest[i - off] == s[i];
      }
    }
    if BlankBefore(s, p + off) {
      forall i | p - p % LINE <= i < p
        ensures rest[i] == BLANK
      {
        assert rest[i] == s[i + off];
      }
    }
  }

  lemma HasNulFrom(s: seq<char>, cards: seq<string>, at: nat)
    requires Represents(s, cards) && at <= |cards|
    ensures NUL in s[LINE * at..]
  {
    var rest := s[LINE * at..];
    var e := |cards|;
    var n := if LineAt(s, e + 1)[0] == NUL then e + 1 else e + 2;
    assert LineAt(s, n)[0] == NUL;
    assert rest[LINE * (n - at)] == s[LINE * n] == NUL;
  }

  // ------------------------------------------------------------------ a card added by hadd

  /** The card hadd writes: the keyword, `=` unless the keyword fills all eight columns, blanks. */
  function AddLine(previous: string, key: string): (r: string)
    requires |previous| == LINE && |key| <= 8
    ensures |r| == LINE
  {
    PadRight(key, 8) + [if |key| < 8 then '=' else previous[8]] + Blanks(LINE - 9)
  }

  lemma AddLineCard(previous: string, key: string)
    requires |previous| == LINE && LegalKey(key) && (previous[8] == '=' || previous[8] == BLANK)
    ensures Card(AddLine(previous, key)) && KeyOf(AddLine(previous, key)) == key
  {
    var line := AddLine(previous, key);
    assert |KeyOf(line)| == |key|;
    assert NumberCard(line);
  }

  /** The columns of an added card: the keyword, `=` behind a keyword of less than eight characters,
      what was in column 9 before behind one of eight, and blanks. */
  lemma AddLayout(previous: string, key: string)
    requires |previous| == LINE && 1 <= |key| <= 8
    ensures var line := AddLine(previous, key);
      && (forall i | 0 <= i < 8 :: line[i] == if i < |key| then key[i] else ' ')
      && line[8] == (if |key| < 8 then '=' else previous[8])
      && forall i | 9 <= i < 80 :: line[i] == ' '
  {
  }
}
