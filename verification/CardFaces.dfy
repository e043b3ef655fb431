/** What a reader sees of a card: its text, its comment, and where the comment stands or would
    stand. Puts of texts, numbers and comments, one after the other, on one card and in runs. */
module CardFaces {
  import opened CText
  import opened Search
  import opened Cards
  import opened Extents
  import opened Store
  import opened CardMap

  datatype Face = Face(text: string, comment: Option<string>, start: nat)

  /** A comment that hputcom stores whole from column `start` on, with a blank behind it. */
  ghost predicate Placed(c: string, start: nat) {
    c != "" && PlainText(c) && c[|c| - 1] != BLANK && start + 3 + |c| < LINE
  }

  ghost predicate Faces(line: string, f: Face)
    ensures Faces(line, f) ==> |line| == LINE
  {
    && Card(line) && line[8] == '=' && GetText(line) == f.text && CommentStart(line) == f.start
    && VALUE_END <= f.start
    && match f.comment
       case None => CommentSlash(line) == None && line[LINE - 1] == BLANK
       case Some(c) => Placed(c, f.start) && CommentColumns(line, f.start, c)
  }

  // ------------------------------------------------------------------ the comment a put takes off

  /** The comment of a string card, with the blank behind it: what a put keeps. */
  lemma OldCommentOfString(line: string, close: nat, column: nat, c: string)
    requires |line| == LINE && StringCard(line, close) && close < column < LINE - 3
    requires forall j | close <= j <= column :: line[j] != SLASH
    requires c != "" && c[|c| - 1] != BLANK && column + 3 + |c| < LINE && CommentColumns(line, column, c)
    ensures CommentSlash(line) == Some(column + 1) && OldComment(line) == c + " "
  {
    QuotesOfStringCard(line, close);
    IndexOfIs(line, SLASH, close, column + 1);
    assert CommentSlash(line) == Some(column + 1);
    hide CommentSlash, StringCard, KeptLength;
    KeptText(line, column, c);
  }

  lemma KeptText(line: string, column: nat, c: string)
    requires |line| == LINE && c != "" && c[|c| - 1] != BLANK && column + 3 + |c| < LINE
    requires CommentColumns(line, column, c)
    ensures var text := line[column + 3..]; text[..KeptLength(text, |text|)] == c + " "
  {
    var text := line[column + 3..];
    assert forall i | 0 <= i < |text| :: text[i] == line[column + 3 + i];
    hide KeptLength;
    KeptLengthOf(text, |text|, |c|);
    assert text[..|c| + 1] == c + " ";
  }

  lemma OldCommentOfFace(line: string, f: Face)
    requires Faces(line, f)
    ensures OldComment(line) == match f.comment case None => "" case Some(c) => c + " "
  {
    if f.comment.Some? {
      if NumberCard(line) {
        hide Card, GetText, OldComment;
        NumberComment(line, f.start, f.comment.value);
      } else {
        var close: nat :| StringCard(line, close);
        hide Card, GetText, OldComment, StringCard;
        StringComment(line, close, f.start, f.comment.value);
      }
    }
  }

  lemma NumberComment(line: string, start: nat, c: string)
    requires |line| == LINE && NumberCard(line) && CommentStart(line) == start
    requires Placed(c, start) && CommentColumns(line, start, c)
    ensures OldComment(line) == c + " "
  {
    CommentStartOfNumber(line);
    hide NumberCard, OldComment, CommentStart;
    OldCommentIs(line, c);
  }

  lemma StringComment(line: string, close: nat, start: nat, c: string)
    requires |line| == LINE && StringCard(line, close) && CommentStart(line) == start
    requires Placed(c, start) && CommentColumns(line, start, c)
    ensures OldComment(line) == c + " "
  {
    CommentStartOfString(line, close);
    hide OldComment, CommentStart, StringCard, CommentSlash;
    OldCommentOfString(line, close, start, c);
  }

  ghost function Kept(f: Face): string {
    match f.comment
    case None => ""
    case Some(c) => c + " "
  }

  // ------------------------------------------------------------------ one put

  /** A blank more at the end of a comment changes nothing on the card. */
  lemma BlankMore(line: string, column: nat, c: string)
    requires |line| == LINE && column + 3 <= LINE && CommentColumns(line, column, c + " ")
    ensures CommentColumns(line, column, c)
  {
  }

  lemma KeptIsCardComment(f: Face)
    requires f.comment.Some? ==> Placed(f.comment.value, f.start) && VALUE_END <= f.start
    ensures CardComment(Kept(f))
  {
  }

  /** A number put keeps the comment, in the number's comment column. */
  lemma NumberOnFace(line: string, f: Face, key: string, v: string)
    requires Faces(line, f) && LegalKey(key) && NumberText(v)
    ensures Fits(v, OldComment(line))
    ensures Faces(PutLine(key, v, OldComment(line)), Face(DropMinusZero(v), f.comment, VALUE_END))
  {
    OldCommentOfFace(line, f);
    KeptIsCardComment(f);
    NumberFace(key, v, f);
  }

  lemma NumberFace(key: string, v: string, f: Face)
    requires LegalKey(key) && NumberText(v) && CardComment(Kept(f))
    requires f.comment.Some? ==> Placed(f.comment.value, f.start) && VALUE_END <= f.start
    ensures Fits(v, Kept(f))
    ensures Faces(PutLine(key, v, Kept(f)), Face(DropMinusZero(v), f.comment, VALUE_END))
  {
    var line := PutLine(key, v, Kept(f));
    PutNumberCard(key, v, Kept(f));
    PutLineNumber(key, v, Kept(f));
    hide PutLine, Card, GetText;
    CommentStartOfNumber(line);
    SlashOfNumberCard(line);
    if f.comment.Some? {
      BlankMore(line, VALUE_END, f.comment.value);
    }
  }

  /** Where a comment stands behind a text that was put over one, or would stand otherwise. */
  ghost function StartBehind(text: string, commented: bool): nat {
    var v := Quoted(text);
    if commented then CommentColumn(v) else if 9 + |v| < VALUE_END then VALUE_END else 10 + |v|
  }

  /** A text put over a comment leaves the comment's columns behind the text, cut at the end of
      the card if need be. */
  lemma TextKeepsColumns(line: string, f: Face, key: string, text: string)
    requires Faces(line, f) && f.comment.Some? && LegalKey(key) && PlainText(text)
    requires Fits(Quoted(text), OldComment(line))
    ensures StartBehind(text, true) + 3 <= LINE
    ensures CommentColumns(PutLine(key, Quoted(text), OldComment(line)), StartBehind(text, true), f.comment.value)
  {
    OldCommentOfFace(line, f);
    PutLineString(key, Quoted(text), Kept(f));
    hide PutLine, Quoted, CommentColumn;
    BlankMore(PutLine(key, Quoted(text), Kept(f)), CommentColumn(Quoted(text)), f.comment.value);
  }

  /** A text put with room for the comment behind it keeps the comment whole. */
  lemma TextOnFace(line: string, f: Face, key: string, text: string)
    requires Faces(line, f) && LegalKey(key) && PlainText(text) && Fits(Quoted(text), OldComment(line))
    requires f.comment.Some? ==> Placed(f.comment.value, StartBehind(text, true))
    ensures Faces(PutLine(key, Quoted(text), OldComment(line)),
                  Face(Clean(text), f.comment, StartBehind(text, f.comment.Some?)))
  {
    OldCommentOfFace(line, f);
    KeptIsCardComment(f);
    PutTextCard(key, text, Kept(f));
    StartAfterText(key, text, Kept(f));
    var after := PutLine(key, Quoted(text), Kept(f));
    if f.comment.Some? {
      TextKeepsColumns(line, f, key, text);
    } else {
      NothingBehind(key, text);
    }
    hide PutLine, Card, GetText, CommentStart, CommentSlash;
  }

  lemma NothingBehind(key: string, text: string)
    requires LegalKey(key) && PlainText(text)
    ensures Fits(Quoted(text), "")
    ensures var line := PutLine(key, Quoted(text), ""); CommentSlash(line) == None && line[LINE - 1] == BLANK
  {
    TextFits(text, "");
    var v := Quoted(text);
    var line := PutLine(key, v, "");
    hide PutLine, Fits, Quoted, Card, CommentSlash, LegalKey, PlainText;
    PutLineString(key, v, "");
    StringColumnsMakeCard(line, key, text, "");
    SlashInTail(line, v, "");
    NoSlashOnCard(line, 9 + |v|);
  }

  lemma NoSlashOnCard(line: string, close: nat)
    requires |line| == LINE && StringCard(line, close) && IndexOf(line, SLASH, close) == None
    ensures CommentSlash(line) == None && line[LINE - 1] == BLANK
  {
    QuotesOfStringCard(line, close);
  }

  /** A comment put with room for it replaces the comment whole and keeps the text. */
  lemma CommentOnFace(line: string, f: Face, d: string)
    requires Faces(line, f) && Placed(d, f.start)
    ensures CommentFits(line, d) && ComLine(line, d).Some?
    ensures Faces(ComLine(line, d).value, Face(f.text, Some(d), f.start))
  {
    ComAtColumns(line, f.start, d);
    var after := ComLine(line, d).value;
    CommentedCard(line, d);
    WrittenColumns(line, after, f, d);
    StartStays(line, after, f.start, d);
    hide Card, GetText, ComLine, CommentFits, CommentStart;
  }

  lemma WrittenColumns(line: string, after: string, f: Face, d: string)
    requires Faces(line, f) && Placed(d, f.start) && CommentWritten(line, after, f.start, d)
    ensures |after| == LINE && CommentColumns(after, f.start, d) && after[8] == '='
  {
    hide Card, GetText, CommentStart, CommentSlash;
    assert line[LINE - 1] == BLANK;
  }

  lemma StartStays(line: string, after: string, start: nat, d: string)
    requires |line| == LINE && Card(line) && CommentStart(line) == start && VALUE_END <= start
    requires CommentFits(line, d) && ComLine(line, d) == Some(after) && PlainText(d)
    requires CommentWritten(line, after, start, d)
    ensures CommentStart(after) == start
  {
    hide Card, ComLine, CommentFits, CommentStart, CommentWritten;
    if NumberCard(line) {
      hide NumberCard;
      ComKeepsNumber(line, d);
      CommentStartOfNumber(line);
      CommentStartOfNumber(after);
    } else {
      var close: nat :| StringCard(line, close) by {
        TwoShapes(line);
      }
      hide StringCard, NumberCard;
      ComKeepsString(line, close, d);
      StringStartStays(line, after, close, start, d);
    }
  }

  lemma TwoShapes(line: string)
    requires Card(line) && !NumberCard(line)
    ensures exists close: nat :: StringCard(line, close)
  {
  }

  lemma StringStartStays(line: string, after: string, close: nat, start: nat, d: string)
    requires |line| == |after| == LINE && StringCard(line, close) && StringCard(after, close)
    requires CommentStart(line) == start && CommentWritten(line, after, start, d)
    ensures CommentStart(after) == start
  {
    CommentStartOfString(line, close);
    hide CommentStart, StringCard;
    StartAt(after, close, start);
  }

  lemma StartAt(line: string, close: nat, start: nat)
    requires |line| == LINE && StringCard(line, close) && close < start < LINE - 1 && line[start + 1] == SLASH
    requires forall j | close <= j <= start :: line[j] != SLASH
    ensures CommentStart(line) == start
  {
    IndexOfIs(line, SLASH, close, start + 1);
    hide CommentStart, StringCard;
    StartOfString(line, close);
  }

  // ------------------------------------------------------------------ in the store

  /** What an operation on the keyword makes of the face of its card. */
  ghost function FaceAfter(op: Op, f: Face): Face {
    match op
    case PutText(_, t) => Face(Clean(t), f.comment, StartBehind(t, f.comment.Some?))
    case PutNumber(_, v) => Face(DropMinusZero(v), f.comment, VALUE_END)
    case PutComment(_, d) => Face(f.text, Some(d), f.start)
    case Del(_) => f
  }

  /** The operation leaves the comment whole. */
  ghost predicate Roomy(op: Op, f: Face) {
    match op
    case PutText(_, t) => f.comment.Some? ==> Placed(f.comment.value, StartBehind(t, true))
    case PutNumber(_, v) => true
    case PutComment(_, d) => Placed(d, f.start)
    case Del(_) => false
  }

  ghost predicate Own(op: Op, key: string) { SameKey(Key8(op.key), Key8(key)) }

  /** Each operation on the keyword leaves the comment whole; on other keywords they are any. */
  ghost predicate RoomyRun(ops: seq<Op>, key: string, f: Face)
    decreases |ops|
  {
    ops == [] || (if Own(ops[0], key) then Roomy(ops[0], f) && RoomyRun(ops[1..], key, FaceAfter(ops[0], f))
                  else RoomyRun(ops[1..], key, f))
  }

  ghost function FinalFace(ops: seq<Op>, key: string, f: Face): Face
    decreases |ops|
  {
    if ops == [] then f else FinalFace(ops[1..], key, if Own(ops[0], key) then FaceAfter(ops[0], f) else f)
  }

  /** One operation on the card of its own keyword. */
  lemma OwnStepFace(cards: seq<string>, op: Op, f: Face)
    requires Good(cards) && Legal(cards, op) && Roomy(op, f)
    requires CardFor(cards, op.key).Some? && Faces(CardFor(cards, op.key).value, f)
    ensures Good(Step(cards, op)) && CardFor(Step(cards, op), op.key).Some?
    ensures Faces(CardFor(Step(cards, op), op.key).value, FaceAfter(op, f))
  {
    var line := CardFor(cards, op.key).value;
    StepOnLines(cards, op);
    CardIsLookup(Step(cards, op), op.key);
    FindIsLookup(cards, op.key);
    hide Good, Lines, Step, Faces, GetText, PutLine, ComLine, OldComment, StartBehind, Placed, CommentFits, Fits, Quoted;
    match op
    case PutText(k, t) => TextOnFace(line, f, Key8(k), t);
    case PutNumber(k, v) => NumberOnFace(line, f, Key8(k), v);
    case PutComment(k, d) => CommentOnFace(line, f, d);
  }

  lemma StepFace(cards: seq<string>, op: Op, key: string, f: Face)
    requires Good(cards) && Legal(cards, op) && (Own(op, key) ==> Roomy(op, f))
    requires CardFor(cards, key).Some? && Faces(CardFor(cards, key).value, f)
    ensures Good(Step(cards, op)) && CardFor(Step(cards, op), key).Some?
    ensures Faces(CardFor(Step(cards, op), key).value, if Own(op, key) then FaceAfter(op, f) else f)
  {
    hide Good, Legal, Step, CardFor, Faces, Roomy, FaceAfter, Key8, FoldText;
    if Own(op, key) {
      SameFind(cards, key, op.key);
      OwnStepFace(cards, op, f);
      SameFind(Step(cards, op), key, op.key);
    } else {
      OthersKeepTheirCard(cards, op, key);
    }
  }

  /** Over any legal run of texts, numbers and comments put on a keyword, each leaving room for
      the comment, and of anything on other keywords: the card shows the last text or number put,
      and holds the last comment put whole, behind the value. */
  lemma {:induction false} FacesInRuns(cards: seq<string>, ops: seq<Op>, key: string, f: Face)
    requires Good(cards) && LegalRun(cards, ops) && RoomyRun(ops, key, f)
    requires CardFor(cards, key).Some? && Faces(CardFor(cards, key).value, f)
    ensures var after := Run(cards, ops);
      && Good(after) && CardFor(after, key).Some?
      && Faces(CardFor(after, key).value, FinalFace(ops, key, f))
      && Get(after, key) == Some(FinalFace(ops, key, f).text)
    decreases |ops|
  {
    hide Good, Legal, Step, CardFor, Faces, Roomy, FaceAfter, Own;
    if ops != [] {
      var g := if Own(ops[0], key) then FaceAfter(ops[0], f) else f;
      StepFace(cards, ops[0], key, f);
      FacesInRuns(Step(cards, ops[0]), ops[1..], key, g);
    }
    GetIsCardText(Run(cards, ops), key);
    FaceText(CardFor(Run(cards, ops), key).value, FinalFace(ops, key, f));
  }

  lemma FaceText(line: string, f: Face)
    requires Faces(line, f)
    ensures |line| == LINE && GetText(line) == f.text
  {
    hide Card, GetText;
  }

  ghost function FaceOfFirst(op: Op): Face {
    match op
    case PutText(_, t) => Face(Clean(t), None, StartBehind(t, false))
    case PutNumber(_, v) => Face(DropMinusZero(v), None, VALUE_END)
    case _ => Face("", None, VALUE_END)
  }

  /** The first put on a keyword gives a card without a comment. */
  lemma FirstFace(cards: seq<string>, op: Op)
    requires Good(cards) && Legal(cards, op) && (op.PutText? || op.PutNumber?) && CardFor(cards, op.key).None?
    ensures Good(Step(cards, op)) && CardFor(Step(cards, op), op.key).Some?
    ensures Faces(CardFor(Step(cards, op), op.key).value, FaceOfFirst(op))
  {
    StepOnLines(cards, op);
    CardIsLookup(Step(cards, op), op.key);
    hide Good, Lines, Step, Faces, GetText, PutLine, OldComment, StartBehind, Fits, Quoted;
    match op
    case PutText(k, t) => FreshText(Key8(k), t);
    case PutNumber(k, v) =>
      var none := Face("", None, VALUE_END);
      KeptIsCardComment(none);
      NumberFace(Key8(k), v, none);
  }

  lemma FreshText(key: string, text: string)
    requires LegalKey(key) && PlainText(text)
    ensures Fits(Quoted(text), "")
    ensures Faces(PutLine(key, Quoted(text), ""), Face(Clean(text), None, StartBehind(text, false)))
  {
    TextFits(text, "");
    PutTextCard(key, text, "");
    StartAfterText(key, text, "");
    NothingBehind(key, text);
    hide PutLine, Card, GetText, CommentStart, CommentSlash;
  }

  // ------------------------------------------------------------------ the columns in numbers

  /** Blanks from column index `from` on; for a comment that is not empty only up to its slash, then
      a blank, the comment, and blanks. */
  ghost predicate CommentLayout(line: string, from: nat, slash: nat, comment: string) {
    && |line| == 80
    && (comment == "" ==> forall i | from <= i < 80 :: line[i] == ' ')
    && (comment != "" ==> from <= slash < 79)
    && (comment != "" ==> forall i | from <= i < slash :: line[i] == ' ')
    && (comment != "" ==> line[slash] == '/' && line[slash + 1] == ' ')
    && (comment != "" ==> forall i | slash + 2 <= i < 80 ::
          line[i] == if i - slash - 2 < |comment| then comment[i - slash - 2] else ' ')
  }

  /** A number card: keyword in columns 1 to 8, `=` in column 9, the number ending in column 33,
      and a comment's slash in column 35. */
  lemma NumberLayout(key: string, v: string, comment: string)
    requires LegalKey(key) && NumberText(v)
    ensures Fits(v, comment)
    ensures var line := PutLine(key, v, comment);
      && |line| == 80
      && (forall i | 0 <= i < 8 :: line[i] == if i < |key| then key[i] else ' ')
      && line[8] == '='
      && (forall i | 9 <= i < 33 :: line[i] == if i < 33 - |v| then ' ' else v[i - (33 - |v|)])
      && CommentLayout(line, 33, 34, comment)
  {
    PutLineNumber(key, v, comment);
    hide PutLine, TailColumns, CommentLayout;
    TailLayout(PutLine(key, v, comment), VALUE_END, VALUE_END, comment);
  }

  lemma TailLayout(line: string, end: nat, column: nat, comment: string)
    requires |line| == LINE && end <= LINE && end <= column && (comment != "" ==> column + 3 <= LINE)
    requires TailColumns(line, end, column, comment)
    ensures CommentLayout(line, end, column + 1, comment)
  {
  }

  /** A text card: the quote in column 11, the text of at most 67 characters behind it, the closing
      quote behind column 19 or the text, and a comment's slash in column 35 or four columns behind
      the closing quote, whichever comes later. */
  lemma TextLayout(key: string, text: string, comment: string)
    requires LegalKey(key) && PlainText(text) && (comment == "" || |text| <= 63)
    ensures Fits(Quoted(text), comment)
    ensures var line := PutLine(key, Quoted(text), comment);
      var n := if |text| <= 67 then |text| else 67;
      var close := 11 + if n < 8 then 8 else n;
      var slash := if close + 4 < 36 then 34 else close + 4;
      && |line| == 80
      && (forall i | 0 <= i < 8 :: line[i] == if i < |key| then key[i] else ' ')
      && line[8] == '=' && line[9] == ' ' && line[10] == '\''
      && (forall i | 11 <= i < close :: line[i] == if i - 11 < n then text[i - 11] else ' ')
      && line[close] == '\''
      && CommentLayout(line, close + 1, slash, comment)
  {
    TextFits(text, comment);
    QuotedLayout(text);
    var v := Quoted(text);
    ColumnIs(v);
    hide Quoted, Fits;
    PutLineString(key, v, comment);
    hide PutLine, TailColumns, CommentLayout, CommentColumn;
    TailLayout(PutLine(key, v, comment), 10 + |v|, CommentColumn(v), comment);
  }

  lemma ColumnIs(v: string)
    requires IsQuoted(v)
    ensures CommentColumn(v) == if |v| > 22 then |v| + 12 else 33
  {
  }

  lemma QuotedLayout(text: string)
    ensures var v, n := Quoted(text), if |text| <= 67 then |text| else 67;
      && |v| == 2 + (if n < 8 then 8 else n)
      && v[0] == '\'' && v[|v| - 1] == '\''
      && forall i | 1 <= i < |v| - 1 :: v[i] == if i - 1 < n then text[i - 1] else ' '
  {
  }
}
