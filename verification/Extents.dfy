/** Which columns hputc and hputcom write to, whatever their arguments are. Columns are counted
    from the start of the card, and may lie outside of it. */
module Extents {
  import opened CText
  import opened Search
  import opened Cards

  /** An int as strncpy's size argument: a negative one becomes huge. */
  function AsSize(n: int): int { if n >= 0 then n else n + 0x1_0000_0000_0000_0000 }

  // ------------------------------------------------------------------ hputc

  /** How many characters of an old comment of `lcom` hputc copies, having started at `lc`. */
  function PutCount(lc: int, lcom: int): int {
    var cut := if lc + 2 + lcom > LINE then 77 - lc else lcom;
    if cut > LINE - (lc + 3) then LINE - (lc + 3) else cut
  }

  /** The blanks over the card, the value, and for an old comment the blank, slash and blank,
      more blanks, and its characters. */
  ghost predicate PutTouches(value: string, comment: string, column: int) {
    var start := if IsQuoted(value) then 10 else VALUE_END - |value|;
    var lc := CommentColumn(value);
    || 0 <= column < LINE
    || start <= column < start + |value|
    || (comment != "" && lc <= column < lc + 3)
    || (comment != "" && lc + 3 <= column < LINE)
    || (comment != "" && lc + 3 <= column < lc + 3 + AsSize(PutCount(lc, |comment|)))
  }

  ghost predicate PutStays(value: string, comment: string) {
    forall column: int :: PutTouches(value, comment, column) ==> 0 <= column < LINE
  }

  /** hputs over a card with a comment stays inside the card if and only if the text has at most
      63 characters; over a card without one, always. */
  lemma TextStays(text: string, comment: string)
    ensures PutStays(Quoted(text), comment) <==> comment == "" || |text| <= 63
  {
    var v := Quoted(text);
    var lc := CommentColumn(v);
    assert |text| <= 63 <==> |v| <= 65;
    assert lc == if |v| > 22 then |v| + 12 else VALUE_END;
    hide Quoted, CommentColumn;
    if comment != "" && |text| > 63 {
      assert PutTouches(v, comment, lc + 2);
    }
  }

  /** An integer put always stays inside the card, whatever the comment. */
  lemma NumberStays(v: string, comment: string)
    requires NumberText(v)
    ensures PutStays(v, comment)
  {
  }

  /** What the store asks of a put is exactly that it stays inside the card. */
  lemma FitsIsStaying(text: string, comment: string)
    ensures Fits(Quoted(text), comment) <==> PutStays(Quoted(text), comment)
  {
    TextStays(text, comment);
    hide PutStays;
  }

  // ------------------------------------------------------------------ hputcom

  /** How many characters of a comment hputcom copies, having started at `c0`. */
  function ComCount(c0: int, lcom: int): int {
    if lcom > LINE - 1 - (c0 + 3) then LINE - 1 - (c0 + 3) else lcom
  }

  /** Nothing when the comment is refused; else the blank, slash and blank, and for a comment
      that is not empty blanks and its characters. */
  ghost predicate ComTouches(line: string, comment: string, column: int)
    requires |line| == LINE
  {
    var c0 := CommentStart(line);
    && c0 <= LINE - 3
    && (|| c0 <= column < c0 + 3
        || (comment != "" && c0 + 3 <= column < LINE - 1)
        || (comment != "" && c0 + 3 <= column < c0 + 3 + AsSize(ComCount(c0, |comment|))))
  }

  ghost predicate ComStays(line: string, comment: string)
    requires |line| == LINE
  {
    forall column: int :: ComTouches(line, comment, column) ==> 0 <= column < LINE
  }

  /** What the store asks of a comment put is exactly that it stays inside the card. */
  lemma CommentFitsIsStaying(line: string, comment: string)
    requires |line| == LINE
    ensures CommentFits(line, comment) <==> ComStays(line, comment)
  {
    var c0 := CommentStart(line);
    hide CommentStart;
    if c0 < 0 {
      assert ComTouches(line, comment, c0);
    } else if c0 == LINE - 3 && comment != "" {
      assert ComTouches(line, comment, c0 + 3);
    }
  }

  /** A string card on which a comment would have to start in the last three columns: the slash
      stands in column 79, or there is none and the text closes in column 77. */
  ghost predicate NoCommentRoom(line: string)
    requires |line| == LINE
  {
    exists close: nat :: StringCard(line, close) &&
      (IndexOf(line, SLASH, close) == Some(78) || (IndexOf(line, SLASH, close) == None && close == 76))
  }

  lemma StartOfString(line: string, close: nat)
    requires |line| == LINE && StringCard(line, close)
    ensures CommentStart(line) == match IndexOf(line, SLASH, close)
      case Some(s) => s - 1
      case None => if close < VALUE_END then VALUE_END else close + 1
  {
    QuotesOfStringCard(line, close);
    StringSpan(line, close);
    var c1 := IndexOf(line, SLASH, 0);
    var s := IndexOf(line, SLASH, close);
    assert c1 == None ==> s == None;
    if c1.Some? && c1.value > close {
      IndexOfIs(line, SLASH, close, c1.value);
    }
  }

  /** On any card of the store, a comment that is not empty leaves the card if and only if the
      card has no room for one. */
  lemma CommentStays(line: string, comment: string)
    requires Card(line) && comment != ""
    ensures ComStays(line, comment) <==> !NoCommentRoom(line)
  {
    CommentFitsIsStaying(line, comment);
    if NumberCard(line) {
      CommentStartOfNumber(line);
      assert forall close: nat :: !StringCard(line, close);
    } else {
      var close: nat :| StringCard(line, close);
      StartOfString(line, close);
      OneClosing(line, close);
    }
  }

  lemma OneClosing(line: string, close: nat)
    requires |line| == LINE && StringCard(line, close)
    ensures forall other: nat | StringCard(line, other) :: other == close
  {
  }

  // ------------------------------------------------------------------ a comment behind a text

  /** hputcom after hputs: the comment leaves the card if and only if the text has 63 characters
      and was put over a comment, or has 65 and was not. */
  lemma CommentAfterText(key: string, text: string, before: string, comment: string)
    requires LegalKey(key) && PlainText(text) && CardComment(before) && comment != ""
    requires before == "" || |text| <= 63
    ensures Fits(Quoted(text), before)
    ensures ComStays(PutLine(key, Quoted(text), before), comment) <==>
      |text| != if before == "" then 65 else 63
  {
    TextFits(text, before);
    var line := PutLine(key, Quoted(text), before);
    StartAfterText(key, text, before);
    CommentFitsIsStaying(line, comment);
  }

  lemma TextFits(text: string, comment: string)
    requires comment == "" || |text| <= 63
    ensures Fits(Quoted(text), comment)
  {
  }

  /** The column where a comment starts behind a text that was just put. */
  lemma StartAfterText(key: string, text: string, before: string)
    requires LegalKey(key) && PlainText(text) && CardComment(before)
    requires Fits(Quoted(text), before)
    ensures var v := Quoted(text);
      CommentStart(PutLine(key, v, before)) ==
        if before != "" then CommentColumn(v) else if 9 + |v| < VALUE_END then VALUE_END else 10 + |v|
  {
    var v := Quoted(text);
    var line := PutLine(key, v, before);
    PutLineString(key, v, before);
    hide PutLine, Fits, Quoted, CommentStart, StringCard;
    StringColumnsMakeCard(line, key, text, before);
    SlashInTail(line, v, before);
    StartOfString(line, 9 + |v|);
  }

  lemma SlashInTail(line: string, v: string, before: string)
    requires |line| == LINE && IsQuoted(v) && 10 <= |v| <= TEXT_WIDTH + 2 && Fits(v, before)
    requires TailColumns(line, 10 + |v|, CommentColumn(v), before) && line[9 + |v|] == QUOTE
    ensures IndexOf(line, SLASH, 9 + |v|) == if before == "" then None else Some(CommentColumn(v) + 1)
  {
    if before == "" {
      IndexOfNone(line, SLASH, 9 + |v|);
    } else {
      IndexOfIs(line, SLASH, 9 + |v|, CommentColumn(v) + 1);
    }
  }

  /** hputcom refuses a comment on a fresh string card if and only if its text has 66 characters
      or more. */
  lemma RefusedAfterText(key: string, text: string, comment: string)
    requires LegalKey(key) && PlainText(text)
    ensures Fits(Quoted(text), "")
    ensures var line := PutLine(key, Quoted(text), "");
      |text| >= 66 <==> CommentFits(line, comment) && ComLine(line, comment).None?
  {
    TextFits(text, "");
    StartAfterText(key, text, "");
    hide PutLine, CommentStart, LegalKey, PlainText;
    assert |text| >= 66 <==> |Quoted(text)| >= 68;
  }

  // ------------------------------------------------------------------ one failing input each

  /** A text of 64 characters put over a comment: the blank behind the slash is written to the
      first column of the next card, and then strncpy gets a negative length. */
  lemma LongTextLeavesItsCard()
    ensures var v := Quoted(Repeat('x', 64));
      && PutTouches(v, "y", LINE) && !PutStays(v, "y")
      && PutCount(CommentColumn(v), 1) == -1
  {
    var v := Quoted(Repeat('x', 64));
    assert |v| == 66 && CommentColumn(v) == 78;
    hide Quoted, CommentColumn;
    assert PutTouches(v, "y", LINE);
  }

  /** A comment put on a text of 65 characters, and one put on a text of 63 that was itself put
      over a comment: strncpy gets the length -1. */
  lemma CommentsThatLeaveTheirCard()
    ensures var line := PutLine("KEY", Quoted(Repeat('x', 65)), "");
      && Card(line) && !ComStays(line, "y") && ComCount(CommentStart(line), 1) == -1
    ensures Fits(Quoted(Repeat('x', 63)), "z")
    ensures var line := PutLine("KEY", Quoted(Repeat('x', 63)), "z");
      && Card(line) && !ComStays(line, "y") && ComCount(CommentStart(line), 1) == -1
  {
    KeyIsLegal();
    assert PlainText(Repeat('x', 65)) && PlainText(Repeat('x', 63)) && CardComment("") && CardComment("z");
    hide LegalKey, PlainText, CardComment, PutLine, Card, ComStays, CommentStart, Quoted, Fits, Repeat;
    LeavesAfter(Repeat('x', 65), "");
    LeavesAfter(Repeat('x', 63), "z");
  }

  lemma KeyIsLegal()
    ensures LegalKey("KEY")
  {
    assert FoldText("KEY")[0] == 'K';
  }

  lemma LeavesAfter(text: string, before: string)
    requires LegalKey("KEY") && PlainText(text) && CardComment(before)
    requires |text| == if before == "" then 65 else 63
    ensures Fits(Quoted(text), before)
    ensures var line := PutLine("KEY", Quoted(text), before);
      Card(line) && !ComStays(line, "y") && ComCount(CommentStart(line), 1) == -1
  {
    assert |Quoted(text)| == |text| + 2;
    assert before == "" || |text| <= 63;
    hide PutLine, Card, ComStays, CommentStart, LegalKey, PlainText, CardComment, Quoted, Fits;
    TextFits(text, before);
    StartAfterText("KEY", text, before);
    CommentAfterText("KEY", text, before, "y");
    PutTextCard("KEY", text, before);
  }
}
