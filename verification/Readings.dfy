/** What a get reads from any 80-column line, by where its quotes, its slash and its `=` stand. */
module Readings {
  import opened CText
  import opened Search
  import opened Cards

  /** The first place of a character on a line. */
  ghost predicate FirstAt(line: string, c: char, at: nat) {
    at < |line| && line[at] == c && forall i | 0 <= i < at :: line[i] != c
  }

  /** A single quote, or a double quote on a line without single ones. */
  ghost predicate IsMark(line: string, mark: char) {
    mark == '\'' || (mark == '\"' && '\'' !in line)
  }

  lemma MarkIs(line: string, mark: char, q1: nat)
    requires |line| == LINE && IsMark(line, mark) && FirstAt(line, mark, q1)
    ensures IndexOf(line, mark, 0) == Some(q1)
    ensures mark == (if IndexOf(line, QUOTE, 0).Some? then QUOTE else DQUOTE)
  {
    IndexOfIs(line, mark, 0, q1);
    if mark == '\"' {
      IndexOfNone(line, QUOTE, 0);
    }
  }

  /** A quoted value that is closed: the text between the quotes, whatever stands in it. */
  lemma ClosedText(line: string, mark: char, q1: nat, q2: nat)
    requires |line| == LINE && IsMark(line, mark) && FirstAt(line, mark, q1) && '/' !in line[..q1]
    requires q1 < q2 < LINE && line[q2] == mark && forall i | q1 < i < q2 :: line[i] != mark
    ensures GetText(line) == DropMinusZero(Trim(line[q1 + 1..q2]))
  {
    MarkIs(line, mark, q1);
    ClosedClosing(line, mark, q1, q2);
    hide Closing, Trim, IsMark, FirstAt, DropMinusZero;
  }

  lemma ClosedClosing(line: string, mark: char, q1: nat, q2: nat)
    requires |line| == LINE && IsMark(line, mark) && FirstAt(line, mark, q1) && '/' !in line[..q1]
    requires q1 < q2 < LINE && line[q2] == mark && forall i | q1 < i < q2 :: line[i] != mark
    ensures Closing(line, mark) == Some(q2)
  {
    MarkIs(line, mark, q1);
    IndexOfIs(line, mark, q1 + 1, q2);
    NoSlashBefore(line, q1);
    hide IsMark, FirstAt;
  }

  lemma NoSlashBefore(line: string, q1: nat)
    requires q1 < |line| && '/' !in line[..q1] && line[q1] != '/'
    ensures var c1 := IndexOf(line, SLASH, 0); c1.Some? ==> c1.value > q1
  {
    assert forall i | 0 <= i < q1 :: line[i] == line[..q1][i];
  }

  /** A quoted value that is not closed: the text up to the slash, or to the end of the line. */
  lemma OpenText(line: string, mark: char, q1: nat, end: nat)
    requires |line| == LINE && IsMark(line, mark) && FirstAt(line, mark, q1)
    requires forall i | q1 < i < LINE :: line[i] != mark
    requires q1 < end <= LINE && FirstSlashOr(line, end)
    ensures GetText(line) == DropMinusZero(Trim(line[q1 + 1..end]))
  {
    hide Closing, Trim, FirstAt, FirstSlashOr, IsMark, DropMinusZero;
    var r := OpenClosing(line, mark, q1, end);
    MarkIs(line, mark, q1);
    BlanksBehind(line, q1 + 1, r, end);
    assert ValueSpan(line) == (q1 + 1, r);
    hide ValueSpan;
  }

  lemma OpenClosing(line: string, mark: char, q1: nat, end: nat) returns (r: nat)
    requires |line| == LINE && IsMark(line, mark) && FirstAt(line, mark, q1)
    requires forall i | q1 < i < LINE :: line[i] != mark
    requires q1 < end <= LINE && FirstSlashOr(line, end)
    ensures q1 < r <= end && Closing(line, mark) == Some(r) && forall i | r <= i < end :: line[i] == BLANK
  {
    MarkIs(line, mark, q1);
    IndexOfNone(line, mark, q1 + 1);
    assert line[q1] == mark != BLANK;
    r := BackOver(line, end - 1);
    if end < LINE {
      IndexOfIs(line, SLASH, 0, end);
    } else {
      IndexOfNone(line, SLASH, 0);
    }
    hide BackOver;
  }

  lemma BlanksBehind(line: string, from: nat, r: nat, end: nat)
    requires from <= r <= end <= |line| && forall i | r <= i < end :: line[i] == BLANK
    ensures Trim(line[from..r]) == Trim(line[from..end])
  {
    assert line[from..end] == Blanks(0) + line[from..r] + Blanks(end - r);
    TrimUndoesPadding(0, line[from..r], end - r);
  }

  /** The first slash, or the end of a line without one. */
  ghost predicate FirstSlashOr(line: string, end: nat) {
    if end < |line| then FirstAt(line, '/', end) else end == |line| && '/' !in line
  }

  /** An unquoted value, or one whose quote stands behind the slash: from behind the `=`, or from
      column 10 on without one, up to the slash, or to the last column but one. */
  lemma UnquotedValue(line: string, start: nat, end: nat)
    requires |line| == LINE && FirstSlashOr(line, end) && start <= end && start < LINE
    requires forall i | 0 <= i < end :: line[i] != '\'' && ('\'' in line || line[i] != '\"')
    requires if '=' in line then start >= 1 && FirstAt(line, '=', start - 1) else start == 9
    ensures GetText(line) == DropMinusZero(Trim(line[start..if end < LINE then end else LINE - 1]))
  {
    SpanOfUnquoted(line, start, end);
    NotClosed(line, end);
    hide *;
    SpanIs(line);
    TextOfSpan(line);
  }

  lemma SpanOfUnquoted(line: string, start: nat, end: nat)
    requires |line| == LINE && FirstSlashOr(line, end) && start <= end && start < LINE
    requires if '=' in line then start >= 1 && FirstAt(line, '=', start - 1) else start == 9
    ensures UnquotedSpan(line) == (start, if end < LINE then end else LINE - 1)
  {
    if end < LINE {
      IndexOfIs(line, SLASH, 0, end);
    } else {
      IndexOfNone(line, SLASH, 0);
    }
    if '=' in line {
      IndexOfIs(line, '=', 0, start - 1);
    } else {
      IndexOfNone(line, '=', 0);
    }
  }

  lemma SpanIs(line: string)
    requires |line| == LINE
    requires var mark := if IndexOf(line, QUOTE, 0).Some? then QUOTE else DQUOTE; Closing(line, mark) == None
    ensures ValueSpan(line) == UnquotedSpan(line)
  {
    hide Closing, UnquotedSpan;
  }

  lemma TextOfSpan(line: string)
    requires |line| == LINE && ValueSpan(line).0 <= ValueSpan(line).1
    ensures GetText(line) == DropMinusZero(Trim(line[ValueSpan(line).0..ValueSpan(line).1]))
  {
    hide ValueSpan, Trim, DropMinusZero;
  }

  lemma NotClosed(line: string, end: nat)
    requires |line| == LINE && FirstSlashOr(line, end)
    requires forall i | 0 <= i < end :: line[i] != '\'' && ('\'' in line || line[i] != '\"')
    ensures var mark := if IndexOf(line, QUOTE, 0).Some? then QUOTE else DQUOTE; Closing(line, mark) == None
  {
    if end < LINE {
      IndexOfIs(line, SLASH, 0, end);
    }
    var mark := if IndexOf(line, QUOTE, 0).Some? then QUOTE else DQUOTE;
    var q1 := IndexOf(line, mark, 0);
    assert q1.Some? ==> q1.value >= end;
  }
}
