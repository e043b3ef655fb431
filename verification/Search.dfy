/** Searching a header: the case-blind substring search and the card search built on it
    (strnsrch, strncsrch, ksearch and blsearch of hget.c). */
module Search {
  import opened CText

  const LINE: nat := 80
  const MAX_HEADER: nat := 256000

  /** `pat` occurs in `s` at `p`, letter case ignored. */
  ghost predicate FoldOccurs(s: seq<char>, p: int, pat: string) {
    0 <= p && p + |pat| <= |s| && forall i | 0 <= i < |pat| :: Upper(s[p + i]) == Upper(pat[i])
  }

  /** `pat` occurs in `s` at `p`, letter for letter. */
  ghost predicate Occurs(s: seq<char>, p: int, pat: string) {
    0 <= p && p + |pat| <= |s| && forall i | 0 <= i < |pat| :: s[p + i] == pat[i]
  }

  /** The comparison strncsrch makes at one position: first character, last character, then
      the ones between, each against the pattern and its other-case twin. */
  method MatchesFoldAt(s: seq<char>, at: nat, pat: string, other: string) returns (found: bool)
    requires 0 < |pat| && at + |pat| <= |s|
    requires |other| == |pat| && forall j | 0 <= j < |pat| :: other[j] == OtherCase(pat[j])
    ensures found <==> FoldOccurs(s, at, pat)
  {
    var last := |pat| - 1;
    OtherCaseIsFolding(s[at], pat[0]);
    OtherCaseIsFolding(s[at + last], pat[last]);
    if s[at] != pat[0] && s[at] != other[0] {
      return false;
    }
    if |pat| == 1 {
      return true;
    }
    if s[at + last] != pat[last] && s[at + last] != other[last] {
      return false;
    }
    if |pat| == 2 {
      return true;
    }
    var i := 1;
    while i < |pat| && (s[at + i] == pat[i] || s[at + i] == other[i])
      invariant 1 <= i <= |pat|
      invariant forall j | 0 <= j < i :: Upper(s[at + j]) == Upper(pat[j])
    {
      OtherCaseIsFolding(s[at + i], pat[i]);
      i := i + 1;
    }
    if i < |pat| {
      OtherCaseIsFolding(s[at + i], pat[i]);
      assert Upper(s[at + i]) != Upper(pat[i]);
    }
    return i >= |pat|;
  }

  /** strncsrch: the first case-blind occurrence inside `len` characters starting at `from`. */
  method StrNCSearch(s: seq<char>, from: nat, pat: string, len: nat) returns (loc: Option<nat>)
    requires from + len <= |s|
    ensures loc.Some? ==>
      && from <= loc.value && loc.value + |pat| <= from + len
      && FoldOccurs(s, loc.value, pat)
      && forall p | from <= p < loc.value :: !FoldOccurs(s, p, pat)
    ensures loc.None? ==> forall p | from <= p && p + |pat| <= from + len :: !FoldOccurs(s, p, pat)
    ensures pat == [] ==> loc == Some(from)
  {
    if |pat| == 0 {
      return Some(from);
    }
    if len == 0 {
      return None;
    }
    var other := seq(|pat|, i requires 0 <= i < |pat| => OtherCase(pat[i]));
    var at := from;
    while at + |pat| <= from + len
      invariant from <= at
      invariant forall p | from <= p < at :: !FoldOccurs(s, p, pat)
    {
      var found := MatchesFoldAt(s, at, pat, other);
      if found {
        return Some(at);
      }
      at := at + 1;
    }
    return None;
  }

  /** strnsrch: the same search with case. */
  method StrNSearch(s: seq<char>, pat: string, len: nat) returns (loc: Option<nat>)
    requires len <= |s|
    ensures loc.Some? ==>
      && loc.value + |pat| <= len
      && Occurs(s, loc.value, pat)
      && forall p | 0 <= p < loc.value :: !Occurs(s, p, pat)
    ensures loc.None? ==> forall p | 0 <= p && p + |pat| <= len :: !Occurs(s, p, pat)
  {
    if |pat| == 0 {
      return Some(0);
    }
    if len == 0 {
      return None;
    }
    var last := |pat| - 1;
    var at := 0;
    while at + |pat| <= len
      invariant forall p | 0 <= p < at :: !Occurs(s, p, pat)
    {
      if s[at] == pat[0] {
        if |pat| == 1 {
          return Some(at);
        }
        if s[at + last] == pat[last] {
          if |pat| == 2 {
            return Some(at);
          }
          var i := 1;
          while i < |pat| && s[at + i] == pat[i]
            invariant 1 <= i <= |pat|
            invariant forall j | 0 <= j < i :: s[at + j] == pat[j]
          {
            i := i + 1;
          }
          if i >= |pat| {
            return Some(at);
          }
        }
      }
      at := at + 1;
    }
    return None;
  }

  /** The first eight characters of a keyword: all that a card can hold. */
  function Key8(key: string): (k: string)
    ensures k <= key && |k| == if |key| <= 8 then |key| else 8
  {
    if |key| <= 8 then key else key[..8]
  }

  /** `head` is the length of the header text: its first NUL, or the search limit. */
  ghost predicate IsHeadLength(s: seq<char>, head: nat) {
    && head < |s| && head <= MAX_HEADER
    && (forall i | 0 <= i < head :: s[i] != NUL)
    && (head < MAX_HEADER ==> s[head] == NUL)
  }

  /** Whether a following character keeps the keyword going. */
  predicate ContinuesKey(c: char) { c != '=' && ' ' < c < 127 as char }

  ghost predicate BlankBefore(s: seq<char>, p: nat)
    requires p <= |s|
  {
    forall i | p - p % LINE <= i < p :: s[i] == BLANK
  }

  /** Keyword `key` starts at `p`: among the first eight columns of its line, only blanks
      before it on that line, and not continued by a visible character other than `=`. */
  ghost predicate KeyAt(s: seq<char>, head: nat, key: string, p: nat)
    requires head < |s|
  {
    && p < head && p + |key| <= head
    && FoldOccurs(s, p, key)
    && p % LINE <= 7
    && !ContinuesKey(s[p + |key|])
    && BlankBefore(s, p)
  }

  /** What a search for the card of `key` returns: the line of the least position where
      the keyword starts, or nothing when there is none. */
  ghost predicate IsCardSearch(s: seq<char>, key: string, r: Option<nat>)
    requires NUL in s
  {
    exists head: nat :: IsHeadLength(s, head) && IsCardSearchIn(s, head, key, r)
  }

  ghost predicate IsCardSearchIn(s: seq<char>, head: nat, key: string, r: Option<nat>)
    requires head < |s|
  {
    match r
    case None => forall p: nat :: !KeyAt(s, head, key, p)
    case Some(line) => exists p: nat ::
      KeyAt(s, head, key, p) && line == p - p % LINE && forall q: nat | q < p :: !KeyAt(s, head, key, q)
  }

  /** The scanning loop that ksearch and blsearch share. */
  method ScanForCard(s: seq<char>, head: nat, key: string) returns (r: Option<nat>)
    requires IsHeadLength(s, head)
    ensures IsCardSearchIn(s, head, key, r)
  {
    var next := 0;
    while next < head
      invariant next <= head
      invariant forall p: nat | p < next :: !KeyAt(s, head, key, p)
      decreases head - next
    {
      var left := head - next;
      var loc := StrNCSearch(s, next, key, left);
      if loc.None? {
        forall p: nat
          ensures !KeyAt(s, head, key, p)
        {
          if next <= p && p + |key| <= head {
            assert !FoldOccurs(s, p, key);
          }
        }
        return None;
      }
      var at := loc.value;
      var start := next;
      assert forall p: nat | p < at :: !KeyAt(s, head, key, p) by {
        forall p: nat | next <= p < at
          ensures !KeyAt(s, head, key, p)
        {
          assert !FoldOccurs(s, p, key);
        }
      }
      var column := at % LINE;
      var following := s[at + |key|];
      if column > 7 {
        next := at + 1;
      } else if ContinuesKey(following) {
        next := at + 1;
      } else {
        var line := at - column;
        var lc := line;
        while lc < at
          invariant line <= lc <= at
          invariant next == if forall i | line <= i < lc :: s[i] == BLANK then start else at + 1
        {
          if s[lc] != BLANK {
            next := at + 1;
          }
          lc := lc + 1;
        }
        if at >= next {
          assert KeyAt(s, head, key, at);
          return Some(line);
        }
      }
    }
    return None;
  }

  method HeadLength(s: seq<char>) returns (head: nat)
    requires NUL in s
    ensures IsHeadLength(s, head)
  {
    head := 0;
    while head < MAX_HEADER && s[head] != NUL
      invariant head < |s| && head <= MAX_HEADER
      invariant forall i | 0 <= i < head :: s[i] != NUL
    {
      assert exists i :: head < i < |s| && s[i] == NUL;
      head := head + 1;
    }
  }

  /** ksearch: the start of the line that holds the keyword's card. */
  method KSearch(s: seq<char>, keyword: string) returns (r: Option<nat>)
    requires NUL in s
    ensures IsCardSearch(s, Key8(keyword), r)
  {
    var head := HeadLength(s);
    r := ScanForCard(s, head, Key8(keyword));
  }

  predicate BlankKey(s: seq<char>, line: nat)
    requires line + 8 <= |s|
  {
    forall i | line <= i < line + 8 :: s[i] == BLANK
  }

  /** `r` is the first of the blank lines that end just above the line at `card`. */
  ghost predicate IsBlankRun(s: seq<char>, card: Option<nat>, r: Option<nat>) {
    match r
    case None =>
      card.None? || card.value < LINE || card.value > |s| || !BlankKey(s, card.value - LINE)
    case Some(b) =>
      && card.Some? && b < card.value <= |s| && (card.value - b) % LINE == 0
      && (forall l: nat | b <= l < card.value && (card.value - l) % LINE == 0 && l + 8 <= |s| :: BlankKey(s, l))
      && (b >= LINE ==> !BlankKey(s, b - LINE))
  }

  /** blsearch: the first of the blank lines just above the keyword's card, if there is one. */
  method BlSearch(s: seq<char>, keyword: string) returns (r: Option<nat>)
    requires NUL in s
    ensures exists card: Option<nat> :: IsCardSearch(s, keyword, card) && IsBlankRun(s, card, r)
  {
    var head := HeadLength(s);
    var card := ScanForCard(s, head, keyword);
    assert IsCardSearch(s, keyword, card);
    if card.None? {
      return None;
    }
    if card.value == 0 {
      return None;
    }
    var pval := card.value;
    var bval: int := pval - LINE;
    while bval >= 0 && BlankKey(s, bval)
      invariant 0 <= bval + LINE <= pval
      invariant (pval - bval) % LINE == 0
      invariant forall l: nat | bval < l < pval && (pval - l) % LINE == 0 && l + 8 <= |s| :: BlankKey(s, l)
    {
      bval := bval - LINE;
    }
    bval := bval + LINE;
    if bval < pval && bval >= 0 {
      return Some(bval);
    } else {
      return None;
    }
  }
}
