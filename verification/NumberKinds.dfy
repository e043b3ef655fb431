/** isnum: what kind of number a text is, and the exponent marks that are rewritten for atof. */
module NumberKinds {
  import opened CText

  /** The length without trailing blanks. */
  function BlankTail(s: string): (n: nat)
    ensures n <= |s| && (n > 0 ==> s[n - 1] != BLANK)
  {
    if s != "" && s[|s| - 1] == BLANK then BlankTail(s[..|s| - 1]) else |s|
  }

  /** strsrch for a character. */
  function Search1(s: string, c: char): (r: Option<nat>)
    ensures r.Some? ==> r.value < |s| && s[r.value] == c && forall j | 0 <= j < r.value :: s[j] != c
    ensures r.None? ==> c !in s
  {
    IndexOf(s, c, 0)
  }

  predicate IsExponentMark(c: char) { c == 'D' || c == 'd' || c == 'E' || c == 'e' }

  predicate IsSign(c: char) { c == '+' || c == '-' }

  ghost predicate HasDigit(s: string) { exists j :: 0 <= j < |s| && IsDigit(s[j]) }

  /** A character that keeps a text from being a number. */
  ghost predicate Spoils(s: string, i: nat)
    requires i < |s|
  {
    var c := s[i];
    if c == BLANK && !HasDigit(s[..i]) then false
    else if IsSign(c) then
      (i + 1 < |s| && IsSign(s[i + 1])) || (i > 0 && !IsExponentMark(s[i - 1]) && s[i - 1] != ':' && s[i - 1] != BLANK)
    else !IsDigit(c) && !IsExponentMark(c) && c != ':' && c != '.'
  }

  /** Where isnum stops looking: at a line feed or at the trailing blanks. */
  ghost function NumberEnd(s: string): (n: nat)
    ensures n <= |s|
  {
    match Search1(s[..BlankTail(s)], '\n')
    case Some(i) => i
    case None => BlankTail(s)
  }

  /** 0 for no number, 1 for an integer, 2 for a decimal number, 3 with colons. */
  ghost function NumberKind(s: string): nat {
    var t := s[..NumberEnd(s)];
    if s != "" && IsExponentMark(s[0]) then 0
    else if !HasDigit(t) || (exists i: nat :: i < |t| && Spoils(s, i)) then 0
    else if ':' in t then 3
    else if '.' in t || 'd' in t || 'e' in t then 2
    else 1
  }

  /** isnum; `front` is what stands in front of the text in memory, and does not matter. */
  method IsNum(s: string, front: string) returns (code: nat)
    ensures code == NumberKind(s)
  {
    if s != "" && IsExponentMark(s[0]) {
      return 0;
    }
    var lstr := TrailingCut(s, front);
    var nd, cl, fpcode := 0, 0, 1;
    var i := 0;
    while i < lstr
      invariant 0 <= i <= BlankTail(s) && (lstr == BlankTail(s) || (BlankTail(s) == 0 && lstr <= 0))
      invariant forall j: nat | j < i :: s[j] != '\n' && !Spoils(s, j)
      invariant nd > 0 <==> HasDigit(s[..i])
      invariant cl > 0 <==> ':' in s[..i]
      invariant fpcode == if '.' in s[..i] || 'd' in s[..i] || 'e' in s[..i] then 2 else 1
    {
      var c := s[i];
      if c == '\n' {
        break;
      }
      assert s[..i + 1] == s[..i] + [c];
      DigitAtEnd(s, i);
      if c == BLANK && nd == 0 {
        i := i + 1;
        continue;
      }
      if !IsDigit(c) && !IsSign(c) && !IsExponentMark(c) && c != ':' && c != '.' {
        SpoiledAt(s, i);
        return 0;
      } else if IsSign(c) {
        if i + 1 < |s| && IsSign(s[i + 1]) {
          SpoiledAt(s, i);
          return 0;
        } else if i > 0 {
          if !IsExponentMark(s[i - 1]) && s[i - 1] != ':' && s[i - 1] != BLANK {
            SpoiledAt(s, i);
            return 0;
          }
        }
      } else if IsDigit(c) {
        nd := nd + 1;
      } else if c == ':' {
        cl := cl + 1;
      }
      if c == '.' || c == 'd' || c == 'e' {
        fpcode := 2;
      }
      i := i + 1;
    }
    NumberEndIs(s, i);
    if nd > 0 {
      code := if cl > 0 then 3 else fpcode;
    } else {
      code := 0;
    }
  }

  lemma DigitAtEnd(s: string, i: nat)
    requires i < |s|
    ensures HasDigit(s[..i + 1]) <==> HasDigit(s[..i]) || IsDigit(s[i])
  {
    assert s[..i + 1][i] == s[i];
    assert forall j | 0 <= j < i :: s[..i + 1][j] == s[..i][j];
  }

  lemma NumberEndIs(s: string, i: nat)
    requires i <= BlankTail(s) && (forall j: nat | j < i :: s[j] != '\n')
    requires i < BlankTail(s) ==> s[i] == '\n'
    ensures NumberEnd(s) == i
  {
    var t := s[..BlankTail(s)];
    if i < |t| {
      IndexOfIs(t, '\n', 0, i);
    } else {
      IndexOfNone(t, '\n', 0);
    }
  }

  lemma SpoiledAt(s: string, i: nat)
    requires i < BlankTail(s) && (forall j: nat | j <= i :: s[j] != '\n') && Spoils(s, i)
    ensures NumberKind(s) == 0
  {
    var t := s[..BlankTail(s)];
    assert i < NumberEnd(s) by {
      var r := Search1(t, '\n');
      assert r.Some? ==> t[r.value] == '\n';
    }
  }

  /** The loop that counts trailing blanks away. On a text of blanks alone it goes on in front of
      the text, and what it counts is not positive. */
  method TrailingCut(s: string, front: string) returns (n: int)
    ensures n == BlankTail(s) || (BlankTail(s) == 0 && n <= 0)
  {
    n := |s|;
    assert s[..|s|] == s;
    while n > -|front| && (if n > 0 then s[n - 1] else front[|front| + n - 1]) == BLANK
      invariant -|front| <= n <= |s|
      invariant if n > 0 then BlankTail(s[..n]) == BlankTail(s) else BlankTail(s) == 0
    {
      assert n > 0 ==> s[..n][..n - 1] == s[..n - 1];
      n := n - 1;
    }
  }

  /** The first `c` made an `e`. */
  ghost function WithE(s: string, c: char): (r: string)
    ensures |r| == |s|
  {
    match Search1(s, c)
    case Some(i) => s[i := 'e']
    case None => s
  }

  /** The text with its exponent marks made what atof reads, when it is a decimal number. */
  ghost function Marked(s: string): (r: string)
    ensures |r| == |s|
  {
    if NumberKind(s) == 2 then WithE(WithE(WithE(s, 'D'), 'd'), 'E') else s
  }

  method ReplaceMark(s: string, c: char) returns (r: string)
    ensures r == WithE(s, c)
  {
    r := s;
    var dchar := Search1(r, c);
    if dchar.Some? {
      r := r[dchar.value := 'e'];
    }
  }

  /** The rewriting in place that str2dec and the shorter integer getters share. */
  method MarkExponent(s: string, kind: nat) returns (r: string)
    requires kind == NumberKind(s)
    ensures r == Marked(s) && (':' !in s ==> ':' !in r)
  {
    hide NumberKind;
    r := s;
    if kind == 2 {
      r := ReplaceMark(r, 'D');
      r := ReplaceMark(r, 'd');
      r := ReplaceMark(r, 'E');
    }
  }

  /** A text of digits and signs is left as it is. */
  lemma NotDecimal(s: string)
    requires forall i | 0 <= i < |s| :: IsDigit(s[i]) || IsSign(s[i])
    ensures NumberKind(s) != 2 && Marked(s) == s
  {
  }
}
