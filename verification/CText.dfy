/** C strings and the few string routines the header code leans on.

    A C string is a `string` without its terminating NUL; a character buffer is a
    `seq<char>` (or an `array<char>`) in which NUL characters may occur. */
module CText {

  datatype Option<+T> = None | Some(value: T)

  const NUL: char := '\0'
  const BLANK: char := ' '
  const QUOTE: char := '\''
  const DQUOTE: char := '\"'
  const SLASH: char := '/'

  predicate IsLower(c: char) { 'a' <= c <= 'z' }

  predicate IsUpper(c: char) { 'A' <= c <= 'Z' }

  predicate IsDigit(c: char) { '0' <= c <= '9' }

  /** A blank or a visible ASCII character. */
  predicate IsPrintable(c: char) { ' ' <= c <= '~' }

  ghost predicate Printable(s: string) { forall i | 0 <= i < |s| :: IsPrintable(s[i]) }

  /** The letter of the other case; any other character stays. */
  function OtherCase(c: char): char {
    if IsLower(c) then (c as int - 32) as char
    else if IsUpper(c) then (c as int + 32) as char
    else c
  }

  function Upper(c: char): char {
    if IsLower(c) then OtherCase(c) else c
  }

  /** Comparing against a character and its other-case twin is comparing without case. */
  lemma OtherCaseIsFolding(a: char, b: char)
    ensures (a == b || a == OtherCase(b)) <==> Upper(a) == Upper(b)
  {
    var i, j := a as int, b as int;
    assert i == j <==> a == b;
    assert (Upper(a) as int == Upper(b) as int) <==> Upper(a) == Upper(b);
    assert (a as int == OtherCase(b) as int) <==> a == OtherCase(b);
  }

  function FoldText(s: string): (r: string)
    ensures |r| == |s|
    ensures forall i | 0 <= i < |s| :: r[i] == Upper(s[i])
  {
    seq(|s|, i requires 0 <= i < |s| => Upper(s[i]))
  }

  function Repeat(c: char, n: nat): (r: string)
    ensures |r| == n
    ensures forall i | 0 <= i < n :: r[i] == c
  {
    seq(n, _ => c)
  }

  function Blanks(n: nat): (r: string)
    ensures |r| == n
    ensures forall i | 0 <= i < n :: r[i] == BLANK
  {
    Repeat(BLANK, n)
  }

  function PadRight(s: string, n: nat): (r: string)
    ensures |r| == if |s| < n then n else |s|
    ensures s <= r
    ensures forall i | |s| <= i < |r| :: r[i] == BLANK
  {
    if |s| < n then s + Blanks(n - |s|) else s
  }

  function PadLeft(s: string, n: nat): (r: string)
    requires |s| <= n
    ensures |r| == n
    ensures forall i | 0 <= i < n - |s| :: r[i] == BLANK
    ensures r[n - |s|..] == s
  {
    Blanks(n - |s|) + s
  }

  /** The buffer with `data` written over it at `at`. */
  function Splice(s: seq<char>, at: nat, data: seq<char>): (r: seq<char>)
    requires at + |data| <= |s|
    ensures |r| == |s|
    ensures forall i | 0 <= i < |s| :: r[i] == if at <= i < at + |data| then data[i - at] else s[i]
  {
    s[..at] + data + s[at + |data|..]
  }

  /** strchr: the first index at or after `from` that holds `c`. */
  function IndexOf(s: seq<char>, c: char, from: nat): (r: Option<nat>)
    requires from <= |s|
    ensures r.Some? ==> from <= r.value < |s| && s[r.value] == c && forall j | from <= j < r.value :: s[j] != c
    ensures r.None? ==> forall j | from <= j < |s| :: s[j] != c
    decreases |s| - from
  {
    if from == |s| then None
    else if s[from] == c then Some(from)
    else IndexOf(s, c, from + 1)
  }

  lemma IndexOfIs(s: seq<char>, c: char, from: nat, at: nat)
    requires from <= at < |s| && s[at] == c
    requires forall j | from <= j < at :: s[j] != c
    ensures IndexOf(s, c, from) == Some(at)
  {
  }

  lemma IndexOfNone(s: seq<char>, c: char, from: nat)
    requires from <= |s|
    requires forall j | from <= j < |s| :: s[j] != c
    ensures IndexOf(s, c, from) == None
  {
  }

  /** What strncpy makes of an `n`-character source area: everything from the first NUL on is NUL. */
  function StrncpyArea(t: seq<char>): (r: seq<char>)
    ensures |r| == |t|
    ensures forall i | 0 <= i < |t| :: r[i] == if NUL in t[..i] then NUL else t[i]
  {
    seq(|t|, i requires 0 <= i < |t| => if NUL in t[..i] then NUL else t[i])
  }

  lemma StrncpyWholeArea(t: seq<char>)
    requires NUL !in t
    ensures StrncpyArea(t) == t
  {
    forall i | 0 <= i < |t|
      ensures StrncpyArea(t)[i] == t[i]
    {
      assert NUL !in t[..i];
    }
  }

  /** The text without its leading blanks. */
  function TrimLead(s: string): (r: string)
    ensures |r| <= |s| && r == s[|s| - |r|..]
    ensures forall i | 0 <= i < |s| - |r| :: s[i] == BLANK
    ensures r == [] || r[0] != BLANK
  {
    if s != [] && s[0] == BLANK then TrimLead(s[1..]) else s
  }

  /** The text without its trailing blanks and carriage returns; one character always stays. */
  function TrimTail(s: string): (r: string)
    ensures r <= s
    ensures forall i | |r| <= i < |s| :: s[i] == BLANK || s[i] == '\r'
    ensures |s| > 0 ==> |r| > 0
    ensures |r| > 1 ==> r[|r| - 1] != BLANK && r[|r| - 1] != '\r'
  {
    if |s| > 1 && (s[|s| - 1] == BLANK || s[|s| - 1] == '\r') then TrimTail(s[..|s| - 1]) else s
  }

  function Trim(s: string): string { TrimTail(TrimLead(s)) }

  lemma {:induction false} TrimLeadOfBlanks(a: nat, s: string)
    ensures TrimLead(Blanks(a) + s) == TrimLead(s)
  {
    if a == 0 {
      assert Blanks(0) + s == s;
    } else {
      assert (Blanks(a) + s)[1..] == Blanks(a - 1) + s;
      TrimLeadOfBlanks(a - 1, s);
    }
  }

  lemma {:induction false} TrimTailOfBlanks(s: string, b: nat)
    requires s != []
    ensures TrimTail(s + Blanks(b)) == TrimTail(s)
  {
    if b == 0 {
      assert s + Blanks(0) == s;
    } else {
      assert (s + Blanks(b))[..|s| + b - 1] == s + Blanks(b - 1);
      TrimTailOfBlanks(s, b - 1);
    }
  }

  lemma {:induction false} TrimLeadOfAppended(s: string, b: nat)
    ensures TrimLead(s + Blanks(b)) == if TrimLead(s) == [] then [] else TrimLead(s) + Blanks(b)
  {
    var t := s + Blanks(b);
    if s == [] {
      assert t == Blanks(b) + [];
      TrimLeadOfBlanks(b, []);
    } else if s[0] == BLANK {
      assert t[1..] == s[1..] + Blanks(b);
      assert TrimLead(t) == TrimLead(s[1..] + Blanks(b));
      TrimLeadOfAppended(s[1..], b);
    } else {
      assert t[0] == s[0];
    }
  }

  /** Padding with blanks on either side is undone by trimming. */
  lemma TrimUndoesPadding(a: nat, s: string, b: nat)
    ensures Trim(Blanks(a) + s + Blanks(b)) == Trim(s)
  {
    assert Blanks(a) + s + Blanks(b) == Blanks(a) + (s + Blanks(b));
    TrimLeadOfBlanks(a, s + Blanks(b));
    TrimLeadOfAppended(s, b);
    if TrimLead(s) != [] {
      TrimTailOfBlanks(TrimLead(s), b);
    }
  }

  /** A text that starts and ends with something else than a blank or carriage return is its own trimming. */
  lemma TrimIsIdentity(s: string)
    requires s != [] ==> s[0] != BLANK && s[|s| - 1] != BLANK && s[|s| - 1] != '\r'
    ensures Trim(s) == s
  {
  }

  lemma TrimLeadIs(s: string, n: nat)
    requires n <= |s| && (forall i | 0 <= i < n :: s[i] == BLANK) && (n < |s| ==> s[n] != BLANK)
    ensures TrimLead(s) == s[n..]
  {
    var r := TrimLead(s);
    var m := |s| - |r|;
    hide TrimLead;
    assert m < |s| ==> r[0] == s[m];
  }

  lemma TrimTailIs(s: string, n: nat)
    requires n <= |s| && (forall i | n <= i < |s| :: s[i] == BLANK || s[i] == '\r')
    requires if s == [] then n == 0 else n >= 1
    requires n > 1 ==> s[n - 1] != BLANK && s[n - 1] != '\r'
    ensures TrimTail(s) == s[..n]
  {
    var r := TrimTail(s);
    hide TrimTail;
    assert r != [] ==> r[|r| - 1] == s[|r| - 1];
  }
}
