/** The IPv4 header checksum: section 3.1 of RFC 791, section 1 of RFC 1071. A header is a
    sequence of bytes, and its words are in network order. */
module Checksum {
  const WORD: nat := 0x1_0000
  const UINT32: nat := 0x1_0000_0000
  const CHECK: nat := 5

  ghost predicate IsByte(b: int) { 0 <= b < 256 }

  /** A header whose length field counts 5 to 15 groups of four bytes. */
  ghost predicate IsHeader(h: seq<int>) {
    && |h| >= 20 && (forall i | 0 <= i < |h| :: IsByte(h[i]))
    && 5 <= Ihl(h) <= 15 && |h| >= 4 * Ihl(h)
  }

  function Ihl(h: seq<int>): int
    requires |h| > 0
  {
    h[0] % 16
  }

  /** The i-th 16-bit word in network order. */
  function WordAt(h: seq<int>, i: nat): int
    requires 2 * i + 1 < |h|
  {
    256 * h[2 * i] + h[2 * i + 1]
  }

  // ------------------------------------------------------------------ one's complement sums

  /** One's complement addition of two 16-bit words. */
  ghost function OnesAdd(a: int, b: int): int {
    if a + b >= WORD then a + b - WORD + 1 else a + b
  }

  /** The one's complement sum of the first n words, the check word being taken as `check`. */
  ghost function OnesSum(h: seq<int>, check: int, n: nat): int
    requires 2 * n <= |h|
  {
    if n == 0 then 0
    else OnesAdd(OnesSum(h, check, n - 1), if n - 1 == CHECK then check else WordAt(h, n - 1))
  }

  /** The plain sum of the same words. */
  ghost function PlainSum(h: seq<int>, check: int, n: nat): int
    requires 2 * n <= |h|
  {
    if n == 0 then 0
    else PlainSum(h, check, n - 1) + if n - 1 == CHECK then check else WordAt(h, n - 1)
  }

  /** What the folding loop makes of a sum. */
  ghost function Fold(sum: nat): (r: nat)
    ensures r < WORD
    ensures r == 0 <==> sum == 0
    decreases sum
  {
    if sum < WORD then sum else Fold(sum / WORD + sum % WORD)
  }

  /** Folding is reduction modulo 65535 onto 1..65535. */
  lemma {:induction false} FoldIs(sum: nat, q: nat, r: nat)
    requires sum == 0xffff * q + r && 1 <= r <= 0xffff
    ensures Fold(sum) == r
    decreases sum
  {
    if sum >= WORD {
      var next := sum / WORD + sum % WORD;
      assert sum == WORD * (sum / WORD) + sum % WORD;
      assert next == 0xffff * (q - sum / WORD) + r;
      FoldIs(next, q - sum / WORD, r);
    }
  }

  lemma FoldMeans(sum: nat) returns (q: nat)
    requires sum > 0
    ensures sum == 0xffff * q + Fold(sum)
  {
    q := (sum - 1) / 0xffff;
    FoldIs(sum, q, (sum - 1) % 0xffff + 1);
  }

  lemma OnesAddFolds(sum: nat, w: nat)
    requires w < WORD
    ensures OnesAdd(Fold(sum), w) == Fold(sum + w)
  {
    if sum > 0 {
      var q := FoldMeans(sum);
      var f := Fold(sum);
      FoldIs(sum + w, if f + w >= WORD then q + 1 else q, OnesAdd(f, w));
    }
  }

  lemma {:induction false} OnesSumFolds(h: seq<int>, check: nat, n: nat)
    requires 2 * n <= |h| && (forall i | 0 <= i < |h| :: IsByte(h[i])) && check < WORD
    ensures PlainSum(h, check, n) >= 0
    ensures OnesSum(h, check, n) == Fold(PlainSum(h, check, n))
  {
    if n > 0 {
      OnesSumFolds(h, check, n - 1);
      OnesAddFolds(PlainSum(h, check, n - 1), if n - 1 == CHECK then check else WordAt(h, n - 1));
    }
  }

  lemma {:induction false} CheckAdds(h: seq<int>, check: int, n: nat)
    requires 2 * n <= |h|
    ensures PlainSum(h, check, n) == PlainSum(h, 0, n) + if n > CHECK then check else 0
  {
    if n > 0 {
      CheckAdds(h, check, n - 1);
    }
  }

  lemma {:induction false} SumBounds(h: seq<int>, check: nat, n: nat)
    requires 2 * n <= |h| && (forall i | 0 <= i < |h| :: IsByte(h[i])) && check < WORD
    ensures 0 <= PlainSum(h, check, n) <= 0xffff * n
    ensures n > 0 ==> PlainSum(h, check, n) >= 256 * h[0]
  {
    if n > 0 {
      SumBounds(h, check, n - 1);
    }
  }

  // ------------------------------------------------------------------ the routine

  /** The check word that fits the other words: their complement in a one's complement sum. */
  ghost function CheckFor(h: seq<int>): int
    requires IsHeader(h)
  {
    0xffff - OnesSum(h, 0, 2 * Ihl(h))
  }

  /** A word as the processor stores it. */
  function StoredBytes(r: nat, littleEndian: bool): (int, int) {
    if littleEndian then (r % 256, r / 256) else (r / 256, r % 256)
  }

  ghost function WithCheck(h: seq<int>, r: nat, littleEndian: bool): (t: seq<int>)
    requires |h| >= 20
    ensures |t| == |h|
  {
    h[10 := StoredBytes(r, littleEndian).0][11 := StoredBytes(r, littleEndian).1]
  }

  lemma Wraps(sum: int, word: nat)
    ensures (sum % UINT32 + word) % UINT32 == (sum + word) % UINT32
  {
  }

  /** The loop over the words, starting from minus the check word; sums are of 32 bits. */
  method SumWords(h: array<int>) returns (sum32: nat)
    requires IsHeader(h[..])
    ensures sum32 == PlainSum(h[..], 0, 2 * Ihl(h[..]))
  {
    var ihl := Ihl(h[..]);
    var check := WordAt(h[..], CHECK);
    sum32 := (UINT32 - check) % UINT32;
    var i := 0;
    while i < 2 * ihl
      invariant 0 <= i <= 2 * ihl
      invariant sum32 == (PlainSum(h[..], check, i) - check) % UINT32
    {
      Wraps(PlainSum(h[..], check, i) - check, WordAt(h[..], i));
      sum32 := (sum32 + WordAt(h[..], i)) % UINT32;
      i := i + 1;
    }
    CheckAdds(h[..], check, i);
    SumBounds(h[..], 0, i);
    hide PlainSum;
  }

  /** The loop that folds the upper bits in. */
  method FoldDown(sum32: nat) returns (r: nat)
    ensures r == Fold(sum32)
  {
    r := sum32;
    while r / WORD > 0
      invariant Fold(r) == Fold(sum32)
      decreases r
    {
      r := r / WORD + r % WORD;
    }
  }

  /** hashpipe_packet_iphdr_checksum. */
  method IphdrChecksum(h: array<int>, littleEndian: bool) returns (r: nat)
    requires IsHeader(h[..])
    modifies h
    ensures r == CheckFor(old(h[..])) && r < WORD
    ensures h[..] == WithCheck(old(h[..]), r, littleEndian)
  {
    CheckBelow(h[..]);
    hide PlainSum, OnesSum, Fold, CheckFor;
    var sum32 := SumWords(h);
    sum32 := FoldDown(sum32);
    r := 0xffff - sum32;
    h[10], h[11] := StoredBytes(r, littleEndian).0, StoredBytes(r, littleEndian).1;
  }

  // ------------------------------------------------------------------ what the value is good for

  lemma SumWith(h: seq<int>, check: nat)
    requires IsHeader(h) && check < WORD
    ensures PlainSum(h, 0, 2 * Ihl(h)) > 0
    ensures OnesSum(h, check, 2 * Ihl(h)) == Fold(PlainSum(h, 0, 2 * Ihl(h)) + check)
  {
    var n := 2 * Ihl(h);
    SumBounds(h, 0, n);
    CheckAdds(h, check, n);
    OnesSumFolds(h, check, n);
  }

  /** Only the complement of a folded sum completes it to 0xffff. */
  lemma Complement(others: nat, check: nat)
    requires others > 0 && check < 0xffff
    ensures Fold(others + check) == 0xffff <==> check == 0xffff - Fold(others)
  {
    var q := FoldMeans(others);
    var p := FoldMeans(others + check);
    var f := Fold(others);
    if check == 0xffff - f {
      FoldIs(others + check, q, 0xffff);
    }
    hide Fold;
    assert Fold(others + check) == 0xffff ==> 0xffff * (p + 1 - q) == f + check;
  }

  /** The value completes the other words to 0xffff, and is the only one below 0xffff that does. */
  lemma CompletesTheSum(h: seq<int>, check: nat)
    requires IsHeader(h) && check < 0xffff
    ensures 0 <= CheckFor(h) < 0xffff
    ensures OnesSum(h, check, 2 * Ihl(h)) == 0xffff <==> check == CheckFor(h)
  {
    SumWith(h, 0);
    SumWith(h, check);
    hide PlainSum, OnesSum, Fold;
    Complement(PlainSum(h, 0, 2 * Ihl(h)), check);
  }

  /** The value does not depend on the check word in the header, so a second call returns the
      same. */
  lemma {:induction false} OldCheckIsIgnored(h: seq<int>, x: nat, littleEndian: bool)
    requires IsHeader(h) && x < WORD
    ensures IsHeader(WithCheck(h, x, littleEndian)) && CheckFor(WithCheck(h, x, littleEndian)) == CheckFor(h)
  {
    SameOthers(h, WithCheck(h, x, littleEndian), 0, 2 * Ihl(h));
  }

  lemma {:induction false} SameOthers(h: seq<int>, t: seq<int>, check: int, n: nat)
    requires |h| == |t| && 2 * n <= |h| && forall i | 0 <= i < |h| && i != 10 && i != 11 :: t[i] == h[i]
    ensures OnesSum(t, check, n) == OnesSum(h, check, n)
  {
    if n > 0 {
      SameOthers(h, t, check, n - 1);
    }
  }

  /** What a receiver tests: the one's complement sum of all words, as they are on the wire. */
  ghost predicate Verifies(h: seq<int>)
    requires IsHeader(h)
  {
    OnesSum(h, WordAt(h, CHECK), 2 * Ihl(h)) == 0xffff
  }

  /** Folding keeps the remainder modulo 257, because 65536 is 1 more than 255 times 257. */
  lemma {:induction false} FoldKeepsRemainder(sum: nat)
    ensures Fold(sum) % 257 == sum % 257
    decreases sum
  {
    if sum >= WORD {
      var a, b := sum / WORD, sum % WORD;
      assert sum == 257 * (255 * a) + (a + b);
      SameRemainder(a + b, 255 * a);
      FoldKeepsRemainder(a + b);
    }
  }

  lemma SameRemainder(x: nat, k: nat)
    ensures (257 * k + x) % 257 == x % 257
  {
  }

  /** Two equal bytes make a multiple of 257, and nothing else does. */
  lemma EqualBytes(r: nat)
    requires r < WORD
    ensures r / 256 == r % 256 <==> r % 257 == 0
  {
    var a, b := r / 256, r % 256;
    assert r == 257 * a + (b - a) && 0 <= a < 256 && 0 <= b < 256;
  }

  /** The header as the routine leaves it. */
  ghost function Stored(h: seq<int>, littleEndian: bool): (t: seq<int>)
    requires IsHeader(h)
    ensures IsHeader(t) && |t| == |h|
  {
    CheckBelow(h);
    OldCheckIsIgnored(h, CheckFor(h), littleEndian);
    WithCheck(h, CheckFor(h), littleEndian)
  }

  /** The value is stored without htons. On a big-endian processor the header verifies; on a
      little-endian one it does if and only if the sum of the other words is a multiple of 257. */
  lemma StoredHeaderVerifies(h: seq<int>, littleEndian: bool)
    requires IsHeader(h)
    ensures Verifies(Stored(h, littleEndian)) <==> !littleEndian || PlainSum(h, 0, 2 * Ihl(h)) % 257 == 0
  {
    hide *;
    CheckBelow(h);
    StoredBytesDecide(h, littleEndian);
    CheckRemainder(h);
    EqualBytes(CheckFor(h));
  }

  lemma CheckBelow(h: seq<int>)
    requires IsHeader(h)
    ensures 0 <= CheckFor(h) < 0xffff && 0xffff < WORD
    ensures PlainSum(h, 0, 2 * Ihl(h)) > 0 && CheckFor(h) == 0xffff - Fold(PlainSum(h, 0, 2 * Ihl(h)))
  {
    SumWith(h, 0);
    hide OnesSum, PlainSum;
  }

  lemma CheckRemainder(h: seq<int>)
    requires IsHeader(h)
    ensures CheckFor(h) % 257 == 0 <==> PlainSum(h, 0, 2 * Ihl(h)) % 257 == 0
  {
    CheckBelow(h);
    hide Fold, PlainSum, CheckFor;
    FoldKeepsRemainder(PlainSum(h, 0, 2 * Ihl(h)));
    Complements(Fold(PlainSum(h, 0, 2 * Ihl(h))));
  }

  lemma Complements(f: nat)
    requires f <= 0xffff
    ensures (0xffff - f) % 257 == 0 <==> f % 257 == 0
  {
  }

  /** The stored header verifies when the value and its two bytes exchanged are the same. */
  lemma StoredBytesDecide(h: seq<int>, littleEndian: bool)
    requires IsHeader(h) && 0 <= CheckFor(h) < 0xffff
    ensures Verifies(Stored(h, littleEndian)) <==> !littleEndian || CheckFor(h) / 256 == CheckFor(h) % 256
  {
    var r := CheckFor(h);
    var t := WithCheck(h, r, littleEndian);
    var c := if littleEndian then 256 * (r % 256) + r / 256 else r;
    assert WordAt(t, CHECK) == c;
    hide Fold, PlainSum, CheckFor;
    SameOthers(h, t, c, 2 * Ihl(h));
    hide OnesSum;
    CompletesTheSum(h, c);
  }

  /** A header of twenty bytes for a datagram from 192.168.0.1 to 192.168.0.2, as
      hashpipe_packet_iphdr_init leaves it. */
  const EXAMPLE: seq<int> := [0x45, 0, 0, 20, 0, 0, 0x40, 0, 64, 17, 0, 0, 192, 168, 0, 1, 192, 168, 0, 2]

  lemma ExampleSum()
    ensures IsHeader(EXAMPLE) && 2 * Ihl(EXAMPLE) == 10
    ensures PlainSum(EXAMPLE, 0, 10) == 149112
  {
    assert PlainSum(EXAMPLE, 0, 5) == 0x4500 + 20 + 0x4000 + 0x4011;
    assert PlainSum(EXAMPLE, 0, 10) == PlainSum(EXAMPLE, 0, 5) + 2 * 0xc0a8 + 3;
  }

  /** On it, a little-endian processor stores a check word that does not verify. */
  lemma ExampleFails()
    ensures IsHeader(EXAMPLE) && !Verifies(Stored(EXAMPLE, true))
    ensures CheckFor(EXAMPLE) == 0xb985
  {
    ExampleSum();
    CheckBelow(EXAMPLE);
    FoldIs(149112, 2, 18042);
    hide *;
    StoredHeaderVerifies(EXAMPLE, true);
  }
}
