/** The work requests that hashpipe_ibv_init sets up: where their scatter/gather slices lie, and
    where the library puts their packets. */
module IbvInit {
  import opened Arith

  const UINT32: nat := 0x1_0000_0000

  // ------------------------------------------------------------------ slices

  /** The elements before the i-th request's slice. */
  ghost function Before(num_sge: seq<nat>, i: nat): nat
    requires i <= |num_sge|
  {
    if i == 0 then 0 else Before(num_sge, i - 1) + num_sge[i - 1]
  }

  ghost function Sum(num_sge: seq<nat>): nat { Before(num_sge, |num_sge|) }

  lemma {:induction false} BeforeGrows(num_sge: seq<nat>, i: nat, j: nat)
    requires i < j <= |num_sge|
    ensures Before(num_sge, i) + num_sge[i] <= Before(num_sge, j)
    decreases j
  {
    if i < j - 1 {
      BeforeGrows(num_sge, i, j - 1);
    }
  }

  ghost predicate InSlice(num_sge: seq<nat>, i: nat, e: nat) {
    i < |num_sge| && Before(num_sge, i) <= e < Before(num_sge, i) + num_sge[i]
  }

  lemma {:induction false} SliceOf(num_sge: seq<nat>, n: nat, e: nat) returns (i: nat)
    requires n <= |num_sge| && e < Before(num_sge, n)
    ensures i < n && InSlice(num_sge, i, e)
  {
    if e < Before(num_sge, n - 1) {
      i := SliceOf(num_sge, n - 1, e);
    } else {
      i := n - 1;
    }
  }

  /** The slices are adjacent and cover exactly the first Sum(num_sge) elements, each once. */
  lemma SlicesTile(num_sge: seq<nat>, e: nat)
    ensures e < Sum(num_sge) <==> exists i: nat :: InSlice(num_sge, i, e)
    ensures forall i: nat, j: nat | InSlice(num_sge, i, e) && InSlice(num_sge, j, e) :: i == j
    ensures forall i: nat | i < |num_sge| :: Before(num_sge, i + 1) == Before(num_sge, i) + num_sge[i]
  {
    if e < Sum(num_sge) {
      var i := SliceOf(num_sge, |num_sge|, e);
    }
    forall i: nat | InSlice(num_sge, i, e)
      ensures e < Sum(num_sge)
    {
      BeforeGrows(num_sge, i, |num_sge|);
    }
    forall i: nat, j: nat | InSlice(num_sge, i, e) && InSlice(num_sge, j, e)
      ensures i == j
    {
      if i < j {
        BeforeGrows(num_sge, i, j);
      } else if j < i {
        BeforeGrows(num_sge, j, i);
      }
    }
  }

  // ------------------------------------------------------------------ packet addresses

  /** The i-th packet's place in the memory region: a 32-bit product. */
  function Offset(i: nat, size: nat): nat { i * size % UINT32 }

  ghost predicate InPacket(count: nat, size: nat, i: nat, b: nat) {
    i < count && Offset(i, size) <= b < Offset(i, size) + size
  }

  ghost predicate Covered(count: nat, size: nat, b: nat) { exists i: nat :: InPacket(count, size, i, b) }

  /** Every byte of the region belongs to exactly one packet, and no packet leaves the region. */
  ghost predicate TilesRegion(count: nat, size: nat) {
    && (forall b: nat | b < count * size :: Covered(count, size, b))
    && (forall i: nat, b: nat | InPacket(count, size, i, b) :: b < count * size)
    && (forall i: nat, j: nat, b: nat | InPacket(count, size, i, b) && InPacket(count, size, j, b) :: i == j)
  }

  lemma NoWrap(count: nat, size: nat, i: nat)
    requires i < count && (count - 1) * size < UINT32
    ensures Offset(i, size) == i * size && i * size + size <= count * size
  {
    Ordered(i, count - 1, size);
    Ordered(i + 1, count, size);
    QuotientIs(i * size, 0, i * size, UINT32);
  }

  lemma Ordered(a: nat, b: nat, n: nat)
    requires a <= b
    ensures a * n <= b * n
  {
  }

  lemma Fits(count: nat, size: nat)
    requires count >= 1 && size >= 1 && (count - 1) * size < UINT32
    ensures TilesRegion(count, size)
  {
    forall b: nat | b < count * size
      ensures Covered(count, size, b)
    {
      var i := b / size;
      assert b == i * size + b % size;
      Smaller(i, count, size, b);
      NoWrap(count, size, i);
      assert InPacket(count, size, i, b);
    }
    forall i: nat, b: nat | InPacket(count, size, i, b)
      ensures b < count * size && b / size == i
    {
      NoWrap(count, size, i);
      QuotientIs(b, i, b - i * size, size);
    }
  }

  lemma Smaller(i: nat, count: nat, size: nat, b: nat)
    requires i * size <= b < count * size
    ensures i < count
  {
    if count <= i {
      Ordered(count, i, size);
    }
  }

  /** The first packet whose 32-bit product wraps. */
  lemma {:induction false} FirstWrapped(k: nat, size: nat) returns (i: nat)
    requires 1 <= size && k * size >= UINT32
    ensures 1 <= i <= k && UINT32 <= i * size && (i - 1) * size < UINT32
  {
    if k >= 1 && (k - 1) * size >= UINT32 {
      i := FirstWrapped(k - 1, size);
    } else {
      i := k;
    }
  }

  /** A wrapped packet starts inside the first one. */
  lemma Overlaps(count: nat, size: nat)
    requires count >= 1 && 1 <= size < UINT32 && (count - 1) * size >= UINT32
    ensures !TilesRegion(count, size)
  {
    var i := FirstWrapped(count - 1, size);
    var b := i * size - UINT32;
    assert i * size == (i - 1) * size + size;
    QuotientIs(i * size, 1, b, UINT32);
    QuotientIs(0, 0, 0, UINT32);
    assert 0 * size == 0;
    assert InPacket(count, size, i, b) && InPacket(count, size, 0, b);
  }

  /** The packets tile the memory region exactly when the last one's offset fits in 32 bits. */
  lemma TilesExactly(count: nat, size: nat)
    requires count >= 1 && 1 <= size < UINT32
    ensures TilesRegion(count, size) <==> (count - 1) * size < UINT32
  {
    if (count - 1) * size < UINT32 {
      Fits(count, size);
    } else {
      Overlaps(count, size);
    }
  }

  /** 65537 packets of 65536 bytes do not: the last one starts where the first one does. */
  lemma TooManyPackets()
    ensures !TilesRegion(65537, 65536)
    ensures Offset(65536, 65536) == Offset(0, 65536) == 0
  {
    TilesExactly(65537, 65536);
  }

  // ------------------------------------------------------------------ the loop

  /** A scatter/gather element; `keyed` once it has the memory region's key. */
  datatype Sge = Sge(addr: nat, length: nat, keyed: bool)

  /** Gives the elements of one slice the key. */
  method KeySlice(sge: array<Sge>, from: nat, n: nat)
    requires from + n <= sge.Length
    modifies sge
    ensures forall e: nat | e < sge.Length ::
      sge[e] == if from <= e < from + n then old(sge[e]).(keyed := true) else old(sge[e])
  {
    var j := 0;
    while j < n
      invariant 0 <= j <= n
      invariant forall e: nat | e < sge.Length ::
        sge[e] == if from <= e < from + j then old(sge[e]).(keyed := true) else old(sge[e])
    {
      sge[from + j] := sge[from + j].(keyed := true);
      j := j + 1;
    }
  }

  /** The slices' sizes when all requests are set up. */
  ghost function Sizes(num_sge: seq<nat>, user_managed: bool): (r: seq<nat>)
    ensures |r| == |num_sge|
    ensures forall i | 0 <= i < |r| :: r[i] == if user_managed then num_sge[i] else 1
  {
    seq(|num_sge|, i requires 0 <= i < |num_sge| => if user_managed then num_sge[i] else 1)
  }

  /** An element in front of the i-th request's slice is set up; one behind is as before. */
  ghost predicate SgeOk(now: Sge, before: Sge, e: nat, done: bool, user_managed: bool, base: nat, size: nat) {
    if user_managed then now == before.(keyed := done)
    else if done then now == Sge(base + Offset(e, size), size, true)
    else now == before.(keyed := false)
  }

  /** Sets up the slice that starts at `at`; the library gives it its one element first. */
  method SetSlice(sge: array<Sge>, ghost before: seq<Sge>, i: nat, at: nat, n: nat,
                  user_managed: bool, base: nat, pkt_size_max: nat)
    requires |before| == sge.Length && at + n <= sge.Length
    requires !user_managed ==> at == i && n == 1
    requires forall e: nat | e < sge.Length :: SgeOk(sge[e], before[e], e, e < at, user_managed, base, pkt_size_max)
    modifies sge
    ensures forall e: nat | e < sge.Length :: SgeOk(sge[e], before[e], e, e < at + n, user_managed, base, pkt_size_max)
  {
    if !user_managed {
      sge[i] := sge[i].(addr := base + Offset(i, pkt_size_max), length := pkt_size_max);
    }
    hide Offset;
    KeySlice(sge, at, n);
  }

  /** The first i requests are listed: with their sizes, and where their slices start. */
  ghost predicate Listed(num_sge: seq<nat>, sg_list: seq<nat>, sizes: seq<nat>, start: seq<nat>, i: nat) {
    && |num_sge| == |sg_list| == |sizes| == |start| && i <= |sizes|
    && (forall k: nat | k < |sizes| :: num_sge[k] == if k < i then sizes[k] else start[k])
    && (forall k: nat | k < i :: sg_list[k] == Before(sizes, k))
  }

  /** Lists the i-th request. */
  method ListRequest(num_sge: array<nat>, sg_list: array<nat>, ghost sizes: seq<nat>, ghost start: seq<nat>,
                     i: nat, user_managed: bool)
    requires num_sge != sg_list && i < num_sge.Length
    requires Listed(num_sge[..], sg_list[..], sizes, start, i) && sizes == Sizes(start, user_managed)
    modifies num_sge, sg_list
    ensures Listed(num_sge[..], sg_list[..], sizes, start, i + 1)
  {
    if !user_managed {
      num_sge[i] := 1;
    }
    if i == 0 {
      sg_list[i] := 0;
    } else {
      sg_list[i] := sg_list[i - 1] + num_sge[i - 1];
    }
  }

  /** The loop over the send, or the receive, work requests. `sg_list` gets the index of each
      request's first element in `sge`. */
  method InitRequests(num_sge: array<nat>, sg_list: array<nat>, sge: array<Sge>,
                      user_managed: bool, base: nat, pkt_size_max: nat)
    requires sg_list.Length == num_sge.Length && num_sge != sg_list
    requires Sum(Sizes(num_sge[..], user_managed)) <= sge.Length
    requires forall e | 0 <= e < sge.Length :: !sge[e].keyed
    modifies num_sge, sg_list, sge
    ensures num_sge[..] == Sizes(old(num_sge[..]), user_managed)
    ensures forall i: nat | i < num_sge.Length :: sg_list[i] == Before(num_sge[..], i)
    ensures forall e: nat | e < sge.Length ::
      SgeOk(sge[e], old(sge[e]), e, e < Sum(num_sge[..]), user_managed, base, pkt_size_max)
  {
    ghost var sizes := Sizes(num_sge[..], user_managed);
    ghost var before := sge[..];
    if !user_managed {
      AllOnes(sizes);
    }
    hide SgeOk;
    var i := 0;
    while i < num_sge.Length
      invariant 0 <= i <= num_sge.Length == |sizes|
      invariant Listed(num_sge[..], sg_list[..], sizes, old(num_sge[..]), i)
      invariant forall e: nat | e < sge.Length ::
        SgeOk(sge[e], before[e], e, e < Before(sizes, i), user_managed, base, pkt_size_max)
    {
      Within(sizes, i);
      ListRequest(num_sge, sg_list, sizes, old(num_sge[..]), i, user_managed);
      SetSlice(sge, before, i, sg_list[i], num_sge[i], user_managed, base, pkt_size_max);
      i := i + 1;
    }
    assert num_sge[..] == sizes;
  }

  /** One element a request puts every request's slice at its own index. */
  lemma AllOnes(s: seq<nat>)
    requires forall i | 0 <= i < |s| :: s[i] == 1
    ensures forall n: nat | n <= |s| :: Before(s, n) == n
  {
    forall n: nat | n <= |s|
      ensures Before(s, n) == n
    {
      Ones(s, n);
    }
  }

  lemma {:induction false} Ones(s: seq<nat>, n: nat)
    requires n <= |s| && forall i | 0 <= i < |s| :: s[i] == 1
    ensures Before(s, n) == n
  {
    if n > 0 {
      Ones(s, n - 1);
    }
  }

  lemma Within(s: seq<nat>, i: nat)
    requires i < |s|
    ensures Before(s, i) + s[i] <= Sum(s)
  {
    BeforeGrows(s, i, |s|);
  }
}
