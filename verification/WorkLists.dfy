/** Lists of work requests: an array of links between indices, NONE being the NULL pointer. */
module WorkLists {
  const NONE: int := -1
  const WC_BATCH_SIZE: nat := 16

  function Min(a: nat, b: nat): nat { if a < b then a else b }

  /** How often a packet is in a list. */
  ghost function Times(s: seq<nat>, i: nat): nat { multiset(s)[i] }

  lemma TimesJoined(a: seq<nat>, b: seq<nat>, i: nat)
    ensures Times(a + b, i) == Times(a, i) + Times(b, i)
  {
  }

  lemma CountedOnce(s: seq<nat>, j: nat, k: nat)
    requires j < k < |s| && s[j] == s[k]
    ensures Times(s, s[j]) >= 2
  {
    assert s == s[..k] + [s[k]] + s[k + 1..];
    assert s[j] in s[..k];
  }

  ghost predicate Distinct(s: seq<nat>) { forall j, k | 0 <= j < k < |s| :: s[j] != s[k] }

  ghost function UpTo(n: nat): (s: seq<nat>)
    ensures |s| == n && forall i | 0 <= i < n :: s[i] == i
  {
    seq(n, i requires 0 <= i < n => i)
  }

  lemma {:induction false} CountUpTo(n: nat, i: nat)
    ensures Times(UpTo(n), i) == if i < n then 1 else 0
  {
    if n > 0 {
      CountUpTo(n - 1, i);
      assert UpTo(n) == UpTo(n - 1) + [n - 1];
    }
  }

  /** The k-th packet of a list, or NULL behind its end. */
  ghost function At(list: seq<nat>, k: nat): int { if k < |list| then list[k] else NONE }

  /** From `head` on, `next` leads through `list` to NULL. */
  ghost predicate Linked(next: seq<int>, head: int, list: seq<nat>) {
    && head == At(list, 0)
    && forall k: nat | k < |list| :: list[k] < |next| && next[list[k]] == At(list, k + 1)
  }

  lemma LinkedAt(next: seq<int>, head: int, list: seq<nat>, k: nat)
    requires Linked(next, head, list)
    ensures head == At(list, 0)
    ensures k < |list| ==> list[k] < |next| && next[list[k]] == At(list, k + 1)
  {
  }

  /** Only links of packets outside the list changed. */
  ghost predicate SameLinks(next: seq<int>, next': seq<int>, list: seq<nat>) {
    |next'| == |next| && forall k: nat | k < |list| && list[k] < |next| :: next'[list[k]] == next[list[k]]
  }

  lemma LinkedFrame(next: seq<int>, next': seq<int>, head: int, list: seq<nat>)
    requires Linked(next, head, list) && SameLinks(next, next', list)
    ensures Linked(next', head, list)
  {
  }

  lemma LinkedPush(next: seq<int>, head: int, list: seq<nat>, x: nat)
    requires Linked(next, head, list) && x < |next| && x !in list
    ensures Linked(next[x := head], x, [x] + list)
  {
    var longer := [x] + list;
    forall k: nat | k < |longer|
      ensures longer[k] < |next| && next[x := head][longer[k]] == At(longer, k + 1)
    {
      if k > 0 {
        assert longer[k] == list[k - 1] && At(longer, k + 1) == At(list, k);
      } else {
        assert At(longer, 1) == At(list, 0);
      }
    }
  }

  lemma LinkedCut(next: seq<int>, head: int, list: seq<nat>, m: nat)
    requires Linked(next, head, list) && Distinct(list) && 1 <= m <= |list|
    ensures var cut := next[list[m - 1] := NONE];
      Linked(cut, head, list[..m]) && Linked(cut, next[list[m - 1]], list[m..])
  {
    var cut := next[list[m - 1] := NONE];
    forall k: nat | k < m
      ensures cut[list[..m][k]] == At(list[..m], k + 1)
    {
      assert list[..m][k] == list[k];
    }
    forall k: nat | k < |list| - m
      ensures cut[list[m..][k]] == At(list[m..], k + 1)
    {
      assert list[m..][k] == list[m + k];
    }
    assert next[list[m - 1]] == At(list, m) == At(list[m..], 0);
  }

  lemma PartOf(list: seq<nat>, k: nat)
    requires k <= |list|
    ensures multiset(list[..k]) <= multiset(list)
  {
    assert list == list[..k] + list[k..];
  }

  /** ibv_post_send and ibv_post_recv: the hardware follows the links; it takes `accepts` requests
      and refuses the next one, if there is one. */
  method Accept(next: array<int>, head: int, ghost list: seq<nat>, accepts: nat) returns (rc: int, posted: seq<nat>)
    requires Linked(next[..], head, list)
    ensures posted == list[..Min(accepts, |list|)]
    ensures rc == if accepts < |list| then 1 else 0
  {
    rc, posted := 0, [];
    var at := head;
    while at != NONE
      invariant |posted| <= |list| && posted == list[..|posted|] && at == At(list, |posted|)
      invariant |posted| <= accepts
      decreases |list| - |posted|
    {
      if |posted| == accepts {
        return 1, posted;
      }
      posted := posted + [at];
      at := next[at];
    }
  }
}
