/** The pool of send packets: one linked free list over an array of work requests, send queues
    and completion queues filled and emptied by the hardware. Packets are named by their index;
    NONE is the NULL pointer. */
module SendPool {
  import opened CText
  import opened WorkLists

  // ------------------------------------------------------------------ who has which packet

  /** The free list, the packets in the application's hands, each send queue, and each
      completion queue. */
  datatype Pool = Pool(free: seq<nat>, app: multiset<nat>, posted: seq<seq<nat>>, done: seq<seq<nat>>)

  /** The hardware completes the k-th request of send queue q; one completion of queue q is
      collected; n free packets are handed out; a list is posted to queue q. */
  datatype Event = Complete(q: nat, k: nat) | Collect(q: nat) | Take(n: nat) | Post(q: nat, list: seq<nat>)

  ghost predicate Legal(p: Pool, e: Event) {
    && |p.posted| == |p.done|
    && match e
       case Complete(q, k) => q < |p.posted| && k < |p.posted[q]|
       case Collect(q) => q < |p.done| && p.done[q] != []
       case Take(n) => n <= |p.free|
       case Post(q, list) => q < |p.posted| && multiset(list) <= p.app
  }

  ghost function Step(p: Pool, e: Event): (r: Pool)
    requires Legal(p, e)
    ensures |r.posted| == |r.done| == |p.done|
  {
    match e
    case Complete(q, k) =>
      p.(posted := p.posted[q := p.posted[q][..k] + p.posted[q][k + 1..]], done := p.done[q := p.done[q] + [p.posted[q][k]]])
    case Collect(q) => p.(free := [p.done[q][0]] + p.free, done := p.done[q := p.done[q][1..]])
    case Take(n) => p.(free := p.free[n..], app := p.app + multiset(p.free[..n]))
    case Post(q, list) => p.(app := p.app - multiset(list), posted := p.posted[q := p.posted[q] + list])
  }

  /** Where a run of events leads; None if one of them is not possible. */
  ghost function Run(p: Pool, es: seq<Event>): Option<Pool>
    decreases |es|
  {
    if es == [] then Some(p)
    else
      match Run(p, es[..|es| - 1])
      case None => None
      case Some(m) => if Legal(m, es[|es| - 1]) then Some(Step(m, es[|es| - 1])) else None
  }

  lemma RunSnoc(p: Pool, es: seq<Event>, m: Pool, e: Event)
    requires Run(p, es) == Some(m) && Legal(m, e)
    ensures Run(p, es + [e]) == Some(Step(m, e))
  {
    assert (es + [e])[..|es|] == es;
  }

  lemma {:induction false} RunJoins(p: Pool, es: seq<Event>, m: Pool, fs: seq<Event>)
    requires Run(p, es) == Some(m)
    ensures Run(p, es + fs) == Run(m, fs)
    decreases |fs|
  {
    if fs == [] {
      assert es + fs == es;
    } else {
      assert (es + fs)[..|es + fs| - 1] == es + fs[..|fs| - 1];
      RunJoins(p, es, m, fs[..|fs| - 1]);
    }
  }

  ghost function Total(qs: seq<seq<nat>>, i: nat): nat {
    if qs == [] then 0 else Times(qs[0], i) + Total(qs[1..], i)
  }

  /** How often a packet is anywhere. */
  ghost function All(p: Pool, i: nat): nat {
    Times(p.free, i) + p.app[i] + Total(p.posted, i) + Total(p.done, i)
  }

  /** Each packet below `count` is in exactly one place, once. */
  ghost predicate Whole(p: Pool, count: nat) {
    |p.posted| == |p.done| && forall i: nat :: All(p, i) == if i < count then 1 else 0
  }

  lemma {:induction false} TotalUpdate(qs: seq<seq<nat>>, q: nat, s: seq<nat>, i: nat)
    requires q < |qs|
    ensures Total(qs[q := s], i) + Times(qs[q], i) == Total(qs, i) + Times(s, i)
  {
    var rs := qs[q := s];
    if q == 0 {
      assert rs[1..] == qs[1..];
    } else {
      assert rs[1..] == qs[1..][q - 1 := s] && rs[0] == qs[0];
      TotalUpdate(qs[1..], q - 1, s, i);
    }
  }

  lemma CompleteConserves(p: Pool, q: nat, k: nat, i: nat)
    requires Legal(p, Complete(q, k))
    ensures All(Step(p, Complete(q, k)), i) == All(p, i)
  {
    var s := p.posted[q];
    var front, x, back := s[..k], [s[k]], s[k + 1..];
    TotalUpdate(p.posted, q, front + back, i);
    TotalUpdate(p.done, q, p.done[q] + x, i);
    assert s == front + (x + back);
    var after := Step(p, Complete(q, k));
    assert after == Pool(p.free, p.app, p.posted[q := front + back], p.done[q := p.done[q] + x]);
    hide Total, Times, Step;
    TimesJoined(front, x + back, i);
    TimesJoined(x, back, i);
    TimesJoined(front, back, i);
    TimesJoined(p.done[q], x, i);
  }

  lemma CollectConserves(p: Pool, q: nat, i: nat)
    requires Legal(p, Collect(q))
    ensures All(Step(p, Collect(q)), i) == All(p, i)
  {
    var x, rest := [p.done[q][0]], p.done[q][1..];
    TotalUpdate(p.done, q, rest, i);
    assert p.done[q] == x + rest;
    hide Total, Times;
    TimesJoined(x, rest, i);
    TimesJoined(x, p.free, i);
  }

  lemma TakeConserves(p: Pool, n: nat, i: nat)
    requires Legal(p, Take(n))
    ensures All(Step(p, Take(n)), i) == All(p, i)
  {
    assert p.free == p.free[..n] + p.free[n..];
    TimesJoined(p.free[..n], p.free[n..], i);
    assert (p.app + multiset(p.free[..n]))[i] == p.app[i] + Times(p.free[..n], i);
    hide Total, Times;
  }

  lemma PostConserves(p: Pool, q: nat, list: seq<nat>, i: nat)
    requires Legal(p, Post(q, list))
    ensures All(Step(p, Post(q, list)), i) == All(p, i)
  {
    TotalUpdate(p.posted, q, p.posted[q] + list, i);
    TimesJoined(p.posted[q], list, i);
    assert (p.app - multiset(list))[i] == p.app[i] - Times(list, i);
    hide Total, Times;
  }

  /** No event makes or loses a packet. */
  lemma StepConserves(p: Pool, e: Event, i: nat)
    requires Legal(p, e)
    ensures All(Step(p, e), i) == All(p, i)
  {
    hide All, Step;
    match e
    case Complete(q, k) => CompleteConserves(p, q, k, i);
    case Collect(q) => CollectConserves(p, q, i);
    case Take(n) => TakeConserves(p, n, i);
    case Post(q, list) => PostConserves(p, q, list, i);
  }

  lemma {:induction false} RunConserves(p: Pool, es: seq<Event>, i: nat)
    requires Run(p, es).Some?
    ensures All(Run(p, es).value, i) == All(p, i)
    decreases |es|
  {
    hide All, Step;
    if es != [] {
      RunConserves(p, es[..|es| - 1], i);
      StepConserves(Run(p, es[..|es| - 1]).value, es[|es| - 1], i);
    }
  }

  lemma {:induction false} RunKeepsQueues(p: Pool, es: seq<Event>)
    requires Run(p, es).Some? && |p.posted| == |p.done|
    ensures |Run(p, es).value.posted| == |Run(p, es).value.done| == |p.posted|
    decreases |es|
  {
    if es != [] {
      RunKeepsQueues(p, es[..|es| - 1]);
    }
  }

  /** Every run keeps every packet in one place. */
  lemma RunKeepsWhole(p: Pool, es: seq<Event>, count: nat)
    requires Whole(p, count) && Run(p, es).Some?
    ensures Whole(Run(p, es).value, count) && |Run(p, es).value.posted| == |p.posted|
  {
    RunKeepsQueues(p, es);
    hide All;
    forall i: nat
      ensures All(Run(p, es).value, i) == if i < count then 1 else 0
    {
      RunConserves(p, es, i);
    }
  }

  ghost function Empty(nqp: nat): (qs: seq<seq<nat>>)
    ensures |qs| == nqp && forall i | 0 <= i < nqp :: qs[i] == []
  {
    seq(nqp, _ => [])
  }

  /** After hashpipe_ibv_init every packet is on the free list, in the order of the array. */
  ghost function Start(count: nat, nqp: nat): Pool { Pool(UpTo(count), multiset{}, Empty(nqp), Empty(nqp)) }

  lemma {:induction false} TotalOfEmpty(qs: seq<seq<nat>>, i: nat)
    requires forall q | 0 <= q < |qs| :: qs[q] == []
    ensures Total(qs, i) == 0
  {
    if qs != [] {
      TotalOfEmpty(qs[1..], i);
    }
  }

  lemma StartIsWhole(count: nat, nqp: nat)
    ensures Whole(Start(count, nqp), count)
  {
    hide Times, Total;
    forall i: nat
      ensures All(Start(count, nqp), i) == if i < count then 1 else 0
    {
      TotalOfEmpty(Empty(nqp), i);
      CountUpTo(count, i);
    }
  }

  ghost predicate Somewhere(qs: seq<seq<nat>>, i: nat) { exists q: nat :: q < |qs| && i in qs[q] }

  lemma {:induction false} TotalCounts(qs: seq<seq<nat>>, i: nat)
    ensures Total(qs, i) > 0 <==> Somewhere(qs, i)
  {
    if qs != [] {
      TotalCounts(qs[1..], i);
      assert Somewhere(qs[1..], i) ==> Somewhere(qs, i) by {
        if q: nat :| q < |qs[1..]| && i in qs[1..][q] {
          assert i in qs[q + 1];
        }
      }
      assert forall q: nat | 0 < q < |qs| && i in qs[q] :: i in qs[1..][q - 1];
    }
  }

  lemma WholeMeans(p: Pool, count: nat, i: nat)
    requires Whole(p, count)
    ensures Distinct(p.free) && All(p, i) == if i < count then 1 else 0
    ensures i in p.free ==> i !in p.app && !Somewhere(p.posted, i) && !Somewhere(p.done, i)
    ensures i in p.app ==> !Somewhere(p.posted, i) && !Somewhere(p.done, i)
    ensures Somewhere(p.posted, i) ==> !Somewhere(p.done, i)
    ensures i < count <==> i in p.free || i in p.app || Somewhere(p.posted, i) || Somewhere(p.done, i)
  {
    TotalCounts(p.posted, i);
    TotalCounts(p.done, i);
    assert i in p.free <==> Times(p.free, i) > 0;
    FreeIsDistinct(p, count);
    hide Total, Times;
  }

  lemma FreeIsDistinct(p: Pool, count: nat)
    requires Whole(p, count)
    ensures Distinct(p.free)
  {
    forall j, k | 0 <= j < k < |p.free|
      ensures p.free[j] != p.free[k]
    {
      assert Times(p.free, p.free[j]) <= All(p, p.free[j]) <= 1;
      if p.free[j] == p.free[k] {
        CountedOnce(p.free, j, k);
      }
    }
  }

  /** Over every interleaving of getting, posting and completing, each packet is free, or in the
      application's hands, or posted, or completed and not collected: exactly one of these. */
  lemma ExactlyOnePlace(count: nat, nqp: nat, es: seq<Event>, i: nat)
    requires Run(Start(count, nqp), es).Some? && i < count
    ensures var p := Run(Start(count, nqp), es).value;
      && Distinct(p.free) && All(p, i) == 1
      && (i in p.free ==> i !in p.app && !Somewhere(p.posted, i) && !Somewhere(p.done, i))
      && (i in p.app ==> !Somewhere(p.posted, i) && !Somewhere(p.done, i))
      && (Somewhere(p.posted, i) ==> !Somewhere(p.done, i))
      && (i in p.free || i in p.app || Somewhere(p.posted, i) || Somewhere(p.done, i))
  {
    hide Whole, All, Distinct, Somewhere;
    StartIsWhole(count, nqp);
    RunKeepsWhole(Start(count, nqp), es, count);
    WholeMeans(Run(Start(count, nqp), es).value, count, i);
  }

  // ------------------------------------------------------------------ what the hardware still has to do

  ghost function Lengths(qs: seq<seq<nat>>): nat {
    if qs == [] then 0 else |qs[0]| + Lengths(qs[1..])
  }

  lemma {:induction false} LengthsUpdate(qs: seq<seq<nat>>, q: nat, s: seq<nat>)
    requires q < |qs|
    ensures Lengths(qs[q := s]) + |qs[q]| == Lengths(qs) + |s|
  {
    var rs := qs[q := s];
    if q == 0 {
      assert rs[1..] == qs[1..];
    } else {
      assert rs[1..] == qs[1..][q - 1 := s] && rs[0] == qs[0];
      LengthsUpdate(qs[1..], q - 1, s);
    }
  }

  /** Entries the hardware still has to complete or hand over. */
  ghost function Backlog(p: Pool): nat { Lengths(p.posted) + Lengths(p.done) }

  lemma CompleteKeepsBacklog(p: Pool, q: nat, k: nat)
    requires Legal(p, Complete(q, k))
    ensures Backlog(Step(p, Complete(q, k))) == Backlog(p)
  {
    LengthsUpdate(p.posted, q, p.posted[q][..k] + p.posted[q][k + 1..]);
    LengthsUpdate(p.done, q, p.done[q] + [p.posted[q][k]]);
  }

  lemma CollectShortensBacklog(p: Pool, q: nat)
    requires Legal(p, Collect(q))
    ensures Backlog(Step(p, Collect(q))) == Backlog(p) - 1
  {
    LengthsUpdate(p.done, q, p.done[q][1..]);
  }

  ghost predicate IsSuffix(s: seq<nat>, t: seq<nat>) { |s| <= |t| && t[|t| - |s|..] == s }

  /** Completions of queue q are still there, or on the free list. */
  ghost predicate NotLost(p: Pool, r: Pool, q: nat)
    requires q < |p.done| && q < |r.done|
  {
    forall x | x in p.done[q] :: x in r.free || x in r.done[q]
  }

  /** What collecting and completing changes: packets come to the front of the free list, none
      is lost, and the application's packets and their links stay. */
  ghost predicate Moved(p: Pool, links: seq<int>, r: Pool, links': seq<int>, es: seq<Event>) {
    && Run(p, es) == Some(r) && |r.done| == |p.done| && |links'| == |links|
    && r.app == p.app && (forall i: nat | i < |links| && i in p.app :: links'[i] == links[i])
    && IsSuffix(p.free, r.free)
    && (forall q: nat | q < |p.done| :: NotLost(p, r, q))
  }

  lemma SuffixKeeps(s: seq<nat>, t: seq<nat>, x: nat)
    requires IsSuffix(s, t) && x in s
    ensures x in t
  {
    var k: nat :| k < |s| && s[k] == x;
    assert t[|t| - |s| + k] == x;
  }

  lemma SuffixJoins(s: seq<nat>, t: seq<nat>, u: seq<nat>)
    requires IsSuffix(s, t) && IsSuffix(t, u)
    ensures IsSuffix(s, u)
  {
    assert u[|u| - |s|..] == u[|u| - |t|..][|t| - |s|..];
  }

  lemma NotLostJoins(p: Pool, m: Pool, r: Pool, q: nat)
    requires q < |p.done| == |m.done| == |r.done|
    requires NotLost(p, m, q) && NotLost(m, r, q) && IsSuffix(m.free, r.free)
    ensures NotLost(p, r, q)
  {
    forall x | x in p.done[q]
      ensures x in r.free || x in r.done[q]
    {
      if x in m.free {
        SuffixKeeps(m.free, r.free, x);
      }
    }
  }

  lemma MovedJoins(p: Pool, l: seq<int>, m: Pool, l1: seq<int>, r: Pool, l2: seq<int>, es: seq<Event>, fs: seq<Event>)
    requires Moved(p, l, m, l1, es) && Moved(m, l1, r, l2, fs)
    ensures Moved(p, l, r, l2, es + fs)
  {
    hide Run, IsSuffix, NotLost;
    RunJoins(p, es, m, fs);
    SuffixJoins(p.free, m.free, r.free);
    forall q: nat | q < |p.done|
      ensures NotLost(p, r, q)
    {
      NotLostJoins(p, m, r, q);
    }
  }

  lemma MovedNowhere(p: Pool, l: seq<int>)
    ensures Moved(p, l, p, l, [])
  {
  }

  lemma RunOfOne(p: Pool, e: Event)
    requires Legal(p, e)
    ensures Run(p, [e]) == Some(Step(p, e))
  {
    assert [e][..0] == [];
  }

  // ------------------------------------------------------------------ the context

  class Context {
    const nqp: nat
    const send_pkt_num: nat
    const next: array<int>
    var send_pkt_head: int

    /** The hardware's: requests posted and not completed, completions not collected. */
    var send_queue: seq<seq<nat>>
    var send_cq: seq<seq<nat>>

    ghost var free: seq<nat>
    ghost var app: multiset<nat>

    ghost function Now(): Pool
      reads this
    {
      Pool(free, app, send_queue, send_cq)
    }

    ghost predicate Valid()
      reads this, next
    {
      && next.Length == send_pkt_num * nqp
      && |send_queue| == |send_cq| == nqp
      && Linked(next[..], send_pkt_head, free)
      && Whole(Now(), next.Length)
    }

    /** hashpipe_ibv_init, as far as the send list goes. */
    constructor (nqp: nat, send_pkt_num: nat)
      requires send_pkt_num * nqp >= 1
      ensures Valid() && fresh(next) && this.nqp == nqp && this.send_pkt_num == send_pkt_num
      ensures Now() == Start(send_pkt_num * nqp, nqp)
    {
      this.nqp := nqp;
      this.send_pkt_num := send_pkt_num;
      var n := send_pkt_num * nqp;
      var links := new int[n];
      var i := 0;
      while i < n - 1
        invariant 0 <= i <= n - 1
        invariant forall k | 0 <= k < i :: links[k] == k + 1
      {
        links[i] := i + 1;
        i := i + 1;
      }
      links[i] := NONE;
      next := links;
      send_pkt_head := 0;
      send_queue := seq(nqp, _ => []);
      send_cq := seq(nqp, _ => []);
      free := UpTo(n);
      app := multiset{};
      new;
      StartIsWhole(n, nqp);
      assert send_queue == send_cq == Empty(nqp);
    }

    /** The hardware completes the k-th request of a send queue. */
    method CompleteOne(q: nat, k: nat) returns (ghost es: seq<Event>)
      requires Valid() && q < nqp && k < |send_queue[q]|
      modifies this`send_queue, this`send_cq
      ensures Valid() && Moved(old(Now()), next[..], Now(), next[..], es)
      ensures Backlog(Now()) == old(Backlog(Now()))
    {
      ghost var p := Now();
      es := [Complete(q, k)];
      RunOfOne(p, es[0]);
      StepKeepsWhole(p, es[0], next.Length);
      CompleteKeepsBacklog(p, q, k);
      hide Whole, Backlog, Linked, Run;
      var x := send_queue[q][k];
      send_cq := send_cq[q := send_cq[q] + [x]];
      send_queue := send_queue[q := send_queue[q][..k] + send_queue[q][k + 1..]];
      assert Now() == Step(p, es[0]);
    }

    /** The hardware completes some of the posted requests, in any order. */
    method NicMayComplete() returns (ghost es: seq<Event>)
      requires Valid()
      modifies this`send_queue, this`send_cq
      ensures Valid() && Moved(old(Now()), next[..], Now(), next[..], es)
      ensures Backlog(Now()) == old(Backlog(Now()))
    {
      es := [];
      MovedNowhere(Now(), next[..]);
      hide Whole, Backlog, Linked, Moved;
      var n: nat := *;
      while n > 0
        invariant Valid() && Moved(old(Now()), next[..], Now(), next[..], es)
        invariant Backlog(Now()) == old(Backlog(Now()))
      {
        var q: int := *;
        var k: int := *;
        assert |send_queue| == nqp;
        if 0 <= q < nqp {
          if 0 <= k < |send_queue[q]| {
            ghost var p := Now();
            ghost var one := CompleteOne(q, k);
            MovedJoins(old(Now()), next[..], p, next[..], Now(), next[..], es, one);
            es := es + one;
          }
        }
        n := n - 1;
      }
    }

    /** Pushes the next completion of a queue onto the free list. */
    method Push(q: nat) returns (ghost es: seq<Event>)
      requires Valid() && q < nqp && send_cq[q] != []
      modifies this`send_pkt_head, this`send_cq, this`free, next
      ensures Valid() && Moved(old(Now()), old(next[..]), Now(), next[..], es)
      ensures Backlog(Now()) == old(Backlog(Now())) - 1
      ensures |send_cq[q]| == old(|send_cq[q]|) - 1
    {
      ghost var p := Now();
      es := [Collect(q)];
      RunOfOne(p, es[0]);
      var wr_id := send_cq[q][0];
      CollectIsOutside(p, q, next.Length);
      LinkedPush(next[..], send_pkt_head, free, wr_id);
      StepKeepsWhole(p, es[0], next.Length);
      CollectShortensBacklog(p, q);
      hide Whole, Backlog, Linked, Run;
      next[wr_id] := send_pkt_head;
      send_pkt_head := wr_id;
      send_cq := send_cq[q := send_cq[q][1..]];
      free := [wr_id] + free;
      assert next[..] == old(next[..])[wr_id := old(send_pkt_head)];
      assert Now() == Step(p, es[0]);
      assert p.done[q] == [wr_id] + send_cq[q];
    }

    /** Pushes a batch of completions, as one poll returned it. */
    method PushBatch(q: nat, num_wce: nat) returns (ghost es: seq<Event>)
      requires Valid() && q < nqp && num_wce <= |send_cq[q]|
      modifies this`send_pkt_head, this`send_cq, this`free, next
      ensures Valid() && Moved(old(Now()), old(next[..]), Now(), next[..], es)
      ensures Backlog(Now()) == old(Backlog(Now())) - num_wce
    {
      es := [];
      MovedNowhere(Now(), next[..]);
      hide Whole, Linked, Moved, Backlog;
      var j := 0;
      while j < num_wce
        invariant 0 <= j <= num_wce
        invariant Valid() && Moved(old(Now()), old(next[..]), Now(), next[..], es)
        invariant |send_cq[q]| == old(|send_cq[q]|) - j
        invariant Backlog(Now()) == old(Backlog(Now())) - j
      {
        ghost var m, between := Now(), next[..];
        ghost var one := Push(q);
        MovedJoins(old(Now()), old(next[..]), m, between, Now(), next[..], es, one);
        es := es + one;
        j := j + 1;
      }
    }

    /** One poll, and the pushing of what it returned; the hardware may complete more requests
        first. */
    method PollOnce(q: nat) returns (num_wce: nat, ghost es: seq<Event>)
      requires Valid() && q < nqp
      modifies this, next
      ensures Valid() && Moved(old(Now()), old(next[..]), Now(), next[..], es)
      ensures Backlog(Now()) == old(Backlog(Now())) - num_wce
      ensures num_wce == 0 ==> send_cq[q] == []
    {
      hide Whole, Linked, Moved, Backlog;
      es := NicMayComplete();
      num_wce := if |send_cq[q]| < WC_BATCH_SIZE then |send_cq[q]| else WC_BATCH_SIZE;
      if num_wce > 0 {
        ghost var m, between := Now(), next[..];
        ghost var more := PushBatch(q, num_wce);
        MovedJoins(old(Now()), old(next[..]), m, between, Now(), next[..], es, more);
        es := es + more;
      }
    }

    /** Polls a completion queue until it is empty. */
    method Drain(q: nat) returns (ghost es: seq<Event>)
      requires Valid() && q < nqp
      modifies this, next
      ensures Valid() && Moved(old(Now()), old(next[..]), Now(), next[..], es)
      ensures send_cq[q] == []
    {
      var num_wce;
      num_wce, es := PollOnce(q);
      hide Whole, Linked, Moved, Backlog;
      while num_wce > 0
        invariant Valid() && Moved(old(Now()), old(next[..]), Now(), next[..], es)
        invariant num_wce == 0 ==> send_cq[q] == []
        decreases Backlog(Now()), num_wce
      {
        ghost var p, links := Now(), next[..];
        ghost var more;
        num_wce, more := PollOnce(q);
        MovedJoins(old(Now()), old(next[..]), p, links, Now(), next[..], es, more);
        es := es + more;
      }
    }

    /** Drains every completion queue in turn. */
    method DrainAll() returns (ghost es: seq<Event>)
      requires Valid()
      modifies this, next
      ensures Valid() && Moved(old(Now()), old(next[..]), Now(), next[..], es)
      ensures forall q: nat | q < nqp :: Gathered(old(send_cq[q]), free)
    {
      es := [];
      MovedNowhere(Now(), next[..]);
      hide Whole, Linked, Moved;
      var i := 0;
      while i < nqp
        invariant 0 <= i <= nqp
        invariant Valid() && Moved(old(Now()), old(next[..]), Now(), next[..], es)
        invariant forall q: nat | q < i :: Gathered(old(send_cq[q]), free)
      {
        ghost var p, links := Now(), next[..];
        ghost var more := Drain(i);
        GatheredStays(p, links, Now(), next[..], more);
        MovedJoins(old(Now()), old(next[..]), p, links, Now(), next[..], es, more);
        es := es + more;
        AllGathered(old(Now()), old(next[..]), Now(), next[..], es, i);
        i := i + 1;
      }
    }

    /** The num_to_pop-th packet of the free list, or its last one. */
    method WalkTail(num_to_pop: nat) returns (tail: int)
      requires Linked(next[..], send_pkt_head, free) && num_to_pop > 0 && send_pkt_head != NONE
      ensures free != [] && tail == free[Min(num_to_pop, |free|) - 1]
    {
      LinkedAt(next[..], send_pkt_head, free, 0);
      hide Linked;
      tail := send_pkt_head;
      var i := 0;
      while i < num_to_pop - 1 && next[tail] != NONE
        invariant 0 <= i < Min(num_to_pop, |free|) && tail == free[i]
        invariant tail < next.Length && next[tail] == At(free, i + 1)
        decreases num_to_pop - i
      {
        LinkedAt(next[..], send_pkt_head, free, i + 1);
        tail := next[tail];
        i := i + 1;
      }
    }

    /** Cuts the first k packets off the free list behind `tail`. */
    method CutFree(tail: nat, ghost k: nat)
      requires Valid() && 1 <= k <= |free| && tail == free[k - 1]
      modifies this`send_pkt_head, this`free, this`app, next
      ensures Valid() && Now() == Step(old(Now()), Take(k)) && Linked(next[..], old(send_pkt_head), old(free)[..k])
      ensures forall i: nat | i < next.Length && i in old(app) :: next[i] == old(next[i])
    {
      ghost var p := Now();
      StepKeepsWhole(p, Take(k), next.Length);
      FreeIsOutside(p, next.Length);
      LinkedAt(next[..], send_pkt_head, free, k - 1);
      LinkedCut(next[..], send_pkt_head, free, k);
      hide Whole, Linked, Distinct;
      send_pkt_head := next[tail];
      next[tail] := NONE;
      app := app + multiset(free[..k]);
      free := free[k..];
      assert next[..] == old(next[..])[tail := NONE];
      assert Now() == Step(p, Take(k));
    }

    /** Cuts the first packets off the free list; `num_to_pop` of them if there are so many. */
    method PopSendPackets(num_to_pop: nat) returns (pkt: int)
      requires Valid()
      modifies this`send_pkt_head, this`free, this`app, next
      ensures Valid() && send_cq == old(send_cq)
      ensures var k := Min(num_to_pop, |old(free)|);
        && Now() == Step(old(Now()), Take(k)) && Linked(next[..], pkt, old(free)[..k])
        && forall i: nat | i < next.Length && i in old(app) :: next[i] == old(next[i])
    {
      LinkedAt(next[..], send_pkt_head, free, 0);
      TakeNothing(Now(), next[..]);
      hide Whole, Linked, Distinct, Step;
      if num_to_pop == 0 || send_pkt_head == NONE {
        return NONE;
      }
      pkt := send_pkt_head;
      var tail := WalkTail(num_to_pop);
      CutFree(tail, Min(num_to_pop, |free|));
    }

    /** hashpipe_ibv_get_pkts on queue pairs that are ready to send. `mid` is the pool when the
        free list is cut: `got` is what is cut off it, as many packets as were asked for and
        are allowed at once, or all there are. */
    method GetPkts(num_pkts: nat)
      returns (pkt: int, ghost got: seq<nat>, ghost mid: Pool, ghost links: seq<int>, ghost es: seq<Event>)
      requires Valid()
      modifies this, next
      ensures Valid() && Linked(next[..], pkt, got)
      ensures num_pkts == 0 ==> got == [] && Now() == old(Now()) && next[..] == old(next[..])
      ensures num_pkts > 0 ==>
        && Moved(old(Now()), old(next[..]), mid, links, es)
        && (forall q: nat | q < nqp :: Gathered(old(send_cq[q]), mid.free))
        && |got| == Min(Min(num_pkts, send_pkt_num), |mid.free|) && got == mid.free[..|got|]
        && Now() == Step(mid, Take(|got|))
      ensures Distinct(got)
      ensures forall x | x in got :: x in app && !Somewhere(send_queue, x) && !Somewhere(send_cq, x)
      ensures forall i: nat | i < next.Length && i in old(app) :: next[i] == old(next[i])
    {
      pkt, got, mid, es := NONE, [], Now(), [];
      links := next[..];
      var n := num_pkts;
      if n > send_pkt_num {
        n := send_pkt_num;
      } else if n == 0 {
        return;
      }
      es := DrainAll();
      mid := Now();
      links := next[..];
      pkt := PopSendPackets(n);
      ghost var k := Min(n, |mid.free|);
      got := mid.free[..k];
      TakenAreOurs(mid, Now(), k, next.Length);
      hide Whole, Linked, Run, Somewhere, Distinct;
    }

    /** The application sets the link of a packet it holds. */
    method SetNext(i: nat, to: int)
      requires Valid() && i < next.Length && i in app
      modifies next
      ensures Valid() && next[..] == old(next[..])[i := to]
    {
      AppIsOutside(Now(), i, next.Length);
      next[i] := to;
      LinkedFrame(old(next[..]), next[..], send_pkt_head, free);
    }

    /** hashpipe_ibv_send_pkts on a list of the application's packets. The hardware takes the
        first `accepts` of them, or all; the call succeeds exactly when it takes all. */
    method SendPkts(pkt: int, qp_idx: nat, ghost list: seq<nat>, accepts: nat) returns (rc: int, ghost k: nat)
      requires Valid() && Linked(next[..], pkt, list) && multiset(list) <= app
      modifies this`send_queue, this`app
      ensures Valid() && k <= |list|
      ensures rc == if list == [] || qp_idx >= nqp then -1 else if accepts < |list| then 1 else 0
      ensures rc != -1 ==> k == Min(accepts, |list|)
      ensures if rc == -1 then Now() == old(Now())
        else Legal(old(Now()), Post(qp_idx, list[..k])) && Now() == Step(old(Now()), Post(qp_idx, list[..k]))
    {
      k := 0;
      if pkt == NONE || qp_idx >= nqp {
        return -1, 0;
      }
      ghost var p := Now();
      var posted;
      rc, posted := Accept(next, pkt, list, accepts);
      k := |posted|;
      PartOf(list, k);
      StepKeepsWhole(p, Post(qp_idx, posted), next.Length);
      hide Whole, Linked;
      send_queue := send_queue[qp_idx := send_queue[qp_idx] + posted];
      app := app - multiset(posted);
      assert Now() == Step(p, Post(qp_idx, posted));
    }
  }

  // ------------------------------------------------------------------ who is outside which list

  ghost predicate Gathered(completions: seq<nat>, free: seq<nat>) { forall x | x in completions :: x in free }

  lemma GatheredStays(p: Pool, l: seq<int>, r: Pool, l': seq<int>, es: seq<Event>)
    requires Moved(p, l, r, l', es)
    ensures forall c: seq<nat> | Gathered(c, p.free) :: Gathered(c, r.free)
  {
    forall x | x in p.free
      ensures x in r.free
    {
      SuffixKeeps(p.free, r.free, x);
    }
  }

  lemma AllGathered(p: Pool, l: seq<int>, r: Pool, l': seq<int>, es: seq<Event>, q: nat)
    requires Moved(p, l, r, l', es) && q < |p.done| && r.done[q] == []
    ensures Gathered(p.done[q], r.free)
  {
    assert NotLost(p, r, q);
  }

  lemma TakeNothing(p: Pool, next: seq<int>)
    requires |p.posted| == |p.done|
    ensures Step(p, Take(0)) == p && Linked(next, NONE, p.free[..0])
  {
    assert p.free[0..] == p.free;
    assert p.app + multiset(p.free[..0]) == p.app;
  }

  lemma FreeIsOutside(p: Pool, count: nat)
    requires Whole(p, count)
    ensures Distinct(p.free) && forall x | x in p.free :: x !in p.app
  {
    WholeMeans(p, count, 0);
    forall x | x in p.free
      ensures x !in p.app
    {
      WholeMeans(p, count, x);
    }
  }

  lemma AppIsOutside(p: Pool, i: nat, count: nat)
    requires Whole(p, count) && i in p.app
    ensures i !in p.free
  {
    WholeMeans(p, count, i);
  }

  lemma TakenAreOurs(m: Pool, r: Pool, k: nat, count: nat)
    requires Whole(m, count) && Whole(r, count) && k <= |m.free| && r == Step(m, Take(k))
    ensures Distinct(m.free[..k])
    ensures forall x | x in m.free[..k] :: x in r.app && !Somewhere(r.posted, x) && !Somewhere(r.done, x)
  {
    FreeIsOutside(m, count);
    forall x | x in m.free[..k]
      ensures x in r.app && !Somewhere(r.posted, x) && !Somewhere(r.done, x)
    {
      assert x in multiset(m.free[..k]);
      WholeMeans(r, count, x);
    }
  }

  lemma StepKeepsWhole(p: Pool, e: Event, count: nat)
    requires Whole(p, count) && Legal(p, e)
    ensures Whole(Step(p, e), count)
  {
    hide All;
    forall i: nat
      ensures All(Step(p, e), i) == if i < count then 1 else 0
    {
      StepConserves(p, e, i);
    }
  }

  lemma CollectIsOutside(p: Pool, q: nat, count: nat)
    requires Whole(p, count) && Legal(p, Collect(q))
    ensures p.done[q][0] < count && p.done[q][0] !in p.free && p.done[q][0] !in p.app
  {
    var x := p.done[q][0];
    assert Somewhere(p.done, x);
    WholeMeans(p, count, x);
  }
}
