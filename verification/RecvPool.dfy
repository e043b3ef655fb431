/** The receive pools: one per queue pair, with a completion queue each that is armed to put one
    event on a shared channel. Packets are named by their index. */
module RecvPool {
  import opened CText
  import opened WorkLists
  import opened Arith

  // ------------------------------------------------------------------ one queue pair

  /** Requests posted, completions not collected, packets in the application's hands, whether
      the completion queue is armed; and for the proofs, all completions so far in their order,
      and how many of them were collected. */
  datatype Qp = Qp(rq: seq<nat>, cq: seq<nat>, app: multiset<nat>, armed: bool, log: seq<nat>, collected: nat)

  /** How often a packet is anywhere in a queue pair. */
  ghost function All(q: Qp, i: nat): nat { Times(q.rq, i) + Times(q.cq, i) + q.app[i] }

  /** The queue pair that hashpipe_ibv_release_pkts posts a packet to. */
  ghost function Home(i: nat, n: nat): nat
    requires n >= 1
  {
    i / n
  }

  /** Queue pair `home` has exactly its own `n` packets, each in one place. */
  ghost predicate QpOk(q: Qp, home: nat, n: nat)
  {
    && n >= 1
    && (forall i: nat :: All(q, i) == if Home(i, n) == home then 1 else 0)
    && |q.rq| + |q.cq| + |q.app| == n
    && q.collected <= |q.log| && q.cq == q.log[q.collected..]
  }

  ghost function Received(q: Qp, k: nat): Qp
    requires k < |q.rq|
  {
    q.(rq := q.rq[..k] + q.rq[k + 1..], cq := q.cq + [q.rq[k]], log := q.log + [q.rq[k]], armed := false)
  }

  ghost function Collected(q: Qp): Qp
    requires q.cq != []
  {
    q.(cq := q.cq[1..], app := q.app + multiset{q.cq[0]}, collected := q.collected + 1)
  }

  ghost function Posted(q: Qp, list: seq<nat>): Qp {
    q.(app := q.app - multiset(list), rq := q.rq + list)
  }

  lemma ReceivedCounts(q: Qp, k: nat, i: nat)
    requires k < |q.rq|
    ensures All(Received(q, k), i) == All(q, i)
  {
    var front, x, back := q.rq[..k], [q.rq[k]], q.rq[k + 1..];
    assert q.rq == front + (x + back);
    hide Times;
    TimesJoined(front, x + back, i);
    TimesJoined(x, back, i);
    TimesJoined(front, back, i);
    TimesJoined(q.cq, x, i);
  }

  lemma CollectedCounts(q: Qp, i: nat)
    requires q.cq != []
    ensures All(Collected(q), i) == All(q, i)
  {
    var x, rest := [q.cq[0]], q.cq[1..];
    assert q.cq == x + rest;
    TimesJoined(x, rest, i);
    assert Times(x, i) == multiset{q.cq[0]}[i];
    hide Times;
  }

  lemma PostedCounts(q: Qp, list: seq<nat>, i: nat)
    requires multiset(list) <= q.app
    ensures All(Posted(q, list), i) == All(q, i)
  {
    TimesJoined(q.rq, list, i);
    assert (q.app - multiset(list))[i] == q.app[i] - Times(list, i);
    hide Times;
  }

  lemma ReceivedOk(q: Qp, k: nat, home: nat, n: nat)
    requires QpOk(q, home, n) && k < |q.rq|
    ensures QpOk(Received(q, k), home, n)
  {
    var r := Received(q, k);
    hide All;
    forall i: nat
      ensures All(r, i) == if Home(i, n) == home then 1 else 0
    {
      ReceivedCounts(q, k, i);
    }
    assert r.cq == r.log[r.collected..];
  }

  lemma CollectedOk(q: Qp, home: nat, n: nat)
    requires QpOk(q, home, n) && q.cq != []
    ensures QpOk(Collected(q), home, n)
  {
    var r := Collected(q);
    hide All;
    forall i: nat
      ensures All(r, i) == if Home(i, n) == home then 1 else 0
    {
      CollectedCounts(q, i);
    }
    assert r.cq == r.log[r.collected..];
  }

  lemma PostedOk(q: Qp, list: seq<nat>, home: nat, n: nat)
    requires QpOk(q, home, n) && multiset(list) <= q.app
    ensures QpOk(Posted(q, list), home, n)
  {
    hide All;
    forall i: nat
      ensures All(Posted(q, list), i) == if Home(i, n) == home then 1 else 0
    {
      PostedCounts(q, list, i);
    }
    assert |q.app - multiset(list)| == |q.app| - |list|;
  }

  // ------------------------------------------------------------------ all of them

  /** Where the receiving thread is: outside a receive call; having taken an event; having
      re-armed the queue and collected some packets. */
  datatype Phase = Idle | Popped(q: nat) | Draining(q: nat, got: seq<nat>)

  datatype Rx = Rx(qps: seq<Qp>, events: seq<nat>, phase: Phase)

  /** The hardware completes the k-th request of queue pair q; the steps of a receive call: an
      event is taken, its queue re-armed, a completion collected, the empty queue noticed; a list
      is posted to queue pair q. */
  datatype Event = Receive(q: nat, k: nat) | PopEvent | Arm | Collect | Return | Post(q: nat, list: seq<nat>)

  ghost predicate Legal(s: Rx, e: Event) {
    match e
    case Receive(q, k) => q < |s.qps| && k < |s.qps[q].rq|
    case PopEvent => s.phase.Idle? && s.events != []
    case Arm => s.phase.Popped? && s.phase.q < |s.qps|
    case Collect => s.phase.Draining? && s.phase.q < |s.qps| && s.qps[s.phase.q].cq != []
    case Return => s.phase.Draining? && s.phase.q < |s.qps| && s.qps[s.phase.q].cq == []
    case Post(q, list) => q < |s.qps| && s.phase.Idle? && multiset(list) <= s.qps[q].app
  }

  /** A completion on an armed queue disarms it and puts it on the channel. */
  ghost function Step(s: Rx, e: Event): (r: Rx)
    requires Legal(s, e)
    ensures |r.qps| == |s.qps|
  {
    match e
    case Receive(q, k) =>
      s.(qps := s.qps[q := Received(s.qps[q], k)], events := if s.qps[q].armed then s.events + [q] else s.events)
    case PopEvent => s.(events := s.events[1..], phase := Popped(s.events[0]))
    case Arm => s.(qps := s.qps[s.phase.q := s.qps[s.phase.q].(armed := true)], phase := Draining(s.phase.q, []))
    case Collect =>
      var q := s.phase.q;
      s.(qps := s.qps[q := Collected(s.qps[q])], phase := Draining(q, s.phase.got + [s.qps[q].cq[0]]))
    case Return => s.(phase := Idle)
    case Post(q, list) => s.(qps := s.qps[q := Posted(s.qps[q], list)])
  }

  /** Where a run of events leads; None if one of them is not possible. */
  ghost function Run(s: Rx, es: seq<Event>): Option<Rx>
    decreases |es|
  {
    if es == [] then Some(s)
    else
      match Run(s, es[..|es| - 1])
      case None => None
      case Some(m) => if Legal(m, es[|es| - 1]) then Some(Step(m, es[|es| - 1])) else None
  }

  // ------------------------------------------------------------------ the invariant

  /** The queue whose event was taken and which is not armed again yet. */
  ghost predicate IsPopped(p: Phase, q: nat) { p.Popped? && p.q == q }

  ghost predicate IsServed(p: Phase, q: nat) { !p.Idle? && p.q == q }

  /** A queue is armed, or has its one event on the channel, or that event was just taken; one
      with completions has an event or is being served. */
  ghost predicate Wakes(s: Rx, q: nat)
    requires q < |s.qps|
  {
    && (s.qps[q].armed || q in s.events || IsPopped(s.phase, q))
    && !(s.qps[q].armed && q in s.events)
    && !(IsPopped(s.phase, q) && (s.qps[q].armed || q in s.events))
    && (s.qps[q].cq != [] ==> q in s.events || IsServed(s.phase, q))
  }

  ghost predicate EventsOk(s: Rx) {
    Distinct(s.events) && forall k | 0 <= k < |s.events| :: s.events[k] < |s.qps|
  }

  /** What the call in progress has collected is the last part of what was collected of its
      queue, in the order of completion, and still in the application's hands. */
  ghost predicate GotOk(s: Rx) {
    s.phase.Draining? && s.phase.q < |s.qps| ==>
      var q := s.qps[s.phase.q];
      && |s.phase.got| <= q.collected <= |q.log|
      && s.phase.got == q.log[q.collected - |s.phase.got|..q.collected]
      && multiset(s.phase.got) <= q.app
  }

  ghost predicate Inv(s: Rx, n: nat) {
    && EventsOk(s)
    && (!s.phase.Idle? ==> s.phase.q < |s.qps|)
    && (forall q: nat | q < |s.qps| :: QpOk(s.qps[q], q, n))
    && (forall q: nat | q < |s.qps| :: Wakes(s, q))
    && GotOk(s)
  }

  lemma ReceiveKeeps(s: Rx, q: nat, k: nat, n: nat)
    requires Inv(s, n) && Legal(s, Receive(q, k))
    ensures Inv(Step(s, Receive(q, k)), n)
  {
    var r := Step(s, Receive(q, k));
    ReceivedOk(s.qps[q], k, q, n);
    assert Wakes(s, q);
    ReceiveWakes(s, q, k);
    ReceiveGot(s, q, k);
    hide QpOk, Wakes, GotOk;
  }

  lemma ReceiveWakes(s: Rx, q: nat, k: nat)
    requires (forall j: nat | j < |s.qps| :: Wakes(s, j)) && EventsOk(s) && Legal(s, Receive(q, k))
    ensures var r := Step(s, Receive(q, k));
      EventsOk(r) && forall j: nat | j < |r.qps| :: Wakes(r, j)
  {
    var r := Step(s, Receive(q, k));
    assert Wakes(s, q);
    forall j: nat | j < |r.qps|
      ensures Wakes(r, j)
    {
      assert Wakes(s, j);
    }
  }

  lemma ReceiveGot(s: Rx, q: nat, k: nat)
    requires GotOk(s) && Legal(s, Receive(q, k))
    ensures GotOk(Step(s, Receive(q, k)))
  {
  }

  lemma PopKeeps(s: Rx, n: nat)
    requires Inv(s, n) && Legal(s, PopEvent)
    ensures Inv(Step(s, PopEvent), n)
  {
    hide QpOk;
    var r := Step(s, PopEvent);
    assert s.events == [s.events[0]] + r.events;
    assert forall k | 0 <= k < |r.events| :: r.events[k] == s.events[k + 1];
    forall j: nat | j < |r.qps|
      ensures Wakes(r, j)
    {
      assert Wakes(s, j);
    }
  }

  lemma ArmKeeps(s: Rx, n: nat)
    requires Inv(s, n) && Legal(s, Arm)
    ensures Inv(Step(s, Arm), n)
  {
    var r := Step(s, Arm);
    var q := s.phase.q;
    assert QpOk(r.qps[q], q, n) by {
      assert forall i: nat :: All(r.qps[q], i) == All(s.qps[q], i);
    }
    hide QpOk;
    forall j: nat | j < |r.qps|
      ensures Wakes(r, j)
    {
      assert Wakes(s, j);
    }
    assert GotOk(r);
  }

  lemma CollectKeeps(s: Rx, n: nat)
    requires Inv(s, n) && Legal(s, Collect)
    ensures Inv(Step(s, Collect), n)
  {
    var r := Step(s, Collect);
    var q := s.phase.q;
    assert s.qps[q].cq == s.qps[q].log[s.qps[q].collected..];
    CollectedOk(s.qps[q], q, n);
    hide QpOk;
    forall j: nat | j < |r.qps|
      ensures Wakes(r, j)
    {
      assert Wakes(s, j);
    }
    GotGrows(s.qps[q], s.phase.got);
  }

  lemma GotGrows(q: Qp, got: seq<nat>)
    requires q.cq != [] && q.collected < |q.log| && q.cq == q.log[q.collected..]
    requires |got| <= q.collected && got == q.log[q.collected - |got|..q.collected] && multiset(got) <= q.app
    ensures got + [q.cq[0]] == q.log[q.collected - |got|..q.collected + 1]
    ensures multiset(got + [q.cq[0]]) <= Collected(q).app
  {
    assert q.cq[0] == q.log[q.collected];
  }

  lemma PostKeeps(s: Rx, q: nat, list: seq<nat>, n: nat)
    requires Inv(s, n) && Legal(s, Post(q, list))
    ensures Inv(Step(s, Post(q, list)), n)
  {
    PostedOk(s.qps[q], list, q, n);
    hide QpOk;
    var r := Step(s, Post(q, list));
    forall j: nat | j < |r.qps|
      ensures Wakes(r, j)
    {
      assert Wakes(s, j);
    }
  }

  lemma StepKeepsInv(s: Rx, e: Event, n: nat)
    requires Inv(s, n) && Legal(s, e)
    ensures Inv(Step(s, e), n)
  {
    match e
    case Receive(q, k) => ReceiveKeeps(s, q, k, n);
    case PopEvent => PopKeeps(s, n);
    case Arm => ArmKeeps(s, n);
    case Collect => CollectKeeps(s, n);
    case Return =>
      hide QpOk;
      var r := Step(s, e);
      forall j: nat | j < |r.qps|
        ensures Wakes(r, j)
      {
        assert Wakes(s, j);
      }
    case Post(q, list) => PostKeeps(s, q, list, n);
  }

  lemma {:induction false} RunKeepsInv(s: Rx, es: seq<Event>, n: nat)
    requires Inv(s, n) && Run(s, es).Some?
    ensures Inv(Run(s, es).value, n) && |Run(s, es).value.qps| == |s.qps|
    decreases |es|
  {
    hide Inv, Legal, Step;
    if es != [] {
      RunKeepsInv(s, es[..|es| - 1], n);
      StepKeepsInv(Run(s, es[..|es| - 1]).value, es[|es| - 1], n);
    }
  }

  // ------------------------------------------------------------------ from initialisation on

  ghost function From(first: nat, n: nat): (s: seq<nat>)
    ensures |s| == n && forall j | 0 <= j < n :: s[j] == first + j
  {
    seq(n, j requires 0 <= j < n => first + j)
  }

  ghost function Own(q: nat, n: nat): (s: seq<nat>)
    ensures |s| == n && forall j | 0 <= j < n :: s[j] == q * n + j
  {
    From(q * n, n)
  }

  function FreshQp(rq: seq<nat>): Qp { Qp(rq, [], multiset{}, true, [], 0) }

  /** hashpipe_ibv_init arms every receive queue, then posts every queue pair's own packets. */
  ghost function Start(nqp: nat, n: nat): (s: Rx)
    ensures |s.qps| == nqp && s.events == [] && s.phase == Idle
  {
    Rx(seq(nqp, q requires 0 <= q < nqp => FreshQp(Own(q, n))), [], Idle)
  }

  lemma {:induction false} RangeCount(s: seq<nat>, from: nat, i: nat)
    requires forall j | 0 <= j < |s| :: s[j] == from + j
    ensures Times(s, i) == if from <= i < from + |s| then 1 else 0
  {
    if s != [] {
      var t := s[..|s| - 1];
      RangeCount(t, from, i);
      assert s == t + [s[|s| - 1]];
    }
  }

  lemma HomeIs(q: nat, n: nat, i: nat)
    requires n >= 1
    ensures q * n <= i < q * n + n <==> Home(i, n) == q
  {
    var d, r := i / n, i % n;
    assert i == d * n + r;
    assert (q - d) * n == q * n - d * n;
    if q * n <= i < q * n + n {
      SameFactor(q, d, n);
    }
  }

  lemma StartInv(nqp: nat, n: nat)
    requires n >= 1
    ensures Inv(Start(nqp, n), n)
  {
    var s := Start(nqp, n);
    forall q: nat | q < nqp
      ensures QpOk(s.qps[q], q, n)
    {
      forall i: nat
        ensures All(s.qps[q], i) == if Home(i, n) == q then 1 else 0
      {
        RangeCount(Own(q, n), q * n, i);
        HomeIs(q, n, i);
      }
    }
  }

  lemma ReachableInv(nqp: nat, n: nat, es: seq<Event>)
    requires n >= 1 && Run(Start(nqp, n), es).Some?
    ensures Inv(Run(Start(nqp, n), es).value, n) && |Run(Start(nqp, n), es).value.qps| == nqp
  {
    StartInv(nqp, n);
    hide Inv;
    RunKeepsInv(Start(nqp, n), es, n);
  }

  /** No lost wakeup: between receive calls every completion queue is armed or has an event
      pending, and one that holds completions has an event pending. So a call that finds no
      event leaves nothing behind. */
  lemma NoLostWakeup(nqp: nat, n: nat, es: seq<Event>, q: nat)
    requires n >= 1 && Run(Start(nqp, n), es).Some? && Run(Start(nqp, n), es).value.phase.Idle? && q < nqp
    ensures var s := Run(Start(nqp, n), es).value;
      && |s.qps| == nqp
      && (s.qps[q].armed <==> q !in s.events)
      && (s.qps[q].cq != [] ==> q in s.events)
      && (s.events == [] ==> s.qps[q].cq == [] && s.qps[q].collected == |s.qps[q].log|)
  {
    ReachableInv(nqp, n, es);
    var s := Run(Start(nqp, n), es).value;
    assert Wakes(s, q) && QpOk(s.qps[q], q, n);
    hide Run, All;
  }

  /** Over every run, each queue pair keeps its `n` packets: packet k is only ever posted to,
      completed by or collected from queue pair k / n. */
  lemma PacketsStayHome(nqp: nat, n: nat, es: seq<Event>, q: nat, k: nat)
    requires n >= 1 && Run(Start(nqp, n), es).Some? && q < nqp
    ensures var s := Run(Start(nqp, n), es).value;
      && |s.qps| == nqp
      && |s.qps[q].rq| + |s.qps[q].cq| + |s.qps[q].app| == n
      && (k in s.qps[q].rq || k in s.qps[q].cq || k in s.qps[q].app <==> Home(k, n) == q)
      && (Home(k, n) == q ==> All(s.qps[q], k) == 1)
  {
    ReachableInv(nqp, n, es);
    var s := Run(Start(nqp, n), es).value;
    assert QpOk(s.qps[q], q, n);
    hide Run, Home, Inv;
    OwnPackets(s.qps[q], q, n, k);
  }

  lemma OwnPackets(q: Qp, home: nat, n: nat, k: nat)
    requires QpOk(q, home, n)
    ensures k in q.rq || k in q.cq || k in q.app <==> Home(k, n) == home
    ensures Home(k, n) == home ==> All(q, k) == 1
  {
    hide Home;
    assert k in q.rq <==> Times(q.rq, k) > 0;
    assert k in q.cq <==> Times(q.cq, k) > 0;
    assert All(q, k) == if Home(k, n) == home then 1 else 0;
  }

  /** What the call in progress has collected is all different, and all of its queue pair. */
  lemma GotMeans(s: Rx, n: nat)
    requires Inv(s, n) && s.phase.Draining?
    ensures Distinct(s.phase.got)
    ensures forall x | x in s.phase.got :: x in s.qps[s.phase.q].app && Home(x, n) == s.phase.q
  {
    var q, got := s.qps[s.phase.q], s.phase.got;
    assert QpOk(q, s.phase.q, n);
    hide Home;
    assert multiset(got) <= q.app;
    forall j, k | 0 <= j < k < |got|
      ensures got[j] != got[k]
    {
      assert Times(got, got[j]) <= q.app[got[j]] <= All(q, got[j]) <= 1;
      if got[j] == got[k] {
        CountedOnce(got, j, k);
      }
    }
    forall x | x in got
      ensures x in q.app && Home(x, n) == s.phase.q
    {
      assert x in multiset(got);
      assert All(q, x) > 0;
    }
  }

  /** The packets a receive call returns are different, all of one queue pair, and the next ones
      it completed, in that order; afterwards no completion of the queue is uncollected. */
  lemma ReturnedInOrder(s: Rx, n: nat)
    requires Inv(s, n) && Legal(s, Return)
    ensures var q := s.qps[s.phase.q];
      var got := s.phase.got;
      && Distinct(got) && (forall x | x in got :: x in q.app && Home(x, n) == s.phase.q)
      && |got| <= |q.log| && got == q.log[|q.log| - |got|..] && q.collected == |q.log|
  {
    GotMeans(s, n);
    assert QpOk(s.qps[s.phase.q], s.phase.q, n);
    hide All, Home;
  }

  // ------------------------------------------------------------------ the context

  /** A list under construction: linked up to its last packet `tail`. */
  ghost predicate Open(next: seq<int>, head: int, tail: int, list: seq<nat>) {
    && head == At(list, 0) && tail == (if list == [] then NONE else list[|list| - 1])
    && (forall k: nat | k < |list| :: list[k] < |next|)
    && (forall k: nat | k + 1 < |list| :: next[list[k]] == list[k + 1])
  }

  lemma OpenGrows(next: seq<int>, head: int, tail: int, list: seq<nat>, x: nat)
    requires Open(next, head, tail, list) && list != [] && x < |next| && Distinct(list)
    ensures Open(next[tail := x], head, x, list + [x])
  {
    var longer := list + [x];
    forall k: nat | k + 1 < |longer|
      ensures next[tail := x][longer[k]] == longer[k + 1]
    {
      assert longer[k] == list[k];
    }
  }

  lemma OpenCloses(next: seq<int>, head: int, tail: int, list: seq<nat>)
    requires Open(next, head, tail, list) && list != [] && Distinct(list)
    ensures Linked(next[tail := NONE], head, list)
  {
  }

  lemma RunSnoc(s: Rx, es: seq<Event>, m: Rx, e: Event)
    requires Run(s, es) == Some(m) && Legal(m, e)
    ensures Run(s, es + [e]) == Some(Step(m, e))
  {
    assert (es + [e])[..|es|] == es;
  }

  lemma {:induction false} RunJoins(s: Rx, es: seq<Event>, m: Rx, fs: seq<Event>)
    requires Run(s, es) == Some(m)
    ensures Run(s, es + fs) == Run(m, fs)
    decreases |fs|
  {
    if fs == [] {
      assert es + fs == es;
    } else {
      assert (es + fs)[..|es + fs| - 1] == es + fs[..|fs| - 1];
      RunJoins(s, es, m, fs[..|fs| - 1]);
    }
  }

  /** What the hardware alone changes of a queue pair: completions are added. */
  ghost predicate OnlyReceived(q: Qp, r: Qp) {
    r.app == q.app && r.collected == q.collected && q.cq <= r.cq && q.log <= r.log
  }

  ghost predicate AllOnlyReceived(qs: seq<Qp>, rs: seq<Qp>) {
    |rs| == |qs| && forall q: nat | q < |qs| :: OnlyReceived(qs[q], rs[q])
  }

  /** Links the packets of one queue pair. */
  method LinkPackets(next: array<int>, first: nat, n: nat)
    requires n >= 1 && first + n <= next.Length
    modifies next
    ensures Linked(next[..], first, From(first, n))
    ensures forall i | 0 <= i < next.Length && !(first <= i < first + n) :: next[i] == old(next[i])
  {
    var j := 0;
    while j < n - 1
      invariant 0 <= j <= n - 1
      invariant forall i | first <= i < first + j :: next[i] == i + 1
      invariant forall i | 0 <= i < next.Length && !(first <= i < first + n) :: next[i] == old(next[i])
    {
      next[first + j] := first + j + 1;
      j := j + 1;
    }
    next[first + j] := NONE;
    ghost var list := From(first, n);
    forall k: nat | k < |list|
      ensures next[..][list[k]] == At(list, k + 1)
    {
      assert list[k] == first + k;
    }
  }

  /** Links and posts every queue pair's own packets. */
  method PostAll(links: array<int>, nqp: nat, n: nat) returns (pairs: seq<Qp>)
    requires n >= 1 && links.Length == nqp * n
    modifies links
    ensures |pairs| == nqp && forall q: nat | q < nqp :: pairs[q] == FreshQp(Own(q, n))
  {
    hide Linked;
    pairs := [];
    var ii := 0;
    while |pairs| < nqp
      invariant |pairs| <= nqp && ii == |pairs| * n
      invariant forall q: nat | q < |pairs| :: pairs[q] == FreshQp(Own(q, n))
    {
      RoomFor(|pairs|, nqp, n);
      LinkPackets(links, ii, n);
      var rc, posted := Accept(links, ii, From(ii, n), n);
      assert posted == Own(|pairs|, n);
      pairs := pairs + [FreshQp(posted)];
      ii := ii + n;
    }
  }

  class Context {
    const nqp: nat
    const recv_pkt_num: nat
    const next: array<int>
    var qps: seq<Qp>
    var events: seq<nat>
    ghost var phase: Phase

    ghost function Now(): Rx
      reads this
    {
      Rx(qps, events, phase)
    }

    ghost predicate Valid()
      reads this
    {
      && recv_pkt_num >= 1 && next.Length == nqp * recv_pkt_num && |qps| == nqp
      && Inv(Now(), recv_pkt_num)
    }

    /** hashpipe_ibv_init, as far as the receive queues go, when every post succeeds. */
    constructor (nqp: nat, recv_pkt_num: nat)
      requires recv_pkt_num >= 1
      ensures Valid() && fresh(next) && this.nqp == nqp && this.recv_pkt_num == recv_pkt_num
      ensures Now() == Start(nqp, recv_pkt_num)
    {
      this.nqp := nqp;
      this.recv_pkt_num := recv_pkt_num;
      var links := new int[nqp * recv_pkt_num];
      var pairs := PostAll(links, nqp, recv_pkt_num);
      next := links;
      qps := pairs;
      events := [];
      phase := Idle;
      new;
      StartInv(nqp, recv_pkt_num);
      assert qps == Start(nqp, recv_pkt_num).qps;
    }

    /** hashpipe_ibv_release_pkts on a list of one queue pair's packets, as a receive call
        returns them: the queue pair is found from the first packet. The hardware takes the
        first `accepts` of them, or all; the call succeeds exactly when it takes all. */
    method ReleasePkts(pkt: int, ghost list: seq<nat>, accepts: nat) returns (rc: int, ghost k: nat)
      requires Valid() && phase.Idle? && Linked(next[..], pkt, list)
      requires list != [] ==> list[0] < next.Length && multiset(list) <= qps[HomeOf(list[0])].app
      modifies this`qps
      ensures Valid() && phase.Idle? && k == Min(accepts, |list|)
      ensures rc == if accepts < |list| then 1 else 0
      ensures list == [] ==> Now() == old(Now())
      ensures list != [] ==>
        var e := Post(HomeOf(list[0]), list[..k]);
        Legal(old(Now()), e) && Now() == Step(old(Now()), e)
    {
      k := 0;
      if pkt == NONE {
        return 0, 0;
      }
      var i := pkt / recv_pkt_num;
      assert pkt == list[0] && i == HomeOf(list[0]) && list != [];
      hide Inv, Home, HomeOf;
      var posted;
      rc, posted := Accept(next, pkt, list, accepts);
      k := |posted|;
      PartOf(list, k);
      hide Linked;
      PostTo(i, posted);
    }

    /** The hardware has taken a list for queue pair i. */
    method PostTo(i: nat, posted: seq<nat>)
      requires Valid() && phase.Idle? && i < nqp && multiset(posted) <= qps[i].app
      modifies this`qps
      ensures Valid() && phase.Idle?
      ensures Legal(old(Now()), Post(i, posted)) && Now() == Step(old(Now()), Post(i, posted))
    {
      StepKeepsInv(Now(), Post(i, posted), recv_pkt_num);
      hide Inv;
      qps := qps[i := qps[i].(app := qps[i].app - multiset(posted), rq := qps[i].rq + posted)];
      assert Now() == Step(old(Now()), Post(i, posted));
    }

    ghost function HomeOf(x: nat): (q: nat)
      requires recv_pkt_num >= 1 && x < next.Length == nqp * recv_pkt_num
      ensures q < nqp && q == Home(x, recv_pkt_num)
    {
      HomeInRange(x, nqp, recv_pkt_num);
      Home(x, recv_pkt_num)
    }

    /** The hardware completes the k-th request of a queue pair. */
    method ReceiveOne(q: nat, k: nat)
      requires Valid() && q < nqp && k < |qps[q].rq|
      modifies this`qps, this`events
      ensures Valid() && Legal(old(Now()), Receive(q, k)) && Now() == Step(old(Now()), Receive(q, k))
      ensures AllOnlyReceived(old(qps), qps) && old(events) <= events
    {
      StepKeepsInv(Now(), Receive(q, k), recv_pkt_num);
      hide Inv;
      if qps[q].armed {
        events := events + [q];
      }
      var x := qps[q].rq[k];
      qps := qps[q := qps[q].(rq := qps[q].rq[..k] + qps[q].rq[k + 1..],
                              cq := qps[q].cq + [x], log := qps[q].log + [x], armed := false)];
    }

    /** The hardware completes some of the posted requests, in any order. */
    method NicMayReceive() returns (ghost es: seq<Event>)
      requires Valid()
      modifies this`qps, this`events
      ensures Valid() && Run(old(Now()), es) == Some(Now()) && AllOnlyReceived(old(qps), qps)
      ensures old(events) <= events
    {
      es := [];
      assert Run(Now(), es) == Some(Now());
      hide Inv, Run, Legal, Step;
      var n: nat := *;
      while n > 0
        invariant Valid() && Run(old(Now()), es) == Some(Now()) && AllOnlyReceived(old(qps), qps)
        invariant old(events) <= events
      {
        var q: int := *;
        var k: int := *;
        if 0 <= q < nqp {
          if 0 <= k < |qps[q].rq| {
            ghost var s := Now();
            ReceiveOne(q, k);
            RunSnoc(old(Now()), es, s, Receive(q, k));
            es := es + [Receive(q, k)];
          }
        }
        n := n - 1;
      }
    }

    /** One completion of the queue being served goes to the end of the list. */
    method Append(q: nat, head: int, tail: int) returns (head': int, tail': int)
      requires Valid() && phase.Draining? && phase.q == q < nqp && qps[q].cq != []
      requires Open(next[..], head, tail, phase.got)
      modifies this`qps, this`phase, next
      ensures Valid() && Legal(old(Now()), Collect) && Now() == Step(old(Now()), Collect)
      ensures Open(next[..], head', tail', phase.got)
      ensures forall i: nat | i < next.Length && i !in phase.got :: next[i] == old(next[i])
    {
      hide Inv, Home, Distinct;
      var wr_id := qps[q].cq[0];
      ghost var got := phase.got;
      GotMeans(Now(), recv_pkt_num);
      StepKeepsInv(Now(), Collect, recv_pkt_num);
      qps := qps[q := qps[q].(cq := qps[q].cq[1..], app := qps[q].app + multiset{wr_id}, collected := qps[q].collected + 1)];
      phase := Draining(q, got + [wr_id]);
      GotMeans(Now(), recv_pkt_num);
      InRange(wr_id, q);
      if head == NONE {
        head', tail' := wr_id, wr_id;
      } else {
        OpenGrows(next[..], head, tail, got, wr_id);
        next[tail] := wr_id;
        head', tail' := head, wr_id;
        assert next[..] == old(next[..])[tail := wr_id];
      }
    }

    lemma InRange(x: nat, q: nat)
      requires Valid() && q < nqp && Home(x, recv_pkt_num) == q
      ensures x < next.Length
    {
      hide Inv;
      HomeIs(q, recv_pkt_num, x);
      assert nqp * recv_pkt_num == q * recv_pkt_num + (nqp - q) * recv_pkt_num;
      Product(nqp - q, recv_pkt_num);
    }

    /** Where a receive call stands after its events `es`: it serves queue q from its
        `from`-th completion on. */
    ghost predicate Serves(q: nat, from: nat, head: int, tail: int, links: seq<int>)
      reads this, next
    {
      && Valid() && phase.Draining? && phase.q == q < nqp
      && qps[q].collected == from + |phase.got|
      && Open(next[..], head, tail, phase.got)
      && |links| == next.Length && forall i: nat | i < next.Length && i !in phase.got :: next[i] == links[i]
    }

    method AppendOne(q: nat, head: int, tail: int, ghost from: nat, ghost links: seq<int>)
      returns (head': int, tail': int)
      requires Serves(q, from, head, tail, links) && qps[q].cq != []
      modifies this`qps, this`phase, next
      ensures Serves(q, from, head', tail', links)
      ensures Legal(old(Now()), Collect) && Now() == Step(old(Now()), Collect)
    {
      head', tail' := Append(q, head, tail);
      hide Inv, Open;
      assert forall x | x in old(phase.got) :: x in phase.got;
    }

    /** One poll, and the linking of what it returned; the hardware may complete more first. */
    method PollOnce(q: nat, head: int, tail: int, ghost from: nat, ghost links: seq<int>)
      returns (num_wce: nat, head': int, tail': int, ghost es: seq<Event>)
      requires Serves(q, from, head, tail, links)
      modifies this`qps, this`phase, this`events, next
      ensures Serves(q, from, head', tail', links) && Run(old(Now()), es) == Some(Now())
      ensures num_wce == 0 ==> qps[q].cq == []
      ensures |qps[q].app| == old(|qps[q].app|) + num_wce
    {
      hide Inv, Open, Run, Legal, Step;
      es := NicMayReceive();
      head', tail' := head, tail;
      num_wce := if |qps[q].cq| < WC_BATCH_SIZE then |qps[q].cq| else WC_BATCH_SIZE;
      ghost var queued := |qps[q].cq|;
      var i := 0;
      while i < num_wce
        invariant Serves(q, from, head', tail', links) && Run(old(Now()), es) == Some(Now())
        invariant 0 <= i <= num_wce <= queued && |qps[q].cq| == queued - i
        invariant |qps[q].app| == old(|qps[q].app|) + i
      {
        ghost var s := Now();
        head', tail' := AppendOne(q, head', tail', from, links);
        CollectFacts(s, q);
        RunSnoc(old(Now()), es, s, Collect);
        es := es + [Collect];
        i := i + 1;
      }
    }

    /** Polls until the queue is empty. */
    method DrainQueue(q: nat, ghost from: nat, ghost links: seq<int>)
      returns (head: int, tail: int, ghost es: seq<Event>)
      requires Serves(q, from, NONE, NONE, links)
      modifies this`qps, this`phase, this`events, next
      ensures Serves(q, from, head, tail, links) && Run(old(Now()), es) == Some(Now())
      ensures qps[q].cq == []
    {
      hide Inv, Open, Run, Legal, Step;
      var num_wce;
      num_wce, head, tail, es := PollOnce(q, NONE, NONE, from, links);
      CollectedBound(q);
      while num_wce > 0
        invariant Serves(q, from, head, tail, links) && Run(old(Now()), es) == Some(Now())
        invariant num_wce == 0 ==> qps[q].cq == []
        invariant |qps[q].app| <= recv_pkt_num
        decreases recv_pkt_num - |qps[q].app|, num_wce
      {
        ghost var s, more := Now(), [];
        num_wce, head, tail, more := PollOnce(q, head, tail, from, links);
        CollectedBound(q);
        RunJoins(old(Now()), es, s, more);
        es := es + more;
      }
    }

    /** Takes an event and re-arms its queue; the hardware may complete more in between. */
    method TakeEvent() returns (q: nat, ghost es: seq<Event>)
      requires Valid() && phase.Idle? && events != []
      modifies this`qps, this`phase, this`events
      ensures Serves(q, old(qps[events[0]].collected), NONE, NONE, next[..])
      ensures q == old(events[0]) && Run(old(Now()), es) == Some(Now())
    {
      hide Inv, Run, Open;
      FirstEventInRange();
      q := events[0];
      ghost var s := Now();
      StepKeepsInv(s, PopEvent, recv_pkt_num);
      RunOfOne(s, PopEvent);
      events := events[1..];
      phase := Popped(q);
      assert Now() == Step(s, PopEvent);
      ghost var s1 := Now();
      ghost var more := NicMayReceive();
      RunJoins(s, [PopEvent], s1, more);
      ghost var s2 := Now();
      StepKeepsInv(s2, Arm, recv_pkt_num);
      RunSnoc(s, [PopEvent] + more, s2, Arm);
      es := [PopEvent] + more + [Arm];
      qps := qps[q := qps[q].(armed := true)];
      phase := Draining(q, []);
      assert Now() == Step(s2, Arm);
      OpenEmpty(next[..]);
    }

    /** hashpipe_ibv_recv_pkts on queue pairs that are ready to receive: serves the first event,
        and returns all completions of its queue pair as one list. It returns without serving
        one only when none came. */
    method RecvPkts() returns (pkt: int, ghost got: seq<nat>, ghost served: bool, ghost q: nat, ghost es: seq<Event>)
      requires Valid() && phase.Idle?
      modifies this`qps, this`phase, this`events, next
      ensures Valid() && phase.Idle? && Run(old(Now()), es) == Some(Now())
      ensures Linked(next[..], pkt, got) && Distinct(got)
      ensures old(events) != [] ==> served && q == old(events[0])
      ensures !served ==> events == [] && got == []
      ensures served ==> q < nqp && qps[q].cq == []
      ensures served ==> old(qps[q].collected) <= |qps[q].log| && got == qps[q].log[old(qps[q].collected)..]
      ensures served ==> forall x | x in got :: x in qps[q].app && Home(x, recv_pkt_num) == q
      ensures forall i: nat | i < next.Length && i !in got :: next[i] == old(next[i])
    {
      hide Inv, Run, Open, Linked, Distinct;
      pkt, got, served, q := NONE, [], false, 0;
      es := NicMayReceive();
      if events == [] {
        LinkedEmpty(next[..]);
        return;
      }
      ghost var s1 := Now();
      var cq;
      ghost var more;
      FirstEventInRange();
      ghost var from, links := qps[events[0]].collected, next[..];
      cq, more := TakeEvent();
      RunJoins(old(Now()), es, s1, more);
      es := es + more;
      ghost var s2 := Now();
      var tail;
      pkt, tail, more := DrainQueue(cq, from, links);
      RunJoins(old(Now()), es, s2, more);
      es := es + more;
      served, q, got := true, cq, phase.got;
      ghost var s3 := Now();
      ReturnedInOrder(s3, recv_pkt_num);
      StepKeepsInv(s3, Return, recv_pkt_num);
      RunSnoc(old(Now()), es, s3, Return);
      es := es + [Return];
      phase := Idle;
      assert Now() == Step(s3, Return);
      CloseFacts(next[..], pkt, tail, got);
      if tail != NONE {
        ghost var open := next[..];
        next[tail] := NONE;
        assert next[..] == open[tail := NONE];
      }
    }

    lemma FirstEventInRange()
      requires Valid() && events != []
      ensures events[0] < nqp
    {
      hide QpOk, Wakes, GotOk;
    }

    lemma CollectedBound(q: nat)
      requires Valid() && q < nqp
      ensures |qps[q].app| <= recv_pkt_num
    {
      assert QpOk(qps[q], q, recv_pkt_num);
    }
  }

  lemma CollectFacts(s: Rx, q: nat)
    requires Legal(s, Collect) && s.phase.q == q < |s.qps|
    ensures var r := Step(s, Collect);
      && |r.qps[q].cq| == |s.qps[q].cq| - 1 && r.qps[q].collected == s.qps[q].collected + 1
      && |r.qps[q].app| == |s.qps[q].app| + 1
  {
  }

  lemma OpenEmpty(next: seq<int>)
    ensures Open(next, NONE, NONE, [])
  {
  }

  lemma LinkedEmpty(next: seq<int>)
    ensures Linked(next, NONE, []) && Distinct([])
  {
  }

  /** Closing the list makes it NULL-terminated. */
  lemma CloseFacts(next: seq<int>, head: int, tail: int, list: seq<nat>)
    requires Open(next, head, tail, list) && Distinct(list)
    ensures tail == NONE <==> list == []
    ensures tail == NONE ==> Linked(next, head, list)
    ensures tail != NONE ==> 0 <= tail < |next| && tail in list && Linked(next[tail := NONE], head, list)
  {
    if list != [] {
      OpenCloses(next, head, tail, list);
    }
  }

  lemma RunOfOne(s: Rx, e: Event)
    requires Legal(s, e)
    ensures Run(s, [e]) == Some(Step(s, e))
  {
    assert [e][..0] == [];
  }

  lemma HomeInRange(x: nat, nqp: nat, n: nat)
    requires n >= 1 && x < nqp * n
    ensures Home(x, n) < nqp
  {
    var d := x / n;
    assert x == d * n + x % n;
    assert (d - nqp) * n == d * n - nqp * n;
    Product(if d >= nqp then d - nqp + 1 else 1, n);
  }

  lemma RoomFor(q: nat, nqp: nat, n: nat)
    requires q < nqp && n >= 1
    ensures q * n + n <= nqp * n && (q + 1) * n == q * n + n
  {
    Product(nqp - q, n);
    assert nqp * n == q * n + (nqp - q) * n;
  }
}
