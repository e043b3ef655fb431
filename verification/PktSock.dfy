/** A packet socket's receive ring: the kernel places packets in frames in turn, the reader takes
    them in turn and gives the frames back. Frames are named by their index; -1 is NULL. */
module PktSock {
  import opened Arith

  const TP_STATUS_KERNEL: nat := 0
  const NULL: int := -1
  const IPPROTO_UDP: int := 17

  /** The user bit of a frame's status. */
  predicate IsUser(status: nat) { status % 2 == 1 }

  /** The bytes of a packet from its network header on. */
  type Packet = p: seq<int> | |p| >= 24 && forall i | 0 <= i < |p| :: 0 <= p[i] < 256 witness seq(24, _ => 0)

  predicate IsUdp(p: Packet) { p[0x09] == IPPROTO_UDP }

  function UdpDst(p: Packet): int { p[0x16] * 256 + p[0x17] }

  predicate Matches(p: Packet, port: int) { IsUdp(p) && UdpDst(p) == port }

  ghost predicate Bytes(s: seq<int>) { forall i | 0 <= i < |s| :: 0 <= s[i] < 256 }

  /** A port on the wire, high byte first. */
  function BigEndian(port: nat): seq<int> { [port / 256, port % 256] }

  /** Which datagrams match: with an IP header of twenty bytes, those of the UDP protocol whose
      destination port is the one asked for. With a longer header the filter compares the header's
      own bytes 22 and 23, which are options. */
  lemma MatchesDatagram(ip: seq<int>, src: nat, dst: nat, rest: seq<int>, port: nat)
    requires Bytes(ip) && Bytes(rest) && 20 <= |ip| <= 60 && |ip| % 4 == 0
    requires src < 65536 && dst < 65536 && port < 65536
    ensures var p := ip + BigEndian(src) + BigEndian(dst) + rest;
      && |p| >= 24 && Bytes(p)
      && (|ip| == 20 ==> (Matches(p, port) <==> ip[9] == 17 && dst == port))
      && (|ip| > 20 ==> (Matches(p, port) <==> ip[9] == 17 && ip[22..24] == BigEndian(port)))
  {
    var p := ip + BigEndian(src) + BigEndian(dst) + rest;
    assert p == ip + (BigEndian(src) + BigEndian(dst) + rest);
    assert p[9] == ip[9];
    if |ip| == 20 {
      assert p[22] == BigEndian(dst)[0] && p[23] == BigEndian(dst)[1];
    } else {
      assert p[22] == ip[22] && p[23] == ip[23];
      assert ip[22..24] == [ip[22], ip[23]];
    }
  }

  // ------------------------------------------------------------------ what happened so far

  /** The packets the kernel placed, how many of them the reader has passed, whether the reader
      holds the last of those, and the packets the UDP filter returned. */
  datatype Log = Log(placed: seq<Packet>, passed: nat, held: bool, returned: seq<Packet>)

  /** The kernel places a packet; the reader calls the filter; the reader releases its frame. */
  datatype Event = Place(p: Packet) | Receive | Release

  /** With the caller releasing each returned frame before the next receive. */
  ghost predicate Legal(l: Log, n: nat, e: Event) {
    match e
    case Place(p) => |l.placed| < l.passed + n - (if l.held then 1 else 0)
    case Receive => !l.held
    case Release => l.held
  }

  ghost function Step(l: Log, port: int, e: Event): Log {
    match e
    case Place(p) => l.(placed := l.placed + [p])
    case Receive =>
      if l.passed >= |l.placed| then l
      else if Matches(l.placed[l.passed], port) then
        l.(passed := l.passed + 1, held := true, returned := l.returned + [l.placed[l.passed]])
      else l.(passed := l.passed + 1)
    case Release => l.(held := false)
  }

  ghost predicate IsRun(l: Log, n: nat, port: int, es: seq<Event>)
    decreases |es|
  {
    es == [] || (Legal(l, n, es[0]) && IsRun(Step(l, port, es[0]), n, port, es[1..]))
  }

  ghost function Final(l: Log, port: int, es: seq<Event>): Log
    decreases |es|
  {
    if es == [] then l else Final(Step(l, port, es[0]), port, es[1..])
  }

  /** The packets of a list that match, in their order. */
  ghost function Matching(s: seq<Packet>, port: int): seq<Packet> {
    if s == [] then []
    else Matching(s[..|s| - 1], port) + if Matches(s[|s| - 1], port) then [s[|s| - 1]] else []
  }

  ghost predicate LogOk(l: Log, n: nat, port: int) {
    && l.passed <= |l.placed| <= l.passed + n - (if l.held then 1 else 0)
    && (l.held ==> l.passed >= 1 && Matches(l.placed[l.passed - 1], port))
    && l.returned == Matching(l.placed[..l.passed], port)
  }

  lemma StepKeepsLog(l: Log, n: nat, port: int, e: Event)
    requires n >= 1 && LogOk(l, n, port) && Legal(l, n, e)
    ensures LogOk(Step(l, port, e), n, port)
  {
    var r := Step(l, port, e);
    match e
    case Place(p) => assert r.placed[..l.passed] == l.placed[..l.passed];
    case Receive =>
      if l.passed < |l.placed| {
        assert l.placed[..l.passed + 1][..l.passed] == l.placed[..l.passed];
      }
    case Release =>
  }

  /** Over every run, the frames the UDP filter returned are exactly the matching ones of those
      the reader has passed, in arrival order and once each; the reader never passes the kernel,
      and the kernel is never a whole ring ahead of a frame the reader holds. */
  lemma {:induction false} FilterReturnsMatching(l: Log, n: nat, port: int, es: seq<Event>)
    requires n >= 1 && LogOk(l, n, port) && IsRun(l, n, port, es)
    ensures var r := Final(l, port, es);
      && r.passed <= |r.placed| <= r.passed + n - (if r.held then 1 else 0)
      && r.returned == Matching(r.placed[..r.passed], port)
    decreases |es|
  {
    if es != [] {
      StepKeepsLog(l, n, port, es[0]);
      hide LogOk;
      FilterReturnsMatching(Step(l, port, es[0]), n, port, es[1..]);
    }
  }

  // ------------------------------------------------------------------ the ring

  class Ring {
    const nframes: nat
    const status: array<nat>
    const frames: array<Packet>
    var next_idx: int

    /** Where the kernel places its next packet. */
    var kernel_idx: nat

    ghost const port: int
    ghost var log: Log

    ghost predicate Valid()
      reads this, status, frames
    {
      var end := log.passed + nframes - (if log.held then 1 else 0);
      && nframes >= 1 && status.Length == frames.Length == nframes
      && LogOk(log, nframes, port)
      && next_idx == Slot(log.passed, nframes) && kernel_idx == Slot(|log.placed|, nframes)
      && (forall k: nat | log.passed <= k < |log.placed| ::
            IsUser(status[Slot(k, nframes)]) && frames[Slot(k, nframes)] == log.placed[k])
      && (forall k: nat | |log.placed| <= k < end :: !IsUser(status[Slot(k, nframes)]))
      && (log.held ==> IsUser(status[Slot(log.passed - 1, nframes)]))
    }

    constructor (nframes: nat, port: int)
      requires nframes >= 1
      ensures Valid() && fresh(status) && fresh(frames)
      ensures log == Log([], 0, false, [])
    {
      this.nframes := nframes;
      this.port := port;
      status := new nat[nframes](_ => TP_STATUS_KERNEL);
      frames := new Packet[nframes](_ => seq(24, _ => 0));
      next_idx := 0;
      kernel_idx := 0;
      log := Log([], 0, false, []);
    }

    /** The kernel places a packet if its next frame is its own, and else drops it. */
    method KernelPlaces(p: Packet, flags: nat) returns (placed: bool)
      requires Valid() && IsUser(flags)
      modifies this`kernel_idx, this`log, status, frames
      ensures Valid()
      ensures placed <==> old(Legal(log, nframes, Place(p)))
      ensures log == if placed then Step(old(log), port, Place(p)) else old(log)
    {
      placed := !IsUser(status[kernel_idx]);
      FullRing();
      if placed {
        hide Slot, LogOk, IsUser;
        PlaceInFrame(p, flags);
      }
    }

    method PlaceInFrame(p: Packet, flags: nat)
      requires Valid() && IsUser(flags) && Legal(log, nframes, Place(p))
      modifies this`kernel_idx, this`log, status, frames
      ensures Valid() && log == Step(old(log), port, Place(p))
    {
      StepKeepsLog(log, nframes, port, Place(p));
      OtherSlots(|log.placed|);
      NextSlot(|log.placed|);
      hide Slot, LogOk, IsUser;
      frames[kernel_idx] := p;
      status[kernel_idx] := flags;
      kernel_idx := (kernel_idx + 1) % nframes;
      log := Step(log, port, Place(p));
    }

    /** hashpipe_pktsock_recv_frame_nonblock. */
    method RecvFrameNonblock() returns (frame: int)
      requires Valid() && !log.held
      modifies this`next_idx
      ensures frame == NULL <==> log.passed == |log.placed|
      ensures frame == NULL ==> next_idx == old(next_idx)
      ensures frame != NULL ==> frame == Slot(log.passed, nframes) && next_idx == Slot(log.passed + 1, nframes)
    {
      FullRing();
      frame := next_idx;
      if !IsUser(status[frame]) {
        return NULL;
      }
      SlotNext(log.passed, nframes);
      next_idx := next_idx + 1;
      if next_idx >= nframes {
        next_idx := 0;
      }
    }

    /** hashpipe_pktsock_release_frame on a frame the reader has just passed. */
    method ReleaseFrame(frame: int)
      requires 0 <= frame < status.Length
      modifies status
      ensures status[frame] == TP_STATUS_KERNEL
      ensures forall i | 0 <= i < status.Length && i != frame :: status[i] == old(status[i])
    {
      status[frame] := TP_STATUS_KERNEL;
    }

    /** hashpipe_pktsock_recv_udp_frame_nonblock. */
    method RecvUdpFrameNonblock(dst_port: int) returns (frame: int)
      requires Valid() && !log.held && dst_port == port
      modifies this`next_idx, this`log, status
      ensures Valid() && log == Step(old(log), port, Receive)
      ensures frame != NULL <==> log.held
      ensures frame != NULL ==> 0 <= frame < nframes && frames[frame] == log.placed[old(log.passed)]
    {
      StepKeepsLog(log, nframes, port, Receive);
      frame := RecvFrameNonblock();
      if frame != NULL {
        OtherSlots(log.passed);
        WholeTurn(log.passed);
        hide Slot, LogOk, IsUser;
        log := Step(log, port, Receive);
        if !(IsUdp(frames[frame]) && UdpDst(frames[frame]) == dst_port) {
          ReleaseFrame(frame);
          frame := NULL;
        }
      }
    }

    /** The caller gives back the frame it was given. */
    method GiveBack(frame: int)
      requires Valid() && log.held && frame == Slot(log.passed - 1, nframes)
      modifies this`log, status
      ensures Valid() && log == Step(old(log), port, Release)
    {
      StepKeepsLog(log, nframes, port, Release);
      OtherSlots(log.passed - 1);
      WholeTurn(log.passed - 1);
      assert !IsUser(TP_STATUS_KERNEL);
      hide Slot, LogOk, IsUser;
      log := Step(log, port, Release);
      ReleaseFrame(frame);
    }

    /** The kernel's next frame, and the reader's, tell whether the ring is full or empty. */
    lemma FullRing()
      requires Valid()
      ensures IsUser(status[kernel_idx]) <==> |log.placed| == log.passed + nframes - (if log.held then 1 else 0)
      ensures IsUser(status[next_idx]) <==> log.passed < |log.placed| || (log.held && nframes == 1)
    {
      WholeTurn(log.passed);
      if log.held {
        WholeTurn(log.passed - 1);
      }
    }

    lemma WholeTurn(k: nat)
      requires nframes >= 1
      ensures Slot(k + nframes, nframes) == Slot(k, nframes)
    {
    }

    lemma NextSlot(k: nat)
      requires nframes >= 1
      ensures Slot(k + 1, nframes) == (Slot(k, nframes) + 1) % nframes
    {
      SlotNext(k, nframes);
      IndexNext(Slot(k, nframes), nframes);
    }

    /** The places within one turn of the k-th are other places. */
    lemma OtherSlots(k: nat)
      requires nframes >= 1
      ensures forall j: nat | j != k && j < k + nframes && k < j + nframes :: Slot(j, nframes) != Slot(k, nframes)
    {
      forall j: nat | j != k && j < k + nframes && k < j + nframes
        ensures Slot(j, nframes) != Slot(k, nframes)
      {
        if j < k { SlotDistinct(j, k, nframes); } else { SlotDistinct(k, j, nframes); }
      }
    }
  }
}
