/** The semaphore array of a databuf: one semaphore a block, 0 free, 1 filled. */
module Databuf {

  // ------------------------------------------------------------------ System V semaphore operations

  datatype SemOp = SemOp(num: nat, op: int)

  /** An array of operations happens as a whole or not at all; None while one of them would block. */
  function TryOps(sem: seq<nat>, ops: seq<SemOp>): (r: SemResult)
    requires forall o | o in ops :: o.num < |sem|
    ensures r.Done? ==> |r.sem| == |sem|
    decreases |ops|
  {
    if ops == [] then Done(sem)
    else
      var o := ops[0];
      if o.op == 0 then
        if sem[o.num] == 0 then TryOps(sem, ops[1..]) else Blocked
      else if o.op < 0 then
        if sem[o.num] + o.op >= 0 then TryOps(sem[o.num := sem[o.num] + o.op], ops[1..]) else Blocked
      else TryOps(sem[o.num := sem[o.num] + o.op], ops[1..])
  }

  datatype SemResult = Blocked | Done(sem: seq<nat>)

  function WaitFreeOps(b: nat): seq<SemOp> { [SemOp(b, 0)] }

  function WaitFilledOps(b: nat): seq<SemOp> { [SemOp(b, -1), SemOp(b, 1)] }

  /** Both waits are tests: what they leave is what they found. */
  lemma WaitsAreTests(sem: seq<nat>, b: nat)
    requires b < |sem|
    ensures TryOps(sem, WaitFreeOps(b)) == if sem[b] == 0 then Done(sem) else Blocked
    ensures TryOps(sem, WaitFilledOps(b)) == if sem[b] > 0 then Done(sem) else Blocked
  {
    assert WaitFreeOps(b)[1..] == [];
    var up := [SemOp(b, 1)];
    assert WaitFilledOps(b)[1..] == up && up[1..] == [];
    if sem[b] > 0 {
      var taken := sem[b := sem[b] - 1];
      assert TryOps(sem, WaitFilledOps(b)) == TryOps(taken, up);
      assert TryOps(taken, up) == TryOps(taken[b := taken[b] + 1], []);
      assert taken[b := taken[b] + 1] == sem;
    }
  }

  // ------------------------------------------------------------------ marking blocks

  function MarkFree(sem: seq<nat>, b: nat): (r: seq<nat>)
    requires b < |sem|
    ensures |r| == |sem|
  {
    sem[b := 0]
  }

  function MarkFilled(sem: seq<nat>, b: nat): (r: seq<nat>)
    requires b < |sem|
    ensures |r| == |sem|
  {
    sem[b := 1]
  }

  function Sum(sem: seq<nat>): nat {
    if sem == [] then 0 else Sum(sem[..|sem| - 1]) + sem[|sem| - 1]
  }

  lemma {:induction false} SumUpdate(sem: seq<nat>, b: nat, v: nat)
    requires b < |sem|
    ensures Sum(sem[b := v]) + sem[b] == Sum(sem) + v
  {
    var last := |sem| - 1;
    if b == last {
      assert sem[b := v][..last] == sem[..last];
    } else {
      assert sem[b := v][..last] == sem[..last][b := v];
      SumUpdate(sem[..last], b, v);
    }
  }

  lemma {:induction false} SumOfZeros(sem: seq<nat>)
    requires forall i | 0 <= i < |sem| :: sem[i] == 0
    ensures Sum(sem) == 0
  {
    if sem != [] {
      SumOfZeros(sem[..|sem| - 1]);
    }
  }

  // ------------------------------------------------------------------ the calls

  /** How a call with a timeout can end besides success. */
  datatype Event = Expired | Interrupted | Served

  datatype Status = Ok | Timeout | ErrSys

  class Databuf {
    const sem: array<nat>

    constructor (n: nat)
      ensures fresh(sem) && sem.Length == n
      ensures forall i | 0 <= i < n :: sem[i] == 0
    {
      sem := new nat[n](_ => 0);
    }

    /** semtimedop: when the operations can happen they happen at once; otherwise the caller
        sleeps until its deadline or a signal, and nothing changes. */
    method SemTimedOp(ops: seq<SemOp>, event: Event) returns (rv: Status)
      requires forall o | o in ops :: o.num < sem.Length
      modifies sem
      ensures var r := TryOps(old(sem[..]), ops);
        if r.Done? then rv == Ok && sem[..] == r.sem
        else sem[..] == old(sem[..]) && rv == if event == Interrupted then ErrSys else Timeout
    {
      var r := TryOps(sem[..], ops);
      match r
      case Done(after) =>
        forall i | 0 <= i < sem.Length {
          sem[i] := after[i];
        }
        rv := Ok;
      case Blocked =>
        rv := if event == Interrupted then ErrSys else Timeout;
    }

    /** hashpipe_databuf_wait_free: succeeds only on a free block, and changes nothing. */
    method WaitFree(b: nat, event: Event) returns (rv: Status)
      requires b < sem.Length
      modifies sem
      ensures sem[..] == old(sem[..])
      ensures rv == Ok <==> sem[b] == 0
      ensures rv == ErrSys ==> event == Interrupted
    {
      WaitsAreTests(sem[..], b);
      rv := SemTimedOp(WaitFreeOps(b), event);
    }

    /** hashpipe_databuf_wait_filled: succeeds only on a filled block, and changes nothing. */
    method WaitFilled(b: nat, event: Event) returns (rv: Status)
      requires b < sem.Length
      modifies sem
      ensures sem[..] == old(sem[..])
      ensures rv == Ok <==> sem[b] > 0
      ensures rv == ErrSys ==> event == Interrupted
    {
      WaitsAreTests(sem[..], b);
      rv := SemTimedOp(WaitFilledOps(b), event);
    }

    /** hashpipe_databuf_set_free. */
    method SetFree(b: nat)
      requires b < sem.Length
      modifies sem
      ensures sem[..] == MarkFree(old(sem[..]), b)
    {
      sem[b] := 0;
    }

    /** hashpipe_databuf_set_filled. */
    method SetFilled(b: nat)
      requires b < sem.Length
      modifies sem
      ensures sem[..] == MarkFilled(old(sem[..]), b)
    {
      sem[b] := 1;
    }

    /** hashpipe_databuf_clear. */
    method Clear()
      modifies sem
      ensures forall i | 0 <= i < sem.Length :: sem[i] == 0
      ensures Sum(sem[..]) == 0
    {
      forall i | 0 <= i < sem.Length {
        sem[i] := 0;
      }
      SumOfZeros(sem[..]);
    }

    /** hashpipe_databuf_total_status. */
    method TotalStatus() returns (tot: nat)
      ensures tot == Sum(sem[..])
    {
      tot := 0;
      var i := 0;
      while i < sem.Length
        invariant i <= sem.Length && tot == Sum(sem[..i])
      {
        assert sem[..i + 1][..i] == sem[..i];
        tot := tot + sem[i];
        i := i + 1;
      }
      assert sem[..sem.Length] == sem[..];
    }
  }
}
