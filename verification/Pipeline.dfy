/** Threads joined by databufs: stage 0 feeds ring 0, stage i reads ring i-1 and feeds ring i,
    the last stage reads the last ring. Every interleaving of their atomic steps. */
module Pipeline {
  import opened Arith
  import opened Databuf

  /** The contents of a block. */
  type Block = int

  /** Ring sizes, the blocks entering the first stage, and what each stage makes of a block. */
  datatype Config = Config(sizes: seq<nat>, input: nat -> Block, work: (nat, Block) -> Block)

  /** A databuf; `produced` and `consumed` count for the proofs, no step tests them. */
  datatype Ring = Ring(sem: seq<nat>, data: seq<Block>, produced: nat, consumed: nat)

  /** Where a stage is in its loop. Having written, it marks its output block filled and its
      input block free, in either order. */
  datatype Pc = AwaitInput | AwaitOutput | Ready | Written | Published | Released

  /** `ib` and `ob` are the stage's own block indices; `held` is what the last stage delivers;
      a stage that has left takes no more steps. */
  datatype Stage = Stage(pc: Pc, ib: nat, ob: nat, held: Block, left: bool)

  datatype State = State(stages: seq<Stage>, rings: seq<Ring>, taken: nat, output: seq<Block>)

  datatype Kind = GetInput | GetOutput | Process | Publish | Release | TimeOut | Leave

  datatype Action = Action(stage: nat, kind: Kind)

  ghost predicate ValidConfig(c: Config) { forall i | 0 <= i < |c.sizes| :: c.sizes[i] >= 1 }

  ghost predicate Shape(c: Config, s: State) {
    && ValidConfig(c)
    && |s.rings| == |c.sizes| && |s.stages| == |c.sizes| + 1
    && (forall i | 0 <= i < |s.rings| :: |s.rings[i].sem| == |s.rings[i].data| == c.sizes[i])
    && (forall i | 0 < i < |s.stages| :: s.stages[i].ib < c.sizes[i - 1])
    && (forall i | 0 <= i < |s.rings| :: s.stages[i].ob < c.sizes[i])
  }

  // ------------------------------------------------------------------ steps

  ghost predicate Enabled(c: Config, s: State, a: Action)
    requires Shape(c, s)
  {
    && a.stage < |s.stages| && !s.stages[a.stage].left
    && var i := a.stage;
       var t := s.stages[i];
       match a.kind
       case GetInput =>
         t.pc == AwaitInput && (i > 0 ==> TryOps(s.rings[i - 1].sem, WaitFilledOps(t.ib)).Done?)
       case GetOutput =>
         t.pc == AwaitOutput && (i < |s.rings| ==> TryOps(s.rings[i].sem, WaitFreeOps(t.ob)).Done?)
       case Process => t.pc == Ready
       case Publish => t.pc == Written || t.pc == Released
       case Release => t.pc == Written || t.pc == Published
       case TimeOut => t.pc == AwaitInput || t.pc == AwaitOutput
       case Leave => t.pc == AwaitInput || t.pc == AwaitOutput
  }

  /** A step other than a wait that times out, and is tried again, or is interrupted, and ends
      the thread. */
  predicate IsProgress(a: Action) { a.kind != TimeOut && a.kind != Leave }

  ghost function WithPc(s: State, i: nat, pc: Pc): State
    requires i < |s.stages|
  {
    s.(stages := s.stages[i := s.stages[i].(pc := pc)])
  }

  ghost function DoGetInput(c: Config, s: State, i: nat): State
    requires Shape(c, s) && Enabled(c, s, Action(i, GetInput))
  {
    var t := s.stages[i];
    var s1 := WithPc(s, i, AwaitOutput);
    if i == 0 then s1
    else s1.(rings := s.rings[i - 1 := s.rings[i - 1].(sem := TryOps(s.rings[i - 1].sem, WaitFilledOps(t.ib)).sem)])
  }

  ghost function DoGetOutput(c: Config, s: State, i: nat): State
    requires Shape(c, s) && Enabled(c, s, Action(i, GetOutput))
  {
    var t := s.stages[i];
    var s1 := WithPc(s, i, Ready);
    if i == |s.rings| then s1
    else s1.(rings := s.rings[i := s.rings[i].(sem := TryOps(s.rings[i].sem, WaitFreeOps(t.ob)).sem)])
  }

  /** The stage's input block: from outside for the first stage, else from its ring. */
  ghost function InputBlock(c: Config, s: State, i: nat): Block
    requires Shape(c, s) && i < |s.stages|
  {
    if i == 0 then c.input(s.taken) else s.rings[i - 1].data[s.stages[i].ib]
  }

  /** Stage i and ring j replaced. */
  ghost function With(s: State, i: nat, t: Stage, j: nat, r: Ring): State
    requires i < |s.stages| && j < |s.rings|
  {
    s.(stages := s.stages[i := t], rings := s.rings[j := r])
  }

  /** Stage i replaced, and the counts at the two ends. */
  ghost function AtEnd(s: State, i: nat, t: Stage, taken: nat, output: seq<Block>): State
    requires i < |s.stages|
  {
    s.(stages := s.stages[i := t], taken := taken, output := output)
  }

  ghost function DoProcess(c: Config, s: State, i: nat): State
    requires Shape(c, s) && i < |s.stages|
  {
    var t := s.stages[i];
    var block := c.work(i, InputBlock(c, s, i));
    if i == |s.rings| then AtEnd(s, i, t.(pc := Written, held := block), s.taken, s.output)
    else With(s, i, t.(pc := Written), i, s.rings[i].(data := s.rings[i].data[t.ob := block]))
  }

  ghost function DoPublish(c: Config, s: State, i: nat): State
    requires Shape(c, s) && i < |s.stages|
  {
    var t := s.stages[i];
    var pc := if t.pc == Released then AwaitInput else Published;
    if i == |s.rings| then AtEnd(s, i, t.(pc := pc), s.taken, s.output + [t.held])
    else
      var r := s.rings[i];
      With(s, i, t.(pc := pc, ob := (t.ob + 1) % c.sizes[i]),
           i, r.(sem := MarkFilled(r.sem, t.ob), produced := r.produced + 1))
  }

  ghost function DoRelease(c: Config, s: State, i: nat): State
    requires Shape(c, s) && i < |s.stages|
  {
    var t := s.stages[i];
    var pc := if t.pc == Published then AwaitInput else Released;
    if i == 0 then AtEnd(s, 0, t.(pc := pc), s.taken + 1, s.output)
    else
      var r := s.rings[i - 1];
      With(s, i, t.(pc := pc, ib := (t.ib + 1) % c.sizes[i - 1]),
           i - 1, r.(sem := MarkFree(r.sem, t.ib), consumed := r.consumed + 1))
  }

  ghost function DoLeave(s: State, i: nat): State
    requires i < |s.stages|
  {
    s.(stages := s.stages[i := s.stages[i].(left := true)])
  }

  ghost function Do(c: Config, s: State, a: Action): State
    requires Shape(c, s) && Enabled(c, s, a)
  {
    match a.kind
    case GetInput => DoGetInput(c, s, a.stage)
    case GetOutput => DoGetOutput(c, s, a.stage)
    case Process => DoProcess(c, s, a.stage)
    case Publish => DoPublish(c, s, a.stage)
    case Release => DoRelease(c, s, a.stage)
    case TimeOut => s
    case Leave => DoLeave(s, a.stage)
  }

  // ------------------------------------------------------------------ the invariant

  /** The k-th block as it enters stage i. */
  ghost function Hist(c: Config, i: nat, k: nat): Block {
    if i == 0 then c.input(k) else c.work(i - 1, Hist(c, i - 1, k))
  }

  /** How many blocks stage i has released, and how many it has published. */
  ghost function TakenBy(s: State, i: nat): nat
    requires i < |s.stages| == |s.rings| + 1
  {
    if i == 0 then s.taken else s.rings[i - 1].consumed
  }

  ghost function MadeBy(s: State, i: nat): nat
    requires i < |s.stages| == |s.rings| + 1
  {
    if i == |s.rings| then |s.output| else s.rings[i].produced
  }

  ghost predicate HoldsInput(pc: Pc) { pc == AwaitOutput || pc == Ready || pc == Written || pc == Published }

  ghost predicate HoldsOutput(pc: Pc) { pc == Ready || pc == Written || pc == Released }

  ghost predicate HasWritten(pc: Pc) { pc == Written || pc == Released }

  /** Blocks consumed..produced-1 are filled with the right contents, the others free. */
  ghost predicate RingOk(c: Config, i: nat, r: Ring, n: nat) {
    && n >= 1 && |r.sem| == |r.data| == n
    && r.consumed <= r.produced <= r.consumed + n
    && (forall k: nat | r.consumed <= k < r.produced ::
          r.sem[Slot(k, n)] == 1 && r.data[Slot(k, n)] == Hist(c, i + 1, k))
    && (forall k: nat | r.produced <= k < r.consumed + n :: r.sem[Slot(k, n)] == 0)
    && Sum(r.sem) == r.produced - r.consumed
  }

  /** There is an input block beyond those the stage has released; there is a slot for one
      output block beyond those it has published. */
  ghost predicate MoreInput(s: State, i: nat)
    requires i < |s.stages| == |s.rings| + 1
  {
    i > 0 ==> s.rings[i - 1].consumed < s.rings[i - 1].produced
  }

  ghost predicate OutputRoom(c: Config, s: State, i: nat)
    requires Shape(c, s) && i < |s.stages|
  {
    i < |s.rings| ==> s.rings[i].produced < s.rings[i].consumed + c.sizes[i]
  }

  /** What the stage has put, or will put, where its next output block goes. */
  ghost function OutputCell(c: Config, s: State, i: nat): Block
    requires Shape(c, s) && i < |s.stages|
  {
    if i == |s.rings| then s.stages[i].held else s.rings[i].data[s.stages[i].ob]
  }

  ghost predicate IndicesOk(c: Config, s: State, i: nat)
    requires Shape(c, s) && i < |s.stages|
  {
    && (i > 0 ==> s.stages[i].ib == Slot(TakenBy(s, i), c.sizes[i - 1]))
    && (i < |s.rings| ==> s.stages[i].ob == Slot(MadeBy(s, i), c.sizes[i]))
  }

  ghost predicate StageOk(c: Config, s: State, i: nat)
    requires Shape(c, s) && i < |s.stages|
  {
    var pc := s.stages[i].pc;
    && IndicesOk(c, s, i)
    && MadeBy(s, i) + (if pc == Released then 1 else 0) == TakenBy(s, i) + (if pc == Published then 1 else 0)
    && (HoldsInput(pc) ==> MoreInput(s, i))
    && (HoldsOutput(pc) ==> OutputRoom(c, s, i))
    && (HasWritten(pc) ==> OutputCell(c, s, i) == Hist(c, i + 1, MadeBy(s, i)))
  }

  ghost predicate Inv(c: Config, s: State) {
    && Shape(c, s)
    && (forall i: nat | i < |s.rings| :: RingOk(c, i, s.rings[i], c.sizes[i]))
    && (forall i: nat | i < |s.stages| :: StageOk(c, s, i))
    && (forall k: nat | k < |s.output| :: s.output[k] == Hist(c, |s.rings| + 1, k))
  }

  // ------------------------------------------------------------------ what each step does to a ring

  lemma RingWrite(c: Config, i: nat, r: Ring, n: nat, v: Block)
    requires RingOk(c, i, r, n) && r.produced < r.consumed + n
    ensures RingOk(c, i, r.(data := r.data[Slot(r.produced, n) := v]), n)
  {
    hide Slot, Hist, Sum;
    forall k: nat | r.consumed <= k < r.produced
      ensures Slot(k, n) != Slot(r.produced, n)
    {
      SlotDistinct(k, r.produced, n);
    }
  }

  lemma RingPublish(c: Config, i: nat, r: Ring, n: nat)
    requires RingOk(c, i, r, n) && r.produced < r.consumed + n
    requires r.data[Slot(r.produced, n)] == Hist(c, i + 1, r.produced)
    ensures RingOk(c, i, r.(sem := MarkFilled(r.sem, Slot(r.produced, n)), produced := r.produced + 1), n)
  {
    hide Slot, Hist, Sum;
    var b := Slot(r.produced, n);
    assert r.sem[b] == 0;
    SumUpdate(r.sem, b, 1);
    forall k: nat | r.consumed <= k < r.produced
      ensures Slot(k, n) != b
    {
      SlotDistinct(k, r.produced, n);
    }
    forall k: nat | r.produced + 1 <= k < r.consumed + n
      ensures Slot(k, n) != b
    {
      SlotDistinct(r.produced, k, n);
    }
  }

  lemma RingRelease(c: Config, i: nat, r: Ring, n: nat)
    requires RingOk(c, i, r, n) && r.consumed < r.produced
    ensures RingOk(c, i, r.(sem := MarkFree(r.sem, Slot(r.consumed, n)), consumed := r.consumed + 1), n)
  {
    assert Slot(r.consumed + n, n) == Slot(r.consumed, n);
    hide Slot, Hist, Sum;
    var b := Slot(r.consumed, n);
    SumUpdate(r.sem, b, 0);
    forall k: nat | r.consumed < k < r.consumed + n
      ensures Slot(k, n) != b
    {
      SlotDistinct(r.consumed, k, n);
    }
  }

  // ------------------------------------------------------------------ each step keeps the invariant

  lemma InputWaitChangesNothing(c: Config, s: State, i: nat)
    requires Shape(c, s) && Enabled(c, s, Action(i, GetInput))
    ensures DoGetInput(c, s, i) == WithPc(s, i, AwaitOutput)
    ensures i > 0 ==> s.rings[i - 1].sem[s.stages[i].ib] > 0
  {
    hide TryOps, WaitFilledOps;
    if i > 0 {
      WaitsAreTests(s.rings[i - 1].sem, s.stages[i].ib);
      assert s.rings[i - 1 := s.rings[i - 1]] == s.rings;
    }
  }

  lemma OutputWaitChangesNothing(c: Config, s: State, i: nat)
    requires Shape(c, s) && Enabled(c, s, Action(i, GetOutput))
    ensures DoGetOutput(c, s, i) == WithPc(s, i, Ready)
    ensures i < |s.rings| ==> s.rings[i].sem[s.stages[i].ob] == 0
  {
    hide TryOps, WaitFreeOps;
    if i < |s.rings| {
      WaitsAreTests(s.rings[i].sem, s.stages[i].ob);
      assert s.rings[i := s.rings[i]] == s.rings;
    }
  }

  /** A block index at which the semaphore is up is a produced one, and one at which it is
      down a free one. */
  lemma SemTells(c: Config, i: nat, r: Ring, n: nat)
    requires RingOk(c, i, r, n)
    ensures r.sem[Slot(r.consumed, n)] > 0 ==> r.consumed < r.produced
    ensures r.sem[Slot(r.produced, n)] == 0 ==> r.produced < r.consumed + n
    ensures r.consumed < r.produced ==> r.sem[Slot(r.consumed, n)] == 1
    ensures r.produced < r.consumed + n ==> r.sem[Slot(r.produced, n)] == 0
  {
    assert Slot(r.consumed + n, n) == Slot(r.consumed, n);
    hide Slot, Hist, Sum;
  }

  /** A stage whose own fields, counts and output cell stay, and whose input and room do not
      shrink, stays right. */
  lemma StageFrame(c: Config, s: State, t: State, j: nat)
    requires Shape(c, s) && Shape(c, t) && j < |s.stages| && StageOk(c, s, j)
    requires t.stages[j] == s.stages[j] && TakenBy(t, j) == TakenBy(s, j) && MadeBy(t, j) == MadeBy(s, j)
    requires MoreInput(s, j) ==> MoreInput(t, j)
    requires OutputRoom(c, s, j) ==> OutputRoom(c, t, j)
    requires HasWritten(s.stages[j].pc) ==> OutputCell(c, t, j) == OutputCell(c, s, j)
    ensures StageOk(c, t, j)
  {
    hide MoreInput, OutputRoom, OutputCell, Slot, Hist, TakenBy, MadeBy;
  }

  /** Only the program counter of stage i moves. */
  lemma PcMoves(c: Config, s: State, t: State, i: nat, pc: Pc)
    requires Inv(c, s) && i < |s.stages| && t == WithPc(s, i, pc)
    requires Shape(c, t) && StageOk(c, t, i)
    ensures Inv(c, t)
  {
    hide RingOk, StageOk;
    forall j: nat | j < |t.stages|
      ensures StageOk(c, t, j)
    {
      if j != i {
        StageFrame(c, s, t, j);
      }
    }
  }

  lemma PcKeepsShape(c: Config, s: State, i: nat, pc: Pc)
    requires Shape(c, s) && i < |s.stages|
    ensures Shape(c, WithPc(s, i, pc))
  {
    var t := WithPc(s, i, pc);
    assert forall j | 0 <= j < |s.stages| :: t.stages[j].ib == s.stages[j].ib && t.stages[j].ob == s.stages[j].ob;
  }

  /** A stage whose wait was successful is right where it goes on. */
  lemma OwnAfterWait(c: Config, s: State, i: nat, pc: Pc)
    requires Shape(c, s) && i < |s.stages| && StageOk(c, s, i)
    requires (s.stages[i].pc == AwaitInput && pc == AwaitOutput && MoreInput(s, i))
      || (s.stages[i].pc == AwaitOutput && pc == Ready && OutputRoom(c, s, i))
    ensures Shape(c, WithPc(s, i, pc)) && StageOk(c, WithPc(s, i, pc), i)
  {
    PcKeepsShape(c, s, i, pc);
    hide Slot, Hist;
  }

  lemma GetInputKeeps(c: Config, s: State, i: nat)
    requires Inv(c, s) && Enabled(c, s, Action(i, GetInput))
    ensures Inv(c, DoGetInput(c, s, i))
  {
    InvAt(c, s, i);
    hide Inv, RingOk, Slot, Hist, TryOps, DoGetInput;
    InputWaitChangesNothing(c, s, i);
    if i > 0 {
      SemTells(c, i - 1, s.rings[i - 1], c.sizes[i - 1]);
    }
    assert MoreInput(s, i);
    hide StageOk, Shape, WithPc;
    OwnAfterWait(c, s, i, AwaitOutput);
    PcMoves(c, s, WithPc(s, i, AwaitOutput), i, AwaitOutput);
  }

  lemma GetOutputKeeps(c: Config, s: State, i: nat)
    requires Inv(c, s) && Enabled(c, s, Action(i, GetOutput))
    ensures Inv(c, DoGetOutput(c, s, i))
  {
    InvAt(c, s, i);
    hide Inv, RingOk, Slot, Hist, TryOps, DoGetOutput;
    OutputWaitChangesNothing(c, s, i);
    if i < |s.rings| {
      SemTells(c, i, s.rings[i], c.sizes[i]);
    }
    assert OutputRoom(c, s, i);
    hide StageOk, Shape, WithPc;
    OwnAfterWait(c, s, i, Ready);
    PcMoves(c, s, WithPc(s, i, Ready), i, Ready);
  }

  lemma InvAt(c: Config, s: State, i: nat)
    requires Inv(c, s) && i < |s.stages|
    ensures Shape(c, s) && StageOk(c, s, i)
    ensures i < |s.rings| ==> RingOk(c, i, s.rings[i], c.sizes[i])
    ensures i > 0 ==> RingOk(c, i - 1, s.rings[i - 1], c.sizes[i - 1])
  {
    hide StageOk, RingOk;
  }

  /** What a stage about to work reads is the next block of its history. */
  lemma InputIsNext(c: Config, s: State, i: nat)
    requires Inv(c, s) && i < |s.stages| && HoldsInput(s.stages[i].pc)
    ensures InputBlock(c, s, i) == Hist(c, i, TakenBy(s, i))
  {
    assert StageOk(c, s, i);
    if i > 0 {
      assert RingOk(c, i - 1, s.rings[i - 1], c.sizes[i - 1]);
      hide Slot, Hist;
      assert s.rings[i - 1].data[Slot(TakenBy(s, i), c.sizes[i - 1])] == Hist(c, i, TakenBy(s, i));
    }
  }

  /** Rings other than `at` are as they were. */
  ghost predicate RingsKept(c: Config, s: State, t: State, at: int)
    requires Shape(c, s) && Shape(c, t)
  {
    forall j: nat | j < |s.rings| && j != at :: t.rings[j] == s.rings[j]
  }

  lemma RingsStayOk(c: Config, s: State, t: State, at: int)
    requires Inv(c, s) && Shape(c, t) && RingsKept(c, s, t, at)
    requires 0 <= at < |t.rings| ==> RingOk(c, at, t.rings[at], c.sizes[at])
    ensures forall j: nat | j < |t.rings| :: RingOk(c, j, t.rings[j], c.sizes[j])
  {
    hide RingOk, StageOk;
  }

  /** All stages but i are as they were, ring i kept what a neighbour sees of it, and so did ring i-1. */
  lemma OthersStayOk(c: Config, s: State, t: State, i: nat, at: int)
    requires Inv(c, s) && Shape(c, t) && RingsKept(c, s, t, at) && i < |s.stages|
    requires at == i || at == i - 1
    requires forall j: nat | j < |s.stages| && j != i :: t.stages[j] == s.stages[j]
    requires at == i && i < |s.rings| ==>
      t.rings[i].consumed == s.rings[i].consumed && t.rings[i].produced >= s.rings[i].produced
    requires at == i - 1 && i > 0 ==>
      t.rings[i - 1].produced == s.rings[i - 1].produced && t.rings[i - 1].consumed >= s.rings[i - 1].consumed
    requires at == i - 1 && i > 0 ==> t.rings[i - 1].data == s.rings[i - 1].data
    requires i != 0 || at == i ==> t.taken == s.taken
    requires i != |s.rings| ==> t.output == s.output
    ensures forall j: nat | j < |t.stages| && j != i :: StageOk(c, t, j)
  {
    hide StageOk, RingOk;
    forall j: nat | j < |t.stages| && j != i
      ensures StageOk(c, t, j)
    {
      assert StageOk(c, s, j);
      StageFrame(c, s, t, j);
    }
  }

  /** What a replacement leaves alone. */
  lemma WithFacts(c: Config, s: State, i: nat, t: Stage, j: nat, r: Ring)
    requires Shape(c, s) && i < |s.stages| && j < |s.rings|
    requires |r.sem| == |r.data| == c.sizes[j]
    requires (i > 0 ==> t.ib < c.sizes[i - 1]) && (i < |s.rings| ==> t.ob < c.sizes[i])
    ensures var u := With(s, i, t, j, r);
      && Shape(c, u) && RingsKept(c, s, u, j)
      && u.stages[i] == t && u.rings[j] == r && u.taken == s.taken && u.output == s.output
      && (forall k: nat | k < |s.rings| && k != j :: u.rings[k] == s.rings[k])
      && forall k: nat | k < |s.stages| && k != i :: u.stages[k] == s.stages[k]
  {
    WithShape(c, s, i, t, j, r);
    assert |s.stages| == |s.rings| + 1;
    hide Shape;
  }

  lemma WithShape(c: Config, s: State, i: nat, t: Stage, j: nat, r: Ring)
    requires Shape(c, s) && i < |s.stages| && j < |s.rings|
    requires |r.sem| == |r.data| == c.sizes[j]
    requires (i > 0 ==> t.ib < c.sizes[i - 1]) && (i < |s.rings| ==> t.ob < c.sizes[i])
    ensures Shape(c, With(s, i, t, j, r))
  {
    var u := With(s, i, t, j, r);
    forall k | 0 <= k < |u.rings|
      ensures |u.rings[k].sem| == |u.rings[k].data| == c.sizes[k]
    {
      assert u.rings[k] == if k == j then r else s.rings[k];
    }
    IndicesFit(c, s, u, i);
  }

  /** With the indices of all stages but i kept, and those of i in range, all are in range. */
  lemma IndicesFit(c: Config, s: State, u: State, i: nat)
    requires Shape(c, s) && i < |s.stages| == |u.stages| && |u.rings| == |s.rings|
    requires forall k: nat | k < |s.stages| && k != i :: u.stages[k] == s.stages[k]
    requires (i > 0 ==> u.stages[i].ib < c.sizes[i - 1]) && (i < |s.rings| ==> u.stages[i].ob < c.sizes[i])
    ensures forall k | 0 < k < |u.stages| :: u.stages[k].ib < c.sizes[k - 1]
    ensures forall k | 0 <= k < |u.rings| :: u.stages[k].ob < c.sizes[k]
  {
  }

  lemma AtEndFacts(c: Config, s: State, i: nat, t: Stage, taken: nat, output: seq<Block>)
    requires Shape(c, s) && i < |s.stages| && t.ib == s.stages[i].ib && t.ob == s.stages[i].ob
    ensures var u := AtEnd(s, i, t, taken, output);
      && Shape(c, u) && RingsKept(c, s, u, -1) && RingsKept(c, s, u, i)
      && u.rings == s.rings && u.stages[i] == t && u.taken == taken && u.output == output
      && forall k: nat | k < |s.stages| && k != i :: u.stages[k] == s.stages[k]
  {
    AtEndShape(c, s, i, t, taken, output);
    assert |s.stages| == |s.rings| + 1;
    hide Shape;
  }

  lemma AtEndShape(c: Config, s: State, i: nat, t: Stage, taken: nat, output: seq<Block>)
    requires Shape(c, s) && i < |s.stages| && t.ib == s.stages[i].ib && t.ob == s.stages[i].ob
    ensures Shape(c, AtEnd(s, i, t, taken, output))
  {
    var u := AtEnd(s, i, t, taken, output);
    assert u.stages == s.stages[i := t] && u.rings == s.rings;
    hide AtEnd;
  }

  lemma InvFrom(c: Config, s: State, t: State, i: nat, at: int)
    requires Inv(c, s) && Shape(c, t) && i < |s.stages|
    requires forall j: nat | j < |t.rings| :: RingOk(c, j, t.rings[j], c.sizes[j])
    requires forall j: nat | j < |t.stages| && j != i :: StageOk(c, t, j)
    requires StageOk(c, t, i)
    requires forall k: nat | k < |t.output| :: t.output[k] == Hist(c, |t.rings| + 1, k)
    ensures Inv(c, t)
  {
    hide RingOk, StageOk;
  }

  lemma InvInner(c: Config, s: State, t: State, i: nat)
    requires Inv(c, s) && Shape(c, t) && i < |s.stages| && t.output == s.output
    requires forall j: nat | j < |t.rings| :: RingOk(c, j, t.rings[j], c.sizes[j])
    requires forall j: nat | j < |t.stages| && j != i :: StageOk(c, t, j)
    requires StageOk(c, t, i)
    ensures Inv(c, t)
  {
    hide RingOk, StageOk;
  }

  lemma ProcessOwnLast(c: Config, s: State, t: State, block: Block)
    requires Shape(c, s) && Shape(c, t) && t.rings == s.rings && t.taken == s.taken && t.output == s.output
    requires StageOk(c, s, |s.rings|) && s.stages[|s.rings|].pc == Ready
    requires t.stages[|s.rings|] == s.stages[|s.rings|].(pc := Written, held := block)
    requires block == Hist(c, |s.rings| + 1, TakenBy(s, |s.rings|))
    ensures StageOk(c, t, |s.rings|)
  {
    hide Slot, Hist;
  }

  lemma ProcessKeepsLast(c: Config, s: State)
    requires Inv(c, s) && Enabled(c, s, Action(|s.rings|, Process))
    ensures Inv(c, DoProcess(c, s, |s.rings|))
  {
    var i := |s.rings|;
    hide Inv, RingOk, Slot, Hist, InputBlock, AtEnd, RingsKept;
    InvAt(c, s, i);
    var block := c.work(i, InputBlock(c, s, i));
    InputIsNext(c, s, i);
    assert block == Hist(c, i + 1, TakenBy(s, i)) by {
      HistNext(c, i, TakenBy(s, i));
    }
    var stage := s.stages[i].(pc := Written, held := block);
    AtEndFacts(c, s, i, stage, s.taken, s.output);
    var t := AtEnd(s, i, stage, s.taken, s.output);
    ProcessOwnLast(c, s, t, block);
    hide StageOk;
    OthersStayOk(c, s, t, i, i);
    RingsStayOk(c, s, t, i);
    InvInner(c, s, t, i);
  }

  lemma ProcessOwn(c: Config, s: State, t: State, i: nat, block: Block)
    requires Shape(c, s) && Shape(c, t) && i < |s.rings| && StageOk(c, s, i) && s.stages[i].pc == Ready
    requires t.stages[i] == s.stages[i].(pc := Written)
    requires t.rings[i] == s.rings[i].(data := s.rings[i].data[s.stages[i].ob := block])
    requires i > 0 ==> t.rings[i - 1] == s.rings[i - 1]
    requires t.taken == s.taken && block == Hist(c, i + 1, TakenBy(s, i))
    ensures StageOk(c, t, i)
  {
    hide Slot, Hist;
  }

  lemma ProcessKeepsInner(c: Config, s: State, i: nat)
    requires Inv(c, s) && Enabled(c, s, Action(i, Process)) && i < |s.rings|
    ensures Inv(c, DoProcess(c, s, i))
  {
    hide Inv, RingOk, Slot, Hist, InputBlock, With, RingsKept, MarkFilled;
    InvAt(c, s, i);
    var block := c.work(i, InputBlock(c, s, i));
    InputIsNext(c, s, i);
    assert block == Hist(c, i + 1, TakenBy(s, i)) by {
      HistNext(c, i, TakenBy(s, i));
    }
    var ring, n := s.rings[i], c.sizes[i];
    var r := ring.(data := ring.data[s.stages[i].ob := block]);
    RingWrite(c, i, ring, n, block);
    WithFacts(c, s, i, s.stages[i].(pc := Written), i, r);
    var t := With(s, i, s.stages[i].(pc := Written), i, r);
    ProcessOwn(c, s, t, i, block);
    hide StageOk;
    RingsStayOk(c, s, t, i);
    OthersStayOk(c, s, t, i, i);
    InvInner(c, s, t, i);
  }

  lemma HistNext(c: Config, i: nat, k: nat)
    ensures Hist(c, i + 1, k) == c.work(i, Hist(c, i, k))
  {
  }

  lemma PublishOwnLast(c: Config, s: State, t: State)
    requires Shape(c, s) && Shape(c, t) && t.rings == s.rings && t.taken == s.taken
    requires StageOk(c, s, |s.rings|) && HasWritten(s.stages[|s.rings|].pc)
    requires t.stages[|s.rings|].pc == (if s.stages[|s.rings|].pc == Released then AwaitInput else Published)
    requires t.stages[|s.rings|].ib == s.stages[|s.rings|].ib
    requires t.output == s.output + [s.stages[|s.rings|].held]
    ensures StageOk(c, t, |s.rings|)
    ensures s.stages[|s.rings|].held == Hist(c, |s.rings| + 1, |s.output|)
  {
    hide Slot, Hist;
  }

  lemma OutputGrows(c: Config, s: State, t: State)
    requires Inv(c, s) && |t.rings| == |s.rings| && |t.output| == |s.output| + 1 && t.output[..|s.output|] == s.output
    requires t.output[|s.output|] == Hist(c, |s.rings| + 1, |s.output|)
    ensures forall k: nat | k < |t.output| :: t.output[k] == Hist(c, |t.rings| + 1, k)
  {
    hide RingOk, StageOk, Hist, Shape;
    forall k: nat | k < |t.output|
      ensures t.output[k] == Hist(c, |t.rings| + 1, k)
    {
      assert k < |s.output| ==> t.output[k] == t.output[..|s.output|][k];
    }
  }

  lemma PublishKeepsLast(c: Config, s: State)
    requires Inv(c, s) && Enabled(c, s, Action(|s.rings|, Publish))
    ensures Inv(c, DoPublish(c, s, |s.rings|))
  {
    var i := |s.rings|;
    hide RingOk, Slot, Hist, AtEnd, RingsKept;
    InvAt(c, s, i);
    var pc := if s.stages[i].pc == Released then AwaitInput else Published;
    var stage := s.stages[i].(pc := pc);
    var output := s.output + [s.stages[i].held];
    AtEndFacts(c, s, i, stage, s.taken, output);
    var t := AtEnd(s, i, stage, s.taken, output);
    assert t == DoPublish(c, s, i);
    hide DoPublish;
    PublishOwnLast(c, s, t);
    hide StageOk;
    OutputGrows(c, s, t);
    hide Inv;
    OthersStayOk(c, s, t, i, i);
    RingsStayOk(c, s, t, i);
    InvFrom(c, s, t, i, i);
  }

  lemma PublishOwn(c: Config, s: State, t: State, i: nat)
    requires Shape(c, s) && Shape(c, t) && i < |s.rings| && StageOk(c, s, i) && HasWritten(s.stages[i].pc)
    requires t.stages[i].pc == (if s.stages[i].pc == Released then AwaitInput else Published)
    requires t.stages[i].ib == s.stages[i].ib && t.stages[i].ob == Slot(s.rings[i].produced + 1, c.sizes[i])
    requires t.rings[i].produced == s.rings[i].produced + 1
    requires i > 0 ==> t.rings[i - 1] == s.rings[i - 1]
    requires t.taken == s.taken
    ensures StageOk(c, t, i)
  {
    hide Slot, Hist;
  }

  lemma PublishKeepsInner(c: Config, s: State, i: nat)
    requires Inv(c, s) && Enabled(c, s, Action(i, Publish)) && i < |s.rings|
    ensures Inv(c, DoPublish(c, s, i))
  {
    hide Inv, RingOk, Slot, Hist, With, RingsKept, MarkFilled;
    InvAt(c, s, i);
    var ring, n := s.rings[i], c.sizes[i];
    var r := ring.(sem := MarkFilled(ring.sem, s.stages[i].ob), produced := ring.produced + 1);
    RingPublish(c, i, ring, n);
    SlotNext(ring.produced, n);
    IndexNext(s.stages[i].ob, n);
    var pc := if s.stages[i].pc == Released then AwaitInput else Published;
    var stage := s.stages[i].(pc := pc, ob := (s.stages[i].ob + 1) % n);
    WithFacts(c, s, i, stage, i, r);
    var t := With(s, i, stage, i, r);
    PublishOwn(c, s, t, i);
    hide StageOk;
    RingsStayOk(c, s, t, i);
    OthersStayOk(c, s, t, i, i);
    InvInner(c, s, t, i);
  }

  lemma ReleaseOwnFirst(c: Config, s: State, t: State)
    requires Shape(c, s) && Shape(c, t) && t.rings == s.rings && t.output == s.output && t.taken == s.taken + 1
    requires StageOk(c, s, 0) && (s.stages[0].pc == Written || s.stages[0].pc == Published)
    requires t.stages[0] == s.stages[0].(pc := if s.stages[0].pc == Published then AwaitInput else Released)
    ensures StageOk(c, t, 0)
  {
    hide Slot, Hist;
  }

  lemma ReleaseKeepsFirst(c: Config, s: State)
    requires Inv(c, s) && Enabled(c, s, Action(0, Release))
    ensures Inv(c, DoRelease(c, s, 0))
  {
    hide Inv, RingOk, Slot, Hist, AtEnd, RingsKept;
    InvAt(c, s, 0);
    var stage := s.stages[0].(pc := if s.stages[0].pc == Published then AwaitInput else Released);
    AtEndFacts(c, s, 0, stage, s.taken + 1, s.output);
    var t := AtEnd(s, 0, stage, s.taken + 1, s.output);
    ReleaseOwnFirst(c, s, t);
    hide StageOk;
    OthersStayOk(c, s, t, 0, -1);
    RingsStayOk(c, s, t, -1);
    InvInner(c, s, t, 0);
  }

  lemma ReleaseOwn(c: Config, s: State, t: State, i: nat)
    requires Shape(c, s) && Shape(c, t) && 0 < i < |s.stages| && StageOk(c, s, i)
    requires s.stages[i].pc == Written || s.stages[i].pc == Published
    requires t.stages[i].pc == (if s.stages[i].pc == Published then AwaitInput else Released)
    requires t.stages[i].ob == s.stages[i].ob && t.stages[i].held == s.stages[i].held
    requires t.stages[i].ib == Slot(s.rings[i - 1].consumed + 1, c.sizes[i - 1])
    requires t.rings[i - 1].consumed == s.rings[i - 1].consumed + 1
    requires i < |s.rings| ==> t.rings[i] == s.rings[i]
    requires t.output == s.output
    ensures StageOk(c, t, i)
  {
    hide Slot, Hist;
  }

  lemma ReleaseKeepsInner(c: Config, s: State, i: nat)
    requires Inv(c, s) && Enabled(c, s, Action(i, Release)) && i > 0
    ensures Inv(c, DoRelease(c, s, i))
  {
    hide Inv, RingOk, Slot, Hist, With, RingsKept, MarkFree;
    InvAt(c, s, i);
    var ring, n := s.rings[i - 1], c.sizes[i - 1];
    var r := ring.(sem := MarkFree(ring.sem, s.stages[i].ib), consumed := ring.consumed + 1);
    RingRelease(c, i - 1, ring, n);
    SlotNext(ring.consumed, n);
    IndexNext(s.stages[i].ib, n);
    var pc := if s.stages[i].pc == Published then AwaitInput else Released;
    var stage := s.stages[i].(pc := pc, ib := (s.stages[i].ib + 1) % n);
    WithFacts(c, s, i, stage, i - 1, r);
    var t := With(s, i, stage, i - 1, r);
    ReleaseOwn(c, s, t, i);
    hide StageOk;
    RingsStayOk(c, s, t, i - 1);
    OthersStayOk(c, s, t, i, i - 1);
    InvInner(c, s, t, i);
  }

  /** A thread that leaves takes no more steps; the rings and the other threads stay right. */
  lemma LeaveKeeps(c: Config, s: State, i: nat)
    requires Inv(c, s) && i < |s.stages|
    ensures Inv(c, DoLeave(s, i))
  {
    var t := DoLeave(s, i);
    assert forall j | 0 <= j < |s.stages| :: t.stages[j] == s.stages[j].(left := t.stages[j].left);
    assert Shape(c, t);
    hide RingOk, StageOk;
    forall j: nat | j < |t.stages|
      ensures StageOk(c, t, j)
    {
      LeftIsNothingElse(c, s, t, j);
    }
  }

  lemma LeftIsNothingElse(c: Config, s: State, t: State, j: nat)
    requires Shape(c, s) && Shape(c, t) && j < |s.stages| && StageOk(c, s, j)
    requires t.rings == s.rings && t.taken == s.taken && t.output == s.output
    requires t.stages[j] == s.stages[j].(left := t.stages[j].left)
    ensures StageOk(c, t, j)
  {
    hide Slot, Hist;
  }

  lemma StepKeepsInv(c: Config, s: State, a: Action)
    requires Inv(c, s) && Enabled(c, s, a)
    ensures Inv(c, Do(c, s, a))
  {
    assert a.stage <= |s.rings|;
    hide Inv, Enabled, DoGetInput, DoGetOutput, DoProcess, DoPublish, DoRelease, DoLeave;
    match a.kind
    case GetInput => GetInputKeeps(c, s, a.stage);
    case GetOutput => GetOutputKeeps(c, s, a.stage);
    case Process => if a.stage == |s.rings| { ProcessKeepsLast(c, s); } else { ProcessKeepsInner(c, s, a.stage); }
    case Publish => if a.stage == |s.rings| { PublishKeepsLast(c, s); } else { PublishKeepsInner(c, s, a.stage); }
    case Release => if a.stage == 0 { ReleaseKeepsFirst(c, s); } else { ReleaseKeepsInner(c, s, a.stage); }
    case TimeOut =>
    case Leave => LeaveKeeps(c, s, a.stage);
  }

  // ------------------------------------------------------------------ runs

  ghost predicate Fresh(t: Stage) { t.pc == AwaitInput && t.ib == 0 && t.ob == 0 && !t.left }

  /** All semaphores zero, all threads at the top of their loops with block index 0. */
  ghost predicate Init(c: Config, s: State) {
    && Shape(c, s)
    && (forall i: nat | i < |s.rings| ::
          s.rings[i].produced == 0 && s.rings[i].consumed == 0
          && forall b | 0 <= b < |s.rings[i].sem| :: s.rings[i].sem[b] == 0)
    && (forall i: nat | i < |s.stages| :: Fresh(s.stages[i]))
    && s.taken == 0 && s.output == []
  }

  lemma InitInv(c: Config, s: State)
    requires Init(c, s)
    ensures Inv(c, s)
  {
    forall i: nat | i < |s.rings|
      ensures RingOk(c, i, s.rings[i], c.sizes[i])
    {
      SumOfZeros(s.rings[i].sem);
      assert forall k: nat | k < c.sizes[i] :: s.rings[i].sem[Slot(k, c.sizes[i])] == 0;
    }
    hide RingOk, Hist;
    forall i: nat | i < |s.stages|
      ensures StageOk(c, s, i)
    {
    }
  }

  /** Any interleaving: each action is enabled where it is taken. */
  ghost predicate IsRun(c: Config, s: State, acts: seq<Action>)
    requires Shape(c, s)
    decreases |acts|
  {
    acts == [] || (Enabled(c, s, acts[0]) && Shape(c, Do(c, s, acts[0])) && IsRun(c, Do(c, s, acts[0]), acts[1..]))
  }

  ghost function Final(c: Config, s: State, acts: seq<Action>): (t: State)
    requires Shape(c, s) && IsRun(c, s, acts)
    ensures Shape(c, t)
    decreases |acts|
  {
    if acts == [] then s else Final(c, Do(c, s, acts[0]), acts[1..])
  }

  lemma {:induction false} RunKeepsInv(c: Config, s: State, acts: seq<Action>)
    requires Inv(c, s) && IsRun(c, s, acts)
    ensures Inv(c, Final(c, s, acts))
    decreases |acts|
  {
    hide RingOk, StageOk, Enabled, Do;
    if acts != [] {
      StepKeepsInv(c, s, acts[0]);
      RunKeepsInv(c, Do(c, s, acts[0]), acts[1..]);
    }
  }

  /** The blocks leaving the last stage are the first blocks that entered the first stage, each
      once and in order, worked on by every stage in turn. In every ring the number of filled
      blocks is the number produced less the number consumed, and lies between 0 and the ring's
      size. */
  lemma BlocksArriveInOrder(c: Config, s: State, acts: seq<Action>)
    requires Init(c, s) && IsRun(c, s, acts)
    ensures var t := Final(c, s, acts);
      && (forall k: nat | k < |t.output| :: t.output[k] == Hist(c, |c.sizes| + 1, k))
      && (forall i: nat | i < |t.rings| ::
            && t.rings[i].consumed <= t.rings[i].produced
            && Sum(t.rings[i].sem) == t.rings[i].produced - t.rings[i].consumed <= c.sizes[i])
  {
    InitInv(c, s);
    hide Init, IsRun, Hist;
    RunKeepsInv(c, s, acts);
    var t := Final(c, s, acts);
    forall i: nat | i < |t.rings|
      ensures t.rings[i].consumed <= t.rings[i].produced
        && Sum(t.rings[i].sem) == t.rings[i].produced - t.rings[i].consumed <= c.sizes[i]
    {
      assert RingOk(c, i, t.rings[i], c.sizes[i]);
    }
  }

  /** With stages that pass blocks on unchanged, the output is a prefix of the input. */
  lemma UnchangedBlocksArrive(c: Config, s: State, acts: seq<Action>)
    requires Init(c, s) && IsRun(c, s, acts)
    requires forall i: nat, b: Block :: c.work(i, b) == b
    ensures forall k: nat | k < |Final(c, s, acts).output| :: Final(c, s, acts).output[k] == c.input(k)
  {
    BlocksArriveInOrder(c, s, acts);
    forall k: nat | k < |Final(c, s, acts).output|
      ensures Final(c, s, acts).output[k] == c.input(k)
    {
      HistUnchanged(c, |c.sizes| + 1, k);
    }
  }

  lemma {:induction false} HistUnchanged(c: Config, i: nat, k: nat)
    requires forall i: nat, b: Block :: c.work(i, b) == b
    ensures Hist(c, i, k) == c.input(k)
  {
    if i > 0 {
      HistUnchanged(c, i - 1, k);
    }
  }

  /** A block that is being written is free, and is never the block its reader holds. */
  lemma WriterAndReaderApart(c: Config, s: State, i: nat)
    requires Inv(c, s) && i < |s.rings| && HoldsOutput(s.stages[i].pc)
    ensures s.rings[i].sem[s.stages[i].ob] == 0
    ensures HoldsInput(s.stages[i + 1].pc) ==>
      s.rings[i].sem[s.stages[i + 1].ib] == 1 && s.stages[i + 1].ib != s.stages[i].ob
  {
    InvAt(c, s, i);
    InvAt(c, s, i + 1);
    SemTells(c, i, s.rings[i], c.sizes[i]);
    hide RingOk, Slot, Hist;
  }

  // ------------------------------------------------------------------ no deadlock

  /** Some stage can take a step of progress. */
  ghost predicate CanProgress(c: Config, s: State)
    requires Shape(c, s)
  {
    exists a: Action :: IsProgress(a) && Enabled(c, s, a)
  }

  ghost predicate SomeoneLeft(s: State) { exists i: nat :: i < |s.stages| && s.stages[i].left }

  /** Stage i is there and waits, and its wait would not succeed. */
  ghost predicate Stuck(c: Config, s: State, i: nat)
    requires Shape(c, s) && i < |s.stages|
  {
    !s.stages[i].left && forall k: Kind | k != TimeOut && k != Leave :: !Enabled(c, s, Action(i, k))
  }

  /** A stage stuck on a full ring has a successor that is not stuck on an empty one; put the
      other way round, with the ring behind it empty a stuck stage waits for input, and the ring
      in front of it is empty. */
  lemma StuckPropagates(c: Config, s: State, i: nat)
    requires Inv(c, s) && i < |s.stages| && Stuck(c, s, i)
    requires i < |s.rings| ==> s.rings[i].produced == s.rings[i].consumed
    ensures i > 0 && s.rings[i - 1].produced == s.rings[i - 1].consumed
  {
    InvAt(c, s, i);
    hide Inv, RingOk, Slot, Hist, TryOps;
    var pc := s.stages[i].pc;
    assert !Enabled(c, s, Action(i, Process)) && !Enabled(c, s, Action(i, Publish)) && !Enabled(c, s, Action(i, Release));
    assert pc == AwaitInput || pc == AwaitOutput;
    assert !Enabled(c, s, Action(i, GetOutput)) && !Enabled(c, s, Action(i, GetInput));
    if i < |s.rings| {
      SemTells(c, i, s.rings[i], c.sizes[i]);
      WaitsAreTests(s.rings[i].sem, s.stages[i].ob);
    }
    assert pc == AwaitInput;
    if i > 0 {
      SemTells(c, i - 1, s.rings[i - 1], c.sizes[i - 1]);
      WaitsAreTests(s.rings[i - 1].sem, s.stages[i].ib);
      RingBounds(c, i - 1, s.rings[i - 1], c.sizes[i - 1]);
    }
  }

  lemma RingBounds(c: Config, i: nat, r: Ring, n: nat)
    requires RingOk(c, i, r, n)
    ensures r.consumed <= r.produced <= r.consumed + n
  {
  }

  /** From stage i down to stage 0 not all can be stuck when the ring behind stage i is empty. */
  lemma {:induction false} SomeoneUnstuck(c: Config, s: State, i: nat)
    requires Inv(c, s) && i < |s.stages|
    requires i < |s.rings| ==> s.rings[i].produced == s.rings[i].consumed
    ensures exists j: nat :: j <= i && !Stuck(c, s, j)
    decreases i
  {
    if Stuck(c, s, i) {
      hide Inv, Stuck;
      StuckPropagates(c, s, i);
      SomeoneUnstuck(c, s, i - 1);
    }
  }

  /** In every reachable state, whatever the number of stages and the ring sizes, some stage
      can go on, unless a thread has left. */
  lemma NeverDeadlocked(c: Config, s: State, acts: seq<Action>)
    requires Init(c, s) && IsRun(c, s, acts)
    ensures CanProgress(c, Final(c, s, acts)) || SomeoneLeft(Final(c, s, acts))
  {
    InitInv(c, s);
    RunKeepsInv(c, s, acts);
    var t := Final(c, s, acts);
    hide Init, IsRun, Inv;
    SomeoneUnstuck(c, t, |t.rings|);
    var j: nat :| j <= |t.rings| && !Stuck(c, t, j);
    if !t.stages[j].left {
      var k: Kind :| k != TimeOut && k != Leave && Enabled(c, t, Action(j, k));
      assert IsProgress(Action(j, k));
    }
  }

  /** Without an interrupted wait no thread leaves, and some stage can always go on. */
  lemma NoDeadlockWithoutInterrupts(c: Config, s: State, acts: seq<Action>)
    requires Init(c, s) && IsRun(c, s, acts)
    requires forall k | 0 <= k < |acts| :: acts[k].kind != Leave
    ensures CanProgress(c, Final(c, s, acts))
  {
    NeverDeadlocked(c, s, acts);
    assert !SomeoneLeft(s);
    hide Init, Inv;
    NobodyLeaves(c, s, acts);
  }

  lemma {:induction false} NobodyLeaves(c: Config, s: State, acts: seq<Action>)
    requires Shape(c, s) && IsRun(c, s, acts) && !SomeoneLeft(s)
    requires forall k | 0 <= k < |acts| :: acts[k].kind != Leave
    ensures !SomeoneLeft(Final(c, s, acts))
    decreases |acts|
  {
    hide Enabled, Do;
    if acts != [] {
      StaysUnlessLeaving(c, s, acts[0]);
      NobodyLeaves(c, Do(c, s, acts[0]), acts[1..]);
    }
  }

  lemma StaysUnlessLeaving(c: Config, s: State, a: Action)
    requires Shape(c, s) && Enabled(c, s, a) && a.kind != Leave && !SomeoneLeft(s)
    ensures !SomeoneLeft(Do(c, s, a))
  {
    assert forall i: nat | i < |s.stages| :: !s.stages[i].left;
    hide TryOps, MarkFree, MarkFilled, InputBlock;
  }

  // ------------------------------------------------------------------ progress reaches the output

  function StepOf(pc: Pc): nat {
    match pc
    case AwaitInput => 0
    case AwaitOutput => 1
    case Ready => 2
    case Written => 3
    case Published => 4
    case Released => 4
  }

  /** Loops the stage has completed. */
  ghost function Loops(s: State, i: nat): nat
    requires i < |s.stages| == |s.rings| + 1
  {
    if MadeBy(s, i) < TakenBy(s, i) then MadeBy(s, i) else TakenBy(s, i)
  }

  /** Steps the stage has taken. */
  ghost function Effort(s: State, i: nat): nat
    requires i < |s.stages| == |s.rings| + 1
  {
    5 * Loops(s, i) + StepOf(s.stages[i].pc)
  }

  ghost function Total(s: State, m: nat): nat
    requires m <= |s.stages| == |s.rings| + 1
  {
    if m == 0 then 0 else Total(s, m - 1) + Effort(s, m - 1)
  }

  lemma {:induction false} TotalMoves(s: State, t: State, i: nat, d: nat, m: nat)
    requires m <= |s.stages| == |s.rings| + 1 == |t.stages| == |t.rings| + 1
    requires forall j: nat | j < |s.stages| && j != i :: Effort(t, j) == Effort(s, j)
    requires i < |s.stages| && Effort(t, i) == Effort(s, i) + d
    ensures Total(t, m) == Total(s, m) + if i < m then d else 0
  {
    hide Effort;
    if m > 0 {
      TotalMoves(s, t, i, d, m - 1);
    }
  }

  /** A step of stage i makes, and takes, this many blocks; other stages are as they were. */
  ghost predicate Moves(s: State, t: State, i: nat, made: nat, taken: nat)
    requires i < |s.stages| == |s.rings| + 1
  {
    && |t.stages| == |s.stages| && |t.rings| == |s.rings|
    && MadeBy(t, i) == MadeBy(s, i) + made && TakenBy(t, i) == TakenBy(s, i) + taken
    && forall j: nat | j < |s.stages| && j != i ::
         t.stages[j] == s.stages[j] && MadeBy(t, j) == MadeBy(s, j) && TakenBy(t, j) == TakenBy(s, j)
  }

  lemma PcMovesOnly(s: State, i: nat, pc: Pc)
    requires i < |s.stages| == |s.rings| + 1
    ensures Moves(s, WithPc(s, i, pc), i, 0, 0)
  {
  }

  /** Replacing a stage and a ring next to it makes and takes what the ring's counts say. */
  lemma WithMoves(s: State, i: nat, t: Stage, j: nat, r: Ring, made: nat, taken: nat)
    requires i < |s.stages| == |s.rings| + 1 && j < |s.rings| && (j == i || j + 1 == i)
    requires r.produced == s.rings[j].produced + (if j == i then made else 0)
    requires r.consumed == s.rings[j].consumed + (if j == i then 0 else taken)
    requires if j == i then taken == 0 else made == 0
    ensures Moves(s, With(s, i, t, j, r), i, made, taken) && With(s, i, t, j, r).stages[i] == t
  {
  }

  lemma AtEndMoves(s: State, i: nat, t: Stage, taken: nat, output: seq<Block>, made: nat, more: nat)
    requires i < |s.stages| == |s.rings| + 1
    requires taken == s.taken + more && (i == 0 || more == 0)
    requires |output| == |s.output| + made && (i == |s.rings| || made == 0)
    ensures Moves(s, AtEnd(s, i, t, taken, output), i, made, more) && AtEnd(s, i, t, taken, output).stages[i] == t
  {
  }

  lemma ProcessMoves(c: Config, s: State, i: nat)
    requires Shape(c, s) && i < |s.stages|
    ensures Moves(s, DoProcess(c, s, i), i, 0, 0) && DoProcess(c, s, i).stages[i].pc == Written
  {
    hide InputBlock, Moves, With, AtEnd;
    var t := s.stages[i];
    var block := c.work(i, InputBlock(c, s, i));
    if i == |s.rings| {
      AtEndMoves(s, i, t.(pc := Written, held := block), s.taken, s.output, 0, 0);
    } else {
      WithMoves(s, i, t.(pc := Written), i, s.rings[i].(data := s.rings[i].data[t.ob := block]), 0, 0);
    }
  }

  lemma PublishMoves(c: Config, s: State, i: nat)
    requires Shape(c, s) && i < |s.stages|
    ensures Moves(s, DoPublish(c, s, i), i, 1, 0)
    ensures DoPublish(c, s, i).stages[i].pc == if s.stages[i].pc == Released then AwaitInput else Published
  {
    hide MarkFilled, Moves, With, AtEnd;
    var t := s.stages[i];
    var pc := if t.pc == Released then AwaitInput else Published;
    if i == |s.rings| {
      AtEndMoves(s, i, t.(pc := pc), s.taken, s.output + [t.held], 1, 0);
    } else {
      var r := s.rings[i];
      WithMoves(s, i, t.(pc := pc, ob := (t.ob + 1) % c.sizes[i]), i,
                r.(sem := MarkFilled(r.sem, t.ob), produced := r.produced + 1), 1, 0);
    }
  }

  lemma ReleaseMoves(c: Config, s: State, i: nat)
    requires Shape(c, s) && i < |s.stages|
    ensures Moves(s, DoRelease(c, s, i), i, 0, 1)
    ensures DoRelease(c, s, i).stages[i].pc == if s.stages[i].pc == Published then AwaitInput else Released
  {
    hide MarkFree, Moves, With, AtEnd;
    var t := s.stages[i];
    var pc := if t.pc == Published then AwaitInput else Released;
    if i == 0 {
      AtEndMoves(s, 0, t.(pc := pc), s.taken + 1, s.output, 0, 1);
    } else {
      var r := s.rings[i - 1];
      WithMoves(s, i, t.(pc := pc, ib := (t.ib + 1) % c.sizes[i - 1]), i - 1,
                r.(sem := MarkFree(r.sem, t.ib), consumed := r.consumed + 1), 0, 1);
    }
  }

  lemma OthersIdle(s: State, t: State, i: nat, made: nat, taken: nat)
    requires i < |s.stages| == |s.rings| + 1 && Moves(s, t, i, made, taken)
    ensures forall j: nat | j < |s.stages| && j != i :: Effort(t, j) == Effort(s, j)
  {
    hide MadeBy, TakenBy;
  }

  /** A progress step is one step of its own stage and of no other. */
  lemma OneStep(c: Config, s: State, a: Action)
    requires Inv(c, s) && Enabled(c, s, a) && IsProgress(a)
    ensures var t := Do(c, s, a);
      && |t.stages| == |s.stages| && |t.rings| == |s.rings|
      && Effort(t, a.stage) == Effort(s, a.stage) + 1
      && forall j: nat | j < |s.stages| && j != a.stage :: Effort(t, j) == Effort(s, j)
  {
    var i := a.stage;
    InvAt(c, s, i);
    hide Inv, RingOk, IndicesOk, MoreInput, OutputRoom, OutputCell, TryOps, Moves;
    hide DoGetInput, DoGetOutput, DoProcess, DoPublish, DoRelease, MadeBy, TakenBy, Shape;
    match a.kind
    case GetInput =>
      InputWaitChangesNothing(c, s, i);
      PcMovesOnly(s, i, AwaitOutput);
      StepEffort(s, WithPc(s, i, AwaitOutput), i, 0, 0);
    case GetOutput =>
      OutputWaitChangesNothing(c, s, i);
      PcMovesOnly(s, i, Ready);
      StepEffort(s, WithPc(s, i, Ready), i, 0, 0);
    case Process =>
      ProcessMoves(c, s, i);
      StepEffort(s, DoProcess(c, s, i), i, 0, 0);
    case Publish =>
      PublishMoves(c, s, i);
      StepEffort(s, DoPublish(c, s, i), i, 1, 0);
    case Release =>
      ReleaseMoves(c, s, i);
      StepEffort(s, DoRelease(c, s, i), i, 0, 1);
  }

  ghost predicate PcSteps(from: Pc, to: Pc, made: nat, taken: nat) {
    || (made == 0 && taken == 0 && from == AwaitInput && to == AwaitOutput)
    || (made == 0 && taken == 0 && from == AwaitOutput && to == Ready)
    || (made == 0 && taken == 0 && from == Ready && to == Written)
    || (made == 1 && taken == 0 && from == Written && to == Published)
    || (made == 1 && taken == 0 && from == Released && to == AwaitInput)
    || (made == 0 && taken == 1 && from == Written && to == Released)
    || (made == 0 && taken == 1 && from == Published && to == AwaitInput)
  }

  /** The stage's blocks made and taken differ by the one it is half-way through. */
  ghost predicate Balanced(s: State, i: nat)
    requires i < |s.stages| == |s.rings| + 1
  {
    var pc := s.stages[i].pc;
    MadeBy(s, i) + (if pc == Released then 1 else 0) == TakenBy(s, i) + (if pc == Published then 1 else 0)
  }

  lemma StepEffort(s: State, t: State, i: nat, made: nat, taken: nat)
    requires i < |s.stages| == |s.rings| + 1 && Moves(s, t, i, made, taken)
    requires Balanced(s, i) && PcSteps(s.stages[i].pc, t.stages[i].pc, made, taken)
    ensures |t.stages| == |s.stages| && |t.rings| == |s.rings|
    ensures Effort(t, i) == Effort(s, i) + 1
    ensures forall j: nat | j < |s.stages| && j != i :: Effort(t, j) == Effort(s, j)
  {
    OthersIdle(s, t, i, made, taken);
    hide MadeBy, TakenBy;
  }

  lemma InitTotal(c: Config, s: State, m: nat)
    requires Init(c, s) && m <= |s.stages|
    ensures Total(s, m) == 0
  {
  }

  /** How many blocks can be under way behind stage i. */
  ghost function Slack(c: Config, i: nat): nat
    decreases |c.sizes| - i
  {
    if i >= |c.sizes| then 0 else c.sizes[i] + 1 + Slack(c, i + 1)
  }

  lemma {:induction false} LoopsBounded(c: Config, s: State, i: nat)
    requires Inv(c, s) && i < |s.stages|
    ensures Loops(s, i) <= |s.output| + Slack(c, i)
    decreases |s.stages| - i
  {
    InvAt(c, s, i);
    hide Inv, Slot, Hist;
    if i < |s.rings| {
      RingBounds(c, i, s.rings[i], c.sizes[i]);
      hide RingOk;
      LoopsBounded(c, s, i + 1);
      InvAt(c, s, i + 1);
    }
  }

  lemma {:induction false} SlackShrinks(c: Config, i: nat)
    ensures Slack(c, i) <= Slack(c, 0)
  {
    if i > 0 {
      SlackShrinks(c, i - 1);
    }
  }

  ghost function StepBound(c: Config, delivered: nat): nat { 5 * (delivered + Slack(c, 0)) + 4 }

  lemma {:induction false} TotalBounded(c: Config, s: State, m: nat)
    requires Inv(c, s) && m <= |s.stages|
    ensures Total(s, m) <= m * StepBound(c, |s.output|)
  {
    assert |s.stages| == |s.rings| + 1;
    hide Inv, StepBound;
    if m > 0 {
      var x := StepBound(c, |s.output|);
      TotalBounded(c, s, m - 1);
      LoopsBounded(c, s, m - 1);
      SlackShrinks(c, m - 1);
      assert Effort(s, m - 1) <= x by {
        EffortBounded(c, s, m - 1);
      }
      assert m * x == (m - 1) * x + x;
    }
  }

  lemma EffortBounded(c: Config, s: State, i: nat)
    requires i < |s.stages| == |s.rings| + 1
    requires Loops(s, i) <= |s.output| + Slack(c, i) && Slack(c, i) <= Slack(c, 0)
    ensures Effort(s, i) <= StepBound(c, |s.output|)
  {
    hide Loops, Slack;
  }

  function Progress(acts: seq<Action>): nat
    decreases |acts|
  {
    if acts == [] then 0 else (if IsProgress(acts[0]) then 1 else 0) + Progress(acts[1..])
  }

  lemma {:induction false} ProgressIsTotal(c: Config, s: State, acts: seq<Action>)
    requires Inv(c, s) && IsRun(c, s, acts)
    ensures var t := Final(c, s, acts); Total(t, |t.stages|) == Total(s, |s.stages|) + Progress(acts)
    decreases |acts|
  {
    hide RingOk, StageOk, Enabled, Do, Total, Effort;
    if acts != [] {
      var t := Do(c, s, acts[0]);
      StepKeepsInv(c, s, acts[0]);
      ProgressIsTotal(c, t, acts[1..]);
      TotalOfStep(c, s, acts[0]);
    }
  }

  lemma {:induction false} LeaveMoves(s: State, i: nat, m: nat)
    requires m <= |s.stages| == |s.rings| + 1 && i < |s.stages|
    ensures Total(DoLeave(s, i), m) == Total(s, m)
  {
    if m > 0 {
      LeaveMoves(s, i, m - 1);
    }
  }

  lemma TotalOfStep(c: Config, s: State, a: Action)
    requires Inv(c, s) && Enabled(c, s, a)
    ensures var t := Do(c, s, a);
      |t.stages| == |s.stages| && |t.rings| == |s.rings|
      && Total(t, |t.stages|) == Total(s, |s.stages|) + if IsProgress(a) then 1 else 0
  {
    assert a.kind == TimeOut ==> Do(c, s, a) == s;
    if a.kind == Leave {
      LeaveMoves(s, a.stage, |s.stages|);
    }
    if IsProgress(a) {
      OneStep(c, s, a);
      hide Do, Effort, Enabled, Inv;
      TotalMoves(s, Do(c, s, a), a.stage, 1, |s.stages|);
    }
  }

  /** Progress cannot go round inside the pipeline: a run with more progress steps than this
      bound has delivered more blocks. With NeverDeadlocked, a pipeline whose threads keep
      stepping delivers every block. */
  lemma ProgressDelivers(c: Config, s: State, acts: seq<Action>)
    requires Init(c, s) && IsRun(c, s, acts)
    ensures Progress(acts) <= (|c.sizes| + 1) * StepBound(c, |Final(c, s, acts).output|)
  {
    InitInv(c, s);
    InitTotal(c, s, |s.stages|);
    hide Init, IsRun;
    RunKeepsInv(c, s, acts);
    ProgressIsTotal(c, s, acts);
    var t := Final(c, s, acts);
    TotalBounded(c, t, |t.stages|);
  }
}
