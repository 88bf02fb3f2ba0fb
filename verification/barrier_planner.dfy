/**
 The GPU barrier shadow planner (bridge/godot_extension/src/GodotGpuBarrierShadowPlanner.h).

 The planner looks at operations one by one and reports a barrier when the next one conflicts
 with something recorded since the last barrier. It is proved safe (every conflict is
 separated) and thrifty (no safe placement of barriers uses fewer), at every moment of a
 submission and including the completion barrier at its end.
 */
module BarrierPlanner {

  datatype Op = Op(readIds: seq<int>, writeIds: seq<int>)

  datatype Step = Step(barrier: bool, raw: bool, waw: bool, war: bool)

  datatype Counters = Counters(barriers: nat, raw: nat, waw: nat, war: nat)

  // ---------------------------------------------------------------- one operation

  /** Resource id 0 is not a resource. */
  predicate Touches(resources: seq<int>, pending: set<int>) {
    exists r :: r in resources && r != 0 && r in pending
  }

  function Proper(resources: seq<int>): set<int> {
    set r | r in resources && r != 0
  }

  /** Resources read and written since the last barrier. */
  datatype Pending = Pending(readIds: set<int>, writeIds: set<int>) {
    function Check(op: Op): Step {
      var raw, waw, war := Touches(op.readIds, writeIds), Touches(op.writeIds, writeIds), Touches(op.writeIds, readIds);
      Step(raw || waw || war, raw, waw, war)
    }

    function Record(op: Op): Pending {
      if Check(op).barrier then Pending(Proper(op.readIds), Proper(op.writeIds))
      else Pending(readIds + Proper(op.readIds), writeIds + Proper(op.writeIds))
    }
  }

  const NOTHING := Pending({}, {})

  function Tally(c: Counters, s: Step): Counters {
    Counters(c.barriers + Bit(s.barrier), c.raw + Bit(s.raw), c.waw + Bit(s.waw), c.war + Bit(s.war))
  }

  function Bit(b: bool): nat { if b then 1 else 0 }

  class GodotGpuBarrierShadowPlanner {
    var pendingReads: set<int>
    var pendingWrites: set<int>
    var counters: Counters

    constructor ()
      ensures View() == NOTHING && counters == Counters(0, 0, 0, 0)
    {
      pendingReads, pendingWrites := {}, {};
      counters := Counters(0, 0, 0, 0);
    }

    function View(): Pending
      reads this
    {
      Pending(pendingReads, pendingWrites)
    }

    static method Intersects(resources: seq<int>, pending: set<int>) returns (found: bool)
      ensures found == Touches(resources, pending)
    {
      for i := 0 to |resources|
        invariant !Touches(resources[..i], pending)
      {
        if resources[i] != 0 && resources[i] in pending {
          return true;
        }
      }
      assert resources[..|resources|] == resources;
      found := false;
    }

    static method InsertValid(pending0: set<int>, resources: seq<int>) returns (pending: set<int>)
      ensures pending == pending0 + Proper(resources)
    {
      pending := pending0;
      for i := 0 to |resources|
        invariant pending == pending0 + Proper(resources[..i])
      {
        assert resources[..i + 1] == resources[..i] + [resources[i]];
        if resources[i] != 0 {
          pending := pending + {resources[i]};
        }
      }
      assert resources[..|resources|] == resources;
    }

    method Record(readIds: seq<int>, writeIds: seq<int>) returns (step: Step)
      modifies this
      ensures step == old(View()).Check(Op(readIds, writeIds))
      ensures View() == old(View()).Record(Op(readIds, writeIds))
      ensures counters == Tally(old(counters), step)
    {
      var raw := Intersects(readIds, pendingWrites);
      var waw := Intersects(writeIds, pendingWrites);
      var war := Intersects(writeIds, pendingReads);
      step := Step(raw || waw || war, raw, waw, war);
      if step.barrier {
        counters := Counters(counters.barriers + 1, counters.raw + Bit(raw), counters.waw + Bit(waw), counters.war + Bit(war));
        ClearPending();
      }
      pendingReads := InsertValid(pendingReads, readIds);
      pendingWrites := InsertValid(pendingWrites, writeIds);
    }

    /** Ends the submission: only writes need a completion barrier. */
    method Finish() returns (barrier: bool)
      modifies this
      ensures barrier == (old(pendingWrites) != {})
      ensures View() == NOTHING
      ensures counters == old(counters).(barriers := old(counters).barriers + Bit(barrier))
    {
      barrier := pendingWrites != {};
      if barrier {
        counters := counters.(barriers := counters.barriers + 1);
      }
      ClearPending();
    }

    method Reset()
      modifies this`pendingReads, this`pendingWrites
      ensures View() == NOTHING
    {
      ClearPending();
    }

    method ClearPending()
      modifies this`pendingReads, this`pendingWrites
      ensures View() == NOTHING
    {
      pendingReads, pendingWrites := {}, {};
    }
  }

  // ---------------------------------------------------------------- a submission

  /** What is pending after the first `n` operations of a submission. */
  function After(ops: seq<Op>, n: nat): Pending
    requires n <= |ops|
    decreases n
  {
    if n == 0 then NOTHING else After(ops, n - 1).Record(ops[n - 1])
  }

  /** Slot k < |ops| is right before operation k; slot |ops| is the completion. */
  predicate Barrier(ops: seq<Op>, k: nat)
    requires k <= |ops|
  {
    if k < |ops| then After(ops, k).Check(ops[k]).barrier else After(ops, k).writeIds != {}
  }

  /** The slots at which the planner reports a barrier. */
  function Planned(ops: seq<Op>): (placement: seq<bool>)
    ensures |placement| == |ops| + 1
  {
    seq(|ops| + 1, k requires 0 <= k < |ops| + 1 => Barrier(ops, k))
  }

  /** Read after write, write after write, write after read. */
  ghost predicate Conflict(a: Op, b: Op) {
    exists r :: r != 0 && ((r in a.writeIds && r in b.readIds) || (r in a.writeIds && r in b.writeIds) || (r in a.readIds && r in b.writeIds))
  }

  /** Operation i must be separated from slot j: from a conflicting operation or, if it writes, from completion. */
  ghost predicate Hazard(ops: seq<Op>, i: nat, j: nat)
    requires i < j <= |ops|
  {
    if j < |ops| then Conflict(ops[i], ops[j]) else exists r :: r != 0 && r in ops[i].writeIds
  }

  /** The placement separates all hazards that end in the first `n` slots. */
  ghost predicate Separates(placement: seq<bool>, ops: seq<Op>, n: nat)
    requires |placement| == |ops| + 1 && n <= |ops| + 1
  {
    forall i: nat, j: nat | i < j < n && Hazard(ops, i, j) :: exists k :: i < k <= j && placement[k]
  }

  function Count(placement: seq<bool>, n: nat): nat
    requires n <= |placement|
  {
    if n == 0 then 0 else Count(placement, n - 1) + Bit(placement[n - 1])
  }

  /** The slot of the last barrier before slot n, or 0. */
  function EpochStart(ops: seq<Op>, n: nat): (e: nat)
    requires n <= |ops|
    ensures e <= n && (n > 0 ==> e < n)
    ensures e > 0 ==> Barrier(ops, e)
    decreases n
  {
    if n == 0 then 0 else if Barrier(ops, n - 1) then n - 1 else EpochStart(ops, n - 1)
  }

  lemma {:induction false} PendingIsEpoch(ops: seq<Op>, n: nat, r: int)
    requires n <= |ops|
    ensures r in After(ops, n).readIds <==> r != 0 && exists i :: EpochStart(ops, n) <= i < n && r in ops[i].readIds
    ensures r in After(ops, n).writeIds <==> r != 0 && exists i :: EpochStart(ops, n) <= i < n && r in ops[i].writeIds
    decreases n
  {
    if n > 0 {
      PendingIsEpoch(ops, n - 1, r);
    }
  }

  /** A barrier is reported exactly where a hazard begins inside the current epoch. */
  lemma BarrierIffHazard(ops: seq<Op>, k: nat)
    requires k <= |ops|
    ensures Barrier(ops, k) <==> exists i: nat :: EpochStart(ops, k) <= i < k && Hazard(ops, i, k)
  {
    forall r ensures
      (r in After(ops, k).readIds <==> r != 0 && exists i :: EpochStart(ops, k) <= i < k && r in ops[i].readIds) &&
      (r in After(ops, k).writeIds <==> r != 0 && exists i :: EpochStart(ops, k) <= i < k && r in ops[i].writeIds)
    {
      PendingIsEpoch(ops, k, r);
    }
    hide After, EpochStart;
    var p, e := After(ops, k), EpochStart(ops, k);
    if Barrier(ops, k) {
      var r: int :| if k == |ops| then r in p.writeIds
                    else r != 0 && ((r in ops[k].readIds && r in p.writeIds) || (r in ops[k].writeIds && (r in p.writeIds || r in p.readIds)));
      if r in p.writeIds && (k == |ops| || r in ops[k].readIds || r in ops[k].writeIds) {
        var i: nat :| e <= i < k && r in ops[i].writeIds;
        assert Hazard(ops, i, k);
      } else {
        var i: nat :| e <= i < k && r in ops[i].readIds;
        assert Hazard(ops, i, k);
      }
    }
    if exists i: nat :: e <= i < k && Hazard(ops, i, k) {
      var i: nat :| e <= i < k && Hazard(ops, i, k);
      if k == |ops| {
        var r :| r != 0 && r in ops[i].writeIds;
        assert r in p.writeIds;
      } else {
        var r :| r != 0 && ((r in ops[i].writeIds && r in ops[k].readIds) || (r in ops[i].writeIds && r in ops[k].writeIds) || (r in ops[i].readIds && r in ops[k].writeIds));
        assert r in p.writeIds || r in p.readIds;
      }
    }
  }

  /** Safety: between any two conflicting operations the planner has reported a barrier. */
  lemma PlannedSeparates(ops: seq<Op>)
    ensures Separates(Planned(ops), ops, |ops| + 1)
  {
    forall i: nat, j: nat | i < j < |ops| + 1 && Hazard(ops, i, j) ensures exists k :: i < k <= j && Planned(ops)[k] {
      var e := EpochStart(ops, j);
      BarrierIffHazard(ops, j);
      if e <= i {
        assert Planned(ops)[j];
      } else {
        assert Planned(ops)[e];
      }
    }
  }

  lemma {:induction false} CountGrows(placement: seq<bool>, m: nat, n: nat)
    requires m <= n <= |placement|
    ensures Count(placement, m) <= Count(placement, n)
    ensures (exists k :: m <= k < n && placement[k]) ==> Count(placement, m) < Count(placement, n)
    decreases n
  {
    if m < n {
      CountGrows(placement, m, n - 1);
    }
  }

  /** No barrier is reported inside an epoch. */
  lemma {:induction false} EpochIsQuiet(ops: seq<Op>, n: nat)
    requires 0 < n <= |ops|
    ensures Count(Planned(ops), n) == Count(Planned(ops), EpochStart(ops, n) + 1)
    decreases n
  {
    if !Barrier(ops, n - 1) && n > 1 {
      EpochIsQuiet(ops, n - 1);
    }
  }

  lemma PlannedAt(ops: seq<Op>, k: nat)
    requires k <= |ops|
    ensures Planned(ops)[k] == Barrier(ops, k)
    ensures Count(Planned(ops), k + 1) == Count(Planned(ops), k) + Bit(Barrier(ops, k))
  {
  }

  lemma SeparatesLess(placement: seq<bool>, ops: seq<Op>, n: nat)
    requires |placement| == |ops| + 1 && n <= |ops| + 1 && Separates(placement, ops, n)
    ensures forall m: nat | m <= n :: Separates(placement, ops, m)
  {
    hide Hazard;
  }

  lemma Separator(placement: seq<bool>, ops: seq<Op>, n: nat, i: nat, j: nat) returns (k: nat)
    requires |placement| == |ops| + 1 && n <= |ops| + 1 && Separates(placement, ops, n)
    requires i < j < n && Hazard(ops, i, j)
    ensures i < k <= j && placement[k]
  {
    hide Hazard;
    k :| i < k <= j && placement[k];
  }

  /** Thrift: up to any slot, a placement that separates the hazards has as many barriers at least. */
  lemma {:induction false} PlannedIsMinimal(ops: seq<Op>, placement: seq<bool>, n: nat)
    requires |placement| == |ops| + 1 && n <= |ops| + 1
    requires Separates(placement, ops, n)
    ensures Count(Planned(ops), n) <= Count(placement, n)
    decreases n
  {
    hide Separates, Hazard, Planned;
    if n > 0 {
      var last := n - 1;
      BarrierIffHazard(ops, last);
      PlannedAt(ops, last);
      SeparatesLess(placement, ops, n);
      if !Barrier(ops, last) {
        PlannedIsMinimal(ops, placement, last);
      } else {
        var e := EpochStart(ops, last);
        PlannedIsMinimal(ops, placement, e + 1);
        EpochIsQuiet(ops, last);
        var i: nat :| e <= i < last && Hazard(ops, i, last);
        var k := Separator(placement, ops, n, i, last);
        CountGrows(placement, e + 1, n);
      }
    }
  }

  // ---------------------------------------------------------------- the counters

  /** The counters after the first `n` operations of a submission. */
  function Counted(ops: seq<Op>, n: nat, start: Counters): Counters
    requires n <= |ops|
    decreases n
  {
    if n == 0 then start else Tally(Counted(ops, n - 1, start), After(ops, n - 1).Check(ops[n - 1]))
  }

  lemma {:induction false} BarriersAreCounted(ops: seq<Op>, n: nat, start: Counters)
    requires n <= |ops|
    ensures Counted(ops, n, start).barriers == start.barriers + Count(Planned(ops), n)
    decreases n
  {
    if n > 0 {
      BarriersAreCounted(ops, n - 1, start);
    }
  }

  // ---------------------------------------------------------------- the three kinds of hazard

  datatype Kind = ReadAfterWrite | WriteAfterWrite | WriteAfterRead

  function FlagOf(s: Step, kind: Kind): bool {
    match kind
    case ReadAfterWrite => s.raw
    case WriteAfterWrite => s.waw
    case WriteAfterRead => s.war
  }

  function CounterOf(c: Counters, kind: Kind): nat {
    match kind
    case ReadAfterWrite => c.raw
    case WriteAfterWrite => c.waw
    case WriteAfterRead => c.war
  }

  /** The resources an operation uses as the earlier, or as the later partner of a hazard. */
  function Earlier(kind: Kind, op: Op): seq<int> { if kind == WriteAfterRead then op.readIds else op.writeIds }

  function Later(kind: Kind, op: Op): seq<int> { if kind == ReadAfterWrite then op.readIds else op.writeIds }

  /** A resource the earlier operation used the one way and the later one uses the other way. */
  ghost predicate ConflictOf(kind: Kind, a: Op, b: Op) {
    exists r :: r != 0 && r in Earlier(kind, a) && r in Later(kind, b)
  }

  function Reported(ops: seq<Op>, k: nat): Step
    requires k < |ops|
  {
    After(ops, k).Check(ops[k])
  }

  /** An operation of the current epoch uses the resource. */
  ghost predicate Recent(ops: seq<Op>, k: nat, kind: Kind, r: int)
    requires k <= |ops|
  {
    exists i: nat :: EpochStart(ops, k) <= i < k && r in Earlier(kind, ops[i])
  }

  function PendingOf(p: Pending, kind: Kind): set<int> { if kind == WriteAfterRead then p.readIds else p.writeIds }

  lemma FlagIsTouch(p: Pending, b: Op, kind: Kind)
    ensures FlagOf(p.Check(b), kind) <==> Touches(Later(kind, b), PendingOf(p, kind))
  {
  }

  lemma RecentIsPending(ops: seq<Op>, k: nat, kind: Kind, r: int)
    requires k <= |ops|
    ensures r in PendingOf(After(ops, k), kind) <==> r != 0 && Recent(ops, k, kind, r)
  {
    hide After, EpochStart;
    PendingIsEpoch(ops, k, r);
    if Recent(ops, k, kind, r) {
      var i: nat :| EpochStart(ops, k) <= i < k && r in Earlier(kind, ops[i]);
      assert r in (if kind == WriteAfterRead then ops[i].readIds else ops[i].writeIds);
    }
    if r in PendingOf(After(ops, k), kind) {
      var i: int :| EpochStart(ops, k) <= i < k && r in (if kind == WriteAfterRead then ops[i].readIds else ops[i].writeIds);
      assert r in Earlier(kind, ops[i]);
    }
  }

  /** Each flag of a step is raised exactly if a hazard of its own kind begins in the current epoch. */
  lemma FlagIffConflict(ops: seq<Op>, k: nat, kind: Kind)
    requires k < |ops|
    ensures FlagOf(Reported(ops, k), kind) <==> exists i: nat :: EpochStart(ops, k) <= i < k && ConflictOf(kind, ops[i], ops[k])
  {
    hide After, EpochStart, FlagOf, PendingOf, Pending.Check, Earlier, Later;
    var p, b := After(ops, k), ops[k];
    FlagIsTouch(p, b, kind);
    if Touches(Later(kind, b), PendingOf(p, kind)) {
      var r :| r in Later(kind, b) && r != 0 && r in PendingOf(p, kind);
      RecentIsPending(ops, k, kind, r);
      var i: nat :| EpochStart(ops, k) <= i < k && r in Earlier(kind, ops[i]);
      assert ConflictOf(kind, ops[i], b);
    }
    if exists i: nat :: EpochStart(ops, k) <= i < k && ConflictOf(kind, ops[i], b) {
      var i: nat :| EpochStart(ops, k) <= i < k && ConflictOf(kind, ops[i], b);
      var r :| r != 0 && r in Earlier(kind, ops[i]) && r in Later(kind, b);
      RecentIsPending(ops, k, kind, r);
    }
  }

  /** The steps of a submission that raise a flag. */
  function Raised(ops: seq<Op>, kind: Kind): (steps: seq<bool>)
    ensures |steps| == |ops|
  {
    seq(|ops|, k requires 0 <= k < |ops| => FlagOf(Reported(ops, k), kind))
  }

  /** Each counter counts the steps that raise its flag. */
  lemma {:induction false} FlagsAreCounted(ops: seq<Op>, n: nat, start: Counters, kind: Kind)
    requires n <= |ops|
    ensures CounterOf(Counted(ops, n, start), kind) == CounterOf(start, kind) + Count(Raised(ops, kind), n)
    decreases n
  {
    hide After, Pending.Check;
    if n > 0 {
      FlagsAreCounted(ops, n - 1, start, kind);
    }
  }

  lemma SubmissionStarts(ops: seq<Op>, start: Counters)
    ensures After(ops, 0) == NOTHING && Planned(ops)[..0] == [] && Counted(ops, 0, start) == start
  {
  }

  lemma SubmissionStep(ops: seq<Op>, k: nat, start: Counters)
    requires k < |ops|
    ensures After(ops, k + 1) == After(ops, k).Record(ops[k])
    ensures Planned(ops)[..k + 1] == Planned(ops)[..k] + [After(ops, k).Check(ops[k]).barrier]
    ensures Counted(ops, k + 1, start) == Tally(Counted(ops, k, start), After(ops, k).Check(ops[k]))
  {
    PlannedAt(ops, k);
  }

  lemma SubmissionEnds(ops: seq<Op>)
    ensures Planned(ops) == Planned(ops)[..|ops|] + [After(ops, |ops|).writeIds != {}]
    ensures Count(Planned(ops), |ops| + 1) == Count(Planned(ops), |ops|) + Bit(After(ops, |ops|).writeIds != {})
  {
    hide Planned, After, Count;
    PlannedAt(ops, |ops|);
  }

  /** A whole submission through the object: its counter grows by the minimum that is safe. */
  method Submit(planner: GodotGpuBarrierShadowPlanner, ops: seq<Op>) returns (placement: seq<bool>)
    requires planner.View() == NOTHING
    modifies planner
    ensures planner.View() == NOTHING
    ensures placement == Planned(ops)
    ensures planner.counters.barriers == old(planner.counters).barriers + Count(placement, |ops| + 1)
    ensures forall kind :: CounterOf(planner.counters, kind)
                        == CounterOf(old(planner.counters), kind) + Count(Raised(ops, kind), |ops|)
  {
    hide Planned, After, Counted, Count, Raised, Pending.Check, Pending.Record;
    placement := [];
    SubmissionStarts(ops, planner.counters);
    for k := 0 to |ops|
      invariant planner.View() == After(ops, k)
      invariant placement == Planned(ops)[..k]
      invariant planner.counters == Counted(ops, k, old(planner.counters))
    {
      SubmissionStep(ops, k, old(planner.counters));
      var step := planner.Record(ops[k].readIds, ops[k].writeIds);
      assert Op(ops[k].readIds, ops[k].writeIds) == ops[k];
      placement := placement + [step.barrier];
    }
    BarriersAreCounted(ops, |ops|, old(planner.counters));
    forall kind ensures CounterOf(planner.counters, kind) == CounterOf(old(planner.counters), kind) + Count(Raised(ops, kind), |ops|) {
      FlagsAreCounted(ops, |ops|, old(planner.counters), kind);
    }
    SubmissionEnds(ops);
    var completion := planner.Finish();
    placement := placement + [completion];
  }
}
