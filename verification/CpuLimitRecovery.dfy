/** Release and start-up recovery of CPU leases, run without faults, and one run that shows why
  * the reconcile write needs a unit that is not replaced. */
module CpuLimitRecovery {
  import opened Wrappers
  import opened CpuLimit
  import opened CpuLimitSafety

  // ---------------------------------------------------------------- what release means

  ghost predicate StillOwned(boot: nat, c: Cell) {
    && c.record.Some? && c.record.value.bootId == boot
    && c.live.Unit? && c.live.loaded && c.live.invocation == c.record.value.invocation
  }

  /** Same boot, but the manager cannot name the unit's incarnation: the obligation is kept. */
  ghost predicate Unverifiable(boot: nat, c: Cell) {
    && c.record.Some? && c.record.value.bootId == boot
    && c.live.Unit? && (!c.live.loaded || c.live.invocation == 0 || c.record.value.invocation == 0)
  }

  /** What one release call for `generation` may act on: a free lock and that very lease. */
  ghost predicate Addressed(c: Cell, generation: nat) {
    c.actor.Idle? && c.record.Some? && c.record.value.generation == generation
  }

  ghost predicate StillThrottled(boot: nat, c: Cell) {
    StillOwned(boot, c) && c.live.quota == c.record.value.applied
  }

  /** `after` is `before` with its lease undone: the saved quota is back exactly on a still-owned unit
      still at the applied quota, every other quota is untouched, and the record and timer are gone. */
  ghost predicate Undone(boot: nat, before: Cell, after: Cell) {
    && before.record.Some?
    && after.record.None?
    && after.timers == before.timers - {before.record.value.generation}
    && after.live == (if StillThrottled(boot, before) then before.live.(quota := before.record.value.original)
                      else before.live)
  }

  /** One complete, fault-free pass of `release_with`; an obsolete generation changes nothing. */
  function Released(boot: nat, c: Cell, generation: nat): (after: Cell)
    ensures after.actor == c.actor && after.preCap == c.preCap
    ensures Addressed(c, generation) && !Unverifiable(boot, c) ==> Undone(boot, c, after)
    ensures !Addressed(c, generation) || Unverifiable(boot, c) ==> after == c
  {
    if !c.actor.Idle? || c.record.None? || c.record.value.generation != generation then c
    else
      var lease := c.record.value;
      match Ownership(boot, c.live, lease)
      case Err(_) => c
      case Ok(owned) =>
        var restored :=
          if owned && c.live.Unit? && c.live.quota == lease.applied
          then WriteQuota(boot, c, Restore, lease, lease.original) else c;
        restored.(record := None, timers := c.timers - {lease.generation}, stops := c.stops + [(lease.generation, None)])
  }

  /** A sequence of actions of one unit. */
  function Steps(boot: nat, c: Cell, actions: seq<Action>): Option<Cell>
    decreases |actions|
  {
    if actions == [] then Some(c)
    else
      match Step(boot, c, actions[0])
      case None => None
      case Some(next) => Steps(boot, next, actions[1..])
  }

  function OnOneUnit(unit: string, actions: seq<Action>): seq<WorldAction> {
    seq(|actions|, i requires 0 <= i < |actions| => OnUnit(unit, actions[i]))
  }

  lemma {:induction false} StepsAreARun(w: World, unit: string, actions: seq<Action>)
    requires unit in w.cells && Steps(w.boot, w.cells[unit], actions).Some?
    ensures Run(w, OnOneUnit(unit, actions))
         == Some(w.(cells := w.cells[unit := Steps(w.boot, w.cells[unit], actions).value]))
    decreases |actions|
  {
    if actions == [] {
      assert w.cells[unit := w.cells[unit]] == w.cells;
    } else {
      var next := Step(w.boot, w.cells[unit], actions[0]).value;
      var w1 := w.(cells := w.cells[unit := next]);
      StepsAreARun(w1, unit, actions[1..]);
      assert OnOneUnit(unit, actions)[1..] == OnOneUnit(unit, actions[1..]);
      var last := Steps(w.boot, next, actions[1..]).value;
      assert w1.cells[unit := last] == w.cells[unit := last];
    }
  }

  lemma StepsOne(boot: nat, c: Cell, a: Action, next: Cell, rest: seq<Action>)
    requires Step(boot, c, a) == Some(next)
    ensures Steps(boot, c, [a] + rest) == Steps(boot, next, rest)
  {
    assert ([a] + rest)[1..] == rest;
  }

  lemma FinishReleaseSteps(boot: nat, c: Cell, lease: Lease)
    requires c.actor == ReleaseRemoving(lease)
    ensures Steps(boot, c, [RemoveRecord] + ([StopTimer] + []))
         == Some(c.(record := None, timers := c.timers - {lease.generation}, actor := Idle,
                    stops := c.stops + [(lease.generation, None)]))
  {
    var gone := c.(record := None, actor := ReleaseStopping(lease));
    StepsOne(boot, c, RemoveRecord, gone, [StopTimer] + []);
    StepsOne(boot, gone, StopTimer, ReleaseStep(boot, gone, StopTimer).value, []);
  }

  /** A fault-free release is a run of the protocol, so the protocol's safety covers it. */
  lemma ReleasedIsARun(boot: nat, c: Cell, generation: nat) returns (actions: seq<Action>)
    ensures Steps(boot, c, actions) == Some(Released(boot, c, generation))
  {
    if Addressed(c, generation) && Ownership(boot, c.live, c.record.value).Ok? {
      var lease := c.record.value;
      var r2 := [RemoveRecord] + ([StopTimer] + []);
      var r1 := [DecideRelease(Done)] + r2;
      actions := [BeginRelease(generation)] + r1;
      var c1 := c.(actor := ReleaseDeciding(lease));
      var c2 := ReleaseStep(boot, c1, DecideRelease(Done)).value;
      StepsOne(boot, c, BeginRelease(generation), c1, r1);
      StepsOne(boot, c1, DecideRelease(Done), c2, r2);
      FinishReleaseSteps(boot, c2, lease);
    } else {
      actions := [];
    }
  }

  // ---------------------------------------------------------------- the recovery pass

  function RecoveredCell(boot: nat, c: Cell): Cell {
    if c.record.None? then c else Released(boot, c, c.record.value.generation)
  }

  ghost predicate Recovered(boot: nat, before: map<string, Cell>, after: map<string, Cell>) {
    after.Keys == before.Keys && forall u :: u in before ==> after[u] == RecoveredCell(boot, before[u])
  }

  /** The state root and the manager, as one recovering process sees them. */
  class LeaseGuard {
    const boot: nat
    var cells: map<string, Cell>

    constructor (boot: nat, cells: map<string, Cell>)
      ensures this.boot == boot && this.cells == cells
    {
      this.boot, this.cells := boot, cells;
    }

    method ReleaseWith(unit: string, generation: nat) returns (r: Result<(), LeaseError>)
      requires unit in cells
      modifies this
      ensures cells == old(cells)[unit := Released(boot, old(cells)[unit], generation)]
      ensures r == Err(LeaseBusy) <==> !old(cells)[unit].actor.Idle?
      ensures r == Err(OwnershipUnavailable) <==> Addressed(old(cells)[unit], generation) && Unverifiable(boot, old(cells)[unit])
    {
      var c := cells[unit];
      if !c.actor.Idle? { return Err(LeaseBusy); }
      if c.record.None? { return Ok(()); }
      var lease := c.record.value;
      if lease.generation != generation { return Ok(()); }
      var ownership := Ownership(boot, c.live, lease);
      match ownership
      case Err(e) => return Err(e);
      case Ok(owned) =>
        if owned && c.live.Unit? {
          if c.live.quota == lease.applied {
            cells := cells[unit := WriteQuota(boot, c, Restore, lease, lease.original)];
          }
        }
        cells := cells[unit := cells[unit].(record := None)];
        cells := cells[unit := cells[unit].(timers := cells[unit].timers - {generation},
                                            stops := cells[unit].stops + [(generation, cells[unit].record)])];
        return Ok(());
    }

    /** `recover_with`: one release per record, in directory order, which is any order. */
    method RecoverWith()
      modifies this
      ensures Recovered(boot, old(cells), cells)
    {
      var todo := cells.Keys;
      while todo != {}
        invariant todo <= cells.Keys == old(cells).Keys
        invariant forall u :: u in cells && u in todo ==> cells[u] == old(cells)[u]
        invariant forall u :: u in cells && u !in todo ==> cells[u] == RecoveredCell(boot, old(cells)[u])
        decreases |todo|
      {
        var unit :| unit in todo;
        todo := todo - {unit};
        if cells[unit].record.Some? {
          var r := ReleaseWith(unit, cells[unit].record.value.generation);
        }
      }
    }
  }

  // ---------------------------------------------------------------- recovery theorems

  /** Every lock holder and capper is dead; disk, manager and timers stay as they were. */
  function Crashed(w: World): World {
    w.(cells := map u | u in w.cells :: w.cells[u].(actor := Idle, preCap := NoCap))
  }

  lemma CrashKeepsInv(w: World)
    requires WorldInv(w)
    ensures WorldInv(Crashed(w))
  {
    forall u | u in w.cells ensures CellInv(w.boot, Crashed(w).cells[u]) {
      EnvKeepsCore(w.boot, w.cells[u], Abort);
      EnvKeepsCore(w.boot, EnvStep(w.cells[u], Abort).value, AbortPreCap);
    }
  }

  lemma RecoveredCellUndoes(boot: nat, c: Cell)
    requires CellInv(boot, c) && c.actor.Idle?
    ensures var after := RecoveredCell(boot, c);
            && (after.throttledFrom.Some? ==> Unverifiable(boot, c))
            && (after.record.Some? <==> Unverifiable(boot, c))
            && (c.record.Some? && !Unverifiable(boot, c) ==> Undone(boot, c, after))
            && (c.record.None? || Unverifiable(boot, c) ==> after == c)
  {
    if c.throttledFrom.Some? && !Unverifiable(boot, c) { assert StillThrottled(boot, c); }
  }

  /** From any reachable state, crash included, one pass undoes every lease the manager can vouch for,
      leaves no other guard throttle in force anywhere, and touches no other quota. */
  lemma RecoveryUndoesEveryLease(w0: World, run: seq<WorldAction>, after: map<string, Cell>, unit: string)
    requires Initial(w0) && Run(w0, run).Some?
    requires var w := Run(w0, run).value;
             unit in w.cells && Recovered(w.boot, Crashed(w).cells, after)
    ensures var w := Run(w0, run).value;
            var before := Crashed(w).cells[unit];
            && (after[unit].throttledFrom.Some? ==> Unverifiable(w.boot, before))
            && (after[unit].record.Some? <==> Unverifiable(w.boot, before))
            && (before.record.Some? && !Unverifiable(w.boot, before) ==> Undone(w.boot, before, after[unit]))
            && (before.record.None? || Unverifiable(w.boot, before) ==> after[unit] == before)
  {
    RunKeepsInv(w0, run);
    CrashKeepsInv(Run(w0, run).value);
    RecoveredCellUndoes(Run(w0, run).value.boot, Crashed(Run(w0, run).value).cells[unit]);
  }

  /** A second pass changes nothing. */
  lemma RecoveryIsIdempotent(boot: nat, before: map<string, Cell>, once: map<string, Cell>, twice: map<string, Cell>)
    requires Recovered(boot, before, once) && Recovered(boot, once, twice)
    ensures twice == once
  {
    forall u | u in once ensures twice[u] == once[u] {
      assert once[u] == RecoveredCell(boot, before[u]);
      assert twice[u] == RecoveredCell(boot, once[u]);
    }
  }

  // ---------------------------------------------------------------- cap, then release

  /** A unit without a record that a capper may throttle to `percent`. */
  ghost predicate Cappable(c: Cell, percent: nat) {
    && c.actor.Idle? && c.preCap.NoCap? && c.record.None?
    && c.live.Unit? && c.live.loaded && c.live.active && c.live.invocation != 0
    && 1 <= percent <= 100 && c.live.quota > percent * 10_000
  }

  /** The cell after an undisturbed cap under the lease it stores. */
  function Capped(boot: nat, c: Cell, lease: Lease): Cell
    requires c.live.Unit?
  {
    var armed := lease.(armed := true);
    WriteQuota(boot, c.(record := Some(armed), timers := c.timers + {lease.generation}, seen := c.seen + {lease.generation}),
               Apply, armed, armed.applied).(record := Some(armed.(appliedVerified := true)))
  }

  /** The lease an undisturbed cap builds at the time `built`. */
  function LeaseFor(boot: nat, c: Cell, percent: nat, seconds: nat, nanos: nat, built: nat): Lease
    requires Cappable(c, percent)
  {
    Lease(c.live.invocation, c.live.quota, percent * 10_000, nanos, boot, false, false, built + seconds)
  }

  lemma IntentSteps(boot: nat, c: Cell, percent: nat, seconds: nat, nanos: nat, built: nat, lease: Lease, rest: seq<Action>)
    returns (actions: seq<Action>)
    requires Cappable(c, percent) && lease == LeaseFor(boot, c, percent, seconds, nanos, built)
    ensures Steps(boot, c, actions) == Steps(boot, c.(record := Some(lease), actor := CapArming(lease)), rest)
    ensures actions == [ReadInvocation(percent, seconds), ReadActiveState, LockForCap, BuildLease(nanos, built), SaveIntent(Done)]
                       + rest
  {
    var c1 := c.(preCap := SeenInvocation(c.live.invocation, percent, seconds));
    var c2 := c.(preCap := SeenActive(c.live.invocation, percent, seconds));
    var c3 := c.(actor := CapReading(c.live.invocation, percent, seconds));
    var c4 := c.(actor := CapSaving(lease));
    var r4 := [SaveIntent(Done)] + rest;
    var r3 := [BuildLease(nanos, built)] + r4;
    var r2 := [LockForCap] + r3;
    var r1 := [ReadActiveState] + r2;
    actions := [ReadInvocation(percent, seconds)] + r1;
    StepsOne(boot, c4, SaveIntent(Done), c.(record := Some(lease), actor := CapArming(lease)), rest);
    StepsOne(boot, c3, BuildLease(nanos, built), c4, r4);
    StepsOne(boot, c2, LockForCap, c3, r3);
    StepsOne(boot, c1, ReadActiveState, c2, r2);
    StepsOne(boot, c, ReadInvocation(percent, seconds), c1, r1);
  }

  /** The record saved, the timer armed and seen, and the record marked. */
  function Armed(c: Cell, lease: Lease): Cell {
    var armed := lease.(armed := true);
    c.(record := Some(armed), timers := c.timers + {lease.generation}, seen := c.seen + {lease.generation},
       actor := CapValidating(armed))
  }

  lemma ArmSteps(boot: nat, c: Cell, lease: Lease, rest: seq<Action>) returns (actions: seq<Action>)
    requires !lease.armed
    ensures Steps(boot, c.(record := Some(lease), actor := CapArming(lease)), actions) == Steps(boot, Armed(c, lease), rest)
    ensures actions == [ArmTimer(Done), CheckTimer, MarkArmed(Done)] + rest
  {
    var armed := lease.(armed := true);
    var d0 := c.(record := Some(lease), actor := CapArming(lease));
    var d1 := d0.(timers := c.timers + {lease.generation}, actor := CapCheckingTimer(lease));
    var d2 := d1.(seen := c.seen + {lease.generation}, actor := CapMarking(armed));
    var r2 := [MarkArmed(Done)] + rest;
    var r1 := [CheckTimer] + r2;
    actions := [ArmTimer(Done)] + r1;
    StepsOne(boot, d2, MarkArmed(Done), Armed(c, lease), rest);
    StepsOne(boot, d1, CheckTimer, d2, r2);
    StepsOne(boot, d0, ArmTimer(Done), d1, r1);
  }

  lemma ApplySteps(boot: nat, c: Cell, lease: Lease, written: nat) returns (actions: seq<Action>)
    requires c.actor.Idle? && c.live.Unit? && lease.invocation == c.live.invocation && lease.original == c.live.quota
    requires !lease.armed && written < lease.expiresAt
    ensures Steps(boot, Armed(c, lease), actions) == Some(Capped(boot, c, lease))
    ensures actions == [Validate(true), ApplyQuota(written, Done), MarkVerified(Done)]
  {
    var armed := lease.(armed := true);
    var d3 := Armed(c, lease);
    var d4 := d3.(actor := CapApplying(armed));
    var d5 := WriteQuota(boot, d4, Apply, armed, armed.applied).(actor := CapVerifying(armed));
    var r5 := [MarkVerified(Done)] + [];
    var r4 := [ApplyQuota(written, Done)] + r5;
    actions := [Validate(true)] + r4;
    StepsOne(boot, d5, MarkVerified(Done), Capped(boot, c, lease), []);
    StepsOne(boot, d4, ApplyQuota(written, Done), d5, r5);
    StepsOne(boot, d3, Validate(true), d4, r4);
  }

  /** What an undisturbed, fault-free cap does, with the clock at `built` when the lease is built and at `written`
      when the quota is written. */
  function CapActions(percent: nat, seconds: nat, nanos: nat, built: nat): seq<Action> {
    [ReadInvocation(percent, seconds), ReadActiveState, LockForCap, BuildLease(nanos, built), SaveIntent(Done)]
    + [ArmTimer(Done), CheckTimer, MarkArmed(Done)]
  }

  lemma CapArms(boot: nat, c: Cell, percent: nat, seconds: nat, nanos: nat, built: nat, rest: seq<Action>)
    requires Cappable(c, percent)
    ensures Steps(boot, c, CapActions(percent, seconds, nanos, built) + rest)
         == Steps(boot, Armed(c, LeaseFor(boot, c, percent, seconds, nanos, built)), rest)
  {
    var lease := LeaseFor(boot, c, percent, seconds, nanos, built);
    var arming := ArmSteps(boot, c, lease, rest);
    var actions := IntentSteps(boot, c, percent, seconds, nanos, built, lease, arming);
    assert actions == CapActions(percent, seconds, nanos, built) + rest;
  }

  /** An undisturbed cap that writes before its lease expires throttles to `percent` of one CPU; releasing it then
      gives the unit back exactly as it was, with no record and no timer of that generation left. */
  lemma CapThenReleaseRestoresTheUnit(boot: nat, c: Cell, percent: nat, seconds: nat, nanos: nat, built: nat, written: nat)
    returns (actions: seq<Action>, capped: Cell)
    requires Cappable(c, percent) && written < built + seconds
    ensures actions == CapActions(percent, seconds, nanos, built) + [Validate(true), ApplyQuota(written, Done), MarkVerified(Done)]
    ensures Steps(boot, c, actions) == Some(capped)
    ensures capped.live == c.live.(quota := percent * 10_000) && capped.throttledFrom == Some(c.live.quota)
    ensures capped.record.Some? && capped.record.value.generation == nanos && capped.record.value.appliedVerified
    ensures capped.record.value.bootId == boot && capped.record.value.armed && nanos in capped.timers
    ensures capped.record.value.expiresAt == built + seconds
    ensures var after := Released(boot, capped, nanos);
            after.live == c.live && after.record.None? && after.throttledFrom.None? && after.timers == c.timers - {nanos}
  {
    var lease := LeaseFor(boot, c, percent, seconds, nanos, built);
    capped := Capped(boot, c, lease);
    var rest := ApplySteps(boot, c, lease, written);
    CapArms(boot, c, percent, seconds, nanos, built, rest);
    actions := CapActions(percent, seconds, nanos, built) + rest;
    assert StillThrottled(boot, capped);
  }

  /** A cap that comes to write when its lease has expired writes nothing, and leaves its armed record behind. */
  lemma LateCapWritesNothing(boot: nat, c: Cell, percent: nat, seconds: nat, nanos: nat, built: nat, written: nat)
    returns (actions: seq<Action>, after: Cell)
    requires Cappable(c, percent) && written >= built + seconds
    ensures actions == CapActions(percent, seconds, nanos, built) + [Validate(true), ApplyQuota(written, Done)]
    ensures Steps(boot, c, actions) == Some(after)
    ensures after.live == c.live && after.writes == c.writes && after.throttledFrom == c.throttledFrom && after.actor.Idle?
    ensures after.record.Some? && after.record.value.armed && !after.record.value.appliedVerified
  {
    var armed := Armed(c, LeaseFor(boot, c, percent, seconds, nanos, built));
    after := armed.(actor := Idle);
    var d := armed.(actor := CapApplying(armed.actor.lease));
    var rest := [ApplyQuota(written, Done)] + [];
    StepsOne(boot, d, ApplyQuota(written, Done), after, []);
    StepsOne(boot, armed, Validate(true), d, rest);
    CapArms(boot, c, percent, seconds, nanos, built, [Validate(true)] + rest);
    actions := CapActions(percent, seconds, nanos, built) + ([Validate(true)] + rest);
  }

  /** Nor does a cap whose expiry timer is gone when it looks for it. */
  lemma DeadTimerStopsTheCap(boot: nat, c: Cell, percent: nat, seconds: nat, nanos: nat, built: nat)
    returns (actions: seq<Action>, after: Cell)
    requires Cappable(c, percent)
    ensures actions == [ReadInvocation(percent, seconds), ReadActiveState, LockForCap, BuildLease(nanos, built), SaveIntent(Done),
                        ArmTimer(Done), TimerEnds(nanos), CheckTimer]
    ensures Steps(boot, c, actions) == Some(after)
    ensures after.live == c.live && after.writes == c.writes && after.actor.Idle? && after.seen == c.seen
    ensures after.record.Some? && !after.record.value.armed
  {
    var lease := LeaseFor(boot, c, percent, seconds, nanos, built);
    var d0 := c.(record := Some(lease), actor := CapArming(lease));
    var d1 := d0.(timers := c.timers + {nanos}, actor := CapCheckingTimer(lease));
    var d2 := d1.(timers := c.timers + {nanos} - {nanos});
    after := d2.(actor := Idle);
    var r2 := [CheckTimer] + [];
    var r1 := [TimerEnds(nanos)] + r2;
    StepsOne(boot, d2, CheckTimer, after, []);
    StepsOne(boot, d1, TimerEnds(nanos), d2, r2);
    StepsOne(boot, d0, ArmTimer(Done), d1, r1);
    actions := IntentSteps(boot, c, percent, seconds, nanos, built, lease, [ArmTimer(Done)] + r1);
  }

  /** Nor does a cap whose workload is not what was sampled, once the timer is armed. */
  lemma InvalidCapWritesNothing(boot: nat, c: Cell, percent: nat, seconds: nat, nanos: nat, built: nat)
    returns (actions: seq<Action>, after: Cell)
    requires Cappable(c, percent)
    ensures actions == CapActions(percent, seconds, nanos, built) + [Validate(false)]
    ensures Steps(boot, c, actions) == Some(after)
    ensures after.live == c.live && after.writes == c.writes && after.actor.Idle?
  {
    var armed := Armed(c, LeaseFor(boot, c, percent, seconds, nanos, built));
    after := armed.(actor := Idle);
    StepsOne(boot, armed, Validate(false), after, []);
    CapArms(boot, c, percent, seconds, nanos, built, [Validate(false)] + []);
    actions := CapActions(percent, seconds, nanos, built) + [Validate(false)];
    assert [Validate(false)] + [] == [Validate(false)];
  }

  /** A unit whose quota is at most the one asked for is left alone: no record, no timer, no write. */
  lemma StricterUnitIsLeft(boot: nat, c: Cell, percent: nat, seconds: nat, nanos: nat, built: nat)
    returns (actions: seq<Action>)
    requires c.actor.Idle? && c.preCap.NoCap? && c.record.None?
    requires c.live.Unit? && c.live.active && c.live.invocation != 0 && 1 <= percent <= 100
    requires c.live.quota <= percent * 10_000
    ensures actions == [ReadInvocation(percent, seconds), ReadActiveState, LockForCap, BuildLease(nanos, built)]
    ensures Steps(boot, c, actions) == Some(c)
  {
    var c1 := c.(preCap := SeenInvocation(c.live.invocation, percent, seconds));
    var c2 := c.(preCap := SeenActive(c.live.invocation, percent, seconds));
    var c3 := c.(actor := CapReading(c.live.invocation, percent, seconds));
    var r3 := [BuildLease(nanos, built)] + [];
    var r2 := [LockForCap] + r3;
    var r1 := [ReadActiveState] + r2;
    actions := [ReadInvocation(percent, seconds)] + r1;
    StepsOne(boot, c3, BuildLease(nanos, built), c, []);
    StepsOne(boot, c2, LockForCap, c3, r3);
    StepsOne(boot, c1, ReadActiveState, c2, r2);
    StepsOne(boot, c, ReadInvocation(percent, seconds), c1, r1);
  }

  /** Actions of the capping process, and of nobody else. */
  predicate OfTheCapper(a: Action) {
    !(a.Restart? || a.Unload? || a.SetLoadState? || a.OperatorSet? || a.TimerEnds? || a.Abort?
      || a.BeginRelease? || a.DecideRelease? || a.RemoveRecord? || a.StopTimer?)
  }

  /** A unit that is not active, or has no invocation, is never capped, whatever cappers do. */
  lemma {:induction false} InactiveUnitIsLeft(boot: nat, c: Cell, actions: seq<Action>)
    requires c.actor.Idle? && !c.preCap.SeenActive? && (c.live.Unit? ==> !c.live.active || c.live.invocation == 0)
    requires c.live.Unit? && c.live.invocation == 0 ==> c.preCap.NoCap?
    requires forall i :: 0 <= i < |actions| ==> OfTheCapper(actions[i])
    requires Steps(boot, c, actions).Some?
    ensures var after := Steps(boot, c, actions).value; after == c.(preCap := after.preCap)
    decreases |actions|
  {
    if actions != [] { InactiveUnitIsLeft(boot, Step(boot, c, actions[0]).value, actions[1..]); }
  }

  // ---------------------------------------------------------------- a record that is found

  /** A unit and the record of an earlier cap of the same incarnation. */
  ghost predicate Recorded(boot: nat, c: Cell) {
    && c.actor.Idle? && c.preCap.NoCap?
    && c.live.Unit? && c.live.active && c.live.invocation != 0
    && c.record.Some? && c.record.value.bootId == boot && c.record.value.invocation == c.live.invocation
  }

  lemma FoundSteps(boot: nat, c: Cell, percent: nat, seconds: nat, rest: seq<Action>) returns (actions: seq<Action>)
    requires c.actor.Idle? && c.preCap.NoCap? && c.record.Some?
    requires c.live.Unit? && c.live.active && c.live.invocation != 0 && 1 <= percent <= 100
    ensures actions == [ReadInvocation(percent, seconds), ReadActiveState, LockForCap] + rest
    ensures Recorded(boot, c) ==> Steps(boot, c, actions) == Steps(boot, c.(actor := CapReconciling(c.record.value)), rest)
    ensures !Recorded(boot, c) ==> Steps(boot, c, actions) == Steps(boot, c.(actor := CapStale), rest)
  {
    var c1 := c.(preCap := SeenInvocation(c.live.invocation, percent, seconds));
    var c2 := c.(preCap := SeenActive(c.live.invocation, percent, seconds));
    var c3 := if Recorded(boot, c) then c.(actor := CapReconciling(c.record.value)) else c.(actor := CapStale);
    var r2 := [LockForCap] + rest;
    var r1 := [ReadActiveState] + r2;
    actions := [ReadInvocation(percent, seconds)] + r1;
    StepsOne(boot, c2, LockForCap, c3, rest);
    StepsOne(boot, c1, ReadActiveState, c2, r2);
    StepsOne(boot, c, ReadInvocation(percent, seconds), c1, r1);
  }

  /** Protected: the mark is armed, the timer lives and the time is not up. */
  ghost predicate IsProtected(c: Cell, now: nat)
    requires c.record.Some?
  {
    c.record.value.armed && c.record.value.generation in c.timers && now < c.record.value.expiresAt
  }

  /** What an undisturbed cap makes of a record it finds at the time `now`. A protected throttle is kept; an
      unprotected one is undone; an intent that never took effect is dropped; whatever else the quota is, somebody
      else set it, and nothing is touched. */
  lemma FoundRecordIsReconciled(boot: nat, c: Cell, percent: nat, seconds: nat, now: nat)
    returns (actions: seq<Action>, after: Cell)
    requires Recorded(boot, c) && 1 <= percent <= 100
    ensures Steps(boot, c, actions) == Some(after) && after.actor.Idle? && after.timers == c.timers
    ensures |actions| >= 4 && actions[..4] == [ReadInvocation(percent, seconds), ReadActiveState, LockForCap, Reconcile(now, Done)]
    ensures |actions| <= 5 && (|actions| == 5 ==> actions[4] == DropIntent || actions[4] == SaveReuse(Done))
    ensures var lease := c.record.value;
      && (c.live.quota == lease.applied && IsProtected(c, now) ==>
            after == c.(record := Some(lease.(appliedVerified := true))))
      && (c.live.quota == lease.applied && !IsProtected(c, now) ==>
            && after.live == c.live.(quota := lease.original) && after.record.None? && after.throttledFrom.None?
            && |after.writes| == |c.writes| + 1)
      && (c.live.quota != lease.applied && c.live.quota == lease.original && !lease.appliedVerified ==>
            after == c.(record := None))
      && (c.live.quota != lease.applied && (c.live.quota != lease.original || lease.appliedVerified) ==> after == c)
  {
    var lease := c.record.value;
    var d := c.(actor := CapReconciling(lease));
    var e := Step(boot, d, Reconcile(now, Done)).value;
    var last := if e.actor.CapReusing? then [SaveReuse(Done)] else if e.actor.CapDropping? then [DropIntent] else [];
    after := if last == [] then e else Step(boot, e, last[0]).value;
    if last != [] { StepsOne(boot, e, last[0], after, []); }
    assert last + [] == last && (last != [] ==> [last[0]] + [] == last);
    StepsOne(boot, d, Reconcile(now, Done), e, last);
    actions := FoundSteps(boot, c, percent, seconds, [Reconcile(now, Done)] + last);
  }

  /** The record of another incarnation, or of another boot, is dropped without touching the unit. */
  lemma StaleRecordIsDropped(boot: nat, c: Cell, percent: nat, seconds: nat) returns (actions: seq<Action>)
    requires c.actor.Idle? && c.preCap.NoCap? && c.live.Unit? && c.live.active && c.live.invocation != 0
    requires c.record.Some? && (c.record.value.bootId != boot || c.record.value.invocation != c.live.invocation)
    requires 1 <= percent <= 100
    ensures actions == [ReadInvocation(percent, seconds), ReadActiveState, LockForCap, RemoveStale]
    ensures Steps(boot, c, actions) == Some(c.(record := None))
  {
    StepsOne(boot, c.(actor := CapStale), RemoveStale, c.(record := None), []);
    actions := FoundSteps(boot, c, percent, seconds, [RemoveStale] + []);
  }

  // ---------------------------------------------------------------- a record that recovery keeps

  /** One pass can leave a record, and the throttle with it: a unit is capped, its load state then becomes an
      error, the guard dies, and recovery can no longer tell whether the unit is still the leased one. */
  lemma RecoveryCanKeepARecord() returns (w0: World, run: seq<WorldAction>)
    ensures Initial(w0) && Run(w0, run).Some? && "job.scope" in Run(w0, run).value.cells
    ensures var w := Run(w0, run).value;
            var c := Crashed(w).cells["job.scope"];
            && RecoveredCell(w.boot, c) == c
            && c.record.Some? && c.throttledFrom == Some(1_000_000) && c.live.quota == 500_000
  {
    var c0 := Cell(None, Unit(true, 1, true, 1_000_000), 1, {}, Idle, NoCap, None, {}, [], []);
    w0 := World(1, map["job.scope" := c0]);
    var actions, capped := CapThenReleaseRestoresTheUnit(1, c0, 50, 3600, 7, 1_700_000_000, 1_700_000_001);
    StepsAreARun(w0, "job.scope", actions);
    run := OnOneUnit("job.scope", actions) + [OnUnit("job.scope", SetLoadState(false, true))];
    RunSnoc(w0, OnOneUnit("job.scope", actions), OnUnit("job.scope", SetLoadState(false, true)));
    KeptRecord(Run(w0, run).value.cells["job.scope"]);
  }

  lemma KeptRecord(c: Cell)
    requires c.record.Some? && c.record.value.bootId == 1 && c.live.Unit? && !c.live.loaded
    ensures RecoveredCell(1, c.(actor := Idle, preCap := NoCap)) == c.(actor := Idle, preCap := NoCap)
  {
  }

  // ---------------------------------------------------------------- a replaced unit

  /** Without the calm assumption a restore may land on a replacement: the intent of invocation 1 is
      saved, the next capper reads invocation 1, the unit restarts at the quota the intent names, and
      the reconcile step then writes the old unit's original quota to invocation 2. */
  lemma ReconcileCanWriteToAReplacement() returns (w0: World, run: seq<WorldAction>)
    ensures Initial(w0) && Run(w0, run).Some? && "job.scope" in Run(w0, run).value.cells
    ensures var c := Run(w0, run).value.cells["job.scope"];
            |c.writes| == 1 && c.writes[0].kind == RestoreOnReconcile && !WriteOnOwnIncarnation(c.writes[0])
  {
    var c0 := Cell(None, Unit(true, 1, true, 1_000_000), 1, {}, Idle, NoCap, None, {}, [], []);
    w0 := World(1, map["job.scope" := c0]);
    var actions, last := ReplacementSteps(c0);
    run := OnOneUnit("job.scope", actions);
    StepsAreARun(w0, "job.scope", actions);
  }

  /** The first five steps: an intent is saved for invocation 1 and the save then reports an error. */
  lemma LostIntentSteps(c0: Cell, lease: Lease, rest: seq<Action>) returns (actions: seq<Action>)
    requires c0 == Cell(None, Unit(true, 1, true, 1_000_000), 1, {}, Idle, NoCap, None, {}, [], [])
    requires lease == Lease(1, 1_000_000, 500_000, 7, 1, false, false, 3600)
    ensures Steps(1, c0, actions) == Steps(1, c0.(record := Some(lease)), rest)
  {
    var c1 := c0.(preCap := SeenInvocation(1, 50, 3600));
    var c2 := c0.(preCap := SeenActive(1, 50, 3600));
    var c3 := c0.(actor := CapReading(1, 50, 3600));
    var c4 := c0.(actor := CapSaving(lease));
    var r4 := [SaveIntent(LostReply)] + rest;
    var r3 := [BuildLease(7, 0)] + r4;
    var r2 := [LockForCap] + r3;
    var r1 := [ReadActiveState] + r2;
    actions := [ReadInvocation(50, 3600)] + r1;
    StepsOne(1, c4, SaveIntent(LostReply), c0.(record := Some(lease)), rest);
    StepsOne(1, c3, BuildLease(7, 0), c4, r4);
    StepsOne(1, c2, LockForCap, c3, r3);
    StepsOne(1, c1, ReadActiveState, c2, r2);
    StepsOne(1, c0, ReadInvocation(50, 3600), c1, r1);
  }

  lemma ReplacementSteps(c0: Cell) returns (actions: seq<Action>, last: Cell)
    requires c0 == Cell(None, Unit(true, 1, true, 1_000_000), 1, {}, Idle, NoCap, None, {}, [], [])
    ensures Steps(1, c0, actions) == Some(last)
    ensures |last.writes| == 1 && last.writes[0].kind == RestoreOnReconcile && !WriteOnOwnIncarnation(last.writes[0])
  {
    var lease := Lease(1, 1_000_000, 500_000, 7, 1, false, false, 3600);
    var c5 := c0.(record := Some(lease));
    var c6 := c5.(preCap := SeenInvocation(1, 50, 3600));
    var c7 := c5.(preCap := SeenActive(1, 50, 3600));
    var c8 := c7.(live := Unit(true, 2, true, 500_000), lastInvocation := 2);
    var c9 := c8.(preCap := NoCap, actor := CapReconciling(lease));
    last := WriteQuota(1, c9, RestoreOnReconcile, lease, 1_000_000).(actor := CapDropping);
    var r9 := [Reconcile(0, Done)] + [];
    var r8 := [LockForCap] + r9;
    var r7 := [Restart(500_000, true)] + r8;
    var r6 := [ReadActiveState] + r7;
    var r5 := [ReadInvocation(50, 3600)] + r6;
    StepsOne(1, c9, Reconcile(0, Done), last, []);
    StepsOne(1, c8, LockForCap, c9, r9);
    StepsOne(1, c7, Restart(500_000, true), c8, r8);
    StepsOne(1, c6, ReadActiveState, c7, r7);
    StepsOne(1, c5, ReadInvocation(50, 3600), c6, r6);
    actions := LostIntentSteps(c0, lease, r5);
  }
}
