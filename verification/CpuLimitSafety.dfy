/** Safety of the CPU lease protocol over every run. */
module CpuLimitSafety {
  import opened Wrappers
  import opened CpuLimit

  // ---------------------------------------------------------------- runs

  /** Every unit of one machine; all of them share the boot. */
  datatype World = World(boot: nat, cells: map<string, Cell>)

  datatype WorldAction = OnUnit(unit: string, action: Action) | Reboot

  function RebootedCell(c: Cell): Cell {
    c.(live := Gone, timers := {}, actor := Idle, preCap := NoCap, throttledFrom := None)
  }

  function WorldStep(w: World, a: WorldAction): Option<World> {
    match a
    case Reboot => Some(World(w.boot + 1, map u | u in w.cells :: RebootedCell(w.cells[u])))
    case OnUnit(u, action) =>
      if u !in w.cells then None
      else
        match Step(w.boot, w.cells[u], action)
        case None => None
        case Some(c) => Some(w.(cells := w.cells[u := c]))
  }

  function Run(w: World, run: seq<WorldAction>): Option<World>
    decreases |run|
  {
    if run == [] then Some(w)
    else
      match WorldStep(w, run[0])
      case None => None
      case Some(next) => Run(next, run[1..])
  }

  /** A run from its other end. */
  lemma {:induction false} RunSnoc(w: World, run: seq<WorldAction>, a: WorldAction)
    ensures Run(w, run + [a]) == match Run(w, run) case None => None case Some(next) => WorldStep(next, a)
    decreases |run|
  {
    var all := run + [a];
    if run == [] {
      assert all[1..] == [];
    } else {
      assert all[0] == run[0] && all[1..] == run[1..] + [a];
      if WorldStep(w, run[0]).Some? { RunSnoc(WorldStep(w, run[0]).value, run[1..], a); }
    }
  }

  /** Before the guard ever ran: no record, no timer, no actor; units in any state. */
  ghost predicate InitialCell(c: Cell) {
    && c.record.None? && c.timers == {} && c.actor.Idle? && c.preCap.NoCap? && c.throttledFrom.None?
    && c.seen == {} && c.writes == [] && c.stops == []
    && (c.live.Unit? ==> c.live.invocation <= c.lastInvocation)
  }

  ghost predicate Initial(w: World) {
    forall u :: u in w.cells ==> InitialCell(w.cells[u])
  }

  // ---------------------------------------------------------------- what must hold

  /** A unit incarnation throttled by a guard write has a durable, armed lease that undoes it. */
  ghost predicate ThrottleIsLeased(boot: nat, c: Cell) {
    c.throttledFrom.Some? ==>
      && c.live.Unit?
      && c.record.Some?
      && var l := c.record.value;
         && l.bootId == boot && l.invocation == c.live.invocation && l.armed
         && l.applied == c.live.quota && l.original == c.throttledFrom.value && l.generation in c.seen
  }

  /** The lease in the writer's hand is the durable one, and it is only compared-and-exchanged. */
  ghost predicate WriteIsLeased(w: Write) {
    && w.durable == Some(w.lease)
    && w.lease.bootId == w.boot
    && w.lease.applied < w.lease.original
    && match w.kind {
         case Apply =>
           && w.before == w.lease.original && w.value == w.lease.applied
           && w.lease.armed && w.timerSeen
         case Restore => w.before == w.lease.applied && w.value == w.lease.original
         case RestoreOnReconcile => w.before == w.lease.applied && w.value == w.lease.original
       }
  }

  ghost predicate WriteOnOwnIncarnation(w: Write) { w.onInvocation == w.lease.invocation }

  // ---------------------------------------------------------------- the invariant

  ghost predicate LeaseShape(c: Cell, l: Lease) {
    l.applied < l.original && (l.armed ==> l.generation in c.seen) && l.invocation != 0
  }

  /** The actor holds exactly the durable lease. */
  ghost predicate Holds(c: Cell, l: Lease) { c.record == Some(l) }

  ghost predicate Unthrottled(c: Cell) { c.throttledFrom.None? }

  ghost predicate ActorInv(boot: nat, c: Cell) {
    match c.actor
    case Idle => true
    case CapStale => Unthrottled(c)
    case CapReconciling(l) => Holds(c, l) && l.bootId == boot
    case CapReusing(l) => Holds(c, l)
    case CapDropping => Unthrottled(c)
    case CapReading(i, _, _) => c.record.None? && Unthrottled(c) && i != 0
    case CapSaving(l) =>
      c.record.None? && Unthrottled(c) && LeaseShape(c, l) && !l.armed && l.bootId == boot
    case CapArming(l) => Holds(c, l) && Unthrottled(c) && l.bootId == boot
    case CapCheckingTimer(l) => Holds(c, l) && Unthrottled(c) && l.bootId == boot
    case CapMarking(l) =>
      && c.record.Some? && l == c.record.value.(armed := true)
      && Unthrottled(c) && l.bootId == boot && l.generation in c.seen
    case CapValidating(l) => Holds(c, l) && Unthrottled(c) && l.bootId == boot && l.armed
    case CapApplying(l) => Holds(c, l) && Unthrottled(c) && l.bootId == boot && l.armed
    case CapVerifying(l) => Holds(c, l) && l.armed
    case ReleaseDeciding(l) => Holds(c, l)
    case ReleaseRemoving(l) => Holds(c, l) && Unthrottled(c)
    case ReleaseStopping(l) => c.record.None?
  }

  /** A capper that read an invocation before the lock: only that incarnation can be throttled. */
  ghost predicate PreCapInv(c: Cell) {
    !c.preCap.NoCap? ==>
      && !IsCap(c.actor)
      && c.preCap.invocation != 0
      && (c.throttledFrom.Some? ==> c.live.Unit? && c.live.invocation == c.preCap.invocation)
  }

  ghost predicate HistoryInv(c: Cell) {
    && (forall i :: 0 <= i < |c.writes| ==> WriteIsLeased(c.writes[i]))
    && (forall i :: 0 <= i < |c.stops| ==> c.stops[i].1.None?)
    && (forall i :: 0 <= i < |c.writes| && c.writes[i].kind != RestoreOnReconcile ==> WriteOnOwnIncarnation(c.writes[i]))
  }

  ghost predicate CoreInv(boot: nat, c: Cell) {
    && ThrottleIsLeased(boot, c)
    && (c.record.Some? ==> LeaseShape(c, c.record.value))
    && ActorInv(boot, c)
    && PreCapInv(c)
  }

  ghost predicate CellInv(boot: nat, c: Cell) {
    CoreInv(boot, c) && HistoryInv(c)
  }

  ghost predicate WorldInv(w: World) {
    forall u :: u in w.cells ==> CellInv(w.boot, w.cells[u])
  }

  lemma EnvKeepsCore(boot: nat, c: Cell, a: Action)
    requires CoreInv(boot, c) && EnvStep(c, a).Some?
    ensures CoreInv(boot, EnvStep(c, a).value)
  {
  }

  /** Undoing the throttle of the durable lease, with every outcome of the manager call. */
  lemma RestoreKeepsCore(boot: nat, c: Cell, kind: WriteKind, lease: Lease, effect: Effect, next: Actor)
    requires CoreInv(boot, c) && Holds(c, lease) && c.live.Unit? && kind != Apply
    requires next == CapDropping || next == ReleaseRemoving(lease)
    requires IsCap(next) ==> c.preCap.NoCap?
    ensures CoreInv(boot, SetQuota(boot, c, kind, lease, lease.original, effect, next))
  {
  }

  lemma CapStartKeepsCore(boot: nat, c: Cell, a: Action)
    requires CoreInv(boot, c) && CapStartStep(boot, c, a).Some?
    ensures CoreInv(boot, CapStartStep(boot, c, a).value)
  {
    if a.Reconcile? {
      RestoreKeepsCore(boot, c, RestoreOnReconcile, c.actor.prior, a.effect, CapDropping);
    }
  }

  lemma CapArmKeepsCore(boot: nat, c: Cell, a: Action)
    requires CoreInv(boot, c) && CapApplyStep(boot, c, a).Some?
    requires a.BuildLease? || a.SaveIntent? || a.ArmTimer? || a.CheckTimer?
    ensures CoreInv(boot, CapApplyStep(boot, c, a).value)
  {
    match a
    case BuildLease(_, _) =>
    case SaveIntent(_) =>
    case ArmTimer(_) =>
    case CheckTimer =>
  }

  lemma CapWriteKeepsCore(boot: nat, c: Cell, a: Action)
    requires CoreInv(boot, c) && CapApplyStep(boot, c, a).Some?
    requires a.MarkArmed? || a.Validate? || a.ApplyQuota? || a.MarkVerified?
    ensures CoreInv(boot, CapApplyStep(boot, c, a).value)
  {
    match a
    case MarkArmed(_) =>
    case Validate(_) =>
    case ApplyQuota(_, _) =>
    case MarkVerified(_) =>
  }

  lemma CapApplyKeepsCore(boot: nat, c: Cell, a: Action)
    requires CoreInv(boot, c) && CapApplyStep(boot, c, a).Some?
    ensures CoreInv(boot, CapApplyStep(boot, c, a).value)
  {
    if a.BuildLease? || a.SaveIntent? || a.ArmTimer? || a.CheckTimer? {
      CapArmKeepsCore(boot, c, a);
    } else {
      CapWriteKeepsCore(boot, c, a);
    }
  }

  lemma ReleaseKeepsCore(boot: nat, c: Cell, a: Action)
    requires CoreInv(boot, c) && ReleaseStep(boot, c, a).Some?
    ensures CoreInv(boot, ReleaseStep(boot, c, a).value)
  {
    if a.DecideRelease? && c.live.Unit? {
      RestoreKeepsCore(boot, c, Restore, c.actor.lease, a.effect, ReleaseRemoving(c.actor.lease));
    }
  }

  /** A write by compare-and-exchange on the durable lease extends the history. */
  lemma WriteExtendsHistory(boot: nat, c: Cell, kind: WriteKind, lease: Lease, value: u64, effect: Effect, next: Actor)
    requires c.live.Unit? && HistoryInv(c)
    requires var w := Write(kind, lease, c.record, c.live.invocation, c.live.quota, value, boot, lease.generation in c.seen);
             WriteIsLeased(w) && (kind != RestoreOnReconcile ==> WriteOnOwnIncarnation(w))
    ensures HistoryInv(SetQuota(boot, c, kind, lease, value, effect, next))
  {
  }

  lemma CapStartKeepsHistory(boot: nat, c: Cell, a: Action)
    requires CellInv(boot, c) && CapStartStep(boot, c, a).Some?
    ensures HistoryInv(CapStartStep(boot, c, a).value)
  {
    if a.Reconcile? && c.live.quota == c.actor.prior.applied {
      WriteExtendsHistory(boot, c, RestoreOnReconcile, c.actor.prior, c.actor.prior.original, a.effect, CapDropping);
    }
  }

  lemma CapApplyKeepsHistory(boot: nat, c: Cell, a: Action)
    requires CellInv(boot, c) && CapApplyStep(boot, c, a).Some?
    ensures HistoryInv(CapApplyStep(boot, c, a).value)
  {
    if a.ApplyQuota? && c.live.quota == c.actor.lease.original && c.live.invocation == c.actor.lease.invocation {
      WriteExtendsHistory(boot, c, Apply, c.actor.lease, c.actor.lease.applied, a.effect, CapVerifying(c.actor.lease));
    }
  }

  lemma ReleaseKeepsHistory(boot: nat, c: Cell, a: Action)
    requires CellInv(boot, c) && ReleaseStep(boot, c, a).Some?
    ensures HistoryInv(ReleaseStep(boot, c, a).value)
  {
    if a.DecideRelease? {
      var lease := c.actor.lease;
      if Ownership(boot, c.live, lease) == Ok(true) && c.live.Unit? && c.live.quota == lease.applied {
        WriteExtendsHistory(boot, c, Restore, lease, lease.original, a.effect, ReleaseRemoving(lease));
      }
    }
  }

  lemma StepKeepsInv(boot: nat, c: Cell, a: Action)
    requires CellInv(boot, c) && Step(boot, c, a).Some?
    ensures CellInv(boot, Step(boot, c, a).value)
  {
    if EnvStep(c, a).Some? { EnvKeepsCore(boot, c, a); }
    if CapStartStep(boot, c, a).Some? { CapStartKeepsCore(boot, c, a); CapStartKeepsHistory(boot, c, a); }
    if CapApplyStep(boot, c, a).Some? { CapApplyKeepsCore(boot, c, a); CapApplyKeepsHistory(boot, c, a); }
    if ReleaseStep(boot, c, a).Some? { ReleaseKeepsCore(boot, c, a); ReleaseKeepsHistory(boot, c, a); }
  }

  lemma {:induction false} RunKeepsInv(w: World, run: seq<WorldAction>)
    requires WorldInv(w) && Run(w, run).Some?
    ensures WorldInv(Run(w, run).value)
    decreases |run|
  {
    if run != [] {
      if run[0].OnUnit? { StepKeepsInv(w.boot, w.cells[run[0].unit], run[0].action); }
      RunKeepsInv(WorldStep(w, run[0]).value, run[1..]);
    }
  }

  // ---------------------------------------------------------------- theorems over every run

  lemma ReachableWorldsKeepInv(w: World, run: seq<WorldAction>)
    requires Initial(w) && Run(w, run).Some?
    ensures WorldInv(Run(w, run).value)
  {
    RunKeepsInv(w, run);
  }

  /** In every reachable state, whatever crashed or failed, a throttled unit can be undone from disk. */
  lemma ThrottledUnitHasDurableLease(w: World, run: seq<WorldAction>, unit: string)
    requires Initial(w) && Run(w, run).Some? && unit in Run(w, run).value.cells
    ensures var last := Run(w, run).value; ThrottleIsLeased(last.boot, last.cells[unit])
  {
    RunKeepsInv(w, run);
  }

  /** Every write compares against the durable lease; apply and release hit the leased incarnation only. */
  lemma EveryWriteIsCompareAndExchange(w: World, run: seq<WorldAction>, unit: string, i: nat)
    requires Initial(w) && Run(w, run).Some? && unit in Run(w, run).value.cells
    requires i < |Run(w, run).value.cells[unit].writes|
    ensures var write := Run(w, run).value.cells[unit].writes[i];
            WriteIsLeased(write) && (write.kind != RestoreOnReconcile ==> WriteOnOwnIncarnation(write))
  {
    RunKeepsInv(w, run);
  }

  lemma TimersStopOnlyAfterTheirRecordIsGone(w: World, run: seq<WorldAction>, unit: string, i: nat)
    requires Initial(w) && Run(w, run).Some? && unit in Run(w, run).value.cells
    requires i < |Run(w, run).value.cells[unit].stops|
    ensures Run(w, run).value.cells[unit].stops[i].1 == None
  {
    RunKeepsInv(w, run);
  }

  // ---------------------------------------------------------------- the reconcile write

  /** The unit is not replaced while a capper still relies on the invocation it read before the lock. */
  predicate CalmStep(c: Cell, a: Action) {
    (a.Restart? || a.Unload?) ==> c.preCap.NoCap? && !c.actor.CapReconciling?
  }

  predicate CalmRun(w: World, run: seq<WorldAction>)
    decreases |run|
  {
    run != [] && WorldStep(w, run[0]).Some? ==>
      && (run[0].OnUnit? && run[0].unit in w.cells ==> CalmStep(w.cells[run[0].unit], run[0].action))
      && CalmRun(WorldStep(w, run[0]).value, run[1..])
  }

  ghost predicate CalmActors(c: Cell) {
    && (!c.preCap.NoCap? ==> c.live.Unit? && c.live.invocation == c.preCap.invocation)
    && (c.actor.CapReconciling? ==> c.live.Unit? && c.live.invocation == c.actor.prior.invocation)
  }

  ghost predicate CalmInv(c: Cell) {
    CalmActors(c) && forall i :: 0 <= i < |c.writes| ==> WriteOnOwnIncarnation(c.writes[i])
  }

  /** The one write whose incarnation is not re-read under the lock: it is right exactly while the
      invocation read at the start is still the unit's. */
  lemma ReconcileWriteOnOwnIncarnationIff(boot: nat, c: Cell, now: nat, effect: Effect)
    requires CellInv(boot, c) && c.actor.CapReconciling? && c.live.Unit?
    requires |CapStartStep(boot, c, Reconcile(now, effect)).value.writes| > |c.writes|
    ensures var next := CapStartStep(boot, c, Reconcile(now, effect)).value;
            && |next.writes| == |c.writes| + 1
            && (WriteOnOwnIncarnation(next.writes[|c.writes|]) <==> c.live.invocation == c.actor.prior.invocation)
  {
  }

  lemma CalmStepKeepsActors(boot: nat, c: Cell, a: Action)
    requires CalmActors(c) && CalmStep(c, a) && Step(boot, c, a).Some?
    ensures CalmActors(Step(boot, c, a).value)
  {
  }

  lemma StepsOnlyAppendWrites(boot: nat, c: Cell, a: Action)
    requires Step(boot, c, a).Some?
    ensures var next := Step(boot, c, a).value;
            && c.writes <= next.writes && |next.writes| <= |c.writes| + 1
            && (|next.writes| > |c.writes| && !a.Reconcile? ==> next.writes[|c.writes|].kind != RestoreOnReconcile)
  {
  }

  /** A write other than the reconcile one is on its own incarnation by the history, the reconcile one by calm. */
  lemma CalmWriteIsOwn(boot: nat, c: Cell, a: Action, next: Cell)
    requires CellInv(boot, c) && CalmInv(c) && CalmStep(c, a) && Step(boot, c, a) == Some(next)
    requires a.Reconcile? && |next.writes| > |c.writes|
    ensures WriteOnOwnIncarnation(next.writes[|c.writes|])
  {
    ReconcileWriteOnOwnIncarnationIff(boot, c, a.now, a.effect);
  }

  lemma AppendedWritesAreOwn(before: seq<Write>, after: seq<Write>)
    requires before <= after && |after| <= |before| + 1
    requires forall i :: 0 <= i < |before| ==> WriteOnOwnIncarnation(before[i])
    requires |after| > |before| ==> WriteOnOwnIncarnation(after[|before|])
    ensures forall i :: 0 <= i < |after| ==> WriteOnOwnIncarnation(after[i])
  {
  }

  lemma OtherWriteIsOwn(c: Cell, next: Cell)
    requires HistoryInv(next) && |next.writes| > |c.writes|
    requires next.writes[|c.writes|].kind != RestoreOnReconcile
    ensures WriteOnOwnIncarnation(next.writes[|c.writes|])
  {
  }

  lemma CalmStepKeepsInv(boot: nat, c: Cell, a: Action)
    requires CellInv(boot, c) && CalmInv(c) && CalmStep(c, a) && Step(boot, c, a).Some?
    ensures CalmInv(Step(boot, c, a).value)
  {
    var next := Step(boot, c, a).value;
    CalmStepKeepsActors(boot, c, a);
    StepKeepsInv(boot, c, a);
    StepsOnlyAppendWrites(boot, c, a);
    if |next.writes| > |c.writes| {
      if a.Reconcile? { CalmWriteIsOwn(boot, c, a, next); } else { OtherWriteIsOwn(c, next); }
    }
    AppendedWritesAreOwn(c.writes, next.writes);
  }

  lemma {:induction false} CalmRunWritesOnlyItsOwnIncarnation(w: World, run: seq<WorldAction>)
    requires WorldInv(w) && forall u :: u in w.cells ==> CalmInv(w.cells[u])
    requires Run(w, run).Some? && CalmRun(w, run)
    ensures forall u :: u in Run(w, run).value.cells ==> CalmInv(Run(w, run).value.cells[u])
    decreases |run|
  {
    if run != [] {
      if run[0].OnUnit? {
        StepKeepsInv(w.boot, w.cells[run[0].unit], run[0].action);
        CalmStepKeepsInv(w.boot, w.cells[run[0].unit], run[0].action);
      }
      CalmRunWritesOnlyItsOwnIncarnation(WorldStep(w, run[0]).value, run[1..]);
    }
  }
}
