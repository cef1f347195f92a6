/** The CPU-quota lease protocol of src/cpu_limit.rs.
  *
  * A `Cell` is everything that concerns one unit: its durable lease record, the manager's
  * view of the unit, its expiry timers, the process that holds the per-key lock, and a capper
  * that has not taken the lock yet.  A run is a sequence of actions; a crash (`Abort`) may come
  * between any two of them, and a manager call or a save may fail with or without its effect.
  * The reads that justify a quota write are one action with the write, except for the
  * invocation that `cap_prepared` reads before it takes the lock.
  */
module CpuLimit {
  import opened Wrappers

  type u64 = x: int | 0 <= x < 0x1_0000_0000_0000_0000

  /** An InvocationID; 0 stands for the empty string of a unit that never started. */
  type Invocation = nat

  datatype Lease = Lease(
    invocation: Invocation, original: u64, applied: u64, generation: nat,
    bootId: nat, armed: bool, appliedVerified: bool, expiresAt: nat)

  datatype LeaseError = OwnershipUnavailable | LeaseBusy

  datatype LoadState = Loaded | NotFound | OtherState

  // ---------------------------------------------------------------- decisions

  /** Whether the saved lease still belongs to the running unit; an error keeps the record. */
  function LeaseIsOwned(savedBoot: nat, currentBoot: nat, saved: Invocation, current: Invocation,
                        loadState: LoadState): (r: Result<bool, LeaseError>)
  {
    if savedBoot != currentBoot || loadState == NotFound then Ok(false)
    else if loadState != Loaded || current == 0 || saved == 0 then
      Err(OwnershipUnavailable)
    else Ok(saved == current)
  }

  datatype IntentAction = Reuse | RestoreUnprotected | DropUnapplied | PreserveExternal

  function ReconcileIntent(lease: Lease, current: u64, armed: bool): IntentAction {
    if current == lease.applied then
      if armed then Reuse else RestoreUnprotected
    else if current == lease.original && !lease.appliedVerified then DropUnapplied
    else PreserveExternal
  }

  // ---------------------------------------------------------------- state

  /** The manager's view of a unit; `loaded` is false while its load state is an error. */
  datatype Live = Gone | Unit(loaded: bool, invocation: Invocation, active: bool, quota: u64)

  /** `cap_prepared` between its first read and the lock. */
  datatype PreCap =
    | NoCap
    | SeenInvocation(invocation: Invocation, percent: nat, seconds: nat)
    | SeenActive(invocation: Invocation, percent: nat, seconds: nat)

  /** The holder of the per-key lock and its next step. */
  datatype Actor =
    | Idle
    | CapStale
    | CapReconciling(prior: Lease)
    | CapReusing(prior: Lease)
    | CapDropping
    | CapReading(invocation: Invocation, percent: nat, seconds: nat)
    | CapSaving(lease: Lease)
    | CapArming(lease: Lease)
    | CapCheckingTimer(lease: Lease)
    | CapMarking(lease: Lease)
    | CapValidating(lease: Lease)
    | CapApplying(lease: Lease)
    | CapVerifying(lease: Lease)
    | ReleaseDeciding(lease: Lease)
    | ReleaseRemoving(lease: Lease)
    | ReleaseStopping(lease: Lease)

  datatype WriteKind = Apply | Restore | RestoreOnReconcile

  /** One quota write that took effect, with what was true when it was issued. */
  datatype Write = Write(kind: WriteKind, lease: Lease, durable: Option<Lease>, onInvocation: Invocation,
                         before: u64, value: u64, boot: nat, timerSeen: bool)

  datatype Cell = Cell(
    record: Option<Lease>,
    live: Live,
    lastInvocation: Invocation,
    timers: set<nat>,
    actor: Actor,
    preCap: PreCap,
    // History: Some(q) while the live quota is in force because the guard wrote it over q;
    // generations whose expiry timer was observed active; every write; every timer stopped,
    // with the record that was durable at that moment.
    throttledFrom: Option<u64>,
    seen: set<nat>,
    writes: seq<Write>,
    stops: seq<(nat, Option<Lease>)>)

  /** How a manager call or a durable save ends: an error may hide that it took effect. */
  datatype Effect = Done | LostReply | Rejected

  datatype Action =
    // environment
    | Restart(quota: u64, active: bool)
    | Unload
    | SetLoadState(loaded: bool, active: bool)
    | OperatorSet(quota: u64)
    | TimerEnds(generation: nat)
    // any lock holder or capper fails, returns an error, or dies
    | Abort
    | AbortPreCap
    // cap_prepared
    | ReadInvocation(percent: nat, seconds: nat)
    | ReadActiveState
    | LockForCap
    | RemoveStale
    | Reconcile(now: nat, effect: Effect)
    | SaveReuse(effect: Effect)
    | DropIntent
    | BuildLease(nanos: nat, now: nat)
    | SaveIntent(effect: Effect)
    | ArmTimer(effect: Effect)
    | CheckTimer
    | MarkArmed(effect: Effect)
    | Validate(ok: bool)
    | ApplyQuota(now: nat, effect: Effect)
    | MarkVerified(effect: Effect)
    // release_with
    | BeginRelease(generation: nat)
    | DecideRelease(effect: Effect)
    | RemoveRecord
    | StopTimer

  predicate IsCap(a: Actor) {
    a.CapStale? || a.CapReconciling? || a.CapReusing? || a.CapDropping? || a.CapReading? || a.CapSaving? || a.CapArming?
    || a.CapCheckingTimer? || a.CapMarking? || a.CapValidating? || a.CapApplying? || a.CapVerifying?
  }

  // ---------------------------------------------------------------- transitions

  /** A quota write by the guard: it goes by unit name, to whatever incarnation is live. */
  function WriteQuota(boot: nat, c: Cell, kind: WriteKind, lease: Lease, value: u64): Cell
    requires c.live.Unit?
  {
    c.(live := c.live.(quota := value),
       throttledFrom := if kind == Apply then Some(c.live.quota) else None,
       writes := c.writes + [Write(kind, lease, c.record, c.live.invocation, c.live.quota, value, boot,
                                   lease.generation in c.seen)])
  }

  /** `set_quota`: on success the actor goes on, otherwise it returns the error. */
  function SetQuota(boot: nat, c: Cell, kind: WriteKind, lease: Lease, value: u64, effect: Effect, next: Actor): Cell
    requires c.live.Unit?
  {
    match effect
    case Done => WriteQuota(boot, c, kind, lease, value).(actor := next)
    case LostReply => WriteQuota(boot, c, kind, lease, value).(actor := Idle)
    case Rejected => c.(actor := Idle)
  }

  /** `save`: an atomic replacement of the record whose directory sync may still fail. */
  function Save(c: Cell, lease: Lease, effect: Effect, next: Actor): Cell {
    match effect
    case Done => c.(record := Some(lease), actor := next)
    case LostReply => c.(record := Some(lease), actor := Idle)
    case Rejected => c.(actor := Idle)
  }

  function EnvStep(c: Cell, a: Action): Option<Cell> {
    match a
    case Restart(q, active) =>
      Some(c.(live := Unit(true, c.lastInvocation + 1, active, q), lastInvocation := c.lastInvocation + 1,
              throttledFrom := None))
    case Unload => Some(c.(live := Gone, throttledFrom := None))
    case SetLoadState(loaded, active) =>
      if c.live.Unit? then Some(c.(live := c.live.(loaded := loaded, active := active))) else None
    case OperatorSet(q) =>
      if c.live.Unit? then Some(c.(live := c.live.(quota := q), throttledFrom := None)) else None
    case TimerEnds(g) => Some(c.(timers := c.timers - {g}))
    case Abort => Some(c.(actor := Idle))
    case AbortPreCap => Some(c.(preCap := NoCap))
    case _ => None
  }

  /** `cap_prepared` up to and including its treatment of an existing record. */
  function CapStartStep(boot: nat, c: Cell, a: Action): Option<Cell> {
    match a
    case ReadInvocation(percent, seconds) =>
      // one capper at a time
      if c.preCap.NoCap? && !IsCap(c.actor) && c.live.Unit? && c.live.invocation != 0 && 1 <= percent <= 100
      then Some(c.(preCap := SeenInvocation(c.live.invocation, percent, seconds))) else None
    case ReadActiveState =>
      if c.preCap.SeenInvocation? && c.live.Unit? && c.live.active
      then Some(c.(preCap := SeenActive(c.preCap.invocation, c.preCap.percent, c.preCap.seconds))) else None
    case LockForCap =>
      if !c.preCap.SeenActive? || !c.actor.Idle? then None
      else
        var p := c.preCap;
        var next :=
          match c.record
          case None => CapReading(p.invocation, p.percent, p.seconds)
          case Some(prior) =>
            if prior.invocation != p.invocation || prior.bootId != boot then CapStale else CapReconciling(prior);
        Some(c.(preCap := NoCap, actor := next))
    case RemoveStale =>
      if c.actor.CapStale? then Some(c.(record := None, actor := Idle)) else None
    case Reconcile(now, effect) =>
      if !c.actor.CapReconciling? || !c.live.Unit? then None
      else
        var prior := c.actor.prior;
        var armed := prior.armed && now < prior.expiresAt && prior.generation in c.timers;
        Some(match ReconcileIntent(prior, c.live.quota, armed)
             case Reuse => c.(actor := CapReusing(prior))
             case RestoreUnprotected => SetQuota(boot, c, RestoreOnReconcile, prior, prior.original, effect, CapDropping)
             case DropUnapplied => c.(actor := CapDropping)
             case PreserveExternal => c.(actor := Idle))
    case SaveReuse(effect) =>
      if c.actor.CapReusing? then Some(Save(c, c.actor.prior.(appliedVerified := true), effect, Idle)) else None
    case DropIntent =>
      if c.actor.CapDropping? then Some(c.(record := None, actor := Idle)) else None
    case _ => None
  }

  function Min(a: int, b: int): int { if a <= b then a else b }

  /** `cap_prepared` on a unit without a record: intent, timer, armed mark, revalidation, write. */
  function CapApplyStep(boot: nat, c: Cell, a: Action): Option<Cell> {
    match a
    case BuildLease(nanos, now) =>
      if !c.actor.CapReading? || !c.live.Unit? then None
      else
        var original := c.live.quota;
        var applied := Min(original, c.actor.percent * 10_000);
        if original <= applied then Some(c.(actor := Idle))
        else Some(c.(actor := CapSaving(Lease(c.actor.invocation, original, applied, nanos, boot, false, false,
                                              now + c.actor.seconds))))
    case SaveIntent(effect) =>
      if c.actor.CapSaving? then Some(Save(c, c.actor.lease, effect, CapArming(c.actor.lease))) else None
    case ArmTimer(effect) =>
      if !c.actor.CapArming? then None
      else
        var lease := c.actor.lease;
        Some(match effect
             case Done => c.(timers := c.timers + {lease.generation}, actor := CapCheckingTimer(lease))
             case LostReply => c.(timers := c.timers + {lease.generation}, actor := Idle)
             case Rejected => c.(actor := Idle))
    case CheckTimer =>
      if !c.actor.CapCheckingTimer? then None
      else
        var lease := c.actor.lease;
        if lease.generation !in c.timers then Some(c.(actor := Idle))
        else Some(c.(seen := c.seen + {lease.generation}, actor := CapMarking(lease.(armed := true))))
    case MarkArmed(effect) =>
      if c.actor.CapMarking? then Some(Save(c, c.actor.lease, effect, CapValidating(c.actor.lease))) else None
    case Validate(ok) =>
      if c.actor.CapValidating? then Some(c.(actor := if ok then CapApplying(c.actor.lease) else Idle)) else None
    case ApplyQuota(now, effect) =>
      if !c.actor.CapApplying? || !c.live.Unit? then None
      else
        var lease := c.actor.lease;
        if c.live.quota != lease.original || c.live.invocation != lease.invocation || now >= lease.expiresAt then
          Some(c.(actor := Idle))
        else Some(SetQuota(boot, c, Apply, lease, lease.applied, effect, CapVerifying(lease)))
    case MarkVerified(effect) =>
      if c.actor.CapVerifying? then Some(Save(c, c.actor.lease.(appliedVerified := true), effect, Idle)) else None
    case _ => None
  }

  /** What the manager answers about ownership of `lease` right now. */
  function Ownership(boot: nat, live: Live, lease: Lease): Result<bool, LeaseError> {
    var loadState := if boot != lease.bootId then OtherState
                     else if live.Gone? then NotFound
                     else if live.loaded then Loaded else OtherState;
    var invocation := if loadState == Loaded then live.invocation else 0;
    LeaseIsOwned(lease.bootId, boot, lease.invocation, invocation, loadState)
  }

  /** `release_with`: compare-and-restore, then drop the record, then stop the timer. */
  function ReleaseStep(boot: nat, c: Cell, a: Action): Option<Cell> {
    match a
    case BeginRelease(generation) =>
      if !c.actor.Idle? then None
      else if c.record.None? || c.record.value.generation != generation then Some(c)
      else Some(c.(actor := ReleaseDeciding(c.record.value)))
    case DecideRelease(effect) =>
      if !c.actor.ReleaseDeciding? then None
      else
        var lease := c.actor.lease;
        match Ownership(boot, c.live, lease) {
          case Err(_) => Some(c.(actor := Idle))
          case Ok(owned) =>
            if owned && c.live.Unit? && c.live.quota == lease.applied then
              Some(SetQuota(boot, c, Restore, lease, lease.original, effect, ReleaseRemoving(lease)))
            else Some(c.(actor := ReleaseRemoving(lease)))
        }
    case RemoveRecord =>
      if c.actor.ReleaseRemoving? then Some(c.(record := None, actor := ReleaseStopping(c.actor.lease))) else None
    case StopTimer =>
      if !c.actor.ReleaseStopping? then None
      else
        var g := c.actor.lease.generation;
        Some(c.(timers := c.timers - {g}, stops := c.stops + [(g, c.record)], actor := Idle))
    case _ => None
  }

  function Step(boot: nat, c: Cell, a: Action): Option<Cell> {
    match a
    case Restart(_, _) | Unload | SetLoadState(_, _) | OperatorSet(_) | TimerEnds(_) | Abort | AbortPreCap =>
      EnvStep(c, a)
    case ReadInvocation(_, _) | ReadActiveState | LockForCap | RemoveStale | Reconcile(_, _) | SaveReuse(_)
       | DropIntent => CapStartStep(boot, c, a)
    case BeginRelease(_) | DecideRelease(_) | RemoveRecord | StopTimer => ReleaseStep(boot, c, a)
    case _ => CapApplyStep(boot, c, a)
  }
}
