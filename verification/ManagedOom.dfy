/** The lifetime-debt protocol for OOM bias: src/managed_oom.rs and the certification loop of
  * src/oom_job.rs, for one registered job.
  *
  * The cgroup is a map of live processes that fork (a child inherits the score), exit and are
  * rescored from outside, between any two steps of bias, drain and certification.  Nothing enters the
  * group from outside and the sentinel does not fork in its final loop.  A lock holder may
  * stop at any step, and a save may report failure with or without its effect.
  */
module ManagedOom {
  import opened Wrappers
  import opened OomJob

  /** `biased` is history: the score 250 is in force because the guard wrote it here or in an ancestor. */
  datatype Member = Member(score: int, biased: bool)

  /** The sentinel: it launches one command, waits for it, then loops for the terminal evidence. */
  datatype Sentinel =
    | Launching
    | Waiting
    | Looping
    | SawMembers(members: seq<Process>)
    | SawTasks(members: seq<Process>, tasks: nat)
    | Candidate

  /** What one bias read before it wrote anything: the score of the process, the clock, and whether the job's
    * sentinel lived when the lock was taken. */
  datatype Reading = Reading(score: int, clock: nat, sentinel: bool)

  datatype Actor =
    | Idle
    | BiasReading(job: Job, target: Process, sentinel: bool)
    | BiasSavingDebt(job: Job, target: Process, debt: Debt, reading: Reading)
    | BiasSavingJob(job: Job, target: Process, reading: Reading)
    | BiasArming(target: Process, reading: Reading)
    | BiasWriting(target: Process, reading: Reading, armed: bool)
    | Retiring(debt: Debt)
    | Archiving
    | DrainSavingDebt(job: Job, debt: Debt)
    | DrainSavingJob(job: Job, debt: Debt)
    | DrainListing(job: Job, debt: Debt)
    | DrainRestoring(job: Job, debt: Debt, todo: seq<Process>)
    | DrainClosing(debt: Debt)
    | Certifying(job: Job)

  /** A bias write, with what was read before it, whether the recoverer was armed, and the records that were durable
    * when it was issued. */
  datatype BiasWrite = BiasWrite(target: Process, reading: Reading, armed: bool, job: Job, debt: Option<Debt>)

  datatype Cell = Cell(
    boot: nat,
    members: map<Process, Member>,
    used: set<Process>,
    sentinel: Sentinel,
    admission: Job,
    job: Job,
    debt: Option<Debt>,
    retired: Option<Debt>,
    actor: Actor,
    biasWrites: seq<BiasWrite>)

  datatype Effect = Done | LostReply | Rejected

  datatype EnvAction =
    | Fork(parent: Process, child: Process)
    | Exit(process: Process)
    | Rescore(process: Process, score: int)
    | Reboot
    | Abort

  /** The sentinel without the lock. */
  datatype ProbeAction =
    | Spawn(child: Process)
    | CommandEnded
    | ReadMembers(seen: seq<Process>)
    | ReadTasks(tasks: nat)
    | CountOwnThreads(threads: nat)

  datatype CertifyAction = LockForCertificate | SaveCertificate(effect: Effect)

  /** `bias_inner`. */
  datatype BiasAction =
    | LockForBias(target: Process)
    | ReadScore(now: nat)
    | SaveBiasDebt(effect: Effect)
    | SaveActive(effect: Effect)
    | ArmRecoverer(ok: bool)
    | WriteBias

  /** `drain_one` up to its decision, and the two ways a debt leaves. */
  datatype DecideAction = LockForDrain(deadlinePassed: bool) | RetireDebt(effect: Effect) | ArchiveDebt(effect: Effect)

  /** `drain_one` once the decision is to drain. */
  datatype PassAction =
    | SaveDraining(effect: Effect)
    | SaveDrainingPhase(effect: Effect)
    | ListMembers(listed: seq<Process>)
    | ListingFails
    | RestoreNext(effect: Effect)
    | CloseDrain(effect: Effect)

  datatype Action =
    | Environment(env: EnvAction)
    | Probing(probe: ProbeAction)
    | Certification(certify: CertifyAction)
    | Biasing(bias: BiasAction)
    | Deciding(decide: DecideAction)
    | Passing(pass: PassAction)

  predicate InFinalLoop(s: Sentinel) { s.Looping? || s.SawMembers? || s.SawTasks? || s.Candidate? }

  function SentinelId(c: Cell): Process { c.admission.identity.sentinel }

  function EnvStep(c: Cell, a: EnvAction): Option<Cell> {
    match a
    case Fork(parent, child) =>
      if parent in c.members && child !in c.used && parent != SentinelId(c)
      then Some(c.(members := c.members[child := c.members[parent]], used := c.used + {child})) else None
    case Exit(p) => Some(c.(members := c.members - {p}))
    case Rescore(p, score) =>
      if p in c.members then Some(c.(members := c.members[p := Member(score, false)])) else None
    case Reboot => Some(c.(boot := c.boot + 1, members := map[], actor := Idle))
    case Abort => Some(c.(actor := Idle))
  }

  /** The final loop of `enter` up to its evidence: every action needs a living sentinel. */
  function ProbeStep(c: Cell, a: ProbeAction): Option<Cell> {
    if SentinelId(c) !in c.members then None
    else
      match a
      case Spawn(child) =>
        if c.sentinel.Launching? && child !in c.used
        then Some(c.(members := c.members[child := c.members[SentinelId(c)]], used := c.used + {child},
                     sentinel := Waiting)) else None
      case CommandEnded =>
        if c.sentinel.Launching? || c.sentinel.Waiting? then Some(c.(sentinel := Looping)) else None
      case ReadMembers(seen) =>
        // a scan of cgroup.procs is not atomic: it may return any list
        if InFinalLoop(c.sentinel) then Some(c.(sentinel := SawMembers(seen))) else None
      case ReadTasks(tasks) =>
        // the charged-task count is atomic and charges every live process
        if c.sentinel.SawMembers? && |c.members| <= tasks
        then Some(c.(sentinel := SawTasks(c.sentinel.members, tasks))) else None
      case CountOwnThreads(threads) =>
        if !c.sentinel.SawTasks? then None
        else if TerminalCandidate(SentinelId(c), c.sentinel.members, c.sentinel.tasks, threads)
        then Some(c.(sentinel := Candidate))
        else Some(c.(sentinel := Looping))
  }

  /** The locked half of `enter`: re-read the record, then publish the terminal proof. */
  function CertifyStep(c: Cell, a: CertifyAction): Option<Cell> {
    if SentinelId(c) !in c.members then None
    else
      match a
      case LockForCertificate =>
        if !c.sentinel.Candidate? || !c.actor.Idle? then None
        else if !SameAdmission(c.job, c.admission) then Some(c.(sentinel := Looping))
        else Some(c.(actor := Certifying(c.job.(phase := Terminal, terminalProof := true))))
      case SaveCertificate(effect) =>
        if c.actor.Certifying? then Some(SaveJob(c, c.actor.job, effect, Idle).(sentinel := Looping)) else None
  }

  function SaveJob(c: Cell, job: Job, effect: Effect, next: Actor): Cell {
    match effect
    case Done => c.(job := job, actor := next)
    case LostReply => c.(job := job, actor := Idle)
    case Rejected => c.(actor := Idle)
  }

  function SaveDebt(c: Cell, debt: Debt, effect: Effect, next: Actor): Cell {
    match effect
    case Done => c.(debt := Some(debt), actor := next)
    case LostReply => c.(debt := Some(debt), actor := Idle)
    case Rejected => c.(actor := Idle)
  }

  function BiasStep(c: Cell, a: BiasAction): Option<Cell> {
    match a
    case LockForBias(target) =>
      if !c.actor.Idle? then None
      else if c.job.terminalProof || c.job.phase == Terminal || c.job.identity.bootId != c.boot
           || target == c.job.identity.sentinel || c.job.identity.sentinel !in c.members || target !in c.members
      then Some(c)
      else Some(c.(actor := BiasReading(c.job, target, c.job.identity.sentinel in c.members)))
    case ReadScore(now) =>
      if !c.actor.BiasReading? then None
      else
        var job, target := c.actor.job, c.actor.target;
        if target !in c.members
           || (c.debt.Some? && (!SameAdmission(c.debt.value.admission, job) || c.debt.value.draining))
           || !(c.members[target].score == job.identity.baseline || (c.members[target].score == OOM_BIAS_TARGET && c.debt.Some?))
        then Some(c.(actor := Idle))
        else
          var debt := if c.debt.Some? then c.debt.value else Debt(job, 0, false, 0, false);
          Some(c.(actor := BiasSavingDebt(job, target, debt.(deadline := now + LEASE_SECS),
                                          Reading(c.members[target].score, now, c.actor.sentinel))))
    case SaveBiasDebt(effect) =>
      if !c.actor.BiasSavingDebt? then None
      else Some(SaveDebt(c, c.actor.debt, effect,
                         BiasSavingJob(c.actor.job.(phase := Active), c.actor.target, c.actor.reading)))
    case SaveActive(effect) =>
      if !c.actor.BiasSavingJob? then None
      else Some(SaveJob(c, c.actor.job, effect, BiasArming(c.actor.target, c.actor.reading)))
    case ArmRecoverer(ok) =>
      if !c.actor.BiasArming? then None
      else Some(c.(actor := if ok && c.actor.reading.score != OOM_BIAS_TARGET
                            then BiasWriting(c.actor.target, c.actor.reading, ok) else Idle))
    case WriteBias =>
      if !c.actor.BiasWriting? then None
      else
        var target := c.actor.target;
        if target !in c.members then Some(c.(actor := Idle))
        else Some(c.(members := c.members[target := Member(OOM_BIAS_TARGET, true)], actor := Idle,
                     biasWrites := c.biasWrites + [BiasWrite(target, c.actor.reading, c.actor.armed, c.job, c.debt)]))
  }

  function Take(s: seq<Process>, n: nat): seq<Process> { if |s| <= n then s else s[..n] }

  /** `drain_one` up to the durable `draining` mark, and the two ways a debt leaves. */
  function DrainDecideStep(c: Cell, a: DecideAction): Option<Cell> {
    match a
    case LockForDrain(deadlinePassed) =>
      if !c.actor.Idle? then None
      else if c.debt.None? then Some(c)
      else
        var debt := c.debt.value;
        Some(match Decide(FactsOf(c.job, debt, c.boot, deadlinePassed))
             case Retire => c.(actor := Retiring(debt))
             case ArchivePreviousBoot => c.(actor := Archiving)
             case Hold => c
             case Drain => c.(actor := DrainSavingDebt(c.job, debt.(draining := true))))
    case RetireDebt(effect) =>
      if !c.actor.Retiring? then None
      else if effect == Rejected || c.debt.None? || !SameAdmission(c.debt.value.admission, c.actor.debt.admission)
           || (c.retired.Some? && !SameAdmission(c.retired.value.admission, c.actor.debt.admission))
      then Some(c.(actor := Idle))
      else Some(c.(retired := c.debt, debt := None, actor := Idle))
    case ArchiveDebt(effect) =>
      if !c.actor.Archiving? then None
      else Some(if effect == Rejected then c.(actor := Idle) else c.(debt := None, actor := Idle))
  }

  /** `drain_one` once the decision is to drain. */
  function DrainPassStep(c: Cell, a: PassAction): Option<Cell> {
    match a
    case SaveDraining(effect) =>
      if !c.actor.DrainSavingDebt? then None
      else Some(SaveDebt(c, c.actor.debt, effect, DrainSavingJob(c.actor.job.(phase := Draining), c.actor.debt)))
    case SaveDrainingPhase(effect) =>
      if !c.actor.DrainSavingJob? then None
      else Some(SaveJob(c, c.actor.job, effect, DrainListing(c.actor.job, c.actor.debt)))
    case ListMembers(listed) =>
      if !c.actor.DrainListing? then None
      else Some(c.(actor := DrainRestoring(c.actor.job, c.actor.debt, Take(listed, PASS_LIMIT))))
    case ListingFails =>
      // the job's boundary or its member list could not be read
      if !c.actor.DrainListing? then None
      else Some(c.(actor := DrainClosing(c.actor.debt.(lastError := true))))
    case RestoreNext(effect) =>
      if !c.actor.DrainRestoring? then None
      else if c.actor.todo == [] then Some(c.(actor := DrainClosing(c.actor.debt.(lastError := false))))
      else
        var p, rest := c.actor.todo[0], c.actor.todo[1..];
        if p == c.actor.job.identity.sentinel || p !in c.members then Some(c.(actor := c.actor.(todo := rest)))
        else
          // exempt, moved or unreadable members, and a failed read-back, end the pass with an error
          var next := if effect == Done then c.actor.(todo := rest) else DrainClosing(c.actor.debt.(lastError := true));
          if effect == Rejected || c.members[p].score != OOM_BIAS_TARGET then Some(c.(actor := next))
          else Some(c.(members := c.members[p := Member(c.actor.job.identity.baseline, false)], actor := next))
    case CloseDrain(effect) =>
      if !c.actor.DrainClosing? then None
      else Some(SaveDebt(c, c.actor.debt.(attempts := c.actor.debt.attempts + 1), effect, Idle))
  }

  function Step(c: Cell, a: Action): Option<Cell> {
    match a
    case Environment(e) => EnvStep(c, e)
    case Probing(p) => ProbeStep(c, p)
    case Certification(k) => CertifyStep(c, k)
    case Biasing(b) => BiasStep(c, b)
    case Deciding(d) => DrainDecideStep(c, d)
    case Passing(p) => DrainPassStep(c, p)
  }

  function Run(c: Cell, run: seq<Action>): Option<Cell>
    decreases |run|
  {
    if run == [] then Some(c)
    else
      match Step(c, run[0])
      case None => None
      case Some(next) => Run(next, run[1..])
  }

  lemma RunOne(c: Cell, a: Action, next: Cell, rest: seq<Action>)
    requires Step(c, a) == Some(next)
    ensures Run(c, [a] + rest) == Run(next, rest)
  {
    assert ([a] + rest)[1..] == rest;
  }

  lemma {:induction false} RunSnoc(c: Cell, actions: seq<Action>, a: Action)
    requires Run(c, actions).Some?
    ensures Run(c, actions + [a]) == Step(Run(c, actions).value, a)
    decreases |actions|
  {
    var all := actions + [a];
    if actions == [] {
      assert all == [a] + [];
      if Step(c, a).Some? { RunOne(c, a, Step(c, a).value, []); }
    } else {
      var next := Step(c, actions[0]).value;
      RunSnoc(next, actions[1..], a);
      assert all == [actions[0]] + (actions[1..] + [a]);
      RunOne(c, actions[0], next, actions[1..] + [a]);
    }
  }

  /** A job right after its admission became durable, before the first workload instruction. */
  ghost predicate Initial(c: Cell) {
    && c.job == c.admission && c.job.phase == Admitted && !c.job.terminalProof && c.job.identity.bootId == c.boot
    && SupportedBaseline(c.job.identity.baseline)
    && c.members == map[SentinelId(c) := Member(c.job.identity.baseline, false)]
    && c.used == {SentinelId(c)} && c.sentinel.Launching?
    && c.debt.None? && c.retired.None? && c.actor.Idle? && c.biasWrites == []
  }
}
