/** Safety of the lifetime-debt protocol over every run. */
module ManagedOomSafety {
  import opened Wrappers
  import opened OomJob
  import opened ManagedOom

  // ---------------------------------------------------------------- what must hold

  /** Only the sentinel is left, and the guard never biased it. */
  ghost predicate OnlyCleanSentinel(c: Cell) {
    && (forall p :: p in c.members ==> p == SentinelId(c))
    && (forall p :: p in c.members ==> !c.members[p].biased)
  }

  /** A process biased by the guard or by inheritance is covered by a live debt of this admission. */
  ghost predicate BiasIsCovered(c: Cell) {
    forall p :: p in c.members && c.members[p].biased ==>
      c.debt.Some? && SameAdmission(c.debt.value.admission, c.job)
  }

  ghost predicate WriteIsCovered(w: BiasWrite) {
    && w.target != w.job.identity.sentinel
    && !w.job.terminalProof && w.job.phase == Active
    && w.debt.Some? && !w.debt.value.draining && SameAdmission(w.debt.value.admission, w.job)
    // only over the admitted baseline, with the sentinel alive, the recoverer armed and the debt running from then
    && w.reading.sentinel && w.reading.score == w.job.identity.baseline
    && w.armed
    && w.debt.value.deadline == w.reading.clock + LEASE_SECS
  }

  // ---------------------------------------------------------------- the invariant

  ghost predicate RecordInv(boot: nat, admission: Job, job: Job, debt: Option<Debt>, retired: Option<Debt>) {
    && SameAdmission(job, admission)
    && admission.identity.bootId <= boot
    && (job.phase == Terminal <==> job.terminalProof)
    && (debt.Some? ==> SameAdmission(debt.value.admission, job))
    && (debt.Some? && job.phase == Draining ==> debt.value.draining)
    && (debt.None? && boot == job.identity.bootId ==> job.phase == Admitted || job.phase == Terminal)
    && (retired.Some? ==> job.terminalProof)
  }

  /** What the lock holder still knows about the records. */
  ghost predicate ActorInv(boot: nat, job: Job, debt: Option<Debt>, actor: Actor) {
    match actor
    case Idle => true
    case BiasReading(held, target, sentinel) =>
      sentinel && held == job && !job.terminalProof && target != job.identity.sentinel && boot == job.identity.bootId
    case BiasSavingDebt(held, target, next, reading) =>
      && held == job && !job.terminalProof && target != job.identity.sentinel && boot == job.identity.bootId
      && SameAdmission(next.admission, job) && !next.draining && (debt.Some? ==> !debt.value.draining)
      && Supported(job, reading) && next.deadline == reading.clock + LEASE_SECS
    case BiasSavingJob(held, target, reading) =>
      && held == job.(phase := Active) && !job.terminalProof && target != job.identity.sentinel
      && boot == job.identity.bootId && debt.Some? && !debt.value.draining
      && Supported(job, reading) && debt.value.deadline == reading.clock + LEASE_SECS
    case BiasArming(target, reading) => BiasReady(job, debt, target, reading)
    case BiasWriting(target, reading, armed) =>
      BiasReady(job, debt, target, reading) && armed && reading.score == job.identity.baseline
    case Retiring(held) => debt == Some(held) && job.terminalProof
    case Archiving => debt.Some? && boot != job.identity.bootId
    case DrainSavingDebt(held, next) => held == job && DrainReady(job, debt, next)
    case DrainSavingJob(held, next) => held == job.(phase := Draining) && DrainReady(job, debt, next) && debt == Some(next)
    case DrainListing(held, next) => held == job && DrainReady(job, debt, next) && debt == Some(next)
    case DrainRestoring(held, next, _) => held == job && DrainReady(job, debt, next) && debt == Some(next)
    case DrainClosing(next) => DrainReady(job, debt, next)
    case Certifying(held) => held == job.(phase := Terminal, terminalProof := true)
  }

  ghost predicate BiasReady(job: Job, debt: Option<Debt>, target: Process, reading: Reading) {
    && job.phase == Active && !job.terminalProof && target != job.identity.sentinel
    && debt.Some? && !debt.value.draining
    && Supported(job, reading) && debt.value.deadline == reading.clock + LEASE_SECS
  }

  /** The score read is one a bias may go on from. */
  ghost predicate Supported(job: Job, reading: Reading) {
    reading.sentinel && (reading.score == job.identity.baseline || reading.score == OOM_BIAS_TARGET)
  }

  ghost predicate DrainReady(job: Job, debt: Option<Debt>, next: Debt) {
    !job.terminalProof && debt.Some? && next.draining && SameAdmission(next.admission, job)
  }

  ghost predicate LedgerInv(c: Cell) {
    RecordInv(c.boot, c.admission, c.job, c.debt, c.retired) && ActorInv(c.boot, c.job, c.debt, c.actor)
  }

  ghost predicate Alone(c: Cell) { forall p :: p in c.members ==> p == SentinelId(c) }

  ghost predicate GroupInv(c: Cell) {
    && SentinelId(c) in c.used && c.members.Keys <= c.used
    // nothing survives a reboot
    && (c.boot != c.admission.identity.bootId ==> c.members == map[])
    && (SentinelId(c) in c.members ==> !c.members[SentinelId(c)].biased)
    && (c.job.terminalProof || c.actor.Certifying? ==> Alone(c) && InFinalLoop(c.sentinel))
    && (c.sentinel.SawTasks? && c.sentinel.tasks == 1 ==> Alone(c))
    && (c.sentinel.Candidate? ==> Alone(c))
    && BiasIsCovered(c)
  }

  ghost predicate HistoryInv(c: Cell) {
    forall i :: 0 <= i < |c.biasWrites| ==> WriteIsCovered(c.biasWrites[i])
  }

  ghost predicate Inv(c: Cell) {
    LedgerInv(c) && GroupInv(c) && HistoryInv(c)
  }

  /** If the charged-task count leaves room for one process only, the living sentinel is it. */
  lemma OneTaskMeansAlone(c: Cell)
    requires SentinelId(c) in c.members && |c.members| <= 1
    ensures Alone(c)
  {
    forall p | p in c.members ensures p == SentinelId(c) {
      if p != SentinelId(c) {
        assert {p, SentinelId(c)} <= c.members.Keys;
        SubsetCount({p, SentinelId(c)}, c.members.Keys);
      }
    }
  }

  lemma EnvKeepsInv(c: Cell, a: EnvAction)
    requires Inv(c) && EnvStep(c, a).Some?
    ensures Inv(EnvStep(c, a).value)
  {
  }

  lemma ProbeKeepsLedger(c: Cell, a: ProbeAction)
    requires LedgerInv(c) && ProbeStep(c, a).Some?
    ensures LedgerInv(ProbeStep(c, a).value)
  {
  }

  lemma ProbeKeepsGroup(c: Cell, a: ProbeAction)
    requires Inv(c) && ProbeStep(c, a).Some?
    ensures GroupInv(ProbeStep(c, a).value)
  {
    if a.ReadTasks? && a.tasks == 1 { OneTaskMeansAlone(c); }
  }

  lemma CertifyKeepsInv(c: Cell, a: CertifyAction)
    requires Inv(c) && CertifyStep(c, a).Some?
    ensures Inv(CertifyStep(c, a).value)
  {
  }

  lemma BiasKeepsLedger(c: Cell, a: BiasAction)
    requires LedgerInv(c) && BiasStep(c, a).Some?
    ensures LedgerInv(BiasStep(c, a).value)
  {
  }

  lemma BiasKeepsGroup(c: Cell, a: BiasAction)
    requires LedgerInv(c) && GroupInv(c) && BiasStep(c, a).Some?
    ensures GroupInv(BiasStep(c, a).value)
  {
    if !a.WriteBias? { RecordsDoNotMoveTheGroup(c, BiasStep(c, a).value); }
  }

  lemma BiasKeepsHistory(c: Cell, a: BiasAction)
    requires LedgerInv(c) && HistoryInv(c) && BiasStep(c, a).Some?
    ensures HistoryInv(BiasStep(c, a).value)
  {
  }

  lemma DrainDecideKeepsInv(c: Cell, a: DecideAction)
    requires Inv(c) && DrainDecideStep(c, a).Some?
    ensures Inv(DrainDecideStep(c, a).value)
  {
  }

  lemma DrainSaveKeepsLedger(c: Cell, a: PassAction)
    requires LedgerInv(c) && DrainPassStep(c, a).Some? && (a.SaveDraining? || a.SaveDrainingPhase?)
    ensures LedgerInv(DrainPassStep(c, a).value)
  {
    match a
    case SaveDraining(effect) =>
    case SaveDrainingPhase(effect) =>
  }

  lemma DrainMembersKeepsLedger(c: Cell, a: PassAction)
    requires LedgerInv(c) && DrainPassStep(c, a).Some? && !a.SaveDraining? && !a.SaveDrainingPhase?
    ensures LedgerInv(DrainPassStep(c, a).value)
  {
    match a
    case ListMembers(_) =>
    case ListingFails =>
    case RestoreNext(effect) =>
    case CloseDrain(effect) =>
  }

  lemma DrainPassKeepsLedger(c: Cell, a: PassAction)
    requires LedgerInv(c) && DrainPassStep(c, a).Some?
    ensures LedgerInv(DrainPassStep(c, a).value)
  {
    if a.SaveDraining? || a.SaveDrainingPhase? { DrainSaveKeepsLedger(c, a); } else { DrainMembersKeepsLedger(c, a); }
  }

  /** Record changes that keep a live debt of the admission leave the group's part alone. */
  lemma RecordsDoNotMoveTheGroup(c: Cell, d: Cell)
    requires GroupInv(c)
    requires d.boot == c.boot && d.admission == c.admission && d.members == c.members && d.used == c.used
    requires d.sentinel == c.sentinel && d.job.terminalProof == c.job.terminalProof && !d.actor.Certifying?
    requires c.debt.Some? ==> d.debt.Some? && SameAdmission(d.debt.value.admission, d.job)
    ensures GroupInv(d)
  {
  }

  lemma RestoreKeepsGroup(c: Cell, a: PassAction)
    requires a.RestoreNext? && LedgerInv(c) && GroupInv(c) && DrainPassStep(c, a).Some?
    ensures GroupInv(DrainPassStep(c, a).value)
  {
  }

  lemma DrainPassKeepsGroup(c: Cell, a: PassAction)
    requires LedgerInv(c) && GroupInv(c) && DrainPassStep(c, a).Some?
    ensures GroupInv(DrainPassStep(c, a).value)
  {
    if a.RestoreNext? {
      RestoreKeepsGroup(c, a);
    } else {
      RecordsDoNotMoveTheGroup(c, DrainPassStep(c, a).value);
    }
  }

  lemma ProbeKeepsInv(c: Cell, a: ProbeAction)
    requires Inv(c) && ProbeStep(c, a).Some?
    ensures Inv(ProbeStep(c, a).value)
  {
    ProbeKeepsLedger(c, a);
    ProbeKeepsGroup(c, a);
  }

  lemma BiasKeepsInv(c: Cell, a: BiasAction)
    requires Inv(c) && BiasStep(c, a).Some?
    ensures Inv(BiasStep(c, a).value)
  {
    BiasKeepsLedger(c, a);
    BiasKeepsGroup(c, a);
    BiasKeepsHistory(c, a);
  }

  lemma DrainPassKeepsInv(c: Cell, a: PassAction)
    requires Inv(c) && DrainPassStep(c, a).Some?
    ensures Inv(DrainPassStep(c, a).value)
  {
    DrainPassKeepsLedger(c, a);
    DrainPassKeepsGroup(c, a);
  }

  lemma StepKeepsInv(c: Cell, a: Action)
    requires Inv(c) && Step(c, a).Some?
    ensures Inv(Step(c, a).value)
  {
    match a
    case Environment(e) => EnvKeepsInv(c, e);
    case Probing(p) => ProbeKeepsInv(c, p);
    case Certification(k) => CertifyKeepsInv(c, k);
    case Biasing(b) => BiasKeepsInv(c, b);
    case Deciding(d) => DrainDecideKeepsInv(c, d);
    case Passing(p) => DrainPassKeepsInv(c, p);
  }

  lemma {:induction false} RunKeepsInv(c: Cell, run: seq<Action>)
    requires Inv(c) && Run(c, run).Some?
    ensures Inv(Run(c, run).value)
    decreases |run|
  {
    if run != [] {
      StepKeepsInv(c, run[0]);
      RunKeepsInv(Step(c, run[0]).value, run[1..]);
    }
  }

  // ---------------------------------------------------------------- one step forward

  /** Phases advance, the admission is fixed, a proof and a started drain stay. */
  ghost predicate Forward(c: Cell, d: Cell) {
    && SameAdmission(c.job, d.job) && Rank(c.job.phase) <= Rank(d.job.phase)
    && (c.job.terminalProof ==> d.job.terminalProof)
    && c.boot <= d.boot
    && (Drained(c) ==> Drained(d))
  }

  /** The debt is draining, or it has left after a certificate or a reboot. */
  ghost predicate Drained(c: Cell) {
    if c.debt.Some? then c.debt.value.draining else c.job.terminalProof || c.boot != c.job.identity.bootId
  }

  lemma StepMovesForward(c: Cell, a: Action)
    requires LedgerInv(c) && Step(c, a).Some?
    ensures Forward(c, Step(c, a).value)
  {
    match a
    case Environment(e) =>
    case Probing(p) =>
    case Certification(k) =>
    case Biasing(b) => BiasMovesForward(c, b);
    case Deciding(d) =>
    case Passing(p) => PassMovesForward(c, p);
  }

  lemma BiasMovesForward(c: Cell, a: BiasAction)
    requires LedgerInv(c) && BiasStep(c, a).Some?
    ensures Forward(c, BiasStep(c, a).value)
  {
  }

  lemma PassMovesForward(c: Cell, a: PassAction)
    requires LedgerInv(c) && DrainPassStep(c, a).Some?
    ensures Forward(c, DrainPassStep(c, a).value)
  {
  }

  // ---------------------------------------------------------------- theorems over every run

  lemma {:induction false} RunMovesForward(c: Cell, run: seq<Action>)
    requires Inv(c) && Run(c, run).Some?
    ensures Forward(c, Run(c, run).value)
    decreases |run|
  {
    if run != [] {
      StepKeepsInv(c, run[0]);
      StepMovesForward(c, run[0]);
      RunMovesForward(Step(c, run[0]).value, run[1..]);
    }
  }

  /** Phases only advance, draining is absorbing, and the admission never changes, between any two
      moments of any run. */
  lemma RecordsOnlyMoveForward(c0: Cell, run: seq<Action>, more: seq<Action>)
    requires Initial(c0) && Run(c0, run).Some? && Run(Run(c0, run).value, more).Some?
    ensures Forward(Run(c0, run).value, Run(Run(c0, run).value, more).value)
  {
    RunKeepsInv(c0, run);
    RunMovesForward(Run(c0, run).value, more);
  }

  /** Once the record carries the terminal proof, every later state holds at most the sentinel, unbiased. */
  lemma TerminalProofMeansOnlyTheSentinel(c0: Cell, run: seq<Action>, more: seq<Action>)
    requires Initial(c0) && Run(c0, run).Some? && Run(Run(c0, run).value, more).Some?
    requires Run(c0, run).value.job.terminalProof
    ensures OnlyCleanSentinel(Run(Run(c0, run).value, more).value)
  {
    RunKeepsInv(c0, run);
    RunKeepsInv(Run(c0, run).value, more);
    RunMovesForward(Run(c0, run).value, more);
  }

  lemma BiasedProcessesAreCovered(c0: Cell, run: seq<Action>)
    requires Initial(c0) && Run(c0, run).Some?
    ensures BiasIsCovered(Run(c0, run).value)
  {
    RunKeepsInv(c0, run);
  }

  /** A retired debt, whatever happens afterwards, leaves no biased process behind. */
  lemma RetiredDebtLeavesNoBias(c0: Cell, run: seq<Action>)
    requires Initial(c0) && Run(c0, run).Some? && Run(c0, run).value.retired.Some?
    ensures var c := Run(c0, run).value; c.job.terminalProof && OnlyCleanSentinel(c)
  {
    RunKeepsInv(c0, run);
  }

  /** Every bias write happened under a durable, undrained debt of an active, uncertified job, over the score of its
      admission, with its sentinel alive, the recoverer armed and the debt due so many seconds after the clock was read. */
  lemma EveryBiasWriteIsCovered(c0: Cell, run: seq<Action>, i: nat)
    requires Initial(c0) && Run(c0, run).Some? && i < |Run(c0, run).value.biasWrites|
    ensures WriteIsCovered(Run(c0, run).value.biasWrites[i])
  {
    RunKeepsInv(c0, run);
  }

  /** The sentinel finds itself a candidate only on the full evidence, read in one round: itself the only member listed,
      one task charged, and one thread of its own. Whatever else it reads sends it round again. */
  lemma CandidateOnlyOnFullEvidence(c: Cell, threads: nat)
    requires ProbeStep(c, CountOwnThreads(threads)).Some?
    ensures c.sentinel.SawTasks?
    ensures ProbeStep(c, CountOwnThreads(threads)).value.sentinel
         == if c.sentinel.members == [SentinelId(c)] && c.sentinel.tasks == 1 && threads == 1 then Candidate else Looping
  {
  }
}
