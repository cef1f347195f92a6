/** What the protocol of module ManagedOom does to the score a process gave itself: nobody but the admitted baseline is
  * overwritten, and what was overwritten comes back, unless the process had chosen the target score itself. */
module ManagedOomScores {
  import opened Wrappers
  import opened OomJob
  import opened ManagedOom
  import opened ManagedOomSafety
  import opened ManagedOomWitness

  function Baseline(c: Cell): int { c.admission.identity.baseline }

  /** A bias of the process is under way that may still write. */
  predicate Pending(a: Actor, p: Process) {
    match a
    case BiasSavingDebt(_, t, _, reading) => t == p && reading.score != OOM_BIAS_TARGET
    case BiasSavingJob(_, t, reading) => t == p && reading.score != OOM_BIAS_TARGET
    case BiasArming(t, reading) => t == p && reading.score != OOM_BIAS_TARGET
    case BiasWriting(t, _, _) => t == p
    case _ => false
  }

  /** While it lives, the process has its own score, or is biased and its own score was the baseline. */
  ghost predicate KeepsOwn(c: Cell, p: Process, own: int) {
    && p in c.used
    && (p in c.members ==>
          || c.members[p] == Member(own, false)
          || (c.members[p] == Member(OOM_BIAS_TARGET, true) && own == Baseline(c)))
    && (Pending(c.actor, p) ==> own == Baseline(c))
  }

  lemma BiasKeepsOwn(c: Cell, a: BiasAction, p: Process, own: int)
    requires Inv(c) && KeepsOwn(c, p, own) && own != OOM_BIAS_TARGET && BiasStep(c, a).Some?
    ensures KeepsOwn(BiasStep(c, a).value, p, own)
  {
  }

  lemma PassKeepsOwn(c: Cell, a: PassAction, p: Process, own: int)
    requires Inv(c) && KeepsOwn(c, p, own) && own != OOM_BIAS_TARGET && DrainPassStep(c, a).Some?
    ensures KeepsOwn(DrainPassStep(c, a).value, p, own)
  {
  }

  lemma EnvKeepsOwn(c: Cell, a: EnvAction, p: Process, own: int)
    requires KeepsOwn(c, p, own) && EnvStep(c, a).Some? && (a.Rescore? ==> a.process != p)
    ensures KeepsOwn(EnvStep(c, a).value, p, own)
  {
  }

  lemma ProbeKeepsOwn(c: Cell, a: ProbeAction, p: Process, own: int)
    requires KeepsOwn(c, p, own) && ProbeStep(c, a).Some?
    ensures KeepsOwn(ProbeStep(c, a).value, p, own)
  {
  }

  lemma DecideKeepsOwn(c: Cell, a: DecideAction, p: Process, own: int)
    requires KeepsOwn(c, p, own) && DrainDecideStep(c, a).Some?
    ensures KeepsOwn(DrainDecideStep(c, a).value, p, own)
  {
  }

  lemma StepKeepsOwn(c: Cell, a: Action, p: Process, own: int)
    requires Inv(c) && KeepsOwn(c, p, own) && own != OOM_BIAS_TARGET && Step(c, a).Some?
    requires a.Environment? && a.env.Rescore? ==> a.env.process != p
    ensures KeepsOwn(Step(c, a).value, p, own)
  {
    match a
    case Environment(e) => EnvKeepsOwn(c, e, p, own);
    case Probing(q) => ProbeKeepsOwn(c, q, p, own);
    case Certification(k) =>
    case Biasing(b) => BiasKeepsOwn(c, b, p, own);
    case Deciding(d) => DecideKeepsOwn(c, d, p, own);
    case Passing(q) => PassKeepsOwn(c, q, p, own);
  }

  /** Nobody else rescores the process during the run. */
  predicate LeftAlone(run: seq<Action>, p: Process) {
    forall i :: 0 <= i < |run| && run[i].Environment? && run[i].env.Rescore? ==> run[i].env.process != p
  }

  lemma {:induction false} RunKeepsOwn(c: Cell, run: seq<Action>, p: Process, own: int)
    requires Inv(c) && KeepsOwn(c, p, own) && own != OOM_BIAS_TARGET && Run(c, run).Some? && LeftAlone(run, p)
    ensures KeepsOwn(Run(c, run).value, p, own)
    decreases |run|
  {
    if run != [] {
      StepKeepsInv(c, run[0]);
      StepKeepsOwn(c, run[0], p, own);
      RunKeepsOwn(Step(c, run[0]).value, run[1..], p, own);
    }
  }

  /** Between any two moments in which nobody else rescores it, a process that is not biased at the first has at the
      second its own score again or the target score; and that only if its own was the admitted baseline. */
  lemma ScoresComeBack(c0: Cell, run: seq<Action>, more: seq<Action>, p: Process)
    requires Initial(c0) && Run(c0, run).Some? && Run(Run(c0, run).value, more).Some? && LeftAlone(more, p)
    requires var c := Run(c0, run).value;
      p in c.members && !c.members[p].biased && c.members[p].score != OOM_BIAS_TARGET && !Pending(c.actor, p)
    ensures var c, d := Run(c0, run).value, Run(Run(c0, run).value, more).value;
      p in d.members && d.members[p].score != c.members[p].score ==>
        d.members[p].score == OOM_BIAS_TARGET && d.members[p].biased && c.members[p].score == c0.job.identity.baseline
  {
    var c := Run(c0, run).value;
    RunKeepsInv(c0, run);
    AdmissionStays(c0, run);
    AdmissionStays(c, more);
    RunKeepsOwn(c, more, p, c.members[p].score);
  }

  lemma {:induction false} AdmissionStays(c: Cell, run: seq<Action>)
    requires Run(c, run).Some?
    ensures Run(c, run).value.admission == c.admission
    decreases |run|
  {
    if run != [] {
      StepKeepsAdmission(c, run[0]);
      AdmissionStays(Step(c, run[0]).value, run[1..]);
    }
  }

  lemma StepKeepsAdmission(c: Cell, a: Action)
    requires Step(c, a).Some?
    ensures Step(c, a).value.admission == c.admission
  {
  }

  /** The exception is real: a process that gave itself the target score while its job had a debt is drained to the
      baseline like a biased one. */
  lemma OwnTargetScoreIsLost(c0: Cell, child: Process, other: Process) returns (run: seq<Action>, c: Cell, d: Cell, a: Action)
    requires Initial(c0) && child !in c0.used && other !in c0.used && child != other
    ensures Run(c0, run) == Some(c) && Step(c, a) == Some(d)
    ensures other in c.members && c.members[other] == Member(OOM_BIAS_TARGET, false)
    ensures other in d.members && d.members[other].score == c0.job.identity.baseline
  {
    var c1;
    run, c1 := BiasSteps(c0, child, 0);
    var c2 := c1.(members := c1.members[other := c1.members[child]], used := c1.used + {other});
    run := Next(c0, run, c1, Environment(Fork(child, other)), c2);
    var c3 := c2.(members := c2.members[other := Member(OOM_BIAS_TARGET, false)]);
    run := Next(c0, run, c2, Environment(Rescore(other, OOM_BIAS_TARGET)), c3);
    var debt, job := c3.debt.value.(draining := true), c3.job.(phase := Draining);
    var c4 := c3.(actor := DrainSavingDebt(c3.job, debt));
    run := Next(c0, run, c3, Deciding(LockForDrain(true)), c4);
    var c5 := c3.(debt := Some(debt), actor := DrainSavingJob(job, debt));
    run := Next(c0, run, c4, Passing(SaveDraining(Done)), c5);
    var c6 := c5.(job := job, actor := DrainListing(job, debt));
    run := Next(c0, run, c5, Passing(SaveDrainingPhase(Done)), c6);
    c := c6.(actor := DrainRestoring(job, debt, [other]));
    run := Next(c0, run, c6, Passing(ListMembers([other])), c);
    a := Passing(RestoreNext(Done));
    d := Step(c, a).value;
  }
}
