/** The protocol of module ManagedOom gets somewhere: after every admission there is a run in which a bias is
  * written, the job ends, its sentinel proves that, and the debt is retired. */
module ManagedOomWitness {
  import opened Wrappers
  import opened OomJob
  import opened ManagedOom

  /** The run leads to the cell. */
  ghost predicate Leads(c0: Cell, run: seq<Action>, c: Cell) { Run(c0, run) == Some(c) }

  lemma Next(c0: Cell, run: seq<Action>, c: Cell, a: Action, next: Cell) returns (longer: seq<Action>)
    requires Leads(c0, run, c) && Step(c, a) == Some(next)
    ensures Leads(c0, longer, next)
  {
    longer := run + [a];
    RunSnoc(c0, run, a);
  }

  /** The command is started, asked to be biased, and biased. */
  lemma BiasSteps(c0: Cell, child: Process, now: nat) returns (run: seq<Action>, c: Cell)
    requires Initial(c0) && child !in c0.used
    ensures Leads(c0, run, c)
    ensures var job := c0.job.(phase := Active);
            var debt := Some(Debt(c0.job, now + 120, false, 0, false));
            c == c0.(sentinel := Waiting, used := c0.used + {child}, job := job, debt := debt,
                     members := c0.members[child := Member(OOM_BIAS_TARGET, true)],
                     biasWrites := [BiasWrite(child, Reading(c0.job.identity.baseline, now, true), true, job, debt)])
  {
    var debt, active := Debt(c0.job, now + LEASE_SECS, false, 0, false), c0.job.(phase := Active);
    var reading := Reading(c0.job.identity.baseline, now, true);
    var baseline := Member(c0.job.identity.baseline, false);
    var c1 := c0.(members := c0.members[child := baseline], used := c0.used + {child}, sentinel := Waiting);
    run := Next(c0, [], c0, Probing(Spawn(child)), c1);
    var c2 := c1.(actor := BiasReading(c0.job, child, true));
    run := Next(c0, run, c1, Biasing(LockForBias(child)), c2);
    var c3 := c1.(actor := BiasSavingDebt(c0.job, child, debt, reading));
    run := Next(c0, run, c2, Biasing(ReadScore(now)), c3);
    var c4 := c1.(debt := Some(debt), actor := BiasSavingJob(active, child, reading));
    run := Next(c0, run, c3, Biasing(SaveBiasDebt(Done)), c4);
    var c5 := c4.(job := active, actor := BiasArming(child, reading));
    run := Next(c0, run, c4, Biasing(SaveActive(Done)), c5);
    var c6 := c5.(actor := BiasWriting(child, reading, true));
    run := Next(c0, run, c5, Biasing(ArmRecoverer(true)), c6);
    c := BiasStep(c6, WriteBias).value;
    assert c.members == c0.members[child := Member(OOM_BIAS_TARGET, true)];
    run := Next(c0, run, c6, Biasing(WriteBias), c);
  }

  /** A process that reads the target score already is not written again: the debt is only renewed. */
  lemma SecondRequestOnlyRenews(c0: Cell, before: seq<Action>, c: Cell, target: Process, now: nat)
    returns (run: seq<Action>, d: Cell)
    requires Leads(c0, before, c) && c.actor.Idle? && c.job.identity.sentinel in c.members && target in c.members
    requires target != c.job.identity.sentinel && c.members[target].score == OOM_BIAS_TARGET
    requires c.job.phase == Active && !c.job.terminalProof && c.job.identity.bootId == c.boot
    requires c.debt.Some? && SameAdmission(c.debt.value.admission, c.job) && !c.debt.value.draining
    ensures Leads(c0, run, d) && d == c.(debt := Some(c.debt.value.(deadline := now + 120)))
  {
    var debt, reading := c.debt.value.(deadline := now + LEASE_SECS), Reading(OOM_BIAS_TARGET, now, true);
    var c1 := c.(actor := BiasReading(c.job, target, true));
    run := Next(c0, before, c, Biasing(LockForBias(target)), c1);
    var c2 := c.(actor := BiasSavingDebt(c.job, target, debt, reading));
    run := Next(c0, run, c1, Biasing(ReadScore(now)), c2);
    var c3 := c.(debt := Some(debt), actor := BiasSavingJob(c.job, target, reading));
    run := Next(c0, run, c2, Biasing(SaveBiasDebt(Done)), c3);
    var c4 := c.(debt := Some(debt), actor := BiasArming(target, reading));
    run := Next(c0, run, c3, Biasing(SaveActive(Done)), c4);
    d := c.(debt := Some(debt));
    run := Next(c0, run, c4, Biasing(ArmRecoverer(true)), d);
  }

  /** The command has ended and the sentinel, alone, finds the evidence for its proof. */
  lemma EvidenceSteps(c0: Cell, before: seq<Action>, c: Cell) returns (run: seq<Action>, d: Cell)
    requires Leads(c0, before, c) && c.sentinel.Waiting?
    requires c.members.Keys == {SentinelId(c)}
    ensures Leads(c0, run, d) && d == c.(sentinel := Candidate)
  {
    var seen := [SentinelId(c)];
    assert |c.members| == |c.members.Keys| == 1;
    var c1, c2, c3 := c.(sentinel := Looping), c.(sentinel := SawMembers(seen)), c.(sentinel := SawTasks(seen, 1));
    d := c.(sentinel := Candidate);
    run := Next(c0, before, c, Probing(CommandEnded), c1);
    run := Next(c0, run, c1, Probing(ReadMembers(seen)), c2);
    run := Next(c0, run, c2, Probing(ReadTasks(1)), c3);
    run := Next(c0, run, c3, Probing(CountOwnThreads(1)), d);
  }

  /** The proof is published and the debt retired. */
  lemma RetireSteps(c0: Cell, before: seq<Action>, c: Cell) returns (run: seq<Action>, d: Cell)
    requires Leads(c0, before, c) && c.sentinel.Candidate? && c.actor.Idle? && SentinelId(c) in c.members
    requires SameAdmission(c.job, c.admission) && c.job.identity.bootId == c.boot && c.retired.None?
    requires c.debt.Some? && SameAdmission(c.job, c.debt.value.admission)
    ensures Leads(c0, run, d)
    ensures d == c.(sentinel := Looping, job := c.job.(phase := Terminal, terminalProof := true), retired := c.debt, debt := None)
  {
    var proved := c.job.(phase := Terminal, terminalProof := true);
    var c1 := c.(actor := Certifying(proved));
    run := Next(c0, before, c, Certification(LockForCertificate), c1);
    var c2 := c.(sentinel := Looping, job := proved);
    run := Next(c0, run, c1, Certification(SaveCertificate(Done)), c2);
    var c3 := c2.(actor := Retiring(c.debt.value));
    run := Next(c0, run, c2, Deciding(LockForDrain(false)), c3);
    d := c2.(retired := c.debt, debt := None);
    run := Next(c0, run, c3, Deciding(RetireDebt(Done)), d);
  }

  /** From every admission: a process biased by the guard, and later a retired debt with the sentinel alone. */
  lemma DebtCanBeIncurredAndRetired(c0: Cell, child: Process, now: nat) returns (run: seq<Action>, c: Cell)
    requires Initial(c0) && child !in c0.used
    ensures Run(c0, run) == Some(c)
    ensures |c.biasWrites| == 1 && c.biasWrites[0].target == child
    ensures c.debt.None? && c.retired == c.biasWrites[0].debt && c.job.terminalProof && c.members == c0.members
  {
    var biased;
    run, biased := BiasSteps(c0, child, now);
    var gone := biased.(members := c0.members);
    assert biased.members - {child} == c0.members;
    run := Next(c0, run, biased, Environment(Exit(child)), gone);
    var proved;
    run, proved := EvidenceSteps(c0, run, gone);
    run, c := RetireSteps(c0, run, proved);
  }
}
