/** One drain pass over the whole registry, as src/managed_oom.rs runs it against src/oom_restore.rs. */
module OomDrain {
  import opened Wrappers
  import opened OomJob

  datatype DrainError = Locked | NoJobRecord | RefusedAdmission | ConflictingRetirement

  /** What /proc and the cgroup show during one pass: whether the job's boundary and member list can be read, the
      listed pids, the members whose handling fails before anything is written (exempt, moved out of the job,
      replaced, unreadable, not writable), and those whose write takes effect and then cannot be verified. */
  datatype View = View(readable: bool, listed: seq<Process>, failing: set<Process>, unverified: set<Process>)

  // ---------------------------------------------------------------- what a pass does

  predicate FailsAt(p: Process, view: View, sentinel: Process, scores: map<Process, int>) {
    && p != sentinel && p in scores
    && (p in view.failing || (p in view.unverified && scores[p] == OOM_BIAS_TARGET))
  }

  /** The members a pass reaches in `todo`, up to and including the first whose write cannot be verified, or up to
      the first that fails before it is written. */
  function Reached(todo: seq<Process>, view: View, sentinel: Process, scores: map<Process, int>): set<Process> {
    if todo == [] then {}
    else
      var p, rest := todo[0], Reached(todo[1..], view, sentinel, scores);
      if p == sentinel || p !in scores then rest
      else if p in view.failing then {}
      else if FailsAt(p, view, sentinel, scores) then {p}
      else {p} + rest
  }

  predicate Fails(todo: seq<Process>, view: View, sentinel: Process, scores: map<Process, int>) {
    exists p :: p in todo && FailsAt(p, view, sentinel, scores)
  }

  /** `boundary` accepts the job and its member list can be read: a record whose baseline is not a supported one was
      loaded all the same, and is refused only here. */
  predicate Listable(view: View, job: Job) { view.readable && SupportedBaseline(job.identity.baseline) }

  /** The at most 256 pids of one pass; none when the list cannot be read. */
  function PassList(view: View, job: Job): seq<Process> {
    if !Listable(view, job) then [] else if |view.listed| <= PASS_LIMIT then view.listed else view.listed[..PASS_LIMIT]
  }

  function ReachedBy(view: View, job: Job, scores: map<Process, int>): set<Process> {
    Reached(PassList(view, job), view, job.identity.sentinel, scores)
  }

  predicate PassFails(view: View, job: Job, scores: map<Process, int>) {
    !Listable(view, job) || Fails(PassList(view, job), view, job.identity.sentinel, scores)
  }

  /** Exactly the reached members that read 250 now read the baseline. */
  ghost predicate RestoredExactly(before: map<Process, int>, after: map<Process, int>, reached: set<Process>, baseline: int) {
    && after.Keys == before.Keys
    && forall p :: p in before ==>
         after[p] == if p in reached && before[p] == OOM_BIAS_TARGET then baseline else before[p]
  }

  lemma {:induction false} ReachedIsListed(todo: seq<Process>, view: View, sentinel: Process, scores: map<Process, int>)
    ensures forall p :: p in Reached(todo, view, sentinel, scores) ==>
              p in todo && p != sentinel && p in scores && p !in view.failing
    decreases |todo|
  {
    if todo != [] {
      ReachedIsListed(todo[1..], view, sentinel, scores);
      assert forall p :: p in todo[1..] ==> p in todo;
    }
  }

  lemma {:induction false} ReachedAllUnlessAFailure(todo: seq<Process>, view: View, sentinel: Process,
                                                    scores: map<Process, int>)
    requires !Fails(todo, view, sentinel, scores)
    ensures forall p :: p in todo && p != sentinel && p in scores ==> p in Reached(todo, view, sentinel, scores)
    decreases |todo|
  {
    if todo != [] {
      assert forall p :: p in todo[1..] ==> p in todo;
      ReachedAllUnlessAFailure(todo[1..], view, sentinel, scores);
      assert todo[0] in todo && !FailsAt(todo[0], view, sentinel, scores);
    }
  }

  lemma FailsFirst(todo: seq<Process>, view: View, sentinel: Process, scores: map<Process, int>)
    requires todo != []
    ensures Fails(todo, view, sentinel, scores) <==>
            FailsAt(todo[0], view, sentinel, scores) || Fails(todo[1..], view, sentinel, scores)
  {
    assert forall p :: p in todo <==> p == todo[0] || p in todo[1..];
  }

  // ---------------------------------------------------------------- what is due, in the facts

  /** Of this boot, its own admission's, and certified by the sentinel. */
  predicate Proved(job: Job, debt: Debt, boot: nat) {
    && job.identity.bootId == boot && SameAdmission(job, debt.admission)
    && job.phase == Terminal && job.terminalProof
  }

  /** To be drained: of this boot and not certified, and asked for, overdue, or being drained; or another admission's. */
  predicate IsDue(job: Job, debt: Debt, boot: nat, force: bool, now: nat) {
    && job.identity.bootId == boot
    && if !SameAdmission(job, debt.admission) then true
       else !(job.phase == Terminal && job.terminalProof) && (force || now >= debt.deadline || debt.draining)
  }

  /** To be left until its deadline. */
  predicate Waits(job: Job, debt: Debt, boot: nat, force: bool, now: nat) {
    && job.identity.bootId == boot && SameAdmission(job, debt.admission)
    && !(job.phase == Terminal && job.terminalProof)
    && !force && now < debt.deadline && !debt.draining
  }

  /** The facts decide, and exactly one thing is to be done. */
  lemma OneFate(job: Job, debt: Debt, boot: nat, force: bool, now: nat)
    ensures var d := Decide(FactsOf(job, debt, boot, force || now >= debt.deadline));
      && (d == ArchivePreviousBoot <==> job.identity.bootId != boot)
      && (d == Retire <==> Proved(job, debt, boot))
      && (d == Drain <==> IsDue(job, debt, boot, force, now))
      && (d == Hold <==> Waits(job, debt, boot, force, now))
  {
  }

  /** The registry directory and the scores in /proc. */
  class Registry {
    const boot: nat
    var jobs: map<string, Job>
    var debts: map<string, Debt>
    var retired: map<string, Debt>
    var scores: map<Process, int>

    constructor (boot: nat, jobs: map<string, Job>, debts: map<string, Debt>, retired: map<string, Debt>,
                 scores: map<Process, int>)
      ensures this.boot == boot && this.jobs == jobs && this.debts == debts && this.retired == retired
           && this.scores == scores
    {
      this.boot, this.jobs, this.debts, this.retired, this.scores := boot, jobs, debts, retired, scores;
    }

    /** `restore` on a member that is still the one identified: compare with 250, write, read back. */
    method Restore(pid: Process, original: int, verified: bool) returns (ok: bool)
      requires pid in scores
      modifies this`scores
      ensures ok <==> old(scores)[pid] != OOM_BIAS_TARGET || verified
      ensures scores == if old(scores)[pid] == OOM_BIAS_TARGET then old(scores)[pid := original] else old(scores)
    {
      var current := scores[pid];
      if current != OOM_BIAS_TARGET { return true; }
      scores := scores[pid := original];
      return verified;
    }

    /** The member loop of a pass; true when it stopped at a failing member. */
    method RestoreMembers(job: Job, view: View) returns (failed: bool)
      requires job.identity.baseline != OOM_BIAS_TARGET
      modifies this`scores
      ensures failed <==> Fails(PassList(view, job), view, job.identity.sentinel, old(scores))
      ensures RestoredExactly(old(scores), scores, ReachedBy(view, job, old(scores)), job.identity.baseline)
    {
      var pids := PassList(view, job);
      var sentinel, baseline := job.identity.sentinel, job.identity.baseline;
      ghost var before := scores;
      var i := 0;
      ghost var done: set<Process> := {};
      while i < |pids|
        invariant 0 <= i <= |pids|
        invariant RestoredExactly(before, scores, done, baseline)
        invariant forall p :: p in done ==> p in before && !FailsAt(p, view, sentinel, before)
        invariant Reached(pids, view, sentinel, before) == done + Reached(pids[i..], view, sentinel, before)
        invariant Fails(pids, view, sentinel, before) <==> Fails(pids[i..], view, sentinel, before)
      {
        var pid := pids[i];
        assert pids[i..][1..] == pids[i + 1..] && pids[i..][0] == pid;
        FailsFirst(pids[i..], view, sentinel, before);
        i := i + 1;
        if pid == sentinel || pid !in scores { continue; }
        if pid in view.failing { return true; }
        var ok := Restore(pid, baseline, pid !in view.unverified);
        done := done + {pid};
        if !ok { return true; }
      }
      return false;
    }

    /** The part of `drain_one` that drains: the marks become durable, then the members are restored. */
    method DrainPass(id: string, view: View)
      requires id in jobs && id in debts
      modifies this
      ensures retired == old(retired) && jobs == old(jobs)[id := old(jobs)[id].(phase := Draining)]
      ensures debts == old(debts)[id := old(debts)[id].(draining := true, attempts := old(debts)[id].attempts + 1,
                                                        lastError := PassFails(view, old(jobs)[id], old(scores)))]
      ensures RestoredExactly(old(scores), scores, ReachedBy(view, old(jobs)[id], old(scores)),
                              old(jobs)[id].identity.baseline)
    {
      var debt := debts[id].(draining := true);
      debts := debts[id := debt];
      var job := jobs[id].(phase := Draining);
      jobs := jobs[id := job];
      var failed := true;
      if Listable(view, job) { failed := RestoreMembers(job, view); }
      debt := debt.(attempts := debt.attempts + 1, lastError := failed);
      debts := debts[id := debt];
    }

    /** `drain_one`: true while the debt is still outstanding. `locked` says that somebody else holds the lock. */
    method DrainOne(id: string, force: bool, now: nat, expected: Option<Job>, locked: bool, view: View)
      returns (r: Result<bool, DrainError>)
      modifies this
      // nothing but this generation's records, whatever happens
      ensures jobs - {id} == old(jobs) - {id} && debts - {id} == old(debts) - {id} && retired - {id} == old(retired) - {id}
      ensures id in jobs <==> id in old(jobs)
      // every way to fail, and only those
      ensures r == Err(Locked) <==> locked
      ensures r == Err(NoJobRecord) <==> !locked && id in old(debts) && id !in old(jobs)
      ensures r == Err(RefusedAdmission) <==>
                !locked && id in old(debts) && id in old(jobs) && expected.Some?
                && !(id == expected.value.identity.id && SameAdmission(old(jobs)[id], expected.value)
                     && SameAdmission(old(debts)[id].admission, expected.value))
      ensures r == Err(ConflictingRetirement) <==>
                !locked && id in old(debts) && id in old(jobs) && r != Err(RefusedAdmission)
                && Proved(old(jobs)[id], old(debts)[id], boot)
                && id in old(retired) && !SameAdmission(old(retired)[id].admission, old(debts)[id].admission)
      ensures r.Err? ==> jobs == old(jobs) && debts == old(debts) && retired == old(retired) && scores == old(scores)
      // and what becomes of the debt otherwise
      ensures r.Ok? && id !in old(debts) ==>
                !r.value && scores == old(scores) && jobs == old(jobs) && debts == old(debts) && retired == old(retired)
      ensures r.Ok? && id in old(debts) ==> id in jobs
      ensures r.Ok? && id in old(debts) && old(jobs)[id].identity.bootId != boot ==>
                !r.value && scores == old(scores) && jobs == old(jobs) && id !in debts && retired == old(retired)
      ensures r.Ok? && id in old(debts) && Proved(old(jobs)[id], old(debts)[id], boot) ==>
                !r.value && scores == old(scores) && jobs == old(jobs)
                && id !in debts && id in retired && retired[id] == old(debts)[id]
      ensures r.Ok? && id in old(debts) && Waits(old(jobs)[id], old(debts)[id], boot, force, now) ==>
                r.value && scores == old(scores) && jobs == old(jobs) && debts == old(debts) && retired == old(retired)
      ensures r.Ok? && id in old(debts) && IsDue(old(jobs)[id], old(debts)[id], boot, force, now) ==>
                var job := old(jobs)[id];
                var reached, failed := ReachedBy(view, job, old(scores)), PassFails(view, job, old(scores));
                && r.value
                && jobs[id] == job.(phase := Draining)
                && id in debts
                && debts[id] == old(debts)[id].(draining := true, attempts := old(debts)[id].attempts + 1, lastError := failed)
                && retired == old(retired)
                && RestoredExactly(old(scores), scores, reached, job.identity.baseline)
    {
      if locked { return Err(Locked); }
      if id !in debts { return Ok(false); }
      var debt := debts[id];
      if id !in jobs { return Err(NoJobRecord); }
      var job := jobs[id];
      if expected.Some? {
        if !(id == expected.value.identity.id && SameAdmission(job, expected.value)
             && SameAdmission(debt.admission, expected.value)) {
          return Err(RefusedAdmission);
        }
      }
      OneFate(job, debt, boot, force, now);
      match Decide(FactsOf(job, debt, boot, force || now >= debt.deadline)) {
        case Retire =>
          if id in retired && !SameAdmission(retired[id].admission, debt.admission) { return Err(ConflictingRetirement); }
          retired := retired[id := debts[id]];
          debts := debts - {id};
          return Ok(false);
        case ArchivePreviousBoot =>
          debts := debts - {id};
          return Ok(false);
        case Hold => return Ok(true);
        case Drain =>
      }
      DrainPass(id, view);
      return Ok(true);
    }
  }

  // ---------------------------------------------------------------- what follows for the members

  /** With the members readable, at most 256 of them and none failing, nobody listed keeps 250 but the sentinel. */
  lemma CleanPassLeavesNoMemberAtTarget(view: View, job: Job, before: map<Process, int>, after: map<Process, int>)
    requires |view.listed| <= PASS_LIMIT && !PassFails(view, job, before)
    requires RestoredExactly(before, after, ReachedBy(view, job, before), job.identity.baseline)
    ensures forall p :: p in view.listed && p in before && p != job.identity.sentinel ==> after[p] != OOM_BIAS_TARGET
    ensures forall p :: p in before && after[p] != before[p] ==>
              p in view.listed && p != job.identity.sentinel && before[p] == OOM_BIAS_TARGET && after[p] == job.identity.baseline
  {
    ReachedAllUnlessAFailure(view.listed, view, job.identity.sentinel, before);
    ReachedIsListed(view.listed, view, job.identity.sentinel, before);
  }

  /** One pass writes to none but the first 256 processes listed. */
  lemma PassReachesTheFirstListed(view: View, job: Job, scores: map<Process, int>, p: Process)
    requires p in ReachedBy(view, job, scores)
    ensures exists i :: 0 <= i < 256 && i < |view.listed| && view.listed[i] == p
  {
    ReachedIsListed(PassList(view, job), view, job.identity.sentinel, scores);
    var i :| 0 <= i < |PassList(view, job)| && PassList(view, job)[i] == p;
    assert view.listed[i] == p;
  }
}
