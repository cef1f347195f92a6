/** A drain pass of module OomDrain is a run of the protocol of module ManagedOom, so the safety of that protocol
  * covers it. */
module OomDrainRun {
  import opened Wrappers
  import opened OomJob
  import opened ManagedOom
  import opened OomDrain

  function Scores(members: map<Process, Member>): map<Process, int> { map p | p in members :: members[p].score }

  /** The cell while a pass restores what is left in `todo`. */
  function Restoring(c: Cell, job: Job, debt: Debt, todo: seq<Process>): Cell { c.(actor := DrainRestoring(job, debt, todo)) }

  /** What becomes of one member. */
  function Restored(c: Cell, p: Process, baseline: int): Cell
    requires p in c.members
  {
    if c.members[p].score == OOM_BIAS_TARGET then c.(members := c.members[p := Member(baseline, false)]) else c
  }

  /** The scores are those of a pass over `todo`, and the cell is about to close with this result. */
  ghost predicate PassDone(c: Cell, d: Cell, job: Job, debt: Debt, todo: seq<Process>, view: View) {
    var sentinel := job.identity.sentinel;
    && d == c.(members := d.members, actor := DrainClosing(debt.(lastError := Fails(todo, view, sentinel, Scores(c.members)))))
    && RestoredExactly(Scores(c.members), Scores(d.members), Reached(todo, view, sentinel, Scores(c.members)),
                       job.identity.baseline)
  }

  /** Skipping a member, or restoring it, leaves the rest of the pass to do. */
  lemma PassDoneAfterOne(c: Cell, next: Cell, d: Cell, job: Job, debt: Debt, todo: seq<Process>, view: View)
    requires todo != [] && job.identity.baseline != OOM_BIAS_TARGET
    requires var p := todo[0];
             if p == job.identity.sentinel || p !in c.members then next == c
             else !FailsAt(p, view, job.identity.sentinel, Scores(c.members)) && next == Restored(c, p, job.identity.baseline)
    requires PassDone(next, d, job, debt, todo[1..], view)
    ensures PassDone(c, d, job, debt, todo, view)
  {
    var sentinel, rest := job.identity.sentinel, todo[1..];
    var before, between := Scores(c.members), Scores(next.members);
    SameReach(rest, view, sentinel, before, between, job.identity.baseline);
    FailsFirst(todo, view, sentinel, before);
  }

  /** Restoring members that are verified changes neither whom the rest of a pass reaches nor whether it fails,
      as far as members that read 250 are concerned. */
  lemma {:induction false} SameReach(todo: seq<Process>, view: View, sentinel: Process, before: map<Process, int>,
                                     between: map<Process, int>, baseline: int)
    requires between.Keys == before.Keys && baseline != OOM_BIAS_TARGET
    requires forall p :: p in before ==>
               (between[p] == before[p] || (p != sentinel && between[p] == baseline && !FailsAt(p, view, sentinel, before)))
    ensures Reached(todo, view, sentinel, between) == Reached(todo, view, sentinel, before)
    ensures Fails(todo, view, sentinel, between) <==> Fails(todo, view, sentinel, before)
    decreases |todo|
  {
    if todo != [] {
      SameReach(todo[1..], view, sentinel, before, between, baseline);
      FailsFirst(todo, view, sentinel, before);
      FailsFirst(todo, view, sentinel, between);
    }
  }

  /** The member loop, action by action. */
  lemma {:induction false} RestoreSteps(c: Cell, job: Job, debt: Debt, todo: seq<Process>, view: View)
    returns (actions: seq<Action>, d: Cell)
    requires job.identity.baseline != OOM_BIAS_TARGET
    ensures Run(Restoring(c, job, debt, todo), actions) == Some(d) && PassDone(c, d, job, debt, todo, view)
    decreases |todo|
  {
    var here := Restoring(c, job, debt, todo);
    if todo == [] {
      d := c.(actor := DrainClosing(debt.(lastError := false)));
      actions := [Passing(RestoreNext(Done))] + [];
      RunOne(here, Passing(RestoreNext(Done)), d, []);
    } else {
      var p, rest, sentinel := todo[0], todo[1..], job.identity.sentinel;
      FailsFirst(todo, view, sentinel, Scores(c.members));
      if p == sentinel || p !in c.members {
        var more;
        more, d := RestoreSteps(c, job, debt, rest, view);
        RunOne(here, Passing(RestoreNext(Done)), Restoring(c, job, debt, rest), more);
        actions := [Passing(RestoreNext(Done))] + more;
        PassDoneAfterOne(c, c, d, job, debt, todo, view);
      } else if p in view.failing {
        d := c.(actor := DrainClosing(debt.(lastError := true)));
        RunOne(here, Passing(RestoreNext(Rejected)), d, []);
        actions := [Passing(RestoreNext(Rejected))] + [];
      } else if FailsAt(p, view, sentinel, Scores(c.members)) {
        d := Restored(c, p, job.identity.baseline).(actor := DrainClosing(debt.(lastError := true)));
        RunOne(here, Passing(RestoreNext(LostReply)), d, []);
        actions := [Passing(RestoreNext(LostReply))] + [];
      } else {
        var next := Restored(c, p, job.identity.baseline);
        var more;
        more, d := RestoreSteps(next, job, debt, rest, view);
        RunOne(here, Passing(RestoreNext(Done)), Restoring(next, job, debt, rest), more);
        actions := [Passing(RestoreNext(Done))] + more;
        PassDoneAfterOne(c, next, d, job, debt, todo, view);
      }
    }
  }

  /** The records and scores after one fault-free pass that drains. */
  ghost predicate Drained(c: Cell, d: Cell, view: View) {
    && c.debt.Some?
    && d == c.(members := d.members, job := c.job.(phase := Draining), debt := d.debt)
    && d.debt == Some(c.debt.value.(draining := true, attempts := c.debt.value.attempts + 1,
                                    lastError := PassFails(view, c.job, Scores(c.members))))
    && RestoredExactly(Scores(c.members), Scores(d.members), ReachedBy(view, c.job, Scores(c.members)), c.job.identity.baseline)
  }

  /** From the list of members to the closed pass. */
  lemma ListingSteps(c: Cell, job: Job, debt: Debt, view: View) returns (actions: seq<Action>, d: Cell)
    requires c.actor == DrainListing(job, debt)
    ensures Run(c, actions) == Some(d)
    ensures d == c.(members := d.members, actor := Idle,
                    debt := Some(debt.(attempts := debt.attempts + 1, lastError := PassFails(view, job, Scores(c.members)))))
    ensures RestoredExactly(Scores(c.members), Scores(d.members), ReachedBy(view, job, Scores(c.members)), job.identity.baseline)
  {
    if Listable(view, job) {
      var todo := PassList(view, job);
      var more, closing := RestoreSteps(c, job, debt, todo, view);
      d := closing.(debt := Some(closing.actor.debt.(attempts := debt.attempts + 1)), actor := Idle);
      RunSnoc(Restoring(c, job, debt, todo), more, Passing(CloseDrain(Done)));
      RunOne(c, Passing(ListMembers(view.listed)), Restoring(c, job, debt, todo), more + [Passing(CloseDrain(Done))]);
      actions := [Passing(ListMembers(view.listed))] + (more + [Passing(CloseDrain(Done))]);
    } else {
      var closing := c.(actor := DrainClosing(debt.(lastError := true)));
      d := closing.(debt := Some(closing.actor.debt.(attempts := debt.attempts + 1)), actor := Idle);
      RunOne(closing, Passing(CloseDrain(Done)), d, []);
      RunOne(c, Passing(ListingFails), closing, [Passing(CloseDrain(Done))] + []);
      actions := [Passing(ListingFails)] + ([Passing(CloseDrain(Done))] + []);
    }
  }

  /** Every fault-free pass that drains, whatever the view, is a run of the protocol from the same records and
      scores to the same records and scores. */
  lemma DrainPassIsARun(c: Cell, view: View, force: bool, now: nat) returns (actions: seq<Action>, d: Cell)
    requires c.actor.Idle? && c.debt.Some?
    requires IsDue(c.job, c.debt.value, c.boot, force, now)
    ensures Run(c, actions) == Some(d) && d.actor.Idle? && Drained(c, d, view)
  {
    var deadlinePassed := force || now >= c.debt.value.deadline;
    OneFate(c.job, c.debt.value, c.boot, force, now);
    var debt, job := c.debt.value.(draining := true), c.job.(phase := Draining);
    var c1 := c.(actor := DrainSavingDebt(c.job, debt));
    var c2 := c.(debt := Some(debt), actor := DrainSavingJob(job, debt));
    var c3 := c.(debt := Some(debt), job := job, actor := DrainListing(job, debt));
    var more;
    more, d := ListingSteps(c3, job, debt, view);
    var r2 := [Passing(SaveDrainingPhase(Done))] + more;
    var r1 := [Passing(SaveDraining(Done))] + r2;
    actions := [Deciding(LockForDrain(deadlinePassed))] + r1;
    RunOne(c2, Passing(SaveDrainingPhase(Done)), c3, more);
    RunOne(c1, Passing(SaveDraining(Done)), c2, r2);
    RunOne(c, Deciding(LockForDrain(deadlinePassed)), c1, r1);
  }
}
