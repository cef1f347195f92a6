/** When a quota write reaches a unit that was replaced: the invocation that `cap_prepared` of src/cpu_limit.rs
  * reads before it takes the lock is stale exactly when the unit restarted in between. */
module CpuLimitReplacement {
  import opened Wrappers
  import opened CpuLimit
  import opened CpuLimitSafety

  /** The unit restarted since a capper last read its invocation, or was never read. */
  predicate RestartedSinceRead(run: seq<WorldAction>, unit: string)
    decreases |run|
  {
    if run == [] then true
    else
      var last := run[|run| - 1];
      if last.OnUnit? && last.unit == unit && last.action.Restart? then true
      else if last.OnUnit? && last.unit == unit && last.action.ReadInvocation? then false
      else RestartedSinceRead(run[..|run| - 1], unit)
  }

  // ---------------------------------------------------------------- what a capper relies on

  /** The invocation a capper still relies on: read before the lock, or that of the intent it found there. */
  function ReliedOn(c: Cell): Option<Invocation> {
    if !c.preCap.NoCap? then Some(c.preCap.invocation)
    else if c.actor.CapReconciling? then Some(c.actor.prior.invocation)
    else None
  }

  /** The live unit is the one relied on exactly when it was not restarted since. */
  ghost predicate Relies(c: Cell, restarted: bool) {
    && (c.live.Unit? ==> c.live.invocation <= c.lastInvocation)
    && (!c.preCap.NoCap? ==> !IsCap(c.actor))
    && match ReliedOn(c)
       case None => true
       case Some(v) =>
         && v <= c.lastInvocation
         && (c.live.Unit? ==> if restarted then c.live.invocation > v else c.live.invocation == v)
  }

  /** How one action of the unit changes whether it restarted since the last read. */
  function Restarted(a: Action, before: bool): bool {
    if a.Restart? then true else if a.ReadInvocation? then false else before
  }

  lemma EnvKeepsReliance(c: Cell, a: Action, restarted: bool)
    requires Relies(c, restarted) && EnvStep(c, a).Some?
    ensures Relies(EnvStep(c, a).value, Restarted(a, restarted))
  {
  }

  lemma CapStartKeepsReliance(boot: nat, c: Cell, a: Action, restarted: bool)
    requires Relies(c, restarted) && CapStartStep(boot, c, a).Some?
    ensures Relies(CapStartStep(boot, c, a).value, Restarted(a, restarted))
  {
  }

  lemma CapApplyKeepsReliance(boot: nat, c: Cell, a: Action, restarted: bool)
    requires Relies(c, restarted) && CapApplyStep(boot, c, a).Some?
    ensures Relies(CapApplyStep(boot, c, a).value, Restarted(a, restarted))
  {
  }

  lemma ReleaseKeepsReliance(boot: nat, c: Cell, a: Action, restarted: bool)
    requires Relies(c, restarted) && ReleaseStep(boot, c, a).Some?
    ensures Relies(ReleaseStep(boot, c, a).value, Restarted(a, restarted))
  {
  }

  lemma StepKeepsReliance(boot: nat, c: Cell, a: Action, restarted: bool)
    requires Relies(c, restarted) && Step(boot, c, a).Some?
    ensures Relies(Step(boot, c, a).value, Restarted(a, restarted))
  {
    if EnvStep(c, a).Some? { EnvKeepsReliance(c, a, restarted); }
    if CapStartStep(boot, c, a).Some? { CapStartKeepsReliance(boot, c, a, restarted); }
    if CapApplyStep(boot, c, a).Some? { CapApplyKeepsReliance(boot, c, a, restarted); }
    if ReleaseStep(boot, c, a).Some? { ReleaseKeepsReliance(boot, c, a, restarted); }
  }

  lemma WorldStepKeepsReliance(w: World, a: WorldAction, unit: string, restarted: bool)
    requires unit in w.cells && Relies(w.cells[unit], restarted) && WorldStep(w, a).Some?
    ensures unit in WorldStep(w, a).value.cells
    ensures Relies(WorldStep(w, a).value.cells[unit],
                   if a.OnUnit? && a.unit == unit then Restarted(a.action, restarted) else restarted)
  {
    if a.OnUnit? && a.unit == unit { StepKeepsReliance(w.boot, w.cells[unit], a.action, restarted); }
  }

  /** In every reachable state, over crashes, reboots and the actions of other units. */
  lemma {:induction false} RunKeepsReliance(w0: World, run: seq<WorldAction>, unit: string)
    requires Initial(w0) && Run(w0, run).Some? && unit in Run(w0, run).value.cells
    ensures unit in w0.cells && Relies(Run(w0, run).value.cells[unit], RestartedSinceRead(run, unit))
    decreases |run|
  {
    if run != [] {
      var before, last := run[..|run| - 1], run[|run| - 1];
      assert run == before + [last];
      RunSnoc(w0, before, last);
      RunKeepsReliance(w0, before, unit);
      WorldStepKeepsReliance(Run(w0, before).value, last, unit, RestartedSinceRead(before, unit));
    }
  }

  // ---------------------------------------------------------------- the exact condition

  /** The reconcile restore of a capper writes a quota. */
  ghost predicate ReconcileWrites(boot: nat, c: Cell, a: Action) {
    a.Reconcile? && Step(boot, c, a).Some? && |Step(boot, c, a).value.writes| > |c.writes|
  }

  /** On every run a reconcile restore reaches the incarnation its lease names if and only if the unit has not
      restarted since the capper read its invocation. */
  lemma ReconcileReachesItsUnitIff(w0: World, run: seq<WorldAction>, unit: string, a: Action)
    requires Initial(w0) && Run(w0, run).Some? && unit in Run(w0, run).value.cells
    requires var w := Run(w0, run).value; ReconcileWrites(w.boot, w.cells[unit], a)
    ensures var w := Run(w0, run).value;
            var c := w.cells[unit];
            WriteOnOwnIncarnation(Step(w.boot, c, a).value.writes[|c.writes|]) <==> !RestartedSinceRead(run, unit)
  {
    var w := Run(w0, run).value;
    RunKeepsInv(w0, run);
    RunKeepsReliance(w0, run, unit);
    ReconcileWriteOnOwnIncarnationIff(w.boot, w.cells[unit], a.now, a.effect);
  }

  /** Step `n` of the run is a reconcile restore that writes although its unit restarted since the read. */
  ghost predicate StaleReconcile(w0: World, run: seq<WorldAction>, unit: string, n: nat)
    requires n < |run|
  {
    && run[n].OnUnit? && run[n].unit == unit
    && Run(w0, run[..n]).Some? && unit in Run(w0, run[..n]).value.cells
    && ReconcileWrites(Run(w0, run[..n]).value.boot, Run(w0, run[..n]).value.cells[unit], run[n].action)
    && RestartedSinceRead(run[..n], unit)
  }

  ghost predicate AllOwn(c: Cell) { forall i :: 0 <= i < |c.writes| ==> WriteOnOwnIncarnation(c.writes[i]) }

  ghost predicate NoneStale(w0: World, run: seq<WorldAction>, unit: string) {
    forall n :: 0 <= n < |run| ==> !StaleReconcile(w0, run, unit, n)
  }

  lemma StalenessOfPrefix(w0: World, before: seq<WorldAction>, last: WorldAction, unit: string)
    ensures var run := before + [last];
      NoneStale(w0, run, unit) <==> NoneStale(w0, before, unit) && !StaleReconcile(w0, run, unit, |before|)
  {
    var run := before + [last];
    forall n | 0 <= n < |before| ensures StaleReconcile(w0, run, unit, n) <==> StaleReconcile(w0, before, unit, n) {
      assert run[..n] == before[..n] && run[n] == before[n];
    }
  }

  /** The last write of one more step is on its own incarnation unless that step is a stale restore. */
  lemma LastWriteIsOwnIff(w0: World, before: seq<WorldAction>, last: WorldAction, unit: string)
    requires Initial(w0) && Run(w0, before).Some? && unit in Run(w0, before).value.cells
    requires WorldStep(Run(w0, before).value, last).Some?
    ensures var c := Run(w0, before).value.cells[unit];
            var d := WorldStep(Run(w0, before).value, last).value.cells[unit];
            && c.writes <= d.writes && |d.writes| <= |c.writes| + 1
            && (StaleReconcile(w0, before + [last], unit, |before|) <==>
                  |d.writes| > |c.writes| && !WriteOnOwnIncarnation(d.writes[|c.writes|]))
  {
    var w, run := Run(w0, before).value, before + [last];
    var c := w.cells[unit];
    assert run[..|before|] == before && run[|before|] == last;
    if last.OnUnit? && last.unit == unit {
      var d := Step(w.boot, c, last.action).value;
      StepsOnlyAppendWrites(w.boot, c, last.action);
      RunKeepsInv(w0, before);
      StepKeepsInv(w.boot, c, last.action);
      if |d.writes| > |c.writes| {
        if last.action.Reconcile? {
          ReconcileReachesItsUnitIff(w0, before, unit, last.action);
        } else {
          OtherWriteIsOwn(c, d);
        }
      }
    }
  }

  lemma OwnWritesGrow(before: Cell, after: Cell)
    requires before.writes <= after.writes && |after.writes| <= |before.writes| + 1
    ensures AllOwn(after) <==> AllOwn(before) && (|after.writes| > |before.writes| ==>
                                                    WriteOnOwnIncarnation(after.writes[|before.writes|]))
  {
  }

  /** Every quota write of a run reaches the incarnation its lease names, if and only if no reconcile restore in
      it came after a restart that followed its read. */
  lemma {:induction false} EveryWriteReachesItsUnitIff(w0: World, run: seq<WorldAction>, unit: string)
    requires Initial(w0) && Run(w0, run).Some? && unit in Run(w0, run).value.cells
    ensures AllOwn(Run(w0, run).value.cells[unit]) <==> NoneStale(w0, run, unit)
    decreases |run|
  {
    if run != [] {
      var before, last := run[..|run| - 1], run[|run| - 1];
      assert run == before + [last];
      RunSnoc(w0, before, last);
      assert unit in Run(w0, before).value.cells;
      EveryWriteReachesItsUnitIff(w0, before, unit);
      StalenessOfPrefix(w0, before, last, unit);
      LastWriteIsOwnIff(w0, before, last, unit);
      OwnWritesGrow(Run(w0, before).value.cells[unit], Run(w0, run).value.cells[unit]);
    }
  }
}
