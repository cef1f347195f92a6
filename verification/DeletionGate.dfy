/** From one reading of /proc to a verdict on a target: the rows are merged per pid and the merged rows that use
  * the target forbid its deletion (`merged_by_pid`, `blocks_deletion`, `blocking_reason` of src/disk_refs.rs). */
module DeletionGate {
  import opened Wrappers
  import opened Lexicographic
  import opened DiskRefs

  // ---------------------------------------------------------------- merging rows per pid

  function FirstExe(refs: seq<Row>, pid: nat): Option<Path> {
    if refs == [] then None
    else
      var earlier, last := FirstExe(refs[..|refs| - 1], pid), refs[|refs| - 1];
      if earlier.Some? then earlier else if last.pid == pid then last.exe else None
  }

  function FirstCwd(refs: seq<Row>, pid: nat): Option<Path> {
    if refs == [] then None
    else
      var earlier, last := FirstCwd(refs[..|refs| - 1], pid), refs[|refs| - 1];
      if earlier.Some? then earlier else if last.pid == pid then last.cwd else None
  }

  ghost predicate HasFd(refs: seq<Row>, pid: nat, fd: nat) { exists r :: r in refs && r.pid == pid && fd in r.fds }

  predicate Distinct(fds: seq<nat>) { forall i, j :: 0 <= i < j < |fds| ==> fds[i] != fds[j] }

  ghost predicate IsMergeOf(row: Row, refs: seq<Row>, pid: nat) {
    && row.pid == pid
    && row.exe == FirstExe(refs, pid)
    && row.cwd == FirstCwd(refs, pid)
    && Distinct(row.fds)
    && (forall fd :: fd in row.fds <==> HasFd(refs, pid, fd))
  }

  ghost predicate IsMerge(merged: map<nat, Row>, refs: seq<Row>) {
    && (forall pid :: pid in merged <==> exists r :: r in refs && r.pid == pid)
    && (forall pid :: pid in merged ==> IsMergeOf(merged[pid], refs, pid))
  }

  lemma {:induction false} NoRowNoPath(refs: seq<Row>, pid: nat)
    requires forall r :: r in refs ==> r.pid != pid
    ensures FirstExe(refs, pid) == None && FirstCwd(refs, pid) == None
    decreases |refs|
  {
    if refs != [] { NoRowNoPath(refs[..|refs| - 1], pid); }
  }

  method AddFds(before: seq<nat>, more: seq<nat>) returns (fds: seq<nat>)
    requires Distinct(before)
    ensures Distinct(fds)
    ensures forall fd :: fd in fds <==> fd in before || fd in more
  {
    fds := before;
    var i := 0;
    while i < |more|
      invariant 0 <= i <= |more|
      invariant Distinct(fds)
      invariant forall fd :: fd in fds <==> fd in before || fd in more[..i]
    {
      if more[i] !in fds { fds := fds + [more[i]]; }
      i := i + 1;
    }
  }

  /** One more row joins the merged row of its pid. */
  lemma {:induction false} MergeOne(refs: seq<Row>, r: Row, entry: Row, after: Row)
    requires || (entry == Row(r.pid, None, None, []) && forall q :: q in refs ==> q.pid != r.pid)
             || IsMergeOf(entry, refs, r.pid)
    requires after.pid == r.pid
    requires after.exe == if entry.exe.None? then r.exe else entry.exe
    requires after.cwd == if entry.cwd.None? then r.cwd else entry.cwd
    requires Distinct(after.fds) && forall fd :: fd in after.fds <==> fd in entry.fds || fd in r.fds
    ensures IsMergeOf(after, refs + [r], r.pid)
  {
    var all := refs + [r];
    assert all[..|refs|] == refs;
    if forall q :: q in refs ==> q.pid != r.pid { NoRowNoPath(refs, r.pid); }
    forall fd ensures fd in after.fds <==> HasFd(all, r.pid, fd) {
      if fd in r.fds { assert r in all; }
      if HasFd(refs, r.pid, fd) {
        var q :| q in refs && q.pid == r.pid && fd in q.fds;
        assert q in all;
      }
    }
  }

  lemma {:induction false} OtherPidsKeep(refs: seq<Row>, r: Row, row: Row, pid: nat)
    requires pid != r.pid && IsMergeOf(row, refs, pid)
    ensures IsMergeOf(row, refs + [r], pid)
  {
    var all := refs + [r];
    assert all[..|refs|] == refs;
    forall fd ensures HasFd(refs, pid, fd) <==> HasFd(all, pid, fd) {
      if HasFd(refs, pid, fd) {
        var q :| q in refs && q.pid == pid && fd in q.fds;
        assert q in all;
      }
    }
  }

  lemma {:induction false} MergeStep(seen: seq<Row>, merged: map<nat, Row>, r: Row, after: Row)
    requires IsMerge(merged, seen) && IsMergeOf(after, seen + [r], r.pid)
    ensures IsMerge(merged[r.pid := after], seen + [r])
  {
    var all, next := seen + [r], merged[r.pid := after];
    forall pid ensures pid in next <==> exists q :: q in all && q.pid == pid {
      if pid in merged {
        var q :| q in seen && q.pid == pid;
        assert q in all;
      }
      assert r in all;
    }
    forall pid | pid in next ensures IsMergeOf(next[pid], all, pid) {
      if pid != r.pid { OtherPidsKeep(seen, r, merged[pid], pid); }
    }
  }

  method MergedByPid(refs: seq<Row>) returns (merged: map<nat, Row>)
    ensures IsMerge(merged, refs)
  {
    merged := map[];
    var i := 0;
    while i < |refs|
      invariant 0 <= i <= |refs|
      invariant IsMerge(merged, refs[..i])
    {
      var r := refs[i];
      ghost var seen := refs[..i];
      assert refs[..i + 1] == seen + [r];
      var entry := if r.pid in merged then merged[r.pid] else Row(r.pid, None, None, []);
      var fds := AddFds(entry.fds, r.fds);
      var after := Row(r.pid, if entry.exe.None? then r.exe else entry.exe, if entry.cwd.None? then r.cwd else entry.cwd, fds);
      MergeOne(seen, r, entry, after);
      MergeStep(seen, merged, r, after);
      merged := merged[r.pid := after];
      i := i + 1;
    }
    assert refs[..i] == refs;
  }

  function BlockingPids(merged: map<nat, Row>, target: Path): set<nat> {
    set pid | pid in merged && merged[pid].Blocks(target)
  }

  /** Rows of one process show the same executable and the same working directory. */
  ghost predicate Agree(refs: seq<Row>) {
    forall r, q :: r in refs && q in refs && r.pid == q.pid ==> r.exe == q.exe && r.cwd == q.cwd
  }

  lemma {:induction false} FirstIsAny(refs: seq<Row>, r: Row)
    requires Agree(refs) && r in refs
    ensures FirstExe(refs, r.pid) == r.exe && FirstCwd(refs, r.pid) == r.cwd
    decreases |refs|
  {
    var before, last := refs[..|refs| - 1], refs[|refs| - 1];
    assert refs == before + [last];
    if r in before {
      FirstIsAny(before, r);
    } else if exists q :: q in before && q.pid == r.pid {
      var q :| q in before && q.pid == r.pid;
      FirstIsAny(before, q);
    } else {
      NoRowNoPath(before, r.pid);
    }
  }

  /** Merging keeps the set of processes that forbid the deletion. */
  lemma {:induction false} MergeKeepsBlockers(refs: seq<Row>, merged: map<nat, Row>, target: Path, pid: nat)
    requires Agree(refs) && IsMerge(merged, refs)
    ensures pid in BlockingPids(merged, target) <==> exists r :: r in refs && r.pid == pid && r.Blocks(target)
  {
    if pid in merged {
      var row := merged[pid];
      var some :| some in refs && some.pid == pid;
      FirstIsAny(refs, some);
      if row.Blocks(target) {
        if row.fds != [] {
          assert row.fds[0] in row.fds && HasFd(refs, pid, row.fds[0]);
          var r :| r in refs && r.pid == pid && row.fds[0] in r.fds;
          assert r.Blocks(target);
        } else {
          assert some.Blocks(target);
        }
      }
      if r :| r in refs && r.pid == pid && r.Blocks(target) {
        if r.fds != [] { assert r.fds[0] in r.fds && HasFd(refs, pid, r.fds[0]); }
      }
    }
  }

  // ---------------------------------------------------------------- which processes block

  /** An open descriptor names something at or under the target, unlinked or not. */
  predicate HoldsOpen(p: Process, target: Path) {
    && p.fds.Some?
    && exists f :: f in p.fds.value && f.number.Some? && f.link.Some? && target <= StripDeleted(f.link.value)
  }

  /** The executable or the working directory lies at or under the target, by its text. */
  predicate RunsIn(p: Process, target: Path) {
    (p.exe.Some? && target <= p.exe.value) || (p.cwd.Some? && target <= p.cwd.value)
  }

  /** Some link of the process is filed at or under the target. */
  predicate Filed(p: Process, target: Path) {
    || HoldsOpen(p, target)
    || (p.exe.Some? && target <= StripDeleted(p.exe.value))
    || (p.cwd.Some? && target <= StripDeleted(p.cwd.value))
  }

  predicate BlockedBy(p: Process, target: Path) {
    p.pid.Some? && Filed(p, target) && (HoldsOpen(p, target) || RunsIn(p, target))
  }

  /** No two entries of /proc are the same process. */
  predicate DistinctPids(procs: seq<Process>) {
    forall i, j :: 0 <= i < j < |procs| && procs[i].pid.Some? ==> procs[i].pid != procs[j].pid
  }

  lemma {:induction false} FdLinksAre(pid: nat, exe: Option<Path>, cwd: Option<Path>, fds: seq<Fd>, l: Link)
    ensures l in FdLinks(pid, exe, cwd, fds) <==>
            exists f :: f in fds && f.number.Some? && f.link.Some?
                        && l == Link(StripDeleted(f.link.value), Row(pid, exe, cwd, [f.number.value]))
    decreases |fds|
  {
    if fds != [] {
      assert fds == fds[..|fds| - 1] + [fds[|fds| - 1]];
      FdLinksAre(pid, exe, cwd, fds[..|fds| - 1], l);
    }
  }

  lemma {:induction false} LinksAre(procs: seq<Process>, l: Link)
    ensures l in Links(procs) <==> exists p :: p in procs && l in LinksOf(p)
    decreases |procs|
  {
    if procs != [] {
      assert procs == procs[..|procs| - 1] + [procs[|procs| - 1]];
      LinksAre(procs[..|procs| - 1], l);
    }
  }

  lemma {:induction false} LinkedUnderAre(links: seq<Link>, target: Path, r: Row)
    ensures r in LinkedUnder(links, target) <==> exists l :: l in links && l.row == r && target <= l.path
    decreases |links|
  {
    if links != [] {
      var before, last := links[..|links| - 1], links[|links| - 1];
      assert links == before + [last];
      LinkedUnderAre(before, target, r);
    }
  }

  lemma LinkShowsItsProcess(p: Process, l: Link)
    requires l in LinksOf(p)
    ensures p.pid == Some(l.row.pid) && l.row.exe == p.exe && l.row.cwd == p.cwd
  {
    if p.fds.Some? { FdLinksAre(p.pid.value, p.exe, p.cwd, p.fds.value, l); }
  }

  /** A process blocks exactly when one of its links, filed under the target, is a row that blocks. */
  lemma BlockedByALink(p: Process, target: Path)
    ensures BlockedBy(p, target) <==> exists l :: l in LinksOf(p) && target <= l.path && l.row.Blocks(target)
  {
    if p.pid.Some? {
      var row := Row(p.pid.value, p.exe, p.cwd, []);
      if BlockedBy(p, target) {
        if HoldsOpen(p, target) {
          var f :| f in p.fds.value && f.number.Some? && f.link.Some? && target <= StripDeleted(f.link.value);
          var l := Link(StripDeleted(f.link.value), Row(p.pid.value, p.exe, p.cwd, [f.number.value]));
          FdLinksAre(p.pid.value, p.exe, p.cwd, p.fds.value, l);
          assert l in LinksOf(p) && l.row.Blocks(target);
        } else if p.exe.Some? && target <= StripDeleted(p.exe.value) {
          var l := Link(StripDeleted(p.exe.value), row);
          assert l in OneLink(p.exe, row) && l in LinksOf(p);
        } else {
          var l := Link(StripDeleted(p.cwd.value), row);
          assert l in OneLink(p.cwd, row) && l in LinksOf(p);
        }
      }
      if l :| l in LinksOf(p) && target <= l.path && l.row.Blocks(target) {
        if p.fds.Some? { FdLinksAre(p.pid.value, p.exe, p.cwd, p.fds.value, l); }
      }
    }
  }

  /** The rows captured for a target agree process by process. */
  lemma CapturedRowsAgree(procs: seq<Process>, target: Path)
    requires DistinctPids(procs)
    ensures Agree(LinkedUnder(Links(procs), target))
  {
    var refs := LinkedUnder(Links(procs), target);
    forall r | r in refs ensures Shown(procs, r) {
      var p := OwnerOf(procs, target, r);
    }
    ShownRowsAgree(procs, refs);
  }

  /** The row shows the executable and the working directory of its process. */
  ghost predicate Shown(procs: seq<Process>, r: Row) {
    exists p :: p in procs && p.pid == Some(r.pid) && r.exe == p.exe && r.cwd == p.cwd
  }

  lemma ShownRowsAgree(procs: seq<Process>, refs: seq<Row>)
    requires DistinctPids(procs) && forall r :: r in refs ==> Shown(procs, r)
    ensures Agree(refs)
  {
    forall r, q | r in refs && q in refs && r.pid == q.pid ensures r.exe == q.exe && r.cwd == q.cwd {
      var p :| p in procs && p.pid == Some(r.pid) && r.exe == p.exe && r.cwd == p.cwd;
      var o :| o in procs && o.pid == Some(q.pid) && q.exe == o.exe && q.cwd == o.cwd;
      OnePerPid(procs, p, o);
    }
  }

  lemma OnePerPid(procs: seq<Process>, p: Process, o: Process)
    requires DistinctPids(procs) && p in procs && o in procs && p.pid.Some? && p.pid == o.pid
    ensures p == o
  {
    var i :| 0 <= i < |procs| && procs[i] == p;
    var j :| 0 <= j < |procs| && procs[j] == o;
    assert !(i < j) && !(j < i);
  }

  lemma OwnerOf(procs: seq<Process>, target: Path, r: Row) returns (p: Process)
    requires r in LinkedUnder(Links(procs), target)
    ensures p in procs && p.pid == Some(r.pid) && r.exe == p.exe && r.cwd == p.cwd
    ensures r.Blocks(target) ==> BlockedBy(p, target)
  {
    LinkedUnderAre(Links(procs), target, r);
    var l :| l in Links(procs) && l.row == r && target <= l.path;
    LinksAre(procs, l);
    p :| p in procs && l in LinksOf(p);
    LinkShowsItsProcess(p, l);
    BlockedByALink(p, target);
  }

  ghost predicate BlockingProcess(procs: seq<Process>, target: Path, pid: nat) {
    exists p :: p in procs && p.pid == Some(pid) && BlockedBy(p, target)
  }

  lemma BlockingRowsAreBlockingProcesses(procs: seq<Process>, target: Path, pid: nat)
    ensures (exists r :: r in LinkedUnder(Links(procs), target) && r.pid == pid && r.Blocks(target))
       <==> BlockingProcess(procs, target, pid)
  {
    if r :| r in LinkedUnder(Links(procs), target) && r.pid == pid && r.Blocks(target) {
      var p := OwnerOf(procs, target, r);
      assert p in procs && p.pid == Some(pid) && BlockedBy(p, target);
    }
    if BlockingProcess(procs, target, pid) {
      var p :| p in procs && p.pid == Some(pid) && BlockedBy(p, target);
      BlockedByALink(p, target);
      var l :| l in LinksOf(p) && target <= l.path && l.row.Blocks(target);
      LinksAre(procs, l);
      LinkShowsItsProcess(p, l);
      LinkedUnderAre(Links(procs), target, l.row);
    }
  }

  // ---------------------------------------------------------------- the gate

  datatype Verdict = Unknown | UsedBy(pids: set<nat>) | Free

  /** Whether the deletion of a target is forbidden, given what /proc shows. */
  ghost predicate Forbidden(proc: Option<seq<Process>>, target: Path) {
    proc.None? || exists p :: p in proc.value && BlockedBy(p, target)
  }

  lemma MergedVerdict(procs: seq<Process>, target: Path, refs: seq<Row>, merged: map<nat, Row>)
    requires DistinctPids(procs)
    requires multiset(refs) == multiset(LinkedUnder(Links(procs), target))
    requires IsMerge(merged, refs)
    ensures forall pid :: pid in BlockingPids(merged, target) <==> BlockingProcess(procs, target, pid)
    ensures BlockingPids(merged, target) == {} <==> !Forbidden(Some(procs), target)
  {
    var rows, pids := LinkedUnder(Links(procs), target), BlockingPids(merged, target);
    SameMembers(refs, rows);
    CapturedRowsAgree(procs, target);
    forall pid: nat ensures pid in pids <==> BlockingProcess(procs, target, pid) {
      MergeKeepsBlockers(refs, merged, target, pid);
      BlockingRowsAreBlockingProcesses(procs, target, pid);
    }
    if p :| p in procs && BlockedBy(p, target) {
      assert BlockingProcess(procs, target, p.pid.value);
    }
    if pid :| pid in pids {
      assert BlockingProcess(procs, target, pid);
    }
  }

  lemma SameMembers(a: seq<Row>, b: seq<Row>)
    requires multiset(a) == multiset(b)
    ensures forall r :: r in a <==> r in b
  {
    forall r ensures r in a <==> r in b {
      assert r in a <==> r in multiset(a);
      assert r in b <==> r in multiset(b);
    }
  }

  /** Capture, merge, filter: the processes named are exactly those that use the target, and an unreadable
      /proc is never evidence of disuse. */
  method Check(proc: Option<seq<Process>>, target: Path) returns (v: Verdict)
    requires proc.Some? ==> DistinctPids(proc.value)
    ensures v == Free <==> !Forbidden(proc, target)
    ensures v == Unknown <==> proc.None?
    ensures v.UsedBy? ==> forall pid :: pid in v.pids <==> BlockingProcess(proc.value, target, pid)
  {
    var s := Read(proc);
    if s.scanFailed { return Unknown; }
    IndexIsFaithful(Links(proc.value), target);
    var refs := Capture(s.index, target);
    var merged := MergedByPid(refs);
    MergedVerdict(proc.value, target, refs, merged);
    var pids := BlockingPids(merged, target);
    if pids == {} { return Free; }
    return UsedBy(pids);
  }

  // ---------------------------------------------------------------- is every use seen?

  /** A process as it is, beside what /proc shows of it: its links may be unreadable to the guard. */
  datatype Running = Running(shown: Process, exe: Option<Path>, cwd: Option<Path>, open: set<Path>)

  /** What /proc shows is true, but it need not be everything. */
  ghost predicate Truthful(r: Running) {
    && r.shown.pid.Some?
    && (r.shown.exe.Some? ==> r.shown.exe == r.exe)
    && (r.shown.cwd.Some? ==> r.shown.cwd == r.cwd)
    && (r.shown.fds.Some? ==> forall f :: f in r.shown.fds.value && f.link.Some? ==> f.link.value in r.open)
  }

  ghost predicate AllTruthful(table: seq<Running>) { forall r :: r in table ==> Truthful(r) }

  function Listing(table: seq<Running>): seq<Process> {
    seq(|table|, i requires 0 <= i < |table| => table[i].shown)
  }

  /** The process uses the target: its executable, working directory or an open file lies at or under it. */
  ghost predicate Uses(r: Running, target: Path) {
    || (r.exe.Some? && target <= r.exe.value)
    || (r.cwd.Some? && target <= r.cwd.value)
    || exists path :: path in r.open && target <= path
  }

  /** /proc shows a link of the process at or under the target; an open file counts with or without the suffix. */
  predicate ShowsUse(p: Process, target: Path) {
    || RunsIn(p, target)
    || HoldsOpen(p, target)
    || (p.fds.Some? && exists f :: f in p.fds.value && f.number.Some? && f.link.Some? && target <= f.link.value)
  }

  /** Every process that uses the target is found to block it. */
  ghost predicate EveryUseIsSeen(table: seq<Running>, target: Path) {
    forall r :: r in table && Uses(r, target) ==> BlockedBy(r.shown, target)
  }

  ghost predicate EveryUserShowsIt(table: seq<Running>, target: Path) {
    forall r :: r in table && Uses(r, target) ==> ShowsUse(r.shown, target)
  }

  /** When every use is seen, a used target is never deleted. */
  lemma SeenUseForbids(table: seq<Running>, target: Path, r: Running)
    requires EveryUseIsSeen(table, target) && r in table && Uses(r, target)
    ensures Forbidden(Some(Listing(table)), target)
  {
    var i :| 0 <= i < |table| && table[i] == r;
    assert Listing(table)[i] == r.shown;
  }

  /** For a target whose name does not end in " (deleted)", the gate goes by what a process shows. */
  lemma BlockedIffShown(p: Process, target: Path)
    requires !EndsDeleted(target) && p.pid.Some?
    ensures BlockedBy(p, target) <==> ShowsUse(p, target)
  {
    if p.exe.Some? && target <= p.exe.value { StripMattersOnlyAtTheTarget(target, p.exe.value); }
    if p.cwd.Some? && target <= p.cwd.value { StripMattersOnlyAtTheTarget(target, p.cwd.value); }
    if p.fds.Some? {
      if f :| f in p.fds.value && f.number.Some? && f.link.Some? && target <= f.link.value {
        StripMattersOnlyAtTheTarget(target, f.link.value);
        assert HoldsOpen(p, target);
      }
    }
  }

  /** A process that holds the target open on descriptor 3 and shows it. */
  function Holder(target: Path): Running {
    Running(Process(Some(7), None, None, Some([Fd(Some(3), Some(target))])), None, None, {target})
  }

  lemma NamedDeletedIsMissed(target: Path)
    requires EndsDeleted(target)
    ensures Truthful(Holder(target)) && Uses(Holder(target), target) && ShowsUse(Holder(target).shown, target)
    ensures !BlockedBy(Holder(target).shown, target)
  {
    var f := Fd(Some(3), Some(target));
    assert f in Holder(target).shown.fds.value && target in Holder(target).open;
    StripMattersOnlyAtTheTarget(target, target);
  }

  /** The gate sees exactly the uses that /proc shows, whatever runs, if and only if the target's own name does
      not end in " (deleted)": a file really named so is filed under the shorter name. */
  lemma GateSeesEveryShownUseIff(target: Path)
    ensures (forall table: seq<Running> :: AllTruthful(table) ==>
               (EveryUseIsSeen(table, target) <==> EveryUserShowsIt(table, target)))
       <==> !EndsDeleted(target)
  {
    if EndsDeleted(target) {
      NamedDeletedIsMissed(target);
      var table := [Holder(target)];
      assert Holder(target) in table && AllTruthful(table);
      assert EveryUserShowsIt(table, target) && !EveryUseIsSeen(table, target);
    } else {
      forall table: seq<Running> | AllTruthful(table)
        ensures EveryUseIsSeen(table, target) <==> EveryUserShowsIt(table, target)
      {
        forall r | r in table ensures BlockedBy(r.shown, target) <==> ShowsUse(r.shown, target) {
          BlockedIffShown(r.shown, target);
        }
      }
    }
  }

  /** A process of another user: none of its links can be read. */
  function Unreadable(target: Path): Running { Running(Process(Some(7), None, None, None), None, None, {target}) }

  /** So no target is safe from a user the guard may not look into: /proc itself was listed, and that passes for
      disuse. */
  lemma UnreadableUseIsMissed(target: Path)
    ensures Truthful(Unreadable(target)) && Uses(Unreadable(target), target)
    ensures !Forbidden(Some(Listing([Unreadable(target)])), target)
    ensures !EveryUseIsSeen([Unreadable(target)], target) && !EveryUserShowsIt([Unreadable(target)], target)
  {
    var r := Unreadable(target);
    assert target in r.open && r in [r];
    assert Listing([r]) == [r.shown];
  }

  /** The executable a merged row shows is the first that any row of the process shows; so is its directory. */
  lemma {:induction false} FirstMeansFirst(refs: seq<Row>, pid: nat)
    ensures FirstExe(refs, pid).Some? ==>
              exists i :: 0 <= i < |refs| && refs[i].pid == pid && refs[i].exe == FirstExe(refs, pid)
                          && forall k :: 0 <= k < i && refs[k].pid == pid ==> refs[k].exe.None?
    ensures FirstExe(refs, pid).None? ==> forall k :: 0 <= k < |refs| && refs[k].pid == pid ==> refs[k].exe.None?
    ensures FirstCwd(refs, pid).Some? ==>
              exists i :: 0 <= i < |refs| && refs[i].pid == pid && refs[i].cwd == FirstCwd(refs, pid)
                          && forall k :: 0 <= k < i && refs[k].pid == pid ==> refs[k].cwd.None?
    ensures FirstCwd(refs, pid).None? ==> forall k :: 0 <= k < |refs| && refs[k].pid == pid ==> refs[k].cwd.None?
    decreases |refs|
  {
    if refs != [] {
      var before, last := refs[..|refs| - 1], |refs| - 1;
      FirstMeansFirst(before, pid);
      assert forall k :: 0 <= k < last ==> before[k] == refs[k];
      if FirstExe(before, pid).None? && FirstExe(refs, pid).Some? { assert refs[last].exe == FirstExe(refs, pid); }
      if FirstCwd(before, pid).None? && FirstCwd(refs, pid).Some? { assert refs[last].cwd == FirstCwd(refs, pid); }
    }
  }
}
