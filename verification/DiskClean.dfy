/** Deleting what the audit marked APPLY (`apply_with_floors` of src/disk.rs): git scratch goes through its own
  * cleaner first, then every finding still marked APPLY, git scratch included, is checked again and removed. */
module DiskClean {
  import opened Wrappers
  import opened Lexicographic
  import opened DiskTmp
  import DiskRefs
  import opened DeletionGate
  import opened GitTemp

  datatype Class = GitScratch | TempAndLogs | CachesAndNix | Strays

  datatype Disposition = Apply | Skip | Report

  /** A finding; the reasons and captures it carries for the reader are left out. */
  datatype Finding = Finding(kind: Class, path: Path, bytes: nat, disposition: Disposition, floor: Option<nat>)

  datatype Record = Record(kind: Class, path: Path, bytes: nat)

  function RecordOf(f: Finding): Record { Record(f.kind, f.path, f.bytes) }

  function Records(s: seq<Finding>): seq<Record> {
    if s == [] then [] else Records(s[..|s| - 1]) + [RecordOf(s[|s| - 1])]
  }

  function Freed(s: seq<Record>): nat { if s == [] then 0 else Freed(s[..|s| - 1]) + s[|s| - 1].bytes }

  predicate DistinctPaths(s: seq<Finding>) { forall i, j :: 0 <= i < j < |s| ==> s[i].path != s[j].path }

  /** `tree_is_live_churn`: an unknown age counts as fresh. */
  predicate TreeIsLiveChurn(newest: Option<nat>, threshold: nat) { newest.None? || newest.value < threshold }

  /** The tree was read to its end and holds nothing younger than the floor; an empty one stands on its own time. */
  predicate Idle(n: Node, now: int, floor: nat)
    requires n.Dir?
  {
    && Count(n.listing) <= LIMIT
    && OldListing(n.listing, now, floor)
    && (if Empty(n.listing) then OldTime(n.mtime, now, floor) else Dated(n.listing))
  }

  /** What the second loop asks of a finding before it removes anything. */
  ghost predicate Permitted(f: Finding, nodes: Nodes, proc: Option<seq<DiskRefs.Process>>, now: int) {
    && f.disposition.Apply?
    && !Forbidden(proc, f.path)
    && (f.path in nodes && nodes[f.path].Dir? ==> f.floor.Some? && Idle(nodes[f.path], now, f.floor.value))
  }

  /** The second loop removes the finding. */
  ghost predicate Swept(f: Finding, nodes: Nodes, stuck: Stubborn, proc: Option<seq<DiskRefs.Process>>, now: int) {
    Permitted(f, nodes, proc, now) && f.path in nodes && f.path !in stuck.left
  }

  /** The second loop may remove the directory, and fails to. */
  ghost predicate GivenUp(f: Finding, nodes: Nodes, stuck: Stubborn, proc: Option<seq<DiskRefs.Process>>, now: int) {
    Permitted(f, nodes, proc, now) && f.path in nodes && nodes[f.path].Dir? && f.path in stuck.left
  }

  /** The nodes after one turn. */
  ghost function SweptOnce(f: Finding, nodes: Nodes, stuck: Stubborn, proc: Option<seq<DiskRefs.Process>>, now: int): Nodes {
    if Swept(f, nodes, stuck, proc, now) then (if nodes[f.path].Dir? then Without(nodes, f.path) else nodes - {f.path})
    else if GivenUp(f, nodes, stuck, proc, now) then Ruined(nodes, stuck, f.path)
    else nodes
  }

  /** How the second loop leaves a finding it does not remove: what was not APPLY as it was, a directory that is not
      idle for REPORT, and everything else, used or not removable, as SKIP. */
  ghost function LeftBehind(f: Finding, nodes: Nodes, proc: Option<seq<DiskRefs.Process>>, now: int): Finding {
    if f.disposition != Apply then f
    else if !Forbidden(proc, f.path) && f.path in nodes && nodes[f.path].Dir?
            && !(f.floor.Some? && Idle(nodes[f.path], now, f.floor.value))
    then f.(disposition := Report)
    else f.(disposition := Skip)
  }

  /** A finding the second loop leaves: its class, path and size stay, and it is no longer APPLY. */
  predicate LeftAs(kept: Finding, f: Finding) {
    && kept.disposition != Apply
    && RecordOf(kept) == RecordOf(f)
    && (f.disposition != Apply ==> kept == f)
  }

  /** One turn of the second loop. */
  method SweepOne(store: Store, f: Finding, proc: Option<seq<DiskRefs.Process>>, now: int)
    returns (removed: bool, kept: Finding)
    requires proc.Some? ==> DistinctPids(proc.value)
    modifies store`nodes
    ensures removed <==> Swept(f, old(store.nodes), store.stuck, proc, now)
    ensures !removed ==> kept == LeftBehind(f, old(store.nodes), proc, now)
    ensures LeftAs(kept, f)
    ensures store.nodes == SweptOnce(f, old(store.nodes), store.stuck, proc, now)
  {
    removed, kept := false, f;
    if f.disposition != Apply { return; }
    var verdict := Check(proc, f.path);
    if verdict != Free { return false, f.(disposition := Skip); }
    var isDir := f.path in store.nodes && store.nodes[f.path].Dir?;
    if isDir {
      var n := store.nodes[f.path];
      var bytes, newest := DirectoryBytesAndAge(n.listing, n.mtime, now);
      var churn := match f.floor case Some(floor) => TreeIsLiveChurn(newest, floor) case None => true;
      if f.floor.Some? { AgeProvesOldContent(n.listing, n.mtime, now, bytes, newest, f.floor.value); }
      if churn { return false, f.(disposition := Report); }
      removed := store.RemoveDirAll(f.path);
    } else {
      removed := store.RemoveFile(f.path);
    }
    kept := f.(disposition := Skip);
  }

  // ---------------------------------------------------------------- the second loop

  lemma {:induction false} RecordsSnoc(s: seq<Finding>, f: Finding)
    ensures Records(s + [f]) == Records(s) + [RecordOf(f)]
  {
    assert (s + [f])[..|s|] == s;
  }

  /** Each finding so far is either removed or left, with its class, path and size. */
  predicate Counted(done: seq<Finding>, removed: seq<Finding>, remaining: seq<Finding>) {
    multiset(Records(removed)) + multiset(Records(remaining)) == multiset(Records(done))
  }

  ghost predicate ComesFrom(k: Finding, done: seq<Finding>) { exists f :: f in done && LeftAs(k, f) }

  /** Only APPLY findings are removed, none is left APPLY, and the others are left as they were. */
  ghost predicate Traced(done: seq<Finding>, removed: seq<Finding>, remaining: seq<Finding>) {
    && (forall f :: f in removed ==> f in done && f.disposition == Apply)
    && (forall k :: k in remaining ==> ComesFrom(k, done))
    && (forall f :: f in done && f.disposition != Apply ==> f in remaining)
  }

  lemma {:induction false} CountRemoved(done: seq<Finding>, removed: seq<Finding>, remaining: seq<Finding>, f: Finding)
    requires Counted(done, removed, remaining)
    ensures Counted(done + [f], removed + [f], remaining)
  {
    RecordsSnoc(done, f);
    RecordsSnoc(removed, f);
  }

  lemma {:induction false} CountKept(done: seq<Finding>, removed: seq<Finding>, remaining: seq<Finding>, f: Finding,
                                     kept: Finding)
    requires Counted(done, removed, remaining)
    requires RecordOf(kept) == RecordOf(f)
    ensures Counted(done + [f], removed, remaining + [kept])
  {
    RecordsSnoc(done, f);
    RecordsSnoc(remaining, kept);
  }

  lemma {:induction false} TraceOne(done: seq<Finding>, removed: seq<Finding>, remaining: seq<Finding>, f: Finding, gone: bool,
                                    kept: Finding)
    requires Traced(done, removed, remaining)
    requires LeftAs(kept, f) && (gone ==> f.disposition == Apply)
    ensures gone ==> Traced(done + [f], removed + [f], remaining)
    ensures !gone ==> Traced(done + [f], removed, remaining + [kept])
  {
    var all := done + [f];
    forall k | k in remaining ensures ComesFrom(k, all) {
      var g :| g in done && LeftAs(k, g);
      assert g in all;
    }
    assert f in all && ComesFrom(kept, all);
  }

  // What the loop does to the nodes, in closed form: the order of the findings does not matter to it.

  /** The finding is a directory that goes with everything below it, or whose removal fails after it has taken the path. */
  ghost predicate TakesAlong(h: Finding, k: Path, was: Nodes, stuck: Stubborn, proc: Option<seq<DiskRefs.Process>>, now: int) {
    || (h.path < k && Swept(h, was, stuck, proc, now) && was[h.path].Dir?)
    || (GivenUp(h, was, stuck, proc, now) && Loses(stuck, h.path, k))
  }

  ghost predicate TakenAlong(s: seq<Finding>, k: Path, was: Nodes, stuck: Stubborn, proc: Option<seq<DiskRefs.Process>>, now: int) {
    exists h :: h in s && TakesAlong(h, k, was, stuck, proc, now)
  }

  /** A finding that goes stands at the path, or a directory took it along. */
  ghost predicate Taken(s: seq<Finding>, k: Path, was: Nodes, stuck: Stubborn, proc: Option<seq<DiskRefs.Process>>, now: int) {
    (exists h :: h in s && h.path == k && Swept(h, was, stuck, proc, now)) || TakenAlong(s, k, was, stuck, proc, now)
  }

  ghost predicate Battered(s: seq<Finding>, k: Path, was: Nodes, stuck: Stubborn, proc: Option<seq<DiskRefs.Process>>, now: int) {
    exists h :: h in s && h.path == k && GivenUp(h, was, stuck, proc, now)
  }

  /** The nodes after the findings `s`: what goes, and the trees whose removal failed half way. */
  ghost function SweptStore(s: seq<Finding>, was: Nodes, stuck: Stubborn, proc: Option<seq<DiskRefs.Process>>, now: int): Nodes {
    map k | k in was && !Taken(s, k, was, stuck, proc, now)
      :: if Battered(s, k, was, stuck, proc, now) then stuck.left[k] else was[k]
  }

  /** The findings the second loop removes, in order: those it may remove and can, unless a directory removed
      earlier took them along. */
  ghost function SweptList(findings: seq<Finding>, was: Nodes, stuck: Stubborn, proc: Option<seq<DiskRefs.Process>>, now: int)
    : seq<Finding>
  {
    if findings == [] then []
    else
      var f, before := findings[|findings| - 1], findings[..|findings| - 1];
      SweptList(before, was, stuck, proc, now)
      + Maybe(Swept(f, was, stuck, proc, now) && !TakenAlong(before, f.path, was, stuck, proc, now), f)
  }

  /** The findings it leaves, in order. */
  ghost function LeftList(findings: seq<Finding>, was: Nodes, stuck: Stubborn, proc: Option<seq<DiskRefs.Process>>, now: int)
    : seq<Finding>
  {
    if findings == [] then []
    else
      var f, before := findings[|findings| - 1], findings[..|findings| - 1];
      var along := TakenAlong(before, f.path, was, stuck, proc, now);
      LeftList(before, was, stuck, proc, now)
      + Maybe(along || !Swept(f, was, stuck, proc, now), LeftBehind(f, if along then map[] else was, proc, now))
  }

  lemma {:induction false} LeftListSnoc(findings: seq<Finding>, f: Finding, was: Nodes, stuck: Stubborn,
                                        proc: Option<seq<DiskRefs.Process>>, now: int)
    ensures LeftList(findings + [f], was, stuck, proc, now)
         == LeftList(findings, was, stuck, proc, now)
            + Maybe(TakenAlong(findings, f.path, was, stuck, proc, now) || !Swept(f, was, stuck, proc, now),
                    LeftBehind(f, if TakenAlong(findings, f.path, was, stuck, proc, now) then map[] else was, proc, now))
  {
    assert (findings + [f])[..|findings|] == findings;
  }

  lemma {:induction false} SweptListSnoc(findings: seq<Finding>, f: Finding, was: Nodes, stuck: Stubborn,
                                         proc: Option<seq<DiskRefs.Process>>, now: int)
    ensures SweptList(findings + [f], was, stuck, proc, now)
         == SweptList(findings, was, stuck, proc, now)
            + Maybe(Swept(f, was, stuck, proc, now) && !TakenAlong(findings, f.path, was, stuck, proc, now), f)
  {
    assert (findings + [f])[..|findings|] == findings;
  }

  lemma {:induction false} TakenByOneMore(s: seq<Finding>, f: Finding, k: Path, was: Nodes, stuck: Stubborn,
                                          proc: Option<seq<DiskRefs.Process>>, now: int)
    ensures Taken(s + [f], k, was, stuck, proc, now) <==>
            || Taken(s, k, was, stuck, proc, now)
            || (Swept(f, was, stuck, proc, now) && f.path == k)
            || TakesAlong(f, k, was, stuck, proc, now)
    ensures Battered(s + [f], k, was, stuck, proc, now) <==>
            Battered(s, k, was, stuck, proc, now) || (f.path == k && GivenUp(f, was, stuck, proc, now))
  {
    assert forall h :: h in s + [f] <==> h in s || h == f;
  }

  /** At a path no finding so far names, there is what stood there first, unless a directory took it along. */
  lemma NextStands(s: seq<Finding>, f: Finding, was: Nodes, stuck: Stubborn, proc: Option<seq<DiskRefs.Process>>, now: int)
    requires forall h :: h in s ==> h.path != f.path
    ensures var before := SweptStore(s, was, stuck, proc, now);
      && (f.path in before <==> f.path in was && !TakenAlong(s, f.path, was, stuck, proc, now))
      && (f.path in before ==> before[f.path] == was[f.path])
  {
  }

  /** So the finding goes now exactly when it would have gone at first and has not gone along already. */
  lemma SweptNowIff(s: seq<Finding>, f: Finding, was: Nodes, stuck: Stubborn, proc: Option<seq<DiskRefs.Process>>, now: int)
    requires forall h :: h in s ==> h.path != f.path
    ensures var before := SweptStore(s, was, stuck, proc, now);
      && (Swept(f, before, stuck, proc, now) <==>
            Swept(f, was, stuck, proc, now) && !TakenAlong(s, f.path, was, stuck, proc, now))
      && (GivenUp(f, before, stuck, proc, now) <==>
            GivenUp(f, was, stuck, proc, now) && !TakenAlong(s, f.path, was, stuck, proc, now))
      && LeftBehind(f, before, proc, now)
         == LeftBehind(f, if TakenAlong(s, f.path, was, stuck, proc, now) then map[] else was, proc, now)
  {
    NextStands(s, f, was, stuck, proc, now);
  }

  /** What lies under a path that went along went along too. */
  lemma UnderTakenAlong(s: seq<Finding>, path: Path, k: Path, was: Nodes, stuck: Stubborn, proc: Option<seq<DiskRefs.Process>>,
                        now: int)
    requires TakenAlong(s, path, was, stuck, proc, now) && path <= k
    ensures Taken(s, k, was, stuck, proc, now)
  {
    var h :| h in s && TakesAlong(h, path, was, stuck, proc, now);
    assert TakesAlong(h, k, was, stuck, proc, now);
  }

  lemma StoreAt(s: seq<Finding>, f: Finding, k: Path, was: Nodes, stuck: Stubborn, proc: Option<seq<DiskRefs.Process>>, now: int)
    requires forall h :: h in s ==> h.path != f.path
    ensures var after := SweptOnce(f, SweptStore(s, was, stuck, proc, now), stuck, proc, now);
      && (k in after <==> k in SweptStore(s + [f], was, stuck, proc, now))
      && (k in after ==> after[k] == SweptStore(s + [f], was, stuck, proc, now)[k])
  {
    NextStands(s, f, was, stuck, proc, now);
    SweptNowIff(s, f, was, stuck, proc, now);
    TakenByOneMore(s, f, k, was, stuck, proc, now);
    if TakenAlong(s, f.path, was, stuck, proc, now) && f.path <= k { UnderTakenAlong(s, f.path, k, was, stuck, proc, now); }
  }

  lemma StoreOne(s: seq<Finding>, f: Finding, was: Nodes, stuck: Stubborn, proc: Option<seq<DiskRefs.Process>>, now: int)
    requires forall h :: h in s ==> h.path != f.path
    ensures SweptOnce(f, SweptStore(s, was, stuck, proc, now), stuck, proc, now) == SweptStore(s + [f], was, stuck, proc, now)
  {
    var after, goal := SweptOnce(f, SweptStore(s, was, stuck, proc, now), stuck, proc, now),
                       SweptStore(s + [f], was, stuck, proc, now);
    forall k ensures (k in after <==> k in goal) && (k in after ==> after[k] == goal[k]) {
      StoreAt(s, f, k, was, stuck, proc, now);
    }
  }

  /** The store, the removals and what is left after the findings `done`, of `all`. */
  ghost predicate Kept(all: seq<Finding>, done: seq<Finding>, removed: seq<Finding>, remaining: seq<Finding>, was: Nodes,
                       nodes: Nodes, stuck: Stubborn, proc: Option<seq<DiskRefs.Process>>, now: int) {
    DistinctPaths(all) ==>
      && nodes == SweptStore(done, was, stuck, proc, now)
      && removed == SweptList(done, was, stuck, proc, now)
      && remaining == LeftList(done, was, stuck, proc, now)
  }

  lemma OtherPaths(done: seq<Finding>, f: Finding, rest: seq<Finding>)
    ensures DistinctPaths(done + [f] + rest) ==> forall g :: g in done ==> g.path != f.path
  {
    var all := done + [f] + rest;
    assert all[|done|] == f;
    assert forall k :: 0 <= k < |done| ==> all[k] == done[k];
  }

  lemma {:induction false} KeepOne(all: seq<Finding>, done: seq<Finding>, f: Finding, rest: seq<Finding>, removed: seq<Finding>,
                                   remaining: seq<Finding>, was: Nodes, before: Nodes, stuck: Stubborn,
                                   proc: Option<seq<DiskRefs.Process>>, now: int)
    requires all == done + [f] + rest
    requires Kept(all, done, removed, remaining, was, before, stuck, proc, now)
    ensures var gone := Swept(f, before, stuck, proc, now);
            Kept(all, done + [f], removed + Maybe(gone, f), remaining + Maybe(!gone, LeftBehind(f, before, proc, now)), was,
                 SweptOnce(f, before, stuck, proc, now), stuck, proc, now)
  {
    OtherPaths(done, f, rest);
    if DistinctPaths(all) {
      StoreOne(done, f, was, stuck, proc, now);
      SweptNowIff(done, f, was, stuck, proc, now);
      SweptListSnoc(done, f, was, stuck, proc, now);
      LeftListSnoc(done, f, was, stuck, proc, now);
    }
  }

  lemma {:induction false} FreedSnoc(s: seq<Record>, r: Record)
    ensures Freed(s + [r]) == Freed(s) + r.bytes
  {
    assert (s + [r])[..|s|] == s;
  }

  /** Where the second loop stands after `done`. */
  ghost predicate SweepingParts(all: seq<Finding>, done: seq<Finding>, removed: seq<Finding>, remaining: seq<Finding>,
                                was: Nodes, nodes: Nodes, stuck: Stubborn, proc: Option<seq<DiskRefs.Process>>, now: int) {
    && Counted(done, removed, remaining)
    && Traced(done, removed, remaining)
    && Kept(all, done, removed, remaining, was, nodes, stuck, proc, now)
  }

  lemma {:induction false} RemoveTurn(all: seq<Finding>, done: seq<Finding>, f: Finding, rest: seq<Finding>,
                                      removed: seq<Finding>, remaining: seq<Finding>, was: Nodes, before: Nodes, stuck: Stubborn,
                                      proc: Option<seq<DiskRefs.Process>>, now: int)
    requires all == done + [f] + rest && SweepingParts(all, done, removed, remaining, was, before, stuck, proc, now)
    requires Swept(f, before, stuck, proc, now)
    ensures SweepingParts(all, done + [f], removed + [f], remaining, was, SweptOnce(f, before, stuck, proc, now), stuck, proc, now)
  {
    KeepOne(all, done, f, rest, removed, remaining, was, before, stuck, proc, now);
    assert remaining + Maybe(false, LeftBehind(f, before, proc, now)) == remaining;
    TraceOne(done, removed, remaining, f, true, f.(disposition := Skip));
    CountRemoved(done, removed, remaining, f);
  }

  lemma {:induction false} KeepTurn(all: seq<Finding>, done: seq<Finding>, f: Finding, rest: seq<Finding>,
                                    removed: seq<Finding>, remaining: seq<Finding>, kept: Finding, was: Nodes, before: Nodes,
                                    stuck: Stubborn, proc: Option<seq<DiskRefs.Process>>, now: int)
    requires all == done + [f] + rest && SweepingParts(all, done, removed, remaining, was, before, stuck, proc, now)
    requires LeftAs(kept, f) && kept == LeftBehind(f, before, proc, now) && !Swept(f, before, stuck, proc, now)
    ensures SweepingParts(all, done + [f], removed, remaining + [kept], was, SweptOnce(f, before, stuck, proc, now), stuck, proc,
                          now)
  {
    KeepOne(all, done, f, rest, removed, remaining, was, before, stuck, proc, now);
    assert removed + Maybe(false, f) == removed;
    TraceOne(done, removed, remaining, f, false, kept);
    CountKept(done, removed, remaining, f, kept);
  }

  /** Where the second loop stands before turn `i`. */
  ghost predicate Sweeping(all: seq<Finding>, i: nat, removed: seq<Finding>, remaining: seq<Finding>, was: Nodes, nodes: Nodes,
                           stuck: Stubborn, proc: Option<seq<DiskRefs.Process>>, now: int) {
    i <= |all| && SweepingParts(all, all[..i], removed, remaining, was, nodes, stuck, proc, now)
  }

  lemma {:induction false} SweepTurn(all: seq<Finding>, i: nat, removed: seq<Finding>, remaining: seq<Finding>, gone: bool,
                                     kept: Finding, was: Nodes, before: Nodes, after: Nodes, stuck: Stubborn,
                                     proc: Option<seq<DiskRefs.Process>>, now: int)
    requires i < |all| && Sweeping(all, i, removed, remaining, was, before, stuck, proc, now)
    requires LeftAs(kept, all[i]) && (!gone ==> kept == LeftBehind(all[i], before, proc, now))
    requires gone <==> Swept(all[i], before, stuck, proc, now)
    requires after == SweptOnce(all[i], before, stuck, proc, now)
    ensures gone ==> Sweeping(all, i + 1, removed + [all[i]], remaining, was, after, stuck, proc, now)
    ensures !gone ==> Sweeping(all, i + 1, removed, remaining + [kept], was, after, stuck, proc, now)
  {
    var f, done, rest := all[i], all[..i], all[i + 1..];
    assert all[..i + 1] == done + [f] && all == done + [f] + rest;
    if gone {
      RemoveTurn(all, done, f, rest, removed, remaining, was, before, stuck, proc, now);
    } else {
      KeepTurn(all, done, f, rest, removed, remaining, kept, was, before, stuck, proc, now);
    }
  }

  lemma SweepStarts(all: seq<Finding>, was: Nodes, stuck: Stubborn, proc: Option<seq<DiskRefs.Process>>, now: int)
    ensures Sweeping(all, 0, [], [], was, was, stuck, proc, now)
  {
    assert all[..0] == [];
  }

  /** The loop over the findings that remain after the git cleaner. */
  method Sweep(store: Store, findings: seq<Finding>, proc: Option<seq<DiskRefs.Process>>, now: int)
    returns (remaining: seq<Finding>, records: seq<Record>, freed: nat, ghost removed: seq<Finding>)
    requires proc.Some? ==> DistinctPids(proc.value)
    modifies store`nodes
    ensures records == Records(removed) && freed == Freed(records)
    ensures Sweeping(findings, |findings|, removed, remaining, old(store.nodes), store.nodes, store.stuck, proc, now)
  {
    remaining, records, freed, removed := [], [], 0, [];
    ghost var was := store.nodes;
    SweepStarts(findings, was, store.stuck, proc, now);
    var i := 0;
    while i < |findings|
      invariant 0 <= i <= |findings|
      invariant records == Records(removed) && freed == Freed(records)
      invariant Sweeping(findings, i, removed, remaining, was, store.nodes, store.stuck, proc, now)
    {
      var f := findings[i];
      ghost var before := store.nodes;
      var gone, kept := SweepOne(store, f, proc, now);
      SweepTurn(findings, i, removed, remaining, gone, kept, was, before, store.nodes, store.stuck, proc, now);
      i := i + 1;
      if gone {
        RecordsSnoc(removed, f);
        FreedSnoc(records, RecordOf(f));
        records, freed, removed := records + [RecordOf(f)], freed + f.bytes, removed + [f];
      } else {
        remaining := remaining + [kept];
      }
    }
  }
}
