/** The two phases of `apply_with_floors` (src/disk.rs) put together: what is conserved, what a deletion needs,
  * and exactly which findings are deleted. */
module DiskApply {
  import opened Wrappers
  import opened Lexicographic
  import opened DiskTmp
  import DiskRefs
  import opened DeletionGate
  import opened GitTemp
  import opened DiskClean

  // ---------------------------------------------------------------- the git phase

  predicate ForGitCleaner(f: Finding) { f.disposition.Apply? && f.kind.GitScratch? }

  /** The candidate made from a finding, with its age read again. */
  function CandidateOf(f: Finding, reread: map<Path, nat>): Candidate {
    Candidate(f.path, f.bytes, if f.path in reread then Some(reread[f.path]) else None)
  }

  function CandidatesOf(findings: seq<Finding>, reread: map<Path, nat>): seq<Candidate> {
    if findings == [] then []
    else
      var last := findings[|findings| - 1];
      CandidatesOf(findings[..|findings| - 1], reread) + Maybe(ForGitCleaner(last), CandidateOf(last, reread))
  }

  /** Every finding stays in the report; the git scratch is also a candidate. */
  method SplitOffGitScratch(findings: seq<Finding>, reread: map<Path, nat>)
    returns (candidates: seq<Candidate>, others: seq<Finding>)
    ensures candidates == CandidatesOf(findings, reread)
    ensures others == findings
  {
    candidates, others := [], [];
    var i := 0;
    while i < |findings|
      invariant 0 <= i <= |findings|
      invariant candidates == CandidatesOf(findings[..i], reread)
      invariant others == findings[..i]
    {
      var f := findings[i];
      assert findings[..i + 1][..i] == findings[..i];
      i := i + 1;
      if f.disposition != Apply {
        others := others + [f];
        continue;
      }
      if f.kind == GitScratch { candidates := candidates + [CandidateOf(f, reread)]; }
      others := others + [f];
    }
    assert findings[..i] == findings;
  }

  lemma {:induction false} CandidatesAre(findings: seq<Finding>, reread: map<Path, nat>, c: Candidate)
    ensures c in CandidatesOf(findings, reread) <==> exists f :: f in findings && ForGitCleaner(f) && c == CandidateOf(f, reread)
    decreases |findings|
  {
    if findings != [] {
      var before, last := findings[..|findings| - 1], findings[|findings| - 1];
      assert findings == before + [last];
      CandidatesAre(before, reread, c);
    }
  }

  lemma {:induction false} CandidatesDistinct(findings: seq<Finding>, reread: map<Path, nat>)
    requires DistinctPaths(findings)
    ensures DistinctCandidates(CandidatesOf(findings, reread))
    decreases |findings|
  {
    if findings != [] {
      var before, last := findings[..|findings| - 1], findings[|findings| - 1];
      var cs := CandidatesOf(before, reread);
      CandidatesDistinct(before, reread);
      forall c | c in cs ensures c.path != last.path { CandidatesAre(before, reread, c); }
    }
  }

  lemma {:induction false} FilterDistinct(keep: Candidate -> bool, s: seq<Candidate>)
    requires DistinctCandidates(s)
    ensures DistinctCandidates(Filter(keep, s))
    decreases |s|
  {
    if s != [] {
      var before, last := s[..|s| - 1], s[|s| - 1];
      var kept := Filter(keep, before);
      FilterDistinct(keep, before);
      FilterKeeps(keep, before);
      forall c | c in kept ensures c.path != last.path {
        var i :| 0 <= i < |before| && before[i] == c;
        assert s[i].path != s[|s| - 1].path;
      }
      assert Filter(keep, s) == kept + Maybe(keep(last), last);
    }
  }

  function AwayFrom(path: Path): Finding -> bool { (f: Finding) => f.path != path }

  lemma LastIsApart(before: seq<Finding>, last: Finding)
    requires DistinctPaths(before + [last])
    ensures DistinctPaths(before) && forall g :: g in before ==> g.path != last.path
  {
    var s := before + [last];
    forall i, j | 0 <= i < j < |before| ensures before[i].path != before[j].path {
      assert s[i].path != s[j].path;
    }
    forall g | g in before ensures g.path != last.path {
      var i :| 0 <= i < |before| && before[i] == g;
      assert s[i].path != s[|before|].path;
    }
  }

  /** Dropping one path from findings with distinct paths drops one finding. */
  lemma {:induction false} DropOne(s: seq<Finding>, f: Finding)
    requires DistinctPaths(s) && f in s
    ensures multiset(Records(Filter(AwayFrom(f.path), s))) + multiset{RecordOf(f)} == multiset(Records(s))
    decreases |s|
  {
    var before, last := s[..|s| - 1], s[|s| - 1];
    var keep := AwayFrom(f.path);
    var kept := Filter(keep, before);
    assert s == before + [last];
    LastIsApart(before, last);
    RecordsSnoc(before, last);
    FilterSnoc(keep, before, last);
    if last == f {
      KeepAll(keep, before);
      assert kept + [] == before;
    } else {
      DropOne(before, f);
      RecordsSnoc(kept, last);
    }
  }

  lemma {:induction false} KeepAll(keep: Finding -> bool, s: seq<Finding>)
    requires forall f :: f in s ==> keep(f)
    ensures Filter(keep, s) == s
    decreases |s|
  {
    if s != [] { KeepAll(keep, s[..|s| - 1]); }
  }

  lemma {:induction false} FilterDistinctPaths(keep: Finding -> bool, s: seq<Finding>)
    requires DistinctPaths(s)
    ensures DistinctPaths(Filter(keep, s))
    decreases |s|
  {
    if s != [] {
      var before, last := s[..|s| - 1], s[|s| - 1];
      var kept := Filter(keep, before);
      FilterDistinctPaths(keep, before);
      FilterKeeps(keep, before);
      forall f | f in kept ensures f.path != last.path {
        var i :| 0 <= i < |before| && before[i] == f;
        assert s[i].path != s[|s| - 1].path;
      }
      assert Filter(keep, s) == kept + Maybe(keep(last), last);
    }
  }

  function OffPaths(paths: set<Path>): Finding -> bool { (f: Finding) => f.path !in paths }

  lemma {:induction false} FilterTwice(s: seq<Finding>, paths: set<Path>, path: Path)
    ensures Filter(AwayFrom(path), Filter(OffPaths(paths), s)) == Filter(OffPaths(paths + {path}), s)
    decreases |s|
  {
    if s != [] {
      var before, last := s[..|s| - 1], s[|s| - 1];
      var off := Filter(OffPaths(paths), before);
      FilterTwice(before, paths, path);
      assert s == before + [last];
      FilterSnoc(OffPaths(paths), before, last);
      FilterSnoc(OffPaths(paths + {path}), before, last);
      if last.path in paths { assert off + [] == off; } else { FilterSnoc(AwayFrom(path), off, last); }
    }
  }

  lemma {:induction false} FilterSame(keep: Finding -> bool, also: Finding -> bool, s: seq<Finding>)
    requires forall f :: f in s ==> keep(f) == also(f)
    ensures Filter(keep, s) == Filter(also, s)
    decreases |s|
  {
    if s != [] {
      assert forall f :: f in s[..|s| - 1] ==> f in s;
      FilterSame(keep, also, s[..|s| - 1]);
      assert s[|s| - 1] in s;
    }
  }

  /** The cleaned candidates are findings of the report, each once. */
  ghost predicate Matched(findings: seq<Finding>, cleaned: seq<Candidate>) {
    && DistinctPaths(findings)
    && DistinctCandidates(cleaned)
    && forall c :: c in cleaned ==> exists f :: f in findings && ForGitCleaner(f) && f.path == c.path && f.bytes == c.bytes
  }

  /** After the candidates `done`: the findings they name have moved from the report to the records. */
  ghost predicate Moved(findings: seq<Finding>, done: seq<Candidate>, removed: seq<Finding>, remaining: seq<Finding>) {
    && Counted(findings, removed, remaining)
    && (forall f :: f in remaining <==> f in findings && f.path !in Paths(done))
    && (forall f :: f in removed <==> f in findings && f.path in Paths(done))
    && (forall f :: f in removed ==> ForGitCleaner(f))
    && DistinctPaths(remaining)
    && remaining == Filter(OffPaths(Paths(done)), findings)
  }

  lemma SameFinding(s: seq<Finding>, f: Finding, h: Finding)
    requires DistinctPaths(s) && f in s && h in s && f.path == h.path
    ensures f == h
  {
    var a :| 0 <= a < |s| && s[a] == f;
    var b :| 0 <= b < |s| && s[b] == h;
    assert !(a < b) && !(b < a);
  }

  lemma MatchedFinding(findings: seq<Finding>, cleaned: seq<Candidate>, c: Candidate, f: Finding)
    requires Matched(findings, cleaned) && c in cleaned && f in findings && f.path == c.path
    ensures ForGitCleaner(f) && f.bytes == c.bytes
  {
    var g :| g in findings && ForGitCleaner(g) && g.path == c.path && g.bytes == c.bytes;
    SameFinding(findings, f, g);
  }

  lemma CountMoved(findings: seq<Finding>, removed: seq<Finding>, remaining: seq<Finding>, f: Finding)
    requires Counted(findings, removed, remaining) && DistinctPaths(remaining) && f in remaining
    ensures Counted(findings, removed + [f], Filter(AwayFrom(f.path), remaining))
  {
    DropOne(remaining, f);
    RecordsSnoc(removed, f);
  }

  lemma SpreadMoved(remaining: seq<Finding>, path: Path)
    requires DistinctPaths(remaining)
    ensures DistinctPaths(Filter(AwayFrom(path), remaining))
    ensures forall g :: g in Filter(AwayFrom(path), remaining) <==> g in remaining && g.path != path
  {
    FilterKeeps(AwayFrom(path), remaining);
    FilterDistinctPaths(AwayFrom(path), remaining);
  }

  lemma {:induction false} MoveFinding(findings: seq<Finding>, done: seq<Candidate>, c: Candidate, removed: seq<Finding>,
                                       remaining: seq<Finding>, f: Finding)
    requires DistinctPaths(findings) && Moved(findings, done, removed, remaining)
    requires f in remaining && f.path == c.path && ForGitCleaner(f)
    ensures Moved(findings, done + [c], removed + [f], Filter(AwayFrom(f.path), remaining))
  {
    PathsSnoc(done, c);
    CountMoved(findings, removed, remaining, f);
    SpreadMoved(remaining, f.path);
    FilterTwice(findings, Paths(done), f.path);
    RemovedMoved(findings, Paths(done), removed, f);
  }

  lemma RemovedMoved(findings: seq<Finding>, paths: set<Path>, removed: seq<Finding>, f: Finding)
    requires DistinctPaths(findings) && f in findings
    requires forall h :: h in removed <==> h in findings && h.path in paths
    ensures forall h :: h in removed + [f] <==> h in findings && h.path in paths + {f.path}
  {
    forall h ensures h in removed + [f] <==> h in findings && h.path in paths + {f.path} {
      if h in findings && h.path == f.path { SameFinding(findings, f, h); }
    }
  }

  lemma {:induction false} MoveOne(findings: seq<Finding>, cleaned: seq<Candidate>, i: nat, removed: seq<Finding>,
                                   remaining: seq<Finding>, f: Finding)
    requires Matched(findings, cleaned) && i < |cleaned|
    requires Moved(findings, cleaned[..i], removed, remaining)
    requires f in remaining && f.path == cleaned[i].path
    ensures ForGitCleaner(f) && f.bytes == cleaned[i].bytes
    ensures Moved(findings, cleaned[..i + 1], removed + [f], Filter(AwayFrom(f.path), remaining))
  {
    assert cleaned[i] in cleaned;
    MatchedFinding(findings, cleaned, cleaned[i], f);
    assert cleaned[..i + 1] == cleaned[..i] + [cleaned[i]];
    MoveFinding(findings, cleaned[..i], cleaned[i], removed, remaining, f);
  }

  lemma {:induction false} StillThere(findings: seq<Finding>, cleaned: seq<Candidate>, i: nat, removed: seq<Finding>,
                                      remaining: seq<Finding>)
    requires Matched(findings, cleaned) && i < |cleaned|
    requires Moved(findings, cleaned[..i], removed, remaining)
    ensures exists f :: f in remaining && f.path == cleaned[i].path
  {
    var c := cleaned[i];
    assert c in cleaned;
    var f :| f in findings && ForGitCleaner(f) && f.path == c.path && f.bytes == c.bytes;
    assert c.path !in Paths(cleaned[..i]) by {
      forall d | d in cleaned[..i] ensures d.path != c.path {
        var k :| 0 <= k < i && cleaned[k] == d;
      }
    }
    assert f in remaining;
  }

  lemma MoveStarts(findings: seq<Finding>)
    requires DistinctPaths(findings)
    ensures Moved(findings, [], [], findings)
  {
    KeepAll(OffPaths(Paths([])), findings);
  }

  method Find(s: seq<Finding>, path: Path) returns (f: Option<Finding>)
    ensures f.Some? ==> f.value in s && f.value.path == path
    ensures f.None? ==> forall g :: g in s ==> g.path != path
  {
    var i := 0;
    while i < |s|
      invariant 0 <= i <= |s|
      invariant forall k :: 0 <= k < i ==> s[k].path != path
    {
      if s[i].path == path { return Some(s[i]); }
      i := i + 1;
    }
    return None;
  }

  /** Where the loop over the cleaned candidates stands before turn `i`. */
  ghost predicate Recording(findings: seq<Finding>, cleaned: seq<Candidate>, i: nat, removed: seq<Finding>,
                            remaining: seq<Finding>, freed: nat) {
    && i <= |cleaned|
    && (Matched(findings, cleaned) ==>
          Moved(findings, cleaned[..i], removed, remaining) && freed == Freed(Records(removed)))
  }

  lemma RecordingStarts(findings: seq<Finding>, cleaned: seq<Candidate>)
    ensures Recording(findings, cleaned, 0, [], findings, 0)
  {
    assert cleaned[..0] == [];
    if DistinctPaths(findings) { MoveStarts(findings); }
  }

  lemma {:induction false} RecordTurn(findings: seq<Finding>, cleaned: seq<Candidate>, i: nat, removed: seq<Finding>,
                                      remaining: seq<Finding>, freed: nat, found: Option<Finding>)
    requires i < |cleaned| && Recording(findings, cleaned, i, removed, remaining, freed)
    requires found.Some? ==> found.value in remaining && found.value.path == cleaned[i].path
    requires found.None? ==> forall g :: g in remaining ==> g.path != cleaned[i].path
    ensures found.Some? ==>
              Recording(findings, cleaned, i + 1, removed + [found.value],
                        Filter(AwayFrom(cleaned[i].path), remaining), freed + cleaned[i].bytes)
    ensures found.None? ==> Recording(findings, cleaned, i + 1, removed, remaining, freed)
  {
    if Matched(findings, cleaned) {
      StillThere(findings, cleaned, i, removed, remaining);
      MoveOne(findings, cleaned, i, removed, remaining, found.value);
      RecordsSnoc(removed, found.value);
      FreedSnoc(Records(removed), RecordOf(found.value));
    }
  }

  /** One cleaned candidate: the finding of its path, if there is one, moves to the records. */
  method RecordOne(findings: seq<Finding>, ghost cleaned: seq<Candidate>, ghost i: nat, c: Candidate, ghost removed: seq<Finding>,
                   before: seq<Finding>, records: seq<Record>, freed: nat)
    returns (remaining: seq<Finding>, after: seq<Record>, total: nat, ghost gone: seq<Finding>)
    requires i < |cleaned| && c == cleaned[i]
    requires records == Records(removed) && Recording(findings, cleaned, i, removed, before, freed)
    ensures after == Records(gone) && Recording(findings, cleaned, i + 1, gone, remaining, total)
  {
    remaining, after, total, gone := before, records, freed, removed;
    var f := Find(before, c.path);
    RecordTurn(findings, cleaned, i, removed, before, freed, f);
    if f.Some? {
      RecordsSnoc(removed, f.value);
      total, after, gone := freed + c.bytes, records + [RecordOf(f.value)], removed + [f.value];
      remaining := Filter(AwayFrom(c.path), before);
    }
  }

  /** What the loop over the cleaned candidates achieves when they are findings of the report, each once. */
  ghost predicate MovedToRecords(findings: seq<Finding>, cleaned: seq<Candidate>, remaining: seq<Finding>,
                                 records: seq<Record>, freed: nat) {
    && multiset(records) + multiset(Records(remaining)) == multiset(Records(findings))
    && remaining == Filter(OffPaths(Paths(cleaned)), findings)
    && freed == Freed(records)
  }

  /** The loop over what the git cleaner deleted: each moves from the report to the records. */
  method RecordCleaned(findings: seq<Finding>, cleaned: seq<Candidate>)
    returns (remaining: seq<Finding>, records: seq<Record>, freed: nat, ghost removed: seq<Finding>)
    ensures records == Records(removed)
    ensures Recording(findings, cleaned, |cleaned|, removed, remaining, freed)
    ensures Matched(findings, cleaned) ==> MovedToRecords(findings, cleaned, remaining, records, freed)
  {
    remaining, records, freed, removed := findings, [], 0, [];
    RecordingStarts(findings, cleaned);
    var i := 0;
    while i < |cleaned|
      invariant 0 <= i <= |cleaned|
      invariant records == Records(removed)
      invariant Recording(findings, cleaned, i, removed, remaining, freed)
    {
      remaining, records, freed, removed := RecordOne(findings, cleaned, i, cleaned[i], removed, remaining, records, freed);
      i := i + 1;
    }
    RecordingEnds(findings, cleaned, removed, remaining, freed);
  }

  lemma RecordingEnds(findings: seq<Finding>, cleaned: seq<Candidate>, removed: seq<Finding>, remaining: seq<Finding>,
                      freed: nat)
    requires Recording(findings, cleaned, |cleaned|, removed, remaining, freed)
    ensures Matched(findings, cleaned) ==> MovedToRecords(findings, cleaned, remaining, Records(removed), freed)
  {
    assert cleaned[..|cleaned|] == cleaned;
  }

  // ---------------------------------------------------------------- the whole of `apply_with_floors`

  function OwnedIn(owners: seq<GitOwner>): Path -> bool { (path: Path) => Owned(owners, path) }

  /** What the run was given. */
  datatype Given = Given(
    findings: seq<Finding>,
    nodes: Nodes,
    stuck: Stubborn,
    proc: Option<seq<DiskRefs.Process>>,
    owners: seq<GitOwner>,
    reread: map<Path, nat>,
    minAge: nat,
    now: int)

  /** The git cleaner deletes the finding: no packer owns it, it is old enough and it can be unlinked. */
  predicate CleanedAsScratch(g: Given, f: Finding) {
    && ForGitCleaner(f)
    && Clear(CandidateOf(f, g.reread), OwnedIn(g.owners), g.minAge)
    && Unlinks(g.nodes, g.stuck, f.path)
  }

  /** Each finding ends as one record or one remaining finding. */
  ghost predicate Conserved(g: Given, records: seq<Record>, remaining: seq<Finding>) {
    && multiset(records) + multiset(Records(remaining)) == multiset(Records(g.findings))
    && (forall r :: r in records ==> exists f :: f in g.findings && f.disposition.Apply? && RecordOf(f) == r)
    && (forall k :: k in remaining ==> ComesFrom(k, g.findings))
    && (forall f :: f in g.findings && !f.disposition.Apply? ==> f in remaining)
  }

  /** Whatever changed was scratch of no packer and old, or a finding that nothing used, or lay in a directory among
      the findings that nothing used and that held nothing younger than the floor it was found under. */
  ghost predicate Licensed(g: Given, nodes: Nodes) {
    && nodes.Keys <= g.nodes.Keys
    && forall k :: k in g.nodes && (k !in nodes || nodes[k] != g.nodes[k]) ==> exists f :: f in g.findings && Licenses(g, f, k)
  }

  ghost predicate Licenses(g: Given, f: Finding, k: Path) {
    || (f.path == k && (CleanedAsScratch(g, f) || Permitted(f, g.nodes, g.proc, g.now)))
    || (f.path < k && f.path in g.nodes && g.nodes[f.path].Dir? && Permitted(f, g.nodes, g.proc, g.now))
  }

  /** No record without a finding that was clear scratch or permitted. */
  ghost predicate OnlyAllowed(g: Given, records: seq<Record>) {
    forall r :: r in records ==>
      exists f :: f in g.findings && RecordOf(f) == r && (CleanedAsScratch(g, f) || Permitted(f, g.nodes, g.proc, g.now))
  }

  function StaysForSweep(g: Given): Finding -> bool { (f: Finding) => !CleanedAsScratch(g, f) }

  /** What the second loop removes of the findings the git cleaner left. */
  ghost function SweptOf(g: Given): seq<Finding> {
    SweptList(Filter(StaysForSweep(g), g.findings), g.nodes, g.stuck, g.proc, g.now)
  }

  /** Exactly the scratch the git cleaner takes and what the second loop removes. */
  ghost predicate Exact(g: Given, records: seq<Record>) {
    forall f :: f in g.findings ==> (RecordOf(f) in records <==> CleanedAsScratch(g, f) || f in SweptOf(g))
  }

  /** The path goes: as clear scratch, as a finding the second loop may remove and can, or along with a directory. */
  ghost predicate Goes(g: Given, k: Path) {
    || (exists f :: f in g.findings && f.path == k && CleanedAsScratch(g, f))
    || Taken(g.findings, k, g.nodes, g.stuck, g.proc, g.now)
  }

  /** The store after the run: what does not go, and the trees whose removal failed half way. */
  ghost function StoreAfter(g: Given): Nodes {
    map k | k in g.nodes && !Goes(g, k)
      :: if Battered(g.findings, k, g.nodes, g.stuck, g.proc, g.now) then g.stuck.left[k] else g.nodes[k]
  }

  /** What the report holds after the run. */
  ghost function LeftOf(g: Given): seq<Finding> {
    LeftList(Filter(StaysForSweep(g), g.findings), g.nodes, g.stuck, g.proc, g.now)
  }

  /** Findings are conserved, store and report are left as they must be, nothing goes without licence, and the records
      are exactly the deletions that had to happen. */
  ghost predicate Complete(g: Given, records: seq<Record>, remaining: seq<Finding>, nodes: Nodes) {
    && Conserved(g, records, remaining)
    && nodes == StoreAfter(g) && remaining == LeftOf(g)
    && Licensed(g, nodes)
    && OnlyAllowed(g, records)
    && Exact(g, records)
  }

  // The run between its two phases.

  /** What the git cleaner and the loop after it have done: `between` and `middle` are the nodes and the report
      the second loop starts from. */
  ghost predicate FirstPhase(g: Given, o: Outcome, between: Nodes, gone: seq<Finding>, middle: seq<Finding>, freed: nat) {
    && Progress(CandidatesOf(g.findings, g.reread), o, g.minAge, OwnedIn(g.owners), true, g.nodes, between, g.stuck)
    && Recording(g.findings, o.cleaned, |o.cleaned|, gone, middle, freed)
  }

  ghost predicate SecondPhase(g: Given, between: Nodes, middle: seq<Finding>, swept: seq<Finding>, rest: seq<Finding>,
                              nodes: Nodes) {
    Sweeping(middle, |middle|, swept, rest, between, nodes, g.stuck, g.proc, g.now)
  }

  lemma CleanedCandidates(g: Given, o: Outcome, between: Nodes)
    requires DistinctPaths(g.findings)
    requires Progress(CandidatesOf(g.findings, g.reread), o, g.minAge, OwnedIn(g.owners), true, g.nodes, between, g.stuck)
    ensures DistinctCandidates(o.cleaned)
    ensures forall c :: c in o.cleaned <==>
              && c in CandidatesOf(g.findings, g.reread)
              && Clear(c, OwnedIn(g.owners), g.minAge)
              && Unlinks(g.nodes, g.stuck, c.path)
  {
    var goes := GoneBy(OwnedIn(g.owners), g.minAge, g.nodes, g.stuck);
    CandidatesDistinct(g.findings, g.reread);
    FilterDistinct(goes, CandidatesOf(g.findings, g.reread));
    FilterKeeps(goes, CandidatesOf(g.findings, g.reread));
  }

  lemma CleanedMatches(g: Given, o: Outcome, between: Nodes)
    requires DistinctPaths(g.findings)
    requires Progress(CandidatesOf(g.findings, g.reread), o, g.minAge, OwnedIn(g.owners), true, g.nodes, between, g.stuck)
    ensures Matched(g.findings, o.cleaned)
  {
    CleanedCandidates(g, o, between);
    forall c | c in o.cleaned
      ensures exists f :: f in g.findings && ForGitCleaner(f) && f.path == c.path && f.bytes == c.bytes
    {
      CandidatesAre(g.findings, g.reread, c);
    }
  }

  lemma CleanedPathIff(g: Given, o: Outcome, between: Nodes, f: Finding)
    requires DistinctPaths(g.findings) && f in g.findings
    requires Progress(CandidatesOf(g.findings, g.reread), o, g.minAge, OwnedIn(g.owners), true, g.nodes, between, g.stuck)
    ensures f.path in Paths(o.cleaned) <==> CleanedAsScratch(g, f)
  {
    CleanedCandidates(g, o, between);
    CandidatesAre(g.findings, g.reread, CandidateOf(f, g.reread));
    if f.path in Paths(o.cleaned) {
      var c :| c in o.cleaned && c.path == f.path;
      CandidatesAre(g.findings, g.reread, c);
      var h :| h in g.findings && ForGitCleaner(h) && c == CandidateOf(h, g.reread);
      SameFinding(g.findings, f, h);
    }
    if CleanedAsScratch(g, f) { assert CandidateOf(f, g.reread) in o.cleaned; }
  }

  /** The git cleaner has taken exactly the findings it should, from the report and from the nodes. */
  ghost predicate Divided(g: Given, gone: seq<Finding>, middle: seq<Finding>, between: Nodes) {
    && Counted(g.findings, gone, middle)
    && (forall f :: f in gone <==> f in g.findings && CleanedAsScratch(g, f))
    && (forall f :: f in middle <==> f in g.findings && !CleanedAsScratch(g, f))
    && DistinctPaths(middle)
    && middle == Filter(StaysForSweep(g), g.findings)
    && between.Keys <= g.nodes.Keys
    && (forall k :: k in between ==> between[k] == g.nodes[k])
    && (forall k :: k in g.nodes && k !in between ==> exists f :: f in g.findings && f.path == k && CleanedAsScratch(g, f))
    && (forall f :: f in middle && f.path in g.nodes ==> f.path in between)
    && (forall f :: f in g.findings && CleanedAsScratch(g, f) ==> f.path !in between)
  }

  lemma FirstPhaseDivides(g: Given, o: Outcome, between: Nodes, gone: seq<Finding>, middle: seq<Finding>, freed: nat)
    requires DistinctPaths(g.findings) && FirstPhase(g, o, between, gone, middle, freed)
    ensures Divided(g, gone, middle, between) && freed == Freed(Records(gone))
  {
    CleanedMatches(g, o, between);
    assert o.cleaned[..|o.cleaned|] == o.cleaned;
    forall f | f in g.findings ensures f.path in Paths(o.cleaned) <==> CleanedAsScratch(g, f) {
      CleanedPathIff(g, o, between, f);
    }
    FilterSame(OffPaths(Paths(o.cleaned)), StaysForSweep(g), g.findings);
    forall k | k in g.nodes && k !in between
      ensures exists f :: f in g.findings && f.path == k && CleanedAsScratch(g, f)
    {
      var c :| c in o.cleaned && c.path == k;
      var f :| f in g.findings && ForGitCleaner(f) && f.path == c.path && f.bytes == c.bytes;
    }
  }

  lemma {:induction false} RecordsAre(s: seq<Finding>, r: Record)
    ensures r in Records(s) <==> exists f :: f in s && RecordOf(f) == r
    decreases |s|
  {
    if s != [] {
      assert s == s[..|s| - 1] + [s[|s| - 1]];
      RecordsAre(s[..|s| - 1], r);
    }
  }

  lemma {:induction false} FreedConcat(a: seq<Record>, b: seq<Record>)
    ensures Freed(a + b) == Freed(a) + Freed(b)
    decreases |b|
  {
    if b == [] {
      assert a + b == a;
    } else {
      var before, last := b[..|b| - 1], b[|b| - 1];
      FreedConcat(a, before);
      assert a + b == (a + before) + [last];
      FreedSnoc(a + before, last);
    }
  }

  lemma ConservedByBoth(g: Given, between: Nodes, gone: seq<Finding>, middle: seq<Finding>, swept: seq<Finding>,
                        rest: seq<Finding>, nodes: Nodes)
    requires Divided(g, gone, middle, between)
    requires SecondPhase(g, between, middle, swept, rest, nodes)
    ensures Conserved(g, Records(gone) + Records(swept), rest)
  {
    assert middle[..|middle|] == middle;
    var records := Records(gone) + Records(swept);
    forall r | r in records ensures exists f :: f in g.findings && f.disposition.Apply? && RecordOf(f) == r {
      RecordsAre(gone, r);
      RecordsAre(swept, r);
    }
    forall k | k in rest ensures ComesFrom(k, g.findings) {
      assert ComesFrom(k, middle);
      var f :| f in middle && LeftAs(k, f);
      assert f in g.findings;
    }
    forall f | f in g.findings && !f.disposition.Apply? ensures f in rest { assert f in middle; }
  }

  /** The second loop treats what the git cleaner left as it would have treated it at first. */
  lemma SweptAlike(g: Given, between: Nodes, gone: seq<Finding>, middle: seq<Finding>, f: Finding)
    requires Divided(g, gone, middle, between) && f in middle
    ensures f.path in between <==> f.path in g.nodes
    ensures f.path in g.nodes ==> between[f.path] == g.nodes[f.path]
    ensures Swept(f, between, g.stuck, g.proc, g.now) <==> Swept(f, g.nodes, g.stuck, g.proc, g.now)
    ensures GivenUp(f, between, g.stuck, g.proc, g.now) <==> GivenUp(f, g.nodes, g.stuck, g.proc, g.now)
  {
  }

  lemma TakenAlike(g: Given, between: Nodes, gone: seq<Finding>, middle: seq<Finding>, k: Path)
    requires Divided(g, gone, middle, between)
    ensures TakenAlong(middle, k, between, g.stuck, g.proc, g.now) <==>
            TakenAlong(g.findings, k, g.nodes, g.stuck, g.proc, g.now)
    ensures Battered(middle, k, between, g.stuck, g.proc, g.now) <==>
            Battered(g.findings, k, g.nodes, g.stuck, g.proc, g.now)
    ensures k in between ==>
              (Taken(middle, k, between, g.stuck, g.proc, g.now) <==> Taken(g.findings, k, g.nodes, g.stuck, g.proc, g.now))
  {
    forall f | f in middle
      ensures Swept(f, between, g.stuck, g.proc, g.now) <==> Swept(f, g.nodes, g.stuck, g.proc, g.now)
      ensures GivenUp(f, between, g.stuck, g.proc, g.now) <==> GivenUp(f, g.nodes, g.stuck, g.proc, g.now)
      ensures f.path in g.nodes ==> f.path in between && between[f.path] == g.nodes[f.path]
    {
      SweptAlike(g, between, gone, middle, f);
    }
  }

  lemma StoreAlikeAt(g: Given, between: Nodes, gone: seq<Finding>, middle: seq<Finding>, k: Path)
    requires Divided(g, gone, middle, between)
    ensures var after := SweptStore(middle, between, g.stuck, g.proc, g.now);
      && (k in after <==> k in StoreAfter(g))
      && (k in after ==> after[k] == StoreAfter(g)[k])
  {
    TakenAlike(g, between, gone, middle, k);
    assert k in between <==> k in g.nodes && !exists f :: f in g.findings && f.path == k && CleanedAsScratch(g, f);
  }

  lemma StoreAlike(g: Given, between: Nodes, gone: seq<Finding>, middle: seq<Finding>)
    requires Divided(g, gone, middle, between)
    ensures SweptStore(middle, between, g.stuck, g.proc, g.now) == StoreAfter(g)
  {
    var after, goal := SweptStore(middle, between, g.stuck, g.proc, g.now), StoreAfter(g);
    forall k ensures (k in after <==> k in goal) && (k in after ==> after[k] == goal[k]) {
      StoreAlikeAt(g, between, gone, middle, k);
    }
  }

  lemma StoreByBoth(g: Given, between: Nodes, gone: seq<Finding>, middle: seq<Finding>, swept: seq<Finding>,
                    rest: seq<Finding>, nodes: Nodes)
    requires Divided(g, gone, middle, between)
    requires SecondPhase(g, between, middle, swept, rest, nodes)
    ensures nodes == StoreAfter(g) && rest == LeftOf(g)
  {
    assert middle[..|middle|] == middle;
    StoreAlike(g, between, gone, middle);
    SweptBetween(g, between, gone, middle);
  }

  /** The exact store has no change without licence. */
  lemma StoreIsLicensed(g: Given)
    ensures Licensed(g, StoreAfter(g))
  {
    var nodes := StoreAfter(g);
    forall k | k in g.nodes && (k !in nodes || nodes[k] != g.nodes[k])
      ensures exists f :: f in g.findings && Licenses(g, f, k)
    {
      if f :| f in g.findings && f.path == k && CleanedAsScratch(g, f) {
        assert Licenses(g, f, k);
      } else if f :| f in g.findings && f.path == k && Permitted(f, g.nodes, g.proc, g.now) {
        assert Licenses(g, f, k);
      } else {
        assert TakenAlong(g.findings, k, g.nodes, g.stuck, g.proc, g.now);
        var f :| f in g.findings && TakesAlong(f, k, g.nodes, g.stuck, g.proc, g.now);
        assert Licenses(g, f, k);
      }
    }
  }

  lemma {:induction false} SweptListIsPart(s: seq<Finding>, was: Nodes, stuck: Stubborn, proc: Option<seq<DiskRefs.Process>>,
                                           now: int)
    ensures forall f :: f in SweptList(s, was, stuck, proc, now) ==> f in s && Swept(f, was, stuck, proc, now)
    decreases |s|
  {
    if s != [] {
      SweptListIsPart(s[..|s| - 1], was, stuck, proc, now);
      assert s == s[..|s| - 1] + [s[|s| - 1]];
    }
  }

  /** The same nodes at the findings give the same removals. */
  lemma {:induction false} SweptListSame(s: seq<Finding>, was: Nodes, other: Nodes, stuck: Stubborn,
                                         proc: Option<seq<DiskRefs.Process>>, now: int)
    requires forall f :: f in s ==> (f.path in was <==> f.path in other) && (f.path in was ==> was[f.path] == other[f.path])
    ensures SweptList(s, was, stuck, proc, now) == SweptList(s, other, stuck, proc, now)
    decreases |s|
  {
    if s != [] {
      var before, last := s[..|s| - 1], s[|s| - 1];
      assert s == before + [last];
      SweptListSame(before, was, other, stuck, proc, now);
      TakenAlongSame(before, last.path, was, other, stuck, proc, now);
      assert last in s;
    }
  }

  lemma {:induction false} LeftListSame(s: seq<Finding>, was: Nodes, other: Nodes, stuck: Stubborn,
                                        proc: Option<seq<DiskRefs.Process>>, now: int)
    requires forall f :: f in s ==> (f.path in was <==> f.path in other) && (f.path in was ==> was[f.path] == other[f.path])
    ensures LeftList(s, was, stuck, proc, now) == LeftList(s, other, stuck, proc, now)
    decreases |s|
  {
    if s != [] {
      var before, last := s[..|s| - 1], s[|s| - 1];
      assert s == before + [last];
      LeftListSame(before, was, other, stuck, proc, now);
      TakenAlongSame(before, last.path, was, other, stuck, proc, now);
      LeftBehindSame(last, TakenAlong(before, last.path, was, stuck, proc, now), was, other, stuck, proc, now);
    }
  }

  lemma LeftBehindSame(f: Finding, along: bool, was: Nodes, other: Nodes, stuck: Stubborn,
                       proc: Option<seq<DiskRefs.Process>>, now: int)
    requires (f.path in was <==> f.path in other) && (f.path in was ==> was[f.path] == other[f.path])
    ensures Swept(f, was, stuck, proc, now) <==> Swept(f, other, stuck, proc, now)
    ensures LeftBehind(f, if along then map[] else was, proc, now) == LeftBehind(f, if along then map[] else other, proc, now)
  {
  }

  lemma TakenAlongSame(s: seq<Finding>, k: Path, was: Nodes, other: Nodes, stuck: Stubborn,
                       proc: Option<seq<DiskRefs.Process>>, now: int)
    requires forall f :: f in s ==> (f.path in was <==> f.path in other) && (f.path in was ==> was[f.path] == other[f.path])
    ensures TakenAlong(s, k, was, stuck, proc, now) <==> TakenAlong(s, k, other, stuck, proc, now)
  {
    forall f | f in s ensures TakesAlong(f, k, was, stuck, proc, now) <==> TakesAlong(f, k, other, stuck, proc, now) {
    }
  }

  lemma SweptBetween(g: Given, between: Nodes, gone: seq<Finding>, middle: seq<Finding>)
    requires Divided(g, gone, middle, between)
    ensures SweptList(middle, between, g.stuck, g.proc, g.now) == SweptOf(g)
    ensures LeftList(middle, between, g.stuck, g.proc, g.now) == LeftOf(g)
  {
    SweptListSame(middle, between, g.nodes, g.stuck, g.proc, g.now);
    LeftListSame(middle, between, g.nodes, g.stuck, g.proc, g.now);
  }

  lemma AllowedByBoth(g: Given, between: Nodes, gone: seq<Finding>, middle: seq<Finding>, swept: seq<Finding>,
                      rest: seq<Finding>, nodes: Nodes)
    requires Divided(g, gone, middle, between)
    requires SecondPhase(g, between, middle, swept, rest, nodes)
    ensures OnlyAllowed(g, Records(gone) + Records(swept))
  {
    assert middle[..|middle|] == middle;
    forall r | r in Records(gone) + Records(swept)
      ensures exists f :: f in g.findings && RecordOf(f) == r && (CleanedAsScratch(g, f) || Permitted(f, g.nodes, g.proc, g.now))
    {
      RecordsAre(gone, r);
      RecordsAre(swept, r);
      if f :| f in swept && RecordOf(f) == r {
        SweptListIsPart(middle, between, g.stuck, g.proc, g.now);
        SweptAlike(g, between, gone, middle, f);
        assert Permitted(f, g.nodes, g.proc, g.now);
      }
    }
  }

  lemma ExactByBoth(g: Given, between: Nodes, gone: seq<Finding>, middle: seq<Finding>, swept: seq<Finding>,
                    rest: seq<Finding>, nodes: Nodes)
    requires DistinctPaths(g.findings) && Divided(g, gone, middle, between)
    requires SecondPhase(g, between, middle, swept, rest, nodes)
    ensures Exact(g, Records(gone) + Records(swept))
  {
    assert middle[..|middle|] == middle;
    SweptBetween(g, between, gone, middle);
    SweptListIsPart(middle, between, g.stuck, g.proc, g.now);
    forall f | f in g.findings
      ensures RecordOf(f) in Records(gone) + Records(swept) <==> CleanedAsScratch(g, f) || f in SweptOf(g)
    {
      RecordsAre(gone, RecordOf(f));
      RecordsAre(swept, RecordOf(f));
      forall h | h in g.findings && RecordOf(h) == RecordOf(f) ensures h == f { SameFinding(g.findings, f, h); }
    }
  }

  lemma NoneIsLeftToApply(middle: seq<Finding>, swept: seq<Finding>, rest: seq<Finding>, between: Nodes, nodes: Nodes,
                          stuck: Stubborn, proc: Option<seq<DiskRefs.Process>>, now: int)
    requires Sweeping(middle, |middle|, swept, rest, between, nodes, stuck, proc, now)
    ensures forall k :: k in rest ==> !k.disposition.Apply?
  {
    forall k | k in rest ensures !k.disposition.Apply? { assert ComesFrom(k, middle[..|middle|]); }
  }

  lemma RunIsComplete(g: Given, o: Outcome, between: Nodes, gone: seq<Finding>, middle: seq<Finding>, freed: nat,
                      swept: seq<Finding>, rest: seq<Finding>, nodes: Nodes)
    requires FirstPhase(g, o, between, gone, middle, freed) && SecondPhase(g, between, middle, swept, rest, nodes)
    ensures forall k :: k in rest ==> !k.disposition.Apply?
    ensures DistinctPaths(g.findings) ==> freed == Freed(Records(gone))
    ensures DistinctPaths(g.findings) ==> Complete(g, Records(gone) + Records(swept), rest, nodes)
  {
    NoneIsLeftToApply(middle, swept, rest, between, nodes, g.stuck, g.proc, g.now);
    if DistinctPaths(g.findings) {
      FirstPhaseDivides(g, o, between, gone, middle, freed);
      ConservedByBoth(g, between, gone, middle, swept, rest, nodes);
      StoreByBoth(g, between, gone, middle, swept, rest, nodes);
      StoreIsLicensed(g);
      AllowedByBoth(g, between, gone, middle, swept, rest, nodes);
      ExactByBoth(g, between, gone, middle, swept, rest, nodes);
    }
  }

  class DiskReport {
    var findings: seq<Finding>

    constructor (findings: seq<Finding>)
      ensures this.findings == findings
    {
      this.findings := findings;
    }

    ghost function Start(store: Store, proc: Option<seq<DiskRefs.Process>>, owners: seq<GitOwner>, reread: map<Path, nat>,
                         minAge: nat, now: int): Given
      reads this, store
    {
      Given(findings, store.nodes, store.stuck, proc, owners, reread, minAge, now)
    }

    method ApplyWithFloors(store: Store, proc: Option<seq<DiskRefs.Process>>, owners: seq<GitOwner>, reread: map<Path, nat>,
                           minAge: nat, now: int)
      returns (freed: nat, records: seq<Record>)
      requires proc.Some? ==> DistinctPids(proc.value)
      modifies this, store`nodes
      ensures forall k :: k in findings ==> !k.disposition.Apply?
      ensures var g := old(Start(store, proc, owners, reread, minAge, now));
        DistinctPaths(g.findings) ==> freed == Freed(records) && Complete(g, records, findings, store.nodes)
    {
      ghost var g := Start(store, proc, owners, reread, minAge, now);
      var candidates, others := SplitOffGitScratch(findings, reread);
      findings := others;
      var outcome := CleanGitTempFiles(store, candidates, minAge, OwnedIn(owners), true);
      ghost var between := store.nodes;
      ghost var gone, swept;
      var rest, moreRecords, more;
      rest, records, freed, gone := RecordCleaned(findings, outcome.cleaned);
      findings := rest;
      rest, moreRecords, more, swept := Sweep(store, findings, proc, now);
      RunIsComplete(g, outcome, between, gone, findings, freed, swept, rest, store.nodes);
      FreedConcat(records, moreRecords);
      findings, records, freed := rest, records + moreRecords, freed + more;
    }
  }

  // ---------------------------------------------------------------- what that means

  /** Position by position: a finding is removed exactly when the loop may and can remove it and no directory removed
      before it contained it. */
  lemma {:induction false} SweptListAt(s: seq<Finding>, i: nat, was: Nodes, stuck: Stubborn,
                                       proc: Option<seq<DiskRefs.Process>>, now: int)
    requires DistinctPaths(s) && i < |s|
    ensures s[i] in SweptList(s, was, stuck, proc, now) <==>
            Swept(s[i], was, stuck, proc, now) && !TakenAlong(s[..i], s[i].path, was, stuck, proc, now)
    decreases |s|
  {
    var before, last := s[..|s| - 1], s[|s| - 1];
    assert s == before + [last];
    SweptListIsPart(before, was, stuck, proc, now);
    LastIsApart(before, last);
    if i < |before| {
      SweptListAt(before, i, was, stuck, proc, now);
      assert before[..i] == s[..i] && s[i] in before;
    } else {
      assert s[..i] == before;
    }
  }

  lemma {:induction false} LeftListAt(s: seq<Finding>, i: nat, was: Nodes, stuck: Stubborn,
                                      proc: Option<seq<DiskRefs.Process>>, now: int)
    requires i < |s|
    ensures var along := TakenAlong(s[..i], s[i].path, was, stuck, proc, now);
      along || !Swept(s[i], was, stuck, proc, now) ==>
        LeftBehind(s[i], if along then map[] else was, proc, now) in LeftList(s, was, stuck, proc, now)
    decreases |s|
  {
    var before, last := s[..|s| - 1], s[|s| - 1];
    if i < |before| {
      LeftListAt(before, i, was, stuck, proc, now);
      assert before[..i] == s[..i];
    } else {
      assert s[..i] == before;
    }
  }

  /** What becomes of a finding that is not removed: it is REPORT exactly when nothing used the directory that still
      stood at its turn and that directory was not idle for its floor, or when it was REPORT already. */
  lemma LeftForReportIff(g: Given, i: nat) returns (k: Finding)
    requires DistinctPaths(g.findings) && i < |Filter(StaysForSweep(g), g.findings)|
    requires Filter(StaysForSweep(g), g.findings)[i] !in SweptOf(g)
    ensures k in LeftOf(g)
    ensures var left := Filter(StaysForSweep(g), g.findings);
            var f := left[i];
      && RecordOf(k) == RecordOf(f) && k.floor == f.floor
      && (f.disposition != Apply ==> k.disposition == f.disposition)
      && (f.disposition == Apply ==>
            k.disposition == if !Forbidden(g.proc, f.path) && f.path in g.nodes && g.nodes[f.path].Dir?
                                && !TakenAlong(left[..i], f.path, g.nodes, g.stuck, g.proc, g.now)
                                && (f.floor.None? || !Idle(g.nodes[f.path], g.now, f.floor.value))
                             then Report else Skip)
  {
    var left := Filter(StaysForSweep(g), g.findings);
    FilterDistinctPaths(StaysForSweep(g), g.findings);
    SweptListAt(left, i, g.nodes, g.stuck, g.proc, g.now);
    LeftListAt(left, i, g.nodes, g.stuck, g.proc, g.now);
    var along := TakenAlong(left[..i], left[i].path, g.nodes, g.stuck, g.proc, g.now);
    k := LeftBehind(left[i], if along then map[] else g.nodes, g.proc, g.now);
  }

  /** A finding that stood there is gone exactly when it is recorded or a directory took it along; so every record is
      of a path that is gone. */
  lemma GoneIffRecordedOrTakenAlong(g: Given, records: seq<Record>, f: Finding)
    requires DistinctPaths(g.findings) && Exact(g, records) && f in g.findings && f.path in g.nodes
    ensures f.path !in StoreAfter(g) <==>
            RecordOf(f) in records || TakenAlong(g.findings, f.path, g.nodes, g.stuck, g.proc, g.now)
  {
    var left := Filter(StaysForSweep(g), g.findings);
    FilterKeeps(StaysForSweep(g), g.findings);
    FilterDistinctPaths(StaysForSweep(g), g.findings);
    SweptListIsPart(left, g.nodes, g.stuck, g.proc, g.now);
    forall h | h in g.findings && h.path == f.path ensures h == f { SameFinding(g.findings, h, f); }
    if f in left && Swept(f, g.nodes, g.stuck, g.proc, g.now) {
      var i :| 0 <= i < |left| && left[i] == f;
      SweptListAt(left, i, g.nodes, g.stuck, g.proc, g.now);
    }
  }

  /** A directory with unreadable content, content younger than its floor, or no floor is never recorded as deleted,
      and it changes only under a finding that contains it and was permitted itself. */
  lemma NoFreshTreeIsTouched(g: Given, records: seq<Record>, nodes: Nodes, f: Finding)
    requires DistinctPaths(g.findings) && Licensed(g, nodes) && OnlyAllowed(g, records)
    requires f in g.findings && f.path in g.nodes && g.nodes[f.path].Dir?
    requires f.floor.None? || !OldListing(g.nodes[f.path].listing, g.now, f.floor.value)
    ensures RecordOf(f) !in records
    ensures f.path !in nodes || nodes[f.path] != g.nodes[f.path] ==>
              exists h :: h in g.findings && h.path < f.path && Permitted(h, g.nodes, g.proc, g.now)
  {
    assert !Permitted(f, g.nodes, g.proc, g.now) && !CleanedAsScratch(g, f);
    forall h | h in g.findings && h.path == f.path ensures h == f { SameFinding(g.findings, f, h); }
    if f.path !in nodes || nodes[f.path] != g.nodes[f.path] {
      var h :| h in g.findings && Licenses(g, h, f.path);
      assert h.path != f.path;
    }
  }

  // One file system: what stands below a directory is in its listing.

  predicate Inside(n: Node, listing: Listing)
    decreases listing
  {
    && listing.Listed?
    && exists i :: 0 <= i < |listing.entries|
         && (listing.entries[i] == n || (listing.entries[i].Dir? && Inside(n, listing.entries[i].listing)))
  }

  ghost predicate OneFileSystem(nodes: Nodes) {
    forall p, q :: p in nodes && q in nodes && p < q ==> nodes[p].Dir? && Inside(nodes[q], nodes[p].listing)
  }

  lemma {:induction false} InsideOldIsOld(n: Node, listing: Listing, now: int, hours: nat)
    requires OldListing(listing, now, hours) && Inside(n, listing)
    ensures Old(n, now, hours)
    decreases listing
  {
    var i :| 0 <= i < |listing.entries|
             && (listing.entries[i] == n || (listing.entries[i].Dir? && Inside(n, listing.entries[i].listing)));
    assert Old(listing.entries[i], now, hours);
    if listing.entries[i] != n { InsideOldIsOld(n, listing.entries[i].listing, now, hours); }
  }

  /** Nothing young goes along with a tree: whatever changed was clear scratch, or a permitted finding itself, or
      is as old as the floor of the permitted directory that contained it. */
  lemma WhatGoesAlongIsOld(g: Given, nodes: Nodes, k: Path)
    requires Licensed(g, nodes) && OneFileSystem(g.nodes)
    requires k in g.nodes && (k !in nodes || nodes[k] != g.nodes[k])
    ensures exists f :: f in g.findings && Licenses(g, f, k)
                        && (f.path < k ==> f.path in g.nodes && f.floor.Some? && Old(g.nodes[k], g.now, f.floor.value))
  {
    var f :| f in g.findings && Licenses(g, f, k);
    if f.path < k { InsideOldIsOld(g.nodes[k], g.nodes[f.path].listing, g.now, f.floor.value); }
  }

  /** Scratch that the git cleaner refuses, as owned or as fresh, is gone after the run exactly when no process uses
      the file itself and it can be unlinked, because the second loop does not look at the class, or when a directory
      took it along, removed with all it held or failing only after that. */
  lemma RefusedScratchGoesIff(g: Given, f: Finding)
    requires DistinctPaths(g.findings) && f in g.findings && ForGitCleaner(f)
    requires f.path in g.nodes && !g.nodes[f.path].Dir?
    requires Owned(g.owners, f.path) || !IsExpired(CandidateOf(f, g.reread), g.minAge)
    ensures f.path !in StoreAfter(g) <==>
            || (!Forbidden(g.proc, f.path) && f.path !in g.stuck.left)
            || TakenAlong(g.findings, f.path, g.nodes, g.stuck, g.proc, g.now)
  {
    forall h | h in g.findings && h.path == f.path ensures h == f { SameFinding(g.findings, h, f); }
    assert Swept(f, g.nodes, g.stuck, g.proc, g.now) <==> !Forbidden(g.proc, f.path) && f.path !in g.stuck.left;
  }

  const REPO: Path := ["/", "r"]
  const SCRATCH: Path := REPO + [".git", "objects", "pack", "tmp_pack_a"]

  function ScratchFinding(): Finding { Finding(GitScratch, SCRATCH, 1, Apply, None) }

  /** A run: one old scratch file that nothing holds open, in a repository where a packer is at work. The git
      cleaner refuses it as owned, and the second loop deletes it. */
  method DeleteOwnedScratch() returns (owners: seq<GitOwner>, was: Nodes, store: Store, records: seq<Record>)
    ensures Owned(owners, SCRATCH) && SCRATCH in was
    ensures fresh(store) && SCRATCH !in store.nodes && RecordOf(ScratchFinding()) in records
  {
    owners, was := [GitOwner(7, Some(REPO), true)], map[SCRATCH := File(Some(0), 1)];
    store := new Store(was, Stubborn(map[], map[]));
    var report := new DiskReport([ScratchFinding()]);
    ghost var g := report.Start(store, Some([]), owners, map[SCRATCH := 5], 1, 0);
    var freed;
    freed, records := report.ApplyWithFloors(store, Some([]), owners, map[SCRATCH := 5], 1, 0);
    ScratchIsOwned(owners);
    assert !Forbidden(g.proc, SCRATCH) by { assert g.proc.value == []; }
    OwnedScratchIsDeleted(g, ScratchFinding(), records);
  }

  lemma ScratchIsOwned(owners: seq<GitOwner>)
    requires owners == [GitOwner(7, Some(REPO), true)]
    ensures Owned(owners, SCRATCH)
  {
    assert SCRATCH == REPO + [".git"] + ["objects", "pack", "tmp_pack_a"];
    ScratchBelongsToItsRepo(REPO, ["objects", "pack", "tmp_pack_a"]);
    assert owners[0] in owners && WorksIn(owners[0], REPO);
  }

  /** Alone in the report, unused and unlinkable: owned by a packer or not, it goes. */
  lemma OwnedScratchIsDeleted(g: Given, f: Finding, records: seq<Record>)
    requires g.findings == [f] && Exact(g, records)
    requires ForGitCleaner(f) && f.path in g.nodes && !g.nodes[f.path].Dir? && f.path !in g.stuck.left
    requires Owned(g.owners, f.path) && !Forbidden(g.proc, f.path)
    ensures f.path !in StoreAfter(g) && RecordOf(f) in records
  {
    assert f in g.findings;
    RefusedScratchGoesIff(g, f);
    GoneIffRecordedOrTakenAlong(g, records, f);
  }

  // ---------------------------------------------------------------- in plain terms

  /** The git cleaner takes a finding exactly when it is APPLY git scratch that stands there and can be unlinked, that
      is old enough by the age read again, and in whose repository, if its path names one, no packer works. */
  lemma CleanedInPlainTerms(g: Given, f: Finding)
    ensures CleanedAsScratch(g, f) <==>
            && f.disposition == Apply && f.kind == GitScratch
            && f.path in g.nodes && !g.nodes[f.path].Dir? && f.path !in g.stuck.left
            && f.path in g.reread && g.reread[f.path] >= g.minAge
            && (RepoRoot(f.path).Some? ==>
                  forall o :: o in g.owners ==>
                    !(o.writesPacks && o.cwd.Some? && RepoRoot(f.path).value <= o.cwd.value))
  {
    if RepoRoot(f.path).Some? && !Owned(g.owners, f.path) {
      assert forall o :: o in g.owners ==> !WorksIn(o, RepoRoot(f.path).value);
    }
  }

  /** The second loop takes a finding exactly when it is APPLY, stands there, can be removed, no process blocks it, and
      a directory holds nothing but old, readable content within the limit, or is empty and old itself. */
  lemma SweptInPlainTerms(g: Given, f: Finding)
    ensures Swept(f, g.nodes, g.stuck, g.proc, g.now) <==>
            && f.disposition == Apply && f.path in g.nodes && f.path !in g.stuck.left
            && g.proc.Some? && (forall p :: p in g.proc.value ==> !BlockedBy(p, f.path))
            && (g.nodes[f.path].Dir? ==>
                  var n := g.nodes[f.path];
                  && f.floor.Some? && Count(n.listing) <= 200_000 && OldListing(n.listing, g.now, f.floor.value)
                  && (n.listing == Listed([]) ==> n.mtime.Some? && n.mtime.value + f.floor.value * 3600 * SECOND <= g.now)
                  && (n.listing != Listed([]) ==> Dated(n.listing)))
  {
    if f.path in g.nodes && g.nodes[f.path].Dir? && f.floor.Some? {
      assert f.floor.value * HOUR == f.floor.value * 3600 * SECOND;
    }
  }
}
