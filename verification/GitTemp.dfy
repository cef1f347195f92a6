/** Orphaned git scratch files (src/git_temp.rs): who owns one, and the pass that deletes the rest. */
module GitTemp {
  import opened Wrappers
  import opened Lexicographic
  import opened DiskTmp

  // ---------------------------------------------------------------- ownership

  datatype GitOwner = GitOwner(pid: nat, cwd: Option<Path>, writesPacks: bool)

  /** The part of a path before its last `.git` component. */
  function RepoRoot(path: Path): Option<Path>
    decreases |path|
  {
    if path == [] then None
    else
      var last := |path| - 1;
      if path[last] == ".git" then (if last == 0 then None else Some(path[..last])) else RepoRoot(path[..last])
  }

  predicate WorksIn(owner: GitOwner, repo: Path) {
    owner.writesPacks && owner.cwd.Some? && repo <= owner.cwd.value
  }

  /** The first live git process that writes packs and works in the repository. */
  method GitOwnerFor(owners: seq<GitOwner>, repo: Path) returns (owner: Option<GitOwner>)
    ensures owner.None? <==>
              forall o :: o in owners ==> !(o.writesPacks && o.cwd.Some? && repo <= o.cwd.value)
    ensures owner.Some? ==> exists i :: 0 <= i < |owners| && owners[i] == owner.value && WorksIn(owners[i], repo)
                                        && forall k :: 0 <= k < i ==> !WorksIn(owners[k], repo)
  {
    var i := 0;
    while i < |owners|
      invariant 0 <= i <= |owners|
      invariant forall k :: 0 <= k < i ==> !WorksIn(owners[k], repo)
    {
      if WorksIn(owners[i], repo) { return Some(owners[i]); }
      i := i + 1;
    }
    return None;
  }

  /** A scratch file is owned when a live packer works in the repository its path names. */
  predicate Owned(owners: seq<GitOwner>, path: Path) {
    RepoRoot(path).Some? && exists o :: o in owners && WorksIn(o, RepoRoot(path).value)
  }

  /** A path without a `.git`, but for one at its very front, names no repository. */
  lemma {:induction false} NoRepoUnlessGit(path: Path)
    ensures RepoRoot(path).None? <==> forall i :: 0 < i < |path| ==> path[i] != ".git"
    decreases |path|
  {
    if path != [] && path[|path| - 1] != ".git" {
      var before := path[..|path| - 1];
      NoRepoUnlessGit(before);
      assert forall i :: 0 <= i < |before| ==> before[i] == path[i];
    }
  }

  /** The owner the cleaner asks for, from the path of a scratch file. */
  method OwnerOf(owners: seq<GitOwner>, path: Path) returns (owner: Option<GitOwner>)
    ensures owner.Some? <==> Owned(owners, path)
    ensures owner.Some? ==>
              && owner.value in owners && owner.value.writesPacks && owner.value.cwd.Some?
              && RepoRoot(path).Some? && RepoRoot(path).value <= owner.value.cwd.value
  {
    var repo := RepoRoot(path);
    if repo.None? { return None; }
    owner := GitOwnerFor(owners, repo.value);
  }

  /** Scratch anywhere below `<repo>/.git` belongs to that repository, however deep, unless a nested `.git`
      claims it first. */
  lemma {:induction false} ScratchBelongsToItsRepo(repo: Path, below: Path)
    requires repo != [] && ".git" !in below
    ensures RepoRoot(repo + [".git"] + below) == Some(repo)
    decreases |below|
  {
    var path := repo + [".git"] + below;
    var last := |path| - 1;
    if below == [] {
      assert path[..last] == repo;
    } else {
      assert path[last] == below[|below| - 1];
      assert path[..last] == repo + [".git"] + below[..|below| - 1];
      ScratchBelongsToItsRepo(repo, below[..|below| - 1]);
    }
  }

  // ---------------------------------------------------------------- the file system

  type Nodes = map<Path, Node>

  /** What cannot be removed: the paths whose removal fails, each with what is left there, and what the failed
      removal of a directory has removed below it before it failed. */
  datatype Stubborn = Stubborn(left: Nodes, lost: map<Path, set<Path>>)

  /** The failed removal of `dir` had already removed the path, or a directory that contains it. */
  predicate Loses(stuck: Stubborn, dir: Path, k: Path) {
    dir in stuck.lost && exists r :: r in stuck.lost[dir] && dir < r <= k
  }

  /** The entries the cleaner looks at, by path. */
  class Store {
    var nodes: Nodes
    const stuck: Stubborn

    constructor (nodes: Nodes, stuck: Stubborn)
      ensures this.nodes == nodes && this.stuck == stuck
    {
      this.nodes, this.stuck := nodes, stuck;
    }

    method RemoveFile(path: Path) returns (ok: bool)
      modifies this`nodes
      ensures ok <==> Unlinks(old(nodes), stuck, path)
      ensures nodes == if ok then old(nodes) - {path} else old(nodes)
    {
      ok := path in nodes && !nodes[path].Dir? && path !in stuck.left;
      if ok { nodes := nodes - {path}; }
    }

    method RemoveDirAll(path: Path) returns (ok: bool)
      requires path in nodes && nodes[path].Dir?
      modifies this`nodes
      ensures ok <==> path !in stuck.left
      ensures nodes == if ok then Without(old(nodes), path) else Ruined(old(nodes), stuck, path)
    {
      ok := path !in stuck.left;
      if ok { nodes := Without(nodes, path); } else { nodes := Ruined(nodes, stuck, path); }
    }
  }

  predicate Unlinks(nodes: Nodes, stuck: Stubborn, path: Path) {
    path in nodes && !nodes[path].Dir? && path !in stuck.left
  }

  /** After a removal of the directory that failed half way. */
  function Ruined(nodes: Nodes, stuck: Stubborn, dir: Path): Nodes
    requires dir in stuck.left
  {
    (map k | k in nodes && !Loses(stuck, dir, k) :: nodes[k])[dir := stuck.left[dir]]
  }

  function Without(nodes: Nodes, path: Path): Nodes { map k | k in nodes && !(path <= k) :: nodes[k] }

  // ---------------------------------------------------------------- the cleaning pass

  function Filter<T>(keep: T -> bool, s: seq<T>): seq<T> {
    if s == [] then []
    else Filter(keep, s[..|s| - 1]) + (if keep(s[|s| - 1]) then [s[|s| - 1]] else [])
  }

  lemma {:induction false} FilterSnoc<T>(keep: T -> bool, s: seq<T>, x: T)
    ensures Filter(keep, s + [x]) == Filter(keep, s) + (if keep(x) then [x] else [])
  {
    assert (s + [x])[..|s|] == s;
  }

  lemma {:induction false} FilterKeeps<T>(keep: T -> bool, s: seq<T>)
    ensures forall x :: x in Filter(keep, s) <==> x in s && keep(x)
    decreases |s|
  {
    if s != [] {
      FilterKeeps(keep, s[..|s| - 1]);
      assert s == s[..|s| - 1] + [s[|s| - 1]];
    }
  }

  datatype Candidate = Candidate(path: Path, bytes: nat, age: Option<nat>)

  predicate IsExpired(c: Candidate, minAge: nat) { c.age.Some? && c.age.value >= minAge }

  datatype Outcome = Outcome(cleaned: seq<Candidate>, skippedFresh: seq<Candidate>, skippedOwned: seq<Candidate>,
                             reclaimed: nat)

  function TotalBytes(s: seq<Candidate>): nat {
    if s == [] then 0 else TotalBytes(s[..|s| - 1]) + s[|s| - 1].bytes
  }

  /** What a pass may delete: neither owned nor fresh. */
  predicate Clear(c: Candidate, owned: Path -> bool, minAge: nat) { !owned(c.path) && IsExpired(c, minAge) }

  predicate Fresh(c: Candidate, owned: Path -> bool, minAge: nat) { !owned(c.path) && !IsExpired(c, minAge) }

  predicate DistinctCandidates(s: seq<Candidate>) { forall i, j :: 0 <= i < j < |s| ==> s[i].path != s[j].path }

  function OwnedBy(owned: Path -> bool): Candidate -> bool { (c: Candidate) => owned(c.path) }

  function FreshBy(owned: Path -> bool, minAge: nat): Candidate -> bool { (c: Candidate) => Fresh(c, owned, minAge) }

  function ClearBy(owned: Path -> bool, minAge: nat): Candidate -> bool { (c: Candidate) => Clear(c, owned, minAge) }

  /** Clear, and its unlink succeeds on these nodes. */
  function GoneBy(owned: Path -> bool, minAge: nat, nodes: Nodes, stuck: Stubborn): Candidate -> bool {
    (c: Candidate) => Clear(c, owned, minAge) && Unlinks(nodes, stuck, c.path)
  }

  function Paths(s: seq<Candidate>): set<Path> { set c | c in s :: c.path }

  function Maybe<T>(yes: bool, x: T): seq<T> { if yes then [x] else [] }

  /** One turn of the loop. */
  method CleanOne(store: Store, before: Outcome, c: Candidate, minAge: nat, owned: Path -> bool, apply: bool)
    returns (o: Outcome, gone: bool)
    modifies store`nodes
    ensures gone <==> Clear(c, owned, minAge) && (apply ==> Unlinks(old(store.nodes), store.stuck, c.path))
    ensures o == Outcome(before.cleaned + Maybe(gone, c), before.skippedFresh + Maybe(Fresh(c, owned, minAge), c),
                         before.skippedOwned + Maybe(owned(c.path), c), before.reclaimed + if gone then c.bytes else 0)
    ensures store.nodes == if apply && gone then old(store.nodes) - {c.path} else old(store.nodes)
  {
    o, gone := before, false;
    if owned(c.path) { return o.(skippedOwned := o.skippedOwned + [c]), false; }
    if !IsExpired(c, minAge) { return o.(skippedFresh := o.skippedFresh + [c]), false; }
    if apply {
      var ok := store.RemoveFile(c.path);
      if !ok { return; }
    }
    return o.(reclaimed := o.reclaimed + c.bytes, cleaned := o.cleaned + [c]), true;
  }

  lemma {:induction false} TotalBytesSnoc(s: seq<Candidate>, c: Candidate)
    ensures TotalBytes(s + [c]) == TotalBytes(s) + c.bytes
  {
    assert (s + [c])[..|s|] == s;
  }

  /** What has gone after the first candidates. */
  ghost predicate Progress(done: seq<Candidate>, o: Outcome, minAge: nat, owned: Path -> bool, apply: bool, was: Nodes,
                           nodes: Nodes, stuck: Stubborn) {
    && (forall c :: c in o.cleaned ==> c in done && Clear(c, owned, minAge))
    && o.reclaimed == TotalBytes(o.cleaned)
    && nodes == (if apply then was - Paths(o.cleaned) else was)
    && (!apply ==> o.cleaned == Filter(ClearBy(owned, minAge), done))
    && (apply && DistinctCandidates(done) ==> o.cleaned == Filter(GoneBy(owned, minAge, was, stuck), done))
  }

  lemma DistinctSnoc(done: seq<Candidate>, c: Candidate)
    requires DistinctCandidates(done + [c])
    ensures DistinctCandidates(done) && forall d :: d in done ==> d.path != c.path
  {
    var all := done + [c];
    forall i, j | 0 <= i < j < |done| ensures done[i].path != done[j].path {
      assert all[i].path != all[j].path;
    }
    forall d | d in done ensures d.path != c.path {
      var i :| 0 <= i < |done| && done[i] == d;
      assert all[i].path != all[|done|].path;
    }
  }

  lemma PathsSnoc(s: seq<Candidate>, c: Candidate)
    ensures Paths(s + [c]) == Paths(s) + {c.path}
  {
    assert c in s + [c] && forall d :: d in s ==> d in s + [c];
  }

  /** With distinct candidates, what stands at the next one is what stood there first. */
  lemma GoneOne(done: seq<Candidate>, before: Outcome, c: Candidate, minAge: nat, owned: Path -> bool, was: Nodes,
                nodes: Nodes, stuck: Stubborn)
    requires Progress(done, before, minAge, owned, true, was, nodes, stuck)
    requires DistinctCandidates(done + [c])
    ensures Unlinks(nodes, stuck, c.path) <==> Unlinks(was, stuck, c.path)
  {
    DistinctSnoc(done, c);
    assert c.path !in Paths(before.cleaned);
  }

  lemma {:induction false} ProgressOne(done: seq<Candidate>, before: Outcome, c: Candidate, gone: bool, o: Outcome, minAge: nat,
                                       owned: Path -> bool, apply: bool, was: Nodes, nodes: Nodes, stuck: Stubborn, after: Nodes)
    requires Progress(done, before, minAge, owned, apply, was, nodes, stuck)
    requires gone <==> Clear(c, owned, minAge) && (apply ==> Unlinks(nodes, stuck, c.path))
    requires o.cleaned == before.cleaned + Maybe(gone, c) && o.reclaimed == before.reclaimed + if gone then c.bytes else 0
    requires after == if apply && gone then nodes - {c.path} else nodes
    ensures Progress(done + [c], o, minAge, owned, apply, was, after, stuck)
  {
    FilterSnoc(ClearBy(owned, minAge), done, c);
    if gone {
      TotalBytesSnoc(before.cleaned, c);
      PathsSnoc(before.cleaned, c);
    } else {
      assert o.cleaned == before.cleaned;
    }
    if apply && DistinctCandidates(done + [c]) {
      DistinctSnoc(done, c);
      GoneOne(done, before, c, minAge, owned, was, nodes, stuck);
      FilterSnoc(GoneBy(owned, minAge, was, stuck), done, c);
    }
  }

  /** `clean_git_temp_files`: a dry run and a real run classify owned and fresh candidates identically, and
      differ only in what could be unlinked; nothing but clear candidates disappears. */
  method CleanGitTempFiles(store: Store, candidates: seq<Candidate>, minAge: nat, owned: Path -> bool, apply: bool)
    returns (o: Outcome)
    modifies store`nodes
    ensures o.skippedOwned == Filter(OwnedBy(owned), candidates)
    ensures o.skippedFresh == Filter(FreshBy(owned, minAge), candidates)
    ensures Progress(candidates, o, minAge, owned, apply, old(store.nodes), store.nodes, store.stuck)
  {
    o := Outcome([], [], [], 0);
    var i := 0;
    ghost var was := store.nodes;
    assert candidates[..0] == [] && was - Paths([]) == was;
    while i < |candidates|
      invariant 0 <= i <= |candidates|
      invariant o.skippedOwned == Filter(OwnedBy(owned), candidates[..i])
      invariant o.skippedFresh == Filter(FreshBy(owned, minAge), candidates[..i])
      invariant Progress(candidates[..i], o, minAge, owned, apply, was, store.nodes, store.stuck)
    {
      var c := candidates[i];
      ghost var done, nodes, before := candidates[..i], store.nodes, o;
      assert candidates[..i + 1] == done + [c];
      FilterSnoc(OwnedBy(owned), done, c);
      FilterSnoc(FreshBy(owned, minAge), done, c);
      var gone;
      o, gone := CleanOne(store, o, c, minAge, owned, apply);
      ProgressOne(done, before, c, gone, o, minAge, owned, apply, was, nodes, store.stuck, store.nodes);
      i := i + 1;
    }
    assert candidates[..i] == candidates;
  }

  /** Owned and fresh scratch survives a pass: a path disappears only for a candidate that is neither. */
  lemma OnlyClearScratchGoes(candidates: seq<Candidate>, o: Outcome, minAge: nat, owned: Path -> bool, apply: bool,
                             was: Nodes, nodes: Nodes, stuck: Stubborn, path: Path)
    requires Progress(candidates, o, minAge, owned, apply, was, nodes, stuck)
    requires path in was && (path !in nodes || nodes[path] != was[path])
    ensures apply && !owned(path)
    ensures exists c :: c in candidates && c.path == path && IsExpired(c, minAge)
  {
  }

  /** Which class a candidate falls in is a matter of its owner and of the age that was read, if one was. */
  lemma ClassesInPlainTerms(candidates: seq<Candidate>, minAge: nat, owned: Path -> bool, c: Candidate)
    ensures c in Filter(OwnedBy(owned), candidates) <==> c in candidates && owned(c.path)
    ensures c in Filter(FreshBy(owned, minAge), candidates) <==>
            c in candidates && !owned(c.path) && (c.age.None? || c.age.value < minAge)
    ensures c in Filter(ClearBy(owned, minAge), candidates) <==>
            c in candidates && !owned(c.path) && c.age.Some? && c.age.value >= minAge
  {
    FilterKeeps(OwnedBy(owned), candidates);
    FilterKeeps(FreshBy(owned, minAge), candidates);
    FilterKeeps(ClearBy(owned, minAge), candidates);
  }

  /** Owned, fresh and clear share the candidates out: each falls in exactly one of the three. */
  lemma {:induction false} EachCandidateIsClassedOnce(candidates: seq<Candidate>, minAge: nat, owned: Path -> bool)
    ensures multiset(candidates) == multiset(Filter(OwnedBy(owned), candidates))
                                    + multiset(Filter(FreshBy(owned, minAge), candidates))
                                    + multiset(Filter(ClearBy(owned, minAge), candidates))
    decreases |candidates|
  {
    if candidates != [] {
      var before, c := candidates[..|candidates| - 1], candidates[|candidates| - 1];
      EachCandidateIsClassedOnce(before, minAge, owned);
      assert candidates == before + [c];
    }
  }

  /** A real run deletes only what a dry run lists, and lists too everything it could unlink. */
  lemma RealRunIsWithinTheDryRun(candidates: seq<Candidate>, wet: Outcome, dry: Outcome, minAge: nat, owned: Path -> bool,
                                 was: Nodes, after: Nodes, stuck: Stubborn)
    requires Progress(candidates, wet, minAge, owned, true, was, after, stuck)
    requires Progress(candidates, dry, minAge, owned, false, was, was, stuck)
    ensures forall c :: c in wet.cleaned ==> c in dry.cleaned
    ensures DistinctCandidates(candidates) ==>
              forall c :: c in dry.cleaned && Unlinks(was, stuck, c.path) ==> c in wet.cleaned
  {
    FilterKeeps(ClearBy(owned, minAge), candidates);
    FilterKeeps(GoneBy(owned, minAge, was, stuck), candidates);
  }
}
