/** The scan for heavy orphaned browser trees (`scan_forgotten_orphan_trees` of src/forgotten.rs): every heavy tree
  * is put in exactly one of three lists. The final sort of each list by weight is left out. */
module ForgottenScan {
  import opened ProcTable
  import opened ForgottenTree

  const MIN_AGE_SECS: nat := 300

  datatype Config = Config(self: int, exempt: seq<string>, maxCpuSeconds: nat, processFloor: nat, treeFloor: nat)

  /** Where a weighed tree goes. */
  datatype Destination = Nowhere | Candidate | Vetoed | Protected

  /** An orphan without a terminal, asleep, old enough and not the operator's. */
  predicate EligibleRoot(p: Process, c: Config) {
    && p.pid > 1 && p.pid != c.self
    && p.orphaned && !p.hasTerminal && p.sleeping
    && (p.browserish || !MatchesExempt(p.exe, c.exempt))
    && p.age >= MIN_AGE_SECS
  }

  predicate Heavy(tree: Tree, c: Config) { tree.aggregate >= c.treeFloor || tree.rootFootprint >= c.processFloor }

  function DestinationOf(t: Table, tree: Tree, usage: Tree -> Usage, c: Config): Destination
  {
    if tree.root !in t.entries || !Heavy(tree, c) then Nowhere
    else
      match t.entries[tree.root].verdict
      case NotABrowser => Nowhere
      case Desktop => Vetoed
      case Test =>
        match usage(tree)
        case Driven => Protected
        case Undriven => Candidate
        case Unknown => if tree.cpuSeconds > c.maxCpuSeconds then Protected else Candidate
  }

  // ---------------------------------------------------------------- the roots in order

  predicate Ascending(s: seq<int>) { forall i, j :: 0 <= i < j < |s| ==> s[i] < s[j] }

  function InsertPid(x: int, s: seq<int>): seq<int> {
    if s == [] || x <= s[0] then [x] + s else [s[0]] + InsertPid(x, s[1..])
  }

  /** `sort_unstable` on pids. */
  function SortPids(s: seq<int>): seq<int> { if s == [] then [] else InsertPid(s[0], SortPids(s[1..])) }

  lemma {:induction false} InsertPidAscends(x: int, s: seq<int>)
    requires Ascending(s) && x !in s
    ensures Ascending(InsertPid(x, s))
    ensures forall y :: y in InsertPid(x, s) <==> y == x || y in s
    ensures InsertPid(x, s)[0] == if s == [] || x <= s[0] then x else s[0]
    decreases |s|
  {
    if s != [] && x > s[0] {
      var rest := InsertPid(x, s[1..]);
      InsertPidAscends(x, s[1..]);
      assert s == [s[0]] + s[1..];
      var all := [s[0]] + rest;
      forall i, j | 0 <= i < j < |all| ensures all[i] < all[j] {
        assert all[j] == rest[j - 1];
        if i == 0 {
          assert rest[j - 1] in rest;
        } else {
          assert all[i] == rest[i - 1];
        }
      }
    } else if s != [] {
      assert x != s[0];
    }
  }

  lemma {:induction false} SortPidsAscends(s: seq<int>)
    requires forall i, j :: 0 <= i < j < |s| ==> s[i] != s[j]
    ensures Ascending(SortPids(s))
    ensures forall y :: y in SortPids(s) <==> y in s
    decreases |s|
  {
    if s != [] {
      SortPidsAscends(s[1..]);
      assert s[0] !in s[1..];
      InsertPidAscends(s[0], SortPids(s[1..]));
      assert s == [s[0]] + s[1..];
    }
  }

  /** The eligible roots, whatever order the table lists its entries in. */
  method Roots(t: Table, c: Config, order: seq<int>) returns (roots: seq<int>)
    requires Valid(t)
    requires forall i, j :: 0 <= i < j < |order| ==> order[i] != order[j]
    requires forall k :: 0 <= k < |order| ==> order[k] in t.entries
    requires forall pid :: pid in t.entries ==> pid in order
    ensures Ascending(roots)
    ensures forall pid :: pid in roots <==> pid in t.entries && EligibleRoot(t.entries[pid], c)
  {
    roots := [];
    var i := 0;
    while i < |order|
      invariant 0 <= i <= |order|
      invariant forall pid :: pid in roots <==> pid in order[..i] && EligibleRoot(t.entries[pid], c)
      invariant forall a, b :: 0 <= a < b < |roots| ==> roots[a] != roots[b]
    {
      assert order[i] in t.entries;
      var p := t.entries[order[i]];
      i := i + 1;
      if p.pid <= 1 || p.pid == c.self { continue; }
      if !p.orphaned { continue; }
      if p.hasTerminal { continue; }
      if !p.sleeping { continue; }
      if !p.browserish && MatchesExempt(p.exe, c.exempt) { continue; }
      if p.age < MIN_AGE_SECS { continue; }
      roots := roots + [p.pid];
    }
    assert order[..i] == order;
    SortPidsAscends(roots);
    roots := SortPids(roots);
  }

  // ---------------------------------------------------------------- the scan

  datatype Scan = Scan(candidates: seq<Tree>, vetoed: seq<Tree>, protected: seq<Tree>)

  function Pick(keep: Tree -> bool, trees: seq<Tree>): seq<Tree> {
    if trees == [] then []
    else Pick(keep, trees[..|trees| - 1]) + (if keep(trees[|trees| - 1]) then [trees[|trees| - 1]] else [])
  }

  function Goes(t: Table, usage: Tree -> Usage, c: Config, to: Destination): Tree -> bool {
    (tree: Tree) => DestinationOf(t, tree, usage, c) == to
  }

  function Going(t: Table, trees: seq<Tree>, usage: Tree -> Usage, c: Config, to: Destination): seq<Tree> {
    Pick(Goes(t, usage, c, to), trees)
  }

  /** A tree built earlier holds the process. */
  ghost predicate ClaimedBefore(trees: seq<Tree>, pid: int) {
    exists k :: 0 <= k < |trees| && trees[k].root < pid && pid in MemberPids(trees[k].members)
  }

  ghost predicate HasTree(trees: seq<Tree>, pid: int) { exists k :: 0 <= k < |trees| && trees[k].root == pid }

  /** The trees built are trees of the table, by rising root. */
  ghost predicate Built(t: Table, c: Config, trees: seq<Tree>) {
    && (forall k :: 0 <= k < |trees| ==> IsTree(t, c.exempt, trees[k]) && trees[k].root in t.entries)
    && (forall j, k :: 0 <= j < k < |trees| ==> trees[j].root < trees[k].root)
  }

  /** A root so far has a tree exactly when it is a browser and no earlier tree holds it. */
  ghost predicate Covered(t: Table, roots: seq<int>, trees: seq<Tree>)
    requires forall pid :: pid in roots ==> pid in t.entries
  {
    && (forall pid :: pid in roots ==>
          (HasTree(trees, pid) <==> !t.entries[pid].verdict.NotABrowser? && !ClaimedBefore(trees, pid)))
    && (forall k :: 0 <= k < |trees| ==> trees[k].root in roots)
  }

  ghost predicate Sorted(t: Table, trees: seq<Tree>, usage: Tree -> Usage, c: Config, s: Scan)
    requires Built(t, c, trees)
  {
    && s.candidates == Going(t, trees, usage, c, Candidate)
    && s.vetoed == Going(t, trees, usage, c, Vetoed)
    && s.protected == Going(t, trees, usage, c, Protected)
  }

  ghost predicate ClaimsAre(claimed: set<int>, trees: seq<Tree>) {
    forall pid :: pid in claimed <==> exists k :: 0 <= k < |trees| && pid in MemberPids(trees[k].members)
  }

  lemma SkipRoot(t: Table, c: Config, roots: seq<int>, trees: seq<Tree>, claimed: set<int>, pid: int)
    requires forall p :: p in roots + [pid] ==> p in t.entries
    requires Built(t, c, trees) && Covered(t, roots, trees) && ClaimsAre(claimed, trees)
    requires forall p :: p in roots ==> p < pid
    requires pid in claimed || t.entries[pid].verdict.NotABrowser?
    ensures Covered(t, roots + [pid], trees)
  {
    assert forall k :: 0 <= k < |trees| ==> trees[k].root < pid;
  }

  lemma BuildOne(t: Table, c: Config, trees: seq<Tree>, tree: Tree)
    requires Built(t, c, trees) && IsTree(t, c.exempt, tree)
    requires forall k :: 0 <= k < |trees| ==> trees[k].root < tree.root
    ensures Built(t, c, trees + [tree])
  {
  }

  lemma ClaimOne(claimed: set<int>, trees: seq<Tree>, tree: Tree)
    requires ClaimsAre(claimed, trees)
    ensures ClaimsAre(claimed + MemberPids(tree.members), trees + [tree])
  {
    var all := trees + [tree];
    forall p ensures p in claimed + MemberPids(tree.members) <==> exists k :: 0 <= k < |all| && p in MemberPids(all[k].members) {
      if p in MemberPids(tree.members) { assert p in MemberPids(all[|trees|].members); }
      if k :| 0 <= k < |trees| && p in MemberPids(trees[k].members) { assert p in MemberPids(all[k].members); }
    }
  }

  lemma HasTreeOne(trees: seq<Tree>, tree: Tree, p: int)
    ensures HasTree(trees + [tree], p) <==> HasTree(trees, p) || p == tree.root
  {
    var all := trees + [tree];
    assert all[|trees|] == tree;
    if k :| 0 <= k < |trees| && trees[k].root == p { assert all[k].root == p; }
  }

  lemma ClaimedBeforeOne(trees: seq<Tree>, tree: Tree, p: int)
    requires p <= tree.root
    ensures ClaimedBefore(trees + [tree], p) <==> ClaimedBefore(trees, p)
  {
    var all := trees + [tree];
    if k :| 0 <= k < |trees| && trees[k].root < p && p in MemberPids(trees[k].members) { assert all[k] == trees[k]; }
  }

  lemma CoverOne(t: Table, c: Config, roots: seq<int>, trees: seq<Tree>, claimed: set<int>, tree: Tree)
    requires forall p :: p in roots + [tree.root] ==> p in t.entries
    requires Covered(t, roots, trees) && ClaimsAre(claimed, trees)
    requires forall p :: p in roots ==> p < tree.root
    requires tree.root !in claimed && !t.entries[tree.root].verdict.NotABrowser?
    ensures Covered(t, roots + [tree.root], trees + [tree])
  {
    var pid := tree.root;
    forall p | p in roots + [pid]
      ensures HasTree(trees + [tree], p) <==> !t.entries[p].verdict.NotABrowser? && !ClaimedBefore(trees + [tree], p)
    {
      HasTreeOne(trees, tree, p);
      ClaimedBeforeOne(trees, tree, p);
    }
  }

  lemma TakeRoot(t: Table, c: Config, roots: seq<int>, trees: seq<Tree>, claimed: set<int>, tree: Tree)
    requires forall p :: p in roots + [tree.root] ==> p in t.entries
    requires Built(t, c, trees) && Covered(t, roots, trees) && ClaimsAre(claimed, trees)
    requires forall p :: p in roots ==> p < tree.root
    requires tree.root !in claimed && !t.entries[tree.root].verdict.NotABrowser?
    requires IsTree(t, c.exempt, tree)
    ensures Built(t, c, trees + [tree]) && Covered(t, roots + [tree.root], trees + [tree])
    ensures ClaimsAre(claimed + MemberPids(tree.members), trees + [tree])
  {
    BuildOne(t, c, trees, tree);
    CoverOne(t, c, roots, trees, claimed, tree);
    ClaimOne(claimed, trees, tree);
  }

  lemma {:induction false} PickOne(keep: Tree -> bool, trees: seq<Tree>, tree: Tree)
    ensures Pick(keep, trees + [tree]) == Pick(keep, trees) + (if keep(tree) then [tree] else [])
  {
    assert (trees + [tree])[..|trees|] == trees;
  }

  lemma GoingOne(t: Table, trees: seq<Tree>, tree: Tree, usage: Tree -> Usage, c: Config, to: Destination)
    ensures Going(t, trees + [tree], usage, c, to)
         == Going(t, trees, usage, c, to) + (if DestinationOf(t, tree, usage, c) == to then [tree] else [])
  {
    PickOne(Goes(t, usage, c, to), trees, tree);
  }

  /** The decision on one weighed tree. */
  method Place(t: Table, tree: Tree, usage: Tree -> Usage, c: Config, before: Scan) returns (out: Scan)
    requires tree.root in t.entries && !t.entries[tree.root].verdict.NotABrowser?
    ensures var d := DestinationOf(t, tree, usage, c);
      && out.candidates == before.candidates + (if d == Candidate then [tree] else [])
      && out.vetoed == before.vetoed + (if d == Vetoed then [tree] else [])
      && out.protected == before.protected + (if d == Protected then [tree] else [])
  {
    out := before;
    if t.entries[tree.root].verdict == Desktop {
      if tree.aggregate >= c.treeFloor || tree.rootFootprint >= c.processFloor {
        out := out.(vetoed := out.vetoed + [tree]);
      }
      return;
    }
    if tree.aggregate < c.treeFloor && tree.rootFootprint < c.processFloor { return; }
    var busy := tree.cpuSeconds > c.maxCpuSeconds;
    match usage(tree) {
      case Driven =>
        out := out.(protected := out.protected + [tree]);
        return;
      case Undriven =>
        out := out.(candidates := out.candidates + [tree]);
        return;
      case Unknown =>
        if busy {
          out := out.(protected := out.protected + [tree]);
          return;
        }
    }
    out := out.(candidates := out.candidates + [tree]);
  }

  /** `scan_forgotten_orphan_trees` */
  method ScanForgottenOrphanTrees(t: Table, c: Config, order: seq<int>, usage: Tree -> Usage)
    returns (out: Scan, roots: seq<int>, trees: seq<Tree>)
    requires Valid(t)
    requires forall i, j :: 0 <= i < j < |order| ==> order[i] != order[j]
    requires forall k :: 0 <= k < |order| ==> order[k] in t.entries
    requires forall pid :: pid in t.entries ==> pid in order
    ensures forall pid :: pid in roots <==> pid in t.entries && EligibleRoot(t.entries[pid], c)
    ensures Built(t, c, trees) && Covered(t, roots, trees) && Sorted(t, trees, usage, c, out)
  {
    roots := Roots(t, c, order);
    out, trees := Scan([], [], []), [];
    var claimed: set<int>, i := {}, 0;
    while i < |roots|
      invariant 0 <= i <= |roots|
      invariant Built(t, c, trees) && Covered(t, roots[..i], trees) && ClaimsAre(claimed, trees)
      invariant Sorted(t, trees, usage, c, out)
    {
      var root := roots[i];
      ghost var done := roots[..i];
      assert roots[..i + 1] == done + [root];
      i := i + 1;
      if root in claimed || t.entries[root].verdict == NotABrowser {
        SkipRoot(t, c, done, trees, claimed, root);
        continue;
      }
      var tree := BuildTree(t, c.exempt, root);
      TakeRoot(t, c, done, trees, claimed, tree);
      claimed := claimed + MemberPids(tree.members);
      out := Place(t, tree, usage, c, out);
      GoingOne(t, trees, tree, usage, c, Candidate);
      GoingOne(t, trees, tree, usage, c, Vetoed);
      GoingOne(t, trees, tree, usage, c, Protected);
      trees := trees + [tree];
    }
    assert roots[..i] == roots;
  }

  // ---------------------------------------------------------------- what the scan guarantees

  function Entries(s: Scan): seq<Tree> { s.candidates + s.vetoed + s.protected }

  function Times(s: seq<Tree>, pid: int): nat {
    if s == [] then 0 else Times(s[..|s| - 1], pid) + (if s[|s| - 1].root == pid then 1 else 0)
  }

  lemma {:induction false} TimesConcat(a: seq<Tree>, b: seq<Tree>, pid: int)
    ensures Times(a + b, pid) == Times(a, pid) + Times(b, pid)
    decreases |b|
  {
    if b == [] {
      assert a + b == a;
    } else {
      TimesConcat(a, b[..|b| - 1], pid);
      assert (a + b)[..|a + b| - 1] == a + b[..|b| - 1];
    }
  }

  predicate RisingRoots(trees: seq<Tree>) { forall j, k :: 0 <= j < k < |trees| ==> trees[j].root < trees[k].root }

  lemma {:induction false} PickedOnce(keep: Tree -> bool, trees: seq<Tree>, pid: int)
    requires RisingRoots(trees)
    ensures !HasTree(trees, pid) ==> Times(Pick(keep, trees), pid) == 0
    ensures forall k :: 0 <= k < |trees| && trees[k].root == pid ==>
              Times(Pick(keep, trees), pid) == if keep(trees[k]) then 1 else 0
    decreases |trees|
  {
    if trees != [] {
      var before, last := trees[..|trees| - 1], trees[|trees| - 1];
      var kept := Pick(keep, before);
      assert forall k :: 0 <= k < |before| ==> before[k] == trees[k];
      PickedOnce(keep, before, pid);
      if keep(last) { assert (kept + [last])[..|kept|] == kept; } else { assert kept + [] == kept; }
      assert last.root == pid ==> !HasTree(before, pid) && HasTree(trees, pid);
      assert HasTree(before, pid) ==> HasTree(trees, pid);
    }
  }

  /** Over the three lists, a root appears as often as it has a tree that goes somewhere. */
  lemma EachTreeGoesOnce(t: Table, c: Config, trees: seq<Tree>, usage: Tree -> Usage, out: Scan, pid: int)
    requires Built(t, c, trees) && Sorted(t, trees, usage, c, out)
    ensures !HasTree(trees, pid) ==> Times(Entries(out), pid) == 0
    ensures forall k :: 0 <= k < |trees| && trees[k].root == pid ==>
              Times(Entries(out), pid) == if DestinationOf(t, trees[k], usage, c) != Nowhere then 1 else 0
  {
    TimesConcat(out.candidates + out.vetoed, out.protected, pid);
    TimesConcat(out.candidates, out.vetoed, pid);
    PickedOnce(Goes(t, usage, c, Candidate), trees, pid);
    PickedOnce(Goes(t, usage, c, Vetoed), trees, pid);
    PickedOnce(Goes(t, usage, c, Protected), trees, pid);
  }

  /** Each process is the root of at most one entry over the three lists. */
  lemma EachRootIsListedAtMostOnce(t: Table, c: Config, trees: seq<Tree>, usage: Tree -> Usage, out: Scan, pid: int)
    requires Built(t, c, trees) && Sorted(t, trees, usage, c, out)
    ensures Times(Entries(out), pid) <= 1
  {
    EachTreeGoesOnce(t, c, trees, usage, out, pid);
  }

  /** Every eligible browser root that no earlier tree holds has its tree weighed, and is listed exactly once when
      that tree meets a floor and not at all otherwise. */
  lemma EveryHeavyTreeIsDecidedOnce(t: Table, c: Config, roots: seq<int>, trees: seq<Tree>, usage: Tree -> Usage, out: Scan,
                                    pid: int)
    returns (tree: Tree)
    requires forall p :: p in roots ==> p in t.entries
    requires Built(t, c, trees) && Covered(t, roots, trees) && Sorted(t, trees, usage, c, out)
    requires pid in roots && !t.entries[pid].verdict.NotABrowser? && !ClaimedBefore(trees, pid)
    ensures tree.root == pid && IsTree(t, c.exempt, tree)
    ensures Times(Entries(out), pid) == if Heavy(tree, c) then 1 else 0
  {
    assert HasTree(trees, pid);
    var k :| 0 <= k < |trees| && trees[k].root == pid;
    tree := trees[k];
    assert DestinationOf(t, tree, usage, c) != Nowhere <==> Heavy(tree, c);
    EachTreeGoesOnce(t, c, trees, usage, out, pid);
  }

  lemma {:induction false} PickedAre(keep: Tree -> bool, trees: seq<Tree>, tree: Tree)
    ensures tree in Pick(keep, trees) <==> tree in trees && keep(tree)
    decreases |trees|
  {
    if trees != [] {
      PickedAre(keep, trees[..|trees| - 1], tree);
      assert trees == trees[..|trees| - 1] + [trees[|trees| - 1]];
    }
  }

  /** Which list a weighed tree is in is a matter of its weight, of what it is, and of who drives it: a heavy desktop
      session is vetoed; a heavy test job is protected when it is driven, or when nobody can tell and it was busy,
      and a candidate otherwise. */
  lemma ListsByVerdictAndUse(t: Table, c: Config, trees: seq<Tree>, usage: Tree -> Usage, out: Scan, tree: Tree)
    requires Built(t, c, trees) && Sorted(t, trees, usage, c, out)
    ensures tree in out.vetoed <==>
            && tree in trees && t.entries[tree.root].verdict.Desktop?
            && (tree.aggregate >= c.treeFloor || tree.rootFootprint >= c.processFloor)
    ensures tree in out.protected <==>
            && tree in trees && t.entries[tree.root].verdict.Test?
            && (tree.aggregate >= c.treeFloor || tree.rootFootprint >= c.processFloor)
            && (usage(tree).Driven? || (usage(tree).Unknown? && tree.cpuSeconds > c.maxCpuSeconds))
    ensures tree in out.candidates <==>
            && tree in trees && t.entries[tree.root].verdict.Test?
            && (tree.aggregate >= c.treeFloor || tree.rootFootprint >= c.processFloor)
            && (usage(tree).Undriven? || (usage(tree).Unknown? && tree.cpuSeconds <= c.maxCpuSeconds))
  {
    PickedAre(Goes(t, usage, c, Candidate), trees, tree);
    PickedAre(Goes(t, usage, c, Vetoed), trees, tree);
    PickedAre(Goes(t, usage, c, Protected), trees, tree);
  }

  /** A tree is a candidate for reaping exactly when it was weighed, meets a floor, is a test job and nobody
      drives it, or nobody can and it was idle; and its root is an orphan without a terminal, asleep, at least five
      minutes old, not the guard, and a browser or no application the operator exempts. */
  lemma CandidatesAreIdleTestTrees(t: Table, c: Config, roots: seq<int>, trees: seq<Tree>, usage: Tree -> Usage, out: Scan,
                                   tree: Tree)
    requires forall pid :: pid in roots <==> pid in t.entries && EligibleRoot(t.entries[pid], c)
    requires Built(t, c, trees) && Covered(t, roots, trees) && Sorted(t, trees, usage, c, out)
    ensures tree in out.candidates <==>
            && tree in trees && Heavy(tree, c) && t.entries[tree.root].verdict.Test?
            && (usage(tree).Undriven? || (usage(tree).Unknown? && tree.cpuSeconds <= c.maxCpuSeconds))
    ensures tree in out.candidates ==>
            var p := t.entries[tree.root];
            && EligibleRoot(p, c)
            && p.pid > 1 && p.pid != c.self && p.orphaned && !p.hasTerminal && p.sleeping && p.age >= 300
            && (p.browserish || !MatchesExempt(p.exe, c.exempt))
            && forall m :: m in tree.members && m.pid != tree.root ==> !LeftOut(t, c.exempt, tree.root, m.pid)
  {
    ListsByVerdictAndUse(t, c, trees, usage, out, tree);
    if tree in trees {
      assert IsTree(t, c.exempt, tree) && tree.root in roots;
      forall m | m in tree.members && m.pid != tree.root ensures !LeftOut(t, c.exempt, tree.root, m.pid) {
        assert m.pid in MemberPids(tree.members) && Belongs(t, c.exempt, tree.root, m.pid);
      }
    }
  }
}
