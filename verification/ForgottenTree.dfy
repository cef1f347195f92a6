/** Weighing one orphaned tree (`build_tree` of src/forgotten.rs): the root, its descendants and the crashpad
  * handlers they name, without what is exempt. */
module ForgottenTree {
  import opened Wrappers
  import opened ProcTable

  const U64_MAX: nat := 0xFFFF_FFFF_FFFF_FFFF

  function SaturatingAdd(a: nat, b: nat): nat { if a + b > U64_MAX then U64_MAX else a + b }

  function Footprint(p: Process): nat { SaturatingAdd(p.rss, p.swap) }

  /** A name is covered by a token that equals it or that it extends with a `-`. */
  predicate MatchesExempt(exe: string, exempt: seq<string>) {
    exists e :: e in exempt && e != "" && (exe == e || (|exe| > |e| && e <= exe && exe[|e|] == '-'))
  }

  datatype Role = RootRole | Descendant | CrashpadHandler

  datatype Member = Member(pid: int, footprint: nat, depth: nat, role: Role)

  datatype Tree = Tree(root: int, aggregate: nat, rootFootprint: nat, cpuSeconds: nat, members: seq<Member>)

  function MemberPids(members: seq<Member>): set<int> { set m | m in members :: m.pid }

  predicate DistinctMembers(members: seq<Member>) {
    forall i, j :: 0 <= i < j < |members| ==> members[i].pid != members[j].pid
  }

  function Total(members: seq<Member>): nat {
    if members == [] then 0 else Total(members[..|members| - 1]) + members[|members| - 1].footprint
  }

  /** A process that is the operator's: exempt by name, and not of the root's own browser. */
  predicate LeftOut(t: Table, exempt: seq<string>, root: int, pid: int)
    requires root in t.entries && pid in t.entries
  {
    && !(t.entries[root].browserish && t.entries[pid].exe == t.entries[root].exe)
    && MatchesExempt(t.entries[pid].exe, exempt)
  }

  /** An orphan that something below the root names as its crashpad handler. */
  ghost predicate HandlerOf(t: Table, root: int, pid: int) {
    && pid in t.entries && t.entries[pid].orphaned
    && exists d :: Below(t, root, d) && d in t.entries && t.entries[d].handler == Some(pid)
  }

  /** What belongs to the tree: the root, and below it or handling for it whatever is not left out. */
  ghost predicate Belongs(t: Table, exempt: seq<string>, root: int, pid: int)
    requires root in t.entries
  {
    || pid == root
    || (pid in t.entries && !LeftOut(t, exempt, root, pid) && (Below(t, root, pid) || HandlerOf(t, root, pid)))
  }

  /** The member carries its own weight, at its own depth: the tree can be ended deepest first. */
  ghost predicate WellPlaced(t: Table, root: int, m: Member) {
    && m.pid in t.entries
    && m.footprint == Footprint(t.entries[m.pid])
    && match m.role
       case RootRole => m.pid == root && m.depth == 0
       case Descendant => AtDepth(t, root, m.pid, m.depth)
       case CrashpadHandler => m.depth > 0 && NamedAtDepth(t, root, m.pid, m.depth - 1)
  }

  ghost predicate NamedAtDepth(t: Table, root: int, handler: int, depth: nat) {
    exists d :: d in t.entries && t.entries[d].handler == Some(handler) && AtDepth(t, root, d, depth)
  }

  ghost predicate IsTree(t: Table, exempt: seq<string>, tree: Tree) {
    && tree.root in t.entries
    && tree.members != [] && tree.members[0].pid == tree.root
    && DistinctMembers(tree.members)
    && (forall pid :: pid in MemberPids(tree.members) <==> Belongs(t, exempt, tree.root, pid))
    && (forall m :: m in tree.members ==> WellPlaced(t, tree.root, m))
    && tree.aggregate == (if Total(tree.members) > U64_MAX then U64_MAX else Total(tree.members))
    && tree.rootFootprint == Footprint(t.entries[tree.root])
    && tree.cpuSeconds == t.entries[tree.root].cpuSeconds
  }

  // ---------------------------------------------------------------- the loops

  function KeptPids(t: Table, exempt: seq<string>, root: int, s: seq<At>): set<int>
    requires root in t.entries
  {
    set a | a in s && a.pid in t.entries && !LeftOut(t, exempt, root, a.pid) :: a.pid
  }

  function NamedHandlers(t: Table, s: seq<At>): set<int> {
    set a | a in s && a.pid in t.entries && t.entries[a.pid].handler.Some? :: t.entries[a.pid].handler.value
  }

  function AdmittedHandlers(t: Table, exempt: seq<string>, root: int, handlers: seq<At>): set<int>
    requires root in t.entries
  {
    set h | h in handlers && h.pid in t.entries && t.entries[h.pid].orphaned && !LeftOut(t, exempt, root, h.pid) :: h.pid
  }

  /** The members so far are distinct, carry their own weight, and are `pids`. */
  ghost predicate Gathered(t: Table, root: int, members: seq<Member>, pids: set<int>) {
    && members != [] && members[0].pid == root
    && DistinctMembers(members)
    && MemberPids(members) == pids
    && forall m :: m in members ==> WellPlaced(t, root, m)
  }

  lemma GatherOne(t: Table, root: int, members: seq<Member>, pids: set<int>, m: Member)
    requires Gathered(t, root, members, pids) && m.pid !in pids
    requires WellPlaced(t, root, m)
    ensures Gathered(t, root, members + [m], pids + {m.pid})
  {
    var all := members + [m];
    forall i, j | 0 <= i < j < |all| ensures all[i].pid != all[j].pid {
      if j == |members| { assert members[i] in members; }
    }
    forall p ensures p in MemberPids(all) <==> p in pids + {m.pid} {
      if p in pids {
        var n :| n in members && n.pid == p;
        assert n in all;
      }
      assert m in all;
    }
  }

  lemma SnocSets(t: Table, exempt: seq<string>, root: int, s: seq<At>, i: nat)
    requires root in t.entries && i < |s|
    ensures var a := s[i];
      && KeptPids(t, exempt, root, s[..i + 1])
         == KeptPids(t, exempt, root, s[..i])
            + (if a.pid in t.entries && !LeftOut(t, exempt, root, a.pid) then {a.pid} else {})
      && NamedHandlers(t, s[..i + 1])
         == NamedHandlers(t, s[..i])
            + (if a.pid in t.entries && t.entries[a.pid].handler.Some? then {t.entries[a.pid].handler.value} else {})
      && AdmittedHandlers(t, exempt, root, s[..i + 1])
         == AdmittedHandlers(t, exempt, root, s[..i])
            + (if a.pid in t.entries && t.entries[a.pid].orphaned && !LeftOut(t, exempt, root, a.pid) then {a.pid} else {})
  {
    assert s[..i + 1] == s[..i] + [s[i]];
  }

  ghost predicate AllNamed(t: Table, root: int, handlers: seq<At>) {
    forall h :: h in handlers ==> h.depth > 0 && NamedAtDepth(t, root, h.pid, h.depth - 1)
  }

  lemma NameOne(t: Table, root: int, handlers: seq<At>, a: At)
    requires AllNamed(t, root, handlers)
    requires AtDepth(t, root, a.pid, a.depth) && a.pid in t.entries && t.entries[a.pid].handler.Some?
    ensures AllNamed(t, root, handlers + [At(t.entries[a.pid].handler.value, a.depth + 1)])
    ensures Pids(handlers + [At(t.entries[a.pid].handler.value, a.depth + 1)])
         == Pids(handlers) + {t.entries[a.pid].handler.value}
  {
    var h := At(t.entries[a.pid].handler.value, a.depth + 1);
    assert NamedAtDepth(t, root, h.pid, h.depth - 1);
    AddPid(handlers, h);
  }

  /** The walk over the descendants: members in breadth-first order, and the handlers they name. */
  method GatherDescendants(t: Table, exempt: seq<string>, root: int, below: seq<At>)
    returns (members: seq<Member>, handlers: seq<At>)
    requires Valid(t) && root in t.entries
    requires forall a :: a in below ==> AtDepth(t, root, a.pid, a.depth)
    ensures Gathered(t, root, members, {root} + KeptPids(t, exempt, root, below))
    ensures Pids(handlers) == NamedHandlers(t, below)
    ensures AllNamed(t, root, handlers)
  {
    members := [Member(root, Footprint(t.entries[root]), 0, RootRole)];
    assert members[0] in members;
    handlers := [];
    var seen, i := {root}, 0;
    while i < |below|
      invariant 0 <= i <= |below|
      invariant seen == {root} + KeptPids(t, exempt, root, below[..i])
      invariant Gathered(t, root, members, seen)
      invariant Pids(handlers) == NamedHandlers(t, below[..i])
      invariant AllNamed(t, root, handlers)
    {
      var a := below[i];
      SnocSets(t, exempt, root, below, i);
      i := i + 1;
      if a.pid !in t.entries { continue; }
      var p := t.entries[a.pid];
      if p.handler.Some? {
        NameOne(t, root, handlers, a);
        handlers := handlers + [At(p.handler.value, a.depth + 1)];
      }
      if LeftOut(t, exempt, root, a.pid) { continue; }
      if a.pid in seen { continue; }
      var m := Member(a.pid, Footprint(p), a.depth, Descendant);
      GatherOne(t, root, members, seen, m);
      seen, members := seen + {a.pid}, members + [m];
    }
    assert below[..i] == below;
  }

  /** The handlers that are orphans themselves join the tree. */
  method GatherHandlers(t: Table, exempt: seq<string>, root: int, start: seq<Member>, handlers: seq<At>)
    returns (members: seq<Member>)
    requires Valid(t) && root in t.entries
    requires Gathered(t, root, start, MemberPids(start))
    requires AllNamed(t, root, handlers)
    ensures Gathered(t, root, members, MemberPids(start) + AdmittedHandlers(t, exempt, root, handlers))
  {
    members := start;
    var seen, i := MemberPids(start), 0;
    while i < |handlers|
      invariant 0 <= i <= |handlers|
      invariant seen == MemberPids(start) + AdmittedHandlers(t, exempt, root, handlers[..i])
      invariant Gathered(t, root, members, seen)
    {
      var h := handlers[i];
      SnocSets(t, exempt, root, handlers, i);
      i := i + 1;
      if h.pid in seen { continue; }
      if h.pid !in t.entries { continue; }
      if !t.entries[h.pid].orphaned { continue; }
      if LeftOut(t, exempt, root, h.pid) { continue; }
      var m := Member(h.pid, Footprint(t.entries[h.pid]), h.depth, CrashpadHandler);
      GatherOne(t, root, members, seen, m);
      seen, members := seen + {h.pid}, members + [m];
    }
    assert handlers[..i] == handlers;
  }

  /** Adding up with saturation at every step is saturating the sum. */
  method Aggregate(members: seq<Member>) returns (sum: nat)
    ensures sum == if Total(members) > U64_MAX then U64_MAX else Total(members)
  {
    sum := 0;
    var i := 0;
    while i < |members|
      invariant 0 <= i <= |members|
      invariant sum == if Total(members[..i]) > U64_MAX then U64_MAX else Total(members[..i])
    {
      assert members[..i + 1][..i] == members[..i];
      sum := SaturatingAdd(sum, members[i].footprint);
      i := i + 1;
    }
    assert members[..i] == members;
  }

  lemma GatheredAllThatBelongs(t: Table, exempt: seq<string>, root: int, below: seq<At>, handlers: seq<At>, pid: int)
    requires root in t.entries
    requires forall p :: p in Pids(below) <==> Below(t, root, p)
    requires Pids(handlers) == NamedHandlers(t, below)
    ensures pid in {root} + KeptPids(t, exempt, root, below) + AdmittedHandlers(t, exempt, root, handlers)
       <==> Belongs(t, exempt, root, pid)
  {
    assert Below(t, root, pid) <==> exists a :: a in below && a.pid == pid;
    if pid in Pids(handlers) {
      var a :| a in below && a.pid in t.entries && t.entries[a.pid].handler == Some(pid);
      assert a.pid in Pids(below);
    }
    if HandlerOf(t, root, pid) {
      var d :| Below(t, root, d) && d in t.entries && t.entries[d].handler == Some(pid);
      assert d in Pids(below);
      assert pid in NamedHandlers(t, below);
    }
  }

  /** `build_tree` */
  method BuildTree(t: Table, exempt: seq<string>, root: int) returns (tree: Tree)
    requires Valid(t) && root in t.entries
    ensures tree.root == root && IsTree(t, exempt, tree)
  {
    var below := Descendants(t, root);
    var members, handlers := GatherDescendants(t, exempt, root, below);
    members := GatherHandlers(t, exempt, root, members, handlers);
    forall pid ensures pid in MemberPids(members) <==> Belongs(t, exempt, root, pid) {
      GatheredAllThatBelongs(t, exempt, root, below, handlers, pid);
    }
    assert members[0] in members;
    var aggregate := Aggregate(members);
    tree := Tree(root, aggregate, members[0].footprint, t.entries[root].cpuSeconds, members);
  }

  // ---------------------------------------------------------------- weights and names, in plain terms

  function Capped(n: nat): nat { if n <= 0xFFFF_FFFF_FFFF_FFFF then n else 0xFFFF_FFFF_FFFF_FFFF }

  function Weight(t: Table, members: seq<Member>): nat {
    if members == [] then 0
    else
      var m := members[|members| - 1];
      Weight(t, members[..|members| - 1]) + if m.pid in t.entries then Capped(t.entries[m.pid].rss + t.entries[m.pid].swap) else 0
  }

  lemma {:induction false} TotalIsWeight(t: Table, root: int, members: seq<Member>)
    requires forall m :: m in members ==> WellPlaced(t, root, m)
    ensures Total(members) == Weight(t, members)
    decreases |members|
  {
    if members != [] {
      var last := members[|members| - 1];
      assert members == members[..|members| - 1] + [last] && last in members;
      TotalIsWeight(t, root, members[..|members| - 1]);
    }
  }

  /** A tree weighs what its members hold resident and swapped out, each capped at 64 bits, and the sum capped again. */
  lemma TreeWeighsResidentAndSwapped(t: Table, exempt: seq<string>, tree: Tree)
    requires IsTree(t, exempt, tree)
    ensures tree.aggregate == Capped(Weight(t, tree.members))
    ensures tree.rootFootprint == Capped(t.entries[tree.root].rss + t.entries[tree.root].swap)
    ensures forall m :: m in tree.members ==> m.footprint == Capped(t.entries[m.pid].rss + t.entries[m.pid].swap)
  {
    TotalIsWeight(t, tree.root, tree.members);
  }

  /** An exempt name covers itself and what continues it after a dash, and nothing else that merely starts with it. */
  lemma ExemptIffNamedOrDashed(exe: string, exempt: seq<string>)
    ensures MatchesExempt(exe, exempt) <==>
            exists e, more: string :: e in exempt && e != "" && exe == e + more && (more == "" || more[0] == '-')
  {
    if e :| e in exempt && e != "" && (exe == e || (|exe| > |e| && e <= exe && exe[|e|] == '-')) {
      assert exe == e + exe[|e|..];
    }
    if e, more: string :| e in exempt && e != "" && exe == e + more && (more == "" || more[0] == '-') {
      assert more == "" ==> exe == e;
      assert more != "" ==> e <= exe && exe[|e|] == more[0];
    }
  }

  /** Who is a member: the root; and whoever is below it, or an orphan named as crashpad handler by somebody below it,
      unless its name is exempt and it is not the browser the root itself is. */
  lemma MembersInPlainTerms(t: Table, exempt: seq<string>, tree: Tree, pid: int)
    requires IsTree(t, exempt, tree)
    ensures pid in MemberPids(tree.members) <==>
            || pid == tree.root
            || (pid in t.entries
                && (!MatchesExempt(t.entries[pid].exe, exempt)
                    || (t.entries[tree.root].browserish && t.entries[pid].exe == t.entries[tree.root].exe))
                && (Below(t, tree.root, pid)
                    || (t.entries[pid].orphaned
                        && exists d :: Below(t, tree.root, d) && d in t.entries && t.entries[d].handler == Some(pid))))
    ensures forall m :: m in tree.members ==>
              || (m.pid == tree.root && m.depth == 0)
              || AtDepth(t, tree.root, m.pid, m.depth)
              || (m.depth > 0 && exists d :: d in t.entries && t.entries[d].handler == Some(m.pid)
                                             && AtDepth(t, tree.root, d, m.depth - 1))
  {
  }
}
