/** Applying the link policy (src/links.rs): a file that stands where a link should be is renamed aside to a
  * fresh name before it is replaced, and put back when the link cannot be made.
  *
  * The file system maps resolved paths to what stands there; each system call that can fail does so as the
  * entry's `Fate` says. */
module Links {
  import opened Lexicographic
  import opened Wrappers

  datatype Node = File(bytes: seq<nat>) | Link(target: Path) | Dir

  type Nodes = map<Path, Node>

  /** What stands below a directory stands in a directory. */
  predicate Wellformed(nodes: Nodes) {
    && [] !in nodes
    && forall p :: p in nodes && |p| > 1 ==> p[..|p| - 1] in nodes && nodes[p[..|p| - 1]] == Dir
  }

  // ---------------------------------------------------------------- fresh names

  function Decimal(n: nat): string {
    var digit := ['0' + (n % 10) as char];
    if n < 10 then digit else Decimal(n / 10) + digit
  }

  function ReadDecimal(s: string): nat
    requires forall i :: 0 <= i < |s| ==> '0' <= s[i] <= '9'
  {
    if s == [] then 0 else ReadDecimal(s[..|s| - 1]) * 10 + (s[|s| - 1] - '0') as nat
  }

  lemma {:induction false} DecimalReadsBack(n: nat)
    ensures forall i :: 0 <= i < |Decimal(n)| ==> '0' <= Decimal(n)[i] <= '9'
    ensures Decimal(n) != [] && ReadDecimal(Decimal(n)) == n
    decreases n
  {
    var s := Decimal(n);
    if n >= 10 {
      DecimalReadsBack(n / 10);
      assert s[..|s| - 1] == Decimal(n / 10);
    } else {
      assert s[..|s| - 1] == [];
    }
  }

  function Suffix(n: nat): string { if n == 0 then "" else "-" + Decimal(n) }

  /** `<base>`, `<base>-1`, `<base>-2`, ... */
  function Candidate(dir: Path, base: string, n: nat): Path { dir + [base + Suffix(n)] }

  /** The first name is the plain one, and the others end in their number. */
  lemma NamesInOrder(dir: Path, base: string, n: nat)
    ensures Candidate(dir, base, 0) == dir + [base]
    ensures n > 0 ==>
              exists digits :: Candidate(dir, base, n) == dir + [base + "-" + digits]
                               && (forall i :: 0 <= i < |digits| ==> '0' <= digits[i] <= '9') && ReadDecimal(digits) == n
  {
    assert base + "" == base;
    if n > 0 {
      DecimalReadsBack(n);
      assert base + ("-" + Decimal(n)) == base + "-" + Decimal(n);
    }
  }

  lemma CandidatesDiffer(dir: Path, base: string, m: nat, n: nat)
    requires m != n
    ensures Candidate(dir, base, m) != Candidate(dir, base, n)
  {
    DecimalReadsBack(m);
    DecimalReadsBack(n);
    assert m > 0 ==> Suffix(m)[1..] == Decimal(m);
    assert n > 0 ==> Suffix(n)[1..] == Decimal(n);
    assert Candidate(dir, base, m)[|dir|][|base|..] == Suffix(m);
    assert Candidate(dir, base, n)[|dir|][|base|..] == Suffix(n);
  }

  function Candidates(dir: Path, base: string, n: nat): set<Path> {
    if n == 0 then {} else Candidates(dir, base, n - 1) + {Candidate(dir, base, n - 1)}
  }

  lemma {:induction false} CandidatesCount(dir: Path, base: string, n: nat)
    ensures |Candidates(dir, base, n)| == n
    ensures forall p :: p in Candidates(dir, base, n) <==> exists k :: 0 <= k < n && p == Candidate(dir, base, k)
    decreases n
  {
    if n > 0 {
      CandidatesCount(dir, base, n - 1);
      forall k | 0 <= k < n - 1 ensures Candidate(dir, base, k) != Candidate(dir, base, n - 1) {
        CandidatesDiffer(dir, base, k, n - 1);
      }
    }
  }

  /** A finite directory has room: names that are all taken are at most as many as there are nodes. */
  lemma Pigeonhole(nodes: Nodes, dir: Path, base: string, n: nat)
    requires forall k :: 0 <= k < n ==> Candidate(dir, base, k) in nodes
    ensures n <= |nodes|
  {
    CandidatesCount(dir, base, n);
    SubsetCount(Candidates(dir, base, n), nodes.Keys);
  }

  /** The number of the first free name from `n` on. */
  function FirstFree(nodes: Nodes, dir: Path, base: string, n: nat): (first: nat)
    requires forall k :: 0 <= k < n ==> Candidate(dir, base, k) in nodes
    ensures Candidate(dir, base, first) !in nodes && forall k :: 0 <= k < first ==> Candidate(dir, base, k) in nodes
    decreases |nodes| - n
  {
    Pigeonhole(nodes, dir, base, n);
    if Candidate(dir, base, n) !in nodes then n
    else
      Pigeonhole(nodes, dir, base, n + 1);
      FirstFree(nodes, dir, base, n + 1)
  }

  /** `unique_backup_path`: the first free name, found after at most one try for each name taken. */
  method UniqueBackupPath(nodes: Nodes, dir: Path, base: string) returns (candidate: Path, ghost n: nat)
    ensures candidate == Candidate(dir, base, n) && candidate !in nodes
    ensures forall k :: 0 <= k < n ==> Candidate(dir, base, k) in nodes
    ensures n == FirstFree(nodes, dir, base, 0) <= |nodes|
  {
    var i := 0;
    candidate := dir + [base];
    assert base == base + Suffix(0);
    while candidate in nodes
      invariant candidate == Candidate(dir, base, i)
      invariant forall k :: 0 <= k < i ==> Candidate(dir, base, k) in nodes
      decreases |nodes| - i
    {
      Pigeonhole(nodes, dir, base, i + 1);
      i := i + 1;
      candidate := dir + [base + "-" + Decimal(i)];
      assert base + "-" + Decimal(i) == base + Suffix(i);
    }
    Pigeonhole(nodes, dir, base, i);
    n := i;
    assert !(FirstFree(nodes, dir, base, 0) < n) && !(n < FirstFree(nodes, dir, base, 0));
  }

  // ---------------------------------------------------------------- renaming

  /** Where a path is after `from` has been renamed to `to`. */
  function Relocated(from: Path, to: Path, p: Path): Path { if from <= p then to + p[|from|..] else p }

  /** The paths that the rename brings to life at or under `to`. */
  function Grafts(nodes: Nodes, from: Path, to: Path): (paths: set<Path>)
    ensures forall p :: p in paths <==> to <= p && from + p[|to|..] in nodes
  {
    var paths := set q | q in nodes && from <= q :: to + q[|from|..];
    assert forall p :: to <= p && from + p[|to|..] in nodes ==> p in paths by {
      forall p | to <= p && from + p[|to|..] in nodes ensures p in paths {
        var q := from + p[|to|..];
        assert q in nodes && from <= q && to + q[|from|..] == p;
      }
    }
    assert forall p :: p in paths ==> to <= p && from + p[|to|..] in nodes by {
      forall p | p in paths ensures to <= p && from + p[|to|..] in nodes {
        var q :| q in nodes && from <= q && p == to + q[|from|..];
        assert from + p[|to|..] == q;
      }
    }
    paths
  }

  /** The nodes after the rename; whatever stood at or under `to` is gone. */
  function Renamed(nodes: Nodes, from: Path, to: Path): Nodes {
    (map p | p in nodes && !(from <= p) && !(to <= p) :: nodes[p])
    + (map p | p in Grafts(nodes, from, to) :: nodes[from + p[|to|..]])
  }

  /** Nothing stands at or under a path that is not taken. */
  lemma {:induction false} NothingBelow(nodes: Nodes, to: Path, p: Path)
    requires Wellformed(nodes) && to !in nodes && to != [] && to <= p
    ensures p !in nodes
    decreases |p|
  {
    if |p| == |to| {
      assert p == to;
    } else {
      NothingBelow(nodes, to, p[..|p| - 1]);
    }
  }

  /** Renaming to a free path beside the old one loses nothing, and renaming back undoes it. */
  lemma RenameKeeps(nodes: Nodes, from: Path, to: Path, p: Path)
    requires Wellformed(nodes) && to !in nodes && to != [] && p in nodes
    ensures Relocated(from, to, p) in Renamed(nodes, from, to)
    ensures Renamed(nodes, from, to)[Relocated(from, to, p)] == nodes[p]
  {
    if from <= p {
      var q := to + p[|from|..];
      assert from + q[|to|..] == p;
    } else if to <= p {
      NothingBelow(nodes, to, p);
    }
  }

  lemma RelocationIsInjective(nodes: Nodes, from: Path, to: Path, p: Path, q: Path)
    requires Wellformed(nodes) && to !in nodes && to != [] && p in nodes && q in nodes && p != q
    ensures Relocated(from, to, p) != Relocated(from, to, q)
  {
    if to <= p { NothingBelow(nodes, to, p); }
    if to <= q { NothingBelow(nodes, to, q); }
    if from <= p && from <= q {
      assert from + p[|from|..] == p && from + q[|from|..] == q;
      assert (to + p[|from|..])[|to|..] == p[|from|..] && (to + q[|from|..])[|to|..] == q[|from|..];
    }
  }

  lemma ParentOfTheTop(nodes: Nodes, from: Path, to: Path)
    requires Wellformed(nodes) && from in nodes && |to| == |from| > 1 && to[..|to| - 1] == from[..|from| - 1]
    ensures to[..|to| - 1] in Renamed(nodes, from, to) && Renamed(nodes, from, to)[to[..|to| - 1]] == Dir
  {
    var parent := from[..|from| - 1];
    assert parent in nodes && nodes[parent] == Dir;
    assert !(from <= parent) && !(to <= parent);
  }

  lemma Grafted(nodes: Nodes, from: Path, to: Path, below: Path)
    requires from + below in nodes
    ensures to + below in Renamed(nodes, from, to) && Renamed(nodes, from, to)[to + below] == nodes[from + below]
  {
    assert (to + below)[|to|..] == below;
    assert to + below in Grafts(nodes, from, to);
  }

  lemma ParentBelow(nodes: Nodes, top: Path, below: Path)
    requires Wellformed(nodes) && top != [] && below != [] && top + below in nodes
    ensures top + below[..|below| - 1] in nodes && nodes[top + below[..|below| - 1]] == Dir
  {
    var q := top + below;
    assert q[..|q| - 1] == top + below[..|below| - 1];
  }

  lemma ParentMoves(nodes: Nodes, from: Path, to: Path, below: Path)
    requires Wellformed(nodes) && from != [] && below != []
    requires from + below in nodes
    ensures to + below[..|below| - 1] in Renamed(nodes, from, to)
    ensures Renamed(nodes, from, to)[to + below[..|below| - 1]] == Dir
  {
    ParentBelow(nodes, from, below);
    Grafted(nodes, from, to, below[..|below| - 1]);
  }

  lemma ParentStays(nodes: Nodes, from: Path, to: Path, p: Path)
    requires Wellformed(nodes) && !(to <= p) && p in Renamed(nodes, from, to) && |p| > 1
    ensures p[..|p| - 1] in Renamed(nodes, from, to) && Renamed(nodes, from, to)[p[..|p| - 1]] == Dir
  {
    var parent := p[..|p| - 1];
    assert p in nodes && !(from <= p);
    assert to <= parent ==> to <= p;
    assert from <= parent ==> from <= p;
  }

  lemma ParentOfMoved(nodes: Nodes, from: Path, to: Path, p: Path)
    requires Wellformed(nodes) && from != [] && to < p
    requires from + p[|to|..] in nodes
    ensures p[..|p| - 1] in Renamed(nodes, from, to)
    ensures Renamed(nodes, from, to)[p[..|p| - 1]] == Dir
  {
    var below := p[|to|..];
    assert p[..|p| - 1] == to + below[..|below| - 1];
    ParentMoves(nodes, from, to, below);
  }

  lemma RenameKeepsForm(nodes: Nodes, from: Path, to: Path)
    requires Wellformed(nodes) && to !in nodes && to != [] && from in nodes && from != []
    requires |to| == |from| && to[..|to| - 1] == from[..|from| - 1]
    ensures Wellformed(Renamed(nodes, from, to)) && from !in Renamed(nodes, from, to)
  {
    var after := Renamed(nodes, from, to);
    forall p | p in after && |p| > 1 ensures p[..|p| - 1] in after && after[p[..|p| - 1]] == Dir {
      if p == to {
        ParentOfTheTop(nodes, from, to);
      } else if to <= p {
        ParentOfMoved(nodes, from, to, p);
      } else {
        ParentStays(nodes, from, to, p);
      }
    }
    assert to <= from ==> from == to;
  }

  lemma RenameBack(nodes: Nodes, from: Path, to: Path)
    requires Wellformed(nodes) && to !in nodes && to != [] && from != [] && |to| == |from|
    ensures Renamed(Renamed(nodes, from, to), to, from) == nodes
  {
    var there, back := Renamed(nodes, from, to), Renamed(Renamed(nodes, from, to), to, from);
    forall p ensures p in back <==> p in nodes
             ensures p in nodes ==> back[p] == nodes[p]
    {
      if p in nodes && to <= p { NothingBelow(nodes, to, p); }
      if from <= p {
        var q := to + p[|from|..];
        assert from + q[|to|..] == p;
        assert q in there <==> p in nodes;
      } else if to <= p {
        assert p !in back;
      }
    }
  }
}
