/** The reference capture that gates every deletion (src/disk_refs.rs): /proc is read once into an index sorted
  * by path, each target is answered by a range scan that stops early, and the rows are merged per pid.
  *
  * A path is its list of components; an absolute one begins with "/". Sorting the captured rows is left out. */
module DiskRefs {
  import opened Wrappers
  import opened Lexicographic

  /** One reference by one process. */
  datatype Row = Row(pid: nat, exe: Option<Path>, cwd: Option<Path>, fds: seq<nat>) {
    predicate Blocks(target: Path) {
      || fds != []
      || (exe.Some? && target <= exe.value)
      || (cwd.Some? && target <= cwd.value)
    }
  }

  /** What /proc shows of one entry: unreadable links are `None`, and so is a name that is not a number. */
  datatype Fd = Fd(number: Option<nat>, link: Option<Path>)

  datatype Process = Process(pid: Option<nat>, exe: Option<Path>, cwd: Option<Path>, fds: Option<seq<Fd>>)

  // ---------------------------------------------------------------- " (deleted)"

  const DELETED: string := " (deleted)"

  predicate NamedDeleted(name: string) { |name| >= |DELETED| && name[|name| - |DELETED|..] == DELETED }

  predicate EndsDeleted(path: Path) { path != [] && NamedDeleted(path[|path| - 1]) }

  /** Drops the suffix from the text of the path; a component left empty, or as a dot, is no component. */
  function StripDeleted(path: Path): Path {
    if !EndsDeleted(path) then path
    else
      var last := path[|path| - 1];
      var plain := last[..|last| - |DELETED|];
      path[..|path| - 1] + (if plain == "" || plain == "." then [] else [plain])
  }

  /** Exactly one suffix goes, and only from the last component. */
  lemma StripDropsOneSuffix(path: Path, dir: Path, name: string)
    ensures name != "" && name != "." ==> StripDeleted(dir + [name + " (deleted)"]) == dir + [name]
    ensures name == "" || name == "." ==> StripDeleted(dir + [name + " (deleted)"]) == dir
    ensures (forall plain: string :: path == [] || path[|path| - 1] != plain + " (deleted)") ==> StripDeleted(path) == path
  {
    var last := name + " (deleted)";
    assert last[|last| - |DELETED|..] == DELETED && last[..|last| - |DELETED|] == name;
    assert (dir + [last])[..|dir|] == dir;
    if EndsDeleted(path) {
      var l := path[|path| - 1];
      assert l == l[..|l| - |DELETED|] + " (deleted)";
    }
  }

  /** Stripping changes whether a path lies at or under a target only at the target itself. */
  lemma StripMattersOnlyAtTheTarget(target: Path, path: Path)
    requires target <= path
    ensures target <= StripDeleted(path) <==> !(path == target && EndsDeleted(target))
  {
    if EndsDeleted(path) {
      var last := path[|path| - 1];
      var stripped := StripDeleted(path);
      if path == target {
        assert |stripped| < |target| || stripped[|target| - 1] != last;
      } else {
        assert path[..|path| - 1][..|target|] == target;
      }
    }
  }

  // ---------------------------------------------------------------- the sorted index

  datatype Entry = Entry(path: Path, rows: seq<Row>)

  type Index = seq<Entry>

  predicate Ordered(index: Index) { forall i, j :: 0 <= i < j < |index| ==> PathLess(index[i].path, index[j].path) }

  /** `entry(path).or_default().push(row)` */
  function Add(index: Index, path: Path, row: Row): (r: Index)
    ensures r != [] && (r[0].path == path || (index != [] && r[0].path == index[0].path))
  {
    if index == [] then [Entry(path, [row])]
    else if index[0].path == path then [Entry(path, index[0].rows + [row])] + index[1..]
    else if PathLess(path, index[0].path) then [Entry(path, [row])] + index
    else [index[0]] + Add(index[1..], path, row)
  }

  /** The rows of every entry at or under the target, found by filtering the whole index. */
  function RowsUnder(index: Index, target: Path): seq<Row> {
    if index == [] then []
    else (if target <= index[0].path then index[0].rows else []) + RowsUnder(index[1..], target)
  }

  lemma {:induction false} ConsOrdered(e: Entry, rest: Index)
    requires Ordered(rest)
    requires rest == [] || PathLess(e.path, rest[0].path)
    ensures Ordered([e] + rest)
  {
    PathOrder();
    var all := [e] + rest;
    forall i, j | 0 <= i < j < |all| ensures PathLess(all[i].path, all[j].path) {
      assert all[j] == rest[j - 1];
      if i == 0 { assert j == 1 || PathLess(rest[0].path, rest[j - 1].path); } else { assert all[i] == rest[i - 1]; }
    }
  }

  lemma {:induction false} TailOrdered(index: Index)
    requires Ordered(index) && index != []
    ensures Ordered(index[1..])
    ensures |index| > 1 ==> PathLess(index[0].path, index[1..][0].path)
  {
    var rest := index[1..];
    forall i, j | 0 <= i < j < |rest| ensures PathLess(rest[i].path, rest[j].path) {
      assert rest[i] == index[i + 1] && rest[j] == index[j + 1];
    }
  }

  lemma {:induction false} AddKeepsOrder(index: Index, path: Path, row: Row)
    requires Ordered(index)
    ensures Ordered(Add(index, path, row))
    decreases |index|
  {
    PathOrder();
    if index == [] {
    } else {
      TailOrdered(index);
      if index[0].path == path {
        ConsOrdered(Entry(path, index[0].rows + [row]), index[1..]);
      } else if PathLess(path, index[0].path) {
        ConsOrdered(Entry(path, [row]), index);
      } else {
        AddKeepsOrder(index[1..], path, row);
        ConsOrdered(index[0], Add(index[1..], path, row));
      }
    }
  }

  lemma {:induction false} RowsUnderCons(e: Entry, rest: Index, target: Path)
    ensures RowsUnder([e] + rest, target) == (if target <= e.path then e.rows else []) + RowsUnder(rest, target)
  {
    assert ([e] + rest)[1..] == rest;
  }

  lemma {:induction false} AddToEntry(e: Entry, rest: Index, row: Row, target: Path)
    ensures multiset(RowsUnder([Entry(e.path, e.rows + [row])] + rest, target))
         == multiset(RowsUnder([e] + rest, target)) + (if target <= e.path then multiset{row} else multiset{})
  {
    RowsUnderCons(e, rest, target);
    RowsUnderCons(Entry(e.path, e.rows + [row]), rest, target);
  }

  lemma {:induction false} AddAddsOneRow(index: Index, path: Path, row: Row, target: Path)
    ensures multiset(RowsUnder(Add(index, path, row), target))
         == multiset(RowsUnder(index, target)) + (if target <= path then multiset{row} else multiset{})
    decreases |index|
  {
    var after := Add(index, path, row);
    if index == [] {
      RowsUnderCons(Entry(path, [row]), [], target);
      assert after == [Entry(path, [row])] + [];
    } else {
      var e, rest := index[0], index[1..];
      assert index == [e] + rest;
      RowsUnderCons(e, rest, target);
      if e.path == path {
        AddToEntry(e, rest, row, target);
      } else if PathLess(path, e.path) {
        RowsUnderCons(Entry(path, [row]), index, target);
      } else {
        AddAddsOneRow(rest, path, row, target);
        RowsUnderCons(e, Add(rest, path, row), target);
      }
    }
  }

  // ---------------------------------------------------------------- reading /proc

  /** One link of one process, filed under its path without the suffix. */
  datatype Link = Link(path: Path, row: Row)

  function FdLinks(pid: nat, exe: Option<Path>, cwd: Option<Path>, fds: seq<Fd>): seq<Link> {
    if fds == [] then []
    else
      var f, before := fds[|fds| - 1], FdLinks(pid, exe, cwd, fds[..|fds| - 1]);
      if f.number.Some? && f.link.Some? then
        before + [Link(StripDeleted(f.link.value), Row(pid, exe, cwd, [f.number.value]))]
      else before
  }

  function OneLink(link: Option<Path>, row: Row): seq<Link> {
    if link.None? then [] else [Link(StripDeleted(link.value), row)]
  }

  function LinksOf(p: Process): seq<Link> {
    if p.pid.None? then []
    else
      var row := Row(p.pid.value, p.exe, p.cwd, []);
      OneLink(p.exe, row) + OneLink(p.cwd, row)
      + (if p.fds.Some? then FdLinks(p.pid.value, p.exe, p.cwd, p.fds.value) else [])
  }

  function Links(procs: seq<Process>): seq<Link> {
    if procs == [] then [] else Links(procs[..|procs| - 1]) + LinksOf(procs[|procs| - 1])
  }

  function IndexOf(links: seq<Link>): Index {
    if links == [] then []
    else var l := links[|links| - 1]; Add(IndexOf(links[..|links| - 1]), l.path, l.row)
  }

  lemma {:induction false} IndexOfSnoc(links: seq<Link>, l: Link)
    ensures IndexOf(links + [l]) == Add(IndexOf(links), l.path, l.row)
  {
    assert (links + [l])[..|links|] == links;
  }

  datatype Snapshot = Snapshot(index: Index, scanFailed: bool)

  function Taken(proc: Option<seq<Process>>): Snapshot {
    if proc.None? then Snapshot([], true) else Snapshot(IndexOf(Links(proc.value)), false)
  }

  /** The walk over /proc/<pid>/fd. */
  method ReadFds(p: Process, fds: seq<Fd>, start: Index, ghost links: seq<Link>) returns (index: Index)
    requires p.pid.Some? && start == IndexOf(links)
    ensures index == IndexOf(links + FdLinks(p.pid.value, p.exe, p.cwd, fds))
  {
    index := start;
    ghost var done := links;
    var i := 0;
    while i < |fds|
      invariant 0 <= i <= |fds|
      invariant done == links + FdLinks(p.pid.value, p.exe, p.cwd, fds[..i])
      invariant index == IndexOf(done)
    {
      var f := fds[i];
      assert fds[..i + 1][..i] == fds[..i];
      if f.number.Some? && f.link.Some? {
        ghost var l := Link(StripDeleted(f.link.value), Row(p.pid.value, p.exe, p.cwd, [f.number.value]));
        IndexOfSnoc(done, l);
        index := Add(index, StripDeleted(f.link.value), Row(p.pid.value, p.exe, p.cwd, [f.number.value]));
        done := done + [l];
      }
      i := i + 1;
    }
    assert fds[..i] == fds;
  }

  /** `ProcSnapshot::read`; `None` is a /proc that cannot be listed. */
  method Read(proc: Option<seq<Process>>) returns (s: Snapshot)
    ensures s == Taken(proc)
  {
    if proc.None? { return Snapshot([], true); }
    var procs, index, i := proc.value, [], 0;
    while i < |procs|
      invariant 0 <= i <= |procs|
      invariant index == IndexOf(Links(procs[..i]))
    {
      assert procs[..i + 1][..i] == procs[..i];
      index := ReadProcess(procs[i], index, Links(procs[..i]));
      i := i + 1;
    }
    assert procs[..i] == procs;
    return Snapshot(index, false);
  }

  lemma Regroup(a: seq<Link>, b: seq<Link>, c: seq<Link>, d: seq<Link>)
    ensures a + (b + c + d) == a + b + c + d
    ensures d == [] ==> a + b + c + d == a + b + c
  {
  }

  method ReadLink(link: Option<Path>, row: Row, start: Index, ghost links: seq<Link>) returns (index: Index)
    requires start == IndexOf(links)
    ensures index == IndexOf(links + OneLink(link, row))
  {
    if link.None? {
      assert links + [] == links;
      return start;
    }
    IndexOfSnoc(links, Link(StripDeleted(link.value), row));
    return Add(start, StripDeleted(link.value), row);
  }

  /** The links of one process: its executable, its working directory, then its descriptors. */
  method ReadProcess(p: Process, start: Index, ghost links: seq<Link>) returns (index: Index)
    requires start == IndexOf(links)
    ensures index == IndexOf(links + LinksOf(p))
  {
    index := start;
    if p.pid.None? {
      assert links + [] == links;
      return;
    }
    var row := Row(p.pid.value, p.exe, p.cwd, []);
    ghost var exes, cwds := OneLink(p.exe, row), OneLink(p.cwd, row);
    index := ReadLink(p.exe, row, index, links);
    index := ReadLink(p.cwd, row, index, links + exes);
    if p.fds.None? {
      Regroup(links, exes, cwds, []);
      return;
    }
    index := ReadFds(p, p.fds.value, index, links + exes + cwds);
    Regroup(links, exes, cwds, FdLinks(p.pid.value, p.exe, p.cwd, p.fds.value));
  }

  /** The rows of the links at or under a target, straight from /proc. */
  function LinkedUnder(links: seq<Link>, target: Path): seq<Row> {
    if links == [] then []
    else
      var l := links[|links| - 1];
      LinkedUnder(links[..|links| - 1], target) + (if target <= l.path then [l.row] else [])
  }

  /** The index is sorted, and under every target it holds exactly the rows /proc showed there. */
  lemma {:induction false} IndexIsFaithful(links: seq<Link>, target: Path)
    ensures Ordered(IndexOf(links))
    ensures multiset(RowsUnder(IndexOf(links), target)) == multiset(LinkedUnder(links, target))
    decreases |links|
  {
    if links != [] {
      var before, l := links[..|links| - 1], links[|links| - 1];
      IndexIsFaithful(before, target);
      AddKeepsOrder(IndexOf(before), l.path, l.row);
      AddAddsOneRow(IndexOf(before), l.path, l.row, target);
    }
  }

  // ---------------------------------------------------------------- the range scan

  lemma {:induction false} PrefixIsNotGreater<T(!new)>(lt: (T, T) -> bool, target: seq<T>, path: seq<T>)
    requires StrictOrder(lt)
    requires target <= path
    ensures !Lex(lt, path, target)
    decreases |target|
  {
    if target != [] && path != [] { PrefixIsNotGreater(lt, target[1..], path[1..]); }
  }

  /** Under any component order a subtree is one run: past it, nothing sorted later lies under the target. */
  lemma {:induction false} SubtreeIsOneRun<T(!new)>(lt: (T, T) -> bool, target: seq<T>, past: seq<T>, later: seq<T>)
    requires StrictOrder(lt)
    requires !Lex(lt, past, target) && !(target <= past)
    requires Lex(lt, past, later)
    ensures !(target <= later)
    decreases |target|
  {
    if target != [] && target <= later {
      if past[0] == target[0] {
        SubtreeIsOneRun(lt, target[1..], past[1..], later[1..]);
      }
    }
  }

  /** Sorted as plain text instead, a sibling can fall between a directory and its contents. */
  lemma TextOrderSplitsASubtree()
    ensures StringLess("/a", "/a-b") && StringLess("/a-b", "/a/c")
    ensures PathLess(["/", "a"], ["/", "a", "c"]) && PathLess(["/", "a", "c"], ["/", "a-b"])
  {
    assert Lex(CharLess, "/a-b"[1..], "/a/c"[1..]) by {
      assert Lex(CharLess, "/a-b"[1..][1..], "/a/c"[1..][1..]);
    }
    assert Lex(CharLess, "/a"[1..], "/a-b"[1..]) by { assert "/a"[1..][1..] == ""; }
    assert Lex(StringLess, ["/", "a"][1..], ["/", "a", "c"][1..]) by { assert ["/", "a"][1..][1..] == []; }
    assert Lex(StringLess, ["/", "a", "c"][1..], ["/", "a-b"][1..]) by {
      assert "a"[1..] == "" && StringLess("a", "a-b");
    }
  }

  function RowsAt(index: Index, path: Path): seq<Row> {
    if index == [] then [] else if index[0].path == path then index[0].rows else RowsAt(index[1..], path)
  }

  lemma {:induction false} BeforeTheTarget(index: Index, i: nat, target: Path)
    requires i < |index| && PathLess(index[i].path, target)
    ensures RowsUnder(index[i..], target) == RowsUnder(index[i + 1..], target)
    ensures RowsAt(index[i..], target) == RowsAt(index[i + 1..], target)
  {
    assert index[i..][1..] == index[i + 1..];
    StringOrder();
    PathOrder();
    if target <= index[i].path { PrefixIsNotGreater(StringLess, target, index[i].path); }
  }

  lemma {:induction false} NothingUnder(index: Index, target: Path)
    requires forall i :: 0 <= i < |index| ==> !(target <= index[i].path)
    ensures RowsUnder(index, target) == []
    ensures RowsAt(index, target) == []
    decreases |index|
  {
    if index != [] { NothingUnder(index[1..], target); }
  }

  /** Stopping at the first path outside the subtree loses nothing. */
  lemma {:induction false} BreakIsSound(index: Index, i: nat, target: Path)
    requires Ordered(index) && i < |index|
    requires !PathLess(index[i].path, target) && !(target <= index[i].path)
    ensures RowsUnder(index[i..], target) == [] && RowsAt(index[i..], target) == []
  {
    StringOrder();
    var rest := index[i..];
    forall k | 0 <= k < |rest| ensures !(target <= rest[k].path) {
      if k > 0 { SubtreeIsOneRun(StringLess, target, index[i].path, index[i + k].path); }
    }
    NothingUnder(rest, target);
  }

  /** Past the target itself, the target is not found again. */
  lemma {:induction false} TargetOccursOnce(index: Index, i: nat, target: Path)
    requires Ordered(index) && i < |index| && !PathLess(index[i].path, target) && index[i].path != target
    ensures RowsAt(index[i..], target) == []
    decreases |index| - i
  {
    PathOrder();
    assert index[i..][1..] == index[i + 1..];
    if i + 1 < |index| { TargetOccursOnce(index, i + 1, target); }
  }

  /** What the range scan has still to find from `i` on, the exact hit being collected already. */
  function Pending(index: Index, i: nat, target: Path): seq<Row>
    requires i <= |index|
  {
    if i < |index| && index[i].path == target then RowsUnder(index[i + 1..], target) else RowsUnder(index[i..], target)
  }

  /** The scan is at `i`, past nothing that could precede the target, and `refs` is what is found so far. */
  ghost predicate Scanning(index: Index, target: Path, refs: seq<Row>, i: nat) {
    && i <= |index|
    && (i < |index| ==> !PathLess(index[i].path, target))
    && RowsUnder(index, target) == refs + Pending(index, i, target)
  }

  lemma {:induction false} Advance(index: Index, i: nat, target: Path)
    requires Ordered(index) && i < |index| && !PathLess(index[i].path, target)
    ensures i + 1 < |index| ==> !PathLess(index[i + 1].path, target)
    ensures Pending(index, i + 1, target) == RowsUnder(index[i + 1..], target)
    ensures target <= index[i].path ==> RowsUnder(index[i..], target) == index[i].rows + RowsUnder(index[i + 1..], target)
  {
    PathOrder();
    assert index[i..][1..] == index[i + 1..];
    assert i + 1 < |index| ==> PathLess(index[i].path, index[i + 1].path);
  }

  lemma {:induction false} ScanOne(index: Index, target: Path, refs: seq<Row>, i: nat)
    requires Ordered(index) && i < |index| && Scanning(index, target, refs, i)
    ensures index[i].path == target ==> Scanning(index, target, refs, i + 1)
    ensures target < index[i].path ==> Scanning(index, target, refs + index[i].rows, i + 1)
    ensures !(target <= index[i].path) ==> RowsUnder(index, target) == refs
  {
    Advance(index, i, target);
    if !(target <= index[i].path) {
      BreakIsSound(index, i, target);
      assert refs + [] == refs;
    } else if target < index[i].path {
      var rows, rest := index[i].rows, RowsUnder(index[i + 1..], target);
      assert refs + (rows + rest) == refs + rows + rest;
    }
  }

  lemma {:induction false} ScanStarts(index: Index, i: nat, target: Path)
    requires Ordered(index) && i <= |index|
    requires i < |index| ==> !PathLess(index[i].path, target)
    ensures RowsUnder(index[i..], target) == RowsAt(index[i..], target) + Pending(index, i, target)
  {
    if i < |index| {
      Advance(index, i, target);
      assert index[i..][1..] == index[i + 1..];
      if index[i].path != target { TargetOccursOnce(index, i, target); }
    }
  }

  /** `range(target..)`: where the paths not less than the target begin. */
  method RangeFrom(index: Index, target: Path) returns (i: nat)
    ensures i <= |index|
    ensures i < |index| ==> !PathLess(index[i].path, target)
    ensures RowsUnder(index[i..], target) == RowsUnder(index, target)
    ensures RowsAt(index[i..], target) == RowsAt(index, target)
  {
    i := 0;
    assert index[0..] == index;
    while i < |index| && PathLess(index[i].path, target)
      invariant 0 <= i <= |index|
      invariant RowsUnder(index[i..], target) == RowsUnder(index, target)
      invariant RowsAt(index[i..], target) == RowsAt(index, target)
    {
      BeforeTheTarget(index, i, target);
      i := i + 1;
    }
  }

  /** `ProcSnapshot::capture`: the exact hit, then the range scan that breaks at the first path outside. */
  method Capture(index: Index, target: Path) returns (refs: seq<Row>)
    requires Ordered(index)
    ensures refs == RowsUnder(index, target)
  {
    refs := RowsAt(index, target);
    var i := RangeFrom(index, target);
    ScanStarts(index, i, target);
    while i < |index|
      invariant Scanning(index, target, refs, i)
      decreases |index| - i
    {
      ScanOne(index, target, refs, i);
      if index[i].path == target {
        i := i + 1;
        continue;
      }
      if !(target <= index[i].path) { return; }
      refs := refs + index[i].rows;
      i := i + 1;
    }
    assert index[i..] == [] && refs + [] == refs;
  }
}
