/** The scan of /tmp and /var/tmp (`find_temp_cruft` of src/disk_tmp.rs): old top-level entries are collected
  * first, their directories are then measured in one batch, and every measurement returns to its own entry.
  * The final sort by size is left out. */
module TempCruft {
  import opened Wrappers
  import opened Lexicographic
  import opened DiskTmp

  datatype Named = Named(path: Path, node: Node)

  datatype TempEntry = TempEntry(path: Path, bytes: nat, isDir: bool, ageHours: nat, newest: Option<nat>)

  function TimeOf(n: Node): Option<int> {
    match n
    case File(mtime, _) => mtime
    case Dir(mtime, _) => mtime
    case _ => None
  }

  /** Not a link, readable, and old enough by its own time. */
  predicate IsCruft(n: Node, minAge: nat, now: int) {
    (n.File? || n.Dir?) && OldTime(TimeOf(n), now, minAge)
  }

  function CruftOf(entries: seq<Named>, minAge: nat, now: int): seq<Named> {
    if entries == [] then []
    else
      var last := entries[|entries| - 1];
      CruftOf(entries[..|entries| - 1], minAge, now) + (if IsCruft(last.node, minAge, now) then [last] else [])
  }

  /** Everything reported, root by root; an unreadable root reports nothing. */
  function Cruft(roots: seq<Option<seq<Named>>>, minAge: nat, now: int): seq<Named> {
    if roots == [] then []
    else
      var last := roots[|roots| - 1];
      Cruft(roots[..|roots| - 1], minAge, now) + (if last.Some? then CruftOf(last.value, minAge, now) else [])
  }

  function Dirs(found: seq<Named>): seq<Root> {
    if found == [] then []
    else
      var last := found[|found| - 1];
      Dirs(found[..|found| - 1]) + (if last.node.Dir? then [Root(last.path, last.node.mtime, last.node.listing)] else [])
  }

  /** The report describes this entry: its own age in whole hours, and for a directory the measurement of its tree. */
  ghost predicate Describes(t: TempEntry, n: Named, now: int) {
    && Collected(t, n, now)
    && (n.node.Dir? ==> Measures(n.node.listing, n.node.mtime, now, t.bytes, t.newest))
  }

  ghost predicate Collected(t: TempEntry, n: Named, now: int) {
    && (n.node.File? || n.node.Dir?)
    && t.path == n.path
    && t.isDir == n.node.Dir?
    && TimeOf(n.node).Some? && AgeHours(TimeOf(n.node).value, now) == Some(t.ageHours)
    && (n.node.File? ==> t.bytes == n.node.bytes && t.newest == Some(t.ageHours))
  }

  /** The directories before an entry are counted by the directories of the entries before it. */
  lemma {:induction false} DirsAt(found: seq<Named>, i: nat)
    requires i < |found|
    ensures |Dirs(found[..i])| + (if found[i].node.Dir? then 1 else 0) == |Dirs(found[..i + 1])| <= |Dirs(found)|
    ensures found[i].node.Dir? ==>
              Dirs(found)[|Dirs(found[..i])|] == Root(found[i].path, found[i].node.mtime, found[i].node.listing)
    decreases |found|
  {
    assert found[..i + 1][..i] == found[..i];
    if i + 1 == |found| {
      assert found[..i + 1] == found;
    } else {
      var before := found[..|found| - 1];
      DirsAt(before, i);
      assert before[..i] == found[..i] && before[..i + 1] == found[..i + 1];
    }
  }

  method Collect(root: seq<Named>, minAge: nat, now: int) returns (found: seq<TempEntry>)
    ensures |found| == |CruftOf(root, minAge, now)|
    ensures forall k :: 0 <= k < |found| ==> Collected(found[k], CruftOf(root, minAge, now)[k], now)
  {
    found := [];
    var i := 0;
    while i < |root|
      invariant 0 <= i <= |root|
      invariant |found| == |CruftOf(root[..i], minAge, now)|
      invariant forall k :: 0 <= k < |found| ==> Collected(found[k], CruftOf(root[..i], minAge, now)[k], now)
    {
      var n := root[i];
      assert root[..i + 1][..i] == root[..i];
      i := i + 1;
      if n.node.Unstatable? || n.node.Symlink? { continue; }
      var modified := TimeOf(n.node);
      if modified.None? { continue; }
      var hours := AgeHours(modified.value, now);
      AgeIsWholeHours(modified.value, now, minAge);
      if hours.None? || hours.value < minAge { continue; }
      found := found + [TempEntry(n.path, if n.node.Dir? then 0 else n.node.bytes, n.node.Dir?, hours.value,
                                  if n.node.Dir? then None else hours)];
    }
    assert root[..i] == root;
  }

  /** `found.iter().filter(is_dir)`: the listings behind the paths to measure. */
  method DirPaths(ghost named: seq<Named>, found: seq<TempEntry>, nodes: seq<Node>) returns (dirs: seq<Root>)
    requires |named| == |found| == |nodes|
    requires forall k :: 0 <= k < |named| ==> named[k] == Named(found[k].path, nodes[k]) && found[k].isDir == nodes[k].Dir?
    ensures dirs == Dirs(named)
  {
    dirs := [];
    var i := 0;
    while i < |found|
      invariant 0 <= i <= |found|
      invariant dirs == Dirs(named[..i])
    {
      assert named[..i + 1][..i] == named[..i];
      if found[i].isDir { dirs := dirs + [Root(found[i].path, nodes[i].mtime, nodes[i].listing)]; }
      i := i + 1;
    }
    assert named[..i] == named;
  }

  /** The measured values go back, in order, to the entries that are directories. */
  method Pair(named: seq<Named>, start: seq<TempEntry>, measured: array<(nat, Option<nat>)>, now: int)
    returns (found: seq<TempEntry>)
    requires |start| == |named| && measured.Length == |Dirs(named)|
    requires forall k :: 0 <= k < |start| ==> Collected(start[k], named[k], now)
    requires forall k :: 0 <= k < measured.Length ==> Measured(Dirs(named)[k], now, measured[k])
    ensures |found| == |named|
    ensures forall k :: 0 <= k < |found| ==> Describes(found[k], named[k], now)
  {
    found := start;
    var i, next := 0, 0;
    while i < |found|
      invariant 0 <= i <= |found| == |named|
      invariant next == |Dirs(named[..i])|
      invariant forall k :: 0 <= k < i ==> Describes(found[k], named[k], now)
      invariant forall k :: i <= k < |found| ==> found[k] == start[k]
    {
      DirsAt(named, i);
      if found[i].isDir {
        var m := measured[next];
        assert Measured(Dirs(named)[next], now, m);
        found := found[i := found[i].(bytes := m.0, newest := m.1)];
        next := next + 1;
      }
      i := i + 1;
    }
  }

  /** `find_temp_cruft`: one entry for each old top-level file or directory, in order, each with its own
      measurement. */
  method FindTempCruft(roots: seq<Option<seq<Named>>>, minAge: nat, workers: nat, now: int)
    returns (found: seq<TempEntry>)
    requires 1 <= workers <= 8
    ensures |found| == |Cruft(roots, minAge, now)|
    ensures forall k :: 0 <= k < |found| ==> Describes(found[k], Cruft(roots, minAge, now)[k], now)
  {
    found := [];
    var r := 0;
    while r < |roots|
      invariant 0 <= r <= |roots|
      invariant |found| == |Cruft(roots[..r], minAge, now)|
      invariant forall k :: 0 <= k < |found| ==> Collected(found[k], Cruft(roots[..r], minAge, now)[k], now)
    {
      assert roots[..r + 1][..r] == roots[..r];
      if roots[r].Some? {
        var more := Collect(roots[r].value, minAge, now);
        found := found + more;
      }
      r := r + 1;
    }
    assert roots[..r] == roots;
    var named := Cruft(roots, minAge, now);
    var nodes := seq(|named|, i requires 0 <= i < |named| => named[i].node);
    assert forall k :: 0 <= k < |named| ==> named[k] == Named(named[k].path, named[k].node);
    var dirs := DirPaths(named, found, nodes);
    var measured := DirectoryBytesAndAgeParallel(dirs, workers, now);
    found := Pair(named, found, measured, now);
  }

  /** What is reported: the files and directories, no links, of the readable roots whose own time lies far enough back. */
  lemma {:induction false} ReportedIff(roots: seq<Option<seq<Named>>>, minAge: nat, now: int, n: Named)
    ensures n in Cruft(roots, minAge, now) <==>
            && (exists r :: r in roots && r.Some? && n in r.value)
            && (n.node.File? || n.node.Dir?)
            && n.node.mtime.Some? && n.node.mtime.value + minAge * 3600 * SECOND <= now
    decreases |roots|
  {
    assert minAge * HOUR == minAge * 3600 * SECOND;
    if roots != [] {
      var before, last := roots[..|roots| - 1], roots[|roots| - 1];
      assert roots == before + [last];
      ReportedIff(before, minAge, now, n);
      if last.Some? { ReportedOfIff(last.value, minAge, now, n); }
    }
  }

  lemma {:induction false} ReportedOfIff(entries: seq<Named>, minAge: nat, now: int, n: Named)
    ensures n in CruftOf(entries, minAge, now) <==> n in entries && IsCruft(n.node, minAge, now)
    decreases |entries|
  {
    if entries != [] {
      assert entries == entries[..|entries| - 1] + [entries[|entries| - 1]];
      ReportedOfIff(entries[..|entries| - 1], minAge, now, n);
    }
  }
}
