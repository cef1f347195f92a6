/** `apply_one_link` and `apply_link_policy` of src/links.rs over the file system of module Links. */
module LinkPolicy {
  import opened Wrappers
  import opened Lexicographic
  import opened Links

  datatype Entry = Entry(link: Path, target: Path)

  /** How the world answers one entry: whether the target exists, where making the parent fails if it does,
      whether the link is in sync already, which system calls succeed, and the clock in the backup's name. */
  datatype Fate = Fate(
    targetExists: bool,
    mkdirFails: Option<nat>,
    inSync: bool,
    unlinks: bool,
    safe: bool,
    renames: bool,
    symlinks: bool,
    restores: bool,
    stamp: string)

  function Parent(p: Path): Path { if p == [] then [] else p[..|p| - 1] }

  function FileName(p: Path): string { if p == [] then "link" else p[|p| - 1] }

  predicate Room(nodes: Nodes, p: Path) {
    p != [] && p !in nodes && (|p| > 1 ==> Parent(p) in nodes && nodes[Parent(p)] == Dir)
  }

  // ---------------------------------------------------------------- what one entry does

  datatype Made = Made(nodes: Nodes, ok: bool)

  /** Making the directories of `path` from its first `n` components on. */
  function DirsMade(nodes: Nodes, path: Path, n: nat, fails: Option<nat>): Made
    requires 1 <= n <= |path| + 1
    decreases |path| + 1 - n
  {
    if n > |path| then Made(nodes, true)
    else if fails == Some(n) || (path[..n] in nodes && nodes[path[..n]] != Dir) then Made(nodes, false)
    else DirsMade(if path[..n] in nodes then nodes else nodes[path[..n] := Dir], path, n + 1, fails)
  }

  /** What one entry leaves: the nodes, whether it succeeded, and the name under which what stood at the link path
      ends if that is another one. */
  datatype Outcome = Outcome(nodes: Nodes, ok: bool, backup: Option<Path>)

  predicate CanLink(nodes: Nodes, entry: Entry, fate: Fate) { fate.symlinks && Room(nodes, entry.link) }

  /** Linking at a path where nothing stands any more. */
  function LinkedVacant(nodes: Nodes, entry: Entry, fate: Fate): Outcome {
    if CanLink(nodes, entry, fate) then Outcome(nodes[entry.link := Link(entry.target)], true, None)
    else Outcome(nodes, false, None)
  }

  function BackupBase(link: Path, stamp: string): string { FileName(link) + ".dracon-system-backup-" + stamp }

  function Aside(nodes: Nodes, link: Path, stamp: string): Path {
    var base := BackupBase(link, stamp);
    Candidate(Parent(link), base, FirstFree(nodes, Parent(link), base, 0))
  }

  /** Linking where a file or a directory has just been moved aside; it is put back if the link fails. */
  function LinkedAside(away: Nodes, entry: Entry, fate: Fate, aside: Path): Outcome {
    if CanLink(away, entry, fate) then Outcome(away[entry.link := Link(entry.target)], true, Some(aside))
    else if fate.restores && aside in away then Outcome(Renamed(away, aside, entry.link), false, None)
    else Outcome(away, false, Some(aside))
  }

  function Replaced(ready: Nodes, entry: Entry, fate: Fate): Outcome {
    if !fate.safe || !fate.renames || entry.link !in ready then Outcome(ready, false, None)
    else
      var aside := Aside(ready, entry.link, fate.stamp);
      LinkedAside(Renamed(ready, entry.link, aside), entry, fate, aside)
  }

  /** Once the parent is there. */
  function LinkedAt(ready: Nodes, entry: Entry, force: bool, fate: Fate): Outcome {
    if entry.link !in ready then LinkedVacant(ready, entry, fate)
    else if ready[entry.link].Link? then
      if fate.inSync then Outcome(ready, true, None)
      else if !fate.unlinks then Outcome(ready, false, None)
      else LinkedVacant(ready - {entry.link}, entry, fate)
    else if force then Replaced(ready, entry, fate)
    else Outcome(ready, true, None)
  }

  function Linked(nodes: Nodes, entry: Entry, force: bool, fate: Fate): Outcome {
    if !fate.targetExists then Outcome(nodes, true, None)
    else
      var made := DirsMade(nodes, Parent(entry.link), 1, fate.mkdirFails);
      if made.ok then LinkedAt(made.nodes, entry, force, fate) else Outcome(made.nodes, false, None)
  }

  class FileSystem {
    var nodes: Nodes

    method CreateDirAll(path: Path, fails: Option<nat>) returns (ok: bool)
      modifies this
      ensures DirsMade(old(nodes), path, 1, fails) == Made(nodes, ok)
    {
      var n := 1;
      while n <= |path|
        invariant 1 <= n <= |path| + 1
        invariant DirsMade(nodes, path, n, fails) == DirsMade(old(nodes), path, 1, fails)
      {
        if fails == Some(n) { return false; }
        var p := path[..n];
        if p in nodes {
          if nodes[p] != Dir { return false; }
        } else {
          nodes := nodes[p := Dir];
        }
        n := n + 1;
      }
      return true;
    }

    method RemoveLink(p: Path, ok: bool) returns (done: bool)
      requires p in nodes && nodes[p].Link?
      modifies this
      ensures done == ok && nodes == (if ok then old(nodes) - {p} else old(nodes))
    {
      done := ok;
      if ok { nodes := nodes - {p}; }
    }

    method Rename(from: Path, to: Path, ok: bool) returns (done: bool)
      modifies this
      ensures done <==> ok && from in old(nodes)
      ensures nodes == if done then Renamed(old(nodes), from, to) else old(nodes)
    {
      done := ok && from in nodes;
      if done { nodes := Renamed(nodes, from, to); }
    }

    method Symlink(target: Path, link: Path, ok: bool) returns (done: bool)
      modifies this
      ensures done <==> ok && Room(old(nodes), link)
      ensures nodes == if done then old(nodes)[link := Link(target)] else old(nodes)
    {
      done := ok && Room(nodes, link);
      if done { nodes := nodes[link := Link(target)]; }
    }

    /** `restore_after_failed_symlink` */
    method RestoreAfterFailedSymlink(backup: Path, link: Path, ok: bool) returns (restored: bool)
      modifies this
      ensures restored <==> ok && backup in old(nodes)
      ensures nodes == if restored then Renamed(old(nodes), backup, link) else old(nodes)
    {
      restored := Rename(backup, link, ok);
    }

    /** `apply_one_link`. When what stood at the link path ends under another name, `backup` is that name. */
    method ApplyOneLink(entry: Entry, force: bool, fate: Fate) returns (ok: bool, ghost backup: Option<Path>)
      requires Wellformed(nodes)
      modifies this
      ensures Outcome(nodes, ok, backup) == Linked(old(nodes), entry, force, fate)
      ensures Wellformed(nodes)
      ensures Applied(old(nodes), entry, force, fate, nodes, ok, backup)
      ensures Gentle(old(nodes), entry, force, fate, nodes)
    {
      LinkedIsApplied(nodes, entry, force, fate);
      LinkedIsGentle(nodes, entry, force, fate);
      if !fate.targetExists { return true, None; }
      if entry.link != [] {
        var made := CreateDirAll(Parent(entry.link), fate.mkdirFails);
        if !made { return false, None; }
      }
      ok, backup := LinkAt(entry, force, fate);
    }

    /** The rest of `apply_one_link`, once the parent is there. */
    method LinkAt(entry: Entry, force: bool, fate: Fate) returns (ok: bool, ghost backup: Option<Path>)
      modifies this
      ensures Outcome(nodes, ok, backup) == LinkedAt(old(nodes), entry, force, fate)
    {
      if entry.link in nodes {
        if nodes[entry.link].Link? {
          if fate.inSync { return true, None; }
          var gone := RemoveLink(entry.link, fate.unlinks);
          if !gone { return false, None; }
        } else if force {
          ok, backup := Replace(entry, fate);
          return;
        } else {
          return true, None;
        }
      }
      backup := None;
      ok := Symlink(entry.target, entry.link, fate.symlinks);
    }

    /** The branch that moves a file or a directory aside, links, and puts it back if the link fails. */
    method Replace(entry: Entry, fate: Fate) returns (ok: bool, ghost backup: Option<Path>)
      modifies this
      ensures Outcome(nodes, ok, backup) == Replaced(old(nodes), entry, fate)
    {
      var link := entry.link;
      if !fate.safe { return false, None; }
      var aside, n := UniqueBackupPath(nodes, Parent(link), BackupBase(link, fate.stamp));
      var moved := Rename(link, aside, fate.renames);
      if !moved { return false, None; }
      ok := Symlink(entry.target, link, fate.symlinks);
      backup := Some(aside);
      if !ok {
        var restored := RestoreAfterFailedSymlink(aside, link, fate.restores);
        if restored { backup := None; }
      }
    }
  }

  /** Directories leading to `path` have been made, and nothing else. */
  ghost predicate DirsAdded(before: Nodes, after: Nodes, path: Path) {
    && (forall p :: p in before ==> p in after && after[p] == before[p])
    && (forall p :: p in after && p !in before ==> p <= path && after[p] == Dir)
  }

  lemma AddDir(before: Nodes, nodes: Nodes, path: Path, n: nat)
    requires Wellformed(nodes) && DirsAdded(before, nodes, path)
    requires 1 <= n <= |path| && path[..n] !in nodes
    requires n > 1 ==> path[..n - 1] in nodes && nodes[path[..n - 1]] == Dir
    ensures Wellformed(nodes[path[..n] := Dir]) && DirsAdded(before, nodes[path[..n] := Dir], path)
  {
    var p := path[..n];
    assert p[..|p| - 1] == path[..n - 1];
  }

  /** Where what stood at `p` stands after the entry. */
  function Place(link: Path, backup: Option<Path>, p: Path): Path {
    if backup.Some? then Relocated(link, backup.value, p) else p
  }

  /** Everything but a replaced link is still there, at its place, and no two things share one. */
  ghost predicate Kept(before: Nodes, link: Path, after: Nodes, backup: Option<Path>) {
    && (forall p :: p in before && !(p == link && before[p].Link?) ==>
          Place(link, backup, p) in after && after[Place(link, backup, p)] == before[p])
    && (forall p, q :: p in before && q in before && p != q ==> Place(link, backup, p) != Place(link, backup, q))
  }

  /** Nothing is new but the link and directories leading to it. */
  ghost predicate NothingElse(before: Nodes, entry: Entry, after: Nodes, backup: Option<Path>) {
    forall p :: p in after ==>
      || (exists q :: q in before && Place(entry.link, backup, q) == p && after[p] == before[q])
      || (p == entry.link && after[p] == Link(entry.target))
      || (p <= Parent(entry.link) && after[p] == Dir)
  }

  /** What one entry does, whatever fails. */
  ghost predicate Applied(before: Nodes, entry: Entry, force: bool, fate: Fate, after: Nodes, ok: bool, backup: Option<Path>) {
    && Kept(before, entry.link, after, backup)
    && NothingElse(before, entry, after, backup)
    && (backup.Some? ==> force && backup.value !in before)
    && (ok && fate.targetExists && !Settled(before, entry.link, force, fate) ==>
          entry.link in after && after[entry.link] == Link(entry.target))
  }

  /** The link is in sync, or something that may not be replaced stands there. */
  predicate Settled(before: Nodes, link: Path, force: bool, fate: Fate) {
    link in before && if before[link].Link? then fate.inSync else !force
  }

  lemma DirsKeep(before: Nodes, entry: Entry, after: Nodes)
    requires DirsAdded(before, after, Parent(entry.link))
    ensures Kept(before, entry.link, after, None)
    ensures NothingElse(before, entry, after, None)
  {
    forall p | p in after && p in before
      ensures exists q :: q in before && Place(entry.link, None, q) == p && after[p] == before[q]
    {
      assert Place(entry.link, None, p) == p;
    }
  }

  lemma AppliedNothing(before: Nodes, entry: Entry, force: bool, fate: Fate, after: Nodes, ok: bool)
    requires Wellformed(after) && DirsAdded(before, after, Parent(entry.link))
    requires ok ==> !fate.targetExists || Settled(after, entry.link, force, fate)
    ensures Applied(before, entry, force, fate, after, ok, None)
  {
    DirsKeep(before, entry, after);
    assert entry.link == [] || !(entry.link <= Parent(entry.link));
  }

  lemma AppliedLink(before: Nodes, ready: Nodes, entry: Entry, force: bool, fate: Fate, after: Nodes, ok: bool)
    requires DirsAdded(before, ready, Parent(entry.link))
    requires entry.link in ready ==> ready[entry.link].Link?
    requires var vacant := ready - {entry.link}; after == if ok then vacant[entry.link := Link(entry.target)] else vacant
    ensures Applied(before, entry, force, fate, after, ok, None)
  {
  }

  lemma AppliedAside(before: Nodes, ready: Nodes, entry: Entry, fate: Fate, after: Nodes, ok: bool, aside: Path)
    requires Wellformed(ready) && DirsAdded(before, ready, Parent(entry.link))
    requires aside !in ready && aside != [] && entry.link in ready && entry.link != []
    requires entry.link !in Renamed(ready, entry.link, aside)
    requires var away := Renamed(ready, entry.link, aside); after == if ok then away[entry.link := Link(entry.target)] else away
    ensures Applied(before, entry, true, fate, after, ok, Some(aside))
  {
    var link := entry.link;
    var away := Renamed(ready, link, aside);
    forall p | p in before
      ensures Place(link, Some(aside), p) in after && after[Place(link, Some(aside), p)] == before[p]
    {
      RenameKeeps(ready, link, aside, p);
    }
    forall p, q | p in before && q in before && p != q ensures Relocated(link, aside, p) != Relocated(link, aside, q) {
      RelocationIsInjective(ready, link, aside, p, q);
    }
    forall p | p in after
      ensures || (exists q :: q in before && Place(link, Some(aside), q) == p && after[p] == before[q])
              || (p == link && after[p] == Link(entry.target))
              || (p <= Parent(link) && after[p] == Dir)
    {
      if p in away && p != link { AsideComesFrom(before, ready, link, aside, p); }
    }
  }

  lemma AsideComesFrom(before: Nodes, ready: Nodes, link: Path, aside: Path, p: Path)
    requires DirsAdded(before, ready, Parent(link)) && link != []
    requires p in Renamed(ready, link, aside)
    ensures || (exists q :: q in before && Relocated(link, aside, q) == p && Renamed(ready, link, aside)[p] == before[q])
            || (p <= Parent(link) && Renamed(ready, link, aside)[p] == Dir)
  {
    if aside <= p {
      var q := link + p[|aside|..];
      assert q in ready && Relocated(link, aside, q) == p;
      assert q !in before ==> |q| <= |Parent(link)|;
    } else {
      assert p in ready && Relocated(link, aside, p) == p;
    }
  }

  // What the outcome of an entry means.

  predicate Unobstructed(nodes: Nodes, path: Path, fails: Option<nat>) {
    forall m :: 1 <= m <= |path| ==> fails != Some(m) && (path[..m] in nodes ==> nodes[path[..m]] == Dir)
  }

  /** The directories are made unless one cannot be or something else stands in their way. */
  lemma {:induction false} MadeIffUnobstructed(nodes: Nodes, path: Path, n: nat, fails: Option<nat>)
    requires 1 <= n <= |path| + 1
    ensures DirsMade(nodes, path, n, fails).ok <==>
            forall m :: n <= m <= |path| ==> fails != Some(m) && (path[..m] in nodes ==> nodes[path[..m]] == Dir)
    decreases |path| + 1 - n
  {
    if n <= |path| && fails != Some(n) && (path[..n] in nodes ==> nodes[path[..n]] == Dir) {
      var next := if path[..n] in nodes then nodes else nodes[path[..n] := Dir];
      MadeIffUnobstructed(next, path, n + 1, fails);
      forall m | n < m <= |path| ensures path[..m] in next <==> path[..m] in nodes
                                 ensures path[..m] in nodes ==> next[path[..m]] == nodes[path[..m]]
      {
        assert |path[..m]| != |path[..n]|;
      }
    }
  }

  /** Nothing else is new. */
  lemma {:induction false} MakingDirs(before: Nodes, nodes: Nodes, path: Path, n: nat, fails: Option<nat>)
    requires Wellformed(nodes) && DirsAdded(before, nodes, path) && 1 <= n <= |path| + 1
    requires n > 1 ==> path[..n - 1] in nodes && nodes[path[..n - 1]] == Dir
    ensures var made := DirsMade(nodes, path, n, fails);
      && Wellformed(made.nodes) && DirsAdded(before, made.nodes, path)
      && (made.ok && path != [] ==> path in made.nodes && made.nodes[path] == Dir)
    decreases |path| + 1 - n
  {
    if n > |path| {
      assert path != [] ==> path[..|path|] == path && path[..n - 1] == path;
    } else if fails != Some(n) && (path[..n] in nodes ==> nodes[path[..n]] == Dir) {
      if path[..n] in nodes {
        MakingDirs(before, nodes, path, n + 1, fails);
      } else {
        AddDir(before, nodes, path, n);
        MakingDirs(before, nodes[path[..n] := Dir], path, n + 1, fails);
      }
    }
  }

  /** The parent of the link stands ready. */
  ghost predicate Ready(before: Nodes, ready: Nodes, link: Path) {
    && Wellformed(ready) && DirsAdded(before, ready, Parent(link))
    && (|link| > 1 ==> Parent(link) in ready && ready[Parent(link)] == Dir)
  }

  lemma MadeForLink(nodes: Nodes, entry: Entry, fate: Fate)
    requires Wellformed(nodes)
    ensures var made := DirsMade(nodes, Parent(entry.link), 1, fate.mkdirFails);
      && Wellformed(made.nodes) && DirsAdded(nodes, made.nodes, Parent(entry.link))
      && (made.ok <==> Unobstructed(nodes, Parent(entry.link), fate.mkdirFails))
      && (made.ok ==> Ready(nodes, made.nodes, entry.link))
  {
    MakingDirs(nodes, nodes, Parent(entry.link), 1, fate.mkdirFails);
    MadeIffUnobstructed(nodes, Parent(entry.link), 1, fate.mkdirFails);
  }

  /** Moving what stands at the link path aside makes room for the link, and moving it back restores it. */
  lemma RoomAside(ready: Nodes, link: Path, stamp: string)
    requires Wellformed(ready) && link in ready
    ensures var aside := Aside(ready, link, stamp);
            var away := Renamed(ready, link, aside);
      && aside !in ready && |aside| == |link| && aside[..|aside| - 1] == Parent(link)
      && Wellformed(away) && Room(away, link) && aside in away && Renamed(away, aside, link) == ready
  {
    var aside := Aside(ready, link, stamp);
    assert aside[..|aside| - 1] == Parent(link);
    RenameKeepsForm(ready, link, aside);
    if |link| > 1 { ParentOfTheTop(ready, link, aside); }
    assert link + [] == link && aside + [] == aside;
    Grafted(ready, link, aside, []);
    RenameBack(ready, link, aside);
  }

  lemma LinkingKeepsForm(nodes: Nodes, link: Path, target: Path)
    requires Wellformed(nodes) && Room(nodes, link)
    ensures Wellformed(nodes[link := Link(target)])
  {
  }

  lemma UnlinkingKeepsForm(ready: Nodes, link: Path)
    requires Wellformed(ready) && (link in ready ==> ready[link].Link?)
    requires |link| > 1 ==> Parent(link) in ready && ready[Parent(link)] == Dir
    ensures Wellformed(ready - {link}) && (link != [] ==> Room(ready - {link}, link))
  {
    assert |link| > 1 ==> |Parent(link)| != |link|;
  }

  /** Where `away` is `ready` with the file or directory at the link path moved to `aside`. */
  ghost predicate MovedAside(ready: Nodes, away: Nodes, link: Path, aside: Path) {
    && link in ready && aside !in ready && aside != []
    && away == Renamed(ready, link, aside)
    && Wellformed(away) && Room(away, link) && aside in away && Renamed(away, aside, link) == ready
  }

  lemma AsideIsApplied(before: Nodes, ready: Nodes, away: Nodes, entry: Entry, fate: Fate, aside: Path)
    requires Wellformed(ready) && DirsAdded(before, ready, Parent(entry.link)) && fate.targetExists
    requires MovedAside(ready, away, entry.link, aside)
    ensures var o := LinkedAside(away, entry, fate, aside);
      && Wellformed(o.nodes) && Applied(before, entry, true, fate, o.nodes, o.ok, o.backup)
      && (o.ok <==> fate.symlinks) && (o.backup.Some? ==> o.ok || !fate.restores)
  {
    if fate.symlinks {
      LinkingKeepsForm(away, entry.link, entry.target);
      AppliedAside(before, ready, entry, fate, away[entry.link := Link(entry.target)], true, aside);
    } else if fate.restores {
      AppliedNothing(before, entry, true, fate, ready, false);
    } else {
      AppliedAside(before, ready, entry, fate, away, false, aside);
    }
  }

  lemma ReplacedIsApplied(before: Nodes, ready: Nodes, entry: Entry, fate: Fate)
    requires Wellformed(ready) && DirsAdded(before, ready, Parent(entry.link)) && fate.targetExists
    requires entry.link in ready && !ready[entry.link].Link?
    ensures var o := Replaced(ready, entry, fate);
      && Wellformed(o.nodes) && Applied(before, entry, true, fate, o.nodes, o.ok, o.backup)
      && (o.ok <==> fate.safe && fate.renames && fate.symlinks) && (o.backup.Some? ==> o.ok || !fate.restores)
  {
    if fate.safe && fate.renames {
      var aside := Aside(ready, entry.link, fate.stamp);
      RoomAside(ready, entry.link, fate.stamp);
      AsideIsApplied(before, ready, Renamed(ready, entry.link, aside), entry, fate, aside);
    } else {
      AppliedNothing(before, entry, true, fate, ready, false);
    }
  }

  /** Where nothing, or a link, stands at the path. */
  lemma LinkIsApplied(before: Nodes, ready: Nodes, entry: Entry, force: bool, fate: Fate)
    requires Ready(before, ready, entry.link) && fate.targetExists
    requires entry.link in ready ==> ready[entry.link].Link? && !fate.inSync && fate.unlinks
    ensures var o := LinkedVacant(ready - {entry.link}, entry, fate);
      && Wellformed(o.nodes) && Applied(before, entry, force, fate, o.nodes, o.ok, None)
      && o.backup.None? && (o.ok <==> entry.link != [] && fate.symlinks)
  {
    var vacant := ready - {entry.link};
    UnlinkingKeepsForm(ready, entry.link);
    if entry.link != [] && fate.symlinks {
      LinkingKeepsForm(vacant, entry.link, entry.target);
      AppliedLink(before, ready, entry, force, fate, vacant[entry.link := Link(entry.target)], true);
    } else {
      AppliedLink(before, ready, entry, force, fate, vacant, false);
    }
  }

  /** No call that the entry needs fails, once the parent is there. */
  predicate Linkable(nodes: Nodes, entry: Entry, force: bool, fate: Fate) {
    if entry.link !in nodes then entry.link != [] && fate.symlinks
    else if nodes[entry.link].Link? then fate.inSync || (fate.unlinks && fate.symlinks)
    else !force || (fate.safe && fate.renames && fate.symlinks)
  }

  lemma LinkedAtIsApplied(before: Nodes, ready: Nodes, entry: Entry, force: bool, fate: Fate)
    requires Ready(before, ready, entry.link) && fate.targetExists
    ensures var o := LinkedAt(ready, entry, force, fate);
      && Wellformed(o.nodes) && Applied(before, entry, force, fate, o.nodes, o.ok, o.backup)
      && (o.ok <==> Linkable(ready, entry, force, fate)) && (o.backup.Some? ==> o.ok || !fate.restores)
  {
    var link := entry.link;
    if link in ready && !ready[link].Link? && force {
      ReplacedIsApplied(before, ready, entry, fate);
    } else if link in ready && (!ready[link].Link? || fate.inSync || !fate.unlinks) {
      AppliedNothing(before, entry, force, fate, ready, !ready[link].Link? || fate.inSync);
    } else {
      assert link !in ready ==> ready - {link} == ready;
      LinkIsApplied(before, ready, entry, force, fate);
    }
  }

  /** No call that the entry needs fails. */
  predicate Unhindered(nodes: Nodes, entry: Entry, force: bool, fate: Fate) {
    Unobstructed(nodes, Parent(entry.link), fate.mkdirFails) && Linkable(nodes, entry, force, fate)
  }

  lemma ReadyIsLinkable(nodes: Nodes, ready: Nodes, entry: Entry, force: bool, fate: Fate)
    requires DirsAdded(nodes, ready, Parent(entry.link)) && Wellformed(nodes) && Wellformed(ready)
    ensures Linkable(ready, entry, force, fate) <==> Linkable(nodes, entry, force, fate)
  {
    assert entry.link == [] || !(entry.link <= Parent(entry.link));
  }

  /** Whatever fails, an entry keeps everything in place; it succeeds exactly when there is nothing to link to or no
      call that it needs fails; and a failure leaves nothing aside unless putting it back fails too. */
  lemma LinkedIsApplied(nodes: Nodes, entry: Entry, force: bool, fate: Fate)
    requires Wellformed(nodes)
    ensures var o := Linked(nodes, entry, force, fate);
      && Wellformed(o.nodes) && Applied(nodes, entry, force, fate, o.nodes, o.ok, o.backup)
      && (o.ok <==> !fate.targetExists || Unhindered(nodes, entry, force, fate))
      && (o.backup.Some? ==> o.ok || !fate.restores)
  {
    var made := DirsMade(nodes, Parent(entry.link), 1, fate.mkdirFails);
    MadeForLink(nodes, entry, fate);
    if !fate.targetExists {
      AppliedNothing(nodes, entry, force, fate, nodes, true);
    } else if made.ok {
      LinkedAtIsApplied(nodes, made.nodes, entry, force, fate);
      ReadyIsLinkable(nodes, made.nodes, entry, force, fate);
    } else {
      AppliedNothing(nodes, entry, force, fate, made.nodes, false);
    }
  }

  /** An entry without a target, or that is settled, changes no node at all; and a link is replaced only when it is out
      of sync and could be unlinked. */
  ghost predicate Gentle(before: Nodes, entry: Entry, force: bool, fate: Fate, after: Nodes) {
    && (!fate.targetExists || Settled(before, entry.link, force, fate) ==> after == before)
    && (entry.link in before && before[entry.link].Link? && (fate.inSync || !fate.unlinks) ==>
          entry.link in after && after[entry.link] == before[entry.link])
  }

  /** Whatever stands in the file system stands in directories. */
  lemma {:induction false} StandsInDirs(nodes: Nodes, p: Path, m: nat)
    requires Wellformed(nodes) && p in nodes && 1 <= m < |p|
    ensures p[..m] in nodes && nodes[p[..m]] == Dir
    decreases |p|
  {
    var above := p[..|p| - 1];
    if m < |above| {
      StandsInDirs(nodes, above, m);
      assert above[..m] == p[..m];
    } else {
      assert p[..m] == above;
    }
  }

  lemma {:induction false} DirsAreThere(nodes: Nodes, path: Path, n: nat, fails: Option<nat>)
    requires 1 <= n <= |path| + 1
    requires forall m :: n <= m <= |path| ==> path[..m] in nodes && nodes[path[..m]] == Dir
    ensures DirsMade(nodes, path, n, fails).nodes == nodes
    decreases |path| + 1 - n
  {
    if n <= |path| { DirsAreThere(nodes, path, n + 1, fails); }
  }

  lemma NothingToMake(nodes: Nodes, link: Path, fails: Option<nat>)
    requires Wellformed(nodes) && link in nodes
    ensures DirsMade(nodes, Parent(link), 1, fails).nodes == nodes
  {
    forall m | 1 <= m <= |Parent(link)| ensures Parent(link)[..m] in nodes && nodes[Parent(link)[..m]] == Dir {
      StandsInDirs(nodes, link, m);
      assert Parent(link)[..m] == link[..m];
    }
    DirsAreThere(nodes, Parent(link), 1, fails);
  }

  lemma LinkedIsGentle(nodes: Nodes, entry: Entry, force: bool, fate: Fate)
    requires Wellformed(nodes)
    ensures Gentle(nodes, entry, force, fate, Linked(nodes, entry, force, fate).nodes)
  {
    if entry.link in nodes { NothingToMake(nodes, entry.link, fate.mkdirFails); }
  }

  /** A failed entry leaves everything at its own path, but for a link that was to be replaced, unless putting a
      file back fails too. */
  lemma FailedEntryIsUndone(nodes: Nodes, entry: Entry, force: bool, fate: Fate, p: Path)
    requires Wellformed(nodes) && !Linked(nodes, entry, force, fate).ok && fate.restores
    requires p in nodes && (p == entry.link ==> !nodes[p].Link?)
    ensures var after := Linked(nodes, entry, force, fate).nodes; p in after && after[p] == nodes[p]
  {
    var o := Linked(nodes, entry, force, fate);
    LinkedIsApplied(nodes, entry, force, fate);
    assert Place(entry.link, o.backup, p) == p;
  }

  /** What is moved aside goes to the same directory, under its own name with the mark and the time of the backup, and
      a number only if that is taken. */
  lemma BackupIsNamedAfterTheLink(nodes: Nodes, link: Path, stamp: string)
    requires link != []
    ensures var name := link[|link| - 1] + ".dracon-system-backup-" + stamp;
            var aside := Aside(nodes, link, stamp);
      && aside !in nodes && |aside| == |link| && aside[..|link| - 1] == link[..|link| - 1]
      && (link[..|link| - 1] + [name] !in nodes ==> aside == link[..|link| - 1] + [name])
      && name <= aside[|link| - 1]
  {
    var base := BackupBase(link, stamp);
    NamesInOrder(Parent(link), base, 0);
    assert base <= base + Suffix(FirstFree(nodes, Parent(link), base, 0));
  }

  // ---------------------------------------------------------------- the whole policy

  /** Where what stood at `p` stands after all the entries. */
  function FinalPlace(entries: seq<Entry>, backups: seq<Option<Path>>, p: Path): Path
    requires |backups| <= |entries|
    decreases |backups|
  {
    if backups == [] then p
    else
      var last := |backups| - 1;
      Place(entries[last].link, backups[last], FinalPlace(entries, backups[..last], p))
  }

  /** Every regular file keeps its bytes, at its own path or under a backup name, and no two share a place. */
  ghost predicate FilesKept(before: Nodes, after: Nodes, entries: seq<Entry>, backups: seq<Option<Path>>)
    requires |backups| <= |entries|
  {
    && (forall p :: p in before && before[p].File? ==>
          FinalPlace(entries, backups, p) in after && after[FinalPlace(entries, backups, p)] == before[p])
    && (forall p :: p in before && before[p].File? ==>
          FinalPlace(entries, backups, p) == p || UnderABackup(backups, FinalPlace(entries, backups, p)))
    && (forall p, q :: p in before && q in before && before[p].File? && before[q].File? && p != q ==>
          FinalPlace(entries, backups, p) != FinalPlace(entries, backups, q))
  }

  ghost predicate UnderABackup(backups: seq<Option<Path>>, p: Path) {
    exists i :: 0 <= i < |backups| && backups[i].Some? && backups[i].value <= p
  }

  lemma {:induction false} KeepOneMore(before: Nodes, middle: Nodes, after: Nodes, entries: seq<Entry>,
                                       backups: seq<Option<Path>>, backup: Option<Path>)
    requires |backups| < |entries| && FilesKept(before, middle, entries, backups)
    requires Kept(middle, entries[|backups|].link, after, backup)
    ensures FilesKept(before, after, entries, backups + [backup])
  {
    var all, link := backups + [backup], entries[|backups|].link;
    assert all[..|backups|] == backups;
    forall p | p in before && before[p].File?
      ensures FinalPlace(entries, all, p) in after && after[FinalPlace(entries, all, p)] == before[p]
      ensures FinalPlace(entries, all, p) == p || UnderABackup(all, FinalPlace(entries, all, p))
    {
      var at := FinalPlace(entries, backups, p);
      assert FinalPlace(entries, all, p) == Place(link, backup, at);
      if backup.Some? && link <= at {
        assert all[|backups|].value <= Place(link, backup, at);
      } else if UnderABackup(backups, at) {
        var i :| 0 <= i < |backups| && backups[i].Some? && backups[i].value <= at;
        assert all[i] == backups[i];
      }
    }
    forall p, q | p in before && q in before && before[p].File? && before[q].File? && p != q
      ensures FinalPlace(entries, all, p) != FinalPlace(entries, all, q)
    {
      assert FinalPlace(entries, backups, p) != FinalPlace(entries, backups, q);
    }
  }

  /** The states the run went through, one entry after another. */
  ghost predicate Trace(states: seq<Nodes>, entries: seq<Entry>, force: bool, fates: seq<Fate>, oks: seq<bool>,
                        backups: seq<Option<Path>>) {
    && |oks| == |backups| <= |entries| == |fates|
    && |states| == |backups| + 1
    && forall i :: 0 <= i < |backups| ==> IsTurn(states, entries[i], force, fates[i], oks[i], backups[i], i)
  }

  /** Entry `i` finds the nodes as those before it left them. */
  ghost predicate IsTurn(states: seq<Nodes>, entry: Entry, force: bool, fate: Fate, ok: bool, backup: Option<Path>, i: nat)
    requires i + 1 < |states|
  {
    Linked(states[i], entry, force, fate) == Outcome(states[i + 1], ok, backup)
  }

  /** What a turn means, with its outcome named. */
  lemma TurnKeepsForm(before: Nodes, entry: Entry, force: bool, fate: Fate, o: Outcome)
    requires Wellformed(before) && Linked(before, entry, force, fate) == o
    ensures Wellformed(o.nodes) && Applied(before, entry, force, fate, o.nodes, o.ok, o.backup)
    ensures o.ok <==> !fate.targetExists || Unhindered(before, entry, force, fate)
  {
    LinkedIsApplied(before, entry, force, fate);
  }

  lemma TurnAt(states: seq<Nodes>, entries: seq<Entry>, force: bool, fates: seq<Fate>, oks: seq<bool>,
               backups: seq<Option<Path>>, i: nat)
    requires Trace(states, entries, force, fates, oks, backups) && i < |backups| && Wellformed(states[i])
    ensures Wellformed(states[i + 1])
    ensures Applied(states[i], entries[i], force, fates[i], states[i + 1], oks[i], backups[i])
    ensures oks[i] <==> !fates[i].targetExists || Unhindered(states[i], entries[i], force, fates[i])
  {
    assert IsTurn(states, entries[i], force, fates[i], oks[i], backups[i], i);
    TurnKeepsForm(states[i], entries[i], force, fates[i], Outcome(states[i + 1], oks[i], backups[i]));
  }

  lemma {:induction false} TraceKeepsForm(states: seq<Nodes>, entries: seq<Entry>, force: bool, fates: seq<Fate>,
                                          oks: seq<bool>, backups: seq<Option<Path>>, n: nat)
    requires Trace(states, entries, force, fates, oks, backups) && Wellformed(states[0]) && n <= |backups|
    ensures Wellformed(states[n])
    decreases n
  {
    if n > 0 {
      TraceKeepsForm(states, entries, force, fates, oks, backups, n - 1);
      TurnAt(states, entries, force, fates, oks, backups, n - 1);
    }
  }

  /** No entry is stranded: whatever became of those before it, it succeeds exactly when no call that it needs fails,
      and then its link is made unless it was settled. */
  lemma EveryEntryGetsItsTurn(states: seq<Nodes>, entries: seq<Entry>, force: bool, fates: seq<Fate>, oks: seq<bool>,
                              backups: seq<Option<Path>>, i: nat)
    requires Trace(states, entries, force, fates, oks, backups) && Wellformed(states[0]) && i < |backups|
    ensures oks[i] <==> !fates[i].targetExists || Unhindered(states[i], entries[i], force, fates[i])
    ensures oks[i] && fates[i].targetExists && !Settled(states[i], entries[i].link, force, fates[i]) ==>
              entries[i].link in states[i + 1] && states[i + 1][entries[i].link] == Link(entries[i].target)
    ensures Gentle(states[i], entries[i], force, fates[i], states[i + 1])
  {
    TraceKeepsForm(states, entries, force, fates, oks, backups, i);
    TurnAt(states, entries, force, fates, oks, backups, i);
    LinkedIsGentle(states[i], entries[i], force, fates[i]);
    assert IsTurn(states, entries[i], force, fates[i], oks[i], backups[i], i);
  }

  /** A run over entries that are all settled, such as a second one over links in sync, changes no node. */
  lemma {:induction false} SettledRunChangesNothing(states: seq<Nodes>, entries: seq<Entry>, force: bool, fates: seq<Fate>,
                                                    oks: seq<bool>, backups: seq<Option<Path>>, n: nat)
    requires Trace(states, entries, force, fates, oks, backups) && Wellformed(states[0]) && n <= |backups|
    requires forall i :: 0 <= i < n ==> !fates[i].targetExists || Settled(states[0], entries[i].link, force, fates[i])
    ensures states[n] == states[0]
    ensures forall i :: 0 <= i < n && fates[i].mkdirFails.None? ==> oks[i]
    decreases n
  {
    if n > 0 {
      SettledRunChangesNothing(states, entries, force, fates, oks, backups, n - 1);
      EveryEntryGetsItsTurn(states, entries, force, fates, oks, backups, n - 1);
      SettledTurn(states[n - 1], entries[n - 1], force, fates[n - 1], states[n], oks[n - 1]);
    }
  }

  lemma SettledTurn(before: Nodes, entry: Entry, force: bool, fate: Fate, after: Nodes, ok: bool)
    requires Wellformed(before) && Gentle(before, entry, force, fate, after)
    requires !fate.targetExists || Settled(before, entry.link, force, fate)
    requires ok <==> !fate.targetExists || Unhindered(before, entry, force, fate)
    ensures after == before && (fate.mkdirFails.None? ==> ok)
  {
    if fate.targetExists && fate.mkdirFails.None? { SettledSucceeds(before, entry, force, fate); }
  }

  lemma SettledSucceeds(nodes: Nodes, entry: Entry, force: bool, fate: Fate)
    requires Wellformed(nodes) && Settled(nodes, entry.link, force, fate) && fate.mkdirFails.None?
    ensures Unhindered(nodes, entry, force, fate)
  {
    forall m | 1 <= m <= |Parent(entry.link)| ensures Parent(entry.link)[..m] in nodes && nodes[Parent(entry.link)[..m]] == Dir {
      StandsInDirs(nodes, entry.link, m);
      assert Parent(entry.link)[..m] == entry.link[..m];
    }
  }

  /** Without `force` no file moves at all. */
  lemma {:induction false} UnforcedFilesStay(states: seq<Nodes>, entries: seq<Entry>, fates: seq<Fate>, oks: seq<bool>,
                                             backups: seq<Option<Path>>, n: nat, p: Path)
    requires Trace(states, entries, false, fates, oks, backups) && n <= |backups|
    ensures FinalPlace(entries, backups[..n], p) == p
    decreases n
  {
    if n > 0 {
      UnforcedFilesStay(states, entries, fates, oks, backups, n - 1, p);
      assert backups[..n][..n - 1] == backups[..n - 1];
      assert IsTurn(states, entries[n - 1], false, fates[n - 1], oks[n - 1], backups[n - 1], n - 1);
      assert backups[n - 1] == None;
    }
  }

  function Failures(oks: seq<bool>): seq<nat> {
    if oks == [] then []
    else Failures(oks[..|oks| - 1]) + if oks[|oks| - 1] then [] else [|oks| - 1]
  }

  lemma TraceOne(states: seq<Nodes>, entries: seq<Entry>, force: bool, fates: seq<Fate>, oks: seq<bool>,
                 backups: seq<Option<Path>>, after: Nodes, ok: bool, backup: Option<Path>)
    requires Trace(states, entries, force, fates, oks, backups) && |backups| < |entries|
    requires var i := |backups|; Linked(states[i], entries[i], force, fates[i]) == Outcome(after, ok, backup)
    ensures Trace(states + [after], entries, force, fates, oks + [ok], backups + [backup])
  {
    var s, o, b := states + [after], oks + [ok], backups + [backup];
    forall i | 0 <= i < |b| ensures IsTurn(s, entries[i], force, fates[i], o[i], b[i], i) {
      if i < |backups| {
        assert IsTurn(states, entries[i], force, fates[i], oks[i], backups[i], i);
        assert s[i] == states[i] && s[i + 1] == states[i + 1] && o[i] == oks[i] && b[i] == backups[i];
      }
    }
  }

  /** Where the loop over the entries stands: the states it went through, the last one `nodes`, and the failures. */
  ghost predicate Applying(states: seq<Nodes>, entries: seq<Entry>, force: bool, fates: seq<Fate>, oks: seq<bool>,
                           backups: seq<Option<Path>>, start: Nodes, nodes: Nodes, errors: seq<nat>) {
    && Trace(states, entries, force, fates, oks, backups)
    && Wellformed(nodes) && states[0] == start && states[|backups|] == nodes
    && errors == Failures(oks)
    && FilesKept(start, nodes, entries, backups)
  }

  lemma ApplyingOne(states: seq<Nodes>, entries: seq<Entry>, force: bool, fates: seq<Fate>, oks: seq<bool>,
                    backups: seq<Option<Path>>, start: Nodes, before: Nodes, errors: seq<nat>, after: Nodes, ok: bool,
                    backup: Option<Path>)
    requires Applying(states, entries, force, fates, oks, backups, start, before, errors) && |backups| < |entries|
    requires var i := |backups|; Linked(before, entries[i], force, fates[i]) == Outcome(after, ok, backup)
    ensures Applying(states + [after], entries, force, fates, oks + [ok], backups + [backup], start, after,
                     errors + if ok then [] else [|backups|])
  {
    var i := |backups|;
    TurnKeepsForm(before, entries[i], force, fates[i], Outcome(after, ok, backup));
    TraceOne(states, entries, force, fates, oks, backups, after, ok, backup);
    KeepOneMore(start, before, after, entries, backups, backup);
    assert (oks + [ok])[..i] == oks;
  }

  lemma ApplyingStarts(entries: seq<Entry>, force: bool, fates: seq<Fate>, start: Nodes)
    requires Wellformed(start) && |fates| == |entries|
    ensures Applying([start], entries, force, fates, [], [], start, start, [])
  {
  }

  /** `apply_link_policy`: every entry is applied in turn whatever happened to the ones before it, the entries
      that failed are named, and no regular file loses its bytes. */
  method ApplyLinkPolicy(fs: FileSystem, entries: seq<Entry>, force: bool, fates: seq<Fate>)
    returns (errors: seq<nat>, ghost states: seq<Nodes>, ghost oks: seq<bool>, ghost backups: seq<Option<Path>>)
    requires Wellformed(fs.nodes) && |fates| == |entries|
    modifies fs
    ensures Wellformed(fs.nodes)
    ensures Trace(states, entries, force, fates, oks, backups)
    ensures |backups| == |entries| && states[0] == old(fs.nodes) && states[|entries|] == fs.nodes
    ensures errors == Failures(oks)
    ensures FilesKept(old(fs.nodes), fs.nodes, entries, backups)
  {
    errors, states, oks, backups := [], [fs.nodes], [], [];
    ghost var start := fs.nodes;
    ApplyingStarts(entries, force, fates, start);
    var i := 0;
    while i < |entries|
      invariant 0 <= i == |backups| <= |entries|
      invariant Applying(states, entries, force, fates, oks, backups, start, fs.nodes, errors)
    {
      ghost var before := fs.nodes;
      var ok, backup := fs.ApplyOneLink(entries[i], force, fates[i]);
      ApplyingOne(states, entries, force, fates, oks, backups, start, before, errors, fs.nodes, ok, backup);
      states, oks, backups := states + [fs.nodes], oks + [ok], backups + [backup];
      errors := errors + if ok then [] else [i];
      i := i + 1;
    }
  }
}
