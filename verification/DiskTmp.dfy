/** Measuring directory trees (src/disk_tmp.rs): one worklist walk gives the size of a tree and the age of its
  * newest content, many trees are measured in chunks, and the scan of /tmp pairs each directory it reports
  * with its own measurement. Times are in nanoseconds; links are never followed. */
module DiskTmp {
  import opened Wrappers
  import opened Lexicographic

  /** A directory entry as `symlink_metadata` and `read_dir` show it; `None` is what could not be read. */
  datatype Node =
    | File(mtime: Option<int>, bytes: nat)
    | Symlink
    | Unstatable
    | Dir(mtime: Option<int>, listing: Listing)

  datatype Listing = Unlistable | Listed(entries: seq<Node>)

  const LIMIT: nat := 200_000

  const SECOND: int := 1_000_000_000

  /** Whole hours since `modified`; none when it lies in the future. */
  function AgeHours(modified: int, now: int): Option<nat> {
    if modified <= now then Some((now - modified) / SECOND / 3600) else None
  }

  /** What a walk learns of a tree. */
  datatype Summary = Summary(total: nat, seen: nat, newest: Option<int>, unreadable: bool)

  const NOTHING := Summary(0, 0, None, false)

  function Later(a: Option<int>, b: Option<int>): Option<int> {
    if a.None? then b else if b.None? then a else Some(if b.value > a.value then b.value else a.value)
  }

  function Plus(a: Summary, b: Summary): Summary {
    Summary(a.total + b.total, a.seen + b.seen, Later(a.newest, b.newest), a.unreadable || b.unreadable)
  }

  /** An entry by itself, without what lies below it. */
  function Entry(n: Node): Summary {
    match n
    case File(mtime, bytes) => Summary(bytes, 1, mtime, mtime.None?)
    case Symlink => Summary(0, 1, None, false)
    case Unstatable => Summary(0, 1, None, true)
    case Dir(mtime, _) => Summary(0, 1, mtime, mtime.None?)
  }

  /** The recursive fold over a tree. */
  function Fold(n: Node): Summary {
    match n
    case Dir(_, listing) => Plus(Entry(n), FoldListing(listing))
    case _ => Entry(n)
  }

  function FoldListing(listing: Listing): Summary {
    if listing.Unlistable? then Summary(0, 0, None, true) else FoldAll(listing.entries)
  }

  function FoldAll(nodes: seq<Node>): Summary {
    if nodes == [] then NOTHING else Plus(Fold(nodes[0]), FoldAll(nodes[1..]))
  }

  function FoldStack(stack: seq<Listing>): Summary {
    if stack == [] then NOTHING else Plus(FoldStack(stack[..|stack| - 1]), FoldListing(stack[|stack| - 1]))
  }

  lemma PlusLaws(a: Summary, b: Summary, c: Summary)
    ensures Plus(a, b) == Plus(b, a)
    ensures Plus(Plus(a, b), c) == Plus(a, Plus(b, c))
    ensures Plus(a, NOTHING) == a
  {
  }

  lemma FoldStackPush(stack: seq<Listing>, listing: Listing)
    ensures FoldStack(stack + [listing]) == Plus(FoldStack(stack), FoldListing(listing))
  {
    assert (stack + [listing])[..|stack|] == stack;
  }

  // ---------------------------------------------------------------- the walk

  /** The walk has learned `sofar`; `rest` and `stack` are still to be read. */
  ghost predicate Walking(sofar: Summary, rest: seq<Node>, stack: seq<Listing>, all: Summary) {
    Plus(Plus(sofar, FoldAll(rest)), FoldStack(stack)) == all
  }

  lemma Descend(s: Summary, entry: Summary, below: Summary, rest: Summary, stack: Summary)
    ensures Plus(Plus(s, Plus(Plus(entry, below), rest)), stack) == Plus(Plus(Plus(s, entry), rest), Plus(stack, below))
    ensures Plus(Plus(s, Plus(entry, rest)), stack) == Plus(Plus(Plus(s, entry), rest), stack)
  {
  }

  /** How much reading is left; every directory opened makes it less. */
  ghost function Left(rest: seq<Node>, stack: seq<Listing>): nat {
    FoldAll(rest).seen + FoldStack(stack).seen + |stack|
  }

  function Pushed(stack: seq<Listing>, n: Node): seq<Listing> { if n.Dir? then stack + [n.listing] else stack }

  lemma {:induction false} WalkOne(sofar: Summary, rest: seq<Node>, stack: seq<Listing>, all: Summary)
    requires rest != [] && Walking(sofar, rest, stack, all)
    ensures Walking(Plus(sofar, Entry(rest[0])), rest[1..], Pushed(stack, rest[0]), all)
    ensures Left(rest[1..], Pushed(stack, rest[0])) <= Left(rest, stack)
    ensures sofar.seen + 1 <= all.seen && sofar.total <= all.total
  {
    var n, more := rest[0], FoldAll(rest[1..]);
    assert FoldAll(rest) == Plus(Fold(n), more);
    if n.Dir? {
      FoldStackPush(stack, n.listing);
      assert Fold(n) == Plus(Entry(n), FoldListing(n.listing));
      Descend(sofar, Entry(n), FoldListing(n.listing), more, FoldStack(stack));
    } else {
      assert Fold(n) == Entry(n);
      Descend(sofar, Entry(n), NOTHING, more, FoldStack(stack));
    }
  }

  /** Between directories: `sofar` is learned and the stack is still to be read. */
  ghost predicate Between(sofar: Summary, stack: seq<Listing>, all: Summary) { Plus(sofar, FoldStack(stack)) == all }

  ghost function StackLeft(stack: seq<Listing>): nat { FoldStack(stack).seen + |stack| }

  lemma {:induction false} WalkPop(sofar: Summary, stack: seq<Listing>, all: Summary)
    requires stack != [] && Between(sofar, stack, all)
    ensures var listing, below := stack[|stack| - 1], stack[..|stack| - 1];
      if listing.Unlistable? then
        Between(sofar.(unreadable := true), below, all) && StackLeft(below) < StackLeft(stack)
      else
        Walking(sofar, listing.entries, below, all) && Left(listing.entries, below) < StackLeft(stack)
  {
    var listing, below := stack[|stack| - 1], FoldStack(stack[..|stack| - 1]);
    assert FoldStack(stack) == Plus(below, FoldListing(listing));
    PlusLaws(sofar, FoldListing(listing), below);
    PlusLaws(below, FoldListing(listing), below);
  }

  /** A directory read to its end leaves only the stack. */
  lemma {:induction false} DirectoryEnds(sofar: Summary, rest: seq<Node>, stack: seq<Listing>, all: Summary)
    requires rest == [] && Walking(sofar, rest, stack, all)
    ensures Between(sofar, stack, all) && StackLeft(stack) == Left(rest, stack)
  {
    PlusLaws(sofar, sofar, sofar);
  }

  lemma {:induction false} WalkStarts(s: Summary, stack: seq<Listing>, all: Summary)
    requires |stack| == 1 && all == FoldListing(stack[0]) && s == NOTHING
    ensures Between(s, stack, all)
  {
    assert stack[..0] == [];
    assert FoldStack(stack) == Plus(s, all);
    PlusLaws(s, all, s);
    PlusLaws(all, s, s);
  }

  lemma {:induction false} WalkEnds(s: Summary, stack: seq<Listing>, all: Summary)
    requires stack == [] && Between(s, stack, all)
    ensures s == all
  {
    PlusLaws(s, s, s);
  }

  /** What the code makes of a finished walk. */
  function AgeOf(s: Summary, own: Option<int>, now: int): Option<nat> {
    if s.unreadable then None
    else
      var newest := if s.newest.Some? then s.newest else if s.seen == 0 then own else None;
      if newest.None? then None else AgeHours(newest.value, now)
  }

  /** The measurement of a root with the given listing and mtime of its own. A tree past the limit has no
      age, and its size is a lower bound. */
  ghost predicate Measures(listing: Listing, own: Option<int>, now: int, bytes: nat, age: Option<nat>) {
    var all := FoldListing(listing);
    if all.seen > LIMIT then age == None && bytes <= all.total
    else bytes == all.total && age == AgeOf(all, own, now)
  }

  /** One entry, already counted. */
  method Record(counted: Summary, n: Node) returns (s: Summary)
    requires counted.seen >= 1
    ensures s == Plus(counted.(seen := counted.seen - 1), Entry(n))
  {
    s := counted;
    if n.Unstatable? { return s.(unreadable := true); }
    if n.Symlink? { return s; }
    if n.mtime.None? {
      s := s.(unreadable := true);
    } else if s.newest.None? || n.mtime.value > s.newest.value {
      s := s.(newest := n.mtime);
    }
    if !n.Dir? { s := s.(total := s.total + n.bytes); }
  }

  /** One directory of the walk: every entry is counted, and the subdirectories join the stack. The walk is
      cut short when it has counted more than `LIMIT` entries. */
  method WalkDirectory(entries: seq<Node>, start: Summary, below: seq<Listing>, ghost all: Summary)
    returns (s: Summary, stack: seq<Listing>, cut: bool)
    requires Walking(start, entries, below, all) && start.seen <= LIMIT
    ensures cut ==> all.seen > LIMIT && s.total <= all.total
    ensures !cut ==> Between(s, stack, all) && s.seen <= LIMIT
    ensures !cut ==> StackLeft(stack) <= Left(entries, below)
  {
    s, stack, cut := start, below, false;
    var i := 0;
    assert entries[0..] == entries;
    while i < |entries|
      invariant 0 <= i <= |entries|
      invariant Walking(s, entries[i..], stack, all)
      invariant s.seen <= LIMIT
      invariant Left(entries[i..], stack) <= Left(entries, below)
    {
      var n := entries[i];
      WalkOne(s, entries[i..], stack, all);
      assert entries[i..][1..] == entries[i + 1..];
      s := s.(seen := s.seen + 1);
      if s.seen > LIMIT { return s, stack, true; }
      i := i + 1;
      s := Record(s, n);
      if n.Dir? { stack := stack + [n.listing]; }
    }
    DirectoryEnds(s, entries[i..], stack, all);
  }

  /** The worklist loop, from a stack that holds only the root. */
  method Walk(root: Listing, ghost all: Summary) returns (s: Summary, cut: bool)
    requires all == FoldListing(root)
    ensures cut ==> all.seen > LIMIT && s.total <= all.total
    ensures !cut ==> s == all && s.seen <= LIMIT
  {
    var stack := [root];
    s, cut := NOTHING, false;
    WalkStarts(s, stack, all);
    while stack != []
      invariant Between(s, stack, all)
      invariant s.seen <= LIMIT && !cut
      decreases StackLeft(stack)
    {
      var dir := stack[|stack| - 1];
      WalkPop(s, stack, all);
      stack := stack[..|stack| - 1];
      if dir.Unlistable? {
        s := s.(unreadable := true);
        continue;
      }
      s, stack, cut := WalkDirectory(dir.entries, s, stack, all);
      if cut { return; }
    }
    WalkEnds(s, stack, all);
  }

  /** `directory_bytes_and_age` */
  method DirectoryBytesAndAge(listing: Listing, own: Option<int>, now: int) returns (bytes: nat, age: Option<nat>)
    ensures Measures(listing, own, now, bytes, age)
  {
    var s, cut := Walk(listing, FoldListing(listing));
    if cut { return s.total, None; }
    if s.unreadable { return s.total, None; }
    var newest := if s.newest.Some? then s.newest else if s.seen == 0 then own else None;
    return s.total, if newest.None? then None else AgeHours(newest.value, now);
  }

  // ---------------------------------------------------------------- what an age proves

  const HOUR: int := 3600 * SECOND

  /** The time is known and lies at least that many hours back. */
  predicate OldTime(mtime: Option<int>, now: int, hours: nat) { mtime.Some? && mtime.value + hours * HOUR <= now }

  lemma WholeUnits(delta: nat, unit: int, n: nat)
    requires unit > 0
    ensures delta / unit == n <==> n * unit <= delta < (n + 1) * unit
    ensures delta / unit >= n <==> n * unit <= delta
  {
    var q, r := delta / unit, delta % unit;
    assert delta == q * unit + r && 0 <= r < unit;
    if q < n { assert (q + 1) * unit <= n * unit; }
    if q > n { assert (n + 1) * unit <= q * unit; }
  }

  lemma SecondsThenHours(delta: nat)
    ensures delta / SECOND / 3600 == delta / HOUR
  {
    var q, r := delta / HOUR, delta % HOUR;
    var seconds := r / SECOND;
    WholeUnits(r, SECOND, seconds);
    assert delta == (q * 3600 + seconds) * SECOND + r % SECOND;
    WholeUnits(delta, SECOND, q * 3600 + seconds);
    WholeUnits(q * 3600 + seconds, 3600, q);
  }

  /** The age is the number of whole hours between the two times; a time in the future has none. */
  lemma AgeIsWholeHours(modified: int, now: int, hours: nat)
    ensures AgeHours(modified, now) == Some(hours) <==>
            modified <= now && hours * 3600 * SECOND <= now - modified < (hours + 1) * 3600 * SECOND
    ensures AgeHours(modified, now).Some? && AgeHours(modified, now).value >= hours <==> OldTime(Some(modified), now, hours)
  {
    if modified <= now {
      SecondsThenHours(now - modified);
      WholeUnits(now - modified, HOUR, hours);
    }
  }

  /** Everything that is not a link was read and is at least `hours` old. */
  predicate Old(n: Node, now: int, hours: nat) {
    match n
    case File(mtime, _) => OldTime(mtime, now, hours)
    case Symlink => true
    case Unstatable => false
    case Dir(mtime, listing) => OldTime(mtime, now, hours) && OldListing(listing, now, hours)
  }

  predicate OldListing(listing: Listing, now: int, hours: nat) {
    listing.Listed? && forall i :: 0 <= i < |listing.entries| ==> Old(listing.entries[i], now, hours)
  }

  predicate OldSummary(s: Summary, now: int, hours: nat) {
    !s.unreadable && (s.newest.Some? ==> OldTime(s.newest, now, hours))
  }

  lemma LaterIsOlder(a: int, b: int, now: int, hours: nat)
    requires a <= b
    ensures OldTime(Some(b), now, hours) ==> OldTime(Some(a), now, hours)
  {
  }

  lemma PlusIsOldIff(a: Summary, b: Summary, now: int, hours: nat)
    ensures OldSummary(Plus(a, b), now, hours) <==> OldSummary(a, now, hours) && OldSummary(b, now, hours)
  {
    if a.newest.Some? && b.newest.Some? {
      if a.newest.value <= b.newest.value {
        LaterIsOlder(a.newest.value, b.newest.value, now, hours);
      } else {
        LaterIsOlder(b.newest.value, a.newest.value, now, hours);
      }
    }
  }

  lemma {:induction false} FoldIsOldIff(n: Node, now: int, hours: nat)
    ensures OldSummary(Fold(n), now, hours) <==> Old(n, now, hours)
    decreases n
  {
    match n
    case Dir(mtime, listing) =>
      PlusIsOldIff(Entry(n), FoldListing(listing), now, hours);
      if listing.Listed? { FoldAllIsOldIff(listing.entries, now, hours); }
    case _ =>
  }

  lemma {:induction false} FoldAllIsOldIff(nodes: seq<Node>, now: int, hours: nat)
    ensures OldSummary(FoldAll(nodes), now, hours) <==> forall i :: 0 <= i < |nodes| ==> Old(nodes[i], now, hours)
    decreases nodes
  {
    if nodes != [] {
      PlusIsOldIff(Fold(nodes[0]), FoldAll(nodes[1..]), now, hours);
      FoldIsOldIff(nodes[0], now, hours);
      FoldAllIsOldIff(nodes[1..], now, hours);
      assert nodes == [nodes[0]] + nodes[1..];
    }
  }

  /** Something in the tree has a readable time. */
  predicate Dated(listing: Listing) {
    listing.Listed? && exists i :: 0 <= i < |listing.entries| && HasTime(listing.entries[i])
  }

  predicate HasTime(n: Node) {
    match n
    case File(mtime, _) => mtime.Some?
    case Dir(mtime, listing) => mtime.Some? || Dated(listing)
    case _ => false
  }

  lemma {:induction false} FoldIsDatedIff(n: Node)
    ensures Fold(n).newest.Some? <==> HasTime(n)
    decreases n
  {
    if n.Dir? && n.listing.Listed? { FoldAllIsDatedIff(n.listing.entries); }
  }

  lemma {:induction false} FoldAllIsDatedIff(nodes: seq<Node>)
    ensures FoldAll(nodes).newest.Some? <==> exists i :: 0 <= i < |nodes| && HasTime(nodes[i])
    decreases nodes
  {
    if nodes != [] {
      FoldIsDatedIff(nodes[0]);
      FoldAllIsDatedIff(nodes[1..]);
      assert forall i :: 0 < i < |nodes| ==> nodes[i] == nodes[1..][i - 1];
      if i :| 0 <= i < |nodes[1..]| && HasTime(nodes[1..][i]) { assert HasTime(nodes[i + 1]); }
    }
  }

  /** How many entries there are below, links and unreadable ones included. */
  function Count(listing: Listing): nat { if listing.Unlistable? then 0 else CountAll(listing.entries) }

  function CountOf(n: Node): nat {
    match n
    case Dir(_, Listed(entries)) => 1 + CountAll(entries)
    case _ => 1
  }

  function CountAll(nodes: seq<Node>): nat { if nodes == [] then 0 else CountOf(nodes[0]) + CountAll(nodes[1..]) }

  lemma {:induction false} FoldCounts(n: Node)
    ensures Fold(n).seen == CountOf(n)
    decreases n
  {
    if n.Dir? && n.listing.Listed? { FoldAllCounts(n.listing.entries); }
  }

  lemma {:induction false} FoldAllCounts(nodes: seq<Node>)
    ensures FoldAll(nodes).seen == CountAll(nodes)
    decreases nodes
  {
    if nodes != [] {
      FoldCounts(nodes[0]);
      FoldAllCounts(nodes[1..]);
    }
  }

  predicate Empty(listing: Listing) { listing == Listed([]) }

  lemma AgeOfIsOldIff(s: Summary, own: Option<int>, now: int, hours: nat)
    ensures AgeOf(s, own, now).Some? && AgeOf(s, own, now).value >= hours
       <==> OldSummary(s, now, hours) && (if s.newest.None? && s.seen == 0 then OldTime(own, now, hours) else s.newest.Some?)
  {
    var newest := if s.newest.Some? then s.newest else if s.seen == 0 then own else None;
    if newest.Some? { AgeIsWholeHours(newest.value, now, hours); }
  }

  lemma ListingIsOldIff(listing: Listing, now: int, hours: nat)
    ensures OldSummary(FoldListing(listing), now, hours) <==> OldListing(listing, now, hours)
  {
    if listing.Listed? { FoldAllIsOldIff(listing.entries, now, hours); }
  }

  lemma {:induction false} ListingIsDatedIff(listing: Listing)
    ensures FoldListing(listing).newest.Some? <==> Dated(listing)
  {
    if listing.Listed? { FoldAllIsDatedIff(listing.entries); }
  }

  lemma {:induction false} ListingCounts(listing: Listing)
    ensures FoldListing(listing).seen == Count(listing)
    ensures listing.Listed? ==> (Empty(listing) <==> Count(listing) == 0)
  {
    if listing.Listed? {
      FoldAllCounts(listing.entries);
      if listing.entries != [] { assert CountOf(listing.entries[0]) >= 1; }
    }
  }

  /** An age of at least `hours` proves the tree was read to the end and that nothing in it is younger; an empty
      tree stands on its own time. Without one of those, there is no such age. */
  lemma AgeProvesOldContent(listing: Listing, own: Option<int>, now: int, bytes: nat, age: Option<nat>, hours: nat)
    requires Measures(listing, own, now, bytes, age)
    ensures age.Some? && age.value >= hours
       <==> && Count(listing) <= LIMIT
            && OldListing(listing, now, hours)
            && (if Empty(listing) then OldTime(own, now, hours) else Dated(listing))
  {
    ListingIsOldIff(listing, now, hours);
    ListingIsDatedIff(listing);
    ListingCounts(listing);
    AgeOfIsOldIff(FoldListing(listing), own, now, hours);
  }

  /** The size is the sum over every file that could be read, up to the limit. */
  function Bytes(n: Node): nat {
    match n
    case File(_, bytes) => bytes
    case Dir(_, Listed(entries)) => BytesAll(entries)
    case _ => 0
  }

  function BytesAll(nodes: seq<Node>): nat { if nodes == [] then 0 else Bytes(nodes[0]) + BytesAll(nodes[1..]) }

  lemma {:induction false} FoldTotalsBytes(n: Node)
    ensures Fold(n).total == Bytes(n)
    decreases n
  {
    if n.Dir? && n.listing.Listed? { FoldAllTotalsBytes(n.listing.entries); }
  }

  lemma {:induction false} FoldAllTotalsBytes(nodes: seq<Node>)
    ensures FoldAll(nodes).total == BytesAll(nodes)
    decreases nodes
  {
    if nodes != [] {
      FoldTotalsBytes(nodes[0]);
      FoldAllTotalsBytes(nodes[1..]);
    }
  }

  // ---------------------------------------------------------------- many trees at once

  datatype Root = Root(path: Path, mtime: Option<int>, listing: Listing)

  ghost predicate Measured(root: Root, now: int, slot: (nat, Option<nat>)) {
    Measures(root.listing, root.mtime, now, slot.0, slot.1)
  }

  /** One worker: it writes its own chunk `[lo, hi)` of the slots and nothing else. */
  method MeasureChunk(roots: seq<Root>, now: int, out: array<(nat, Option<nat>)>, lo: nat, hi: nat)
    requires lo <= hi <= |roots| == out.Length
    modifies out
    ensures forall k :: lo <= k < hi ==> Measured(roots[k], now, out[k])
    ensures forall k :: 0 <= k < out.Length && !(lo <= k < hi) ==> out[k] == old(out[k])
  {
    var i := lo;
    while i < hi
      invariant lo <= i <= hi
      invariant forall k :: lo <= k < i ==> Measured(roots[k], now, out[k])
      invariant forall k :: 0 <= k < out.Length && !(lo <= k < i) ==> out[k] == old(out[k])
    {
      var bytes, age := DirectoryBytesAndAge(roots[i].listing, roots[i].mtime, now);
      out[i] := (bytes, age);
      i := i + 1;
    }
  }

  /** `directory_bytes_and_age_parallel`: the chunks are disjoint and cover every slot, so each root gets its own
      measurement whatever the number of workers. */
  method DirectoryBytesAndAgeParallel(roots: seq<Root>, workers: nat, now: int) returns (out: array<(nat, Option<nat>)>)
    requires 1 <= workers <= 8
    ensures fresh(out) && out.Length == |roots|
    ensures forall k :: 0 <= k < |roots| ==> Measured(roots[k], now, out[k])
  {
    out := new (nat, Option<nat>)[|roots|](_ => (0, None));
    if roots == [] { return; }
    var chunk := (|roots| + workers - 1) / workers;
    if chunk < 1 { chunk := 1; }
    var at := 0;
    while at < out.Length
      invariant 0 <= at <= out.Length
      invariant forall k :: 0 <= k < at ==> Measured(roots[k], now, out[k])
    {
      var take := if chunk <= out.Length - at then chunk else out.Length - at;
      MeasureChunk(roots, now, out, at, at + take);
      at := at + take;
    }
  }
}
