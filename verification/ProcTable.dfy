/** The processes of one pass and the breadth-first walk below a root (`ProcTable::descendants` of src/reap.rs). */
module ProcTable {
  import opened Wrappers

  /** What a browser's command line says of it, and whether anything drives its debugging port. */
  datatype Verdict = Test | Desktop | NotABrowser

  datatype Usage = Driven | Undriven | Unknown

  datatype Process = Process(
    pid: int,
    orphaned: bool,      // its parent is init or systemd
    hasTerminal: bool,
    sleeping: bool,
    age: nat,
    cpuSeconds: nat,
    exe: string,
    browserish: bool,    // its command line contains "chrom"
    verdict: Verdict,
    handler: Option<int>, // the crashpad handler its command line names
    rss: nat,
    swap: nat)

  datatype Table = Table(entries: map<int, Process>, children: map<int, seq<int>>)

  predicate Valid(t: Table) { forall pid :: pid in t.entries ==> t.entries[pid].pid == pid }

  function ChildrenOf(t: Table, pid: int): seq<int> { if pid in t.children then t.children[pid] else [] }

  /** A chain of parents and children. */
  predicate Chain(t: Table, path: seq<int>) {
    path != [] && forall i :: 0 <= i < |path| - 1 ==> path[i + 1] in ChildrenOf(t, path[i])
  }

  ghost predicate Below(t: Table, root: int, pid: int) {
    pid != root && exists path :: Chain(t, path) && path[0] == root && path[|path| - 1] == pid
  }

  /** A chain of that many links leads from the root to the process. */
  ghost predicate AtDepth(t: Table, root: int, pid: int, depth: nat) {
    exists path :: Chain(t, path) && |path| == depth + 1 && path[0] == root && path[|path| - 1] == pid
  }

  datatype At = At(pid: int, depth: nat)

  predicate DistinctPids(s: seq<At>) { forall i, j :: 0 <= i < j < |s| ==> s[i].pid != s[j].pid }

  function Pids(s: seq<At>): set<int> { set a | a in s :: a.pid }

  /** Every entry hangs from the root or from an earlier entry, one level down. */
  ghost predicate Hangs(t: Table, root: int, s: seq<At>, a: At) {
    || (a.depth == 1 && a.pid in ChildrenOf(t, root))
    || (exists p :: p in s && a.depth == p.depth + 1 && a.pid in ChildrenOf(t, p.pid))
  }

  ghost predicate AllHang(t: Table, root: int, s: seq<At>) {
    forall i :: 0 <= i < |s| ==> Hangs(t, root, s[..i], s[i])
  }

  ghost predicate AllPids(t: Table, universe: set<int>) {
    forall p, c :: p in t.children && c in t.children[p] ==> c in universe
  }

  function Universe(t: Table): (u: set<int>)
    ensures AllPids(t, u)
  {
    set p, c | p in t.children && c in t.children[p] :: c
  }

  /** The state of the walk: what is out, what is queued, and that whatever is out of the queue is expanded. */
  ghost predicate Walking(t: Table, root: int, out: seq<At>, seen: set<int>, queue: seq<At>) {
    && Listed(t, root, out, seen)
    && (forall a :: a in queue ==> a in out || a == At(root, 0))
    && (forall p, c :: p in seen && p !in Pids(queue) && c in ChildrenOf(t, p) ==> c in seen)
  }

  lemma {:induction false} AddHangs(t: Table, root: int, out: seq<At>, from: At, a: At)
    requires AllHang(t, root, out)
    requires from in out || from == At(root, 0)
    requires a.depth == from.depth + 1 && a.pid in ChildrenOf(t, from.pid)
    ensures AllHang(t, root, out + [a])
  {
    var all := out + [a];
    assert Hangs(t, root, out, a);
    forall i | 0 <= i < |all| ensures Hangs(t, root, all[..i], all[i]) {
      if i < |out| {
        assert all[..i] == out[..i] && all[i] == out[i];
        assert Hangs(t, root, out[..i], out[i]);
      } else {
        assert all[..i] == out && all[i] == a;
      }
    }
  }

  lemma {:induction false} AddPid(out: seq<At>, a: At)
    ensures Pids(out + [a]) == Pids(out) + {a.pid}
  {
    var all := out + [a];
    forall p ensures p in Pids(all) <==> p in Pids(out) + {a.pid} {
      if p in Pids(out) {
        var b :| b in out && b.pid == p;
        assert b in all;
      }
      assert a in all;
    }
  }

  lemma {:induction false} AddDistinct(out: seq<At>, a: At)
    requires DistinctPids(out) && a.pid !in Pids(out)
    ensures DistinctPids(out + [a])
  {
    var all := out + [a];
    forall i, j | 0 <= i < j < |all| ensures all[i].pid != all[j].pid {
      if j == |out| { assert out[i] in out; }
    }
  }

  /** The list of those seen, without the queue. */
  ghost predicate Listed(t: Table, root: int, out: seq<At>, seen: set<int>) {
    seen == Pids(out) + {root} && root !in Pids(out) && DistinctPids(out) && AllHang(t, root, out)
  }

  /** While `from` is expanded: those new since are all queued. */
  ghost predicate Growing(t: Table, seenBefore: set<int>, queueBefore: seq<At>, seen: set<int>, queue: seq<At>) {
    && seenBefore <= seen <= seenBefore + Universe(t)
    && (seen == seenBefore ==> queue == queueBefore)
    && Pids(queueBefore) <= Pids(queue)
    && (forall p :: p in seen && p !in seenBefore ==> p in Pids(queue))
  }

  lemma {:induction false} ListOne(t: Table, root: int, out: seq<At>, seen: set<int>, from: At, a: At)
    requires Listed(t, root, out, seen) && a.pid !in seen
    requires from in out || from == At(root, 0)
    requires a.depth == from.depth + 1 && a.pid in ChildrenOf(t, from.pid)
    ensures Listed(t, root, out + [a], seen + {a.pid})
  {
    AddHangs(t, root, out, from, a);
    AddPid(out, a);
    AddDistinct(out, a);
  }

  lemma {:induction false} GrowOne(t: Table, seenBefore: set<int>, queueBefore: seq<At>, seen: set<int>, queue: seq<At>, a: At,
                                   parent: int)
    requires Growing(t, seenBefore, queueBefore, seen, queue) && a.pid !in seen
    requires a.pid in ChildrenOf(t, parent)
    ensures Growing(t, seenBefore, queueBefore, seen + {a.pid}, queue + [a])
  {
    AddPid(queue, a);
    assert a.pid in seen + {a.pid} && a.pid !in seenBefore;
  }

  /** Everything queued is out already, or is the root. */
  ghost predicate QueueIsOut(root: int, out: seq<At>, queue: seq<At>) {
    forall a :: a in queue ==> a in out || a == At(root, 0)
  }

  lemma QueueOne(root: int, out: seq<At>, queue: seq<At>, a: At)
    requires QueueIsOut(root, out, queue)
    ensures QueueIsOut(root, out + [a], queue + [a])
  {
  }

  /** The state while `from`, already out, is expanded. */
  ghost predicate Expanding(t: Table, root: int, from: At, out: seq<At>, seen: set<int>, queue: seq<At>,
                            seenBefore: set<int>, queueBefore: seq<At>) {
    && Listed(t, root, out, seen)
    && Growing(t, seenBefore, queueBefore, seen, queue)
    && QueueIsOut(root, out, queue)
    && (from in out || from == At(root, 0))
  }

  lemma ExpansionStarts(t: Table, root: int, from: At, out: seq<At>, seen: set<int>, queue: seq<At>)
    requires Walking(t, root, out, seen, [from] + queue)
    ensures Expanding(t, root, from, out, seen, queue, seen, queue)
  {
    assert from in [from] + queue && forall a :: a in queue ==> a in [from] + queue;
  }

  lemma ExpandOne(t: Table, root: int, from: At, out: seq<At>, seen: set<int>, queue: seq<At>, seenBefore: set<int>,
                  queueBefore: seq<At>, child: int)
    requires Expanding(t, root, from, out, seen, queue, seenBefore, queueBefore)
    requires child in ChildrenOf(t, from.pid) && child !in seen
    ensures var a := At(child, from.depth + 1);
      Expanding(t, root, from, out + [a], seen + {child}, queue + [a], seenBefore, queueBefore)
  {
    var a := At(child, from.depth + 1);
    ListOne(t, root, out, seen, from, a);
    GrowOne(t, seenBefore, queueBefore, seen, queue, a, from.pid);
    QueueOne(root, out, queue, a);
  }

  ghost predicate AllIn(kids: seq<int>, n: nat, seen: set<int>) { n <= |kids| && forall k :: 0 <= k < n ==> kids[k] in seen }

  lemma ExpansionEnds(t: Table, root: int, from: At, seenBefore: set<int>, queueBefore: seq<At>, before: seq<At>,
                      out: seq<At>, seen: set<int>, queue: seq<At>)
    requires Walking(t, root, before, seenBefore, [from] + queueBefore)
    requires Expanding(t, root, from, out, seen, queue, seenBefore, queueBefore)
    requires AllIn(ChildrenOf(t, from.pid), |ChildrenOf(t, from.pid)|, seen)
    ensures Walking(t, root, out, seen, queue)
  {
    Settled(t, from, seenBefore, seen, queueBefore, queue);
  }

  // ---------------------------------------------------------------- breadth first

  /** The processes in the order in which they were met, the root first. */
  function Met(root: int, out: seq<At>): seq<At> { [At(root, 0)] + out }

  predicate Rising(s: seq<At>) { forall i, j :: 0 <= i <= j < |s| ==> s[i].depth <= s[j].depth }

  ghost predicate Within(s: seq<At>, pid: int, depth: nat) { exists a :: a in s && a.pid == pid && a.depth <= depth }

  /** The children of the first `n` processes are at most one level deeper than those. */
  ghost predicate ChildrenNear(t: Table, s: seq<At>, n: nat) {
    n <= |s| && forall i, c :: 0 <= i < n && c in ChildrenOf(t, s[i].pid) ==> Within(s, c, s[i].depth + 1)
  }

  /** The queue is the end of what was met; it spans at most one level more than its front. */
  ghost predicate BreadthFirst(t: Table, root: int, out: seq<At>, queue: seq<At>) {
    var met := Met(root, out);
    && |queue| <= |met| && queue == met[|met| - |queue|..]
    && Rising(met)
    && ChildrenNear(t, met, |met| - |queue|)
    && (queue != [] ==> met[|met| - 1].depth <= queue[0].depth + 1)
  }

  lemma WithinMore(s: seq<At>, a: At, pid: int, depth: nat)
    requires Within(s, pid, depth)
    ensures Within(s + [a], pid, depth)
  {
    var b :| b in s && b.pid == pid && b.depth <= depth;
    assert b in s + [a];
  }

  /** A child of the front of the queue is met: it goes to the end. */
  lemma {:induction false} BreadthOne(t: Table, root: int, out: seq<At>, queue: seq<At>, from: At, child: int)
    requires BreadthFirst(t, root, out, [from] + queue)
    ensures var a := At(child, from.depth + 1); BreadthFirst(t, root, out + [a], [from] + (queue + [a]))
  {
    var a := At(child, from.depth + 1);
    var met, more, n := Met(root, out), Met(root, out + [a]), |Met(root, out)| - |[from] + queue|;
    assert more == met + [a];
    assert [from] + (queue + [a]) == ([from] + queue) + [a] == more[n..];
    assert ([from] + queue)[0] == from == met[n];
    forall i, c | 0 <= i < n && c in ChildrenOf(t, more[i].pid) ensures Within(more, c, more[i].depth + 1) {
      assert more[i] == met[i];
      WithinMore(met, a, c, met[i].depth + 1);
    }
  }

  /** When all children of the front are met, the front is done. */
  lemma {:induction false} BreadthPop(t: Table, root: int, out: seq<At>, seen: set<int>, queue: seq<At>, from: At)
    requires BreadthFirst(t, root, out, [from] + queue) && seen == Pids(out) + {root}
    requires AllIn(ChildrenOf(t, from.pid), |ChildrenOf(t, from.pid)|, seen)
    ensures BreadthFirst(t, root, out, queue)
  {
    var met, n := Met(root, out), |Met(root, out)| - |[from] + queue|;
    assert met[n..][0] == from && met[n..][1..] == met[n + 1..] && ([from] + queue)[1..] == queue;
    forall c | c in ChildrenOf(t, from.pid) ensures Within(met, c, from.depth + 1) {
      var k :| 0 <= k < |ChildrenOf(t, from.pid)| && ChildrenOf(t, from.pid)[k] == c;
      assert c in seen;
      MetWithin(root, out, c, from.depth + 1);
    }
    if queue != [] { assert queue[0] == met[n + 1]; }
  }

  lemma MetWithin(root: int, out: seq<At>, pid: int, depth: nat)
    requires pid in Pids(out) + {root} && Rising(Met(root, out)) && Met(root, out)[|out|].depth <= depth
    ensures Within(Met(root, out), pid, depth)
  {
    var met := Met(root, out);
    if pid == root {
      assert met[0] in met;
    } else {
      var a :| a in out && a.pid == pid;
      var i :| 0 <= i < |out| && out[i] == a;
      assert met[i + 1] == a && a in met;
    }
  }

  /** No chain from the root to the process is shorter. */
  ghost predicate Shortest(t: Table, root: int, a: At) {
    forall path :: Chain(t, path) && path[0] == root && path[|path| - 1] == a.pid ==> a.depth < |path|
  }

  /** At the end of the walk every chain leads to somebody met at no greater depth. */
  lemma {:induction false} ChainsAreMet(t: Table, root: int, out: seq<At>, path: seq<int>)
    requires BreadthFirst(t, root, out, []) && Chain(t, path) && path[0] == root
    ensures Within(Met(root, out), path[|path| - 1], |path| - 1)
    decreases |path|
  {
    var met := Met(root, out);
    if |path| == 1 {
      assert met[0] in met;
    } else {
      var up := path[..|path| - 1];
      forall i | 0 <= i < |up| - 1 ensures up[i + 1] in ChildrenOf(t, up[i]) { assert path[i + 1] in ChildrenOf(t, path[i]); }
      ChainsAreMet(t, root, out, up);
      var a :| a in met && a.pid == up[|up| - 1] && a.depth <= |up| - 1;
      var i :| 0 <= i < |met| && met[i] == a;
      assert path[|up| - 1 + 1] in ChildrenOf(t, path[|up| - 1]);
      assert Within(met, path[|path| - 1], met[i].depth + 1);
    }
  }

  lemma BreadthEnds(t: Table, root: int, out: seq<At>)
    requires BreadthFirst(t, root, out, []) && DistinctPids(out) && root !in Pids(out)
    ensures Rising(out) && forall a :: a in out ==> Shortest(t, root, a)
  {
    var met := Met(root, out);
    forall i, j | 0 <= i <= j < |out| ensures out[i].depth <= out[j].depth { assert met[i + 1].depth <= met[j + 1].depth; }
    forall a, path | a in out && Chain(t, path) && path[0] == root && path[|path| - 1] == a.pid ensures a.depth < |path| {
      ChainsAreMet(t, root, out, path);
      var b :| b in met && b.pid == a.pid && b.depth <= |path| - 1;
      assert b in out;
    }
  }

  /** While the front of the queue is expanded. */
  ghost predicate Meeting(t: Table, root: int, from: At, out: seq<At>, seen: set<int>, queue: seq<At>, seenBefore: set<int>,
                          queueBefore: seq<At>) {
    Expanding(t, root, from, out, seen, queue, seenBefore, queueBefore) && BreadthFirst(t, root, out, [from] + queue)
  }

  lemma MeetOne(t: Table, root: int, from: At, out: seq<At>, seen: set<int>, queue: seq<At>, seenBefore: set<int>,
                queueBefore: seq<At>, kids: seq<int>, i: nat)
    requires Meeting(t, root, from, out, seen, queue, seenBefore, queueBefore)
    requires kids == ChildrenOf(t, from.pid) && i < |kids| && AllIn(kids, i, seen)
    ensures kids[i] in seen ==> AllIn(kids, i + 1, seen)
    ensures kids[i] !in seen ==>
              var a := At(kids[i], from.depth + 1);
              && Meeting(t, root, from, out + [a], seen + {kids[i]}, queue + [a], seenBefore, queueBefore)
              && AllIn(kids, i + 1, seen + {kids[i]})
  {
    if kids[i] !in seen {
      ExpandOne(t, root, from, out, seen, queue, seenBefore, queueBefore, kids[i]);
      BreadthOne(t, root, out, queue, from, kids[i]);
    }
  }

  /** The loop over the children of one process: those unseen are put out and queued. */
  method PutOutChildren(t: Table, root: int, from: At, before: seq<At>, seenBefore: set<int>, queueBefore: seq<At>)
    returns (out: seq<At>, seen: set<int>, queue: seq<At>)
    requires Meeting(t, root, from, before, seenBefore, queueBefore, seenBefore, queueBefore)
    ensures Meeting(t, root, from, out, seen, queue, seenBefore, queueBefore)
    ensures AllIn(ChildrenOf(t, from.pid), |ChildrenOf(t, from.pid)|, seen)
  {
    out, seen, queue := before, seenBefore, queueBefore;
    var kids, i := ChildrenOf(t, from.pid), 0;
    while i < |kids|
      invariant Meeting(t, root, from, out, seen, queue, seenBefore, queueBefore)
      invariant AllIn(kids, i, seen)
    {
      MeetOne(t, root, from, out, seen, queue, seenBefore, queueBefore, kids, i);
      var child := kids[i];
      i := i + 1;
      if child in seen { continue; }
      var a := At(child, from.depth + 1);
      out, queue, seen := out + [a], queue + [a], seen + {child};
    }
  }

  /** Where the walk stands. */
  ghost predicate Turning(t: Table, root: int, out: seq<At>, seen: set<int>, queue: seq<At>) {
    Walking(t, root, out, seen, queue) && BreadthFirst(t, root, out, queue)
  }

  /** The front leaves the queue. */
  method Expand(t: Table, root: int, before: seq<At>, seenBefore: set<int>, waiting: seq<At>)
    returns (out: seq<At>, seen: set<int>, queue: seq<At>)
    requires waiting != [] && Turning(t, root, before, seenBefore, waiting)
    ensures Turning(t, root, out, seen, queue)
    ensures seenBefore <= seen && seen <= seenBefore + Universe(t)
    ensures seen == seenBefore ==> |queue| < |waiting|
  {
    var from, rest := waiting[0], waiting[1..];
    TurnStarts(t, root, from, before, seenBefore, rest, waiting);
    out, seen, queue := PutOutChildren(t, root, from, before, seenBefore, rest);
    TurnEnds(t, root, from, seenBefore, rest, before, out, seen, queue);
  }

  lemma TurnStarts(t: Table, root: int, from: At, out: seq<At>, seen: set<int>, rest: seq<At>, waiting: seq<At>)
    requires Turning(t, root, out, seen, waiting) && waiting != [] && from == waiting[0] && rest == waiting[1..]
    ensures Walking(t, root, out, seen, [from] + rest) && Meeting(t, root, from, out, seen, rest, seen, rest)
  {
    assert waiting == [from] + rest;
    ExpansionStarts(t, root, from, out, seen, rest);
  }

  lemma TurnEnds(t: Table, root: int, from: At, seenBefore: set<int>, queueBefore: seq<At>, before: seq<At>, out: seq<At>,
                 seen: set<int>, queue: seq<At>)
    requires Walking(t, root, before, seenBefore, [from] + queueBefore)
    requires Meeting(t, root, from, out, seen, queue, seenBefore, queueBefore)
    requires AllIn(ChildrenOf(t, from.pid), |ChildrenOf(t, from.pid)|, seen)
    ensures Turning(t, root, out, seen, queue)
    ensures seenBefore <= seen && seen <= seenBefore + Universe(t)
    ensures seen == seenBefore ==> queue == queueBefore
  {
    ExpansionEnds(t, root, from, seenBefore, queueBefore, before, out, seen, queue);
    BreadthPop(t, root, out, seen, queue, from);
  }

  lemma Settled(t: Table, from: At, seenBefore: set<int>, seen: set<int>, queueBefore: seq<At>, queue: seq<At>)
    requires forall p, c :: p in seenBefore && p !in Pids([from] + queueBefore) && c in ChildrenOf(t, p) ==> c in seenBefore
    requires seenBefore <= seen && Pids(queueBefore) <= Pids(queue)
    requires forall p :: p in seen && p !in seenBefore ==> p in Pids(queue)
    requires forall c :: c in ChildrenOf(t, from.pid) ==> c in seen
    ensures forall p, c :: p in seen && p !in Pids(queue) && c in ChildrenOf(t, p) ==> c in seen
  {
    forall p, c | p in seen && p !in Pids(queue) && c in ChildrenOf(t, p) ensures c in seen {
      if p != from.pid {
        assert p in seenBefore && p !in Pids(queueBefore);
        assert p !in Pids([from] + queueBefore);
      }
    }
  }

  /** A set that holds the root and the children of its members holds everything below the root. */
  lemma {:induction false} ClosedHoldsChains(t: Table, s: set<int>, path: seq<int>)
    requires forall p, c :: p in s && c in ChildrenOf(t, p) ==> c in s
    requires Chain(t, path) && path[0] in s
    ensures path[|path| - 1] in s
    decreases |path|
  {
    if |path| > 1 {
      assert path[0 + 1] in ChildrenOf(t, path[0]);
      var rest := path[1..];
      forall i | 0 <= i < |rest| - 1 ensures rest[i + 1] in ChildrenOf(t, rest[i]) {
        assert path[i + 1 + 1] in ChildrenOf(t, path[i + 1]);
      }
      ClosedHoldsChains(t, s, rest);
    }
  }

  lemma {:induction false} ChainSnoc(t: Table, up: seq<int>, pid: int)
    requires Chain(t, up) && pid in ChildrenOf(t, up[|up| - 1])
    ensures Chain(t, up + [pid])
  {
    var path := up + [pid];
    forall i | 0 <= i < |path| - 1 ensures path[i + 1] in ChildrenOf(t, path[i]) {
      if i < |up| - 1 { assert up[i + 1] in ChildrenOf(t, up[i]); }
    }
  }

  lemma {:induction false} HangingIsBelow(t: Table, root: int, out: seq<At>, i: nat) returns (path: seq<int>)
    requires AllHang(t, root, out) && i < |out|
    ensures Chain(t, path) && |path| == out[i].depth + 1 && path[0] == root && path[|path| - 1] == out[i].pid
    decreases i
  {
    assert Hangs(t, root, out[..i], out[i]);
    if out[i].depth == 1 && out[i].pid in ChildrenOf(t, root) {
      ChainSnoc(t, [root], out[i].pid);
      path := [root] + [out[i].pid];
    } else {
      var p :| p in out[..i] && out[i].depth == p.depth + 1 && out[i].pid in ChildrenOf(t, p.pid);
      var j :| 0 <= j < i && out[j] == p;
      var up := HangingIsBelow(t, root, out, j);
      ChainSnoc(t, up, out[i].pid);
      path := up + [out[i].pid];
    }
  }

  lemma WalkStarts(t: Table, root: int)
    ensures Turning(t, root, [], {root}, [At(root, 0)])
  {
    var queue := [At(root, 0)];
    assert Pids(queue) == {root} by { assert queue[0] in queue; }
  }

  lemma WalkEnds(t: Table, root: int, out: seq<At>, seen: set<int>, queue: seq<At>)
    requires Turning(t, root, out, seen, queue) && queue == []
    ensures DistinctPids(out) && AllHang(t, root, out)
    ensures forall pid :: pid in Pids(out) <==> Below(t, root, pid)
    ensures forall a :: a in out ==> AtDepth(t, root, a.pid, a.depth) && Shortest(t, root, a)
    ensures Rising(out)
  {
    BreadthEnds(t, root, out);
    OutIsBelow(t, root, out, seen);
    DepthsHold(t, root, out);
  }

  /** `ProcTable::descendants`: each process below the root exactly once, children after their parents and one
      level deeper, in order of depth, each at the length of a shortest chain, however the table is linked. */
  method Descendants(t: Table, root: int) returns (out: seq<At>)
    ensures DistinctPids(out) && AllHang(t, root, out)
    ensures forall pid :: pid in Pids(out) <==> Below(t, root, pid)
    ensures Rising(out) && forall a :: a in out ==> AtDepth(t, root, a.pid, a.depth) && Shortest(t, root, a)
  {
    out := [];
    var seen, queue := {root}, [At(root, 0)];
    WalkStarts(t, root);
    while queue != []
      invariant Turning(t, root, out, seen, queue)
      invariant seen <= Universe(t) + {root}
      decreases Universe(t) + {root} - seen, |queue|
    {
      ghost var seenBefore := seen;
      out, seen, queue := Expand(t, root, out, seen, queue);
      LessLeft(Universe(t) + {root}, seenBefore, seen);
    }
    WalkEnds(t, root, out, seen, queue);
  }

  lemma LessLeft(universe: set<int>, before: set<int>, after: set<int>)
    requires before <= after <= universe
    ensures before == after || universe - after < universe - before
  {
    if universe - before <= universe - after {
      assert after <= before by {
        forall x | x in after ensures x in before { assert x in universe && x !in universe - after; }
      }
    }
  }

  lemma DepthsHold(t: Table, root: int, out: seq<At>)
    requires AllHang(t, root, out)
    ensures forall a :: a in out ==> AtDepth(t, root, a.pid, a.depth)
  {
    forall a | a in out ensures AtDepth(t, root, a.pid, a.depth) {
      var i :| 0 <= i < |out| && out[i] == a;
      var path := HangingIsBelow(t, root, out, i);
    }
  }

  lemma OutIsBelow(t: Table, root: int, out: seq<At>, seen: set<int>)
    requires Walking(t, root, out, seen, [])
    ensures forall pid :: pid in Pids(out) <==> Below(t, root, pid)
  {
    forall pid ensures pid in Pids(out) <==> Below(t, root, pid) {
      if pid in Pids(out) {
        var a :| a in out && a.pid == pid;
        var i :| 0 <= i < |out| && out[i] == a;
        var path := HangingIsBelow(t, root, out, i);
      }
      if Below(t, root, pid) {
        var path :| Chain(t, path) && path[0] == root && path[|path| - 1] == pid;
        ClosedHoldsChains(t, seen, path);
      }
    }
  }
}
