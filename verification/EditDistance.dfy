/** `edit_distance` of src/policy.rs: the two-row loop, the minimum it computes, and its metric laws. */
module EditDistance {
  function Min(a: nat, b: nat): nat { if a <= b then a else b }

  function Init(s: string): string
    requires s != []
  {
    s[..|s| - 1]
  }

  function Last(s: string): char
    requires s != []
  {
    s[|s| - 1]
  }

  function Cost(x: char, y: char): nat { if x == y then 0 else 1 }

  /** The recurrence behind the rows. */
  function Distance(a: string, b: string): nat
    decreases |a| + |b|
  {
    if a == [] then |b|
    else if b == [] then |a|
    else
      Min(Min(Distance(Init(a), b) + 1, Distance(a, Init(b)) + 1), Distance(Init(a), Init(b)) + Cost(Last(a), Last(b)))
  }

  // ---------------------------------------------------------------- the loop

  /** One cell of a row from its three neighbours. */
  lemma {:induction false} CellOfRow(p: string, q: string, above: nat, left: nat, diagonal: nat)
    requires p != [] && q != []
    requires above == Distance(Init(p), q) && left == Distance(p, Init(q)) && diagonal == Distance(Init(p), Init(q))
    ensures Distance(p, q) == Min(Min(above + 1, left + 1), diagonal + Cost(Last(p), Last(q)))
  {
  }

  ghost predicate IsRow(row: seq<nat>, a: string, b: string, upTo: nat) {
    upTo <= |row| == |b| + 1 && forall j :: 0 <= j < upTo ==> row[j] == Distance(a, b[..j])
  }

  lemma {:induction false} RowGrows(prev: seq<nat>, cur: seq<nat>, a: string, b: string, i: nat, j: nat)
    requires 1 <= i <= |a| && 1 <= j <= |b| && IsRow(prev, a[..i - 1], b, |b| + 1) && IsRow(cur, a[..i], b, j)
    ensures Distance(a[..i], b[..j])
         == Min(Min(prev[j] + 1, cur[j - 1] + 1), prev[j - 1] + Cost(a[i - 1], b[j - 1]))
  {
    var p, q := a[..i], b[..j];
    assert Init(p) == a[..i - 1] && Init(q) == b[..j - 1];
    CellOfRow(p, q, prev[j], cur[j - 1], prev[j - 1]);
  }

  method EditDistance(a: string, b: string) returns (d: nat)
    ensures d == Distance(a, b)
  {
    var prev := new nat[|b| + 1](j => j);
    var cur := new nat[|b| + 1](j => 0);
    for i := 1 to |a| + 1
      invariant prev.Length == cur.Length == |b| + 1 && prev != cur && fresh(prev) && fresh(cur)
      invariant IsRow(prev[..], a[..i - 1], b, |b| + 1)
    {
      cur[0] := i;
      for j := 1 to |b| + 1
        invariant IsRow(prev[..], a[..i - 1], b, |b| + 1) && IsRow(cur[..], a[..i], b, j)
      {
        var cost := if a[i - 1] != b[j - 1] then 1 else 0;
        RowGrows(prev[..], cur[..], a, b, i, j);
        cur[j] := Min(Min(prev[j] + 1, cur[j - 1] + 1), prev[j - 1] + cost);
      }
      prev, cur := cur, prev;
    }
    assert a[..|a|] == a && b[..|b|] == b;
    d := prev[|b|];
  }

  // ---------------------------------------------------------------- metric laws

  lemma {:induction false} Symmetric(a: string, b: string)
    ensures Distance(a, b) == Distance(b, a)
    decreases |a| + |b|
  {
    if a != [] && b != [] {
      Symmetric(Init(a), b);
      Symmetric(a, Init(b));
      Symmetric(Init(a), Init(b));
    }
  }

  lemma {:induction false} ZeroIffEqual(a: string, b: string)
    ensures Distance(a, b) == 0 <==> a == b
    decreases |a| + |b|
  {
    if a != [] && b != [] {
      ZeroIffEqual(Init(a), Init(b));
      assert a == Init(a) + [Last(a)] && b == Init(b) + [Last(b)];
    }
  }

  /** The distance lies between the difference and the sum of the lengths. */
  lemma {:induction false} LengthBounds(a: string, b: string)
    ensures |a| <= |b| + Distance(a, b) && |b| <= |a| + Distance(a, b) && Distance(a, b) <= |a| + |b|
    decreases |a| + |b|
  {
    if a != [] && b != [] {
      LengthBounds(Init(a), b);
      LengthBounds(a, Init(b));
      LengthBounds(Init(a), Init(b));
    }
  }

  /** The last cell of a table from its neighbours: above, left and diagonal. */
  function Best(above: nat, left: nat, diagonal: nat, cost: nat): nat { Min(Min(above + 1, left + 1), diagonal + cost) }

  /** The arithmetic of the triangle: `xy` is the distance of x and y, a `1` marks a word without its last character. */
  lemma TriangleStep(ab: nat, a1b: nat, ab1: nat, a1b1: nat, costAb: nat, bc: nat, b1c: nat, bc1: nat, b1c1: nat,
                     costBc: nat, ac: nat, a1c: nat, ac1: nat, a1c1: nat, costAc: nat)
    requires ab == Best(a1b, ab1, a1b1, costAb) && bc == Best(b1c, bc1, b1c1, costBc) && ac == Best(a1c, ac1, a1c1, costAc)
    requires costAc <= costAb + costBc && costAb <= 1 && costBc <= 1
    requires a1c <= a1b + bc && ac1 <= ab + bc1 && ac <= ab1 + b1c
    requires a1c <= a1b1 + b1c && ac1 <= ab1 + b1c1 && a1c1 <= a1b1 + b1c1
    ensures ac <= ab + bc
  {
  }

  lemma {:induction false} Unfolded(a: string, b: string)
    requires a != [] && b != []
    ensures Distance(a, b)
         == Best(Distance(Init(a), b), Distance(a, Init(b)), Distance(Init(a), Init(b)), Cost(Last(a), Last(b)))
  {
  }

  lemma {:induction false} Triangle(a: string, b: string, c: string)
    ensures Distance(a, c) <= Distance(a, b) + Distance(b, c)
    decreases |a| + |b| + |c|
  {
    if a == [] || b == [] || c == [] {
      LengthBounds(a, b);
      LengthBounds(b, c);
      LengthBounds(a, c);
    } else {
      TriangleInside(a, b, c);
    }
  }

  lemma {:induction false} TriangleInside(a: string, b: string, c: string)
    requires a != [] && b != [] && c != []
    ensures Distance(a, c) <= Distance(a, b) + Distance(b, c)
    decreases |a| + |b| + |c|, 0
  {
    var a1, b1, c1 := Init(a), Init(b), Init(c);
    Triangle(a1, b, c);
    Triangle(a, b, c1);
    Triangle(a, b1, c);
    Triangle(a1, b1, c);
    Triangle(a, b1, c1);
    Triangle(a1, b1, c1);
    Unfolded(a, b);
    Unfolded(b, c);
    Unfolded(a, c);
    TriangleStep(Distance(a, b), Distance(a1, b), Distance(a, b1), Distance(a1, b1), Cost(Last(a), Last(b)),
                 Distance(b, c), Distance(b1, c), Distance(b, c1), Distance(b1, c1), Cost(Last(b), Last(c)),
                 Distance(a, c), Distance(a1, c), Distance(a, c1), Distance(a1, c1), Cost(Last(a), Last(c)));
  }

  // ---------------------------------------------------------------- the minimum number of edits

  /** `t` is `s` with the piece `m` between `u` and `q` replaced by `n`. */
  predicate Replaces(s: string, t: string, u: string, m: string, n: string, q: string) {
    s == u + m + q && t == u + n + q
  }

  /** One edit anywhere: delete, insert or substitute a single character. */
  ghost predicate OneEdit(s: string, t: string) {
    exists u, m, n, q :: Replaces(s, t, u, m, n, q) && |m| <= 1 && |n| <= 1 && m != n
  }

  /** A chain of single edits from `a` to `b`. */
  ghost predicate Connects(chain: seq<string>, a: string, b: string) {
    && chain != [] && chain[0] == a && chain[|chain| - 1] == b
    && forall k :: 0 <= k < |chain| - 1 ==> OneEdit(chain[k], chain[k + 1])
  }

  lemma AppendKeepsOneEdit(s: string, t: string, x: char)
    requires OneEdit(s, t)
    ensures OneEdit(s + [x], t + [x])
  {
    var u, m, n, q :| Replaces(s, t, u, m, n, q) && |m| <= 1 && |n| <= 1 && m != n;
    assert Replaces(s + [x], t + [x], u, m, n, q + [x]);
  }

  lemma EditAtTheEnd(s: string, m: string, n: string)
    requires |m| <= 1 && |n| <= 1 && m != n
    ensures OneEdit(s + m, s + n)
  {
    assert Replaces(s + m, s + n, s, m, n, []);
  }

  lemma ChainCons(chain: seq<string>, a: string, b: string, c: string)
    requires OneEdit(a, b) && Connects(chain, b, c)
    ensures Connects([a] + chain, a, c)
  {
    assert forall k :: 0 < k < |chain| ==> ([a] + chain)[k] == chain[k - 1];
  }

  lemma ChainAppend(chain: seq<string>, a: string, b: string, x: char) returns (longer: seq<string>)
    requires Connects(chain, a, b)
    ensures Connects(longer, a + [x], b + [x]) && |longer| == |chain|
  {
    longer := seq(|chain|, k requires 0 <= k < |chain| => chain[k] + [x]);
    forall k | 0 <= k < |longer| - 1 ensures OneEdit(longer[k], longer[k + 1]) {
      AppendKeepsOneEdit(chain[k], chain[k + 1], x);
    }
  }

  lemma DeletedAtTheEnd(rest: seq<string>, a: string, b: string)
    requires a != [] && Connects(rest, Init(a), b)
    ensures Connects([a] + rest, a, b)
  {
    EditAtTheEnd(Init(a), [Last(a)], []);
    assert Init(a) + [Last(a)] == a && Init(a) + [] == Init(a);
    ChainCons(rest, a, Init(a), b);
  }

  lemma InsertedAtTheEnd(rest: seq<string>, a: string, b: string)
    requires b != [] && Connects(rest, a, Init(b))
    ensures Connects(rest + [b], a, b)
  {
    EditAtTheEnd(Init(b), [], [Last(b)]);
    assert Init(b) + [Last(b)] == b && Init(b) + [] == Init(b);
    ChainSnoc(rest, a, Init(b), b);
  }

  lemma ChainSnoc(rest: seq<string>, a: string, m: string, b: string)
    requires Connects(rest, a, m) && OneEdit(m, b)
    ensures Connects(rest + [b], a, b)
  {
  }

  /** A chain between the words without their last characters, carried over to the whole words. */
  lemma KeptOrReplacedAtTheEnd(rest: seq<string>, a: string, b: string) returns (chain: seq<string>)
    requires a != [] && b != [] && Connects(rest, Init(a), Init(b))
    ensures Connects(chain, a, b) && |chain| == |rest| + Cost(Last(a), Last(b))
  {
    var middle := Init(b) + [Last(a)];
    chain := ChainAppend(rest, Init(a), Init(b), Last(a));
    assert Init(a) + [Last(a)] == a && Init(b) + [Last(b)] == b;
    if Last(a) != Last(b) {
      EditAtTheEnd(Init(b), [Last(a)], [Last(b)]);
      ChainSnoc(chain, a, middle, b);
      chain := chain + [b];
    }
  }

  /** Some chain of exactly that many edits leads from one string to the other. */
  lemma {:induction false} EnoughEdits(a: string, b: string) returns (chain: seq<string>)
    ensures Connects(chain, a, b) && |chain| == Distance(a, b) + 1
    decreases |a| + |b|
  {
    if a == [] && b == [] {
      chain := [a];
    } else if b == [] || (a != [] && Distance(a, b) == Distance(Init(a), b) + 1) {
      var rest := EnoughEdits(Init(a), b);
      DeletedAtTheEnd(rest, a, b);
      chain := [a] + rest;
    } else if a == [] || Distance(a, b) == Distance(a, Init(b)) + 1 {
      var rest := EnoughEdits(a, Init(b));
      InsertedAtTheEnd(rest, a, b);
      chain := rest + [b];
    } else {
      var rest := EnoughEdits(Init(a), Init(b));
      chain := KeptOrReplacedAtTheEnd(rest, a, b);
    }
  }

  lemma {:induction false} CommonSuffix(u: string, v: string, q: string)
    ensures Distance(u + q, v + q) <= Distance(u, v)
    decreases |q|
  {
    if q == [] {
      assert u + q == u && v + q == v;
    } else {
      assert Init(u + q) == u + Init(q) && Init(v + q) == v + Init(q);
      CommonSuffix(u, v, Init(q));
    }
  }

  lemma {:induction false} OneMoreChar(p: string, x: char, y: char)
    ensures Distance(p + [x], p) <= 1 && Distance(p, p + [x]) <= 1 && Distance(p + [x], p + [y]) <= 1
  {
    ZeroIffEqual(p, p);
    assert Init(p + [x]) == p && Init(p + [y]) == p;
  }

  lemma {:induction false} ReplacedEndIsNear(u: string, m: string, n: string)
    requires |m| <= 1 && |n| <= 1
    ensures Distance(u + m, u + n) <= 1
  {
    if m == n {
      ZeroIffEqual(u + m, u + n);
    } else if n == [] {
      assert u + n == u && m == [m[0]];
      OneMoreChar(u, m[0], m[0]);
    } else if m == [] {
      assert u + m == u && n == [n[0]];
      OneMoreChar(u, n[0], n[0]);
    } else {
      assert m == [m[0]] && n == [n[0]];
      OneMoreChar(u, m[0], n[0]);
    }
  }

  lemma {:induction false} OneEditIsNear(s: string, t: string)
    requires OneEdit(s, t)
    ensures Distance(s, t) <= 1
  {
    var u, m, n, q :| Replaces(s, t, u, m, n, q) && |m| <= 1 && |n| <= 1 && m != n;
    CommonSuffix(u + m, u + n, q);
    ReplacedEndIsNear(u, m, n);
  }

  /** No chain of fewer edits does. */
  lemma {:induction false} NoFewerEdits(chain: seq<string>, a: string, b: string)
    requires Connects(chain, a, b)
    ensures Distance(a, b) <= |chain| - 1
    decreases |chain|
  {
    if |chain| == 1 {
      ZeroIffEqual(a, b);
    } else {
      NoFewerEdits(chain[1..], chain[1], b);
      OneEditIsNear(a, chain[1]);
      Triangle(a, chain[1], b);
    }
  }
}
