/** Strict orders and the lexicographic order on sequences: `str` order in Rust compares characters, `Path`
  * order compares whole components (src/disk_refs.rs). Also the sorted lists of src/policy.rs. */
module Lexicographic {
  /** A strict total order. */
  ghost predicate StrictOrder<T(!new)>(lt: (T, T) -> bool) {
    && (forall a :: !lt(a, a))
    && (forall a, b :: lt(a, b) || lt(b, a) || a == b)
    && (forall a, b, c :: lt(a, b) && lt(b, c) ==> lt(a, c))
  }

  predicate Lex<T(==)>(lt: (T, T) -> bool, a: seq<T>, b: seq<T>)
    decreases |a|
  {
    if b == [] then false
    else if a == [] then true
    else lt(a[0], b[0]) || (a[0] == b[0] && Lex(lt, a[1..], b[1..]))
  }

  lemma {:induction false} LexIrreflexive<T(!new)>(lt: (T, T) -> bool, a: seq<T>)
    requires StrictOrder(lt)
    ensures !Lex(lt, a, a)
    decreases |a|
  {
    if a != [] { LexIrreflexive(lt, a[1..]); }
  }

  lemma {:induction false} LexTotal<T(!new)>(lt: (T, T) -> bool, a: seq<T>, b: seq<T>)
    requires StrictOrder(lt)
    ensures Lex(lt, a, b) || Lex(lt, b, a) || a == b
    decreases |a|
  {
    if a != [] && b != [] && a[0] == b[0] {
      LexTotal(lt, a[1..], b[1..]);
      assert a == [a[0]] + a[1..] && b == [b[0]] + b[1..];
    }
  }

  lemma {:induction false} LexTransitive<T(!new)>(lt: (T, T) -> bool, a: seq<T>, b: seq<T>, c: seq<T>)
    requires StrictOrder(lt)
    requires Lex(lt, a, b) && Lex(lt, b, c)
    ensures Lex(lt, a, c)
    decreases |a|
  {
    if a != [] && a[0] == b[0] && b[0] == c[0] { LexTransitive(lt, a[1..], b[1..], c[1..]); }
  }

  predicate CharLess(a: char, b: char) { a < b }

  /** `str` order: by code point, which is also the order of the UTF-8 bytes. */
  predicate StringLess(a: string, b: string) { Lex(CharLess, a, b) }

  type Path = seq<string>

  /** `Path` order: component by component. */
  predicate PathLess(a: Path, b: Path) { Lex(StringLess, a, b) }

  lemma CharOrder()
    ensures StrictOrder(CharLess)
  {
  }

  lemma StringOrder()
    ensures StrictOrder(StringLess)
  {
    CharOrder();
    forall a: string, b: string, c: string
      ensures !StringLess(a, a)
      ensures StringLess(a, b) || StringLess(b, a) || a == b
      ensures StringLess(a, b) && StringLess(b, c) ==> StringLess(a, c)
    {
      LexIrreflexive(CharLess, a);
      LexTotal(CharLess, a, b);
      if StringLess(a, b) && StringLess(b, c) { LexTransitive(CharLess, a, b, c); }
    }
  }

  lemma PathOrder()
    ensures StrictOrder(PathLess)
  {
    StringOrder();
    forall a: Path, b: Path, c: Path
      ensures !PathLess(a, a)
      ensures PathLess(a, b) || PathLess(b, a) || a == b
      ensures PathLess(a, b) && PathLess(b, c) ==> PathLess(a, c)
    {
      LexIrreflexive(StringLess, a);
      LexTotal(StringLess, a, b);
      if PathLess(a, b) && PathLess(b, c) { LexTransitive(StringLess, a, b, c); }
    }
  }

  // ---------------------------------------------------------------- sorting and removing repeats

  predicate Ascending(s: seq<string>) { forall i, j :: 0 <= i < j < |s| ==> StringLess(s[i], s[j]) }

  predicate Sorted(s: seq<string>) { forall i, j :: 0 <= i < j < |s| ==> !StringLess(s[j], s[i]) }

  function Insert(x: string, s: seq<string>): seq<string> {
    if s == [] || !StringLess(s[0], x) then [x] + s else [s[0]] + Insert(x, s[1..])
  }

  /** `sort()` on a vector of strings. */
  function Sort(s: seq<string>): seq<string> { if s == [] then [] else Insert(s[0], Sort(s[1..])) }

  /** `dedup()`: drops every element equal to the one before it. */
  function Dedup(s: seq<string>): seq<string> {
    if |s| < 2 then s else if s[0] == s[1] then Dedup(s[1..]) else [s[0]] + Dedup(s[1..])
  }

  lemma {:induction false} ConsSorted(x: string, s: seq<string>)
    requires Sorted(s)
    requires s == [] || !StringLess(s[0], x)
    ensures Sorted([x] + s)
  {
    StringOrder();
    var t := [x] + s;
    forall i, j | 0 <= i < j < |t| ensures !StringLess(t[j], t[i]) {
      assert t[j] == s[j - 1];
      if i == 0 { assert j == 1 || !StringLess(s[j - 1], s[0]); } else { assert t[i] == s[i - 1]; }
    }
  }

  lemma {:induction false} InsertSorts(x: string, s: seq<string>)
    requires Sorted(s)
    ensures Sorted(Insert(x, s))
    ensures Insert(x, s)[0] == if s == [] || !StringLess(s[0], x) then x else s[0]
    decreases |s|
  {
    if s == [] || !StringLess(s[0], x) {
      ConsSorted(x, s);
    } else {
      StringOrder();
      InsertSorts(x, s[1..]);
      assert |s| == 1 || !StringLess(s[1], s[0]);
      ConsSorted(s[0], Insert(x, s[1..]));
    }
  }

  lemma {:induction false} InsertAdds(x: string, s: seq<string>)
    ensures multiset(Insert(x, s)) == multiset(s) + multiset{x}
    decreases |s|
  {
    if s != [] {
      assert s == [s[0]] + s[1..];
      InsertAdds(x, s[1..]);
    }
  }

  lemma {:induction false} SortSorts(s: seq<string>)
    ensures Sorted(Sort(s))
    ensures multiset(Sort(s)) == multiset(s)
    decreases |s|
  {
    if s != [] {
      SortSorts(s[1..]);
      InsertSorts(s[0], Sort(s[1..]));
      InsertAdds(s[0], Sort(s[1..]));
      assert s == [s[0]] + s[1..];
    }
  }

  lemma {:induction false} DedupAscends(s: seq<string>)
    requires Sorted(s)
    ensures Ascending(Dedup(s))
    ensures forall x :: x in Dedup(s) <==> x in s
    decreases |s|
  {
    if |s| >= 2 {
      StringOrder();
      var rest := Dedup(s[1..]);
      DedupAscends(s[1..]);
      assert s == [s[0]] + s[1..];
      if s[0] == s[1] {
        assert s[1..][0] == s[0];
      } else {
        var t := [s[0]] + rest;
        forall i, j | 0 <= i < j < |t| ensures StringLess(t[i], t[j]) {
          assert t[j] == rest[j - 1];
          if i == 0 {
            assert rest[j - 1] in s[1..];
            assert !StringLess(s[1], s[0]) && !StringLess(rest[j - 1], s[1]);
          } else {
            assert t[i] == rest[i - 1];
          }
        }
      }
    }
  }

  lemma {:induction false} AscendingIsFixed(s: seq<string>)
    requires Ascending(s)
    ensures Sort(s) == s && Dedup(s) == s
    decreases |s|
  {
    if s != [] {
      StringOrder();
      AscendingIsFixed(s[1..]);
      assert s == [s[0]] + s[1..];
      if |s| >= 2 { assert StringLess(s[0], s[1]); }
    }
  }

  /** A list of distinct strings keeps all of them. */
  lemma {:induction false} DedupDropsOnlyRepeats(s: seq<string>)
    requires Sorted(s)
    ensures |Dedup(s)| == |s| <==> Ascending(s)
    ensures |Dedup(s)| <= |s|
    decreases |s|
  {
    StringOrder();
    if |s| >= 2 {
      DedupDropsOnlyRepeats(s[1..]);
      assert s == [s[0]] + s[1..];
      if s[0] == s[1] {
        assert !Ascending(s);
      } else if Ascending(s[1..]) {
        forall i, j | 0 <= i < j < |s| ensures StringLess(s[i], s[j]) {
          if i == 0 && j > 1 { assert StringLess(s[1], s[1..][j - 1]); }
          if i > 0 { assert StringLess(s[1..][i - 1], s[1..][j - 1]); }
        }
        assert Ascending(s);
      }
    }
  }

  /** The first difference decides, and a proper prefix comes first. */
  lemma {:induction false} FirstDifferenceDecides(a: string, b: string)
    ensures StringLess(a, b) <==>
            exists k: nat :: k <= |a| && k < |b| && a[..k] == b[..k] && (k == |a| || a[k] < b[k])
    decreases |a|
  {
    if b != [] && a != [] && a[0] == b[0] {
      FirstDifferenceDecides(a[1..], b[1..]);
      if k: nat :| k <= |a[1..]| && k < |b[1..]| && a[1..][..k] == b[1..][..k] && (k == |a[1..]| || a[1..][k] < b[1..][k]) {
        assert a[..k + 1] == [a[0]] + a[1..][..k] && b[..k + 1] == [b[0]] + b[1..][..k];
      }
      if k: nat :| k <= |a| && k < |b| && a[..k] == b[..k] && (k == |a| || a[k] < b[k]) {
        assert k > 0 && a[1..][..k - 1] == a[..k][1..] && b[1..][..k - 1] == b[..k][1..];
      }
    } else if b != [] && a != [] {
      assert a[..0] == b[..0];
      forall k: nat | 0 < k <= |a| && k < |b| ensures a[..k] != b[..k] {
        assert a[..k][0] == a[0] && b[..k][0] == b[0];
      }
    } else if b != [] {
      assert a[..0] == b[..0];
    }
  }
}
