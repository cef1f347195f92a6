/** Collapsing `.` and `..` without touching the file system (`lexical_normalize` of src/links.rs). */
module LexicalPath {
  datatype Component = RootDir | CurDir | ParentDir | Normal(name: string)

  /** What one component does to the components collected so far. */
  function Pushed(out: seq<Component>, c: Component): seq<Component> {
    match c
    case CurDir => out
    case ParentDir => if out != [] && out[|out| - 1].Normal? then out[..|out| - 1] else out + [c]
    case _ => out + [c]
  }

  function Normalized(path: seq<Component>): seq<Component>
    decreases |path|
  {
    if path == [] then [] else Pushed(Normalized(path[..|path| - 1]), path[|path| - 1])
  }

  method LexicalNormalize(path: seq<Component>) returns (out: seq<Component>)
    ensures out == Normalized(path)
  {
    out := [];
    var i := 0;
    while i < |path|
      invariant 0 <= i <= |path|
      invariant out == Normalized(path[..i])
    {
      var c := path[i];
      assert path[..i + 1][..i] == path[..i];
      i := i + 1;
      match c
      case CurDir =>
      case ParentDir =>
        if out != [] && out[|out| - 1].Normal? { out := out[..|out| - 1]; } else { out := out + [c]; }
      case other => out := out + [c];
    }
    assert path[..i] == path;
  }

  /** No `.`, and no `..` that could be collapsed. */
  predicate InNormalForm(path: seq<Component>) {
    && (forall i :: 0 <= i < |path| ==> !path[i].CurDir?)
    && (forall i :: 0 < i < |path| && path[i].ParentDir? ==> !path[i - 1].Normal?)
  }

  lemma PushedKeepsForm(out: seq<Component>, c: Component)
    requires InNormalForm(out)
    ensures InNormalForm(Pushed(out, c))
    ensures Pushed(out, c) == out + [c] <==> InNormalForm(out + [c])
  {
    var longer := out + [c];
    assert longer[|out|] == c && forall i :: 0 <= i < |out| ==> longer[i] == out[i];
    assert |longer| == |out| + 1;
  }

  lemma PrefixKeepsForm(out: seq<Component>, c: Component)
    requires InNormalForm(out + [c])
    ensures InNormalForm(out)
  {
    assert forall i :: 0 <= i < |out| ==> out[i] == (out + [c])[i];
  }

  /** The result is in normal form, and exactly the paths in normal form are left as they are. */
  lemma {:induction false} NormalizesToNormalForm(path: seq<Component>)
    ensures InNormalForm(Normalized(path))
    ensures Normalized(path) == path <==> InNormalForm(path)
    decreases |path|
  {
    if path != [] {
      var before, c := path[..|path| - 1], path[|path| - 1];
      NormalizesToNormalForm(before);
      PushedKeepsForm(Normalized(before), c);
      assert path == before + [c];
      if InNormalForm(path) { PrefixKeepsForm(before, c); }
    }
  }

  /** One step through a tree without links: `..` of the root is the root. */
  function Follow(at: seq<string>, c: Component): seq<string> {
    match c
    case RootDir => []
    case CurDir => at
    case ParentDir => if at == [] then [] else at[..|at| - 1]
    case Normal(name) => at + [name]
  }

  /** Where a path leads from a directory. */
  function Resolve(base: seq<string>, path: seq<Component>): seq<string>
    decreases |path|
  {
    if path == [] then base else Follow(Resolve(base, path[..|path| - 1]), path[|path| - 1])
  }

  lemma {:induction false} ResolveSnoc(base: seq<string>, path: seq<Component>, c: Component)
    ensures Resolve(base, path + [c]) == Follow(Resolve(base, path), c)
  {
    assert (path + [c])[..|path|] == path;
  }

  lemma DownAndUp(at: seq<string>, name: string)
    ensures Follow(Follow(at, Normal(name)), ParentDir) == at
  {
    assert (at + [name])[..|at|] == at;
  }

  lemma {:induction false} PushingFollows(base: seq<string>, out: seq<Component>, c: Component)
    ensures Resolve(base, Pushed(out, c)) == Follow(Resolve(base, out), c)
  {
    if c.ParentDir? && out != [] && out[|out| - 1].Normal? {
      DownAndUp(Resolve(base, out[..|out| - 1]), out[|out| - 1].name);
    } else if !c.CurDir? {
      ResolveSnoc(base, out, c);
    }
  }

  /** Without links in the way, a path and its normal form lead to the same place from every directory. */
  lemma {:induction false} NormalizingKeepsThePlace(base: seq<string>, path: seq<Component>)
    ensures Resolve(base, Normalized(path)) == Resolve(base, path)
    decreases |path|
  {
    if path != [] {
      NormalizingKeepsThePlace(base, path[..|path| - 1]);
      PushingFollows(base, Normalized(path[..|path| - 1]), path[|path| - 1]);
    }
  }
}
