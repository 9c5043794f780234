/**
 Just enough of file-system path resolution to state what the article guard
 protects against. A path is its sequence of components; a file name joined
 onto a directory is split at separators (both `/` and `\`, as on a platform
 that honours either), and its `.` and `..` components are resolved against
 the directory, `..` dropping the last component. A name that starts with a
 separator replaces the directory altogether.
 */
module Paths {

  type Path = seq<string>

  predicate IsSeparator(c: char) {
    c == '/' || c == '\\'
  }

  predicate NoSeparator(s: string) {
    forall i :: 0 <= i < |s| ==> !IsSeparator(s[i])
  }

  /** The components of `name` between its separators, empty ones included. */
  function Split(name: string): (r: seq<string>)
    ensures |r| >= 1
    decreases |name|
  {
    if |name| == 0 then [""]
    else
      var rest := Split(name[1..]);
      if IsSeparator(name[0]) then [""] + rest
      else [[name[0]] + rest[0]] + rest[1..]
  }

  /** No component of a split name holds a separator. */
  lemma {:induction false} SplitHasNoSeparator(name: string)
    ensures forall i :: 0 <= i < |Split(name)| ==> NoSeparator(Split(name)[i])
    decreases |name|
  {
    if |name| > 0 {
      SplitHasNoSeparator(name[1..]);
      var rest := Split(name[1..]);
      if !IsSeparator(name[0]) {
        assert NoSeparator([name[0]] + rest[0]);
        assert forall i :: 1 <= i < |Split(name)| ==> Split(name)[i] == rest[i];
      }
    }
  }

  /** A name without separators is a single component. */
  lemma {:induction false} SplitWithoutSeparator(name: string)
    requires NoSeparator(name)
    ensures Split(name) == [name]
    decreases |name|
  {
    if |name| > 0 {
      SplitWithoutSeparator(name[1..]);
      assert [name[0]] + name[1..] == name;
    }
  }

  /** A component a resolved path may hold. */
  predicate Plain(c: string) {
    c != "" && c != "." && c != ".." && NoSeparator(c)
  }

  /** Walks the components from `base`: empty and `.` components stay put,
      `..` goes up one level (not above the root), anything else goes down. */
  function Resolve(base: Path, comps: seq<string>): Path
    decreases |comps|
  {
    if |comps| == 0 then base
    else
      var c := comps[0];
      var next :=
        if c == "" || c == "." then base
        else if c == ".." then (if |base| == 0 then base else base[..|base| - 1])
        else base + [c];
      Resolve(next, comps[1..])
  }

  /** Without a `..` component, resolution only ever goes down from `base`. */
  lemma {:induction false} ResolveStaysBelow(base: Path, comps: seq<string>)
    ensures (forall i :: 0 <= i < |comps| ==> comps[i] != "..") ==> base <= Resolve(base, comps)
    decreases |comps|
  {
    if |comps| > 0 && forall i :: 0 <= i < |comps| ==> comps[i] != ".." {
      var c := comps[0];
      var next := if c == "" || c == "." then base else base + [c];
      assert base <= next;
      ResolveStaysBelow(next, comps[1..]);
      assert next <= Resolve(next, comps[1..]);
      assert Resolve(base, comps) == Resolve(next, comps[1..]);
    }
  }

  /** The file `name` designates relative to the directory `dir`. A name that
      does not start with a separator and has no `..` component designates
      something inside `dir`; a leading separator restarts from the root. */
  function Join(dir: Path, name: string): (p: Path)
    ensures ((|name| == 0 || !IsSeparator(name[0])) &&
             (forall i :: 0 <= i < |Split(name)| ==> Split(name)[i] != "..")) ==> dir <= p
    ensures |name| > 0 && IsSeparator(name[0]) ==> p == Resolve([], Split(name))
  {
    ResolveStaysBelow(dir, Split(name));
    if |name| > 0 && IsSeparator(name[0]) then Resolve([], Split(name)) else Resolve(dir, Split(name))
  }

  /** A plain name joined onto a directory is the directory's own child. */
  lemma {:induction false} PlainNameIsChild(dir: Path, name: string)
    requires Plain(name)
    ensures Join(dir, name) == dir + [name]
  {
    SplitWithoutSeparator(name);
    assert !IsSeparator(name[0]);
    assert Resolve(dir, [name]) == Resolve(dir + [name], []);
  }

  /** `../x`, for a plain `x`, splits into `..` and `x`. */
  lemma {:induction false} SplitParentOf(x: string)
    requires Plain(x)
    ensures Split("../" + x) == ["..", x]
  {
    SplitWithoutSeparator(x);
    var n1 := "/" + x;
    var n2 := "." + n1;
    var n3 := "." + n2;
    assert n1[1..] == x;
    assert Split(n1) == ["", x];
    assert n2[1..] == n1 && n2[0] == '.' && !IsSeparator('.');
    assert ['.'] + "" == ".";
    assert Split(n2) == [".", x];
    assert n3[1..] == n2 && n3[0] == '.';
    assert ['.'] + "." == "..";
    assert n3 == "../" + x;
  }

  /** A `..` component climbs out of the directory: `../x` joined onto
      `dir` names the sibling `x` in the parent, never the child
      `dir + [x]`. */
  lemma {:induction false} ParentComponentEscapes(dir: Path, x: string)
    requires |dir| > 0
    requires Plain(x)
    ensures Join(dir, "../" + x) == dir[..|dir| - 1] + [x]
    ensures Join(dir, "../" + x) != dir + [x]
  {
    SplitParentOf(x);
    var comps := ["..", x];
    assert comps[1..] == [x];
    assert ("../" + x)[0] == '.';
    assert Resolve(dir, comps) == Resolve(dir[..|dir| - 1], [x]);
    assert [x][1..] == [];
    assert Resolve(dir[..|dir| - 1], [x]) == Resolve(dir[..|dir| - 1] + [x], []);
  }
}
