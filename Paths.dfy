/**
 * Local paths as strings, with the two-argument `os.path.join` of POSIX
 * systems and the split of a path into its '/'-separated components.
 */
module Paths {

  const Separator: char := '/'

  /** A string free of the separator. */
  predicate NoSeparator(s: string) {
    Separator !in s
  }

  /** `os.path.join(dir, name)` on POSIX. */
  function Join(dir: string, name: string): (r: string)
  {
    if |name| > 0 && name[0] == Separator then name
    else if dir == [] || dir[|dir| - 1] == Separator then dir + name
    else dir + [Separator] + name
  }

  /** Joins each name in turn onto `dir`, as a walk does one level at a time. */
  function JoinAll(dir: string, names: seq<string>): string
    decreases |names|
  {
    if names == [] then dir else JoinAll(Join(dir, names[0]), names[1..])
  }

  /** A directory that a further join extends by exactly one component. */
  predicate IsProperDir(dir: string) {
    dir != [] && dir[|dir| - 1] != Separator
  }

  /** Names that can be path components: non-empty and free of the separator. */
  predicate AreComponents(names: seq<string>) {
    forall i :: 0 <= i < |names| ==> names[i] != [] && NoSeparator(names[i])
  }

  /**
   * The '/'-separated components of `p`, empty ones included, read from the
   * left: "a/b" has components "a" and "b", "a/" has "a" and "".
   */
  function Components(p: string): (r: seq<string>)
    ensures |r| >= 1
    decreases |p|
  {
    if p == [] then [[]]
    else
      var init := Components(p[..|p| - 1]);
      var c := p[|p| - 1];
      if c == Separator then init + [[]]
      else init[..|init| - 1] + [init[|init| - 1] + [c]]
  }

  /** Glues components back together with separators. */
  function Unsplit(cs: seq<string>): string
    requires |cs| >= 1
  {
    if |cs| == 1 then cs[0] else Unsplit(cs[..|cs| - 1]) + [Separator] + cs[|cs| - 1]
  }

  /** Splitting loses nothing: the components glue back into the path. */
  lemma {:induction false} UnsplitComponents(p: string)
    ensures Unsplit(Components(p)) == p
    decreases |p|
  {
    if p != [] {
      var q, c := p[..|p| - 1], p[|p| - 1];
      var init := Components(q);
      UnsplitComponents(q);
      assert p == q + [c];
      if c != Separator && |init| > 1 {
        var k := |init| - 1;
        var cs := init[..k] + [init[k] + [c]];
        assert cs[..|cs| - 1] == init[..k];
        assert Unsplit(init) == Unsplit(init[..k]) + [Separator] + init[k];
      }
    }
  }

  /** A separator followed by a separator-free name adds that name as one component. */
  lemma {:induction false} ComponentsAfterSeparator(dir: string, name: string)
    requires NoSeparator(name)
    ensures Components(dir + [Separator] + name) == Components(dir) + [name]
    decreases |name|
  {
    var p := dir + [Separator] + name;
    if name == [] {
      assert p[..|p| - 1] == dir;
    } else {
      var n, c := name[..|name| - 1], name[|name| - 1];
      assert c != Separator;
      assert NoSeparator(n) by {
        assert forall j :: 0 <= j < |n| ==> n[j] == name[j];
      }
      ComponentsAfterSeparator(dir, n);
      assert p[..|p| - 1] == dir + [Separator] + n;
      assert n + [c] == name;
    }
  }

  /** Joining a component onto a proper directory adds exactly that component. */
  lemma JoinAddsComponent(dir: string, name: string)
    requires IsProperDir(dir) && NoSeparator(name)
    ensures Components(Join(dir, name)) == Components(dir) + [name]
  {
    ComponentsAfterSeparator(dir, name);
  }

  /** Joining non-empty, separator-free names keeps a directory proper. */
  lemma {:induction false} JoinAllProper(dir: string, names: seq<string>)
    requires IsProperDir(dir) && AreComponents(names)
    ensures IsProperDir(JoinAll(dir, names))
    decreases |names|
  {
    if names != [] {
      assert AreComponents(names[1..]) by {
        assert forall j :: 0 <= j < |names| - 1 ==> names[1..][j] == names[j + 1];
      }
      JoinAllProper(Join(dir, names[0]), names[1..]);
    }
  }

  /**
   * Joining a run of components onto a proper directory adds them, one per
   * level and in order, so the depth grows by exactly the number of names.
   */
  lemma {:induction false} JoinAllAddsComponents(dir: string, names: seq<string>)
    requires IsProperDir(dir) && AreComponents(names)
    ensures Components(JoinAll(dir, names)) == Components(dir) + names
    decreases |names|
  {
    if names != [] {
      var init, last := names[..|names| - 1], names[|names| - 1];
      assert names == init + [last];
      assert AreComponents(init) by {
        assert forall j :: 0 <= j < |init| ==> init[j] == names[j];
      }
      var mid := JoinAll(dir, init);
      JoinAllAddsComponents(dir, init);
      JoinAllProper(dir, init);
      JoinAllSnoc(dir, init, last);
      JoinAddsComponent(mid, last);
      assert Components(JoinAll(dir, names)) == Components(mid) + [last];
      assert Components(dir) + init + [last] == Components(dir) + names;
    }
  }

  /** Joining one more name after a run is the same as joining the longer run. */
  lemma {:induction false} JoinAllSnoc(dir: string, names: seq<string>, name: string)
    ensures JoinAll(dir, names + [name]) == Join(JoinAll(dir, names), name)
    decreases |names|
  {
    if names == [] {
      assert [] + [name] == [name];
    } else {
      assert (names + [name])[1..] == names[1..] + [name];
      JoinAllSnoc(Join(dir, names[0]), names[1..], name);
    }
  }
}
