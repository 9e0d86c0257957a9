/** Paths below a toplevel directory: the string facts behind the resolver. */
module RootedPath {
  import opened Text
  import opened PosixPath

  /** __is_path_below */
  predicate IsPathBelow(file: string, root: string) {
    root <= file + "/"
  }

  /** realpath lets the normalised root end with a slash. */
  function RootOf(root: string): string {
    var r := NormPath(root);
    if r != "" && r[|r| - 1] == '/' then r else r + "/"
  }

  /** The shape RootOf gives: a trailing slash with no other slash before it,
      unless the root is nothing but slashes. */
  predicate RootShape(root: string) {
    && root != "" && root[|root| - 1] == '/'
    && (AllSlashes(root) || (|root| > 1 && root[|root| - 2] != '/'))
  }

  lemma RootOfHasShape(root: string)
    ensures RootShape(RootOf(root))
  {
    var cs := NormPathShape(root);
    if cs != [] {
      JoinEnds(cs);
    }
  }

  // ---------------------------------------------------------------------
  // Confinement, for any strings at all

  lemma {:induction false} HeadKeepsPrefix(p: string, root: string)
    requires root <= p && root != "" && root[|root| - 1] == '/'
    ensures root <= Head(p)
  {
    if p[|p| - 1] != '/' {
      HeadKeepsPrefix(p[..|p| - 1], root);
    }
  }

  /** Root without its slash: what dirname gives for a path right below root. */
  function Bare(root: string): string
    requires root != ""
  {
    if AllSlashes(root) then root else root[..|root| - 1]
  }

  /** Below root, and not merely a proper prefix of a root made of slashes. */
  predicate Inside(p: string, root: string)
    requires root != ""
  {
    root <= p || p == Bare(root)
  }

  lemma InsideIsBelow(p: string, root: string)
    requires RootShape(root) && Inside(p, root)
    ensures IsPathBelow(p, root) && p != ""
  {
    assert !AllSlashes(root) ==> Bare(root) + "/" == root;
  }

  /** Going up from a path at least as long as root stays below root. */
  lemma DirnameInside(p: string, root: string)
    requires RootShape(root) && IsPathBelow(p, root) && |p| >= |root|
    ensures Inside(Dirname(p), root)
  {
    assert root <= p;
    HeadKeepsPrefix(p, root);
    var h := Head(p);
    if !AllSlashes(h) {
      var d := StripRight(h, '/');
      assert forall i | |d| <= i < |root| :: root[i] == '/';
      if AllSlashes(root) {
        assert d != "" && 0 <= |d| - 1;
      }
    }
  }

  lemma JoinPathInside(p: string, d: string, root: string)
    requires RootShape(root) && Inside(p, root) && '/' !in d
    ensures Inside(JoinPath(p, d), root)
  {
    if d != "" {
      assert d[0] in d;
    }
    if !(root <= p) {
      assert p + "/" == root;
    }
  }

  // ---------------------------------------------------------------------
  // Paths as component lists

  /** The path of a component list below root. */
  function Render(root: string, cs: seq<string>): string {
    root + Join(cs, '/')
  }

  lemma RenderNothing(r: string)
    ensures Render(r, []) == r
  {
  }

  predicate Names(cs: seq<string>) {
    forall i | 0 <= i < |cs| :: Name(cs[i])
  }

  /** The string p spells the component list cs. */
  predicate Spells(root: string, p: string, cs: seq<string>)
    requires root != ""
  {
    p == Render(root, cs) || (cs == [] && p == Bare(root))
  }

  function Up(cs: seq<string>): seq<string> {
    if cs == [] then [] else cs[..|cs| - 1]
  }

  lemma UpSnoc(cs: seq<string>)
    requires cs != []
    ensures cs == Up(cs) + [cs[|cs| - 1]]
  {
  }

  lemma {:induction false} HeadAfterSlash(p: string, d: string)
    requires '/' !in d && p != "" && p[|p| - 1] == '/'
    ensures Head(p + d) == p
    decreases |d|
  {
    if d == "" {
      assert p + d == p;
    } else {
      var e := d[..|d| - 1];
      assert (p + d)[..|p + d| - 1] == p + e;
      assert d[|d| - 1] in d;
      HeadAfterSlash(p, e);
    }
  }

  /** The directory of a path, without the slashes behind it; a path in "/" has "/". */
  lemma DirnameOf(dir: string, slashes: string, name: string)
    requires slashes != "" && AllSlashes(slashes) && '/' !in name && (dir != "" ==> dir[|dir| - 1] != '/')
    ensures Dirname(dir + slashes + name) == if dir == "" then slashes else dir
  {
    var front := dir + slashes;
    assert front[|front| - 1] == slashes[|slashes| - 1] == '/';
    HeadAfterSlash(front, name);
    assert forall i | |dir| <= i < |front| :: front[i] == '/';
    if dir == "" {
      assert front == slashes;
    } else {
      assert front[|dir| - 1] == dir[|dir| - 1];
      assert StripRight(front, '/') == dir;
    }
  }

  lemma RenderSnoc(root: string, cs: seq<string>, d: string)
    ensures Render(root, cs + [d]) == if cs == [] then root + d else Render(root, cs) + "/" + d
  {
    if cs == [] {
      assert cs + [d] == [d];
    } else {
      JoinSnoc(cs, d, '/');
      assert root + (Join(cs, '/') + ['/'] + d) == root + Join(cs, '/') + "/" + d;
    }
  }

  lemma RenderEnds(root: string, cs: seq<string>)
    requires Names(cs) && cs != []
    ensures |Render(root, cs)| > |root|
    ensures Render(root, cs)[|Render(root, cs)| - 1] != '/'
    ensures Render(root, cs)[|root|] != '/'
  {
    JoinEnds(cs);
  }

  /** The parent string of a component path is the path of the parent list. */
  lemma DirnameSpells(root: string, cs: seq<string>)
    requires RootShape(root) && Names(cs) && cs != []
    ensures Spells(root, Dirname(Render(root, cs)), Up(cs))
    ensures |cs| > 1 ==> Dirname(Render(root, cs)) == Render(root, Up(cs))
    ensures |cs| == 1 ==> Dirname(Render(root, cs)) == Bare(root)
  {
    hide Render, Head, Dirname, Join;
    var up, d := Up(cs), cs[|cs| - 1];
    UpSnoc(cs);
    RenderSnoc(root, up, d);
    if up == [] {
      DirnameOfName(root, d);
    } else {
      RenderEnds(root, up);
      DirnameBehind(Render(root, up), root, d);
    }
  }

  lemma DirnameOfName(root: string, d: string)
    requires RootShape(root) && Name(d)
    ensures Dirname(root + d) == Bare(root)
  {
    HeadAfterSlash(root, "");
    HeadAfterSlash(root, d);
    StripRoot(root);
    assert root + "" == root;
  }

  lemma DirnameBehind(p: string, root: string, d: string)
    requires |p| > |root| && p[|p| - 1] != '/' && Name(d)
    ensures Dirname(p + "/" + d) == p
  {
    HeadAfterSlash(p + "/", d);
    hide Head;
    StripSlash(p);
    assert (p + "/")[|p| - 1] == p[|p| - 1];
  }

  lemma StripSlash(p: string)
    requires p != "" && p[|p| - 1] != '/'
    ensures StripRight(p + "/", '/') == p
  {
    assert (p + "/")[..|p|] == p;
  }

  lemma StripRoot(root: string)
    requires RootShape(root)
    ensures Dirname(root) == Bare(root)
  {
    if !AllSlashes(root) {
      assert StripRight(root, '/') == root[..|root| - 1];
    }
  }

  /** One ".." on a spelled path. */
  lemma UpSpells(root: string, p: string, cs: seq<string>)
    requires RootShape(root) && Names(cs) && Spells(root, p, cs)
    ensures Spells(root, if |p| >= |root| then Dirname(p) else p, Up(cs))
  {
    if cs == [] {
      StripRoot(root);
      assert Render(root, []) == root;
    } else {
      RenderEnds(root, cs);
      DirnameSpells(root, cs);
    }
  }

  /** One name appended to a spelled path. */
  lemma JoinSpells(root: string, p: string, cs: seq<string>, d: string)
    requires RootShape(root) && Names(cs) && Spells(root, p, cs) && Name(d)
    ensures JoinPath(p, d) == Render(root, cs + [d])
    ensures Names(cs + [d])
  {
    RenderSnoc(root, cs, d);
    assert d[0] in d;
    if cs != [] {
      RenderEnds(root, cs);
    } else if p != root {
      assert p == root[..|root| - 1] && p != "" && p[|p| - 1] != '/';
      assert p + "/" == root;
    }
  }

  /** The empty component in front of an absolute path is swallowed by root's slash. */
  lemma JoinEmpty(root: string)
    requires RootShape(root)
    ensures JoinPath(root, "") == root
  {
  }

  lemma SpellsLength(root: string, p: string, cs: seq<string>)
    requires RootShape(root) && Names(cs) && Spells(root, p, cs)
    ensures cs != [] ==> |p| >= |root| && p == Render(root, cs)
    ensures p == Bare(root) && !AllSlashes(root) && cs == [] ==> |p| < |root|
  {
    if cs != [] {
      RenderEnds(root, cs);
    } else if p == Bare(root) && !AllSlashes(root) {
      assert Join(cs, '/') == "";
    }
  }
}
