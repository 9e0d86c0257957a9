/** When the cached realpath gives the answer of the uncached one. */
module CacheTheorems {
  import opened Text
  import opened PosixPath
  import opened RootedPath
  import opened FileSystem
  import opened Resolver
  import opened ResolverLaws
  import opened RealPathTheorems
  import opened PathCache

  /** What POSIX pathname resolution says about the spellings the resolver uses:
      a "." or a doubled slash changes nothing, except that a path ending in "/"
      or "/." names what the last link leads to and so never a link itself;
      and readlink fails on what is no link. */
  ghost predicate PosixBelow(fs: FileSystem, r: string) {
    && (forall cs | Names(cs) :: PosixAt(fs, Render(r, cs), cs == [] || cs[|cs| - 1] == "."))
    && (forall p :: !IsKind(fs.lstat(p), Link) ==> fs.readlink(p).Err?)
  }

  /** One path p; dotted says that it ends in "/" or "/.". */
  ghost predicate PosixAt(fs: FileSystem, p: string, dotted: bool) {
    && (if dotted then !IsKind(fs.lstat(p), Link) else fs.lstat(p) == fs.lstat(NormPath(p)))
    && IsKind(fs.stat(p), Directory) == IsKind(fs.stat(NormPath(p)), Directory)
  }

  /** A trailing "." is invisible to normpath. */
  lemma NormPathDotted(r: string, cs: seq<string>)
    requires RootShape(r) && Names(cs)
    ensures NormPath(Render(r, cs + ["."])) == NormPath(Render(r, cs))
  {
    RenderSnoc(r, cs, ".");
    if cs == [] {
      assert Render(r, cs) == r;
      NormPathRootDot(r);
    } else {
      var p := Render(r, cs);
      RenderEnds(r, cs);
      assert (p + "/" + ".")[|p| - 1] == p[|p| - 1];
      NormPathTail(p, ".");
    }
  }

  lemma NormPathRootDot(r: string)
    requires RootShape(r)
    ensures NormPath(r + ".") == NormPath(r)
  {
    var b := r[..|r| - 1];
    SplitAt(b, '/', ".");
    SplitAt(b, '/', "");
    assert b + ['/'] + "." == r + "." && b + ['/'] + "" == r;
    SplitPlain(".", '/');
    var k := Lead(r);
    assert Lead(r + ".") == k;
    var acc := NormComps(Split(b, '/'), k, []);
    NormCompsAppend(Split(b, '/'), ["."], k, []);
    NormCompsAppend(Split(b, '/'), [""], k, []);
    NormCompsOne(".", k, acc);
    NormCompsOne("", k, acc);
  }

  lemma NormCompsOne(d: string, k: nat, acc: seq<string>)
    ensures NormComps([d], k, acc) == NormStep(d, k, acc)
  {
    assert [d][1..] == [];
  }

  /** On a link-free list, the normalised path is no link either. */
  lemma {:induction false} NormalisedNoLink(fs: FileSystem, r: string, cs: seq<string>)
    requires RootShape(r) && PosixBelow(fs, r) && NormPath(r) == NormPath(Bare(r)) == Bare(r)
    requires Names(cs) && LinkFree(Direct(fs), r, cs) && !IsKind(fs.lstat(Bare(r)), Link)
    ensures !IsKind(fs.lstat(NormPath(Render(r, cs))), Link)
  {
    hide NormPath, Join;
    if cs == [] {
      RenderNothing(r);
    } else {
      var up, d := Up(cs), cs[|cs| - 1];
      assert PosixAt(fs, Render(r, cs), d == ".");
      if d == "." {
        UpSnoc(cs);
        LinkFreeUp(Direct(fs), r, cs);
        NormPathDotted(r, up);
        NormalisedNoLink(fs, r, up);
      } else {
        assert cs[..|cs|] == cs;
      }
    }
  }

  lemma ViewsAgreeAt(fs: FileSystem, r: string, cs: seq<string>)
    requires RootShape(r) && PosixBelow(fs, r) && NormPath(r) == NormPath(Bare(r)) == Bare(r)
    requires !IsKind(fs.lstat(Bare(r)), Link)
    requires Names(cs) && LinkFree(Direct(fs), r, Up(cs))
    ensures SameAt(Direct(fs), Cached(fs), Render(r, cs))
  {
    hide NormPath, Render;
    assert PosixAt(fs, Render(r, cs), cs == [] || cs[|cs| - 1] == ".");
    if cs == [] {
      RenderNothing(r);
    } else if cs[|cs| - 1] == "." {
      UpSnoc(cs);
      NormPathDotted(r, Up(cs));
      NormalisedNoLink(fs, r, Up(cs));
    }
  }

  lemma ViewsAgree(fs: FileSystem, r: string)
    requires RootShape(r) && PosixBelow(fs, r) && NormPath(r) == NormPath(Bare(r)) == Bare(r)
    requires !IsKind(fs.lstat(Bare(r)), Link)
    ensures Agree(Direct(fs), Cached(fs), r)
  {
    forall cs | Names(cs) && LinkFree(Direct(fs), r, Up(cs)) ensures SameAt(Direct(fs), Cached(fs), Render(r, cs)) {
      ViewsAgreeAt(fs, r, cs);
    }
  }

  /** The cached and the uncached realpath give the same answer or error for
      every file and budget, with use_physdir and either setting of assume_dir. */
  ghost predicate SameRealPath(fs: FileSystem, root: string) {
    forall file, n: nat, assumeDir ::
      Resolve(Direct(fs), file, root, true, n, assumeDir) == Resolve(Cached(fs), file, root, true, n, assumeDir)
  }

  /** They do exactly if the root, named without its slash, is no symlink. */
  lemma CachedAgreesIffRootIsNoLink(fs: FileSystem, root: string)
    requires PosixBelow(fs, RootOf(root))
    ensures SameRealPath(fs, root) <==> !IsKind(fs.lstat(NormPath(root)), Link)
  {
    var r := RootOf(root);
    RootOfHasShape(root);
    NormPathOfRoot(root);
    NormPathIdempotent(root);
    assert Render(r, []) == r;
    if !IsKind(fs.lstat(NormPath(root)), Link) {
      ViewsAgree(fs, r);
      forall file, n: nat, assumeDir
        ensures Resolve(Direct(fs), file, root, true, n, assumeDir) ==
                Resolve(Cached(fs), file, root, true, n, assumeDir)
      {
        if IsPathBelow(NormPath(file), r) {
          FileTodo(file, root);
          var out := RelAlike(Direct(fs), Cached(fs), r, r, [], FileComps(file, root), true, n, assumeDir);
        }
      }
    } else {
      RootIsBelow(root);
      RootLinkDiffers(fs, root, root, 1, true);
    }
  }

  lemma RootIsBelow(root: string)
    ensures IsPathBelow(NormPath(root), RootOf(root))
  {
  }

  /** Without use_physdir the two agree on every file whose directories below
      root are no symlinks, which is when the flag may be cleared; here link
      texts may be anything. What happens behind links is in CacheModes. */
  lemma CachedAgreesWithoutPhysdir(fs: FileSystem, file: string, root: string, cs: seq<string>, n: nat, assumeDir: bool)
    requires PosixBelow(fs, RootOf(root)) && !IsKind(fs.lstat(NormPath(root)), Link)
    requires NormPath(file) == Render(RootOf(root), cs) && cs != [] && Names(cs)
    requires LinkFree(Direct(fs), RootOf(root), Up(cs))
    ensures Resolve(Direct(fs), file, root, false, n, assumeDir) == Resolve(Cached(fs), file, root, false, n, assumeDir)
  {
    hide NormPath, RealPath, Render;
    var r := RootOf(root);
    RootOfHasShape(root);
    NormPathOfRoot(root);
    NormPathIdempotent(root);
    RenderNothing(r);
    assert PosixAt(fs, Render(r, []), true);
    ViewsAgree(fs, r);
    UpSnoc(cs);
    var out := PathAlike(Direct(fs), Cached(fs), r, Up(cs), cs[|cs| - 1], n, assumeDir);
  }

  /** With a symlinked root the cached version fails on every file below it,
      whatever the budget; the uncached one at least answers with the root itself. */
  lemma RootLinkDiffers(fs: FileSystem, file: string, root: string, n: nat, assumeDir: bool)
    requires PosixBelow(fs, RootOf(root)) && IsKind(fs.lstat(NormPath(root)), Link)
    requires IsPathBelow(NormPath(file), RootOf(root))
    ensures Resolve(Cached(fs), file, root, true, n, assumeDir).Err?
    ensures NormPath(file) == NormPath(root) ==> Resolve(Direct(fs), file, root, true, n, assumeDir) == Ok(RootOf(root))
  {
    var r := RootOf(root);
    RootLinkSeen(fs, root);
    hide NormPath, RootOf, Split;
    RootOfHasShape(root);
    FileCompsFirst(file, root);
    RootRefused(Cached(fs), r, FileComps(file, root), n, assumeDir);
    if NormPath(file) == NormPath(root) {
      assert NormPath(root)[|r| - 1..] == "";
      SplitPlain("", '/');
      RootEmpty(Direct(fs), r, n, assumeDir);
    }
  }

  /** The two views of a symlinked root named with its slash. */
  lemma RootLinkSeen(fs: FileSystem, root: string)
    requires PosixBelow(fs, RootOf(root)) && IsKind(fs.lstat(NormPath(root)), Link)
    ensures var r := RootOf(root);
            && r != "" && !AllSlashes(r) && |NormPath(root)| == |r| - 1
            && Cached(fs).isLink(r) && !Direct(fs).isLink(r) && fs.readlink(r).Err?
  {
    hide NormPath;
    NormPathOfRoot(root);
    RenderNothing(RootOf(root));
    assert PosixAt(fs, Render(RootOf(root), []), true);
  }

  /** What realpath looks at first is the root with its slash. */
  lemma FileCompsFirst(file: string, root: string)
    requires IsPathBelow(NormPath(file), RootOf(root))
    ensures FileComps(file, root) != [] && FileComps(file, root)[0] == ""
  {
    var f, r := NormPath(file), RootOf(root);
    RootOfHasShape(root);
    hide NormPath, RootOf, Split;
    if r <= f {
      var head, tail := SplitBelow(f, r);
    } else {
      assert f[|r| - 1..] == "";
      SplitPlain("", '/');
    }
  }

  lemma RootRefused(v: View, r: string, comps: seq<string>, n: nat, assumeDir: bool)
    requires RootShape(r) && comps != [] && comps[0] == "" && v.isLink(r) && v.readLink(r).Err?
    ensures RealPathRel(v, r, comps, true, r, n, assumeDir).Err?
  {
    JoinEmpty(r);
  }
}
