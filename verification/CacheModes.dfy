/** The cached and the uncached realpath without use_physdir: they part at a link
    to "." behind a symlink, and below a symlinked root at an absolute link. */
module CacheModes {
  import opened Text
  import opened PosixPath
  import opened RootedPath
  import opened FileSystem
  import opened Resolver
  import opened ResolverLaws
  import opened FlatWalk
  import opened RealPathTheorems
  import opened PathCache
  import opened CacheTheorems
  import opened NamedFiles
  import opened NormLaws

  /** POSIX pathname resolution again: the text of a link does not depend on
      how the directories in front of it are spelled. */
  ghost predicate PosixTexts(fs: FileSystem, r: string) {
    forall cs | Names(cs) && cs != [] && cs[|cs| - 1] != "." ::
      fs.readlink(Render(r, cs)) == fs.readlink(NormPath(Render(r, cs)))
  }

  predicate IsLink(fs: FileSystem, p: string) {
    IsKind(fs.lstat(p), Link)
  }

  predicate IsDotLink(fs: FileSystem, p: string) {
    IsLink(fs, p) && fs.readlink(p).Ok? && NormPath(fs.readlink(p).value) == "."
  }

  /** What readlink does on POSIX: it reads every link, and if it fails on root
      with ELOOP, then so does every lookup below it. */
  ghost predicate PosixReads(fs: FileSystem, r: string) {
    && (forall p | IsLink(fs, p) :: fs.readlink(p).Ok?)
    && (fs.readlink(r) == Err(ELOOP) ==> forall cs | Names(cs) && cs != [] :: !IsLink(fs, Render(r, cs)))
  }

  /** The directory of a name right behind cs, as dirname spells it: root without its slash. */
  function Folder(r: string, cs: seq<string>): string
    requires r != ""
  {
    if cs == [] then Bare(r) else Render(r, cs)
  }

  /** A link that is an alias of its own directory, in a directory that is
      reached through a link itself. */
  ghost predicate DotLinkBehindLink(fs: FileSystem, r: string)
    requires r != ""
  {
    exists cs, d :: Plain(cs + [d]) && IsLink(fs, Folder(r, cs)) && IsDotLink(fs, Render(r, cs + [d]))
  }

  /** A link that starts again at root. */
  predicate IsAbsLink(fs: FileSystem, p: string) {
    IsLink(fs, p) && fs.readlink(p).Ok? && IsAbs(NormPath(fs.readlink(p).value))
  }

  ghost predicate AbsLinkBelow(fs: FileSystem, r: string) {
    exists cs :: Plain(cs) && cs != [] && IsAbsLink(fs, Render(r, cs))
  }

  /** Neither of the two faults: no link to "." behind a link, root included,
      and no absolute link below a root that is a link. */
  ghost predicate Harmless(fs: FileSystem, root: string)
    requires RootOf(root) != ""
  {
    && !DotLinkBehindLink(fs, RootOf(root))
    && (IsLink(fs, NormPath(root)) ==> !AbsLinkBelow(fs, RootOf(root)))
  }

  // ---------------------------------------------------------------------
  // Normalising a path below root drops its "." components

  function Undotted(cs: seq<string>): seq<string> {
    if cs == [] then [] else (if cs[0] == "." then [] else [cs[0]]) + Undotted(cs[1..])
  }

  lemma {:induction false} UndottedPlus(a: seq<string>, b: seq<string>)
    ensures Undotted(a + b) == Undotted(a) + Undotted(b)
  {
    if a == [] {
      PlusEmpty(b);
      PlusEmpty(Undotted(b));
    } else {
      PlusTail(a, b);
      UndottedPlus(a[1..], b);
      Assoc(if a[0] == "." then [] else [a[0]], Undotted(a[1..]), Undotted(b));
    }
  }

  lemma UndottedOne(d: string)
    ensures Undotted([d]) == if d == "." then [] else [d]
  {
    assert [d][1..] == [];
  }

  lemma {:induction false} UndottedPlain(cs: seq<string>)
    requires Names(cs)
    ensures Plain(Undotted(cs)) && Undotted(Undotted(cs)) == Undotted(cs)
  {
    if cs != [] {
      assert Name(cs[0]) && Names(cs[1..]);
      UndottedPlain(cs[1..]);
      if cs[0] == "." {
        PlusEmpty(Undotted(cs[1..]));
      } else {
        PlusTail([cs[0]], Undotted(cs[1..]));
        assert [cs[0]][1..] == [];
        PlusEmpty(Undotted(cs[1..]));
      }
    }
  }

  lemma {:induction false} NormCompsNames(cs: seq<string>, k: nat, acc: seq<string>)
    requires Names(cs)
    ensures NormComps(cs, k, acc) == acc + Undotted(cs)
    decreases |cs|
  {
    if cs == [] {
      PlusEmpty(acc);
    } else {
      assert Name(cs[0]) && Names(cs[1..]);
      NormCompsNames(cs[1..], k, NormStep(cs[0], k, acc));
      if cs[0] == "." {
        PlusEmpty(Undotted(cs[1..]));
      } else {
        Assoc(acc, [cs[0]], Undotted(cs[1..]));
      }
    }
  }

  /** The normalised components of a path below root: those of root, and the
      undotted ones behind it. */
  lemma RenderedComps(r: string, cs: seq<string>)
    requires RootShape(r) && Names(cs)
    ensures Lead(Render(r, cs)) == Lead(r)
    ensures NormComps(Split(Render(r, cs), '/'), Lead(r), []) ==
            NormComps(Split(r[..|r| - 1], '/'), Lead(r), []) + Undotted(cs)
  {
    hide Split, Join, NormComps;
    var b, k := r[..|r| - 1], Lead(r);
    var acc := NormComps(Split(b, '/'), k, []);
    assert b + ['/'] == r;
    RenderedLead(r, cs);
    if cs == [] {
      RenderNothing(r);
      RootComps(b, k);
      PlusEmpty(acc);
    } else {
      RenderedSplit(b, cs);
      NormCompsAppend(Split(b, '/'), cs, k, []);
      NormCompsNames(cs, k, acc);
    }
  }

  lemma RenderedLead(r: string, cs: seq<string>)
    requires RootShape(r) && Names(cs)
    ensures Lead(Render(r, cs)) == Lead(r)
  {
    if cs == [] {
      RenderNothing(r);
    } else {
      RenderEnds(r, cs);
      hide Render;
      var p := Render(r, cs);
      RenderPrefix(r, cs);
      assert forall i | 0 <= i < |r| :: p[i] == r[i];
    }
  }

  lemma RenderPrefix(r: string, cs: seq<string>)
    ensures r <= Render(r, cs)
  {
  }

  lemma RenderedSplit(b: string, cs: seq<string>)
    requires Names(cs) && cs != []
    ensures Split(Render(b + ['/'], cs), '/') == Split(b, '/') + cs
  {
    hide Split, Join;
    SplitAt(b, '/', Join(cs, '/'));
    SplitJoin(cs, '/');
  }

  lemma NormRendered(r: string, cs: seq<string>)
    requires RootShape(r) && Names(cs)
    ensures NormPath(Render(r, cs)) == NormPath(Render(r, Undotted(cs)))
  {
    hide Render, Split, NormComps, Lead;
    UndottedPlain(cs);
    RenderedComps(r, cs);
    RenderedComps(r, Undotted(cs));
    RenderPrefix(r, cs);
    RenderPrefix(r, Undotted(cs));
  }

  // ---------------------------------------------------------------------
  // Two resolvers on settled paths

  /** The two views agree on the path and on every directory on the way below root. */
  ghost predicate Settled(fs: FileSystem, r: string, cs: seq<string>) {
    forall i | 0 < i <= |cs| :: SameAt(Direct(fs), Cached(fs), Render(r, cs[..i]))
  }

  /** What is assumed: a POSIX file system without the two faults. */
  ghost predicate Tame(fs: FileSystem, root: string) {
    && NormPath(root) != "." && PosixBelow(fs, RootOf(root)) && PosixTexts(fs, RootOf(root))
    && RootOf(root) != "" && Harmless(fs, root)
  }

  /** The string s spells cs, and is not a symlinked root with its slash, which the two views see differently. */
  ghost predicate Seen(fs: FileSystem, root: string, s: string, cs: seq<string>) {
    RootOf(root) != "" && Spells(RootOf(root), s, cs) && (s == RootOf(root) ==> !IsLink(fs, NormPath(root)))
  }

  lemma TameRoot(fs: FileSystem, root: string)
    requires Tame(fs, root)
    ensures var r := RootOf(root);
            && RootShape(r) && NormPath(r) == NormPath(root) == Bare(r) && NormPath(Bare(r)) == Bare(r)
            && !IsLink(fs, r) && Settled(fs, r, [])
            && Direct(fs).isDir(r) == Cached(fs).isDir(r) && Direct(fs).isDir(Bare(r)) == Cached(fs).isDir(Bare(r))
            && (IsLink(fs, Bare(r)) ==> r != Bare(r))
  {
    hide NormPath, Render;
    var r := RootOf(root);
    RootOfHasShape(root);
    NormPathOfRoot(root);
    NormPathIdempotent(root);
    RenderNothing(r);
    assert PosixAt(fs, Render(r, []), true);
  }

  lemma SettledUp(fs: FileSystem, r: string, cs: seq<string>)
    requires Settled(fs, r, cs)
    ensures Settled(fs, r, Up(cs)) && (cs != [] ==> SameAt(Direct(fs), Cached(fs), Render(r, cs)))
  {
    hide SameAt, Render;
    assert cs[..|cs|] == cs;
    forall i | 0 < i <= |Up(cs)| ensures SameAt(Direct(fs), Cached(fs), Render(r, Up(cs)[..i])) {
      assert Up(cs)[..i] == cs[..i];
    }
  }

  lemma SettledMore(fs: FileSystem, r: string, cs: seq<string>, d: string)
    requires Settled(fs, r, cs) && SameAt(Direct(fs), Cached(fs), Render(r, cs + [d]))
    ensures Settled(fs, r, cs + [d])
  {
    hide SameAt, Render;
    forall i | 0 < i <= |cs| + 1 ensures SameAt(Direct(fs), Cached(fs), Render(r, (cs + [d])[..i])) {
      if i <= |cs| {
        assert (cs + [d])[..i] == cs[..i];
      } else {
        assert (cs + [d])[..i] == cs + [d];
      }
    }
  }

  /** A path that does not end in "." looks the same to both. */
  lemma NameSame(fs: FileSystem, r: string, cs: seq<string>, d: string)
    requires PosixBelow(fs, r) && Names(cs + [d]) && d != "."
    ensures SameAt(Direct(fs), Cached(fs), Render(r, cs + [d]))
  {
    hide NormPath, Render;
    assert PosixAt(fs, Render(r, cs + [d]), false);
  }

  lemma DirectDot(fs: FileSystem, r: string, cs: seq<string>)
    requires PosixBelow(fs, r) && Names(cs + ["."])
    ensures !IsLink(fs, Render(r, cs + ["."]))
  {
    hide NormPath, Render;
    assert PosixAt(fs, Render(r, cs + ["."]), true);
  }

  /** Nor does the "." that a link to it leaves, without a link in front. */
  lemma DotSame(fs: FileSystem, root: string, cs: seq<string>, d: string)
    requires Tame(fs, root) && Names(cs + [d]) && d != "."
    requires IsDotLink(fs, Render(RootOf(root), cs + [d]))
    ensures Names(cs + ["."]) && SameAt(Direct(fs), Cached(fs), Render(RootOf(root), cs + ["."]))
  {
    hide NormPath, Render, Plain, Tame, Folder;
    var r := RootOf(root);
    TameRoot(fs, root);
    FrontNames(cs, d);
    TamePosix(fs, root, cs + ["."]);
    NormPathDotted(r, cs);
    FolderNormal(fs, root, cs);
    TameNoDotBehind(fs, root, cs, d);
  }

  lemma TamePosix(fs: FileSystem, root: string, cs: seq<string>)
    requires Tame(fs, root) && Names(cs) && cs != [] && cs[|cs| - 1] == "."
    ensures PosixAt(fs, Render(RootOf(root), cs), true)
  {
    hide NormPath, Render;
  }

  /** The directory of a path, normalised. */
  lemma FolderNormal(fs: FileSystem, root: string, cs: seq<string>)
    requires Tame(fs, root) && RootShape(RootOf(root)) && Names(cs)
    ensures NormPath(Render(RootOf(root), cs)) == Folder(RootOf(root), Undotted(cs))
  {
    hide NormPath, Render, Plain;
    TameRoot(fs, root);
    NormRendered(RootOf(root), cs);
    UndottedPlain(cs);
    if Undotted(cs) == [] {
      RenderNothing(RootOf(root));
    } else {
      NamedFile(root, Undotted(cs));
    }
  }

  lemma PlainFront(cs: seq<string>, d: string)
    requires Plain(cs + [d])
    ensures Plain(cs) && d != "." && Names(cs + [d]) && Names(cs) && Names(cs + ["."])
  {
    assert (cs + [d])[|cs|] == d && d in cs + [d];
    FrontNames(cs, d);
    assert forall c | c in cs :: c in cs + [d];
  }

  lemma FrontNames(cs: seq<string>, d: string)
    requires Names(cs + [d])
    ensures Names(cs) && Name(d) && Names(cs + ["."])
  {
    assert (cs + [d])[|cs|] == d;
    forall i | 0 <= i < |cs| ensures Name(cs[i]) {
      assert (cs + [d])[i] == cs[i];
    }
    assert Name(".");
  }

  /** A link is the same link without the "." components on the way to it. */
  lemma UndottedLink(fs: FileSystem, root: string, cs: seq<string>, d: string)
    requires NormPath(root) != "." && PosixBelow(fs, RootOf(root)) && PosixTexts(fs, RootOf(root))
    requires Names(cs + [d]) && d != "." && IsLink(fs, Render(RootOf(root), cs + [d]))
    ensures var r, p := RootOf(root), Undotted(cs);
            && Plain(p + [d]) && IsLink(fs, Render(r, p + [d]))
            && fs.readlink(Render(r, p + [d])) == fs.readlink(Render(r, cs + [d]))
  {
    hide NormPath, Render, Plain;
    var r, p := RootOf(root), Undotted(cs);
    RootOfHasShape(root);
    assert PosixAt(fs, Render(r, cs + [d]), false);
    assert (cs + [d])[|cs + [d]| - 1] == d;
    UndottedPlus(cs, [d]);
    UndottedOne(d);
    UndottedPlain(cs + [d]);
    NormRendered(r, cs + [d]);
    NamedFile(root, p + [d]);
  }

  /** A link to "." behind a link, however its path is spelled. */
  lemma BehindLink(fs: FileSystem, root: string, cs: seq<string>, d: string)
    requires NormPath(root) != "." && PosixBelow(fs, RootOf(root)) && PosixTexts(fs, RootOf(root))
    requires Names(cs + [d]) && d != "." && IsDotLink(fs, Render(RootOf(root), cs + [d]))
    requires RootOf(root) != "" && IsLink(fs, Folder(RootOf(root), Undotted(cs)))
    ensures DotLinkBehindLink(fs, RootOf(root))
  {
    hide NormPath, Render, Plain, PosixBelow, PosixTexts, Folder;
    UndottedLink(fs, root, cs, d);
  }

  lemma TameNoDotBehind(fs: FileSystem, root: string, cs: seq<string>, d: string)
    requires Tame(fs, root) && Names(cs + [d]) && d != "."
    requires IsDotLink(fs, Render(RootOf(root), cs + [d]))
    ensures !IsLink(fs, Folder(RootOf(root), Undotted(cs)))
  {
    hide NormPath, Render, Plain, Folder;
    if IsLink(fs, Folder(RootOf(root), Undotted(cs))) {
      BehindLink(fs, root, cs, d);
      assert false;
    }
  }

  /** What has been resolved, and the target that is still to be: a lone "." only where it is settled. */
  ghost predicate Ready(fs: FileSystem, r: string, cs: seq<string>, comps: seq<string>) {
    "." in comps ==> comps == ["."] && SameAt(Direct(fs), Cached(fs), Render(r, cs + ["."]))
  }

  /** One ".." on a path that both see. */
  lemma UpSeen(fs: FileSystem, root: string, s: string, cs: seq<string>)
    requires Tame(fs, root) && Names(cs) && Seen(fs, root, s, cs)
    ensures Seen(fs, root, if |s| >= |RootOf(root)| then Dirname(s) else s, Up(cs))
  {
    hide Dirname, NormPath, Render, RootOf;
    var r := RootOf(root);
    TameRoot(fs, root);
    UpSpells(r, s, cs);
    SpellsLength(r, s, cs);
    if cs != [] {
      DirnameSpells(r, cs);
      if |cs| > 1 {
        LongerThanRoot(r, Up(cs));
      }
    }
  }

  lemma LongerThanRoot(r: string, cs: seq<string>)
    requires Names(cs) && cs != []
    ensures Render(r, cs) != r
  {
    RenderEnds(r, cs);
  }

  lemma {:induction false} RelSame(fs: FileSystem, root: string, start: string, cs: seq<string>, comps: seq<string>,
                                   haveDir: bool, n: nat, assumeDir: bool)
    returns (out: seq<string>)
    requires Tame(fs, root) && RootShape(RootOf(root))
    requires Names(cs) && Seen(fs, root, start, cs) && Settled(fs, RootOf(root), cs)
    requires Todo(RootOf(root), start, comps) && Ready(fs, RootOf(root), cs, comps)
    ensures var r := RealPathRel(Direct(fs), start, comps, haveDir, RootOf(root), n, assumeDir);
            && r == RealPathRel(Cached(fs), start, comps, haveDir, RootOf(root), n, assumeDir)
            && (r.Ok? ==> Names(out) && Seen(fs, root, r.value, out) && Settled(fs, RootOf(root), out))
    decreases n, 1, |comps|
  {
    hide Dirname, JoinPath, NormPath, Tame, Render, SameAt, Settled, RootOf;
    var r := RootOf(root);
    out := cs;
    if comps == [] || (!haveDir && !assumeDir) {
    } else if comps[0] == ".." {
      UpSeen(fs, root, start, cs);
      SettledUp(fs, r, cs);
      out := RelSame(fs, root, if |start| >= |r| then Dirname(start) else start, Up(cs), comps[1..], haveDir, n,
          assumeDir);
    } else if comps[0] == "" {
      out := RootSame(fs, root, comps, n, assumeDir);
    } else {
      var d := comps[0];
      JoinSpells(r, start, cs, d);
      var mid := PathSame(fs, root, cs, d, n, assumeDir);
      match RealPath(Direct(fs), JoinPath(start, d), r, n, assumeDir)
      case Err(e) =>
      case Ok((s, isDir)) => out := RelSame(fs, root, s, mid, comps[1..], isDir, n, assumeDir);
    }
  }

  /** The empty component in front of an absolute path. */
  lemma {:induction false} RootSame(fs: FileSystem, root: string, comps: seq<string>, n: nat, assumeDir: bool)
    returns (out: seq<string>)
    requires Tame(fs, root) && RootShape(RootOf(root)) && comps != [] && comps[0] == ""
    requires Todo(RootOf(root), RootOf(root), comps) && "." !in comps && !IsLink(fs, NormPath(root))
    ensures var r := RootOf(root);
            forall haveDir | haveDir || assumeDir ::
              var a := RealPathRel(Direct(fs), r, comps, haveDir, r, n, assumeDir);
              && a == RealPathRel(Cached(fs), r, comps, haveDir, r, n, assumeDir)
              && (a.Ok? ==> Names(out) && Seen(fs, root, a.value, out) && Settled(fs, r, out))
    decreases n, 1, |comps|, 0
  {
    hide Dirname, NormPath, Tame, Render, RootOf;
    var r := RootOf(root);
    TameRoot(fs, root);
    JoinEmpty(r);
    RootSpells(r);
    out := RelSame(fs, root, r, [], comps[1..], Direct(fs).isDir(r), n, assumeDir);
  }

  lemma {:induction false} PathSame(fs: FileSystem, root: string, cs: seq<string>, d: string, n: nat, assumeDir: bool)
    returns (out: seq<string>)
    requires Tame(fs, root) && RootShape(RootOf(root))
    requires Names(cs + [d]) && Settled(fs, RootOf(root), cs)
    requires d == "." ==> SameAt(Direct(fs), Cached(fs), Render(RootOf(root), cs + ["."]))
    ensures var file := Render(RootOf(root), cs + [d]);
            var r := RealPath(Direct(fs), file, RootOf(root), n, assumeDir);
            && r == RealPath(Cached(fs), file, RootOf(root), n, assumeDir)
            && (r.Ok? ==> Names(out) && Seen(fs, root, r.value.0, out) && Settled(fs, RootOf(root), out))
    decreases n, 0, 1
  {
    hide Dirname, JoinPath, NormPath, Render, Settled, RootOf, DotLinkBehindLink, PosixTexts, Harmless;
    var r := RootOf(root);
    var file := Render(r, cs + [d]);
    out := cs + [d];
    if d != "." {
      NameSame(fs, r, cs, d);
    }
    RenderEnds(r, cs + [d]);
    if !Direct(fs).isLink(file) {
      SettledMore(fs, r, cs, d);
    } else {
      if d == "." {
        DirectDot(fs, r, cs);
        assert false;
      }
      if n > 0 && fs.readlink(file).Ok? {
        var text := fs.readlink(file).value;
        out := TargetSame(fs, root, cs, d, text, n, assumeDir);
        var inner := ResolveTarget(Direct(fs), file, text, r, n - 1, assumeDir);
        if inner.Ok? {
          out := SpelledSame(fs, root, inner.value, out, n - 1, assumeDir);
        }
      }
    }
  }

  lemma {:induction false} TargetSame(fs: FileSystem, root: string, cs: seq<string>, d: string, text: string, n: nat,
                                      assumeDir: bool)
    returns (out: seq<string>)
    requires Tame(fs, root) && RootShape(RootOf(root)) && n > 0
    requires Names(cs + [d]) && d != "." && Settled(fs, RootOf(root), cs)
    requires IsLink(fs, Render(RootOf(root), cs + [d])) && fs.readlink(Render(RootOf(root), cs + [d])) == Ok(text)
    ensures var file := Render(RootOf(root), cs + [d]);
            var inner := ResolveTarget(Direct(fs), file, text, RootOf(root), n - 1, assumeDir);
            && inner == ResolveTarget(Cached(fs), file, text, RootOf(root), n - 1, assumeDir)
            && (inner.Ok? ==> Names(out) && Seen(fs, root, inner.value, out) && Settled(fs, RootOf(root), out))
    decreases n, 0, 0
  {
    hide NormPath, Split, Tame, Render, Settled, SameAt, RootOf, TargetStart, TargetComps, TargetBase, Todo, Seen;
    var r := RootOf(root);
    TargetSpells(text, r, cs, d);
    TargetReady(fs, root, cs, d, text);
    TargetSeen(fs, root, cs, d, text);
    out := RelSame(fs, root, TargetStart(text, Render(r, cs + [d]), r), TargetBase(text, cs), TargetComps(text), true,
        n - 1, assumeDir);
  }

  lemma TargetReady(fs: FileSystem, root: string, cs: seq<string>, d: string, text: string)
    requires Tame(fs, root) && RootShape(RootOf(root)) && Names(cs + [d]) && d != "." && Settled(fs, RootOf(root), cs)
    requires IsLink(fs, Render(RootOf(root), cs + [d])) && fs.readlink(Render(RootOf(root), cs + [d])) == Ok(text)
    ensures Settled(fs, RootOf(root), TargetBase(text, cs))
            && Ready(fs, RootOf(root), TargetBase(text, cs), TargetComps(text))
  {
    hide NormPath, Split, Tame, Render, SameAt, RootOf;
    TameRoot(fs, root);
    if NormPath(text) == "." {
      SplitPlain(".", '/');
      DotSame(fs, root, cs, d);
    } else {
      NoDotInTarget(text);
    }
  }

  /** Where a target starts, both see the same: below a symlinked root no link is absolute. */
  lemma TargetSeen(fs: FileSystem, root: string, cs: seq<string>, d: string, text: string)
    requires Tame(fs, root) && RootShape(RootOf(root)) && Names(cs + [d]) && d != "."
    requires IsLink(fs, Render(RootOf(root), cs + [d])) && fs.readlink(Render(RootOf(root), cs + [d])) == Ok(text)
    ensures Seen(fs, root, TargetStart(text, Render(RootOf(root), cs + [d]), RootOf(root)), TargetBase(text, cs))
  {
    hide NormPath, Render, RootOf, Dirname, Plain, Split, PosixBelow, PosixTexts, DotLinkBehindLink;
    var r := RootOf(root);
    TargetSpells(text, r, cs, d);
    FrontNames(cs, d);
    if IsAbs(NormPath(text)) {
      UndottedLink(fs, root, cs, d);
      assert IsAbsLink(fs, Render(r, Undotted(cs) + [d]));
    } else {
      DirnameSpells(r, cs + [d]);
      assert Up(cs + [d]) == cs;
      TameRoot(fs, root);
      if cs != [] {
        LongerThanRoot(r, cs);
      }
    }
  }

  /** The while loop goes on with what it has resolved. */
  lemma {:induction false} SpelledSame(fs: FileSystem, root: string, s: string, cs: seq<string>, n: nat,
                                       assumeDir: bool)
    returns (out: seq<string>)
    requires Tame(fs, root) && RootShape(RootOf(root))
    requires Names(cs) && Seen(fs, root, s, cs) && Settled(fs, RootOf(root), cs)
    ensures var r := RealPath(Direct(fs), s, RootOf(root), n, assumeDir);
            && r == RealPath(Cached(fs), s, RootOf(root), n, assumeDir)
            && (r.Ok? ==> Names(out) && Seen(fs, root, r.value.0, out) && Settled(fs, RootOf(root), out))
    decreases n, 0, 2
  {
    hide Dirname, JoinPath, NormPath, Render, Tame, RootOf;
    var r := RootOf(root);
    SpellsLength(r, s, cs);
    SettledUp(fs, r, cs);
    if cs == [] {
      out := [];
      TameRoot(fs, root);
      RenderNothing(r);
      assert !Direct(fs).isLink(r);
    } else {
      UpSnoc(cs);
      out := PathSame(fs, root, Up(cs), cs[|cs| - 1], n, assumeDir);
    }
  }

  // ---------------------------------------------------------------------
  // Agreement

  /** Without use_physdir, the same answer or error for every named file and every budget. */
  ghost predicate SameWithoutPhysdir(fs: FileSystem, root: string) {
    forall file, n: nat, assumeDir | NamedBelow(file, root) ::
      Resolve(Direct(fs), file, root, false, n, assumeDir) == Resolve(Cached(fs), file, root, false, n, assumeDir)
  }

  /** For any file, whatever links there are on the way. */
  lemma CachedAgreesBehindLinks(fs: FileSystem, file: string, root: string, n: nat, assumeDir: bool)
    requires Tame(fs, root) && NamedBelow(file, root)
    ensures Resolve(Direct(fs), file, root, false, n, assumeDir) == Resolve(Cached(fs), file, root, false, n, assumeDir)
  {
    hide NormPath, RealPath, Render, RootOf, Tame, PosixTexts, PosixBelow, Plain;
    var r := RootOf(root);
    TameRoot(fs, root);
    NormPathIdempotent(file);
    if IsPathBelow(NormPath(file), r) {
      var cs :| Plain(cs) && Spells(r, NormPath(file), cs);
      PlainNames(cs);
      PlainSettled(fs, root, cs);
      var out := SpelledSame(fs, root, NormPath(file), cs, n, assumeDir);
    }
  }

  lemma PlainNames(cs: seq<string>)
    requires Plain(cs)
    ensures Names(cs)
  {
  }

  lemma {:induction false} PlainSettled(fs: FileSystem, root: string, cs: seq<string>)
    requires Tame(fs, root) && Plain(cs)
    ensures Settled(fs, RootOf(root), cs)
  {
    hide NormPath, Render, RootOf, Settled;
    TameRoot(fs, root);
    if cs != [] {
      UpSnoc(cs);
      var up, d := Up(cs), cs[|cs| - 1];
      assert d in cs && Plain(up);
      PlainSettled(fs, root, up);
      NameSame(fs, RootOf(root), up, d);
      SettledMore(fs, RootOf(root), up, d);
    }
  }

  /** On a link to "." behind a link they part: the uncached version keeps the
      ".", and the cached one sees through it to the link and fails to read that. */
  lemma DotBehindLinkDiffers(fs: FileSystem, root: string, cs: seq<string>, d: string, n: nat, assumeDir: bool)
    requires NormPath(root) != "." && PosixBelow(fs, RootOf(root)) && n > 0 && RootOf(root) != ""
    requires Plain(cs + [d]) && IsLink(fs, Folder(RootOf(root), cs)) && IsDotLink(fs, Render(RootOf(root), cs + [d]))
    ensures var file := Render(RootOf(root), cs + [d]);
            && NamedBelow(file, root) && NormPath(file) == file
            && Resolve(Direct(fs), file, root, false, n, assumeDir) == Ok(Render(RootOf(root), cs + ["."]))
            && Resolve(Cached(fs), file, root, false, n, assumeDir).Err?
  {
    hide NormPath, Render, RootOf, Split, RealPath, Folder, Plain;
    var r := RootOf(root);
    RootOfHasShape(root);
    NamedFile(root, cs + [d]);
    assert Spells(r, Render(r, cs + [d]), cs + [d]);
    PlainFront(cs, d);
    DotTarget(Direct(fs), r, cs, d, n, assumeDir);
    DotTarget(Cached(fs), r, cs, d, n, assumeDir);
    DotSeen(fs, root, cs, d);
    DotResolved(Direct(fs), r, cs, n - 1, assumeDir);
    DotRefused(Cached(fs), r, cs, n - 1, assumeDir);
  }

  /** Both views read the link, and go on with a "." in its directory. */
  lemma DotTarget(v: View, r: string, cs: seq<string>, d: string, n: nat, assumeDir: bool)
    requires RootShape(r) && Names(cs + [d]) && n > 0
    requires v.isLink(Render(r, cs + [d])) && v.readLink(Render(r, cs + [d])).Ok?
    requires NormPath(v.readLink(Render(r, cs + [d])).value) == "."
    ensures var dot := Render(r, cs + ["."]);
            RealPath(v, Render(r, cs + [d]), r, n, assumeDir) ==
            match RealPath(v, dot, r, n - 1, assumeDir)
            case Err(e) => Err(e)
            case Ok((s, _)) => RealPath(v, s, r, n - 1, assumeDir)
  {
    hide NormPath, Render, Dirname;
    var file := Render(r, cs + [d]);
    RenderEnds(r, cs + [d]);
    DirnameSpells(r, cs + [d]);
    FrontNames(cs, d);
    assert Up(cs + [d]) == cs;
    SplitPlain(".", '/');
    JoinSpells(r, Dirname(file), cs, ".");
    LastStep(v, Dirname(file), ".", true, r, n - 1, assumeDir);
  }

  /** The two views of the "." itself. */
  lemma DotSeen(fs: FileSystem, root: string, cs: seq<string>, d: string)
    requires NormPath(root) != "." && PosixBelow(fs, RootOf(root)) && Plain(cs + [d]) && RootOf(root) != ""
    requires IsLink(fs, Folder(RootOf(root), cs)) && IsLink(fs, Render(RootOf(root), cs + [d]))
    ensures var r := RootOf(root);
            var dot, file := Render(r, cs + ["."]), Render(r, cs + [d]);
            && !Direct(fs).isLink(dot) && Cached(fs).isLink(dot) && fs.readlink(dot).Err?
            && Cached(fs).isLink(file)
  {
    hide NormPath, Render, RootOf;
    var r := RootOf(root);
    RootOfHasShape(root);
    PlainFront(cs, d);
    DirectDot(fs, r, cs);
    NameSame(fs, r, cs, d);
    NormPathDotted(r, cs);
    if cs == [] {
      RenderNothing(r);
      NormPathOfRoot(root);
    } else {
      NamedFile(root, cs);
    }
  }

  lemma DotResolved(v: View, r: string, cs: seq<string>, n: nat, assumeDir: bool)
    requires !v.isLink(Render(r, cs + ["."]))
    ensures RealPath(v, Render(r, cs + ["."]), r, n, assumeDir) ==
            Ok((Render(r, cs + ["."]), v.isDir(Render(r, cs + ["."]))))
  {
    hide Render;
  }

  lemma DotRefused(v: View, r: string, cs: seq<string>, n: nat, assumeDir: bool)
    requires RootShape(r) && Names(cs + ["."]) && v.isLink(Render(r, cs + ["."]))
    requires v.readLink(Render(r, cs + ["."])).Err?
    ensures RealPath(v, Render(r, cs + ["."]), r, n, assumeDir).Err?
  {
    RenderEnds(r, cs + ["."]);
    hide Render;
  }

  // ---------------------------------------------------------------------
  // Absolute links below a symlinked root

  /** The uncached version starts again at root; the cached one takes root with
      its slash for a link, and fails to read that. */
  lemma AbsLinkDiffers(fs: FileSystem, root: string, cs: seq<string>, n: nat, assumeDir: bool)
    requires NormPath(root) != "." && PosixBelow(fs, RootOf(root)) && PosixReads(fs, RootOf(root))
    requires IsLink(fs, NormPath(root)) && Plain(cs) && cs != [] && IsAbsLink(fs, Render(RootOf(root), cs))
    ensures var file := Render(RootOf(root), cs);
            && NamedBelow(file, root) && NormPath(file) == file
            && Resolve(Cached(fs), file, root, false, n, assumeDir).Err?
            && (n > 1 && assumeDir ==>
                  Resolve(Direct(fs), file, root, false, n, assumeDir) !=
                      Resolve(Cached(fs), file, root, false, n, assumeDir))
  {
    hide NormPath, Render, RootOf, Split, RealPath, Plain;
    var r := RootOf(root);
    RootOfHasShape(root);
    PlainNames(cs);
    NamedFile(root, cs);
    RootLinkSeen(fs, root);
    RenderEnds(r, cs);
    assert Spells(r, Render(r, cs), cs);
    AbsTargetFails(Cached(fs), r, Render(r, cs), n, assumeDir);
    if assumeDir {
      AnswerOrLoop(Direct(fs), Render(r, cs), r, n);
    }
  }

  /** Where root with its slash is an unreadable link, a link to an absolute path leads nowhere. */
  lemma AbsTargetFails(v: View, r: string, file: string, n: nat, assumeDir: bool)
    requires RootShape(r) && v.isLink(r) && v.readLink(r).Err?
    requires v.isLink(file) && |file| >= |r| && v.readLink(file).Ok? && IsAbs(NormPath(v.readLink(file).value))
    ensures RealPath(v, file, r, n, assumeDir).Err?
    ensures n > 1 ==> RealPath(v, file, r, n, assumeDir) == Err(v.readLink(r).error)
  {
    hide NormPath, JoinPath;
    if n > 0 {
      var text := v.readLink(file).value;
      AbsFirst(text);
      JoinEmpty(r);
      assert RealPathRel(v, r, TargetComps(text), true, r, n - 1, assumeDir).Err?;
    }
  }

  lemma AbsFirst(text: string)
    requires IsAbs(NormPath(text))
    ensures TargetComps(text) != [] && TargetComps(text)[0] == ""
  {
    hide NormPath, Split;
    SlashFirst(NormPath(text));
  }

  /** With assume_dir, and links that can be read, the only error is ELOOP. */
  lemma {:induction false} AnswerOrLoopRel(v: View, start: string, comps: seq<string>, haveDir: bool, r: string, n: nat)
    requires forall p | v.isLink(p) :: v.readLink(p).Ok?
    ensures var a := RealPathRel(v, start, comps, haveDir, r, n, true);
            a.Ok? || a == Err(ELOOP)
    decreases n, 1, |comps|
  {
    hide Dirname, JoinPath;
    if comps == [] {
    } else if comps[0] == ".." {
      AnswerOrLoopRel(v, if |start| >= |r| then Dirname(start) else start, comps[1..], haveDir, r, n);
    } else {
      AnswerOrLoop(v, JoinPath(start, comps[0]), r, n);
      match RealPath(v, JoinPath(start, comps[0]), r, n, true)
      case Err(e) =>
      case Ok((s, isDir)) => AnswerOrLoopRel(v, s, comps[1..], isDir, r, n);
    }
  }

  lemma {:induction false} AnswerOrLoop(v: View, file: string, r: string, n: nat)
    requires forall p | v.isLink(p) :: v.readLink(p).Ok?
    ensures var a := RealPath(v, file, r, n, true);
            a.Ok? || a == Err(ELOOP)
    decreases n, 0, 0
  {
    hide NormPath, Split, Dirname;
    if v.isLink(file) && |file| >= |r| && n > 0 {
      var text := v.readLink(file).value;
      AnswerOrLoopRel(v, TargetStart(text, file, r), TargetComps(text), true, r, n - 1);
      match ResolveTarget(v, file, text, r, n - 1, true)
      case Err(e) =>
      case Ok(s) => AnswerOrLoop(v, s, r, n - 1);
    }
  }

  // ---------------------------------------------------------------------
  // The exact condition

  /** Below the root "." there is nothing but itself: a normalised name is not "./name". */
  lemma OnlyDotBelowDot(file: string, root: string)
    requires NormPath(root) == "." && IsPathBelow(NormPath(file), RootOf(root))
    ensures RootOf(root) == "./" && NormPath(file) == "."
  {
    hide NormPath, Split;
    var f := NormPath(file);
    assert "./" <= f + "/";
    if f != "." {
      NoDotInTarget(file);
      NormPathNotEmpty(file);
      DotFirst(f);
      assert false;
    }
  }

  lemma DotFirst(f: string)
    requires "./" <= f + "/" && f != "" && f != "."
    ensures "." in Split(f, '/')
  {
    hide Split;
    assert f[0] == (f + "/")[0] == '.';
    assert |f| == 1 ==> f == ".";
    assert f[1] == (f + "/")[1] == '/';
    assert f == "." + ['/'] + f[2..];
    SplitAt(".", '/', f[2..]);
    SplitPlain(".", '/');
    assert (["."] + Split(f[2..], '/'))[0] == ".";
  }

  /** Without use_physdir the two agree on every named file exactly if root is
      ".", or no link to "." lies behind a link and, with a symlinked root, no
      link below it is absolute. */
  lemma CachedAgreesWithoutPhysdirIff(fs: FileSystem, root: string)
    requires PosixBelow(fs, RootOf(root)) && PosixTexts(fs, RootOf(root)) && RootOf(root) != ""
    requires IsLink(fs, NormPath(root)) ==> PosixReads(fs, RootOf(root))
    ensures SameWithoutPhysdir(fs, root) <==> NormPath(root) == "." || Harmless(fs, root)
  {
    hide NormPath, RootOf, Resolve, PosixBelow, PosixTexts, PosixReads, NamedBelow, IsLink, IsDotLink, IsAbsLink;
    hide Plain, Render, Folder;
    if NormPath(root) == "." {
      forall file, n: nat, assumeDir
        ensures Resolve(Direct(fs), file, root, false, n, assumeDir) ==
                Resolve(Cached(fs), file, root, false, n, assumeDir)
      {
        DotRootSame(fs, file, root, n, assumeDir);
      }
    } else if DotLinkBehindLink(fs, RootOf(root)) {
      var cs, d :| Plain(cs + [d]) && IsLink(fs, Folder(RootOf(root), cs))
          && IsDotLink(fs, Render(RootOf(root), cs + [d]));
      DotBehindLinkDiffers(fs, root, cs, d, 1, true);
    } else if IsLink(fs, NormPath(root)) && AbsLinkBelow(fs, RootOf(root)) {
      var cs :| Plain(cs) && cs != [] && IsAbsLink(fs, Render(RootOf(root), cs));
      AbsLinkDiffers(fs, root, cs, 2, true);
    } else {
      forall file, n: nat, assumeDir | NamedBelow(file, root)
        ensures Resolve(Direct(fs), file, root, false, n, assumeDir) ==
                Resolve(Cached(fs), file, root, false, n, assumeDir)
      {
        CachedAgreesBehindLinks(fs, file, root, n, assumeDir);
      }
    }
  }

  lemma DotRootSame(fs: FileSystem, file: string, root: string, n: nat, assumeDir: bool)
    requires NormPath(root) == "."
    ensures Resolve(Direct(fs), file, root, false, n, assumeDir) == Resolve(Cached(fs), file, root, false, n, assumeDir)
  {
    hide NormPath;
    if IsPathBelow(NormPath(file), RootOf(root)) {
      OnlyDotBelowDot(file, root);
    }
  }
}
