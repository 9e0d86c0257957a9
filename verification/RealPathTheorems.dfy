/** The main results about realpath on a fixed file system. */
module RealPathTheorems {
  import opened Text
  import opened PosixPath
  import opened RootedPath
  import opened FileSystem
  import opened Resolver
  import opened ResolverLaws
  import opened FlatWalk

  /** The components realpath hands to __realpath_rel. */
  function FileComps(file: string, root: string): seq<string>
    requires IsPathBelow(NormPath(file), RootOf(root))
  {
    Split(NormPath(file)[|RootOf(root)| - 1..], '/')
  }

  lemma FileTodo(file: string, root: string)
    requires IsPathBelow(NormPath(file), RootOf(root))
    ensures var comps := FileComps(file, root);
            Todo(RootOf(root), RootOf(root), comps) && "." !in comps
  {
    var f, r := NormPath(file), RootOf(root);
    RootOfHasShape(root);
    hide NormPath, RootOf, Split;
    if r <= f {
      var head, tail := SplitBelow(f, r);
      TargetTodo(file, r, r);
      NoDotInTarget(file);
      TodoTail(r, head, tail);
    } else {
      assert f[|r| - 1..] == "";
      SplitPlain("", '/');
    }
  }

  /** Cutting off a root leaves the components behind it, with an empty one for its slash. */
  lemma SplitBelow(f: string, r: string) returns (head: seq<string>, tail: seq<string>)
    requires r != "" && r[|r| - 1] == '/' && r <= f
    ensures Split(f, '/') == head + tail && Split(f[|r| - 1..], '/') == [""] + tail && f != "."
    ensures tail == Split(f[|r|..], '/')
  {
    hide Split;
    var h, x := r[..|r| - 1], f[|r|..];
    head, tail := Split(h, '/'), Split(x, '/');
    assert f == h + ['/'] + x;
    assert f[|r| - 1..] == "/" + x;
    assert f[|r| - 1] == '/';
    SplitAt(h, '/', x);
    SplitSlash(x);
  }

  /** A tail of a worklist, behind the empty component of root's slash. */
  lemma TodoTail(root: string, head: seq<string>, tail: seq<string>)
    requires Todo(root, root, head + tail) && "." !in head + tail
    ensures Todo(root, root, [""] + tail) && "." !in [""] + tail
  {
    var all := head + tail;
    assert forall i | 0 <= i < |tail| :: tail[i] == all[|head| + i];
    var comps := [""] + tail;
    forall i | 0 < i < |comps| && comps[i] == "" ensures comps[i - 1] == "" {
      if i > 1 {
        assert all[|head| + (i - 1)] == "" && all[|head| + (i - 1) - 1] == tail[i - 2];
      }
    }
  }

  // ---------------------------------------------------------------------
  // No symlink below root is left

  /** With use_physdir, no prefix of the answer below root is a symlink. */
  lemma ResolveLinkFree(v: View, file: string, root: string, n: nat, assumeDir: bool) returns (out: seq<string>)
    requires !v.isLink(RootOf(root))
    ensures var r := Resolve(v, file, root, true, n, assumeDir);
            r.Ok? ==>
              && RootOf(root) != "" && Names(out)
              && Spells(RootOf(root), r.value, out) && LinkFree(v, RootOf(root), out)
  {
    var r := RootOf(root);
    RootOfHasShape(root);
    out := [];
    if IsPathBelow(NormPath(file), r) {
      FileTodo(file, root);
      assert Render(r, []) == r;
      out := RelAlike(v, v, r, r, [], FileComps(file, root), true, n, assumeDir);
    }
  }

  // ---------------------------------------------------------------------
  // The flat resolver gives the same answers

  /** An answer of realpath is the outcome of the walk. */
  ghost predicate SameAnswer(root: string, r: Result<string, Errno>, w: Outcome)
    requires root != ""
  {
    match w
    case Done(out) => r.Ok? && Spells(root, r.value, out)
    case Missing => r == Err(ENOENT)
    case Unfinished => false
  }

  function WalkFile(v: View, file: string, root: string, m: nat, assumeDir: bool): Outcome
    requires IsPathBelow(NormPath(file), RootOf(root))
  {
    Walk(v, RootOf(root), [], FileComps(file, root), m, assumeDir)
  }

  lemma ResolveMirrors(v: View, file: string, root: string, n: nat, assumeDir: bool) returns (k: nat, out: seq<string>)
    requires RootOf(root) != "" && RealRoot(v, RootOf(root)) && NoDotLinks(v, RootOf(root), assumeDir)
    requires IsPathBelow(NormPath(file), RootOf(root))
    ensures var r := Resolve(v, file, root, true, n, assumeDir);
            && Mirrors(v, RootOf(root), [], FileComps(file, root), k, n, r, out, assumeDir)
            && Landed(v, RootOf(root), r, out, assumeDir)
  {
    var r := RootOf(root);
    RootOfHasShape(root);
    FileTodo(file, root);
    assert Render(r, []) == r;
    k, out := RelWalks(v, r, r, [], FileComps(file, root), true, n, assumeDir);
  }

  lemma MirrorsWhole(v: View, root: string, comps: seq<string>, k: nat, n: nat, r: Result<string, Errno>,
                     out: seq<string>, m: nat, assumeDir: bool)
    requires Mirrors(v, root, [], comps, k, n, r, out, assumeDir)
    ensures var w := Walk(v, root, [], comps, m, assumeDir);
            match r
            case Ok(_) => w == if m < k then Unfinished else Done(out)
            case Err(ENOENT) => w == if m < k then Unfinished else Missing
            case Err(ELOOP) => m <= n ==> w == Unfinished
            case Err(_) => false
  {
    assert comps + [] == comps;
  }

  /** If realpath answers, then a walk with enough steps gives that answer. */
  lemma ResolveIsWalk(v: View, file: string, root: string, n: nat, assumeDir: bool) returns (k: nat)
    requires RootOf(root) != "" && RealRoot(v, RootOf(root)) && NoDotLinks(v, RootOf(root), assumeDir)
    requires IsPathBelow(NormPath(file), RootOf(root))
    ensures var r := Resolve(v, file, root, true, n, assumeDir);
            if r == Err(ELOOP) then forall m: nat | m <= n :: WalkFile(v, file, root, m, assumeDir) == Unfinished
            else forall m: nat :: if m < k then WalkFile(v, file, root, m, assumeDir) == Unfinished
                                  else SameAnswer(RootOf(root), r, WalkFile(v, file, root, m, assumeDir))
  {
    var out;
    k, out := ResolveMirrors(v, file, root, n, assumeDir);
    forall m: nat {
      MirrorsWhole(v, RootOf(root), FileComps(file, root), k, n, Resolve(v, file, root, true, n, assumeDir), out, m,
          assumeDir);
    }
  }

  /** If the walk ends within m expansions, then realpath with any budget from m on gives its answer. */
  lemma WalkIsResolve(v: View, file: string, root: string, m: nat, n: nat, assumeDir: bool)
    requires RootOf(root) != "" && RealRoot(v, RootOf(root)) && NoDotLinks(v, RootOf(root), assumeDir)
    requires IsPathBelow(NormPath(file), RootOf(root))
    requires m <= n && WalkFile(v, file, root, m, assumeDir) != Unfinished
    ensures SameAnswer(RootOf(root), Resolve(v, file, root, true, n, assumeDir), WalkFile(v, file, root, m, assumeDir))
  {
    var k := ResolveIsWalk(v, file, root, n, assumeDir);
  }

  // ---------------------------------------------------------------------
  // The condition on link targets is exact

  /** realpath and the walk agree on every file below root and every budget the walk fits in. */
  ghost predicate AgreesWithWalk(v: View, root: string, assumeDir: bool)
    requires RootOf(root) != ""
  {
    forall file, m: nat, n: nat
      | IsPathBelow(NormPath(file), RootOf(root)) && m <= n && WalkFile(v, file, root, m, assumeDir) != Unfinished
      :: SameAnswer(RootOf(root), Resolve(v, file, root, true, n, assumeDir), WalkFile(v, file, root, m, assumeDir))
  }

  /** A path below a root other than "." that consists of plain names is normalised. */
  lemma RenderNormal(root: string, cs: seq<string>)
    requires NormPath(root) != "." && Plain(cs) && cs != []
    ensures var p := Render(RootOf(root), cs);
            NormPath(p) == p && IsPathBelow(p, RootOf(root)) && FileComps(p, root) == [""] + cs
  {
    var k := Lead(root);
    var base := SplitNormPath(root);
    RenderFromBase(root, k, base, cs);
    NormPathFixed(k, base + cs);
    RootOfHasShape(root);
    RenderTail(RootOf(root), cs);
  }

  lemma NamedFile(root: string, cs: seq<string>)
    requires NormPath(root) != "." && Plain(cs) && cs != []
    ensures NormPath(Render(RootOf(root), cs)) == Render(RootOf(root), cs)
    ensures IsPathBelow(Render(RootOf(root), cs), RootOf(root))
  {
    RenderNormal(root, cs);
  }

  lemma RenderTail(r: string, cs: seq<string>)
    requires r != "" && r[|r| - 1] == '/' && Plain(cs) && cs != []
    ensures Split(Render(r, cs)[|r| - 1..], '/') == [""] + cs
    ensures IsPathBelow(Render(r, cs), r)
  {
    var body := Join(cs, '/');
    assert (r + body)[|r| - 1..] == "" + ['/'] + body;
    SplitAt("", '/', body);
    SplitJoin(cs, '/');
  }

  lemma RenderFromBase(root: string, k: nat, base: seq<string>, cs: seq<string>)
    requires k <= 2 && Normal(base, k) && Plain(cs) && cs != [] && (k > 0 || base != [])
    requires NormPath(root) == Slashes(k) + Join(base, '/')
    ensures Normal(base + cs, k)
    ensures Render(RootOf(root), cs) == Slashes(k) + Join(base + cs, '/')
  {
    if base == [] {
      PlusEmpty(cs);
      PlusEmpty(Slashes(k));
    } else {
      JoinEnds(base);
      JoinAppend(base, cs);
      SlashedBase(Slashes(k), Join(base, '/'), Join(cs, '/'));
      BaseNormal(k, base, cs);
    }
  }

  lemma SlashedBase(s: string, base: string, body: string)
    ensures s + base + "/" + body == s + (base + "/" + body)
  {
  }

  lemma BaseNormal(k: nat, base: seq<string>, cs: seq<string>)
    requires Normal(base, k) && Plain(cs)
    ensures Normal(base + cs, k)
  {
    assert forall i | 0 <= i < |cs| :: cs[i] in cs;
  }

  lemma {:induction false} JoinAppend(a: seq<string>, b: seq<string>)
    requires a != [] && b != []
    ensures Join(a + b, '/') == Join(a, '/') + "/" + Join(b, '/')
  {
    if |a| == 1 {
      assert (a + b)[1..] == b;
    } else {
      assert (a + b)[1..] == a[1..] + b;
      JoinAppend(a[1..], b);
    }
  }

  /** Through real directories both resolvers just descend. */
  lemma {:induction false} Descend(v: View, root: string, start: string, pre: seq<string>, names: seq<string>,
                                   rest: seq<string>, haveDir: bool, n: nat, m: nat, assumeDir: bool)
    returns (start': string, haveDir': bool)
    requires RootShape(root) && Plain(pre) && Plain(names) && rest != []
    requires Spells(root, start, pre) && (haveDir || assumeDir)
    requires LinkFree(v, root, pre + names) && (assumeDir || DirsAbove(v, root, pre + names + [rest[0]]))
    ensures Spells(root, start', pre + names) && (haveDir' || assumeDir)
    ensures RealPathRel(v, start, names + rest, haveDir, root, n, assumeDir) ==
            RealPathRel(v, start', rest, haveDir', root, n, assumeDir)
    ensures Walk(v, root, pre, names + rest, m, assumeDir) == Walk(v, root, pre + names, rest, m, assumeDir)
    decreases |names|
  {
    if names == [] {
      start', haveDir' := start, haveDir;
      PlusEmpty(pre);
      PlusEmpty(rest);
    } else {
      var c, more := names[0], names[1..];
      var here := pre + [c];
      PlusTail(names, rest);
      assert here + more == pre + names;
      assert (pre + names)[..|pre| + 1] == here;
      assert (pre + names + [rest[0]])[..|pre|] == pre;
      assert (pre + names + [rest[0]])[..|pre| + 1] == here;
      JoinSpells(root, start, pre, c);
      RenderEnds(root, here);
      assert "." !in names ==> c != "." by { assert c in names; }
      start', haveDir' := Descend(v, root, Render(root, here), here, more, rest, v.isDir(Render(root, here)), n, m,
          assumeDir);
    }
  }

  /** "." and "..", not followed by anything, as targets. */
  predicate Targets(v: View, p: string, target: string) {
    v.isLink(p) && v.readLink(p).Ok? && NormPath(v.readLink(p).value) == target
  }

  /** A relative link to a single component. */
  lemma LinkTo(v: View, r: string, cs: seq<string>, d: string, target: string, n: nat, assumeDir: bool)
    requires RootShape(r) && Names(cs + [d]) && n > 0
    requires Targets(v, Render(r, cs + [d]), target) && (target == "." || target == "..")
    ensures var dir := Dirname(Render(r, cs + [d]));
            && Spells(r, dir, cs) && (cs != [] ==> dir == Render(r, cs))
            && RealPath(v, Render(r, cs + [d]), r, n, assumeDir) ==
               match RealPathRel(v, dir, [target], true, r, n - 1, assumeDir)
               case Err(err) => Err(err)
               case Ok(s) => RealPath(v, s, r, n - 1, assumeDir)
  {
    hide NormPath, Render, Dirname, RealPathRel;
    RenderEnds(r, cs + [d]);
    DirnameSpells(r, cs + [d]);
    assert Up(cs + [d]) == cs;
    SplitPlain(target, '/');
  }

  /** On the path of a link whose target normalises to "." the two part:
      realpath keeps the "." as a component, and a later ".." would only remove that. */
  lemma DotLinkDisagrees(v: View, root: string, cs: seq<string>, assumeDir: bool)
    requires NormPath(root) != "." && RealRoot(v, RootOf(root))
    requires cs != [] && Plain(cs) && LinkFree(v, RootOf(root), Up(cs)) && (assumeDir || DirsAbove(v, RootOf(root), cs))
    requires Targets(v, Render(RootOf(root), cs), ".")
    ensures var file := Render(RootOf(root), cs);
            && NormPath(file) == file && IsPathBelow(file, RootOf(root))
            && WalkFile(v, file, root, 1, assumeDir) == Done(Up(cs))
            && !SameAnswer(RootOf(root), Resolve(v, file, root, true, 1, assumeDir), Done(Up(cs)))
    ensures !AgreesWithWalk(v, root, assumeDir)
  {
    RootOfHasShape(root);
    RenderNormal(root, cs);
    DotLinkParts(v, RootOf(root), cs, assumeDir);
    var file := Render(RootOf(root), cs);
    assert !SameAnswer(RootOf(root), Resolve(v, file, root, true, 1, assumeDir), WalkFile(v, file, root, 1, assumeDir));
  }

  lemma DotLinkParts(v: View, r: string, cs: seq<string>, assumeDir: bool)
    requires RootShape(r) && RealRoot(v, r)
    requires cs != [] && Plain(cs) && LinkFree(v, r, Up(cs)) && (assumeDir || DirsAbove(v, r, cs))
    requires Targets(v, Render(r, cs), ".")
    ensures var w := Walk(v, r, [], [""] + cs, 1, assumeDir);
            w == Done(Up(cs)) && !SameAnswer(r, RealPathRel(v, r, [""] + cs, true, r, 1, assumeDir), w)
  {
    hide NormPath, Split, Walk, Render, RealPath;
    var up, d := Up(cs), cs[|cs| - 1];
    UpSnoc(cs);
    RootSpells(r);
    PlusEmpty(up);
    assert d in cs && Plain(up);
    var start, haveDir := Descend(v, r, r, [], up, [d], true, 1, 1, assumeDir);
    RootStep(v, r, cs, 1, 1, assumeDir);
    assert assumeDir || v.isDir(Render(r, up)) by {
      assert cs[..|up|] == up;
    }
    WalkDrops(v, r, up, d, assumeDir);
    JoinSpells(r, start, up, d);
    KeepsDot(v, r, up, d, assumeDir);
    LastStep(v, start, d, haveDir, r, 1, assumeDir);
  }

  /** The empty component in front of the file's components. */
  lemma RootStep(v: View, r: string, comps: seq<string>, n: nat, m: nat, assumeDir: bool)
    requires RootShape(r) && RealRoot(v, r)
    ensures RealPathRel(v, r, [""] + comps, true, r, n, assumeDir) == RealPathRel(v, r, comps, true, r, n, assumeDir)
    ensures Walk(v, r, [], [""] + comps, m, assumeDir) == Walk(v, r, [], comps, m, assumeDir)
  {
    JoinEmpty(r);
    assert ([""] + comps)[1..] == comps;
    assert Render(r, []) == r;
  }

  lemma WalkDrops(v: View, root: string, up: seq<string>, d: string, assumeDir: bool)
    requires assumeDir || v.isDir(Render(root, up))
    requires Name(d) && d != "."
    requires v.isLink(Render(root, up + [d])) && v.readLink(Render(root, up + [d])).Ok?
    requires NormPath(v.readLink(Render(root, up + [d])).value) == "."
    ensures Walk(v, root, up, [d], 1, assumeDir) == Done(up)
  {
    SplitPlain(".", '/');
    assert ["."] + [d][1..] == ["."];
    assert Walk(v, root, up, ["."], 0, assumeDir) == Done(up);
  }

  lemma KeepsDot(v: View, root: string, up: seq<string>, d: string, assumeDir: bool)
    requires RootShape(root) && Names(up) && Names(up + [d])
    requires Targets(v, Render(root, up + [d]), ".")
    ensures var r := RealPath(v, Render(root, up + [d]), root, 1, assumeDir);
            r.Ok? ==> !Spells(root, r.value.0, up)
  {
    hide RealPath, RealPathRel, NormPath, Dirname, Render;
    LinkTo(v, root, up, d, ".", 1, assumeDir);
    var dir, dotted := Dirname(Render(root, up + [d])), Render(root, up + ["."]);
    JoinSpells(root, dir, up, ".");
    LastStep(v, dir, ".", true, root, 0, assumeDir);
    NoBudget(v, dotted, root, assumeDir);
    RenderSnoc(root, up, ".");
    RenderNothing(root);
  }

  /** Without budget only what is no link is an answer. */
  lemma NoBudget(v: View, p: string, root: string, assumeDir: bool)
    ensures var r := RealPath(v, p, root, 0, assumeDir);
            r == Ok((p, v.isDir(p))) || r == Err(ELOOP)
  {
  }

  /** The harm in it: with the link d to "." and a sibling e that is a link to
      "..", realpath takes d/e for the directory of d and e, because ".." only
      removes the "." that d has left; the walk ends up one directory higher.
      The paths still differ when they are normalised. */
  lemma DotLinkAbsorbs(v: View, root: string, up: seq<string>, d: string, e: string, assumeDir: bool)
    requires NormPath(root) != "." && RealRoot(v, RootOf(root))
    requires up != [] && Plain(up + [d, e]) && LinkFree(v, RootOf(root), up)
    requires assumeDir || DirsAbove(v, RootOf(root), up + [d])
    requires Targets(v, Render(RootOf(root), up + [d]), ".") && Targets(v, Render(RootOf(root), up + [e]), "..")
    // the same directory, spelled with a "." behind it
    requires !v.isLink(Render(RootOf(root), up + ["."])) && (assumeDir || v.isDir(Render(RootOf(root), up + ["."])))
    requires Targets(v, Render(RootOf(root), up + [".", e]), "..")
    ensures var r := RootOf(root);
            var file := Render(r, up + [d, e]);
            && NormPath(file) == file && IsPathBelow(file, r)
            && Resolve(v, file, root, true, 1, assumeDir) == Ok(Render(r, up))
            && WalkFile(v, file, root, 2, assumeDir) == Done(Up(up))
            && NormPath(Render(r, up)) != NormPath(Render(r, Up(up)))
  {
    hide NormPath, Split, Render, RealPath, Walk;
    var r := RootOf(root);
    RootOfHasShape(root);
    RenderNormal(root, up + [d, e]);
    TwoNames(up, d, e);
    RootSpells(r);
    RootStep(v, r, up + [d, e], 1, 2, assumeDir);
    PlusEmpty(up);
    assert up + [d] == up + [[d, e][0]];
    var start, haveDir := Descend(v, r, r, [], up, [d, e], true, 1, 2, assumeDir);
    DotThenUp(v, r, start, haveDir, up, d, e, assumeDir);
    WalkGoesUp(v, r, up, d, e, assumeDir);
    UpDiffers(root, up);
  }

  lemma TwoNames(up: seq<string>, d: string, e: string)
    requires Plain(up + [d, e])
    ensures Plain(up) && Name(d) && d != "." && Name(e) && e != "."
    ensures Names(up + [d]) && Names(up + [e]) && Names(up + ["."]) && Names(up + [".", e])
  {
    var cs := up + [d, e];
    assert cs[|up|] == d && cs[|up| + 1] == e;
    assert d in cs && e in cs;
    forall i | 0 <= i < |up| ensures Name(up[i]) && up[i] != "." {
      assert cs[i] == up[i] && cs[i] in cs;
    }
  }

  lemma NoLink(v: View, p: string, r: string, n: nat, assumeDir: bool)
    requires !v.isLink(p)
    ensures RealPath(v, p, r, n, assumeDir) == Ok((p, v.isDir(p)))
  {
  }

  lemma DotThenUp(v: View, r: string, start: string, haveDir: bool, up: seq<string>, d: string, e: string,
                  assumeDir: bool)
    requires RootShape(r) && up != [] && Plain(up + [d, e]) && LinkFree(v, r, up)
    requires Spells(r, start, up) && (haveDir || assumeDir)
    requires Targets(v, Render(r, up + [d]), ".") && Targets(v, Render(r, up + [".", e]), "..")
    requires !v.isLink(Render(r, up + ["."])) && (assumeDir || v.isDir(Render(r, up + ["."])))
    ensures RealPathRel(v, start, [d, e], haveDir, r, 1, assumeDir) == Ok(Render(r, up))
  {
    hide NormPath, Split, Render, RealPath, Dirname, Targets;
    TwoNames(up, d, e);
    var dot := Render(r, up + ["."]);
    JoinSpells(r, start, up, d);
    // d leaves the dot
    LinkTo(v, r, up, d, ".", 1, assumeDir);
    JoinSpells(r, Dirname(Render(r, up + [d])), up, ".");
    LastStep(v, Dirname(Render(r, up + [d])), ".", true, r, 0, assumeDir);
    NoLink(v, dot, r, 0, assumeDir);
    assert [d, e][1..] == [e];
    assert RealPathRel(v, start, [d, e], haveDir, r, 1, assumeDir) ==
           RealPathRel(v, dot, [e], v.isDir(dot), r, 1, assumeDir);
    // and e takes it away
    assert up + ["."] + [e] == up + [".", e];
    JoinSpells(r, dot, up + ["."], e);
    LastStep(v, dot, e, v.isDir(dot), r, 1, assumeDir);
    LinkTo(v, r, up + ["."], e, "..", 1, assumeDir);
    DotDropped(v, r, up, assumeDir);
    assert up[..|up|] == up;
    NoLink(v, Render(r, up), r, 0, assumeDir);
  }

  lemma DotDropped(v: View, r: string, up: seq<string>, assumeDir: bool)
    requires RootShape(r) && up != [] && Names(up + ["."])
    ensures RealPathRel(v, Render(r, up + ["."]), [".."], true, r, 0, assumeDir) == Ok(Render(r, up))
  {
    hide Render, Dirname;
    var dot := Render(r, up + ["."]);
    RenderEnds(r, up + ["."]);
    DirnameSpells(r, up + ["."]);
    assert Up(up + ["."]) == up;
    assert [".."][1..] == [];
  }

  lemma WalkGoesUp(v: View, r: string, up: seq<string>, d: string, e: string, assumeDir: bool)
    requires Plain(up + [d, e]) && (assumeDir || DirsAbove(v, r, up + [d]))
    requires Targets(v, Render(r, up + [d]), ".") && Targets(v, Render(r, up + [e]), "..")
    ensures Walk(v, r, up, [d, e], 2, assumeDir) == Done(Up(up))
  {
    hide NormPath, Split, Render;
    TwoNames(up, d, e);
    SplitPlain(".", '/');
    SplitPlain("..", '/');
    assert assumeDir || v.isDir(Render(r, up)) by {
      assert (up + [d])[..|up|] == up;
    }
    assert ["."] + [d, e][1..] == [".", e] && [".", e][1..] == [e] && [".."] + [e][1..] == [".."] && [".."][1..] == [];
    assert Walk(v, r, up, [".."], 0, assumeDir) == Done(Up(up));
    assert Walk(v, r, up, [e], 1, assumeDir) == Done(Up(up));
    assert Walk(v, r, up, [".", e], 1, assumeDir) == Done(Up(up));
  }

  lemma UpDiffers(root: string, up: seq<string>)
    requires NormPath(root) != "." && up != [] && Plain(up)
    ensures NormPath(Render(RootOf(root), up)) != NormPath(Render(RootOf(root), Up(up)))
  {
    hide NormPath, Render;
    var r := RootOf(root);
    RenderNormal(root, up);
    UpSnoc(up);
    RenderSnoc(r, Up(up), up[|up| - 1]);
    assert up[|up| - 1] in up;
    if Up(up) != [] {
      assert Plain(Up(up)) by {
        assert forall c | c in Up(up) :: c in up;
      }
      RenderNormal(root, Up(up));
      assert |Render(r, up)| > |Render(r, Up(up))|;
    } else {
      RenderNothing(r);
      RootNorm(root);
      RenderEnds(r, up);
    }
  }

  lemma RootNorm(root: string)
    ensures |NormPath(RootOf(root))| <= |RootOf(root)|
  {
    NormPathOfRoot(root);
    hide NormPath;
  }

  lemma NormPathOfRoot(root: string)
    ensures RootOf(root) != "" && NormPath(RootOf(root)) == NormPath(root)
    ensures Bare(RootOf(root)) == NormPath(root)
  {
    var cs := SplitNormPath(root);
    NormPathIdempotent(root);
    hide NormPath, Lead, Join, Split;
    var n := NormPath(root);
    if cs != [] {
      SlashBehind(n, Lead(root), cs);
      SlashedRoot(root);
      NormPathTail(n, "");
    } else if n == "." {
      DotSlash();
      SlashedRoot(root);
      NormPathTail(".", "");
    } else {
      JoinNothing();
      PlusEmpty(Slashes(Lead(root)));
    }
  }

  /** A root that does not end in a slash gets one. */
  lemma SlashedRoot(root: string)
    requires NormPath(root) != "" && NormPath(root)[|NormPath(root)| - 1] != '/'
    ensures RootOf(root) == NormPath(root) + "/" + "" && Bare(RootOf(root)) == NormPath(root)
  {
    hide NormPath;
  }

  lemma SlashBehind(n: string, k: nat, cs: seq<string>)
    requires k <= 2 && Normal(cs, k) && cs != [] && n == Slashes(k) + Join(cs, '/')
    ensures n != "" && n[|n| - 1] != '/' && Lead(n + "/" + "") == Lead(n)
  {
    JoinEnds(cs);
    assert n[|Slashes(k)|] != '/';
    hide Join;
    PlusEmpty(n + "/");
  }

  lemma DotSlash()
    ensures Lead("./") == Lead(".") == 0 && "." + "/" + "" == "./"
  {
  }

  lemma JoinNothing()
    ensures Join([], '/') == ""
  {
  }

  /** realpath is the walk below root exactly if no link that can be met is an alias of its own directory. */
  lemma AgreesIffNoDotLinks(v: View, root: string, assumeDir: bool)
    requires NormPath(root) != "." && RootOf(root) != "" && RealRoot(v, RootOf(root))
    ensures AgreesWithWalk(v, root, assumeDir) <==> NoDotLinks(v, RootOf(root), assumeDir)
  {
    var r := RootOf(root);
    if NoDotLinks(v, r, assumeDir) {
      forall file, m: nat, n: nat
        | IsPathBelow(NormPath(file), r) && m <= n && WalkFile(v, file, root, m, assumeDir) != Unfinished
        ensures SameAnswer(r, Resolve(v, file, root, true, n, assumeDir), WalkFile(v, file, root, m, assumeDir))
      {
        WalkIsResolve(v, file, root, m, n, assumeDir);
      }
    } else {
      var cs :| cs != [] && Plain(cs) && LinkFree(v, r, Up(cs)) && (assumeDir || DirsAbove(v, r, cs))
                && v.isLink(Render(r, cs)) && v.readLink(Render(r, cs)).Ok?
                && NormPath(v.readLink(Render(r, cs)).value) == ".";
      DotLinkDisagrees(v, root, cs, assumeDir);
    }
  }

  // ---------------------------------------------------------------------
  // Without use_physdir

  /** If no directory on the way to the file is a symlink, and all of them are
      there or assumed to be, use_physdir makes no difference. */
  lemma PhysdirMakesNoDifference(v: View, file: string, root: string, cs: seq<string>, n: nat, assumeDir: bool)
    requires RealRoot(v, RootOf(root)) && NormPath(file) == Render(RootOf(root), cs) && cs != [] && Plain(cs)
    requires LinkFree(v, RootOf(root), Up(cs)) && (assumeDir || DirsAbove(v, RootOf(root), cs))
    ensures Resolve(v, file, root, true, n, assumeDir) == Resolve(v, file, root, false, n, assumeDir)
  {
    hide NormPath, Split, Render, RealPath;
    var r, up, d := RootOf(root), Up(cs), cs[|cs| - 1];
    RootOfHasShape(root);
    RenderTail(r, cs);
    UpSnoc(cs);
    RootSpells(r);
    RootStep(v, r, cs, n, n, assumeDir);
    PlusEmpty(up);
    assert d in cs && Name(d) && Plain(up);
    var start, haveDir := Descend(v, r, r, [], up, [d], true, n, n, assumeDir);
    JoinSpells(r, start, up, d);
    LastStep(v, start, d, haveDir, r, n, assumeDir);
  }

  /** But if one of them is missing, and not assumed, then use_physdir notices
      and its absence does not, without any symlink. */
  lemma PhysdirNeedsDirs(v: View, file: string, root: string, cs: seq<string>, n: nat)
    requires RealRoot(v, RootOf(root)) && NormPath(file) == Render(RootOf(root), cs) && cs != [] && Plain(cs)
    requires LinkFree(v, RootOf(root), cs) && !DirsAbove(v, RootOf(root), cs)
    ensures Resolve(v, file, root, true, n, false) == Err(ENOENT)
    ensures Resolve(v, file, root, false, n, false) == Ok(NormPath(file))
  {
    hide NormPath, Split, Render, RealPath;
    var r := RootOf(root);
    RootOfHasShape(root);
    RenderTail(r, cs);
    RootSpells(r);
    RootStep(v, r, cs, n, n, false);
    var k := FirstMissing(v, r, cs);
    StopsAt(v, r, cs, k, n);
    assert cs[..|cs|] == cs;
    NoLink(v, Render(r, cs), r, n, false);
  }

  /** The first of the directories on the way that is none. */
  lemma FirstMissing(v: View, r: string, cs: seq<string>) returns (k: nat)
    requires r != "" && v.isDir(r) && !DirsAbove(v, r, cs)
    ensures 0 < k < |cs| && !v.isDir(Render(r, cs[..k])) && DirsAbove(v, r, cs[..k])
  {
    hide Render;
    k := 0;
    RenderNothing(r);
    while v.isDir(Render(r, cs[..k]))
      invariant k < |cs| && forall i | 0 <= i < k :: v.isDir(Render(r, cs[..i]))
      decreases |cs| - k
    {
      if k + 1 == |cs| {
        assert false;
      }
      k := k + 1;
    }
    assert cs[..0] == [];
    forall i | 0 <= i < |cs[..k]| ensures v.isDir(Render(r, cs[..k][..i])) {
      assert cs[..k][..i] == cs[..i];
    }
  }

  lemma StopsAt(v: View, r: string, cs: seq<string>, k: nat, n: nat)
    requires RootShape(r) && RealRoot(v, r) && Plain(cs) && LinkFree(v, r, cs)
    requires 0 < k < |cs| && !v.isDir(Render(r, cs[..k])) && DirsAbove(v, r, cs[..k])
    ensures RealPathRel(v, r, cs, true, r, n, false) == Err(ENOENT)
  {
    hide NormPath, Render, RealPath, Walk;
    var up, d, rest := cs[..k - 1], cs[k - 1], cs[k..];
    PlainParts(v, r, cs, k);
    RootSpells(r);
    PlusEmpty(up);
    var start, haveDir := Descend(v, r, r, [], up, [d] + rest, true, n, n, false);
    JoinSpells(r, start, up, d);
    NoLink(v, Render(r, up + [d]), r, n, false);
    PlusTail([d], rest);
    assert [d][1..] == [];
    PlusEmpty(rest);
    NoDirectory(v, start, d, rest, haveDir, r, n);
  }

  /** What is no directory has nothing in it. */
  lemma NoDirectory(v: View, start: string, d: string, rest: seq<string>, haveDir: bool, root: string, n: nat)
    requires rest != [] && haveDir && d != ".."
    requires RealPath(v, JoinPath(start, d), root, n, false) == Ok((JoinPath(start, d), false))
    ensures RealPathRel(v, start, [d] + rest, haveDir, root, n, false) == Err(ENOENT)
  {
    hide RealPath;
    assert ([d] + rest)[1..] == rest;
  }

  lemma PlainParts(v: View, r: string, cs: seq<string>, k: nat)
    requires Plain(cs) && LinkFree(v, r, cs) && 0 < k < |cs| && DirsAbove(v, r, cs[..k])
    ensures var up, d, rest := cs[..k - 1], cs[k - 1], cs[k..];
            && cs == up + ([d] + rest) && cs[..k] == up + [d] && Plain(up) && Name(d) && d != "."
            && LinkFree(v, r, [] + up) && !v.isLink(Render(r, up + [d]))
            && DirsAbove(v, r, [] + up + [([d] + rest)[0]])
  {
    hide Render;
    var up, d := cs[..k - 1], cs[k - 1];
    assert cs == up + ([d] + cs[k..]) && cs[..k] == up + [d] && [] + up == up;
    assert d in cs && forall c | c in up :: c in cs;
    forall i | 0 < i <= |up| ensures !v.isLink(Render(r, up[..i])) {
      assert up[..i] == cs[..i];
    }
  }

  /** So, where directories are no symlinks and what lies below a missing one
      is none either, the two agree exactly if no directory is missing. */
  lemma PhysdirAgreesIff(v: View, file: string, root: string, cs: seq<string>, n: nat, assumeDir: bool)
    requires RealRoot(v, RootOf(root)) && NormPath(file) == Render(RootOf(root), cs) && cs != [] && Plain(cs)
    requires LinkFree(v, RootOf(root), Up(cs))
    requires !DirsAbove(v, RootOf(root), cs) ==> !v.isLink(Render(RootOf(root), cs))
    ensures Resolve(v, file, root, true, n, assumeDir) == Resolve(v, file, root, false, n, assumeDir) <==>
            assumeDir || DirsAbove(v, RootOf(root), cs)
  {
    hide NormPath, Resolve, RootOf, Render;
    if assumeDir || DirsAbove(v, RootOf(root), cs) {
      PhysdirMakesNoDifference(v, file, root, cs, n, assumeDir);
    } else {
      UpSnoc(cs);
      LinkFreeSnoc(v, RootOf(root), Up(cs), cs[|cs| - 1]);
      PhysdirNeedsDirs(v, file, root, cs, n);
    }
  }

  /** Root itself is the exception: with use_physdir the answer has the slash
      that realpath lets root end with, without it the file is returned as it
      is normalised. */
  lemma PhysdirOnRoot(v: View, file: string, root: string, n: nat, assumeDir: bool)
    requires RootOf(root) != "" && RealRoot(v, RootOf(root)) && Spells(RootOf(root), NormPath(file), [])
    ensures Resolve(v, file, root, true, n, assumeDir) == Ok(RootOf(root))
    ensures Resolve(v, file, root, false, n, assumeDir) == Ok(NormPath(file))
  {
    hide NormPath, Split;
    var f, r := NormPath(file), RootOf(root);
    RootOfHasShape(root);
    RootSpells(r);
    JoinEmpty(r);
    SplitPlain("", '/');
    SplitSlash("");
    RootEmpty(v, r, n, assumeDir);
    if f == r {
      assert f[|r| - 1..] == "/" + "";
      RootStep(v, r, [""], n, n, assumeDir);
      assert [""] + [""] == ["", ""];
    } else {
      assert f[|r| - 1..] == "";
    }
    assert !(v.isLink(f) && |f| >= |r|);
  }

  lemma RootEmpty(v: View, r: string, n: nat, assumeDir: bool)
    requires RootShape(r) && !v.isLink(r)
    ensures RealPathRel(v, r, [""], true, r, n, assumeDir) == Ok(r)
  {
    JoinEmpty(r);
    assert [""][1..] == [];
  }

  lemma RootSpells(r: string)
    requires r != ""
    ensures Spells(r, r, [])
  {
    assert Render(r, []) == r;
  }

  lemma LastStep(v: View, start: string, d: string, haveDir: bool, root: string, n: nat, assumeDir: bool)
    requires (haveDir || assumeDir) && d != ".."
    ensures RealPathRel(v, start, [d], haveDir, root, n, assumeDir) ==
            match RealPath(v, JoinPath(start, d), root, n, assumeDir)
            case Ok((s, _)) => Ok(s)
            case Err(e) => Err(e)
  {
    hide RealPath;
    assert [d][1..] == [];
  }
}
