/** The while loop of __realpath: with use_physdir its body runs at most once in
    every call, so that "while" could be read as "if"; without it, it is needed. */
module LoopOnce {
  import opened Text
  import opened PosixPath
  import opened RootedPath
  import opened FileSystem
  import opened Resolver
  import opened ResolverLaws
  import opened FlatWalk
  import opened RealPathTheorems

  // ---------------------------------------------------------------------
  // The resolver with an "if"

  /** As RealPathRel. */
  function RelOnce(v: View, start: string, comps: seq<string>, haveDir: bool, root: string, loopCnt: nat,
                   assumeDir: bool)
    : Result<string, Errno>
    decreases loopCnt, 1, |comps|
  {
    if comps == [] then Ok(start)
    else if !haveDir && !assumeDir then Err(ENOENT)
    else if comps[0] == ".." then
      RelOnce(v, if |start| >= |root| then Dirname(start) else start, comps[1..], haveDir, root, loopCnt, assumeDir)
    else
      match PathOnce(v, JoinPath(start, comps[0]), root, loopCnt, assumeDir)
      case Err(e) => Err(e)
      case Ok((s, isDir)) => RelOnce(v, s, comps[1..], isDir, root, loopCnt, assumeDir)
  }

  /** As RealPath, but a link is followed once: what it leads to is not looked at again. */
  function PathOnce(v: View, file: string, root: string, loopCnt: nat, assumeDir: bool): Result<(string, bool), Errno>
    decreases loopCnt, 0, 0
  {
    if v.isLink(file) && |file| >= |root| then
      if loopCnt == 0 then Err(ELOOP)
      else
        match v.readLink(file)
        case Err(e) => Err(e)
        case Ok(text) =>
          match RelOnce(v, TargetStart(text, file, root), TargetComps(text), true, root, loopCnt - 1, assumeDir)
          case Err(e) => Err(e)
          case Ok(s) => Ok((s, v.isDir(s)))
    else Ok((file, v.isDir(file)))
  }

  function ResolveOnce(v: View, file: string, root: string, usePhysdir: bool, loopCnt: nat, assumeDir: bool)
    : Result<string, Errno>
  {
    var r := RootOf(root);
    var f := NormPath(file);
    if !IsPathBelow(f, r) then Err(EINVAL)
    else if usePhysdir then RelOnce(v, r, Split(f[|r| - 1..], '/'), true, r, loopCnt, assumeDir)
    else
      match PathOnce(v, f, r, loopCnt, assumeDir)
      case Err(e) => Err(e)
      case Ok((s, _)) => Ok(s)
  }

  // ---------------------------------------------------------------------
  // With use_physdir

  /** When the directory of a link is link-free, the loop body of __realpath
      runs once: what it computes stops the loop. */
  lemma LoopRunsOnce(v: View, root: string, cs: seq<string>, d: string, n: nat, assumeDir: bool)
    requires RootShape(root) && !v.isLink(root)
    requires Names(cs + [d]) && LinkFree(v, root, cs)
    requires n > 0 && v.isLink(Render(root, cs + [d])) && v.readLink(Render(root, cs + [d])).Ok?
    ensures var file := Render(root, cs + [d]);
            var once := ResolveTarget(v, file, v.readLink(file).value, root, n - 1, assumeDir);
            && (once.Ok? ==> !(v.isLink(once.value) && |once.value| >= |root|))
            && RealPath(v, file, root, n, assumeDir) ==
               match once case Ok(s) => Ok((s, v.isDir(s))) case Err(e) => Err(e)
  {
    var file := Render(root, cs + [d]);
    var text := v.readLink(file).value;
    RenderEnds(root, cs + [d]);
    var out := TargetAlike(v, v, root, cs, d, text, n, assumeDir);
    var once := ResolveTarget(v, file, text, root, n - 1, assumeDir);
    if once.Ok? {
      SpelledAlike(v, v, root, once.value, out);
    }
  }

  /** Every call that a run makes from a link-free directory is of that kind, and leads to such a one. */
  lemma {:induction false} RelIsOnce(v: View, root: string, start: string, cs: seq<string>, comps: seq<string>,
                                     haveDir: bool, n: nat, assumeDir: bool)
    returns (out: seq<string>)
    requires RootShape(root) && !v.isLink(root)
    requires Names(cs) && Spells(root, start, cs) && LinkFree(v, root, cs) && Todo(root, start, comps)
    ensures var r := RealPathRel(v, start, comps, haveDir, root, n, assumeDir);
            && r == RelOnce(v, start, comps, haveDir, root, n, assumeDir)
            && (r.Ok? ==> Names(out) && Spells(root, r.value, out) && LinkFree(v, root, out))
    decreases n, 1, |comps|
  {
    hide Dirname, JoinPath, NormPath;
    out := cs;
    if comps == [] || (!haveDir && !assumeDir) {
    } else if comps[0] == ".." {
      UpSpells(root, start, cs);
      LinkFreeUp(v, root, cs);
      var up := if |start| >= |root| then Dirname(start) else start;
      out := RelIsOnce(v, root, up, Up(cs), comps[1..], haveDir, n, assumeDir);
    } else if comps[0] == "" {
      JoinEmpty(root);
      RenderNothing(root);
      out := RelIsOnce(v, root, root, [], comps[1..], v.isDir(root), n, assumeDir);
    } else {
      var d := comps[0];
      JoinSpells(root, start, cs, d);
      var mid := PathIsOnce(v, root, cs, d, n, assumeDir);
      match RealPath(v, JoinPath(start, d), root, n, assumeDir)
      case Err(e) =>
      case Ok((s, isDir)) => out := RelIsOnce(v, root, s, mid, comps[1..], isDir, n, assumeDir);
    }
  }

  lemma {:induction false} PathIsOnce(v: View, root: string, cs: seq<string>, d: string, n: nat, assumeDir: bool)
    returns (out: seq<string>)
    requires RootShape(root) && !v.isLink(root)
    requires Names(cs + [d]) && LinkFree(v, root, cs)
    ensures var r := RealPath(v, Render(root, cs + [d]), root, n, assumeDir);
            && r == PathOnce(v, Render(root, cs + [d]), root, n, assumeDir)
            && (r.Ok? ==> Names(out) && Spells(root, r.value.0, out) && LinkFree(v, root, out))
    decreases n, 0, 1
  {
    hide Dirname, NormPath, Split, Render, RealPathRel, RelOnce;
    var file := Render(root, cs + [d]);
    out := cs + [d];
    RenderEnds(root, cs + [d]);
    if !v.isLink(file) {
      LinkFreeSnoc(v, root, cs, d);
    } else if n > 0 && v.readLink(file).Ok? {
      var text := v.readLink(file).value;
      LoopRunsOnce(v, root, cs, d, n, assumeDir);
      TargetSpells(text, root, cs, d);
      LinkFreeBase(v, root, cs, text);
      out := RelIsOnce(v, root, TargetStart(text, file, root), TargetBase(text, cs), TargetComps(text), true, n - 1,
          assumeDir);
    }
  }

  lemma LinkFreeBase(v: View, root: string, cs: seq<string>, text: string)
    requires LinkFree(v, root, cs)
    ensures LinkFree(v, root, TargetBase(text, cs))
  {
  }

  /** With use_physdir "while" may be read as "if" throughout: for every file, budget and assume_dir. */
  lemma WhileIsIf(v: View, file: string, root: string, n: nat, assumeDir: bool)
    requires !v.isLink(RootOf(root))
    ensures Resolve(v, file, root, true, n, assumeDir) == ResolveOnce(v, file, root, true, n, assumeDir)
  {
    hide NormPath, RootOf, Split;
    var r := RootOf(root);
    RootOfHasShape(root);
    if IsPathBelow(NormPath(file), r) {
      FileTodo(file, root);
      RootSpells(r);
      var out := RelIsOnce(v, r, r, [], FileComps(file, root), true, n, assumeDir);
    }
  }

  // ---------------------------------------------------------------------
  // Without use_physdir

  /** What __realpath answers is no link below root. */
  lemma {:induction false} EndsOffLinks(v: View, file: string, root: string, n: nat, assumeDir: bool)
    ensures var r := RealPath(v, file, root, n, assumeDir);
            r.Ok? ==> !(v.isLink(r.value.0) && |r.value.0| >= |root|)
    decreases n
  {
    hide RealPathRel;
    if v.isLink(file) && |file| >= |root| && n > 0 && v.readLink(file).Ok? {
      var inner := ResolveTarget(v, file, v.readLink(file).value, root, n - 1, assumeDir);
      if inner.Ok? {
        EndsOffLinks(v, inner.value, root, n - 1, assumeDir);
      }
    }
  }

  /** Behind a symlinked directory the loop is needed: a link two levels below
      it whose target is ".." leads to that directory, with every budget but zero. */
  lemma WhileIsNeeded(v: View, root: string, cs: seq<string>, d: string, e: string, n: nat, assumeDir: bool)
    requires NormPath(root) != "." && cs != [] && Plain(cs + [d, e]) && n > 0
    requires v.isLink(Render(RootOf(root), cs)) && Targets(v, Render(RootOf(root), cs + [d, e]), "..")
    ensures var file := Render(RootOf(root), cs + [d, e]);
            && NormPath(file) == file && IsPathBelow(file, RootOf(root))
            && ResolveOnce(v, file, root, false, n, assumeDir) == Ok(Render(RootOf(root), cs))
            && Resolve(v, file, root, false, n, assumeDir) != Ok(Render(RootOf(root), cs))
  {
    hide NormPath, RootOf, Render, RealPath, RealPathRel, PathOnce, RelOnce, Targets, Split, Plain;
    var r := RootOf(root);
    RootOfHasShape(root);
    NamedFile(root, cs + [d, e]);
    Behind(cs, d, e);
    FollowsUp(v, r, cs + [d, e], n, assumeDir);
    OnlyOffLinks(v, r, cs, n - 1, assumeDir);
  }

  lemma OnlyOffLinks(v: View, r: string, cs: seq<string>, n: nat, assumeDir: bool)
    requires v.isLink(Render(r, cs))
    ensures var a := RealPath(v, Render(r, cs), r, n, assumeDir);
            a.Ok? ==> a.value.0 != Render(r, cs)
  {
    hide RealPath, Join;
    EndsOffLinks(v, Render(r, cs), r, n, assumeDir);
  }

  /** A link to ".." leads past its own directory. */
  lemma FollowsUp(v: View, r: string, names: seq<string>, n: nat, assumeDir: bool)
    requires RootShape(r) && Names(names) && |names| > 2 && n > 0
    requires Targets(v, Render(r, names), "..")
    ensures var up := Render(r, Up(Up(names)));
            && PathOnce(v, Render(r, names), r, n, assumeDir) == Ok((up, v.isDir(up)))
            && RealPath(v, Render(r, names), r, n, assumeDir) == RealPath(v, up, r, n - 1, assumeDir)
  {
    hide NormPath, Render, Dirname, RelOnce, RealPathRel, Join;
    RenderEnds(r, names);
    RenderEnds(r, Up(names));
    DirnameSpells(r, names);
    DirnameSpells(r, Up(names));
    SplitPlain("..", '/');
    OneUp(v, Render(r, Up(names)), r, n - 1, assumeDir);
  }

  lemma Behind(cs: seq<string>, d: string, e: string)
    requires Plain(cs + [d, e])
    ensures Up(Up(cs + [d, e])) == cs && Names(cs + [d, e])
  {
    assert forall i | 0 <= i < |cs| + 2 :: (cs + [d, e])[i] in cs + [d, e];
  }

  lemma OneUp(v: View, start: string, root: string, n: nat, assumeDir: bool)
    requires |start| >= |root|
    ensures RealPathRel(v, start, [".."], true, root, n, assumeDir) == Ok(Dirname(start))
    ensures RelOnce(v, start, [".."], true, root, n, assumeDir) == Ok(Dirname(start))
  {
    hide Dirname;
    assert [".."][1..] == [];
  }
}
