/** What realpath promises about a fixed file system: the answer holds no
    symlink below root, and it is the answer of a flat worklist resolver. */
module ResolverLaws {
  import opened Text
  import opened PosixPath
  import opened RootedPath
  import opened FileSystem
  import opened Resolver

  /** No prefix of cs below root is a symlink. */
  ghost predicate LinkFree(v: View, root: string, cs: seq<string>) {
    forall i | 0 < i <= |cs| :: !v.isLink(Render(root, cs[..i]))
  }

  /** Everything above the last component of cs is a directory. */
  ghost predicate DirsAbove(v: View, root: string, cs: seq<string>) {
    forall i | 0 <= i < |cs| :: v.isDir(Render(root, cs[..i]))
  }

  /** A component list as the loop of __realpath_rel meets it: empty components
      only in front, and only while start is root itself. */
  predicate Todo(root: string, start: string, comps: seq<string>) {
    && (forall i | 0 <= i < |comps| :: '/' !in comps[i])
    && (forall i | 0 < i < |comps| && comps[i] == "" :: comps[i - 1] == "")
    && (comps != [] && comps[0] == "" ==> start == root)
  }

  lemma LinkFreeUp(v: View, root: string, cs: seq<string>)
    requires LinkFree(v, root, cs)
    ensures LinkFree(v, root, Up(cs))
  {
    forall i | 0 < i <= |Up(cs)| ensures !v.isLink(Render(root, Up(cs)[..i])) {
      assert Up(cs)[..i] == cs[..i];
    }
  }

  lemma LinkFreeSnoc(v: View, root: string, cs: seq<string>, d: string)
    requires LinkFree(v, root, cs) && !v.isLink(Render(root, cs + [d]))
    ensures LinkFree(v, root, cs + [d])
  {
    forall i | 0 < i <= |cs| + 1 ensures !v.isLink(Render(root, (cs + [d])[..i])) {
      if i <= |cs| { assert (cs + [d])[..i] == cs[..i]; } else { assert (cs + [d])[..i] == cs + [d]; }
    }
  }

  /** A normalised path split into components is a worklist from root, or from anywhere if it is relative. */
  lemma TargetTodo(text: string, root: string, dir: string)
    ensures Todo(root, if IsAbs(NormPath(text)) then root else dir, TargetComps(text))
  {
    var cs := SplitNormPath(text);
    var k := Lead(text);
    assert forall i | 0 <= i < |cs| :: cs[i] != "";
    if k == 0 && cs != [] {
      JoinEnds(cs);
    }
    assert IsAbs(NormPath(text)) <==> k > 0;
  }

  /** The components a link is resolved from: none for root, else those of its directory. */
  function TargetBase(text: string, cs: seq<string>): seq<string> {
    if IsAbs(NormPath(text)) then [] else cs
  }

  lemma TargetSpells(text: string, root: string, cs: seq<string>, d: string)
    requires RootShape(root) && Names(cs + [d])
    ensures var start := TargetStart(text, Render(root, cs + [d]), root);
            Todo(root, start, TargetComps(text)) && Spells(root, start, TargetBase(text, cs))
    ensures Names(TargetBase(text, cs))
  {
    TargetTodo(text, root, Dirname(Render(root, cs + [d])));
    DirnameSpells(root, cs + [d]);
    assert Up(cs + [d]) == cs;
    assert Names(cs) by {
      assert forall i | 0 <= i < |cs| :: (cs + [d])[i] == cs[i];
    }
    assert Render(root, []) == root;
  }

  // ---------------------------------------------------------------------
  // Two views that agree on every path with a link-free parent resolve alike,
  // and every answer is link-free.

  ghost predicate SameAt(v: View, w: View, p: string) {
    v.isLink(p) == w.isLink(p) && v.isDir(p) == w.isDir(p) && (v.isLink(p) ==> v.readLink(p) == w.readLink(p))
  }

  ghost predicate Agree(v: View, w: View, root: string)
    requires root != ""
  {
    && v.isDir(Bare(root)) == w.isDir(Bare(root))
    && forall cs | Names(cs) && LinkFree(v, root, Up(cs)) :: SameAt(v, w, Render(root, cs))
  }

  lemma RootAlike(v: View, w: View, root: string)
    requires root != "" && !v.isLink(root) && Agree(v, w, root)
    ensures v.isDir(root) == w.isDir(root) && !w.isLink(root) && Spells(root, root, []) && LinkFree(v, root, [])
  {
    RenderNothing(root);
    assert SameAt(v, w, Render(root, []));
  }

  lemma {:induction false} RelAlike(v: View, w: View, root: string, start: string, cs: seq<string>, comps: seq<string>,
                                    haveDir: bool, n: nat, assumeDir: bool)
    returns (out: seq<string>)
    requires RootShape(root) && !v.isLink(root) && Agree(v, w, root)
    requires Names(cs) && Spells(root, start, cs) && LinkFree(v, root, cs)
    requires Todo(root, start, comps)
    ensures var r := RealPathRel(v, start, comps, haveDir, root, n, assumeDir);
            && r == RealPathRel(w, start, comps, haveDir, root, n, assumeDir)
            && (r.Ok? ==> Names(out) && Spells(root, r.value, out) && LinkFree(v, root, out))
    decreases n, 1, |comps|
  {
    hide Dirname, JoinPath, NormPath, Render, LinkFree, SameAt;
    out := cs;
    if comps == [] || (!haveDir && !assumeDir) {
    } else if comps[0] == ".." {
      UpSpells(root, start, cs);
      LinkFreeUp(v, root, cs);
      out := RelAlike(v, w, root,
          if |start| >= |root| then Dirname(start) else start, Up(cs), comps[1..], haveDir, n, assumeDir);
    } else if comps[0] == "" {
      JoinEmpty(root);
      RootAlike(v, w, root);
      out := RelAlike(v, w, root, root, [], comps[1..], v.isDir(root), n, assumeDir);
    } else {
      var d := comps[0];
      JoinSpells(root, start, cs, d);
      var mid := PathAlike(v, w, root, cs, d, n, assumeDir);
      match RealPath(v, JoinPath(start, d), root, n, assumeDir)
      case Err(e) =>
      case Ok((s, isDir)) => out := RelAlike(v, w, root, s, mid, comps[1..], isDir, n, assumeDir);
    }
  }

  lemma {:induction false} PathAlike(v: View, w: View, root: string, cs: seq<string>, d: string, n: nat,
                                     assumeDir: bool)
    returns (out: seq<string>)
    requires RootShape(root) && !v.isLink(root) && Agree(v, w, root)
    requires Names(cs + [d]) && LinkFree(v, root, cs)
    ensures var r := RealPath(v, Render(root, cs + [d]), root, n, assumeDir);
            && r == RealPath(w, Render(root, cs + [d]), root, n, assumeDir)
            && (r.Ok? ==> Names(out) && Spells(root, r.value.0, out) && LinkFree(v, root, out))
    decreases n, 0, 1
  {
    out := cs + [d];
    var file := Render(root, cs + [d]);
    assert Up(cs + [d]) == cs;
    assert SameAt(v, w, file);
    RenderEnds(root, cs + [d]);
    if !v.isLink(file) {
      LinkFreeSnoc(v, root, cs, d);
    } else if n > 0 && v.readLink(file).Ok? {
      var text := v.readLink(file).value;
      out := TargetAlike(v, w, root, cs, d, text, n, assumeDir);
      var inner := ResolveTarget(v, file, text, root, n - 1, assumeDir);
      if inner.Ok? {
        SpelledAlike(v, w, root, inner.value, out);
      }
    }
  }

  lemma {:induction false} TargetAlike(v: View, w: View, root: string, cs: seq<string>, d: string, text: string, n: nat,
                                       assumeDir: bool)
    returns (out: seq<string>)
    requires RootShape(root) && !v.isLink(root) && Agree(v, w, root)
    requires Names(cs + [d]) && LinkFree(v, root, cs) && n > 0
    ensures var inner := ResolveTarget(v, Render(root, cs + [d]), text, root, n - 1, assumeDir);
            && inner == ResolveTarget(w, Render(root, cs + [d]), text, root, n - 1, assumeDir)
            && (inner.Ok? ==> Names(out) && Spells(root, inner.value, out) && LinkFree(v, root, out))
    decreases n, 0, 0
  {
    hide NormPath, Split;
    TargetSpells(text, root, cs, d);
    out := RelAlike(v, w, root, TargetStart(text, Render(root, cs + [d]), root), TargetBase(text, cs),
        TargetComps(text), true, n - 1, assumeDir);
  }

  /** A spelled link-free path stops the while loop of __realpath at once. */
  lemma SpelledAlike(v: View, w: View, root: string, s: string, cs: seq<string>)
    requires RootShape(root) && !v.isLink(root) && Agree(v, w, root)
    requires Names(cs) && Spells(root, s, cs) && LinkFree(v, root, cs)
    ensures !(v.isLink(s) && |s| >= |root|) && !(w.isLink(s) && |s| >= |root|)
    ensures v.isDir(s) == w.isDir(s)
  {
    SpellsLength(root, s, cs);
    LinkFreeUp(v, root, cs);
    assert SameAt(v, w, Render(root, cs));
    if cs == [] {
      assert Render(root, []) == root;
    } else {
      assert cs[..|cs|] == cs;
    }
  }

  // ---------------------------------------------------------------------
  // How it can fail

  /** An error of readlink on a link. */
  ghost predicate Unreadable(v: View, e: Errno) {
    exists p :: v.isLink(p) && v.readLink(p) == Err(e)
  }

  lemma {:induction false} ErrorsRel(v: View, start: string, comps: seq<string>, haveDir: bool, root: string,
                                     loopCnt: nat, assumeDir: bool)
    ensures var r := RealPathRel(v, start, comps, haveDir, root, loopCnt, assumeDir);
            r.Ok? || r.error == ENOENT || r.error == ELOOP || Unreadable(v, r.error)
    decreases loopCnt, 1, |comps|
  {
    hide Dirname, JoinPath, Unreadable;
    if comps != [] && (haveDir || assumeDir) {
      if comps[0] == ".." {
        var up := if |start| >= |root| then Dirname(start) else start;
        ErrorsRel(v, up, comps[1..], haveDir, root, loopCnt, assumeDir);
      } else {
        ErrorsOf(v, JoinPath(start, comps[0]), root, loopCnt, assumeDir);
        var r := RealPath(v, JoinPath(start, comps[0]), root, loopCnt, assumeDir);
        if r.Ok? {
          ErrorsRel(v, r.value.0, comps[1..], r.value.1, root, loopCnt, assumeDir);
        }
      }
    }
  }

  lemma {:induction false} ErrorsOf(v: View, file: string, root: string, loopCnt: nat, assumeDir: bool)
    ensures var r := RealPath(v, file, root, loopCnt, assumeDir);
            r.Ok? || r.error == ENOENT || r.error == ELOOP || Unreadable(v, r.error)
    decreases loopCnt, 0, 0
  {
    hide TargetStart, TargetComps;
    if v.isLink(file) && |file| >= |root| && loopCnt > 0 && v.readLink(file).Ok? {
      var text := v.readLink(file).value;
      ErrorsRel(v, TargetStart(text, file, root), TargetComps(text), true, root, loopCnt - 1, assumeDir);
      var r := ResolveTarget(v, file, text, root, loopCnt - 1, assumeDir);
      if r.Ok? {
        ErrorsOf(v, r.value, root, loopCnt - 1, assumeDir);
      }
    }
  }

  /** realpath fails with EINVAL exactly for files that are not below root,
      unless readlink does on a link. */
  lemma OutsideIff(v: View, file: string, root: string, usePhysdir: bool, loopCnt: nat, assumeDir: bool)
    requires !Unreadable(v, EINVAL)
    ensures Resolve(v, file, root, usePhysdir, loopCnt, assumeDir) == Err(EINVAL) <==>
            !(RootOf(root) <= NormPath(file) + "/")
  {
    hide RootOf, NormPath, RealPathRel, RealPath, Unreadable, Split;
    var r, f := RootOf(root), NormPath(file);
    RootOfHasShape(root);
    if IsPathBelow(f, r) {
      if usePhysdir {
        ErrorsRel(v, r, Split(f[|r| - 1..], '/'), true, r, loopCnt, assumeDir);
      } else {
        ErrorsOf(v, f, r, loopCnt, assumeDir);
      }
    }
  }
}
