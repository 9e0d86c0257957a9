/** The flat reference: a worklist resolver over component lists, as a kernel
    confined to root would walk, with ".." clamped at root. It spends one step
    for each symlink it expands, anywhere; __realpath spends its budget on
    nesting only. */
module FlatWalk {
  import opened Text
  import opened PosixPath
  import opened RootedPath
  import opened FileSystem
  import opened Resolver
  import opened ResolverLaws

  datatype Outcome = Done(cs: seq<string>) | Missing | Unfinished

  function Walk(v: View, root: string, cs: seq<string>, todo: seq<string>, steps: nat, assumeDir: bool): Outcome
    decreases steps, |todo|
  {
    if todo == [] then Done(cs)
    else if !assumeDir && !v.isDir(Render(root, cs)) then Missing
    else
      var d, rest := todo[0], todo[1..];
      if d == "" || d == "." then Walk(v, root, cs, rest, steps, assumeDir)
      else if d == ".." then Walk(v, root, Up(cs), rest, steps, assumeDir)
      else
        var file := Render(root, cs + [d]);
        if v.isLink(file) && v.readLink(file).Ok? then
          if steps == 0 then Unfinished
          else
            var text := v.readLink(file).value;
            Walk(v, root, TargetBase(text, cs), TargetComps(text) + rest, steps - 1, assumeDir)
        else Walk(v, root, cs + [d], rest, steps, assumeDir)
  }

  /** root and its slashless spelling are one real directory, and links can be read. */
  ghost predicate RealRoot(v: View, root: string)
    requires root != ""
  {
    && !v.isLink(root) && v.isDir(root) && v.isDir(Bare(root))
    && (forall p :: v.isLink(p) ==> v.readLink(p).Ok?)
  }

  predicate Plain(cs: seq<string>) {
    Names(cs) && "." !in cs
  }

  /** cs can be reached as the parent of the next component. */
  ghost predicate Standing(v: View, root: string, cs: seq<string>, assumeDir: bool) {
    LinkFree(v, root, cs) && (assumeDir || DirsAbove(v, root, cs))
  }

  /** No symlink that the walk can meet has a target that normalises to ".". */
  ghost predicate NoDotLinks(v: View, root: string, assumeDir: bool) {
    forall cs | cs != [] && Plain(cs) && LinkFree(v, root, Up(cs)) && (assumeDir || DirsAbove(v, root, cs))
                && v.isLink(Render(root, cs)) && v.readLink(Render(root, cs)).Ok?
      :: NormPath(v.readLink(Render(root, cs)).value) != "."
  }

  lemma StandingUp(v: View, root: string, cs: seq<string>, assumeDir: bool)
    requires Standing(v, root, cs, assumeDir)
    ensures Standing(v, root, Up(cs), assumeDir)
    ensures cs != [] && !assumeDir ==> v.isDir(Render(root, Up(cs)))
  {
    LinkFreeUp(v, root, cs);
    if !assumeDir {
      forall i | 0 <= i < |Up(cs)| ensures v.isDir(Render(root, Up(cs)[..i])) {
        assert Up(cs)[..i] == cs[..i];
      }
    }
  }

  lemma DirsSnoc(v: View, root: string, cs: seq<string>, d: string)
    requires DirsAbove(v, root, cs) && v.isDir(Render(root, cs))
    ensures DirsAbove(v, root, cs + [d])
  {
    forall i | 0 <= i < |cs| + 1 ensures v.isDir(Render(root, (cs + [d])[..i])) {
      assert (cs + [d])[..i] == cs[..i];
      if i == |cs| { assert cs[..i] == cs; }
    }
  }

  // ---------------------------------------------------------------------
  // What one resolved piece of worklist means for the walk

  /** Having resolved comps from cs to the answer r, using k expansions, the
      walk with comps in front of any rest is the walk of the rest. */
  ghost predicate Mirrors(v: View, root: string, cs: seq<string>, comps: seq<string>, k: nat, n: nat,
                          r: Result<string, Errno>, out: seq<string>, assumeDir: bool)
  {
    match r
    case Ok(_) =>
      forall rest, m: nat :: Walk(v, root, cs, comps + rest, m, assumeDir) ==
                             if m < k then Unfinished else Walk(v, root, out, rest, m - k, assumeDir)
    case Err(ENOENT) =>
      forall rest, m: nat :: Walk(v, root, cs, comps + rest, m, assumeDir) == if m < k then Unfinished else Missing
    case Err(ELOOP) =>
      forall rest, m: nat | m <= n :: Walk(v, root, cs, comps + rest, m, assumeDir) == Unfinished
    case Err(_) => false
  }

  /** out is where the answer r has led: a plain link-free list that r spells. */
  ghost predicate Landed(v: View, root: string, r: Result<string, Errno>, out: seq<string>, assumeDir: bool)
    requires root != ""
  {
    r.Ok? ==> Plain(out) && Spells(root, r.value, out) && Standing(v, root, out, assumeDir)
  }

  /** Composition: first d with the worklist before, then the others. */
  lemma MirrorsCons(v: View, root: string, cs: seq<string>, comps: seq<string>, k1: nat, mid: seq<string>, k2: nat,
                    n: nat, s: string, r: Result<string, Errno>, out: seq<string>, assumeDir: bool)
    requires comps != []
    requires Mirrors(v, root, cs, [comps[0]], k1, n, Ok(s), mid, assumeDir)
    requires Mirrors(v, root, mid, comps[1..], k2, n, r, out, assumeDir)
    ensures Mirrors(v, root, cs, comps, k1 + k2, n, r, out, assumeDir)
  {
    forall rest: seq<string>, m: nat
      ensures Walk(v, root, cs, comps + rest, m, assumeDir) ==
              if m < k1 then Unfinished else Walk(v, root, mid, comps[1..] + rest, m - k1, assumeDir)
    {
      assert [comps[0]] + (comps[1..] + rest) == comps + rest;
    }
  }

  /** An error in the first component is an error of the whole list. */
  lemma MirrorsFail(v: View, root: string, cs: seq<string>, comps: seq<string>, k: nat, n: nat,
                    r: Result<string, Errno>, out: seq<string>, out': seq<string>, assumeDir: bool)
    requires comps != [] && r.Err?
    requires Mirrors(v, root, cs, [comps[0]], k, n, r, out, assumeDir)
    ensures Mirrors(v, root, cs, comps, k, n, r, out', assumeDir)
  {
    hide Walk;
    forall rest: seq<string> ensures comps + rest == [comps[0]] + (comps[1..] + rest) {
      FirstAndRest(comps, rest);
    }
  }

  lemma FirstAndRest(comps: seq<string>, rest: seq<string>)
    requires comps != []
    ensures comps + rest == [comps[0]] + (comps[1..] + rest)
  {
    HeadTail(comps);
    Assoc([comps[0]], comps[1..], rest);
  }

  lemma WalkCons(v: View, root: string, cs: seq<string>, d: string, mid: seq<string>, n: nat, s: string,
                 assumeDir: bool)
    requires assumeDir || v.isDir(Render(root, cs))
    requires d == "" || d == "." ==> mid == cs
    requires d == ".." ==> mid == Up(cs)
    requires d != "" && d != "." && d != ".." ==>
               mid == cs + [d] && !(v.isLink(Render(root, cs + [d])) && v.readLink(Render(root, cs + [d])).Ok?)
    ensures Mirrors(v, root, cs, [d], 0, n, Ok(s), mid, assumeDir)
  {
    forall rest: seq<string> ensures ([d] + rest)[1..] == rest {
    }
  }

  // ---------------------------------------------------------------------
  // The recursion against the walk

  /** One turn of the loop of __realpath_rel. */
  function RelStep(v: View, start: string, d: string, haveDir: bool, root: string, n: nat,
                   assumeDir: bool): Result<(string, bool), Errno>
  {
    if d == ".." then Ok((if |start| >= |root| then Dirname(start) else start, haveDir))
    else RealPath(v, JoinPath(start, d), root, n, assumeDir)
  }

  lemma RelUnfold(v: View, start: string, comps: seq<string>, haveDir: bool, root: string, n: nat, assumeDir: bool)
    requires comps != [] && (haveDir || assumeDir)
    ensures RealPathRel(v, start, comps, haveDir, root, n, assumeDir) ==
            match RelStep(v, start, comps[0], haveDir, root, n, assumeDir)
            case Err(e) => Err(e)
            case Ok((s, isDir)) => RealPathRel(v, s, comps[1..], isDir, root, n, assumeDir)
  {
  }

  lemma MirrorsNothing(v: View, root: string, cs: seq<string>, n: nat, s: string, assumeDir: bool)
    ensures Mirrors(v, root, cs, [], 0, n, Ok(s), cs, assumeDir)
  {
    forall rest: seq<string> ensures [] + rest == rest {
    }
  }

  lemma MirrorsMissing(v: View, root: string, cs: seq<string>, comps: seq<string>, n: nat, out: seq<string>)
    requires comps != [] && !v.isDir(Render(root, cs))
    ensures Mirrors(v, root, cs, comps, 0, n, Err(ENOENT), out, false)
  {
  }

  lemma TodoNext(root: string, start: string, comps: seq<string>, s: string)
    requires Todo(root, start, comps) && "." !in comps && comps != [] && (comps[0] == "" ==> s == root)
    ensures Todo(root, s, comps[1..]) && "." !in comps[1..]
    ensures '/' !in comps[0] && comps[0] != "." && (comps[0] == "" ==> start == root)
  {
    var rest := comps[1..];
    assert forall i | 0 <= i < |rest| :: rest[i] == comps[i + 1];
    forall i | 0 < i < |rest| && rest[i] == "" ensures rest[i - 1] == "" {
      assert comps[i + 1] == "" && comps[i + 1 - 1] == rest[i - 1];
    }
    if rest != [] && rest[0] == "" {
      assert comps[1] == "" && comps[1 - 1] == "";
    }
  }

  lemma {:induction false} RelWalks(v: View, root: string, start: string, cs: seq<string>, comps: seq<string>,
                                    haveDir: bool, n: nat, assumeDir: bool)
    returns (k: nat, out: seq<string>)
    requires RootShape(root) && RealRoot(v, root) && NoDotLinks(v, root, assumeDir)
    requires Plain(cs) && Spells(root, start, cs) && Standing(v, root, cs, assumeDir)
    requires Todo(root, start, comps) && "." !in comps
    requires !assumeDir ==> haveDir == v.isDir(Render(root, cs))
    ensures var r := RealPathRel(v, start, comps, haveDir, root, n, assumeDir);
            Mirrors(v, root, cs, comps, k, n, r, out, assumeDir) && Landed(v, root, r, out, assumeDir)
    decreases n, 1, |comps|, 0
  {
    hide NormPath, Split, Dirname, JoinPath, Walk, Mirrors;
    k, out := 0, cs;
    if comps == [] {
      MirrorsNothing(v, root, cs, n, start, assumeDir);
    } else if !haveDir && !assumeDir {
      MirrorsMissing(v, root, cs, comps, n, out);
    } else {
      var d := comps[0];
      assert '/' !in d && d != "." && (d == "" ==> start == root) by {
        assert d in comps;
      }
      var k1, mid := StepWalks(v, root, start, cs, d, haveDir, n, assumeDir);
      RelUnfold(v, start, comps, haveDir, root, n, assumeDir);
      match RelStep(v, start, d, haveDir, root, n, assumeDir) {
        case Err(e) =>
          k := k1;
          MirrorsFail(v, root, cs, comps, k1, n, Err(e), mid, out, assumeDir);
        case Ok((s, isDir)) =>
          TodoNext(root, start, comps, s);
          k, out := RestWalks(v, root, start, cs, comps, s, mid, isDir, k1, n, assumeDir);
      }
    }
  }

  lemma {:induction false} RestWalks(v: View, root: string, start: string, cs: seq<string>, comps: seq<string>,
                                     s: string, mid: seq<string>, isDir: bool, k1: nat, n: nat, assumeDir: bool)
    returns (k: nat, out: seq<string>)
    requires RootShape(root) && RealRoot(v, root) && NoDotLinks(v, root, assumeDir) && comps != []
    requires Landed(v, root, Ok(s), mid, assumeDir)
    requires Mirrors(v, root, cs, [comps[0]], k1, n, Ok(s), mid, assumeDir)
    requires Todo(root, s, comps[1..]) && "." !in comps[1..]
    requires !assumeDir ==> isDir == v.isDir(Render(root, mid))
    ensures var r := RealPathRel(v, s, comps[1..], isDir, root, n, assumeDir);
            Mirrors(v, root, cs, comps, k, n, r, out, assumeDir) && Landed(v, root, r, out, assumeDir)
    decreases n, 1, |comps| - 1, 1
  {
    hide Walk, Mirrors, RealPathRel, RealPath, RealRoot, NoDotLinks, Todo, Spells, Standing, Render, RootShape, Names;
    var k2;
    k2, out := RelWalks(v, root, s, mid, comps[1..], isDir, n, assumeDir);
    k := k1 + k2;
    MirrorsCons(v, root, cs, comps, k1, mid, k2, n, s, RealPathRel(v, s, comps[1..], isDir, root, n, assumeDir), out,
        assumeDir);
  }

  lemma {:induction false} StepWalks(v: View, root: string, start: string, cs: seq<string>, d: string, haveDir: bool,
                                     n: nat, assumeDir: bool)
    returns (k: nat, mid: seq<string>)
    requires RootShape(root) && RealRoot(v, root) && NoDotLinks(v, root, assumeDir)
    requires Plain(cs) && Spells(root, start, cs) && Standing(v, root, cs, assumeDir)
    requires '/' !in d && d != "." && (d == "" ==> start == root)
    requires !assumeDir ==> haveDir && v.isDir(Render(root, cs))
    ensures var r := RelStep(v, start, d, haveDir, root, n, assumeDir);
            && Mirrors(v, root, cs, [d], k, n, Where(r), mid, assumeDir)
            && Landed(v, root, Where(r), mid, assumeDir)
            && (r.Ok? && !assumeDir ==> r.value.1 == v.isDir(Render(root, mid)))
            && (r.Ok? && d == "" ==> r.value.0 == root)
    decreases n, 0, 2
  {
    hide NormPath, Split, Walk, Mirrors;
    k, mid := 0, cs;
    assert Render(root, []) == root;
    if d == ".." {
      UpSpells(root, start, cs);
      StandingUp(v, root, cs, assumeDir);
      mid := Up(cs);
      WalkCons(v, root, cs, d, mid, n, if |start| >= |root| then Dirname(start) else start, assumeDir);
    } else if d == "" {
      JoinEmpty(root);
      SpellsRoot(root, cs);
      WalkCons(v, root, cs, d, mid, n, root, assumeDir);
    } else {
      JoinSpells(root, start, cs, d);
      k, mid := PathWalks(v, root, cs, d, n, assumeDir);
    }
  }

  lemma SpellsRoot(root: string, cs: seq<string>)
    requires RootShape(root) && Names(cs) && Spells(root, root, cs)
    ensures cs == []
  {
    if cs != [] { RenderEnds(root, cs); }
  }

  function Where(r: Result<(string, bool), Errno>): Result<string, Errno> {
    match r
    case Ok((s, _)) => Ok(s)
    case Err(e) => Err(e)
  }

  lemma {:induction false} PathWalks(v: View, root: string, cs: seq<string>, d: string, n: nat, assumeDir: bool)
    returns (k: nat, out: seq<string>)
    requires RootShape(root) && RealRoot(v, root) && NoDotLinks(v, root, assumeDir)
    requires Plain(cs + [d]) && Standing(v, root, cs, assumeDir)
    requires assumeDir || v.isDir(Render(root, cs))
    ensures var r := RealPath(v, Render(root, cs + [d]), root, n, assumeDir);
            && Mirrors(v, root, cs, [d], k, n, Where(r), out, assumeDir)
            && Landed(v, root, Where(r), out, assumeDir)
            && (r.Ok? ==> r.value.1 == v.isDir(Render(root, out)))
    decreases n, 0, 1
  {
    var file := Render(root, cs + [d]);
    assert Name(d) && d != "." by {
      assert d == (cs + [d])[|cs|] && d in cs + [d];
    }
    if !v.isLink(file) {
      k, out := 0, cs + [d];
      if !assumeDir { DirsSnoc(v, root, cs, d); }
      LinkFreeSnoc(v, root, cs, d);
      WalkCons(v, root, cs, d, out, n, file, assumeDir);
    } else if n == 0 {
      k, out := 0, cs;
      RenderEnds(root, cs + [d]);
      forall rest: seq<string> ensures ([d] + rest)[1..] == rest {
      }
    } else {
      var text := v.readLink(file).value;
      k, out := TargetWalks(v, root, cs, d, text, n, assumeDir);
      var inner := ResolveTarget(v, file, text, root, n - 1, assumeDir);
      LinkStep(v, root, cs, d, text, k, n, inner, out, assumeDir);
      k := k + 1;
      LinkEnds(v, root, cs, d, n, out, assumeDir);
    }
  }

  /** After the target of a link is resolved, the loop of __realpath stops. */
  lemma LinkEnds(v: View, root: string, cs: seq<string>, d: string, n: nat, out: seq<string>, assumeDir: bool)
    requires RootShape(root) && RealRoot(v, root) && Names(cs + [d]) && n > 0
    requires v.isLink(Render(root, cs + [d]))
    requires var inner := ResolveTarget(v, Render(root, cs + [d]), v.readLink(Render(root, cs + [d])).value, root,
             n - 1, assumeDir);
             Landed(v, root, inner, out, assumeDir)
    ensures var file := Render(root, cs + [d]);
            var inner := ResolveTarget(v, file, v.readLink(file).value, root, n - 1, assumeDir);
            var r := RealPath(v, file, root, n, assumeDir);
            Where(r) == inner && (r.Ok? ==> r.value.1 == v.isDir(Render(root, out)))
  {
    RenderEnds(root, cs + [d]);
    var file := Render(root, cs + [d]);
    var inner := ResolveTarget(v, file, v.readLink(file).value, root, n - 1, assumeDir);
    if inner.Ok? {
      SpelledAlike(v, v, root, inner.value, out);
      SpellsDir(v, root, inner.value, out);
    }
  }

  lemma SpellsDir(v: View, root: string, s: string, cs: seq<string>)
    requires root != "" && RealRoot(v, root) && Spells(root, s, cs)
    ensures v.isDir(s) == v.isDir(Render(root, cs))
  {
    assert Render(root, []) == root;
  }

  /** The walk expands the link d and goes on with its target. */
  lemma LinkStep(v: View, root: string, cs: seq<string>, d: string, text: string, k: nat, n: nat,
                 inner: Result<string, Errno>, out: seq<string>, assumeDir: bool)
    requires n > 0 && d != "" && d != "." && d != ".."
    requires assumeDir || v.isDir(Render(root, cs))
    requires v.isLink(Render(root, cs + [d])) && v.readLink(Render(root, cs + [d])) == Ok(text)
    requires Mirrors(v, root, TargetBase(text, cs), TargetComps(text), k, n - 1, inner, out, assumeDir)
    ensures Mirrors(v, root, cs, [d], k + 1, n, inner, out, assumeDir)
  {
    forall rest: seq<string>, m: nat
      ensures Walk(v, root, cs, [d] + rest, m, assumeDir) ==
              if m == 0 then Unfinished
              else Walk(v, root, TargetBase(text, cs), TargetComps(text) + rest, m - 1, assumeDir)
    {
      assert ([d] + rest)[1..] == rest;
    }
  }

  lemma {:induction false} TargetWalks(v: View, root: string, cs: seq<string>, d: string, text: string, n: nat,
                                       assumeDir: bool)
    returns (k: nat, out: seq<string>)
    requires RootShape(root) && RealRoot(v, root) && NoDotLinks(v, root, assumeDir) && n > 0
    requires Plain(cs + [d]) && Standing(v, root, cs, assumeDir) && (assumeDir || v.isDir(Render(root, cs)))
    requires v.isLink(Render(root, cs + [d])) && v.readLink(Render(root, cs + [d])) == Ok(text)
    ensures var inner := ResolveTarget(v, Render(root, cs + [d]), text, root, n - 1, assumeDir);
            && Mirrors(v, root, TargetBase(text, cs), TargetComps(text), k, n - 1, inner, out, assumeDir)
            && Landed(v, root, inner, out, assumeDir)
    decreases n, 0, 0
  {
    hide NormPath, Split, Dirname, Walk, Mirrors, RealPathRel, RealPath, RealRoot, NoDotLinks, Todo, Spells, Render;
    hide TargetStart, TargetComps, TargetBase;
    TargetSpells(text, root, cs, d);
    TargetStands(v, root, cs, d, text, assumeDir);
    k, out := RelWalks(v, root, TargetStart(text, Render(root, cs + [d]), root), TargetBase(text, cs),
        TargetComps(text), true, n - 1, assumeDir);
  }

  lemma TargetStands(v: View, root: string, cs: seq<string>, d: string, text: string, assumeDir: bool)
    requires root != "" && RealRoot(v, root) && NoDotLinks(v, root, assumeDir)
    requires Plain(cs + [d]) && Standing(v, root, cs, assumeDir) && (assumeDir || v.isDir(Render(root, cs)))
    requires v.isLink(Render(root, cs + [d])) && v.readLink(Render(root, cs + [d])) == Ok(text)
    ensures var base := TargetBase(text, cs);
            && Plain(base) && Standing(v, root, base, assumeDir)
            && (assumeDir || v.isDir(Render(root, base)))
    ensures "." !in TargetComps(text)
  {
    assert Up(cs + [d]) == cs;
    if !assumeDir { DirsSnoc(v, root, cs, d); }
    assert NormPath(text) != ".";
    NoDotInTarget(text);
    assert Render(root, []) == root;
    assert Plain(cs) by {
      assert forall i | 0 <= i < |cs| :: (cs + [d])[i] == cs[i];
    }
  }

  lemma NoDotInTarget(text: string)
    requires NormPath(text) != "."
    ensures "." !in TargetComps(text)
  {
    var cs := SplitNormPath(text);
  }
}
