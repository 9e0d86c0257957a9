/** oe.path.realpath: symlink resolution below a toplevel directory. */
module Resolver {
  import opened Text
  import opened PosixPath
  import opened RootedPath
  import opened FileSystem

  /** The three questions the resolver asks, as answered by a fixed file system. */
  datatype View = View(
    isLink: string -> bool,
    isDir: string -> bool,
    readLink: string -> Result<string, Errno>)

  /** os.path.islink, os.path.isdir and os.readlink on fs. */
  function Direct(fs: FileSystem): View {
    View(p => IsKind(fs.lstat(p), Link), p => IsKind(fs.stat(p), Directory), fs.readlink)
  }

  // ---------------------------------------------------------------------
  // Specification functions: what the two loops compute on a fixed view

  /** __realpath_rel from component list comps on; haveDir as in the loop. */
  function RealPathRel(v: View, start: string, comps: seq<string>, haveDir: bool, root: string, loopCnt: nat,
                       assumeDir: bool)
    : Result<string, Errno>
    decreases loopCnt, 1, |comps|
  {
    if comps == [] then Ok(start)
    else if !haveDir && !assumeDir then Err(ENOENT)
    else if comps[0] == ".." then
      RealPathRel(v, if |start| >= |root| then Dirname(start) else start, comps[1..], haveDir, root, loopCnt, assumeDir)
    else
      match RealPath(v, JoinPath(start, comps[0]), root, loopCnt, assumeDir)
      case Err(e) => Err(e)
      case Ok((s, isDir)) => RealPathRel(v, s, comps[1..], isDir, root, loopCnt, assumeDir)
  }

  /** __realpath */
  function RealPath(v: View, file: string, root: string, loopCnt: nat, assumeDir: bool): Result<(string, bool), Errno>
    decreases loopCnt, 0, 0
  {
    if v.isLink(file) && |file| >= |root| then
      if loopCnt == 0 then Err(ELOOP)
      else
        match v.readLink(file)
        case Err(e) => Err(e)
        case Ok(text) =>
          match ResolveTarget(v, file, text, root, loopCnt - 1, assumeDir)
          case Err(e) => Err(e)
          case Ok(s) => RealPath(v, s, root, loopCnt - 1, assumeDir)
    else Ok((file, v.isDir(file)))
  }

  /** The loop body of __realpath: the link file, with the given text, resolved. */
  function ResolveTarget(v: View, file: string, text: string, root: string, loopCnt: nat,
                         assumeDir: bool): Result<string, Errno>
    decreases loopCnt, 2, 0
  {
    RealPathRel(v, TargetStart(text, file, root), TargetComps(text), true, root, loopCnt, assumeDir)
  }

  /** Where the text of the link file is resolved from: root, or the directory of the link. */
  function TargetStart(text: string, file: string, root: string): string {
    if IsAbs(NormPath(text)) then root else Dirname(file)
  }

  function TargetComps(text: string): seq<string> {
    Split(NormPath(text), '/')
  }

  /** realpath */
  function Resolve(v: View, file: string, root: string, usePhysdir: bool, loopCnt: nat,
                   assumeDir: bool): Result<string, Errno>
  {
    var r := RootOf(root);
    var f := NormPath(file);
    if !IsPathBelow(f, r) then Err(EINVAL)
    else if usePhysdir then RealPathRel(v, r, Split(f[|r| - 1..], '/'), true, r, loopCnt, assumeDir)
    else
      match RealPath(v, f, r, loopCnt, assumeDir)
      case Err(e) => Err(e)
      case Ok((s, _)) => Ok(s)
  }

  // ---------------------------------------------------------------------
  // The code. The two asserts of the source are the two marked asserts here;
  // they hold for every operating system, even one that changes its mind.

  method RealPathRelLoop(os: Os, start0: string, relPath: string, root: string, loopCnt: nat, assumeDir: bool,
                         ghost fs: FileSystem)
    returns (r: Result<string, Errno>)
    requires RootShape(root) && Inside(start0, root)
    modifies os
    ensures r.Ok? ==> Inside(r.value, root)
    ensures os.Fixed(fs) ==> r == RealPathRel(Direct(fs), start0, Split(relPath, '/'), true, root, loopCnt, assumeDir)
    decreases loopCnt, 1
  {
    hide Split, Dirname, JoinPath;
    var start, haveDir := start0, true;
    var comps := Split(relPath, '/');
    SplitParts(relPath, '/');
    for i := 0 to |comps|
      invariant Inside(start, root)
      invariant os.Fixed(fs) ==>
          RealPathRel(Direct(fs), start0, comps, true, root, loopCnt, assumeDir) ==
          RealPathRel(Direct(fs), start, comps[i..], haveDir, root, loopCnt, assumeDir)
    {
      var d := comps[i];
      InsideIsBelow(start, root);
      if !haveDir && !assumeDir {
        return Err(ENOENT);
      }
      if d == ".." {
        if |start| >= |root| {
          DirnameInside(start, root);
          start := Dirname(start);
        }
      } else {
        JoinPathInside(start, d, root);
        InsideIsBelow(JoinPath(start, d), root);
        var next := RealPathLoop(os, JoinPath(start, d), root, loopCnt, assumeDir, fs);
        if next.Err? {
          return Err(next.error);
        }
        start, haveDir := next.value.0, next.value.1;
      }
      InsideIsBelow(start, root);
      assert IsPathBelow(start, root); // path.py:149
    }
    return Ok(start);
  }

  method RealPathLoop(os: Os, file0: string, root: string, loopCnt0: nat, assumeDir: bool, ghost fs: FileSystem)
    returns (r: Result<(string, bool), Errno>)
    requires RootShape(root) && IsPathBelow(file0, root)
    modifies os
    ensures r.Ok? ==> IsPathBelow(r.value.0, root)
    ensures r.Ok? && Inside(file0, root) ==> Inside(r.value.0, root)
    ensures os.Fixed(fs) ==> r == RealPath(Direct(fs), file0, root, loopCnt0, assumeDir)
    decreases loopCnt0, 0
  {
    hide NormPath, Split, Dirname;
    var file, loopCnt: nat := file0, loopCnt0;
    while true
      invariant IsPathBelow(file, root) && (Inside(file0, root) ==> Inside(file, root))
      invariant loopCnt <= loopCnt0
      invariant os.Fixed(fs) ==>
          RealPath(Direct(fs), file0, root, loopCnt0, assumeDir) == RealPath(Direct(fs), file, root, loopCnt, assumeDir)
      decreases loopCnt
    {
      var lst := os.LStat(file);
      if !(IsKind(lst, Link) && |file| >= |root|) {
        break;
      }
      if loopCnt == 0 {
        return Err(ELOOP);
      }
      loopCnt := loopCnt - 1;
      var text := os.ReadLink(file);
      assert os.Fixed(fs) ==> text == fs.readlink(file);
      if text.Err? {
        return Err(text.error);
      }
      var target := NormPath(text.value);
      var tdir;
      if !IsAbs(target) {
        tdir := Dirname(file);
        DirnameInside(file, root);
        InsideIsBelow(tdir, root);
        assert IsPathBelow(tdir, root); // path.py:163
      } else {
        tdir := root;
      }
      var next := RealPathRelLoop(os, tdir, target, root, loopCnt, assumeDir, fs);
      assert os.Fixed(fs) ==> next == ResolveTarget(Direct(fs), file, text.value, root, loopCnt, assumeDir);
      if next.Err? {
        return Err(next.error);
      }
      file := next.value;
      InsideIsBelow(file, root);
    }
    var st := os.Stat(file);
    return Ok((file, IsKind(st, Directory)));
  }

  /** realpath: the answer lies below root whatever the operating system says,
      and on a fixed file system it is the one of Resolve. */
  method RealPathOf(os: Os, file0: string, root0: string, usePhysdir: bool, loopCnt: nat, assumeDir: bool,
                    ghost fs: FileSystem)
    returns (r: Result<string, Errno>)
    modifies os
    ensures r.Ok? ==> IsPathBelow(r.value, RootOf(root0))
    ensures !IsPathBelow(NormPath(file0), RootOf(root0)) ==> r == Err(EINVAL)
    ensures os.Fixed(fs) ==> r == Resolve(Direct(fs), file0, root0, usePhysdir, loopCnt, assumeDir)
  {
    hide NormPath, Split, RealPathRel, RealPath;
    var root := NormPath(root0);
    var file := NormPath(file0);
    if root == "" || root[|root| - 1] != '/' {
      root := root + "/";
    }
    assert root == RootOf(root0);
    RootOfHasShape(root0);
    if !IsPathBelow(file, root) {
      return Err(EINVAL);
    }
    if usePhysdir {
      r := RealPathRelLoop(os, root, file[|root| - 1..], root, loopCnt, assumeDir, fs);
      if r.Ok? {
        InsideIsBelow(r.value, root);
      }
    } else {
      var next := RealPathLoop(os, file, root, loopCnt, assumeDir, fs);
      r := if next.Ok? then Ok(next.value.0) else Err(next.error);
    }
  }

  // ---------------------------------------------------------------------
  // The budget

  /** A larger budget never changes an answer other than ELOOP. */
  lemma {:induction false} LargerBudgetRel(v: View, start: string, comps: seq<string>, haveDir: bool, root: string,
                                           n: nat, m: nat, assumeDir: bool)
    requires n <= m
    requires RealPathRel(v, start, comps, haveDir, root, n, assumeDir) != Err(ELOOP)
    ensures RealPathRel(v, start, comps, haveDir, root, m, assumeDir) ==
            RealPathRel(v, start, comps, haveDir, root, n, assumeDir)
    decreases n, 1, |comps|
  {
    hide Dirname, JoinPath;
    if comps == [] || (!haveDir && !assumeDir) {
    } else if comps[0] == ".." {
      LargerBudgetRel(v, if |start| >= |root| then Dirname(start) else start, comps[1..], haveDir, root, n, m,
          assumeDir);
    } else {
      LargerBudget(v, JoinPath(start, comps[0]), root, n, m, assumeDir);
      match RealPath(v, JoinPath(start, comps[0]), root, n, assumeDir)
      case Err(e) =>
      case Ok((s, isDir)) => LargerBudgetRel(v, s, comps[1..], isDir, root, n, m, assumeDir);
    }
  }

  lemma {:induction false} LargerBudget(v: View, file: string, root: string, n: nat, m: nat, assumeDir: bool)
    requires n <= m
    requires RealPath(v, file, root, n, assumeDir) != Err(ELOOP)
    ensures RealPath(v, file, root, m, assumeDir) == RealPath(v, file, root, n, assumeDir)
    decreases n, 0, 0
  {
    hide NormPath, Split, Dirname;
    if v.isLink(file) && |file| >= |root| && v.readLink(file).Ok? {
      var target := NormPath(v.readLink(file).value);
      var tdir := if IsAbs(target) then root else Dirname(file);
      LargerBudgetRel(v, tdir, Split(target, '/'), true, root, n - 1, m - 1, assumeDir);
      match ResolveTarget(v, file, v.readLink(file).value, root, n - 1, assumeDir)
      case Err(e) =>
      case Ok(s) => LargerBudget(v, s, root, n - 1, m - 1, assumeDir);
    }
  }

  lemma BudgetMonotone(v: View, file: string, root: string, usePhysdir: bool, n: nat, m: nat, assumeDir: bool)
    requires n <= m
    requires Resolve(v, file, root, usePhysdir, n, assumeDir) != Err(ELOOP)
    ensures Resolve(v, file, root, usePhysdir, m, assumeDir) == Resolve(v, file, root, usePhysdir, n, assumeDir)
  {
    var r := RootOf(root);
    var f := NormPath(file);
    if IsPathBelow(f, r) {
      if usePhysdir {
        LargerBudgetRel(v, r, Split(f[|r| - 1..], '/'), true, r, n, m, assumeDir);
      } else {
        LargerBudget(v, f, r, n, m, assumeDir);
      }
    }
  }
}
