/** CachedPath: the same resolver over memoised stat, lstat and normpath calls. */
module PathCache {
  import opened Text
  import opened PosixPath
  import opened RootedPath
  import opened FileSystem
  import opened Resolver

  /** islink, isdir and readlink as CachedPath answers them: the first two
      normalise their argument, os.readlink sees it as it is. */
  function Cached(fs: FileSystem): View {
    View(p => IsKind(fs.lstat(NormPath(p)), Link), p => IsKind(fs.stat(NormPath(p)), Directory), fs.readlink)
  }

  /** What a cache holds is what the operating system answers. */
  ghost predicate Told(cache: map<string, Option<Stat>>, answer: string -> Option<Stat>) {
    forall p | p in cache :: cache[p] == answer(p)
  }

  lemma ToldMore(cache: map<string, Option<Stat>>, answer: string -> Option<Stat>, p: string)
    requires Told(cache, answer)
    ensures Told(cache[p := answer(p)], answer)
  {
  }

  /** From one file system to the next no answer has changed that is cached, except for key. */
  ghost predicate Unchanged(cache: map<string, Option<Stat>>, before: string -> Option<Stat>,
                            now: string -> Option<Stat>, key: string)
  {
    forall p | p in cache && p != key :: now(p) == before(p)
  }

  lemma ToldAgain(cache: map<string, Option<Stat>>, before: string -> Option<Stat>, now: string -> Option<Stat>,
                  key: string)
    requires Told(cache, before)
    ensures Told(cache - {key}, now) <==> Unchanged(cache, before, now, key)
  {
    var less := cache - {key};
    assert forall p | p in less :: less[p] == cache[p];
    if Told(less, now) {
      forall p | p in cache && p != key ensures now(p) == before(p) {
        assert p in less;
      }
    }
  }

  class CachedPath {
    const os: Os
    /** The file system the caches are about. */
    ghost var fs: FileSystem

    var statcache: map<string, Option<Stat>>
    var lstatcache: map<string, Option<Stat>>
    var normpathcache: map<string, string>

    /** All cached results are the ones of fs. */
    ghost predicate Fresh()
      reads this
    {
      Told(statcache, fs.stat) && Told(lstatcache, fs.lstat)
    }

    /** From now on nothing changes from under us: the operating system is fs,
        and so is what has been cached. */
    ghost predicate Steady()
      reads this, os
    {
      (forall t | os.clock <= t :: os.world(t) == fs) && Coherent(fs) && Fresh()
    }

    /** Every path with a cached lstat has a cached stat. */
    ghost predicate Valid()
      reads this
    {
      && lstatcache.Keys <= statcache.Keys
      && (forall p | p in normpathcache :: normpathcache[p] == NormPath(p))
    }

    constructor (os: Os, ghost fs: FileSystem)
      ensures Valid() && Fresh() && this.os == os && this.fs == fs
      ensures statcache == map[] && lstatcache == map[]
    {
      this.os := os;
      this.fs := fs;
      statcache, lstatcache, normpathcache := map[], map[], map[];
    }

    method Norm(path: string) returns (newpath: string)
      requires Valid()
      modifies this`normpathcache
      ensures Valid() && newpath == NormPath(path)
    {
      if path in normpathcache {
        return normpathcache[path];
      }
      newpath := NormPath(path);
      normpathcache := normpathcache[path := newpath];
    }

    /** Forget what is known about x, whatever spelling of it is given. The file
        system may have become another one, now, since the caches were filled:
        they are right about it exactly if it differs for no other cached path. */
    method UpdateCache(x: string, ghost now: FileSystem)
      requires Valid()
      modifies this
      ensures Valid() && fs == now
      ensures statcache == old(statcache) - {NormPath(x)}
      ensures lstatcache == old(lstatcache) - {NormPath(x)}
      ensures old(Fresh()) ==>
                (Fresh() <==> Unchanged(old(statcache), old(fs).stat, now.stat, NormPath(x)) &&
                              Unchanged(old(lstatcache), old(fs).lstat, now.lstat, NormPath(x)))
    {
      hide NormPath, Told, Unchanged;
      var key := Norm(x);
      if old(Fresh()) {
        ToldAgain(statcache, fs.stat, now.stat, key);
        ToldAgain(lstatcache, fs.lstat, now.lstat, key);
      }
      if key in statcache {
        statcache := statcache - {key};
      }
      if key in lstatcache {
        lstatcache := lstatcache - {key};
      }
      assert statcache == old(statcache) - {key} && lstatcache == old(lstatcache) - {key};
      fs := now;
    }

    method DoStat(path: string) returns (st: Option<Stat>)
      requires Valid()
      modifies this`statcache, os
      ensures Valid() && path in statcache && statcache[path] == st
      ensures old(statcache.Keys) <= statcache.Keys
      ensures old(Steady()) ==> Steady() && st == fs.stat(path)
    {
      if path in statcache {
        return statcache[path];
      }
      st := os.Stat(path);
      statcache := statcache[path := st];
    }

    method CallLStat(path: string) returns (lst: Option<Stat>)
      requires Valid()
      modifies this, os
      ensures Valid() && fs == old(fs)
      ensures NormPath(path) in lstatcache && lstatcache[NormPath(path)] == lst
      ensures old(Steady()) ==> Steady() && lst == fs.lstat(NormPath(path))
    {
      hide NormPath;
      var key := Norm(path);
      if key in lstatcache {
        return lstatcache[key];
      }
      lst := os.LStat(key);
      assert old(Steady()) ==> lst == fs.lstat(key) && (!IsKind(lst, Link) ==> lst == fs.stat(key));
      hide Coherent, Told;
      if old(Steady()) {
        ToldMore(lstatcache, fs.lstat, key);
        ToldMore(statcache, fs.stat, key);
      }
      if lst.Some? {
        if lst.value.kind != Link {
          statcache := statcache[key := lst];
          lstatcache := lstatcache[key := lst];
        } else {
          var st := DoStat(key);
          if old(Steady()) {
            ToldMore(lstatcache, fs.lstat, key);
          }
          lstatcache := lstatcache[key := lst];
        }
      } else {
        lstatcache := lstatcache[key := None];
        statcache := statcache[key := None];
      }
    }

    /** The final lookup never misses: the key was normalised twice on the way
        in and once here, which is the same because normpath is idempotent. */
    method CallStat(path: string) returns (st: Option<Stat>)
      requires Valid()
      modifies this, os
      ensures Valid() && fs == old(fs)
      ensures NormPath(path) in statcache && statcache[NormPath(path)] == st
      ensures old(Steady()) ==> Steady() && st == fs.stat(NormPath(path))
    {
      hide NormPath;
      var key := Norm(path);
      NormPathIdempotent(path);
      var lst := CallLStat(key);
      return statcache[key];
    }

    method IsFile(path: string) returns (b: bool)
      requires Valid()
      modifies this, os
      ensures Valid() && fs == old(fs)
      ensures old(Steady()) ==> Steady() && b == IsKind(fs.stat(NormPath(path)), Regular)
    {
      var st := CallStat(path);
      b := st.Some? && st.value.kind == Regular;
    }

    method IsDir(path: string) returns (b: bool)
      requires Valid()
      modifies this, os
      ensures Valid() && fs == old(fs)
      ensures old(Steady()) ==> Steady() && b == IsKind(fs.stat(NormPath(path)), Directory)
    {
      var st := CallStat(path);
      b := st.Some? && st.value.kind == Directory;
    }

    method IsLink(path: string) returns (b: bool)
      requires Valid()
      modifies this, os
      ensures Valid() && fs == old(fs)
      ensures old(Steady()) ==> Steady() && b == IsKind(fs.lstat(NormPath(path)), Link)
    {
      var st := CallLStat(path);
      b := st.Some? && st.value.kind == Link;
    }

    method Exists(path: string) returns (b: bool)
      requires Valid()
      modifies this, os
      ensures Valid() && fs == old(fs)
      ensures old(Steady()) ==> Steady() && b == fs.stat(NormPath(path)).Some?
    {
      var st := CallStat(path);
      b := st.Some?;
    }

    method LExists(path: string) returns (b: bool)
      requires Valid()
      modifies this, os
      ensures Valid() && fs == old(fs)
      ensures old(Steady()) ==> Steady() && b == fs.lstat(NormPath(path)).Some?
    {
      var st := CallLStat(path);
      b := st.Some?;
    }

    // -------------------------------------------------------------------
    // realpath, line by line as in oe.path, but with the cached queries

    method RealPathRelLoop(start0: string, relPath: string, root: string, loopCnt: nat, assumeDir: bool)
      returns (r: Result<string, Errno>)
      requires Valid() && RootShape(root) && Inside(start0, root)
      modifies this, os
      ensures Valid() && fs == old(fs)
      ensures r.Ok? ==> Inside(r.value, root)
      ensures old(Steady()) ==> Steady()
      ensures old(Steady()) ==>
                r == RealPathRel(Cached(fs), start0, Split(relPath, '/'), true, root, loopCnt, assumeDir)
      decreases loopCnt, 1
    {
      hide NormPath, Split, Dirname, JoinPath;
      var start, haveDir := start0, true;
      var comps := Split(relPath, '/');
      SplitParts(relPath, '/');
      for i := 0 to |comps|
        invariant Valid() && fs == old(fs) && Inside(start, root)
        invariant old(Steady()) ==> Steady()
        invariant old(Steady()) ==>
            RealPathRel(Cached(fs), start0, comps, true, root, loopCnt, assumeDir) ==
            RealPathRel(Cached(fs), start, comps[i..], haveDir, root, loopCnt, assumeDir)
      {
        var d := comps[i];
        InsideIsBelow(start, root);
        if !haveDir && !assumeDir {
          return Err(ENOENT);
        }
        if d == ".." {
          if |start| >= |root| {
            DirnameInside(start, root);
            start := Dirname(start);
          }
        } else {
          JoinPathInside(start, d, root);
          InsideIsBelow(JoinPath(start, d), root);
          var next := RealPathLoop(JoinPath(start, d), root, loopCnt, assumeDir);
          if next.Err? {
            return Err(next.error);
          }
          start, haveDir := next.value.0, next.value.1;
        }
        InsideIsBelow(start, root);
        assert IsPathBelow(start, root); // cachedpath.py:172
      }
      return Ok(start);
    }

    method RealPathLoop(file0: string, root: string, loopCnt0: nat, assumeDir: bool)
      returns (r: Result<(string, bool), Errno>)
      requires Valid() && RootShape(root) && IsPathBelow(file0, root)
      modifies this, os
      ensures Valid() && fs == old(fs)
      ensures r.Ok? ==> IsPathBelow(r.value.0, root)
      ensures r.Ok? && Inside(file0, root) ==> Inside(r.value.0, root)
      ensures old(Steady()) ==> Steady() && r == RealPath(Cached(fs), file0, root, loopCnt0, assumeDir)
      decreases loopCnt0, 0
    {
      hide NormPath, Split, Dirname, Told, Coherent, RealPathRel;
      var file, loopCnt: nat := file0, loopCnt0;
      while true
        invariant Valid() && fs == old(fs) && IsPathBelow(file, root) && (Inside(file0, root) ==> Inside(file, root))
        invariant loopCnt <= loopCnt0
        invariant old(Steady()) ==> Steady()
        invariant old(Steady()) ==>
            RealPath(Cached(fs), file0, root, loopCnt0, assumeDir) ==
                RealPath(Cached(fs), file, root, loopCnt, assumeDir)
        decreases loopCnt
      {
        var link := IsLink(file);
        if !(link && |file| >= |root|) {
          break;
        }
        if loopCnt == 0 {
          return Err(ELOOP);
        }
        loopCnt := loopCnt - 1;
        var text := os.ReadLink(file);
        assert old(Steady()) ==> text == fs.readlink(file);
        if text.Err? {
          return Err(text.error);
        }
        var target := NormPath(text.value);
        var tdir;
        if !IsAbs(target) {
          tdir := Dirname(file);
          DirnameInside(file, root);
          InsideIsBelow(tdir, root);
          assert IsPathBelow(tdir, root); // cachedpath.py:186
        } else {
          tdir := root;
        }
        var next := RealPathRelLoop(tdir, target, root, loopCnt, assumeDir);
        assert old(Steady()) ==> next == ResolveTarget(Cached(fs), file, text.value, root, loopCnt, assumeDir);
        if next.Err? {
          return Err(next.error);
        }
        file := next.value;
        InsideIsBelow(file, root);
      }
      var isDir := IsDir(file);
      return Ok((file, isDir));
    }

    method RealPathOf(file0: string, root0: string, usePhysdir: bool, loopCnt: nat, assumeDir: bool)
      returns (r: Result<string, Errno>)
      requires Valid()
      modifies this, os
      ensures Valid() && fs == old(fs)
      ensures r.Ok? ==> IsPathBelow(r.value, RootOf(root0))
      ensures !IsPathBelow(NormPath(file0), RootOf(root0)) ==> r == Err(EINVAL)
      ensures old(Steady()) ==> Steady() && r == Resolve(Cached(fs), file0, root0, usePhysdir, loopCnt, assumeDir)
    {
      hide NormPath, Split, RealPathRel, RealPath;
      var root := NormPath(root0);
      var file := NormPath(file0);
      if root == "" || root[|root| - 1] != '/' {
        root := root + "/";
      }
      assert root == RootOf(root0);
      RootOfHasShape(root0);
      if !IsPathBelow(file, root) {
        return Err(EINVAL);
      }
      if usePhysdir {
        r := RealPathRelLoop(root, file[|root| - 1..], root, loopCnt, assumeDir);
        if r.Ok? {
          InsideIsBelow(r.value, root);
        }
      } else {
        var next := RealPathLoop(file, root, loopCnt, assumeDir);
        r := if next.Ok? then Ok(next.value.0) else Err(next.error);
      }
    }
  }
}
