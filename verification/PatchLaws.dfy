/** What holds in every run of a PatchTree: the series file lists the patches
    that are applied, and taking them off gives the tree back. */
module PatchLaws {
  import opened Text
  import opened TextFile
  import opened PosixPath
  import opened Patching

  /** A patch that has been applied, as the series file should remember it. */
  datatype Applied = Applied(name: string, strippath: string, text: string)

  function RecordOf(a: Applied): string {
    Record(a.name, a.strippath)
  }

  function Records(applied: seq<Applied>): seq<string> {
    if applied == [] then [] else Records(applied[..|applied| - 1]) + [RecordOf(applied[|applied| - 1])]
  }

  /** The tree after applying the patches to base, if all of them apply. */
  function Patched(e: Env, base: Tree, applied: seq<Applied>): Option<Tree> {
    if applied == [] then Some(base)
    else
      var a, before := applied[|applied| - 1], Patched(e, base, applied[..|applied| - 1]);
      if before.None? || !e.run(a.text, a.strippath, false, before.value).1 then None
      else Some(e.run(a.text, a.strippath, false, before.value).0)
  }

  /** If the patch applies to this tree, it can be reversed on the result. */
  predicate ReversibleOn(e: Env, text: string, strippath: string, before: Tree) {
    var (after, ok) := e.run(text, strippath, false, before);
    ok ==> e.dry(text, strippath, true, after) && e.run(text, strippath, true, after) == (before, true)
  }

  /** Every applied patch can be reversed where it was applied. */
  predicate Reversible(e: Env, base: Tree, applied: seq<Applied>) {
    applied == [] ||
    (var a, front := applied[|applied| - 1], applied[..|applied| - 1];
     && Reversible(e, base, front)
     && (Patched(e, base, front).Some? ==> ReversibleOn(e, a.text, a.strippath, Patched(e, base, front).value)))
  }

  /** A name and a strip level that survive in the series file. */
  predicate Plain(name: string, strippath: string) {
    && ',' !in name && '\n' !in name && '/' !in name && (name != "" ==> !IsSpace(name[0]))
    && ',' !in strippath && '\n' !in strippath && (strippath != "" ==> !IsSpace(strippath[|strippath| - 1]))
  }

  ghost predicate Sound(e: Env, d: Dir, a: Applied) {
    && Plain(a.name, a.strippath)
    && Stored(e, a.name) in d.store && d.store[Stored(e, a.name)] == a.text
  }

  /** The directory holds base with the patches applied, and remembers them. */
  ghost predicate Holds(e: Env, base: Tree, applied: seq<Applied>, d: Dir) {
    && (d.series.None? ==> applied == [])
    && Content(d.series) == Concat(Records(applied))
    && (forall a | a in applied :: Sound(e, d, a))
    && Patched(e, base, applied) == Some(d.tree) && Reversible(e, base, applied)
  }

  // ---------------------------------------------------------------------
  // The series file

  lemma PatchDirShape(e: Env, x: string)
    requires !IsAbs(x)
    ensures JoinPath(PatchDir(e), x) == PatchDir(e) + "/" + x
  {
    var p := PatchDir(e);
    assert p[|p| - 1] == "patches"[6];
  }

  lemma {:induction false} LStripIs(s: string)
    requires s != "" && !IsSpace(s[0])
    ensures LStrip(s) == s
  {
  }

  lemma RecordStripped(name: string, strippath: string)
    requires Plain(name, strippath)
    ensures Strip(Record(name, strippath)) == name + "," + strippath
  {
    var s := name + "," + strippath;
    assert !IsSpace(',') && IsSpace('\n');
    assert s[|s| - 1] == if strippath == "" then ',' else strippath[|strippath| - 1];
    assert s[0] == if name == "" then ',' else name[0];
    RStripIs(s, "\n");
    LStripIs(s);
  }

  /** The file and the strip level that popping reads from a line of the series file. */
  function ReadRecord(e: Env, line: string): seq<string> {
    Split(JoinPath(PatchDir(e), Strip(line)), ',')
  }

  /** A record is read as the patch it was written for exactly if the patch
      directory has no comma; for plain names. */
  lemma RecordReadIff(e: Env, name: string, strippath: string)
    requires Plain(name, strippath)
    ensures var parts := ReadRecord(e, Record(name, strippath));
            |parts| >= 2 && (parts[0] == Stored(e, name) && parts[1] == strippath <==> ',' !in PatchDir(e))
  {
    RecordStripped(name, strippath);
    var s := name + "," + strippath;
    assert s[0] == if name == "" then ',' else name[0];
    PatchDirShape(e, s);
    var file := Stored(e, name);
    assert JoinPath(PatchDir(e), s) == file + [','] + strippath;
    SplitAt(file, ',', strippath);
    SplitPlain(strippath, ',');
    if ',' !in PatchDir(e) {
      SplitPlain(file, ',');
    } else {
      SplitParts(JoinPath(PatchDir(e), s), ',');
      var parts := ReadRecord(e, Record(name, strippath));
      assert parts[0] in parts;
      var i :| 0 <= i < |PatchDir(e)| && PatchDir(e)[i] == ',';
      assert file[i] == ',';
    }
  }

  lemma RecordLine(name: string, strippath: string)
    requires Plain(name, strippath)
    ensures FullLine(Record(name, strippath))
  {
    var line := Record(name, strippath);
    assert line[..|line| - 1] == name + "," + strippath;
  }

  lemma {:induction false} RecordsLines(e: Env, d: Dir, applied: seq<Applied>)
    requires forall a | a in applied :: Sound(e, d, a)
    ensures |Records(applied)| == |applied|
    ensures forall line | line in Records(applied) :: FullLine(line)
    ensures Lines(Concat(Records(applied))) == Records(applied)
    decreases |applied|
  {
    hide FullLine, Plain;
    if applied != [] {
      var a := applied[|applied| - 1];
      assert Sound(e, d, a);
      RecordsLines(e, d, applied[..|applied| - 1]);
      RecordLine(a.name, a.strippath);
    }
    LinesConcat(Records(applied));
  }

  // ---------------------------------------------------------------------
  // Popping

  /** Removing the last record undoes the last patch. */
  lemma RemoveLast(e: Env, base: Tree, applied: seq<Applied>, d: Dir)
    requires ',' !in PatchDir(e) && applied != []
    requires (forall a | a in applied :: Sound(e, d, a)) && Patched(e, base, applied) == Some(d.tree)
    requires Reversible(e, base, applied)
    ensures var rest, last := applied[..|applied| - 1], applied[|applied| - 1];
            Patched(e, base, rest).Some?
                && Remove(e, d, RecordOf(last)) == (d.(tree := Patched(e, base, rest).value), None)
  {
    hide Split, Strip, JoinPath, PatchDir, Plain, Record;
    var last := applied[|applied| - 1];
    var t := Patched(e, base, applied[..|applied| - 1]).value;
    assert Sound(e, d, last);
    RecordReadIff(e, last.name, last.strippath);
    assert e.run(last.text, last.strippath, false, t) == (d.tree, true);
  }

  lemma {:induction false} RemoveAllRestores(e: Env, base: Tree, applied: seq<Applied>, d: Dir)
    requires ',' !in PatchDir(e)
    requires (forall a | a in applied :: Sound(e, d, a)) && Patched(e, base, applied) == Some(d.tree)
    requires Reversible(e, base, applied)
    ensures RemoveAll(e, d, Records(applied)) == (d.(tree := base), None)
    decreases |applied|
  {
    hide Remove, Plain;
    if applied != [] {
      var rest := applied[..|applied| - 1];
      RemoveLast(e, base, applied, d);
      var d1 := d.(tree := Patched(e, base, rest).value);
      forall a | a in rest ensures Sound(e, d1, a) {
        assert Sound(e, d, a);
      }
      Snoc(Records(rest), RecordOf(applied[|applied| - 1]));
      RemoveAllRestores(e, base, rest, d1);
    }
  }

  /** Clean gives back the tree from before the first patch, for any object on
      the directory, whatever it knows of the patches. */
  lemma CleanRestores(e: Env, base: Tree, applied: seq<Applied>, s: State)
    requires ',' !in PatchDir(e) && Holds(e, base, applied, s.dir)
    ensures var (s', err) := Step(e, s, PopAll);
            err == None && s'.dir.tree == base && s'.patches == s.patches && s'.current == None
                && Holds(e, base, [], s'.dir)
  {
    hide RemoveAll, Lines, Concat, Sound;
    ConcatNone();
    assert Records([]) == [];
    if s.dir.series.Some? {
      RecordsLines(e, s.dir, applied);
      RemoveAllRestores(e, base, applied, s.dir);
    }
  }

  lemma PopHolds(e: Env, base: Tree, applied: seq<Applied>, d: Dir)
    requires ',' !in PatchDir(e) && Holds(e, base, applied, d) && applied != []
    ensures var (d', err) := RemoveFile(e, d, false);
            err == None && Holds(e, base, applied[..|applied| - 1], d')
  {
    hide Remove, Lines, Concat, Plain;
    var rest := applied[..|applied| - 1];
    RecordsLines(e, d, applied);
    RemoveLast(e, base, applied, d);
    Snoc(Records(rest), RecordOf(applied[|applied| - 1]));
    var d' := RemoveFile(e, d, false).0;
    forall a | a in rest ensures Sound(e, d', a) {
      assert Sound(e, d, a);
    }
  }

  // ---------------------------------------------------------------------
  // Pushing

  /** --dry-run does not promise more than the run keeps. */
  ghost predicate Truthful(e: Env) {
    forall text, strippath, reverse, t :: e.dry(text, strippath, reverse, t) ==> e.run(text, strippath, reverse, t).1
  }

  function AppliedOf(e: Env, p: Patch): Applied {
    Applied(Basename(p.file), p.strippath, e.read(p.file))
  }

  function AllApplied(e: Env, patches: seq<Patch>): seq<Applied> {
    if patches == [] then [] else AllApplied(e, patches[..|patches| - 1]) + [AppliedOf(e, patches[|patches| - 1])]
  }

  ghost predicate Fit(e: Env, p: Patch) {
    Plain(Basename(p.file), p.strippath) && !(PatchDir(e) + "/" <= p.file)
  }

  /** A push that succeeds adds one applied patch; one that fails changes nothing. */
  lemma PushHolds(e: Env, base: Tree, applied: seq<Applied>, d: Dir, p: Patch)
    requires Truthful(e) && Holds(e, base, applied, d) && Fit(e, p) && p.file !in d.store
    requires ReversibleOn(e, e.read(p.file), p.strippath, d.tree)
    requires forall a | a in applied :: a.name != Basename(p.file)
    ensures var (d', err) := Apply(e, d, p, false, false);
            && (err == None ==>
                  && Holds(e, base, applied + [AppliedOf(e, p)], d')
                  && d'.store.Keys == d.store.Keys + {Stored(e, Basename(p.file))})
            && (err.Some? ==> d' == d)
  {
    hide Concat, Reversible, ReversibleOn, Plain, Basename, Record, PatchDir, Records, Stored, Patched;
    var (d', err) := Apply(e, d, p, false, false);
    var a := AppliedOf(e, p);
    if err == None {
      ConcatSnoc(Records(applied), RecordOf(a));
      AppliedMore(e, base, applied, a);
      forall b | b in applied ensures Sound(e, d', b) {
        assert Sound(e, d, b);
        StoredApart(e, b.name, a.name);
      }
    }
  }

  lemma AppliedMore(e: Env, base: Tree, applied: seq<Applied>, a: Applied)
    ensures Records(applied + [a]) == Records(applied) + [RecordOf(a)]
    ensures Patched(e, base, applied).Some? ==>
              var (tree, ok) := e.run(a.text, a.strippath, false, Patched(e, base, applied).value);
              && Patched(e, base, applied + [a]) == (if ok then Some(tree) else None)
              && (Reversible(e, base, applied + [a]) <==>
                  Reversible(e, base, applied) && ReversibleOn(e, a.text, a.strippath, Patched(e, base, applied).value))
  {
    hide Record;
    Snoc(applied, a);
  }

  lemma StoredApart(e: Env, x: string, y: string)
    ensures x != y ==> Stored(e, x) != Stored(e, y)
  {
    var p := PatchDir(e) + "/";
    assert (p + x)[|p|..] == x && (p + y)[|p|..] == y;
  }

  // ---------------------------------------------------------------------
  // Runs

  /** The patches fit, and no two of them have the same name. */
  ghost predicate Good(e: Env, patches: seq<Patch>) {
    && (forall i | 0 <= i < |patches| :: Fit(e, patches[i]))
    && (forall i, j | 0 <= i < j < |patches| :: Basename(patches[i].file) != Basename(patches[j].file))
  }

  /** The object and the directory agree: the applied patches are the first
      patches of the list, up to current. */
  ghost predicate Inv(e: Env, base: Tree, s: State) {
    && Next(s.current) <= |s.patches|
    && Good(e, s.patches)
    && (forall k | k in s.dir.store :: PatchDir(e) + "/" <= k)
    && Holds(e, base, AllApplied(e, s.patches[..Next(s.current)]), s.dir)
  }

  /** What is asked of an operation: pushes that are not forced, of patches
      that can be reversed where they apply, and imports of patches that fit,
      each with a name of its own. */
  ghost predicate Allowed(e: Env, s: State, op: Op) {
    match op
    case Import(file, remote, strippath) =>
      var p := Imported(e, file, remote, strippath);
      p.Some? ==> Fit(e, p.value) && forall q | q in s.patches :: Basename(q.file) != Basename(p.value.file)
    case Push(force) => !force && NextReversible(e, s)
    case Pop => true
    case PopAll => true
  }

  predicate NextReversible(e: Env, s: State) {
    var next := Next(s.current);
    next < |s.patches| ==> ReversibleOn(e, e.read(s.patches[next].file), s.patches[next].strippath, s.dir.tree)
  }

  lemma {:induction false} AppliedNames(e: Env, patches: seq<Patch>)
    ensures |AllApplied(e, patches)| == |patches|
    ensures forall a | a in AllApplied(e, patches) :: exists i | 0 <= i < |patches| :: a == AppliedOf(e, patches[i])
    decreases |patches|
  {
    hide AppliedOf;
    if patches != [] {
      var n := |patches| - 1;
      AppliedNames(e, patches[..n]);
      forall a | a in AllApplied(e, patches) ensures exists i | 0 <= i < |patches| :: a == AppliedOf(e, patches[i]) {
        if a in AllApplied(e, patches[..n]) {
          var i :| 0 <= i < n && a == AppliedOf(e, patches[..n][i]);
          assert a == AppliedOf(e, patches[i]);
        } else {
          assert a == AppliedOf(e, patches[n]);
        }
      }
    }
  }

  /** The next patch has a name that no applied patch has. */
  lemma NextIsNew(e: Env, patches: seq<Patch>, next: nat)
    requires next < |patches|
    requires forall i, j | 0 <= i < j < |patches| :: Basename(patches[i].file) != Basename(patches[j].file)
    ensures forall a | a in AllApplied(e, patches[..next]) :: a.name != Basename(patches[next].file)
    ensures AllApplied(e, patches[..next + 1]) == AllApplied(e, patches[..next]) + [AppliedOf(e, patches[next])]
  {
    hide Basename;
    var done := patches[..next];
    AppliedNames(e, done);
    forall a | a in AllApplied(e, done) ensures a.name != Basename(patches[next].file) {
      var i :| 0 <= i < next && a == AppliedOf(e, done[i]);
      assert patches[i] == done[i];
    }
    assert patches[..next + 1] == done + [patches[next]];
    Snoc(done, patches[next]);
  }

  lemma PushKeeps(e: Env, base: Tree, s: State)
    requires ',' !in PatchDir(e) && Truthful(e) && Inv(e, base, s) && NextReversible(e, s)
    ensures Inv(e, base, Step(e, s, Push(false)).0)
  {
    hide Holds, Fit, Basename, Apply, PatchDir, Truthful, AllApplied, ReversibleOn;
    var next := Next(s.current);
    if next < |s.patches| {
      var p := s.patches[next];
      assert Fit(e, p);
      NextIsNew(e, s.patches, next);
      NotStored(e, s.dir, p);
      PushHolds(e, base, AllApplied(e, s.patches[..next]), s.dir, p);
    }
  }

  lemma NotStored(e: Env, d: Dir, p: Patch)
    requires Fit(e, p) && forall k | k in d.store :: PatchDir(e) + "/" <= k
    ensures p.file !in d.store
  {
  }

  lemma PopKeeps(e: Env, base: Tree, s: State)
    requires ',' !in PatchDir(e) && Inv(e, base, s)
    ensures Inv(e, base, Step(e, s, Pop).0)
    ensures s.current.Some? ==> Step(e, s, Pop).1 == None
    ensures s.current.None? ==> Step(e, s, Pop).0 == s
  {
    if s.current.Some? {
      PopApplied(e, base, s);
    } else {
      PopNothing(e, base, s);
    }
  }

  /** With nothing applied the series file is empty or not there, and nothing happens. */
  lemma PopNothing(e: Env, base: Tree, s: State)
    requires Inv(e, base, s) && s.current.None?
    ensures Step(e, s, Pop).0 == s
  {
    hide Remove, Fit, Basename, PatchDir, Patched;
    ConcatNone();
    assert s.patches[..0] == [];
    assert Content(s.dir.series) == "";
  }

  lemma PopApplied(e: Env, base: Tree, s: State)
    requires ',' !in PatchDir(e) && Inv(e, base, s) && s.current.Some?
    ensures var (s', err) := Step(e, s, Pop); err == None && Inv(e, base, s')
  {
    hide Holds, Fit, Basename, PatchDir;
    var n := Next(s.current);
    AppliedNames(e, s.patches[..n]);
    PopHolds(e, base, AllApplied(e, s.patches[..n]), s.dir);
    assert s.patches[..n][..n - 1] == s.patches[..n - 1];
    Snoc(AllApplied(e, s.patches[..n - 1]), AppliedOf(e, s.patches[n - 1]));
    StoreKept(e, s.dir);
  }

  /** Popping leaves the files of the patch directory. */
  lemma StoreKept(e: Env, d: Dir)
    ensures RemoveFile(e, d, false).0.store == d.store && RemoveFile(e, d, true).0.store == d.store
  {
    hide Remove, RemoveAll, Lines, Concat;
    if d.series.Some? {
      var lines := Lines(d.series.value);
      RemoveAllKeeps(e, d, lines);
      if lines != [] {
        RemoveKeeps(e, d, lines[|lines| - 1]);
      }
    }
  }

  lemma RemoveKeeps(e: Env, d: Dir, line: string)
    ensures Remove(e, d, line).0.store == d.store
  {
    hide Split, JoinPath, PatchDir, Strip, Append, Cat;
  }

  lemma {:induction false} RemoveAllKeeps(e: Env, d: Dir, lines: seq<string>)
    ensures RemoveAll(e, d, lines).0.store == d.store
    decreases |lines|
  {
    hide Remove;
    if lines != [] {
      RemoveKeeps(e, d, lines[|lines| - 1]);
      RemoveAllKeeps(e, Remove(e, d, lines[|lines| - 1]).0, lines[..|lines| - 1]);
    }
  }

  lemma PopAllKeeps(e: Env, base: Tree, s: State)
    requires ',' !in PatchDir(e) && Inv(e, base, s)
    ensures var (s', err) := Step(e, s, PopAll); err == None && Inv(e, base, s') && s'.dir.tree == base
  {
    hide Holds, Fit, Basename, PatchDir;
    CleanRestores(e, base, AllApplied(e, s.patches[..Next(s.current)]), s);
    assert AllApplied(e, s.patches[..0]) == [];
    StoreKept(e, s.dir);
  }

  lemma InsertKeeps(e: Env, patches: seq<Patch>, n: nat, p: Patch)
    requires Good(e, patches) && n <= |patches| && Fit(e, p)
    requires forall q | q in patches :: Basename(q.file) != Basename(p.file)
    ensures Good(e, Insert(patches, n, p)) && Insert(patches, n, p)[..n] == patches[..n]
  {
    hide Fit, Basename;
    var more := Insert(patches, n, p);
    assert more == patches[..n] + [p] + patches[n..];
    forall i | 0 <= i < |more| ensures Fit(e, more[i]) {
      assert i != n ==> more[i] == patches[if i < n then i else i - 1];
    }
    forall i, j | 0 <= i < j < |more| ensures Basename(more[i].file) != Basename(more[j].file) {
      assert i != n ==> more[i] == patches[if i < n then i else i - 1];
      assert j != n ==> more[j] == patches[if j < n then j else j - 1];
    }
  }

  /** An import goes right after the applied patches and leaves them alone. */
  lemma ImportKeeps(e: Env, base: Tree, s: State, op: Op)
    requires op.Import? && Inv(e, base, s) && Allowed(e, s, op)
    ensures var s' := Step(e, s, op).0;
            var n := Next(s.current);
            && Inv(e, base, s') && s'.current == s.current && s'.dir == s.dir
            && |s'.patches| >= |s.patches| && s'.patches[..n] == s.patches[..n]
  {
    hide Holds, Fit, Basename, PatchDir, AllApplied;
    var imported := Imported(e, op.file, op.remote, op.strippath);
    if imported.Some? {
      InsertKeeps(e, s.patches, Next(s.current), imported.value);
    }
  }

  /** A patch is kept, and recorded, under the last component of its path. */
  lemma BasenameIs(dir: string, name: string)
    requires '/' !in name
    ensures Basename(dir + "/" + name) == name && Basename(name) == name
  {
    SplitAt(dir, '/', name);
    SplitPlain(name, '/');
  }

  /** An import fails exactly without a file and a remote; otherwise one patch
      more stands in the list, behind the applied ones, with the fetched file if
      there is a remote, and all others in their order around it. */
  lemma ImportAdds(e: Env, s: State, file: string, remote: string, strippath: string)
    ensures var (s', err) := Step(e, s, Import(file, remote, strippath));
            var at := if Next(s.current) < |s.patches| then Next(s.current) else |s.patches|;
            if file == "" && remote == "" then s' == s && err == Some(PatchError)
            else
              && err == None && s'.current == s.current && s'.dir == s.dir && |s'.patches| == |s.patches| + 1
              && s'.patches[at].file == (if remote == "" then file else e.localpath(remote))
              && s'.patches[at].strippath == strippath
              && (forall i | 0 <= i < at :: s'.patches[i] == s.patches[i])
              && (forall i | at <= i < |s.patches| :: s'.patches[i + 1] == s.patches[i])
  {
  }

  /** So the patch imported last is the one that is pushed next: it is the
      patch command on its text that decides, and whose tree is left. */
  lemma ImportedIsPushed(e: Env, s: State, file: string, remote: string, strippath: string, force: bool)
    requires Next(s.current) <= |s.patches| && (file != "" || remote != "")
    ensures var s1 := Step(e, s, Import(file, remote, strippath)).0;
            var (s2, err) := Step(e, s1, Push(force));
            var text := Cat(e, s.dir.store, if remote == "" then file else e.localpath(remote));
            var (tree, ok) := e.run(text, strippath, false, s.dir.tree);
            && s2.patches == s1.patches
            && (if ok && (force || e.dry(text, strippath, false, s.dir.tree)) then
                  err == None && s2.current == Some(Next(s.current)) && s2.dir.tree == tree
                else err == Some(CommandError) && s2.current == s.current)
  {
    hide Insert, Cat, Append;
    ImportAdds(e, s, file, remote, strippath);
    ApplyTree(e, s.dir, Patch(if remote == "" then file else e.localpath(remote), strippath), force);
  }

  lemma ApplyTree(e: Env, d: Dir, p: Patch, force: bool)
    ensures var text, (d', err) := Cat(e, d.store, p.file), Apply(e, d, p, force, false);
            var (tree, ok) := e.run(text, p.strippath, false, d.tree);
            if ok && (force || e.dry(text, p.strippath, false, d.tree)) then err == None && d'.tree == tree
            else err == Some(CommandError)
  {
  }

  /** Every operation, whether it succeeds or not, keeps the invariant. */
  lemma StepKeeps(e: Env, base: Tree, s: State, op: Op)
    requires ',' !in PatchDir(e) && Truthful(e) && Inv(e, base, s) && Allowed(e, s, op)
    ensures Inv(e, base, Step(e, s, op).0)
  {
    hide Inv, Step, Truthful, PatchDir;
    match op
    case Import(_, _, _) => ImportKeeps(e, base, s, op);
    case Push(_) => PushKeeps(e, base, s);
    case Pop => PopKeeps(e, base, s);
    case PopAll => PopAllKeeps(e, base, s);
  }

  function Run(e: Env, s: State, ops: seq<Op>): State
    decreases |ops|
  {
    if ops == [] then s else Run(e, Step(e, s, ops[0]).0, ops[1..])
  }

  ghost predicate AllAllowed(e: Env, s: State, ops: seq<Op>)
    decreases |ops|
  {
    ops == [] || (Allowed(e, s, ops[0]) && AllAllowed(e, Step(e, s, ops[0]).0, ops[1..]))
  }

  /** In every run the series file lists exactly the applied patches, in order,
      the tree is base with those applied, and cleaning gives base back. */
  lemma {:induction false} EveryRunCleans(e: Env, base: Tree, s: State, ops: seq<Op>)
    requires ',' !in PatchDir(e) && Truthful(e) && Inv(e, base, s) && AllAllowed(e, s, ops)
    ensures var s' := Run(e, s, ops);
            Inv(e, base, s') &&
            var applied := AllApplied(e, s'.patches[..Next(s'.current)]);
            && Content(s'.dir.series) == Concat(Records(applied)) && Patched(e, base, applied) == Some(s'.dir.tree)
            && Step(e, s', PopAll).1 == None && Step(e, s', PopAll).0.dir.tree == base
    decreases |ops|
  {
    hide Step, Allowed, Truthful, PatchDir, Fit, Basename, Concat;
    if ops == [] {
      PopAllKeeps(e, base, s);
    } else {
      StepKeeps(e, base, s, ops[0]);
      EveryRunCleans(e, base, Step(e, s, ops[0]).0, ops[1..]);
    }
  }

  /** A new object on a directory without patches can start such a run. */
  lemma FreshInv(e: Env, base: Tree)
    ensures Inv(e, base, Fresh(base))
  {
    ConcatNone();
  }

  function Fresh(base: Tree): State {
    State([], None, Dir(None, map[], base))
  }

  /** So every run of a new object on an unpatched tree can be cleaned to that
      tree, and lists what it has applied until then. */
  lemma FreshRunCleans(e: Env, base: Tree, ops: seq<Op>)
    requires ',' !in PatchDir(e) && Truthful(e) && AllAllowed(e, Fresh(base), ops)
    ensures var s := Run(e, Fresh(base), ops);
            Next(s.current) <= |s.patches| &&
            var applied := AllApplied(e, s.patches[..Next(s.current)]);
            && Content(s.dir.series) == Concat(Records(applied)) && Patched(e, base, applied) == Some(s.dir.tree)
            && Step(e, s, PopAll).1 == None && Step(e, s, PopAll).0.dir.tree == base
  {
    FreshInv(e, base);
    EveryRunCleans(e, base, Fresh(base), ops);
  }

  /** A successful push keeps the invariant exactly if it is not forced: a
      forced push patches the tree but does not list the patch, so that Clean
      does not take it off. */
  lemma PushKeepsIffNotForced(e: Env, base: Tree, s: State, force: bool)
    requires ',' !in PatchDir(e) && Truthful(e) && Inv(e, base, s) && NextReversible(e, s)
    requires Step(e, s, Push(force)).1 == None
    ensures Inv(e, base, Step(e, s, Push(force)).0) <==> !force
    ensures force ==> Step(e, s, Push(force)).0.dir.series == s.dir.series
  {
    hide Fit, Basename, PatchDir, Truthful, Lines, Concat, Sound, Patched;
    if force {
      var s' := Step(e, s, Push(true)).0;
      var before, after := AllApplied(e, s.patches[..Next(s.current)]), AllApplied(e, s'.patches[..Next(s'.current)]);
      AppliedNames(e, s.patches[..Next(s.current)]);
      AppliedNames(e, s'.patches[..Next(s'.current)]);
      RecordsLines(e, s.dir, before);
      if Inv(e, base, s') {
        RecordsLines(e, s'.dir, after);
        assert false;
      }
    } else {
      PushKeeps(e, base, s);
    }
  }
}
