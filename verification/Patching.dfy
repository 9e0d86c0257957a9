/** PatchTree: patches pushed on and popped off a source tree, with a series
    file that records those applied. */
module Patching {
  import opened Text
  import opened TextFile
  import opened PosixPath

  /** Files of the source tree by path. */
  type Tree = map<string, string>

  /** A patch as Import leaves it. */
  datatype Patch = Patch(file: string, strippath: string)

  datatype Error = PatchError | CommandError | IndexError

  /** What PatchTree relies on: the directory it works in, the patch files
      outside it, the fetcher, and the patch command. A patch command gets the
      patch text, the strip level, whether to reverse, and the tree; dry tells
      whether --dry-run succeeds, run gives the tree left behind and whether
      the command succeeded. */
  datatype Env = Env(
    dir: string,
    read: string -> string,
    localpath: string -> string,
    dry: (string, string, bool, Tree) -> bool,
    run: (string, string, bool, Tree) -> (Tree, bool))

  /** The working directory: the series file, the other files of its patches
      directory by path, and the source tree. */
  datatype Dir = Dir(series: Option<string>, store: map<string, string>, tree: Tree)

  datatype State = State(patches: seq<Patch>, current: Option<nat>, dir: Dir)

  function PatchDir(e: Env): string {
    JoinPath(e.dir, "patches")
  }

  /** os.path.basename */
  function Basename(p: string): string {
    var parts := Split(p, '/'); parts[|parts| - 1]
  }

  /** Where the patch directory keeps the patch of this name. */
  function Stored(e: Env, name: string): string {
    PatchDir(e) + "/" + name
  }

  function Cat(e: Env, store: map<string, string>, path: string): string {
    if path in store then store[path] else e.read(path)
  }

  function Content(file: Option<string>): string {
    if file.Some? then file.value else ""
  }

  function Record(name: string, strippath: string): string {
    name + "," + strippath + "\n"
  }

  // ---------------------------------------------------------------------
  // What each operation does to the directory

  /** _appendPatchFile */
  function Append(e: Env, d: Dir, p: Patch): Dir {
    var name := Basename(p.file);
    Dir(Some(Content(d.series) + Record(name, p.strippath)), d.store[Stored(e, name) := Cat(e, d.store, p.file)],
        d.tree)
  }

  /** _applypatch */
  function Apply(e: Env, d: Dir, p: Patch, force: bool, reverse: bool): (Dir, Option<Error>) {
    var text := Cat(e, d.store, p.file);
    if !force && !e.dry(text, p.strippath, reverse, d.tree) then (d, Some(CommandError))
    else
      var (tree, ok) := e.run(text, p.strippath, reverse, d.tree);
      var d1 := d.(tree := tree);
      if !ok then (d1, Some(CommandError))
      else if force || reverse then (d1, None)
      else (Append(e, d1, p), None)
  }

  /** _removePatch, for a line of the series file */
  function Remove(e: Env, d: Dir, line: string): (Dir, Option<Error>) {
    var parts := Split(JoinPath(PatchDir(e), Strip(line)), ',');
    if |parts| < 2 then (d, Some(IndexError)) else Apply(e, d, Patch(parts[0], parts[1]), false, true)
  }

  /** The lines from the last to the first. */
  function RemoveAll(e: Env, d: Dir, lines: seq<string>): (Dir, Option<Error>)
    decreases |lines|
  {
    if lines == [] then (d, None)
    else
      var (d1, err) := Remove(e, d, lines[|lines| - 1]);
      if err.Some? then (d1, err) else RemoveAll(e, d1, lines[..|lines| - 1])
  }

  /** _removePatchFile */
  function RemoveFile(e: Env, d: Dir, all: bool): (Dir, Option<Error>) {
    if d.series.None? then (d, None)
    else
      var lines := Lines(d.series.value);
      if all then
        var (d1, err) := RemoveAll(e, d, lines);
        (if err.Some? then d1 else d1.(series := Some("")), err)
      else if lines == [] then (d, Some(IndexError))
      else
        var (d1, err) := Remove(e, d, lines[|lines| - 1]);
        (if err.Some? then d1 else d1.(series := Some(Concat(lines[..|lines| - 1]))), err)
  }

  // ---------------------------------------------------------------------
  // The operations

  datatype Op = Import(file: string, remote: string, strippath: string) | Push(force: bool) | Pop | PopAll

  /** list.insert */
  function Insert(patches: seq<Patch>, i: nat, p: Patch): seq<Patch> {
    if i < |patches| then patches[..i] + [p] + patches[i..] else patches + [p]
  }

  /** How many patches are applied, which is where the next one goes. */
  function Next(current: Option<nat>): nat {
    if current.Some? then current.value + 1 else 0
  }

  function Lower(current: Option<nat>): Option<nat> {
    if current.Some? && current.value > 0 then Some(current.value - 1) else None
  }

  /** The patch that an Import adds; an empty file or remote counts as absent. */
  function Imported(e: Env, file: string, remote: string, strippath: string): Option<Patch> {
    if file == "" && remote == "" then None
    else Some(Patch(if remote != "" then e.localpath(remote) else file, strippath))
  }

  function Step(e: Env, s: State, op: Op): (State, Option<Error>) {
    match op
    case Import(file, remote, strippath) =>
      var p := Imported(e, file, remote, strippath);
      if p.None? then (s, Some(PatchError)) else (s.(patches := Insert(s.patches, Next(s.current), p.value)), None)
    case Push(force) =>
      var next := Next(s.current);
      if next >= |s.patches| then (s, Some(IndexError))
      else
        var (d, err) := Apply(e, s.dir, s.patches[next], force, false);
        (s.(dir := d, current := if err.Some? then s.current else Some(next)), err)
    case Pop =>
      var (d, err) := RemoveFile(e, s.dir, false);
      (s.(dir := d, current := if err.Some? then s.current else Lower(s.current)), err)
    case PopAll =>
      var (d, err) := RemoveFile(e, s.dir, true);
      (s.(dir := d, current := if err.Some? then s.current else None), err)
  }

  class PatchTree {
    const e: Env
    var patches: seq<Patch>
    var current: Option<nat>
    // the working directory
    var series: Option<string>
    var store: map<string, string>
    var tree: Tree

    function OnDisk(): Dir
      reads this
    {
      Dir(series, store, tree)
    }

    function Value(): State
      reads this
    {
      State(patches, current, OnDisk())
    }

    constructor (e: Env, d: Dir)
      ensures this.e == e && Value() == State([], None, d)
    {
      this.e := e;
      patches, current := [], None;
      series, store, tree := d.series, d.store, d.tree;
    }

    method AppendPatchFile(p: Patch)
      modifies `series, `store
      ensures OnDisk() == Append(e, old(OnDisk()), p)
    {
      series := Some(Content(series) + Basename(p.file) + "," + p.strippath + "\n");
      Regroup(Content(old(series)), Basename(p.file), "," + p.strippath, "\n");
      Assoc(Content(old(series)) + Basename(p.file), ",", p.strippath);
      Assoc(Basename(p.file), ",", p.strippath);
      Assoc(Basename(p.file), "," + p.strippath, "\n");
      store := store[Stored(e, Basename(p.file)) := Cat(e, store, p.file)];
    }

    method ApplyPatch(p: Patch, force: bool, reverse: bool) returns (err: Option<Error>)
      modifies `series, `store, `tree
      ensures (OnDisk(), err) == Apply(e, old(OnDisk()), p, force, reverse)
    {
      hide Append, Cat;
      var text := Cat(e, store, p.file);
      if !force {
        if !e.dry(text, p.strippath, reverse, tree) {
          return Some(CommandError);
        }
      }
      var (left, ok) := e.run(text, p.strippath, reverse, tree);
      tree := left;
      if !ok {
        return Some(CommandError);
      }
      if force {
        return None;
      }
      if !reverse {
        AppendPatchFile(p);
      }
      return None;
    }

    method RemovePatch(line: string) returns (err: Option<Error>)
      modifies `series, `store, `tree
      ensures (OnDisk(), err) == Remove(e, old(OnDisk()), line)
    {
      hide Apply, Split, Strip;
      var parts := Split(JoinPath(PatchDir(e), Strip(line)), ',');
      if |parts| < 2 {
        return Some(IndexError);
      }
      err := ApplyPatch(Patch(parts[0], parts[1]), false, true);
    }

    method RemovePatchFile(all: bool) returns (err: Option<Error>)
      modifies `series, `store, `tree
      ensures (OnDisk(), err) == RemoveFile(e, old(OnDisk()), all)
    {
      hide Remove, Lines, Concat;
      if series.None? {
        return None;
      }
      var lines := Lines(series.value);
      var left := lines;
      if all {
        var i := |lines|;
        assert lines[..i] == lines;
        while i > 0
          invariant 0 <= i <= |lines|
          invariant RemoveAll(e, OnDisk(), lines[..i]) == RemoveAll(e, old(OnDisk()), lines)
        {
          i := i - 1;
          assert lines[..i + 1][..i] == lines[..i];
          err := RemovePatch(lines[i]);
          if err.Some? {
            return err;
          }
        }
        left := [];
      } else {
        if lines == [] {
          return Some(IndexError);
        }
        err := RemovePatch(lines[|lines| - 1]);
        if err.Some? {
          return err;
        }
        left := lines[..|lines| - 1];
      }
      series := Some("");
      ConcatNone();
      assert left[..0] == [];
      for i := 0 to |left|
        invariant series == Some(Concat(left[..i]))
        invariant left == (if all then [] else lines[..|lines| - 1])
        modifies `series
      {
        assert left[..i + 1] == left[..i] + [left[i]];
        ConcatSnoc(left[..i], left[i]);
        series := Some(Content(series) + left[i]);
      }
      assert left[..|left|] == left;
      err := None;
    }

    method Import(file: string, remote: string, strippath: string) returns (err: Option<Error>)
      modifies `patches
      ensures (Value(), err) == Step(e, old(Value()), Op.Import(file, remote, strippath))
    {
      var path := file;
      if path == "" {
        if remote == "" {
          return Some(PatchError);
        }
        path := e.localpath(remote);
      }
      if remote != "" {
        path := e.localpath(remote);
      }
      var i := 0;
      if current.Some? {
        i := current.value + 1;
      }
      patches := Insert(patches, i, Patch(path, strippath));
      err := None;
    }

    method Push(force: bool) returns (err: Option<Error>)
      modifies this
      ensures (Value(), err) == Step(e, old(Value()), Op.Push(force))
    {
      hide Apply;
      var next := 0;
      if current.Some? {
        next := current.value + 1;
      }
      if next >= |patches| {
        return Some(IndexError);
      }
      err := ApplyPatch(patches[next], force, false);
      if err.Some? {
        return err;
      }
      current := Some(next);
    }

    method Pop(all: bool) returns (err: Option<Error>)
      modifies this
      ensures (Value(), err) == Step(e, old(Value()), if all then Op.PopAll else Op.Pop)
    {
      hide RemoveFile;
      if all {
        err := RemovePatchFile(true);
        if err.Some? {
          return err;
        }
        current := None;
      } else {
        err := RemovePatchFile(false);
        if err.Some? {
          return err;
        }
      }
      if current == Some(0) {
        current := None;
      }
      if current.Some? {
        current := Some(current.value - 1);
      }
    }

    method Clean() returns (err: Option<Error>)
      modifies this
      ensures (Value(), err) == Step(e, old(Value()), Op.PopAll)
    {
      err := Pop(true);
    }
  }
}
