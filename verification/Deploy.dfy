/** devtool deploy-target and undeploy-target: what the generated script does
    to the regular files of the target. */
module Deploy {

  /** A regular file on its way to the target: its path there and its content. */
  datatype Entry = Entry(path: string, content: string)

  type Files = map<string, string>

  /** The target: its files, and for each recipe the manifest of what was
      deployed and the preserve directory, where there is one. */
  datatype State = State(files: Files, manifests: map<string, seq<string>>, kept: map<string, Files>)

  // ---------------------------------------------------------------------
  // The steps of the script as functions

  /** rm of the manifest's files, last first; a missing file stops the script. */
  function RemoveListed(files: Files, manifest: seq<string>): (Files, bool) {
    if manifest == [] then (files, true)
    else
      var last := manifest[|manifest| - 1];
      if last in files then RemoveListed(files - {last}, manifest[..|manifest| - 1]) else (files, false)
  }

  /** mv of the listed files that exist into the preserve directory. */
  function Preserve(files: Files, kept: Files, paths: seq<string>): (Files, Files) {
    if paths == [] then (files, kept)
    else if paths[0] in files then Preserve(files - {paths[0]}, kept[paths[0] := files[paths[0]]], paths[1..])
    else Preserve(files, kept, paths[1..])
  }

  /** tar x */
  function Extract(files: Files, payload: seq<Entry>): Files
    decreases |payload|
  {
    if payload == [] then files else Extract(files[payload[0].path := payload[0].content], payload[1..])
  }

  function Paths(payload: seq<Entry>): (paths: seq<string>)
    ensures |paths| == |payload| && forall i | 0 <= i < |payload| :: paths[i] == payload[i].path
  {
    if payload == [] then [] else [payload[0].path] + Paths(payload[1..])
  }

  function ManifestOf(s: State, recipe: string): seq<string> {
    if recipe in s.manifests then s.manifests[recipe] else []
  }

  function KeptOf(s: State, recipe: string): Files {
    if recipe in s.kept then s.kept[recipe] else map[]
  }

  /** The part both scripts begin with: undo the last deploy of the recipe. */
  function Clear(s: State, recipe: string): (State, bool) {
    if recipe in s.manifests then
      var (files, ok) := RemoveListed(s.files, s.manifests[recipe]);
      (if ok then s.(files := files, manifests := s.manifests - {recipe}) else s.(files := files), ok)
    else (s, true)
  }

  /** Options of deploy-target that shape the script. */
  datatype Options = Options(noPreserve: bool, noCheckSpace: bool)

  /** The deploy script; total and free are the sizes the space check compares. */
  function DoDeploy(s: State, recipe: string, payload: seq<Entry>, total: nat, free: nat,
                    options: Options): (State, bool)
  {
    var (s1, ok) := Clear(s, recipe);
    if !ok || (!options.noCheckSpace && total > free) then (s1, false)
    else
      var (files, kept) := if options.noPreserve then (s1.files, KeptOf(s1, recipe))
                           else Preserve(s1.files, KeptOf(s1, recipe), Paths(payload));
      (State(Extract(files, payload), s1.manifests[recipe := Paths(payload)],
             if kept == KeptOf(s1, recipe) then s1.kept else s1.kept[recipe := kept]), true)
  }

  /** The undeploy script. */
  function DoUndeploy(s: State, recipe: string): (State, bool) {
    var (s1, ok) := Clear(s, recipe);
    if !ok then (s1, false)
    else if recipe in s1.kept then (s1.(files := s1.files + s1.kept[recipe], kept := s1.kept - {recipe}), true)
    else (s1, true)
  }

  // ---------------------------------------------------------------------
  // The script, run on the target

  class Target {
    var files: Files
    var manifests: map<string, seq<string>>
    var kept: map<string, Files>

    function Value(): State
      reads this
    {
      State(files, manifests, kept)
    }

    constructor (files: Files)
      ensures Value() == State(files, map[], map[])
    {
      this.files := files;
      manifests, kept := map[], map[];
    }

    /** if [ -f $manifest ] ... fi */
    method ClearOld(recipe: string) returns (ok: bool)
      modifies this
      ensures (Value(), ok) == Clear(old(Value()), recipe)
    {
      if recipe !in manifests {
        return true;
      }
      var manifest := manifests[recipe];
      var n := |manifest|;
      assert manifest[..n] == manifest;
      while n > 0
        invariant 0 <= n <= |manifest|
        invariant manifests == old(manifests) && kept == old(kept)
        invariant RemoveListed(old(files), manifest) == RemoveListed(files, manifest[..n])
      {
        var file := manifest[n - 1];
        assert manifest[..n][..n - 1] == manifest[..n - 1];
        if file !in files {
          return false;
        }
        files := files - {file};
        n := n - 1;
      }
      manifests := manifests - {recipe};
      return true;
    }

    /** while read file fsize ... mv $file $dest ... done */
    method PreserveExisting(recipe: string, paths: seq<string>)
      modifies this`files, this`kept
      ensures var (f, k) := Preserve(old(files), KeptOf(old(Value()), recipe), paths);
              && files == f
              && kept == if k == KeptOf(old(Value()), recipe) then old(kept) else old(kept)[recipe := k]
    {
      var dir := if recipe in kept then kept[recipe] else map[];
      for i := 0 to |paths|
        invariant kept == old(kept)
        invariant Preserve(old(files), KeptOf(old(Value()), recipe), paths) == Preserve(files, dir, paths[i..])
      {
        var file := paths[i];
        if file in files {
          dir := dir[file := files[file]];
          files := files - {file};
        }
      }
      if dir != (if recipe in kept then kept[recipe] else map[]) {
        kept := kept[recipe := dir];
      }
    }

    method ExtractAll(payload: seq<Entry>)
      modifies this`files
      ensures files == Extract(old(files), payload)
    {
      for i := 0 to |payload|
        invariant Extract(old(files), payload) == Extract(files, payload[i..])
      {
        files := files[payload[i].path := payload[i].content];
      }
    }

    method DeployTarget(recipe: string, payload: seq<Entry>, total: nat, free: nat, options: Options) returns (ok: bool)
      modifies this
      ensures (Value(), ok) == DoDeploy(old(Value()), recipe, payload, total, free, options)
    {
      ok := ClearOld(recipe);
      if !ok {
        return;
      }
      if !options.noCheckSpace && total > free {
        return false;
      }
      if !options.noPreserve {
        PreserveExisting(recipe, Paths(payload));
      }
      ExtractAll(payload);
      manifests := manifests[recipe := Paths(payload)];
    }

    method UndeployTarget(recipe: string) returns (ok: bool)
      modifies this
      ensures (Value(), ok) == DoUndeploy(old(Value()), recipe)
    {
      ok := ClearOld(recipe);
      if ok && recipe in kept {
        files := files + kept[recipe];
        kept := kept - {recipe};
      }
    }
  }
}
