/** Deploying and undeploying gives the target back as it was. */
module DeployLaws {
  import opened Text
  import opened Deploy

  /** The files of the target without what is deployed from the recipe, and with what it preserves put back. */
  function Undeployed(s: State, recipe: string): Files {
    (s.files - ToSet(ManifestOf(s, recipe))) + KeptOf(s, recipe)
  }

  /** Everything deployed is in place, and the originals are split in two
      without overlap: those in place and those preserved. */
  predicate Intact(s: State, recipe: string, originals: Files) {
    var manifest := ManifestOf(s, recipe);
    && Distinct(manifest) && ToSet(manifest) <= s.files.Keys
    && (s.files.Keys - ToSet(manifest)) !! KeptOf(s, recipe).Keys
    && Undeployed(s, recipe) == originals
  }

  /** Nothing of the recipe is deployed or preserved. */
  predicate Fresh(s: State, recipe: string) {
    recipe !in s.manifests && recipe !in s.kept
  }

  lemma {:induction false} RemoveAll(files: Files, manifest: seq<string>)
    requires Distinct(manifest) && ToSet(manifest) <= files.Keys
    ensures RemoveListed(files, manifest) == (files - ToSet(manifest), true)
    decreases |manifest|
  {
    if manifest == [] {
      assert files - ToSet(manifest) == files;
    } else {
      var n := |manifest| - 1;
      var last, init := manifest[n], manifest[..n];
      assert last in ToSet(manifest);
      assert ToSet(manifest) == ToSet(init) + {last};
      assert last !in init;
      RemoveAll(files - {last}, init);
      assert (files - {last}) - ToSet(init) == files - ToSet(manifest);
    }
  }

  lemma {:induction false} PreserveMoves(files: Files, kept: Files, paths: seq<string>)
    requires files.Keys !! kept.Keys
    ensures var (f, k) := Preserve(files, kept, paths);
            && f == files - ToSet(paths)
            && k.Keys == kept.Keys + (files.Keys * ToSet(paths))
            && f.Keys !! k.Keys && f + k == files + kept
    decreases |paths|
  {
    if paths != [] {
      var p, rest := paths[0], paths[1..];
      assert ToSet(paths) == {p} + ToSet(rest);
      if p in files {
        PreserveMoves(files - {p}, kept[p := files[p]], rest);
        assert (files - {p}) + kept[p := files[p]] == files + kept;
      } else {
        PreserveMoves(files, kept, rest);
        assert files - ToSet(paths) == files - ToSet(rest);
      }
    }
  }

  lemma {:induction false} ExtractFrom(files: Files, payload: seq<Entry>)
    ensures Extract(files, payload) == files + Extract(map[], payload)
    decreases |payload|
  {
    if payload == [] {
      assert files + map[] == files;
    } else {
      var p, c, rest := payload[0].path, payload[0].content, payload[1..];
      ExtractFrom(files[p := c], rest);
      ExtractFrom(map[][p := c], rest);
      assert files[p := c] + Extract(map[], rest) == files + (map[][p := c] + Extract(map[], rest));
    }
  }

  lemma {:induction false} ExtractKeys(files: Files, payload: seq<Entry>)
    ensures Extract(files, payload).Keys == files.Keys + ToSet(Paths(payload))
    decreases |payload|
  {
    if payload != [] {
      ExtractKeys(files[payload[0].path := payload[0].content], payload[1..]);
      PathsStep(payload);
    }
  }

  lemma PathsStep(payload: seq<Entry>)
    requires payload != []
    ensures ToSet(Paths(payload)) == {payload[0].path} + ToSet(Paths(payload[1..]))
  {
    var rest := Paths(payload[1..]);
    assert Paths(payload) == [payload[0].path] + rest;
  }

  lemma ExtractAdds(files: Files, payload: seq<Entry>)
    ensures var out := Extract(files, payload);
            out.Keys == files.Keys + ToSet(Paths(payload))
                && out - ToSet(Paths(payload)) == files - ToSet(Paths(payload))
  {
    ExtractKeys(files, payload);
    ExtractKeys(map[], payload);
    ExtractFrom(files, payload);
  }

  lemma ClearWorks(s: State, recipe: string, originals: Files)
    requires Intact(s, recipe, originals)
    ensures var (s1, ok) := Clear(s, recipe);
            && ok && s1.files == s.files - ToSet(ManifestOf(s, recipe))
            && s1.manifests == s.manifests - {recipe} && s1.kept == s.kept
            && s1.files.Keys !! KeptOf(s1, recipe).Keys && s1.files + KeptOf(s1, recipe) == originals
            && Intact(s1, recipe, originals)
  {
    if recipe in s.manifests {
      RemoveAll(s.files, s.manifests[recipe]);
    } else {
      assert s.files - {} == s.files && s.manifests - {recipe} == s.manifests;
    }
    var s1 := Clear(s, recipe).0;
    assert ToSet(ManifestOf(s1, recipe)) == {} && s1.files - {} == s1.files;
  }

  /** Every deploy of the recipe with preservation keeps the originals, whether
      it goes through or is stopped by the space check; it fails in no other way. */
  lemma DeployKeepsOriginals(s: State, recipe: string, payload: seq<Entry>, total: nat, free: nat, options: Options,
                             originals: Files)
    requires Intact(s, recipe, originals) && Distinct(Paths(payload)) && !options.noPreserve
    ensures var (s', ok) := DoDeploy(s, recipe, payload, total, free, options);
            && Intact(s', recipe, originals)
            && (ok <==> options.noCheckSpace || total <= free)
            && (ok ==> ManifestOf(s', recipe) == Paths(payload))
  {
    hide RemoveListed, Preserve, Extract;
    ClearWorks(s, recipe, originals);
    var s1 := Clear(s, recipe).0;
    if options.noCheckSpace || total <= free {
      InstalledIntact(s1, recipe, payload, originals);
    }
  }

  /** The target after the files in the way were preserved and the payload extracted. */
  function Installed(s: State, recipe: string, payload: seq<Entry>): State {
    var (files, kept) := Preserve(s.files, KeptOf(s, recipe), Paths(payload));
    State(Extract(files, payload), s.manifests[recipe := Paths(payload)],
          if kept == KeptOf(s, recipe) then s.kept else s.kept[recipe := kept])
  }

  lemma InstalledIntact(s: State, recipe: string, payload: seq<Entry>, originals: Files)
    requires s.files.Keys !! KeptOf(s, recipe).Keys && s.files + KeptOf(s, recipe) == originals
    requires Distinct(Paths(payload))
    ensures Intact(Installed(s, recipe, payload), recipe, originals)
    ensures ManifestOf(Installed(s, recipe, payload), recipe) == Paths(payload)
  {
    hide RemoveListed, Preserve, Extract;
    var paths := Paths(payload);
    PreserveMoves(s.files, KeptOf(s, recipe), paths);
    var (f, k) := Preserve(s.files, KeptOf(s, recipe), paths);
    ExtractAdds(f, payload);
    var s' := Installed(s, recipe, payload);
    assert f - ToSet(paths) == f;
    assert KeptOf(s', recipe) == k && ManifestOf(s', recipe) == paths;
    assert s'.files - ToSet(paths) == f;
  }

  /** A final undeploy gives the originals back and leaves no trace of the recipe. */
  lemma UndeployRestores(s: State, recipe: string, originals: Files)
    requires Intact(s, recipe, originals)
    ensures var (s', ok) := DoUndeploy(s, recipe);
            ok && s' == State(originals, s.manifests - {recipe}, s.kept - {recipe})
  {
    ClearWorks(s, recipe, originals);
    if recipe !in s.kept {
      assert s.files - ToSet(ManifestOf(s, recipe)) + map[] == s.files - ToSet(ManifestOf(s, recipe));
      assert s.kept - {recipe} == s.kept;
    }
  }

  /** Without preservation a deploy keeps the originals exactly if it overwrites none of those in place. */
  lemma NoPreserveIffNoClash(s: State, recipe: string, payload: seq<Entry>, total: nat, free: nat, options: Options,
                             originals: Files)
    requires Intact(s, recipe, originals) && Distinct(Paths(payload)) && options.noPreserve
    requires options.noCheckSpace || total <= free
    ensures Intact(DoDeploy(s, recipe, payload, total, free, options).0, recipe, originals) <==>
            (s.files.Keys - ToSet(ManifestOf(s, recipe))) !! ToSet(Paths(payload))
  {
    ClearWorks(s, recipe, originals);
    var s1 := Clear(s, recipe).0;
    var paths := Paths(payload);
    ExtractAdds(s1.files, payload);
    var s' := DoDeploy(s, recipe, payload, total, free, options).0;
    assert ManifestOf(s', recipe) == paths && KeptOf(s', recipe) == KeptOf(s1, recipe);
    assert s'.files - ToSet(paths) == s1.files - ToSet(paths);
    if s1.files.Keys !! ToSet(paths) {
      assert s1.files - ToSet(paths) == s1.files;
    } else {
      var p :| p in s1.files && p in ToSet(paths);
      assert p in originals;
      assert p !in Undeployed(s', recipe);
    }
  }

  // ---------------------------------------------------------------------
  // What a deploy puts on the target

  /** Both have the path with the same content, or neither has it. */
  predicate Same(f: Files, g: Files, p: string) {
    (p in f <==> p in g) && (p in g ==> f[p] == g[p])
  }

  predicate Apart(payload: seq<Entry>) {
    forall i, j | 0 <= i < j < |payload| :: payload[i].path != payload[j].path
  }

  predicate Brings(payload: seq<Entry>, p: string) {
    exists i | 0 <= i < |payload| :: payload[i].path == p
  }

  lemma PathsBring(payload: seq<Entry>)
    ensures Distinct(Paths(payload)) ==> Apart(payload)
    ensures forall p :: p in Paths(payload) <==> Brings(payload, p)
  {
    var paths := Paths(payload);
    if Distinct(paths) {
      forall i, j | 0 <= i < j < |payload| ensures payload[i].path != payload[j].path {
        assert paths[i] != paths[j];
      }
    }
    hide Paths;
    forall p ensures p in paths <==> Brings(payload, p) {
      if p in paths {
        var i :| 0 <= i < |paths| && paths[i] == p;
        assert payload[i].path == p;
      }
      if Brings(payload, p) {
        var i :| 0 <= i < |payload| && payload[i].path == p;
        assert paths[i] in paths;
      }
    }
  }

  lemma {:induction false} ExtractAt(files: Files, payload: seq<Entry>, i: nat)
    requires Apart(payload) && i < |payload|
    ensures payload[i].path in Extract(files, payload)
    ensures Extract(files, payload)[payload[i].path] == payload[i].content
    decreases |payload|
  {
    var first, rest := payload[0], payload[1..];
    assert forall j | 0 <= j < |rest| :: rest[j] == payload[j + 1];
    if i > 0 {
      ExtractAt(files[first.path := first.content], rest, i - 1);
    } else {
      ExtractElsewhere(files[first.path := first.content], rest, first.path);
    }
  }

  /** All of the payload is there with its content. */
  predicate Has(files: Files, payload: seq<Entry>) {
    forall i | 0 <= i < |payload| :: payload[i].path in files && files[payload[i].path] == payload[i].content
  }

  lemma AllExtracted(files: Files, payload: seq<Entry>)
    requires Apart(payload)
    ensures Has(Extract(files, payload), payload)
  {
    hide Extract;
    forall i | 0 <= i < |payload|
      ensures payload[i].path in Extract(files, payload)
      ensures Extract(files, payload)[payload[i].path] == payload[i].content
    {
      ExtractAt(files, payload, i);
    }
  }

  lemma {:induction false} ExtractElsewhere(files: Files, payload: seq<Entry>, p: string)
    requires !Brings(payload, p)
    ensures Same(Extract(files, payload), files, p)
    decreases |payload|
  {
    if payload != [] {
      assert payload[0].path != p;
      assert forall j | 0 <= j < |payload[1..]| :: payload[1..][j] == payload[j + 1];
      ExtractElsewhere(files[payload[0].path := payload[0].content], payload[1..], p);
    }
  }

  /** After a deploy that goes through, every file of the payload has its
      content, and the manifest lists them; every other file that was not
      deployed before is as it was. */
  lemma DeployedAre(s: State, recipe: string, payload: seq<Entry>, total: nat, free: nat, options: Options)
    requires Distinct(Paths(payload)) && DoDeploy(s, recipe, payload, total, free, options).1
    ensures var s' := DoDeploy(s, recipe, payload, total, free, options).0;
            && ManifestOf(s', recipe) == Paths(payload)
            && Has(s'.files, payload)
            && (forall p | p !in Paths(payload) && p !in ManifestOf(s, recipe) :: Same(s'.files, s.files, p))
  {
    PathsBring(payload);
    hide DoDeploy, Extract, Paths, RemoveListed, Preserve, Distinct, Brings, Apart, Clear;
    hide BeforeExtract, Has;
    var files := BeforeExtract(Clear(s, recipe).0, recipe, payload, options);
    DeployIs(s, recipe, payload, total, free, options);
    AllExtracted(files, payload);
    forall p | p !in Paths(payload) && p !in ManifestOf(s, recipe)
      ensures Same(Extract(files, payload), s.files, p)
    {
      BeforeElsewhere(s, recipe, payload, options, p);
      ExtractElsewhere(files, payload, p);
    }
  }

  lemma BeforeElsewhere(s: State, recipe: string, payload: seq<Entry>, options: Options, p: string)
    requires p !in Paths(payload) && p !in ManifestOf(s, recipe)
    ensures Same(BeforeExtract(Clear(s, recipe).0, recipe, payload, options), s.files, p)
  {
    hide Paths, RemoveListed, Preserve;
    RemoveElsewhere(s.files, ManifestOf(s, recipe), p);
    PreserveElsewhere(Clear(s, recipe).0.files, KeptOf(Clear(s, recipe).0, recipe), Paths(payload), p);
  }

  /** The files the payload is extracted over. */
  function BeforeExtract(s: State, recipe: string, payload: seq<Entry>, options: Options): Files {
    if options.noPreserve then s.files else Preserve(s.files, KeptOf(s, recipe), Paths(payload)).0
  }

  lemma DeployIs(s: State, recipe: string, payload: seq<Entry>, total: nat, free: nat, options: Options)
    requires DoDeploy(s, recipe, payload, total, free, options).1
    ensures var s' := DoDeploy(s, recipe, payload, total, free, options).0;
            && s'.files == Extract(BeforeExtract(Clear(s, recipe).0, recipe, payload, options), payload)
            && ManifestOf(s', recipe) == Paths(payload)
  {
    hide Clear, Preserve, Extract, Paths;
  }

  lemma {:induction false} RemoveElsewhere(files: Files, manifest: seq<string>, p: string)
    requires p !in manifest
    ensures Same(RemoveListed(files, manifest).0, files, p)
    decreases |manifest|
  {
    if manifest != [] && manifest[|manifest| - 1] in files {
      RemoveElsewhere(files - {manifest[|manifest| - 1]}, manifest[..|manifest| - 1], p);
    }
  }

  lemma {:induction false} PreserveElsewhere(files: Files, kept: Files, paths: seq<string>, p: string)
    requires p !in paths
    ensures Same(Preserve(files, kept, paths).0, files, p)
    decreases |paths|
  {
    if paths != [] {
      if paths[0] in files {
        PreserveElsewhere(files - {paths[0]}, kept[paths[0] := files[paths[0]]], paths[1..], p);
      } else {
        PreserveElsewhere(files, kept, paths[1..], p);
      }
    }
  }

  /** A deploy goes through exactly if no file of the old manifest is missing
      and there is space, or none is asked for. */
  lemma DeployFailsIff(s: State, recipe: string, payload: seq<Entry>, total: nat, free: nat, options: Options)
    requires Distinct(ManifestOf(s, recipe))
    ensures DoDeploy(s, recipe, payload, total, free, options).1 <==>
            ToSet(ManifestOf(s, recipe)) <= s.files.Keys && (options.noCheckSpace || total <= free)
  {
    hide RemoveListed;
    if recipe in s.manifests {
      var m := s.manifests[recipe];
      if ToSet(m) <= s.files.Keys {
        RemoveAll(s.files, m);
      } else {
        var p :| p in ToSet(m) && p !in s.files;
        RemoveFails(s.files, m, p);
      }
    }
  }

  // ---------------------------------------------------------------------
  // Whole sessions: deploys of one recipe, with complete sessions of other
  // recipes in between, closed by an undeploy

  datatype Action =
    | Deploy(payload: seq<Entry>, total: nat, free: nat, options: Options)
    | Nested(recipe: string, body: seq<Action>)

  function RunAll(s: State, recipe: string, body: seq<Action>): (State, bool)
    decreases body
  {
    if body == [] then (s, true)
    else
      var (s1, ok) := RunOne(s, recipe, body[0]);
      if ok then RunAll(s1, recipe, body[1..]) else (s1, false)
  }

  /** A deploy that the space check refuses does not end the session; a nested session that fails does. */
  function RunOne(s: State, recipe: string, action: Action): (State, bool)
    decreases action
  {
    match action
    case Deploy(payload, total, free, options) => (DoDeploy(s, recipe, payload, total, free, options).0, true)
    case Nested(other, body) =>
      var (s1, ok) := RunAll(s, other, body);
      if ok then DoUndeploy(s1, other) else (s1, false)
  }

  /** Deploys preserve and list no path twice; a nested recipe is not one that is open already. */
  predicate Proper(body: seq<Action>, open: set<string>)
    decreases body
  {
    forall i | 0 <= i < |body| :: ProperAction(body[i], open)
  }

  predicate ProperAction(action: Action, open: set<string>)
    decreases action
  {
    match action
    case Deploy(payload, _, _, options) => !options.noPreserve && Distinct(Paths(payload))
    case Nested(other, body) => other !in open && Proper(body, open + {other})
  }

  /** During a session only its own recipe and the files change. */
  predicate During(s0: State, s: State, recipe: string) {
    && Intact(s, recipe, s0.files)
    && s.manifests - {recipe} == s0.manifests - {recipe} && s.kept - {recipe} == s0.kept - {recipe}
  }

  lemma {:induction false} RunAllDuring(s0: State, s: State, recipe: string, body: seq<Action>, open: set<string>)
    requires recipe in open && Proper(body, open) && During(s0, s, recipe)
    requires forall r :: r !in open ==> Fresh(s0, r)
    ensures RunAll(s, recipe, body).1 && During(s0, RunAll(s, recipe, body).0, recipe)
    decreases body
  {
    if body != [] {
      RunOneDuring(s0, s, recipe, body[0], open);
      RunAllDuring(s0, RunOne(s, recipe, body[0]).0, recipe, body[1..], open);
    }
  }

  lemma {:induction false} RunOneDuring(s0: State, s: State, recipe: string, action: Action, open: set<string>)
    requires recipe in open && ProperAction(action, open) && During(s0, s, recipe)
    requires forall r :: r !in open ==> Fresh(s0, r)
    ensures RunOne(s, recipe, action).1 && During(s0, RunOne(s, recipe, action).0, recipe)
    decreases action
  {
    match action
    case Deploy(payload, total, free, options) =>
      DeployKeepsOriginals(s, recipe, payload, total, free, options, s0.files);
      DeployTouches(s, recipe, payload, total, free, options);
    case Nested(other, body) =>
      forall r | r !in open ensures Fresh(s, r) {
        StaysFresh(s0, s, recipe, r);
      }
      FreshIntact(s, other);
      RunAllDuring(s, s, other, body, open + {other});
      SessionEnds(s, RunAll(s, other, body).0, other);
  }

  lemma StaysFresh(s0: State, s: State, recipe: string, r: string)
    requires During(s0, s, recipe) && r != recipe && Fresh(s0, r)
    ensures Fresh(s, r)
  {
    assert r !in s0.manifests - {recipe} && r !in s0.kept - {recipe};
  }

  lemma FreshIntact(s: State, recipe: string)
    requires Fresh(s, recipe)
    ensures During(s, s, recipe)
  {
    assert ToSet([]) == {};
    assert s.files - {} + map[] == s.files;
  }

  lemma SessionEnds(s0: State, s: State, recipe: string)
    requires During(s0, s, recipe) && Fresh(s0, recipe)
    ensures DoUndeploy(s, recipe) == (s0, true)
  {
    UndeployRestores(s, recipe, s0.files);
    assert s0.manifests - {recipe} == s0.manifests && s0.kept - {recipe} == s0.kept;
  }

  lemma DeployTouches(s: State, recipe: string, payload: seq<Entry>, total: nat, free: nat, options: Options)
    ensures var s' := DoDeploy(s, recipe, payload, total, free, options).0;
            s'.manifests - {recipe} == s.manifests - {recipe} && s'.kept - {recipe} == s.kept - {recipe}
  {
  }

  /** Recipes deployed and undeployed in last-in first-out order, each any
      number of times: the whole target is as before. */
  lemma SessionRestores(s: State, recipe: string, body: seq<Action>, open: set<string>)
    requires recipe !in open && Proper(body, open + {recipe})
    requires forall r :: r !in open ==> Fresh(s, r)
    ensures RunOne(s, recipe, Nested(recipe, body)) == (s, true)
  {
    FreshIntact(s, recipe);
    RunAllDuring(s, s, recipe, body, open + {recipe});
    SessionEnds(s, RunAll(s, recipe, body).0, recipe);
  }

  // ---------------------------------------------------------------------
  // Out of order: deploy a, deploy b, undeploy a, undeploy b

  lemma {:induction false} RemoveFails(files: Files, manifest: seq<string>, p: string)
    requires p in manifest && p !in files
    ensures !RemoveListed(files, manifest).1
    decreases |manifest|
  {
    var n := |manifest| - 1;
    if manifest[n] in files {
      assert manifest == manifest[..n] + [manifest[n]];
      RemoveFails(files - {manifest[n]}, manifest[..n], p);
    }
  }

  function Restrict(files: Files, paths: set<string>): Files {
    map p | p in files && p in paths :: files[p]
  }

  lemma PreserveAll(files: Files, paths: seq<string>)
    ensures Preserve(files, map[], paths) == (files - ToSet(paths), Restrict(files, ToSet(paths)))
  {
    hide Preserve;
    PreserveMoves(files, map[], paths);
    var (f, k) := Preserve(files, map[], paths);
    var none: Files := map[];
    assert files + none == files && none.Keys == {};
    assert forall p | p in k :: (f + k)[p] == k[p];
    assert k.Keys == files.Keys * ToSet(paths) && k == Restrict(files, ToSet(paths));
  }

  /** A first deploy, spelled out. */
  lemma FirstDeploy(s: State, recipe: string, payload: seq<Entry>)
    requires Fresh(s, recipe) && Distinct(Paths(payload))
    ensures var s' := DoDeploy(s, recipe, payload, 0, 0, Options(false, true)).0;
            var paths := ToSet(Paths(payload));
            && s'.files == s.files + Extract(map[], payload)
            && s'.manifests == s.manifests[recipe := Paths(payload)]
            && KeptOf(s', recipe) == Restrict(s.files, paths)
            && s'.kept - {recipe} == s.kept
    ensures Extract(map[], payload).Keys == ToSet(Paths(payload))
  {
    hide Preserve, Extract, Paths;
    var paths := Paths(payload);
    PreserveAll(s.files, paths);
    ExtractFrom(s.files - ToSet(paths), payload);
    ExtractKeys(map[], payload);
    Overlay(s.files, ToSet(paths), Extract(map[], payload));
    assert s.kept - {recipe} == s.kept;
  }

  lemma Overlay(files: Files, paths: set<string>, new_: Files)
    requires new_.Keys == paths
    ensures files - paths + new_ == files + new_
  {
  }

  /** An undeploy of a recipe whose files are all in place, spelled out. */
  lemma UndeployInPlace(s: State, recipe: string)
    requires recipe in s.manifests && Distinct(s.manifests[recipe])
    ensures var (s', ok) := DoUndeploy(s, recipe);
            && (ok <==> ToSet(s.manifests[recipe]) <= s.files.Keys)
            && (ok ==> s'.files == s.files - ToSet(s.manifests[recipe]) + KeptOf(s, recipe)
                       && s'.manifests == s.manifests - {recipe} && s'.kept == s.kept - {recipe})
  {
    var m := s.manifests[recipe];
    if ToSet(m) <= s.files.Keys {
      RemoveAll(s.files, m);
      if recipe !in s.kept {
        assert s.files - ToSet(m) + map[] == s.files - ToSet(m);
        assert s.kept - {recipe} == s.kept;
      }
    } else {
      var p :| p in ToSet(m) && p !in s.files;
      RemoveFails(s.files, m, p);
    }
  }

  /** The script run twice each way, first in first out. */
  function FirstInFirstOut(s: State, a: string, pa: seq<Entry>, b: string, pb: seq<Entry>): (State, bool) {
    var s1 := DoDeploy(s, a, pa, 0, 0, Options(false, true)).0;
    var s2 := DoDeploy(s1, b, pb, 0, 0, Options(false, true)).0;
    var (s3, ok) := DoUndeploy(s2, a);
    if ok then DoUndeploy(s3, b) else (s3, false)
  }

  /** Undeploying in the order of deploying works exactly if every path that
      both recipes bring was there before with just the content a brings. */
  lemma FirstInFirstOutIff(s: State, a: string, pa: seq<Entry>, b: string, pb: seq<Entry>)
    requires a != b && Fresh(s, a) && Fresh(s, b) && Distinct(Paths(pa)) && Distinct(Paths(pb))
    ensures var (s', ok) := FirstInFirstOut(s, a, pa, b, pb);
            ok && s'.files == s.files <==>
            forall i | 0 <= i < |pa| && pa[i].path in Paths(pb) ::
              pa[i].path in s.files && s.files[pa[i].path] == pa[i].content
  {
    hide DoDeploy, Extract, Paths;
    var s1 := DoDeploy(s, a, pa, 0, 0, Options(false, true)).0;
    var s2 := DoDeploy(s1, b, pb, 0, 0, Options(false, true)).0;
    var fa, fb := Extract(map[], pa), Extract(map[], pb);
    var A, B := ToSet(Paths(pa)), ToSet(Paths(pb));
    FirstDeploy(s, a, pa);
    assert b !in s1.kept - {a};
    FirstDeploy(s1, b, pb);
    KeptStays(s1, s2, a, b);
    UndeployInPlace(s2, a);
    var s3 := DoUndeploy(s2, a).0;
    assert s3.files == s2.files - A + Restrict(s.files, A);
    KeptStays(s2, s3, b, a);
    UndeployInPlace(s3, b);
    OverlapDecides(s.files, fa, fb, A, B);
    OverlapIs(s.files, pa, B);
  }

  /** The files of A that are in B too stand in f as they do in fa. */
  predicate InPlace(f: Files, fa: Files, A: set<string>, B: set<string>) {
    forall p | p in A && p in B :: p in f && p in fa && f[p] == fa[p]
  }

  /** The entries whose path is in B stand in f with their content. */
  predicate EntriesInPlace(f: Files, pa: seq<Entry>, B: set<string>) {
    forall i | 0 <= i < |pa| && pa[i].path in B :: pa[i].path in f && f[pa[i].path] == pa[i].content
  }

  /** The overlap by entries instead of paths. */
  lemma OverlapIs(f: Files, pa: seq<Entry>, B: set<string>)
    requires Distinct(Paths(pa))
    ensures var fa := Extract(map[], pa);
            && fa.Keys == ToSet(Paths(pa))
            && (InPlace(f, fa, ToSet(Paths(pa)), B) <==> EntriesInPlace(f, pa, B))
  {
    PathsBring(pa);
    hide Extract, Paths, Distinct, Apart, Brings, ToSet, Has, InPlace, EntriesInPlace;
    var fa := Extract(map[], pa);
    ExtractKeys(map[], pa);
    AllExtracted(map[], pa);
    OverlapAt(f, fa, pa, Paths(pa), B);
  }

  lemma OverlapAt(f: Files, fa: Files, pa: seq<Entry>, paths: seq<string>, B: set<string>)
    requires fa.Keys == ToSet(paths) && forall p :: p in paths <==> Brings(pa, p)
    requires Has(fa, pa)
    ensures InPlace(f, fa, ToSet(paths), B) <==> EntriesInPlace(f, pa, B)
  {
    if EntriesInPlace(f, pa, B) {
      forall p | p in ToSet(paths) && p in B ensures p in f && f[p] == fa[p] {
        var i :| 0 <= i < |pa| && pa[i].path == p;
      }
    }
    if InPlace(f, fa, ToSet(paths), B) {
      forall i | 0 <= i < |pa| && pa[i].path in B ensures pa[i].path in f && f[pa[i].path] == pa[i].content {
        assert Brings(pa, pa[i].path);
      }
    }
  }

  lemma KeptStays(s: State, s': State, r: string, other: string)
    requires r != other
    requires s'.kept - {other} == s.kept - {other} || s'.kept - {other} == s.kept || s'.kept == s.kept - {other}
    ensures KeptOf(s', r) == KeptOf(s, r)
  {
    assert r in s'.kept <==> r in s'.kept - {other};
    assert r in s.kept <==> r in s.kept - {other};
  }

  lemma OverlapDecides(f: Files, fa: Files, fb: Files, A: set<string>, B: set<string>)
    requires fa.Keys == A && fb.Keys == B
    ensures var f3 := f + fa + fb - A + Restrict(f, A);
            var f4 := f3 - B + Restrict(f + fa, B);
            B <= f3.Keys && f4 == f <==> forall p | p in A && p in B :: p in f && f[p] == fa[p]
  {
    var f3 := f + fa + fb - A + Restrict(f, A);
    var f4 := f3 - B + Restrict(f + fa, B);
    if forall p | p in A && p in B :: p in f && f[p] == fa[p] {
      assert B <= f3.Keys;
      assert f4.Keys == f.Keys;
      assert forall p | p in f :: f4[p] == f[p];
    }
    if B <= f3.Keys && f4 == f {
      forall p | p in A && p in B ensures p in f && f[p] == fa[p] {
        assert p in f3;
        assert f4[p] == fa[p];
      }
    }
  }

  // ---------------------------------------------------------------------
  // Stopped halfway

  /** Of the files in the manifest, the one at i is the last that is missing. */
  predicate LastMissing(files: Files, manifest: seq<string>, i: nat) {
    && i < |manifest| && manifest[i] !in files
    && forall j | i < j < |manifest| :: manifest[j] in files
  }

  lemma LastMissingFront(files: Files, manifest: seq<string>, i: nat)
    requires Distinct(manifest) && LastMissing(files, manifest, i) && i < |manifest| - 1
    ensures var n := |manifest| - 1;
            var front, less := manifest[..n], files - {manifest[n]};
            && manifest[n] in files && Distinct(front) && LastMissing(less, front, i)
            && less - ToSet(front[i + 1..]) == files - ToSet(manifest[i + 1..])
  {
    var n := |manifest| - 1;
    var front, less := manifest[..n], files - {manifest[n]};
    forall j | i < j < n ensures front[j] in less {
      assert front[j] == manifest[j];
    }
    assert manifest[i + 1..] == front[i + 1..] + [manifest[n]];
    assert ToSet(manifest[i + 1..]) == ToSet(front[i + 1..]) + {manifest[n]};
  }

  lemma {:induction false} RemoveStops(files: Files, manifest: seq<string>, i: nat)
    requires Distinct(manifest) && LastMissing(files, manifest, i)
    ensures RemoveListed(files, manifest) == (files - ToSet(manifest[i + 1..]), false)
    decreases |manifest|
  {
    hide Distinct;
    var n := |manifest| - 1;
    if i == n {
      assert ToSet(manifest[i + 1..]) == {} && files - ToSet(manifest[i + 1..]) == files;
    } else {
      LastMissingFront(files, manifest, i);
      hide LastMissing, ToSet;
      RemoveStops(files - {manifest[n]}, manifest[..n], i);
    }
  }

  /** When a deployed file is gone both scripts stop there: the files listed
      behind it have been removed, those in front of it have not, and manifest
      and preserved files are as before. */
  lemma StopsAtMissing(s: State, recipe: string, i: nat, payload: seq<Entry>, total: nat, free: nat, options: Options)
    requires Distinct(ManifestOf(s, recipe)) && LastMissing(s.files, ManifestOf(s, recipe), i)
    ensures var left := s.(files := s.files - ToSet(ManifestOf(s, recipe)[i + 1..]));
            DoUndeploy(s, recipe) == (left, false) == DoDeploy(s, recipe, payload, total, free, options)
  {
    hide RemoveListed, Extract, Preserve;
    RemoveStops(s.files, ManifestOf(s, recipe), i);
  }
}
