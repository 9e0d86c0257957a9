/** Locked signatures: which tasks keep their locked hash, and which recipes
    come unlocked, over a whole run of get_taskhash. */
module TaskHash {
  import opened Text

  /** fn + "." + task */
  datatype Key = Key(fn: string, task: string)

  /** One call of get_taskhash: the task and what it depends on. */
  datatype Task = Task(key: Key, deps: seq<Key>)

  /** A locked hash and the variable it was read from. */
  datatype Locked = Locked(hash: string, variable: string)

  /** An entry of mismatch_msgs. */
  datatype Mismatch = Mismatch(recipe: string, task: string, computed: string, locked: Locked)

  /** What a run reads but does not change: dataCache.pkg_fn, the locked
      signatures by recipe and task, and the hash that the base class computes
      from a task, its dependencies and the task hashes known so far. */
  datatype Config = Config(
    recipeOf: string -> string,
    locked: map<string, map<string, Locked>>,
    compute: (Task, map<Key, string>) -> string)

  datatype State = State(
    unlocked: set<string>,
    lockedhashes: map<Key, string>,
    taskhash: map<Key, string>,
    mismatches: seq<Mismatch>)

  function RecipeOf(c: Config, k: Key): string {
    c.recipeOf(k.fn)
  }

  /** any(x in y for y in depnames for x in unlockedrecipes): x may be any substring of y. */
  predicate DependsOnUnlocked(c: Config, unlocked: set<string>, deps: seq<Key>) {
    exists i | 0 <= i < |deps| :: exists x | x in unlocked :: Contains(x, RecipeOf(c, deps[i]))
  }

  predicate IsUnlocked(c: Config, s: State, t: Task) {
    RecipeOf(c, t.key) in s.unlocked || DependsOnUnlocked(c, s.unlocked, t.deps)
  }

  predicate HasLock(c: Config, k: Key) {
    RecipeOf(c, k) in c.locked && k.task in c.locked[RecipeOf(c, k)]
  }

  function LockOf(c: Config, k: Key): Locked
    requires HasLock(c, k)
  {
    c.locked[RecipeOf(c, k)][k.task]
  }

  /** One call: the new state and the hash it returns. */
  function Hash(c: Config, s: State, t: Task): (State, string) {
    var h := c.compute(t, s.taskhash);
    var s1 := s.(taskhash := s.taskhash[t.key := h]);
    if IsUnlocked(c, s, t) then (s1.(unlocked := s.unlocked + {RecipeOf(c, t.key)}), h)
    else if HasLock(c, t.key) then
      var l := LockOf(c, t.key);
      (s1.(lockedhashes := s.lockedhashes[t.key := l.hash], taskhash := s.taskhash[t.key := l.hash],
           mismatches := if h == l.hash then s.mismatches
                         else s.mismatches + [Mismatch(RecipeOf(c, t.key), t.key.task, h, l)]),
       l.hash)
    else (s1, h)
  }

  class SignatureGenerator {
    const c: Config
    var unlockedrecipes: set<string>
    var lockedhashes: map<Key, string>
    var taskhash: map<Key, string>
    var mismatchMsgs: seq<Mismatch>

    function Value(): State
      reads this
    {
      State(unlockedrecipes, lockedhashes, taskhash, mismatchMsgs)
    }

    /** init_rundepcheck, with SIGGEN_UNLOCKED_RECIPES as a list */
    constructor (c: Config, unlocked: seq<string>)
      ensures this.c == c && Value() == State(set r | r in unlocked, map[], map[], [])
    {
      this.c := c;
      unlockedrecipes := set r | r in unlocked;
      lockedhashes, taskhash, mismatchMsgs := map[], map[], [];
    }

    method GetTaskHash(t: Task) returns (hash: string)
      modifies this
      ensures (Value(), hash) == Hash(c, old(Value()), t)
    {
      var k := t.key;
      var h := c.compute(t, taskhash);
      taskhash := taskhash[k := h];
      var recipename := RecipeOf(c, k);
      var unlocked := false;
      if recipename in unlockedrecipes {
        unlocked := true;
        assert unlockedrecipes + {recipename} == unlockedrecipes;
      } else if DependsOnUnlocked(c, unlockedrecipes, t.deps) {
        unlockedrecipes := unlockedrecipes + {recipename};
        unlocked := true;
      }
      if !unlocked && recipename in c.locked {
        if k.task in c.locked[recipename] {
          var l := c.locked[recipename][k.task];
          lockedhashes := lockedhashes[k := l.hash];
          taskhash := taskhash[k := l.hash];
          if h != l.hash {
            mismatchMsgs := mismatchMsgs + [Mismatch(recipename, k.task, h, l)];
          }
          assert old(taskhash)[k := h][k := l.hash] == old(taskhash)[k := l.hash];
          return l.hash;
        }
      }
      return h;
    }
  }

  // ---------------------------------------------------------------------
  // Whole runs

  function Run(c: Config, s: State, tasks: seq<Task>): State
    decreases |tasks|
  {
    if tasks == [] then s else Run(c, Hash(c, s, tasks[0]).0, tasks[1..])
  }

  /** The state in which tasks[i] is hashed. */
  function Before(c: Config, s: State, tasks: seq<Task>, i: nat): State
    requires i <= |tasks|
  {
    Run(c, s, tasks[..i])
  }

  lemma {:induction false} RunSnoc(c: Config, s: State, tasks: seq<Task>, t: Task)
    ensures Run(c, s, tasks + [t]) == Hash(c, Run(c, s, tasks), t).0
    decreases |tasks|
  {
    if tasks == [] {
      PlusEmpty([t]);
      assert [t][1..] == [];
    } else {
      PlusTail(tasks, [t]);
      RunSnoc(c, Hash(c, s, tasks[0]).0, tasks[1..], t);
    }
  }

  lemma BeforeNext(c: Config, s: State, tasks: seq<Task>, i: nat)
    requires i < |tasks|
    ensures Before(c, s, tasks, i + 1) == Hash(c, Before(c, s, tasks, i), tasks[i]).0
  {
    assert tasks[..i + 1] == tasks[..i] + [tasks[i]];
    RunSnoc(c, s, tasks[..i], tasks[i]);
  }

  /** The set of unlocked recipes only grows. */
  lemma {:induction false} UnlockedGrows(c: Config, s: State, tasks: seq<Task>, i: nat, j: nat)
    requires i <= j <= |tasks|
    ensures Before(c, s, tasks, i).unlocked <= Before(c, s, tasks, j).unlocked
    decreases j - i
  {
    if i < j {
      BeforeNext(c, s, tasks, i);
      UnlockedGrows(c, s, tasks, i + 1, j);
    }
  }

  /** Each task is hashed once, and after its dependencies. */
  predicate Ordered(tasks: seq<Task>) {
    && (forall i, j | 0 <= i < j < |tasks| :: tasks[i].key != tasks[j].key)
    && (forall i | 0 <= i < |tasks| :: forall d | d in tasks[i].deps :: exists j | 0 <= j < i :: tasks[j].key == d)
  }

  /** p is a dependency chain in a run: every task on it depends on the next. */
  predicate Chain(tasks: seq<Task>, p: seq<nat>) {
    && p != []
    && (forall k | 0 <= k < |p| :: p[k] < |tasks|)
    && (forall k | 0 <= k < |p| - 1 :: tasks[p[k + 1]].key in tasks[p[k]].deps)
  }

  lemma ContainsItself(x: string)
    ensures Contains(x, x)
  {
    assert x <= x[0..];
  }

  lemma HashUnlocks(c: Config, s: State, t: Task, d: Key)
    requires d in t.deps && RecipeOf(c, d) in s.unlocked
    ensures IsUnlocked(c, s, t)
  {
    ContainsItself(RecipeOf(c, d));
    var i :| 0 <= i < |t.deps| && t.deps[i] == d;
  }

  lemma ChainDescends(tasks: seq<Task>, i: nat, j: nat)
    requires Ordered(tasks) && i < |tasks| && j < |tasks| && tasks[j].key in tasks[i].deps
    ensures j < i
  {
    var k :| 0 <= k < i && tasks[k].key == tasks[j].key;
  }

  /** A task with a dependency chain to an initially unlocked recipe is hashed
      as unlocked: it gets, returns and records the computed hash, and its
      recipe is unlocked from then on. */
  lemma {:induction false} ChainUnlocks(c: Config, s: State, tasks: seq<Task>, p: seq<nat>)
    requires Ordered(tasks) && Chain(tasks, p)
    requires RecipeOf(c, tasks[p[|p| - 1]].key) in s.unlocked
    ensures var before := Before(c, s, tasks, p[0]);
            var t := tasks[p[0]];
            var computed := c.compute(t, before.taskhash);
            && IsUnlocked(c, before, t)
            && Hash(c, before, t).1 == computed
            && t.key in Before(c, s, tasks, p[0] + 1).taskhash
            && Before(c, s, tasks, p[0] + 1).taskhash[t.key] == computed
            && RecipeOf(c, t.key) in Before(c, s, tasks, p[0] + 1).unlocked
    decreases |p|
  {
    var i := p[0];
    BeforeNext(c, s, tasks, i);
    if |p| == 1 {
      assert tasks[..0] == [];
      UnlockedGrows(c, s, tasks, 0, i);
    } else {
      var j := p[1];
      assert p[0 + 1] == j && tasks[j].key in tasks[i].deps;
      ChainDescends(tasks, i, j);
      ChainTail(tasks, p);
      ChainUnlocks(c, s, tasks, p[1..]);
      UnlockedGrows(c, s, tasks, j + 1, i);
      HashUnlocks(c, Before(c, s, tasks, i), tasks[i], tasks[j].key);
    }
  }

  lemma ChainTail(tasks: seq<Task>, p: seq<nat>)
    requires Chain(tasks, p) && |p| > 1
    ensures Chain(tasks, p[1..]) && p[1..][|p[1..]| - 1] == p[|p| - 1]
  {
    var q := p[1..];
    forall k | 0 <= k < |q| - 1 ensures tasks[q[k + 1]].key in tasks[q[k]].deps {
      assert tasks[p[k + 1 + 1]].key in tasks[p[k + 1]].deps;
    }
  }

  /** r is unlocked because x is: a task of r has a dependency whose recipe name contains x. */
  predicate Unlocks(c: Config, t: Task, r: string, x: string) {
    RecipeOf(c, t.key) == r && exists d | d in t.deps :: Contains(x, RecipeOf(c, d))
  }

  predicate Linked(c: Config, tasks: seq<Task>, r: string, x: string) {
    exists t | t in tasks :: Unlocks(c, t, r, x)
  }

  /** A reason for rs[0] to be unlocked: names that unlock one another, down to one unlocked at the start. */
  ghost predicate Reason(c: Config, initial: set<string>, tasks: seq<Task>, rs: seq<string>) {
    && rs != [] && rs[|rs| - 1] in initial
    && forall k | 0 <= k < |rs| - 1 :: Linked(c, tasks, rs[k], rs[k + 1])
  }

  /** No recipe comes unlocked without a reason. */
  lemma {:induction false} UnlockedHasReason(c: Config, s: State, tasks: seq<Task>, i: nat, r: string)
    returns (rs: seq<string>)
    requires i <= |tasks| && r in Before(c, s, tasks, i).unlocked
    ensures Reason(c, s.unlocked, tasks, rs) && rs[0] == r
    decreases i
  {
    if i == 0 {
      assert tasks[..0] == [];
      rs := [r];
    } else {
      var before, t := Before(c, s, tasks, i - 1), tasks[i - 1];
      BeforeNext(c, s, tasks, i - 1);
      if r in before.unlocked {
        rs := UnlockedHasReason(c, s, tasks, i - 1, r);
      } else {
        assert DependsOnUnlocked(c, before.unlocked, t.deps);
        var k :| 0 <= k < |t.deps| && exists x | x in before.unlocked :: Contains(x, RecipeOf(c, t.deps[k]));
        var x :| x in before.unlocked && Contains(x, RecipeOf(c, t.deps[k]));
        var more := UnlockedHasReason(c, s, tasks, i - 1, x);
        assert t.deps[k] in t.deps && Unlocks(c, t, r, x) && t in tasks;
        rs := [r] + more;
        ReasonCons(c, s.unlocked, tasks, r, more, t);
      }
    }
  }

  lemma ReasonCons(c: Config, initial: set<string>, tasks: seq<Task>, r: string, more: seq<string>, t: Task)
    requires Reason(c, initial, tasks, more) && t in tasks && Unlocks(c, t, r, more[0])
    ensures Reason(c, initial, tasks, [r] + more)
  {
    var rs := [r] + more;
    assert rs[1] == more[0] && rs[|rs| - 1] == more[|more| - 1];
    forall k | 0 <= k < |rs| - 1 ensures Linked(c, tasks, rs[k], rs[k + 1]) {
      if k > 0 {
        assert rs[k] == more[k - 1] && rs[k + 1] == more[k - 1 + 1];
      }
    }
  }

  /** A locked task whose recipe has no reason to be unlocked keeps its locked hash. */
  lemma NoReasonStaysLocked(c: Config, s: State, tasks: seq<Task>, i: nat)
    requires i < |tasks| && HasLock(c, tasks[i].key)
    requires forall rs :: Reason(c, s.unlocked, tasks, rs) ==> rs[0] != RecipeOf(c, tasks[i].key)
    ensures Hash(c, Before(c, s, tasks, i), tasks[i]).1 == LockOf(c, tasks[i].key).hash
  {
    var before, r := Before(c, s, tasks, i), RecipeOf(c, tasks[i].key);
    if IsUnlocked(c, before, tasks[i]) {
      BeforeNext(c, s, tasks, i);
      var rs := UnlockedHasReason(c, s, tasks, i + 1, r);
    }
  }

  /** A reason for r to be unlocked before tasks[i], step by step: it was so at
      the start, or an earlier task of r has a dependency whose recipe name
      contains one that was unlocked before that task. */
  ghost predicate Causes(c: Config, initial: set<string>, tasks: seq<Task>, i: nat, r: string, js: seq<nat>)
    decreases |js|
  {
    if js == [] then r in initial
    else
      && js[0] < i && js[0] < |tasks|
      && exists x :: Unlocks(c, tasks[js[0]], r, x) && Causes(c, initial, tasks, js[0], x, js[1..])
  }

  ghost predicate HasCauses(c: Config, initial: set<string>, tasks: seq<Task>, i: nat, r: string) {
    exists js :: Causes(c, initial, tasks, i, r, js)
  }

  /** What is unlocked when a task is hashed, exactly. */
  lemma {:induction false} UnlockedIffCauses(c: Config, s: State, tasks: seq<Task>, i: nat, r: string)
    requires i <= |tasks|
    ensures r in Before(c, s, tasks, i).unlocked <==> HasCauses(c, s.unlocked, tasks, i, r)
  {
    hide Causes, Before;
    if r in Before(c, s, tasks, i).unlocked {
      var js := UnlockedHasCauses(c, s, tasks, i, r);
    }
    if js :| Causes(c, s.unlocked, tasks, i, r, js) {
      CausesUnlock(c, s, tasks, i, r, js);
    }
  }

  lemma {:induction false} UnlockedHasCauses(c: Config, s: State, tasks: seq<Task>, i: nat, r: string)
    returns (js: seq<nat>)
    requires i <= |tasks| && r in Before(c, s, tasks, i).unlocked
    ensures Causes(c, s.unlocked, tasks, i, r, js)
    decreases i
  {
    js := [];
    if i == 0 {
      assert tasks[..0] == [];
    } else {
      var before, t := Before(c, s, tasks, i - 1), tasks[i - 1];
      BeforeNext(c, s, tasks, i - 1);
      if r in before.unlocked {
        js := UnlockedHasCauses(c, s, tasks, i - 1, r);
      } else {
        var x := UnlockedBy(c, before, t);
        var more := UnlockedHasCauses(c, s, tasks, i - 1, x);
        js := [i - 1] + more;
        assert js[1..] == more;
      }
    }
  }

  /** A task that comes unlocked has a dependency to thank for it. */
  lemma UnlockedBy(c: Config, s: State, t: Task) returns (x: string)
    requires IsUnlocked(c, s, t) && RecipeOf(c, t.key) !in s.unlocked
    ensures x in s.unlocked && Unlocks(c, t, RecipeOf(c, t.key), x)
  {
    hide Contains;
    var k :| 0 <= k < |t.deps| && exists x | x in s.unlocked :: Contains(x, RecipeOf(c, t.deps[k]));
    x :| x in s.unlocked && Contains(x, RecipeOf(c, t.deps[k]));
    assert t.deps[k] in t.deps;
  }

  lemma {:induction false} CausesUnlock(c: Config, s: State, tasks: seq<Task>, i: nat, r: string, js: seq<nat>)
    requires i <= |tasks| && Causes(c, s.unlocked, tasks, i, r, js)
    ensures r in Before(c, s, tasks, i).unlocked
    decreases |js|
  {
    hide Contains;
    if js == [] {
      assert tasks[..0] == [];
      UnlockedGrows(c, s, tasks, 0, i);
    } else {
      var j := js[0];
      var x :| Unlocks(c, tasks[j], r, x) && Causes(c, s.unlocked, tasks, j, x, js[1..]);
      CausesUnlock(c, s, tasks, j, x, js[1..]);
      BeforeNext(c, s, tasks, j);
      UnlockedByDep(c, Before(c, s, tasks, j), tasks[j], x);
      UnlockedGrows(c, s, tasks, j + 1, i);
    }
  }

  lemma UnlockedByDep(c: Config, s: State, t: Task, x: string)
    requires x in s.unlocked && Unlocks(c, t, RecipeOf(c, t.key), x)
    ensures IsUnlocked(c, s, t)
  {
    hide Contains;
    var d :| d in t.deps && Contains(x, RecipeOf(c, d));
    var k :| 0 <= k < |t.deps| && t.deps[k] == d;
  }

  /** So the lock of a task is respected exactly if its recipe has no causes up to its own call. */
  lemma LockHoldsIff(c: Config, s: State, tasks: seq<Task>, i: nat)
    requires i < |tasks|
    ensures IsUnlocked(c, Before(c, s, tasks, i), tasks[i]) <==>
            HasCauses(c, s.unlocked, tasks, i + 1, RecipeOf(c, tasks[i].key))
    ensures HasLock(c, tasks[i].key) ==>
              Hash(c, Before(c, s, tasks, i), tasks[i]).1 ==
              if HasCauses(c, s.unlocked, tasks, i + 1, RecipeOf(c, tasks[i].key))
              then c.compute(tasks[i], Before(c, s, tasks, i).taskhash)
              else LockOf(c, tasks[i].key).hash
  {
    hide HasCauses, Before, DependsOnUnlocked;
    BeforeNext(c, s, tasks, i);
    UnlockedIffCauses(c, s, tasks, i + 1, RecipeOf(c, tasks[i].key));
  }

  /** What lockedhashes says is what taskhash says, and it is the locked value. */
  predicate LocksHold(c: Config, s: State) {
    forall k | k in s.lockedhashes ::
      k in s.taskhash && s.taskhash[k] == s.lockedhashes[k] && HasLock(c, k) && s.lockedhashes[k] == LockOf(c, k).hash
  }

  /** One call keeps that exactly unless it gives a different hash to an unlocked task that was locked before. */
  lemma HashKeepsLocksIff(c: Config, s: State, t: Task)
    requires LocksHold(c, s)
    ensures LocksHold(c, Hash(c, s, t).0) <==>
            !(IsUnlocked(c, s, t) && t.key in s.lockedhashes && c.compute(t, s.taskhash) != s.lockedhashes[t.key])
  {
    var s' := Hash(c, s, t).0;
    if t.key in s.lockedhashes {
      assert t.key in s'.lockedhashes;
      assert HasLock(c, t.key);
    }
  }

  lemma {:induction false} RunKeepsLocks(c: Config, s: State, tasks: seq<Task>, i: nat)
    requires Ordered(tasks) && i <= |tasks| && LocksHold(c, s) && s.lockedhashes == map[]
    ensures LocksHold(c, Before(c, s, tasks, i))
    ensures forall k | k in Before(c, s, tasks, i).lockedhashes :: exists j | 0 <= j < i :: tasks[j].key == k
    decreases i
  {
    if i == 0 {
      assert tasks[..0] == [];
    } else {
      RunKeepsLocks(c, s, tasks, i - 1);
      BeforeNext(c, s, tasks, i - 1);
      var before, t := Before(c, s, tasks, i - 1), tasks[i - 1];
      HashKeepsLocksIff(c, before, t);
      assert t.key !in before.lockedhashes;
      forall k | k in Before(c, s, tasks, i).lockedhashes ensures exists j | 0 <= j < i :: tasks[j].key == k {
        if k in before.lockedhashes {
          var j :| 0 <= j < i - 1 && tasks[j].key == k;
        } else {
          assert tasks[i - 1].key == k;
        }
      }
    }
  }

  // ---------------------------------------------------------------------
  // The documented run

  /** What the comment in get_taskhash promises: a task comes unlocked if its
      recipe is unlocked, or that of a direct dependency. */
  predicate Documented(c: Config, unlocked: set<string>, t: Task) {
    RecipeOf(c, t.key) in unlocked || exists d | d in t.deps :: RecipeOf(c, d) in unlocked
  }

  /** The recipes unlocked before tasks[i] if the run kept to that. */
  function DocumentedBefore(c: Config, initial: set<string>, tasks: seq<Task>, i: nat): set<string>
    requires i <= |tasks|
  {
    if i == 0 then initial
    else
      var before, t := DocumentedBefore(c, initial, tasks, i - 1), tasks[i - 1];
      if Documented(c, before, t) then before + {RecipeOf(c, t.key)} else before
  }

  /** A task that should stay locked, but has a dependency whose name merely
      contains the name of an unlocked recipe. */
  predicate Lookalike(c: Config, unlocked: set<string>, t: Task) {
    !Documented(c, unlocked, t) && DependsOnUnlocked(c, unlocked, t.deps)
  }

  /** One call does what is documented exactly if the task has no lookalike. */
  lemma HashAsDocumentedIff(c: Config, s: State, t: Task)
    ensures IsUnlocked(c, s, t) <==> Documented(c, s.unlocked, t) || Lookalike(c, s.unlocked, t)
    ensures var documented := if Documented(c, s.unlocked, t) then s.unlocked + {RecipeOf(c, t.key)} else s.unlocked;
            Hash(c, s, t).0.unlocked == documented <==> !Lookalike(c, s.unlocked, t)
  {
    hide Contains;
    if d :| d in t.deps && RecipeOf(c, d) in s.unlocked {
      HashUnlocks(c, s, t, d);
    }
  }

  /** The run unlocks at least what is documented. */
  lemma {:induction false} DocumentedIsUnlocked(c: Config, s: State, tasks: seq<Task>, i: nat)
    requires i <= |tasks|
    ensures DocumentedBefore(c, s.unlocked, tasks, i) <= Before(c, s, tasks, i).unlocked
    decreases i
  {
    hide Contains, DependsOnUnlocked;
    if i == 0 {
      assert tasks[..0] == [];
    } else {
      var before, t := Before(c, s, tasks, i - 1), tasks[i - 1];
      DocumentedIsUnlocked(c, s, tasks, i - 1);
      BeforeNext(c, s, tasks, i - 1);
      if d :| d in t.deps && RecipeOf(c, d) in DocumentedBefore(c, s.unlocked, tasks, i - 1) {
        HashUnlocks(c, before, t, d);
      }
    }
  }

  ghost predicate AsDocumented(c: Config, s: State, tasks: seq<Task>) {
    forall i | 0 <= i <= |tasks| :: Before(c, s, tasks, i).unlocked == DocumentedBefore(c, s.unlocked, tasks, i)
  }

  /** A whole run unlocks exactly what is documented if and only if no task that
      the documented run leaves locked has a dependency whose name contains a
      name unlocked in that run. */
  lemma AsDocumentedIff(c: Config, s: State, tasks: seq<Task>)
    ensures AsDocumented(c, s, tasks) <==>
            forall i | 0 <= i < |tasks| :: !Lookalike(c, DocumentedBefore(c, s.unlocked, tasks, i), tasks[i])
  {
    hide Lookalike, Hash, Before;
    if AsDocumented(c, s, tasks) {
      forall i | 0 <= i < |tasks| ensures !Lookalike(c, DocumentedBefore(c, s.unlocked, tasks, i), tasks[i]) {
        assert Before(c, s, tasks, i + 1).unlocked == DocumentedBefore(c, s.unlocked, tasks, i + 1);
        BeforeNext(c, s, tasks, i);
        HashAsDocumentedIff(c, Before(c, s, tasks, i), tasks[i]);
      }
    }
    if forall i | 0 <= i < |tasks| :: !Lookalike(c, DocumentedBefore(c, s.unlocked, tasks, i), tasks[i]) {
      forall i | 0 <= i <= |tasks|
        ensures Before(c, s, tasks, i).unlocked == DocumentedBefore(c, s.unlocked, tasks, i) {
        NoLookalikes(c, s, tasks, i);
      }
    }
  }

  lemma {:induction false} NoLookalikes(c: Config, s: State, tasks: seq<Task>, i: nat)
    requires i <= |tasks|
    requires forall j | 0 <= j < |tasks| :: !Lookalike(c, DocumentedBefore(c, s.unlocked, tasks, j), tasks[j])
    ensures Before(c, s, tasks, i).unlocked == DocumentedBefore(c, s.unlocked, tasks, i)
    decreases i
  {
    hide Lookalike, Hash, Documented;
    if i == 0 {
      assert tasks[..0] == [];
    } else {
      NoLookalikes(c, s, tasks, i - 1);
      BeforeNext(c, s, tasks, i - 1);
      HashAsDocumentedIff(c, Before(c, s, tasks, i - 1), tasks[i - 1]);
    }
  }

  /** So then does every hash: it is the locked one of every locked task that is
      to stay locked, and the computed one of all others. */
  lemma HashesAsDocumented(c: Config, s: State, tasks: seq<Task>, i: nat)
    requires i < |tasks| && AsDocumented(c, s, tasks)
    ensures var t, before := tasks[i], Before(c, s, tasks, i);
            Hash(c, before, t).1 ==
            if !Documented(c, DocumentedBefore(c, s.unlocked, tasks, i), t)
               && HasLock(c, t.key) then LockOf(c, t.key).hash
            else c.compute(t, before.taskhash)
  {
    var t, before := tasks[i], Before(c, s, tasks, i);
    AsDocumentedIff(c, s, tasks);
    assert before.unlocked == DocumentedBefore(c, s.unlocked, tasks, i);
    HashAsDocumentedIff(c, before, t);
  }

  lemma GccIsContained()
    ensures "gcc-runtime" != "gcc" && "zlib" != "gcc" && Contains("gcc", "gcc-runtime")
  {
    assert |"gcc"| < |"gcc-runtime"|;
    assert "zlib"[0] != "gcc"[0];
    assert "gcc" <= "gcc-runtime"[0..];
  }

  /** Two calls: the first leaves its recipe locked, the second has a lookalike. */
  lemma SecondUnlocks(c: Config, s: State, first: Task, second: Task)
    requires !IsUnlocked(c, s, first) && Lookalike(c, s.unlocked, second)
    ensures var tasks := [first, second];
            && Before(c, s, tasks, 1).unlocked == s.unlocked == DocumentedBefore(c, s.unlocked, tasks, 2)
            && Before(c, s, tasks, 2).unlocked == s.unlocked + {RecipeOf(c, second.key)}
            && Hash(c, Before(c, s, tasks, 1), second).1 == c.compute(second, Before(c, s, tasks, 1).taskhash)
            && !AsDocumented(c, s, tasks)
  {
    hide Contains, Lookalike, Documented;
    var tasks := [first, second];
    assert tasks[..0] == [];
    BeforeNext(c, s, tasks, 0);
    BeforeNext(c, s, tasks, 1);
    HashAsDocumentedIff(c, s, first);
    HashAsDocumentedIff(c, Before(c, s, tasks, 1), second);
    DocumentedTwice(c, s.unlocked, first, second);
    AsDocumentedIff(c, s, tasks);
  }

  lemma DocumentedTwice(c: Config, unlocked: set<string>, first: Task, second: Task)
    requires !Documented(c, unlocked, first) && !Documented(c, unlocked, second)
    ensures DocumentedBefore(c, unlocked, [first, second], 1) == unlocked ==
            DocumentedBefore(c, unlocked, [first, second], 2)
  {
    hide Documented;
  }

  /** Where the two part: "gcc" is unlocked, "zlib" depends on "gcc-runtime". The
      locked hash of zlib is not used, although neither zlib nor its dependency
      is unlocked. */
  lemma SubstringUnlocks(compute: (Task, map<Key, string>) -> string)
    ensures var c := Config(fn => fn, map["zlib" := map["do_compile" := Locked("0", "v")]], compute);
            var runtime, zlib := Key("gcc-runtime", "do_package"), Key("zlib", "do_compile");
            var tasks := [Task(runtime, []), Task(zlib, [runtime])];
            var s := State({"gcc"}, map[], map[], []);
            && Ordered(tasks)
            && Before(c, s, tasks, 1).unlocked == {"gcc"} == DocumentedBefore(c, {"gcc"}, tasks, 2)
            && Before(c, s, tasks, 2).unlocked == {"gcc", "zlib"}
            && Hash(c, Before(c, s, tasks, 1), tasks[1]).1 == compute(tasks[1], Before(c, s, tasks, 1).taskhash)
            && HasLock(c, zlib) && !AsDocumented(c, s, tasks)
  {
    hide Contains;
    var c := Config(fn => fn, map["zlib" := map["do_compile" := Locked("0", "v")]], compute);
    var runtime, zlib := Key("gcc-runtime", "do_package"), Key("zlib", "do_compile");
    var tasks := [Task(runtime, []), Task(zlib, [runtime])];
    GccIsContained();
    assert Lookalike(c, {"gcc"}, tasks[1]) by {
      assert Contains("gcc", RecipeOf(c, tasks[1].deps[0]));
    }
    SecondUnlocks(c, State({"gcc"}, map[], map[], []), tasks[0], tasks[1]);
  }
}
