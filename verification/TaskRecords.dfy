/** What a run of get_taskhash leaves behind: the mismatch messages, the locked
    hashes and the task hashes, call by call. */
module TaskRecords {
  import opened TaskHash

  /** The hash computed for tasks[j] when its call comes. */
  function Computed(c: Config, s: State, tasks: seq<Task>, j: nat): string
    requires j < |tasks|
  {
    c.compute(tasks[j], Before(c, s, tasks, j).taskhash)
  }

  /** The lock of tasks[j] is used. */
  predicate Respected(c: Config, s: State, tasks: seq<Task>, j: nat)
    requires j < |tasks|
  {
    HasLock(c, tasks[j].key) && !IsUnlocked(c, Before(c, s, tasks, j), tasks[j])
  }

  predicate Mismatched(c: Config, s: State, tasks: seq<Task>, j: nat)
    requires j < |tasks|
  {
    Respected(c, s, tasks, j) && Computed(c, s, tasks, j) != LockOf(c, tasks[j].key).hash
  }

  /** The message names recipe and task of tasks[j], the computed hash, and the locked one with its variable. */
  predicate Tells(c: Config, s: State, tasks: seq<Task>, j: nat, m: Mismatch)
    requires j < |tasks| && HasLock(c, tasks[j].key)
  {
    && m.recipe == c.recipeOf(tasks[j].key.fn) && m.task == tasks[j].key.task
    && m.computed == Computed(c, s, tasks, j) && m.locked == c.locked[m.recipe][m.task]
  }

  /** js are the calls before i that found a mismatch, in order. */
  predicate Found(c: Config, s: State, tasks: seq<Task>, i: nat, js: seq<nat>)
    requires i <= |tasks|
  {
    && (forall k | 0 <= k < |js| :: js[k] < i)
    && (forall k, l | 0 <= k < l < |js| :: js[k] < js[l])
    && (forall j | 0 <= j < i :: j in js <==> Mismatched(c, s, tasks, j))
  }

  /** One message for each of js, in that order. */
  predicate Told(c: Config, s: State, tasks: seq<Task>, js: seq<nat>, ms: seq<Mismatch>) {
    && |ms| == |js|
    && forall k | 0 <= k < |js| ::
      js[k] < |tasks| && HasLock(c, tasks[js[k]].key) && Tells(c, s, tasks, js[k], ms[k])
  }

  lemma FoundNext(c: Config, s: State, tasks: seq<Task>, i: nat, js: seq<nat>)
    requires i < |tasks| && Found(c, s, tasks, i, js)
    ensures Found(c, s, tasks, i + 1, if Mismatched(c, s, tasks, i) then js + [i] else js)
  {
    hide Mismatched;
    var next := if Mismatched(c, s, tasks, i) then js + [i] else js;
    forall j | 0 <= j < i + 1 ensures j in next <==> Mismatched(c, s, tasks, j) {
      assert j in js ==> j < i;
      if Mismatched(c, s, tasks, i) && j == i {
        assert next[|js|] == i;
      }
    }
  }

  /** The messages of a run are exactly those of the calls that used a lock
      other than the computed hash, in the order of the calls. */
  lemma {:induction false} MismatchesAre(c: Config, s: State, tasks: seq<Task>, i: nat)
    returns (js: seq<nat>, ms: seq<Mismatch>)
    requires i <= |tasks|
    ensures Found(c, s, tasks, i, js) && Told(c, s, tasks, js, ms)
    ensures Before(c, s, tasks, i).mismatches == s.mismatches + ms
    decreases i
  {
    hide Found, IsUnlocked, HasLock;
    if i == 0 {
      js, ms := [], [];
      assert tasks[..0] == [];
      assert Found(c, s, tasks, 0, []) by { NoneFound(c, s, tasks); }
    } else {
      js, ms := MismatchesAre(c, s, tasks, i - 1);
      BeforeNext(c, s, tasks, i - 1);
      FoundNext(c, s, tasks, i - 1, js);
      if Mismatched(c, s, tasks, i - 1) {
        var m := Mismatch(RecipeOf(c, tasks[i - 1].key), tasks[i - 1].key.task, Computed(c, s, tasks, i - 1),
                          LockOf(c, tasks[i - 1].key));
        js, ms := js + [i - 1], ms + [m];
      }
    }
  }

  lemma NoneFound(c: Config, s: State, tasks: seq<Task>)
    ensures Found(c, s, tasks, 0, [])
  {
  }

  /** The hash that the call of tasks[j] returns. */
  function Returned(c: Config, s: State, tasks: seq<Task>, j: nat): string
    requires j < |tasks|
  {
    if Respected(c, s, tasks, j) then LockOf(c, tasks[j].key).hash else Computed(c, s, tasks, j)
  }

  /** A call returns and records that, and touches no other key. */
  lemma HashRecords(c: Config, s: State, tasks: seq<Task>, j: nat)
    requires j < |tasks|
    ensures var before, after := Before(c, s, tasks, j), Before(c, s, tasks, j + 1);
            var k, returned := tasks[j].key, Returned(c, s, tasks, j);
            && Hash(c, before, tasks[j]).1 == returned
            && after.taskhash == before.taskhash[k := returned]
            && after.lockedhashes ==
               if Respected(c, s, tasks, j) then before.lockedhashes[k := returned] else before.lockedhashes
  {
    hide IsUnlocked, HasLock, Before;
    BeforeNext(c, s, tasks, j);
  }

  predicate Same(k: Key, m: map<Key, string>, m': map<Key, string>) {
    (k in m <==> k in m') && (k in m ==> m[k] == m'[k])
  }

  /** Calls for other keys leave what is recorded for k. */
  lemma {:induction false} OthersKeep(c: Config, s: State, tasks: seq<Task>, i: nat, j: nat, k: Key)
    requires i <= j <= |tasks| && forall l | i <= l < j :: tasks[l].key != k
    ensures Same(k, Before(c, s, tasks, i).taskhash, Before(c, s, tasks, j).taskhash)
    ensures Same(k, Before(c, s, tasks, i).lockedhashes, Before(c, s, tasks, j).lockedhashes)
    decreases j
  {
    hide Returned, Respected, Before;
    if i < j {
      OthersKeep(c, s, tasks, i, j - 1, k);
      HashRecords(c, s, tasks, j - 1);
    }
  }

  /** In a run that hashes each task once, the hash that a call returns stays
      recorded, and as a locked one exactly if its lock was used. */
  lemma RecordIs(c: Config, s: State, tasks: seq<Task>, i: nat, j: nat)
    requires j < i <= |tasks| && Ordered(tasks)
    ensures var k, after := tasks[j].key, Before(c, s, tasks, i);
            && k in after.taskhash && after.taskhash[k] == Returned(c, s, tasks, j)
            && (if Respected(c, s, tasks, j) then
                  k in after.lockedhashes && after.lockedhashes[k] == LockOf(c, k).hash
                else Same(k, s.lockedhashes, after.lockedhashes))
  {
    hide Respected, HasLock;
    assert Before(c, s, tasks, 0) == s by { assert tasks[..0] == []; }
    hide Before;
    OthersKeep(c, s, tasks, 0, j, tasks[j].key);
    HashRecords(c, s, tasks, j);
    OthersKeep(c, s, tasks, j + 1, i, tasks[j].key);
  }
}
