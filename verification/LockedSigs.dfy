/** sstate_lockedsigs: the locked hash of every recipe and task, read from the
    variables of the types. */
module LockedSigs {
  import opened Text
  import opened TaskHash

  datatype Error = ValueError

  type Table = map<string, map<string, Locked>>

  /** One word of a variable. */
  datatype Entry = Entry(variable: string, word: string)

  /** word.split(":", 2) has its three parts. */
  predicate Complete(word: string) {
    |Split(word, ':')| >= 3
  }

  function RecipePart(word: string): string
    requires Complete(word)
  {
    Split(word, ':')[0]
  }

  function TaskPart(word: string): string
    requires Complete(word)
  {
    Split(word, ':')[1]
  }

  /** The rest of the word, with its colons. */
  function HashPart(word: string): string
    requires Complete(word)
  {
    Join(Split(word, ':')[2..], ':')
  }

  predicate Has(sigs: Table, pn: string, task: string) {
    pn in sigs && task in sigs[pn]
  }

  function Variable(t: string): string {
    "SIGGEN_LOCKEDSIGS_" + t
  }

  /** All the words, variable by variable. */
  function Entries(types: seq<string>, words: string -> seq<string>): seq<Entry> {
    if types == [] then []
    else EntriesOf(Variable(types[0]), words(Variable(types[0]))) + Entries(types[1..], words)
  }

  function EntriesOf(variable: string, words: seq<string>): seq<Entry> {
    if words == [] then [] else [Entry(variable, words[0])] + EntriesOf(variable, words[1..])
  }

  function Store(sigs: Table, e: Entry): Table
    requires Complete(e.word)
  {
    var pn := RecipePart(e.word);
    var tasks := if pn in sigs then sigs[pn] else map[];
    sigs[pn := tasks[TaskPart(e.word) := Locked(HashPart(e.word), e.variable)]]
  }

  function StoreAll(sigs: Table, entries: seq<Entry>): Result<Table, Error>
    decreases |entries|
  {
    if entries == [] then Ok(sigs)
    else if !Complete(entries[0].word) then Err(ValueError)
    else StoreAll(Store(sigs, entries[0]), entries[1..])
  }

  /** words(variable) is the value of the variable, split. */
  method SstateLockedSigs(types: seq<string>, words: string -> seq<string>) returns (r: Result<Table, Error>)
    ensures r == StoreAll(map[], Entries(types, words))
  {
    hide Store, Complete;
    var sigs: Table := map[];
    for i := 0 to |types|
      invariant StoreAll(sigs, Entries(types[i..], words)) == StoreAll(map[], Entries(types, words))
    {
      var variable := Variable(types[i]);
      var lockedsigs := words(variable);
      ghost var later := Entries(types[i + 1..], words);
      assert types[i..][1..] == types[i + 1..];
      for j := 0 to |lockedsigs|
        invariant StoreAll(sigs, EntriesOf(variable, lockedsigs[j..]) + later) == StoreAll(map[], Entries(types, words))
      {
        NextEntry(variable, lockedsigs, j, later);
        var ls := lockedsigs[j];
        if !Complete(ls) {
          return Err(ValueError);
        }
        sigs := StoreWord(sigs, ls, variable);
      }
      assert EntriesOf(variable, lockedsigs[|lockedsigs|..]) + later == later;
    }
    r := Ok(sigs);
  }

  method StoreWord(sigs: Table, ls: string, variable: string) returns (more: Table)
    requires Complete(ls)
    ensures more == Store(sigs, Entry(variable, ls))
  {
    more := sigs;
    var pn, task, h := RecipePart(ls), TaskPart(ls), HashPart(ls);
    if pn !in more {
      more := more[pn := map[]];
    }
    more := more[pn := more[pn][task := Locked(h, variable)]];
  }

  lemma NextEntry(variable: string, words: seq<string>, j: nat, later: seq<Entry>)
    requires j < |words|
    ensures var all := EntriesOf(variable, words[j..]) + later;
            all != [] && all[0] == Entry(variable, words[j]) && all[1..] == EntriesOf(variable, words[j + 1..]) + later
  {
    assert words[j..][1..] == words[j + 1..];
    var rest := EntriesOf(variable, words[j + 1..]);
    Assoc([Entry(variable, words[j])], rest, later);
    PlusTail([Entry(variable, words[j])], rest + later);
  }

  /** The parts of a word; only the hash may have colons itself. */
  lemma PartsAre(word: string, pn: string, task: string, h: string)
    requires ':' !in pn && ':' !in task
    ensures Complete(word) && RecipePart(word) == pn && TaskPart(word) == task && HashPart(word) == h <==>
            word == pn + [':'] + task + [':'] + h
  {
    if word == pn + [':'] + task + [':'] + h {
      SplitAt(pn + [':'] + task, ':', h);
      SplitAt(pn, ':', task);
      SplitPlain(pn, ':');
      SplitPlain(task, ':');
      JoinedBack(h);
      hide Split, Join;
      var parts := [pn] + [task] + Split(h, ':');
      assert parts[0] == pn && parts[1] == task && parts[2..] == Split(h, ':');
    } else if Complete(word) && RecipePart(word) == pn && TaskPart(word) == task && HashPart(word) == h {
      JoinedBack(word);
      ThreeParts(Split(word, ':'));
      assert false;
    }
  }

  lemma {:induction false} JoinedBack(s: string)
    ensures Join(Split(s, ':'), ':') == s
  {
    if s != "" {
      JoinedBack(s[1..]);
      var parts := Split(s[1..], ':');
      if s[0] == ':' {
        assert ([""] + parts)[1..] == parts;
      } else if |parts| > 1 {
        Regroup([s[0]], parts[0], [':'], Join(parts[1..], ':'));
      }
      HeadTail(s);
    }
  }

  lemma ThreeParts(parts: seq<string>)
    requires |parts| >= 3
    ensures Join(parts, ':') == parts[0] + [':'] + parts[1] + [':'] + Join(parts[2..], ':')
  {
    assert parts[1..][1..] == parts[2..];
    assert Join(parts, ':') == parts[0] + [':'] + (parts[1] + [':'] + Join(parts[2..], ':'));
  }

  /** The words come variable by variable in the order of the types, and in each in their own. */
  lemma {:induction false} EntriesPlus(a: seq<string>, b: seq<string>, words: string -> seq<string>)
    ensures Entries(a + b, words) == Entries(a, words) + Entries(b, words)
  {
    if a == [] {
      PlusEmpty(b);
      PlusEmpty(Entries(b, words));
    } else {
      PlusTail(a, b);
      EntriesPlus(a[1..], b, words);
      Assoc(EntriesOf(Variable(a[0]), words(Variable(a[0]))), Entries(a[1..], words), Entries(b, words));
    }
  }

  lemma EntriesOne(t: string, words: string -> seq<string>)
    ensures var es, ws := Entries([t], words), words("SIGGEN_LOCKEDSIGS_" + t);
            |es| == |ws| && forall i | 0 <= i < |ws| :: es[i] == Entry("SIGGEN_LOCKEDSIGS_" + t, ws[i])
  {
    assert [t][1..] == [];
    PlusEmpty(EntriesOf(Variable(t), words(Variable(t))));
    EntriesAt(Variable(t), words(Variable(t)));
  }

  lemma {:induction false} EntriesAt(variable: string, words: seq<string>)
    ensures var es := EntriesOf(variable, words);
            |es| == |words| && forall i | 0 <= i < |words| :: es[i] == Entry(variable, words[i])
  {
    if words != [] {
      EntriesAt(variable, words[1..]);
    }
  }

  /** Entry k is for this recipe and task. */
  predicate For(entries: seq<Entry>, k: nat, pn: string, task: string) {
    k < |entries| && Complete(entries[k].word) && RecipePart(entries[k].word) == pn && TaskPart(entries[k].word) == task
  }

  /** The table is read unless some word lacks a part; it then has exactly the
      recipes and tasks that some entry is for, and the last entry for each wins. */
  lemma LastEntryWins(types: seq<string>, words: string -> seq<string>)
    ensures var entries := Entries(types, words);
            var r := StoreAll(map[], entries);
            && (r.Ok? <==> forall e | e in entries :: Complete(e.word))
            && (r.Ok? ==> forall pn, task :: Has(r.value, pn, task) <==> exists k: nat :: For(entries, k, pn, task))
            && (r.Ok? ==> forall pn, task,
               k: nat | For(entries, k, pn, task) && (forall j | k < j < |entries| :: !For(entries, j, pn, task)) ::
                  Has(r.value, pn, task) && r.value[pn][task] == Locked(HashPart(entries[k].word), entries[k].variable))
  {
    hide Complete, Store;
    var entries := Entries(types, words);
    var r := StoreAll(map[], entries);
    StoredIffComplete(map[], entries);
    if r.Ok? {
      forall pn: string, task: string
        ensures Has(r.value, pn, task) <==> exists k: nat :: For(entries, k, pn, task)
        ensures forall k: nat | For(entries, k, pn, task)
                && (forall j | k < j < |entries| :: !For(entries, j, pn, task)) ::
                  Has(r.value, pn, task) && r.value[pn][task] == Locked(HashPart(entries[k].word), entries[k].variable)
      {
        Stored(map[], entries, pn, task);
      }
    }
  }

  lemma {:induction false} StoredIffComplete(sigs: Table, entries: seq<Entry>)
    ensures StoreAll(sigs, entries).Ok? <==> forall e | e in entries :: Complete(e.word)
    decreases |entries|
  {
    hide Store;
    if entries != [] {
      HeadTail(entries);
      if Complete(entries[0].word) {
        StoredIffComplete(Store(sigs, entries[0]), entries[1..]);
      }
    }
  }

  lemma {:induction false} Stored(sigs: Table, entries: seq<Entry>, pn: string, task: string)
    requires StoreAll(sigs, entries).Ok?
    ensures var t := StoreAll(sigs, entries).value;
            && (Has(t, pn, task) <==> Has(sigs, pn, task) || exists k: nat :: For(entries, k, pn, task))
            && (forall k: nat | For(entries, k, pn, task)
               && (forall j | k < j < |entries| :: !For(entries, j, pn, task)) ::
                  Has(t, pn, task) && t[pn][task] == Locked(HashPart(entries[k].word), entries[k].variable))
            && ((forall k: nat :: !For(entries, k, pn, task)) && Has(sigs, pn, task) ==> t[pn][task] == sigs[pn][task])
    decreases |entries|
  {
    hide Complete, RecipePart, TaskPart, HashPart;
    if entries != [] {
      var e, rest := entries[0], entries[1..];
      var sigs' := Store(sigs, e);
      Stored(sigs', rest, pn, task);
      var t := StoreAll(sigs', rest).value;
      var here := For(entries, 0, pn, task);
      assert Has(sigs', pn, task) <==> Has(sigs, pn, task) || here;
      forall k: nat ensures For(entries, k + 1, pn, task) == For(rest, k, pn, task) {
      }
      if k: nat :| For(entries, k, pn, task) {
        assert k > 0 ==> For(rest, k - 1, pn, task);
      }
      if k: nat :| For(rest, k, pn, task) {
        assert For(entries, k + 1, pn, task);
      }
      forall k: nat | For(entries, k, pn, task) && (forall j | k < j < |entries| :: !For(entries, j, pn, task))
        ensures Has(t, pn, task) && t[pn][task] == Locked(HashPart(entries[k].word), entries[k].variable)
      {
        if k > 0 {
          assert For(rest, k - 1, pn, task);
          forall j | k - 1 < j < |rest| ensures !For(rest, j, pn, task) {
            assert !For(entries, j + 1, pn, task);
          }
        } else {
          forall j: nat ensures !For(rest, j, pn, task) {
            if j < |rest| {
              assert !For(entries, j + 1, pn, task);
            }
          }
        }
      }
      if (forall k: nat :: !For(entries, k, pn, task)) && Has(sigs, pn, task) {
        assert !here;
        forall j: nat ensures !For(rest, j, pn, task) {
          assert !For(entries, j + 1, pn, task);
        }
      }
    }
  }

  /** The word gives recipe and task this hash. */
  predicate Says(word: string, pn: string, task: string, h: string) {
    word == pn + [':'] + task + [':'] + h
  }

  lemma ForSays(entries: seq<Entry>, k: nat, pn: string, task: string)
    requires ':' !in pn && ':' !in task && k < |entries|
    ensures For(entries, k, pn, task) ==> Says(entries[k].word, pn, task, HashPart(entries[k].word))
    ensures forall h :: Says(entries[k].word, pn, task, h) ==>
                        For(entries, k, pn, task) && HashPart(entries[k].word) == h
  {
    hide Complete, RecipePart, TaskPart, HashPart;
    forall h
      ensures Says(entries[k].word, pn, task, h) ==> For(entries, k, pn, task) && HashPart(entries[k].word) == h
    {
      PartsAre(entries[k].word, pn, task, h);
    }
    if For(entries, k, pn, task) {
      PartsAre(entries[k].word, pn, task, HashPart(entries[k].word));
    }
  }

  /** The table in terms of the words themselves: the last word pn:task:hash of
      all variables gives the hash, with the variable it stands in. */
  lemma LastWordWins(types: seq<string>, words: string -> seq<string>, k: nat, pn: string, task: string, h: string)
    requires ':' !in pn && ':' !in task
    requires var entries := Entries(types, words);
             && StoreAll(map[], entries).Ok? && k < |entries| && Says(entries[k].word, pn, task, h)
             && forall j, h' | k < j < |entries| :: !Says(entries[j].word, pn, task, h')
    ensures var r := StoreAll(map[], Entries(types, words)).value;
            Has(r, pn, task) && r[pn][task] == Locked(h, Entries(types, words)[k].variable)
  {
    hide Complete, RecipePart, TaskPart, HashPart, Store, StoreAll, Entries, Says;
    var entries := Entries(types, words);
    LastEntryWins(types, words);
    ForSays(entries, k, pn, task);
    forall j: nat | k < j < |entries| ensures !For(entries, j, pn, task) {
      ForSays(entries, j, pn, task);
    }
  }
}
