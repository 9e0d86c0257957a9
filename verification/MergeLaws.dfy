/** What merging locked signatures does, told by the blocks of the two files
    and not by their lines: what is kept, added and copied, and when it fails. */
module MergeLaws {
  import opened Text
  import opened TextFile
  import opened MergeSigs

  /** One variable of a locked-sigs file: its type and its entry lines. */
  datatype Block = Block(typ: string, entries: seq<string>)

  /** How many entry lines the lines start with. */
  function Entries(lines: seq<string>): (n: nat)
    ensures n <= |lines|
  {
    if lines != [] && Continues(lines[0]) then 1 + Entries(lines[1..]) else 0
  }

  /** What follows n entry lines and the line that ends them. */
  function After(lines: seq<string>, n: nat): seq<string> {
    if n < |lines| then lines[n + 1..] else []
  }

  function Blocks(lines: seq<string>): seq<Block>
    decreases |lines|
  {
    if lines == [] then []
    else if Opens(lines[0]) then
      var n := Entries(lines[1..]);
      [Block(TypeOf(lines[0]), lines[1..][..n])] + Blocks(After(lines[1..], n))
    else Blocks(lines[1..])
  }

  function Types(bs: seq<Block>): seq<string> {
    if bs == [] then [] else [bs[0].typ] + Types(bs[1..])
  }

  /** The entries of type t, over all blocks, in order. */
  function AllEntries(bs: seq<Block>, t: string): seq<string> {
    if bs == [] then [] else (if bs[0].typ == t then bs[0].entries else []) + AllEntries(bs[1..], t)
  }

  /** The first occurrences in xs of what is not in have. */
  function Missing(have: seq<string>, xs: seq<string>): seq<string>
    decreases |xs|
  {
    if xs == [] then []
    else if xs[0] in have then Missing(have, xs[1..])
    else [xs[0]] + Missing(have + [xs[0]], xs[1..])
  }

  /** The lines whose task passes the filter. */
  function Keep(copyTasks: seq<string>, lines: seq<string>): seq<string> {
    if lines == [] then [] else (if Copied(copyTasks, lines[0]) then [lines[0]] else []) + Keep(copyTasks, lines[1..])
  }

  // ---------------------------------------------------------------------
  // Missing

  lemma {:induction false} MissingMeans(have: seq<string>, xs: seq<string>)
    ensures forall x :: x in Missing(have, xs) <==> x in xs && x !in have
    ensures Distinct(Missing(have, xs))
    decreases |xs|
  {
    if xs == [] {
    } else {
      HeadTail(xs);
      if xs[0] in have {
        MissingMeans(have, xs[1..]);
      } else {
        var rest := Missing(have + [xs[0]], xs[1..]);
        MissingMeans(have + [xs[0]], xs[1..]);
        forall i, j | 0 <= i < j < |[xs[0]] + rest| ensures ([xs[0]] + rest)[i] != ([xs[0]] + rest)[j] {
          assert rest[j - 1] in rest;
          if i > 0 {
            assert rest[i - 1] != rest[j - 1];
          }
        }
      }
    }
  }

  lemma {:induction false} MissingPlus(have: seq<string>, xs: seq<string>, ys: seq<string>)
    ensures Missing(have, xs + ys) == Missing(have, xs) + Missing(have + Missing(have, xs), ys)
    decreases |xs|
  {
    if xs == [] {
      PlusEmpty(ys);
      PlusEmpty(have);
      PlusEmpty(Missing(have, ys));
    } else {
      PlusTail(xs, ys);
      if xs[0] in have {
        MissingPlus(have, xs[1..], ys);
      } else {
        var have' := have + [xs[0]];
        MissingPlus(have', xs[1..], ys);
        Assoc(have, [xs[0]], Missing(have', xs[1..]));
        Assoc([xs[0]], Missing(have', xs[1..]), Missing(have' + Missing(have', xs[1..]), ys));
      }
    }
  }

  lemma {:induction false} NoneMissing(have: seq<string>, xs: seq<string>)
    requires forall x | x in xs :: x in have
    ensures Missing(have, xs) == []
    decreases |xs|
  {
    if xs != [] {
      assert xs[0] in xs;
      NoneMissing(have, xs[1..]);
    }
  }

  lemma {:induction false} KeepPlus(copyTasks: seq<string>, a: seq<string>, b: seq<string>)
    ensures Keep(copyTasks, a + b) == Keep(copyTasks, a) + Keep(copyTasks, b)
  {
    hide Copied;
    if a == [] {
      PlusEmpty(b);
      PlusEmpty(Keep(copyTasks, b));
    } else {
      PlusTail(a, b);
      KeepPlus(copyTasks, a[1..], b);
      Assoc(if Copied(copyTasks, a[0]) then [a[0]] else [], Keep(copyTasks, a[1..]), Keep(copyTasks, b));
    }
  }

  lemma {:induction false} AllEntriesPlus(a: seq<Block>, b: seq<Block>, t: string)
    ensures AllEntries(a + b, t) == AllEntries(a, t) + AllEntries(b, t)
  {
    if a == [] {
      PlusEmpty(b);
      PlusEmpty(AllEntries(b, t));
    } else {
      PlusTail(a, b);
      AllEntriesPlus(a[1..], b, t);
      Assoc(if a[0].typ == t then a[0].entries else [], AllEntries(a[1..], t), AllEntries(b, t));
    }
  }

  // ---------------------------------------------------------------------
  // The first file

  function AddBlocks(s: Sigs, bs: seq<Block>): Sigs
    decreases |bs|
  {
    if bs == [] then s
    else AddBlocks(Sigs(s.order + [bs[0].typ], s.lines[bs[0].typ := bs[0].entries]), bs[1..])
  }

  lemma {:induction false} MainEntries(t: string, s: Sigs, lines: seq<string>)
    requires t in s.lines
    ensures var n := Entries(lines);
            ScanMain(Some(t), s, lines) ==
                ScanMain(None, s.(lines := s.lines[t := s.lines[t] + lines[..n]]), After(lines, n))
    decreases |lines|
  {
    hide Continues, Opens;
    var n := Entries(lines);
    if n == 0 {
      PlusEmpty(s.lines[t]);
      assert lines[..0] == [] && s.lines[t := s.lines[t]] == s.lines;
    } else {
      var s' := s.(lines := s.lines[t := s.lines[t] + [lines[0]]]);
      MainEntries(t, s', lines[1..]);
      Assoc(s.lines[t], [lines[0]], lines[1..][..n - 1]);
      assert [lines[0]] + lines[1..][..n - 1] == lines[..n];
      assert s'.lines[t := s.lines[t] + lines[..n]] == s.lines[t := s.lines[t] + lines[..n]];
      assert After(lines, n) == After(lines[1..], n - 1);
    }
  }

  lemma {:induction false} MainIsBlocks(s: Sigs, lines: seq<string>)
    ensures ScanMain(None, s, lines) == AddBlocks(s, Blocks(lines))
    decreases |lines|
  {
    hide Continues, Opens, TypeOf;
    if lines != [] {
      if Opens(lines[0]) {
        var t, n := TypeOf(lines[0]), Entries(lines[1..]);
        var b := Block(t, lines[1..][..n]);
        MainEntries(t, Sigs(s.order + [t], s.lines[t := []]), lines[1..]);
        PlusEmpty(b.entries);
        assert s.lines[t := []][t := b.entries] == s.lines[t := b.entries];
        MainIsBlocks(Sigs(s.order + [t], s.lines[t := b.entries]), After(lines[1..], n));
        PlusTail([b], Blocks(After(lines[1..], n)));
        assert [b][1..] == [];
        PlusEmpty(Blocks(After(lines[1..], n)));
      } else {
        MainIsBlocks(s, lines[1..]);
      }
    }
  }

  lemma {:induction false} AddBlocksPlus(s: Sigs, a: seq<Block>, b: seq<Block>)
    ensures AddBlocks(s, a + b) == AddBlocks(AddBlocks(s, a), b)
    decreases |a|
  {
    if a == [] {
      PlusEmpty(b);
    } else {
      PlusTail(a, b);
      AddBlocksPlus(Sigs(s.order + [a[0].typ], s.lines[a[0].typ := a[0].entries]), a[1..], b);
    }
  }

  lemma {:induction false} AddBlocksElsewhere(s: Sigs, bs: seq<Block>, t: string)
    requires t !in Types(bs)
    ensures Get(AddBlocks(s, bs).lines, t) == Get(s.lines, t) && AllEntries(bs, t) == []
    decreases |bs|
  {
    if bs != [] {
      AddBlocksElsewhere(Sigs(s.order + [bs[0].typ], s.lines[bs[0].typ := bs[0].entries]), bs[1..], t);
    }
  }

  /** The first file as merge_lockedsigs reads it. */
  function MainOf(main: string): Sigs {
    ScanMain(None, Sigs([], map[]), Lines(main))
  }

  /** The first file keeps all entries of type t, in order, exactly if every
      block of t but the last one is empty; here b is the last. */
  lemma MainKeepsAllIff(main: string, t: string, before: seq<Block>, b: Block, after: seq<Block>)
    requires Blocks(Lines(main)) == before + [b] + after && b.typ == t && t !in Types(after)
    ensures Get(MainOf(main).lines, t) == b.entries
    ensures Get(MainOf(main).lines, t) == AllEntries(Blocks(Lines(main)), t) <==> AllEntries(before, t) == []
  {
    hide ScanMain, Blocks;
    var empty := Sigs([], map[]);
    MainIsBlocks(empty, Lines(main));
    Assoc(before, [b], after);
    AddBlocksPlus(empty, before, [b] + after);
    PlusTail([b], after);
    assert [b][1..] == [];
    PlusEmpty(after);
    var s := AddBlocks(empty, before);
    AddBlocksElsewhere(Sigs(s.order + [t], s.lines[t := b.entries]), after, t);
    AllEntriesPlus(before, [b] + after, t);
    PlusEmpty(b.entries);
  }

  // ---------------------------------------------------------------------
  // The second file

  function AddEntries(copyTasks: seq<string>, m: Merge, t: string, lines: seq<string>): Result<Merge, Error>
    decreases |lines|
  {
    if lines == [] then Ok(m)
    else
      match AddLine(copyTasks, m, t, lines[0])
      case Ok(m') => AddEntries(copyTasks, m', t, lines[1..])
      case Err(e) => Err(e)
  }

  function MergeBlocks(copyTasks: seq<string>, m: Merge, bs: seq<Block>): Result<Merge, Error>
    decreases |bs|
  {
    if bs == [] then Ok(m)
    else
      match AddEntries(copyTasks, OpenType(m, bs[0].typ), bs[0].typ, bs[0].entries)
      case Ok(m') => MergeBlocks(copyTasks, m', bs[1..])
      case Err(e) => Err(e)
  }

  lemma {:induction false} ExtraEntries(copyTasks: seq<string>, t: string, m: Merge, lines: seq<string>)
    ensures var n := Entries(lines);
            ScanExtra(copyTasks, Some(t), m, lines) ==
            match AddEntries(copyTasks, m, t, lines[..n])
            case Ok(m') => ScanExtra(copyTasks, None, m', After(lines, n))
            case Err(e) => Err(e)
    decreases |lines|
  {
    hide Continues, Opens, AddLine;
    var n := Entries(lines);
    if n > 0 {
      assert lines[..n][1..] == lines[1..][..n - 1];
      assert After(lines, n) == After(lines[1..], n - 1);
      var r := AddLine(copyTasks, m, t, lines[0]);
      if r.Ok? {
        ExtraEntries(copyTasks, t, r.value, lines[1..]);
      }
    }
  }

  lemma {:induction false} ExtraIsBlocks(copyTasks: seq<string>, m: Merge, lines: seq<string>)
    ensures ScanExtra(copyTasks, None, m, lines) == MergeBlocks(copyTasks, m, Blocks(lines))
    decreases |lines|
  {
    hide Continues, Opens, AddLine, OpenType, TypeOf, AddEntries;
    if lines != [] {
      if Opens(lines[0]) {
        var t, n := TypeOf(lines[0]), Entries(lines[1..]);
        var b := Block(t, lines[1..][..n]);
        ExtraEntries(copyTasks, t, OpenType(m, t), lines[1..]);
        var r := AddEntries(copyTasks, OpenType(m, t), t, b.entries);
        if r.Ok? {
          ExtraIsBlocks(copyTasks, r.value, After(lines[1..], n));
        }
        PlusTail([b], Blocks(After(lines[1..], n)));
        assert [b][1..] == [];
        PlusEmpty(Blocks(After(lines[1..], n)));
      } else {
        ExtraIsBlocks(copyTasks, m, lines[1..]);
      }
    }
  }

  predicate Tasked(lines: seq<string>) {
    forall line | line in lines :: HasTask(line)
  }

  /** One block: its missing lines are added, and the wanted ones among them copied. */
  lemma {:induction false} AddEntriesIs(copyTasks: seq<string>, m: Merge, t: string, lines: seq<string>)
    requires t in m.sigs.lines && t in m.tocopy
    ensures var r := AddEntries(copyTasks, m, t, lines);
            var added := Missing(m.sigs.lines[t], lines);
            && (r.Ok? <==> Tasked(added))
            && (r.Ok? ==> r.value == Merge(m.sigs.(lines := m.sigs.lines[t := m.sigs.lines[t] + added]),
                                           m.tocopy[t := m.tocopy[t] + Keep(copyTasks, added)]))
    decreases |lines|
  {
    hide Copied, HasTask;
    if lines == [] {
      PlusEmpty(m.sigs.lines[t]);
      PlusEmpty(m.tocopy[t]);
      SameEntry(m.sigs.lines, t);
      SameEntry(m.tocopy, t);
    } else if lines[0] in m.sigs.lines[t] {
      AddEntriesIs(copyTasks, m, t, lines[1..]);
    } else if HasTask(lines[0]) {
      AddEntriesStep(copyTasks, m, t, lines);
    } else {
      assert lines[0] in Missing(m.sigs.lines[t], lines);
    }
  }

  lemma SameEntry(m: map<string, seq<string>>, t: string)
    requires t in m
    ensures m[t := m[t]] == m
  {
  }

  lemma {:induction false} AddEntriesStep(copyTasks: seq<string>, m: Merge, t: string, lines: seq<string>)
    requires t in m.sigs.lines && t in m.tocopy && lines != [] && lines[0] !in m.sigs.lines[t] && HasTask(lines[0])
    ensures var r := AddEntries(copyTasks, m, t, lines);
            var added := Missing(m.sigs.lines[t], lines);
            && (r.Ok? <==> Tasked(added))
            && (r.Ok? ==> r.value == Merge(m.sigs.(lines := m.sigs.lines[t := m.sigs.lines[t] + added]),
                                           m.tocopy[t := m.tocopy[t] + Keep(copyTasks, added)]))
    decreases |lines|, 0
  {
    hide Copied, HasTask, AddEntries, AddLine, Missing, Keep, Tasked;
    var line, have, copied := lines[0], m.sigs.lines[t], m.tocopy[t];
    var kept := if Copied(copyTasks, line) then [line] else [];
    var m' := Merge(m.sigs.(lines := m.sigs.lines[t := have + [line]]), m.tocopy[t := copied + kept]);
    FirstAdded(copyTasks, m, t, lines);
    AddEntriesIs(copyTasks, m', t, lines[1..]);
    var added := Missing(have + [line], lines[1..]);
    FirstKept(copyTasks, line, added);
    Assoc(have, [line], added);
    Assoc(copied, kept, Keep(copyTasks, added));
  }

  lemma FirstAdded(copyTasks: seq<string>, m: Merge, t: string, lines: seq<string>)
    requires t in m.sigs.lines && t in m.tocopy && lines != [] && lines[0] !in m.sigs.lines[t] && HasTask(lines[0])
    ensures var line, have := lines[0], m.sigs.lines[t];
            var kept := if Copied(copyTasks, line) then [line] else [];
            var m' := Merge(m.sigs.(lines := m.sigs.lines[t := have + [line]]), m.tocopy[t := m.tocopy[t] + kept]);
            && AddEntries(copyTasks, m, t, lines) == AddEntries(copyTasks, m', t, lines[1..])
            && Missing(have, lines) == [line] + Missing(have + [line], lines[1..])
  {
    hide Copied, HasTask;
    PlusEmpty(m.tocopy[t]);
    SameEntry(m.tocopy, t);
  }

  lemma FirstKept(copyTasks: seq<string>, line: string, rest: seq<string>)
    ensures Keep(copyTasks, [line] + rest) == (if Copied(copyTasks, line) then [line] else []) + Keep(copyTasks, rest)
    ensures HasTask(line) ==> (Tasked([line] + rest) <==> Tasked(rest))
  {
    hide Copied, HasTask;
    assert ([line] + rest)[1..] == rest;
    assert forall x :: x in [line] + rest <==> x == line || x in rest;
  }

  function AddBlock(copyTasks: seq<string>, m: Merge, b: Block): Result<Merge, Error> {
    AddEntries(copyTasks, OpenType(m, b.typ), b.typ, b.entries)
  }

  /** Opening a type leaves its lines, and writing them again hides that. */
  lemma Opened(m: Merge, t: string, lines: seq<string>)
    ensures var opened' := OpenType(m, t);
            && t in opened'.sigs.lines && opened'.sigs.lines[t] == Get(m.sigs.lines, t)
            && t in opened'.tocopy && opened'.tocopy[t] == []
            && opened'.sigs.lines[t := lines] == m.sigs.lines[t := lines]
            && opened'.tocopy[t := lines] == m.tocopy[t := lines]
            && opened'.sigs.order == m.sigs.order + (if t in m.sigs.lines then [] else [t])
  {
    PlusEmpty(m.sigs.order);
  }

  lemma AddBlockIs(copyTasks: seq<string>, m: Merge, b: Block)
    ensures var r := AddBlock(copyTasks, m, b);
            var have := Get(m.sigs.lines, b.typ);
            var added := Missing(have, b.entries);
            && (r.Ok? <==> Tasked(added))
            && (r.Ok? ==>
                  && r.value.sigs.order == m.sigs.order + (if b.typ in m.sigs.lines then [] else [b.typ])
                  && r.value.sigs.lines == m.sigs.lines[b.typ := have + added]
                  && r.value.tocopy == m.tocopy[b.typ := Keep(copyTasks, added)])
  {
    hide Missing, Keep, Tasked, OpenType, AddEntries;
    var added := Missing(Get(m.sigs.lines, b.typ), b.entries);
    Opened(m, b.typ, Get(m.sigs.lines, b.typ) + added);
    Opened(m, b.typ, Keep(copyTasks, added));
    AddEntriesIs(copyTasks, OpenType(m, b.typ), b.typ, b.entries);
    PlusEmpty(Keep(copyTasks, added));
  }

  /** Every type keeps its lines and gets its missing ones. */
  lemma {:induction false} MergedLines(copyTasks: seq<string>, m: Merge, bs: seq<Block>, t: string)
    ensures var r := MergeBlocks(copyTasks, m, bs);
            r.Ok? ==>
              Get(r.value.sigs.lines, t) == Get(m.sigs.lines, t) + Missing(Get(m.sigs.lines, t), AllEntries(bs, t))
    decreases |bs|
  {
    hide AddEntries, OpenType, Missing, Keep;
    var have := Get(m.sigs.lines, t);
    if bs == [] {
      NoneMissing(have, []);
      PlusEmpty(have);
    } else {
      var r := AddBlock(copyTasks, m, bs[0]);
      AddBlockIs(copyTasks, m, bs[0]);
      if r.Ok? {
        MergedLines(copyTasks, r.value, bs[1..], t);
        if bs[0].typ == t {
          var added := Missing(have, bs[0].entries);
          MissingPlus(have, bs[0].entries, AllEntries(bs[1..], t));
          Assoc(have, added, Missing(have + added, AllEntries(bs[1..], t)));
        } else {
          PlusEmpty(AllEntries(bs[1..], t));
        }
      }
    }
  }

  lemma {:induction false} MergedOrder(copyTasks: seq<string>, m: Merge, bs: seq<Block>)
    requires Listed(m.sigs)
    ensures var r := MergeBlocks(copyTasks, m, bs);
            r.Ok? ==> r.value.sigs.order == m.sigs.order + Missing(m.sigs.order, Types(bs)) && Listed(r.value.sigs)
    decreases |bs|
  {
    hide AddEntries, OpenType, Keep;
    if bs == [] {
      PlusEmpty(m.sigs.order);
    } else {
      var t, r := bs[0].typ, AddBlock(copyTasks, m, bs[0]);
      AddBlockIs(copyTasks, m, bs[0]);
      if r.Ok? {
        ListedStep(m.sigs, t, r.value.sigs);
        MergedOrder(copyTasks, r.value, bs[1..]);
        PlusTail([t], Types(bs[1..]));
        assert [t][1..] == [];
        PlusEmpty(Types(bs[1..]));
        if t in m.sigs.lines {
          PlusEmpty(m.sigs.order);
        } else {
          Assoc(m.sigs.order, [t], Missing(m.sigs.order + [t], Types(bs[1..])));
        }
      }
    }
  }

  lemma ListedStep(s: Sigs, t: string, s': Sigs)
    requires Listed(s) && s'.lines.Keys == s.lines.Keys + {t}
    requires s'.order == s.order + (if t in s.lines then [] else [t])
    ensures Listed(s')
  {
    forall u | u in s'.lines ensures u in s'.order {
      if u !in s.lines {
        assert u == t;
      }
    }
  }

  /** The merge fails exactly if some line that would be added names no task. */
  lemma {:induction false} MergeFailsIff(copyTasks: seq<string>, m: Merge, bs: seq<Block>)
    ensures MergeBlocks(copyTasks, m, bs).Ok? <==> forall t :: Tasked(Missing(Get(m.sigs.lines, t), AllEntries(bs, t)))
    decreases |bs|
  {
    hide AddEntries, OpenType, Missing, Keep, Tasked;
    if bs == [] {
      forall t: string ensures Tasked(Missing(Get(m.sigs.lines, t), [])) {
        NoneMissing(Get(m.sigs.lines, t), []);
        TaskedPlus([], []);
      }
    } else {
      var r := AddBlock(copyTasks, m, bs[0]);
      AddBlockIs(copyTasks, m, bs[0]);
      if r.Ok? {
        MergeFailsIff(copyTasks, r.value, bs[1..]);
        forall t: string
          ensures Tasked(Missing(Get(m.sigs.lines, t), AllEntries(bs, t))) <==>
                  Tasked(Missing(Get(r.value.sigs.lines, t), AllEntries(bs[1..], t)))
        {
          FailsStep(m.sigs.lines, bs, t);
        }
      } else {
        FailsStep(m.sigs.lines, bs, bs[0].typ);
      }
    }
  }

  /** The missing lines of t: those that the first block adds, then the rest. */
  lemma FailsStep(have: map<string, seq<string>>, bs: seq<Block>, t: string)
    requires bs != []
    ensures var u := bs[0].typ;
            var added := Missing(Get(have, u), bs[0].entries);
            Tasked(Missing(Get(have, t), AllEntries(bs, t))) <==>
            (t == u ==> Tasked(added))
                && Tasked(Missing(Get(have[u := Get(have, u) + added], t), AllEntries(bs[1..], t)))
  {
    hide Missing, Tasked;
    if t == bs[0].typ {
      var h := Get(have, t);
      MissingPlus(h, bs[0].entries, AllEntries(bs[1..], t));
      var added := Missing(h, bs[0].entries);
      TaskedPlus(added, Missing(h + added, AllEntries(bs[1..], t)));
    } else {
      PlusEmpty(AllEntries(bs[1..], t));
    }
  }

  lemma TaskedPlus(a: seq<string>, b: seq<string>)
    ensures Tasked([]) && (Tasked(a + b) <==> Tasked(a) && Tasked(b))
  {
    hide HasTask;
    if Tasked(a + b) {
      forall line | line in a ensures HasTask(line) {
        assert line in a + b;
      }
      forall line | line in b ensures HasTask(line) {
        assert line in a + b;
      }
    }
  }

  lemma {:induction false} MergeBlocksPlus(copyTasks: seq<string>, m: Merge, a: seq<Block>, b: seq<Block>)
    ensures var r := MergeBlocks(copyTasks, m, a);
            MergeBlocks(copyTasks, m, a + b) == if r.Ok? then MergeBlocks(copyTasks, r.value, b) else r
    decreases |a|
  {
    hide AddEntries, OpenType;
    if a == [] {
      PlusEmpty(b);
    } else {
      PlusTail(a, b);
      var r := AddBlock(copyTasks, m, a[0]);
      if r.Ok? {
        MergeBlocksPlus(copyTasks, r.value, a[1..], b);
      }
    }
  }

  lemma {:induction false} CopiedElsewhere(copyTasks: seq<string>, m: Merge, bs: seq<Block>, t: string)
    requires t !in Types(bs)
    ensures var r := MergeBlocks(copyTasks, m, bs);
            r.Ok? ==> Get(r.value.tocopy, t) == Get(m.tocopy, t) && AllEntries(bs, t) == []
    decreases |bs|
  {
    hide AddEntries, OpenType, Missing, Keep;
    if bs != [] {
      var r := AddBlock(copyTasks, m, bs[0]);
      AddBlockIs(copyTasks, m, bs[0]);
      if r.Ok? {
        CopiedElsewhere(copyTasks, r.value, bs[1..], t);
      }
    }
  }

  lemma {:induction false} CopiedTypes(copyTasks: seq<string>, m: Merge, bs: seq<Block>)
    ensures var r := MergeBlocks(copyTasks, m, bs);
            r.Ok? ==> forall t :: t in r.value.tocopy <==> t in m.tocopy || t in Types(bs)
    decreases |bs|
  {
    hide AddEntries, OpenType, Missing, Keep;
    if bs != [] {
      var r := AddBlock(copyTasks, m, bs[0]);
      AddBlockIs(copyTasks, m, bs[0]);
      if r.Ok? {
        CopiedTypes(copyTasks, r.value, bs[1..]);
      }
    }
  }

  // ---------------------------------------------------------------------
  // The merge of two files

  /** The lines of type t that merging adds to those of the first file. */
  function Added(main: string, extra: string, t: string): seq<string> {
    Missing(Get(MainOf(main).lines, t), AllEntries(Blocks(Lines(extra)), t))
  }

  /** The merge succeeds unless a line to be added names no task; then every
      type keeps the lines of the first file, in order, followed by exactly the
      lines of the second file that were missing, each once. */
  lemma MergeKeepsAndAdds(copyTasks: seq<string>, main: string, extra: string)
    ensures var r := MergeOf(copyTasks, main, extra);
            && (r.Ok? <==> forall t :: Tasked(Added(main, extra, t)))
            && (r.Ok? ==> forall t :: Get(r.value.sigs.lines, t) == Get(MainOf(main).lines, t) + Added(main, extra, t))
            && (r.Ok? ==>
                  r.value.sigs.order == MainOf(main).order + Missing(MainOf(main).order, Types(Blocks(Lines(extra)))))
            && (r.Ok? ==> forall t :: t in r.value.tocopy <==> t in Types(Blocks(Lines(extra))))
    ensures forall t, x :: x in Added(main, extra, t) <==>
            x in AllEntries(Blocks(Lines(extra)), t) && x !in Get(MainOf(main).lines, t)
    ensures forall t :: Distinct(Added(main, extra, t))
  {
    hide MergeBlocks, ScanMain, ScanExtra, Blocks, Missing, Tasked, Lines;
    var s, bs := MainOf(main), Blocks(Lines(extra));
    var m := Merge(s, map[]);
    MainListed(None, Sigs([], map[]), Lines(main));
    ExtraIsBlocks(copyTasks, m, Lines(extra));
    MergeFailsIff(copyTasks, m, bs);
    MergedOrder(copyTasks, m, bs);
    CopiedTypes(copyTasks, m, bs);
    forall t: string
      ensures var r := MergeBlocks(copyTasks, m, bs); r.Ok? ==>
              Get(r.value.sigs.lines, t) == Get(s.lines, t) + Added(main, extra, t)
    {
      MergedLines(copyTasks, m, bs, t);
    }
    forall t: string
      ensures forall x :: x in Added(main, extra, t) <==> x in AllEntries(bs, t) && x !in Get(s.lines, t)
      ensures Distinct(Added(main, extra, t))
    {
      MissingMeans(Get(s.lines, t), AllEntries(bs, t));
    }
  }

  /** The copy holds, for the last block of each type, the added lines that
      pass the filter. It holds all such lines exactly if the earlier blocks of
      the type in the second file added none: opening a type again forgets them. */
  lemma CopyHoldsAddedIff(copyTasks: seq<string>, main: string, extra: string, t: string, before: seq<Block>, b: Block,
                          after: seq<Block>)
    requires MergeOf(copyTasks, main, extra).Ok?
    requires Blocks(Lines(extra)) == before + [b] + after && b.typ == t && t !in Types(after)
    ensures var have := Get(MainOf(main).lines, t);
            var early := Missing(have, AllEntries(before, t));
            var copied := Get(MergeOf(copyTasks, main, extra).value.tocopy, t);
            && copied == Keep(copyTasks, Missing(have + early, b.entries))
            && (copied == Keep(copyTasks, Added(main, extra, t)) <==> Keep(copyTasks, early) == [])
  {
    hide MergeBlocks, ScanMain, ScanExtra, Blocks, Missing, AllEntries, AddEntries, OpenType, Types, Lines;
    var have := Get(MainOf(main).lines, t);
    var m := Merge(MainOf(main), map[]);
    ExtraIsBlocks(copyTasks, m, Lines(extra));
    Assoc(before, [b], after);
    MergeBlocksPlus(copyTasks, m, before, [b] + after);
    MergedLines(copyTasks, m, before, t);
    var m1 := MergeBlocks(copyTasks, m, before).value;
    AddBlockIs(copyTasks, m1, b);
    MergeBlocksCons(copyTasks, m1, b, after);
    CopiedElsewhere(copyTasks, AddBlock(copyTasks, m1, b).value, after, t);
    LastAdds(have, before, b, after);
    KeepPlus(copyTasks, Missing(have, AllEntries(before, t)),
        Missing(have + Missing(have, AllEntries(before, t)), b.entries));
    PrefixEmpty(Keep(copyTasks, Missing(have, AllEntries(before, t))),
        Keep(copyTasks, Missing(have + Missing(have, AllEntries(before, t)), b.entries)));
  }

  lemma PrefixEmpty<T>(a: seq<T>, b: seq<T>)
    ensures b == a + b <==> a == []
  {
    if b == a + b {
      assert |b| == |a| + |b|;
    } else {
      PlusEmpty(b);
    }
  }

  lemma MergeBlocksCons(copyTasks: seq<string>, m: Merge, b: Block, after: seq<Block>)
    ensures var r := AddBlock(copyTasks, m, b);
            MergeBlocks(copyTasks, m, [b] + after) == if r.Ok? then MergeBlocks(copyTasks, r.value, after) else r
  {
    hide AddEntries, OpenType;
    PlusTail([b], after);
    assert [b][1..] == [];
    PlusEmpty(after);
  }

  lemma LastAdds(have: seq<string>, before: seq<Block>, b: Block, after: seq<Block>)
    requires AllEntries(after, b.typ) == []
    ensures var t := b.typ;
            var early := Missing(have, AllEntries(before, t));
            Missing(have, AllEntries(before + [b] + after, t)) == early + Missing(have + early, b.entries)
  {
    hide Missing;
    var t := b.typ;
    Assoc(before, [b], after);
    AllEntriesPlus(before, [b] + after, t);
    AllEntriesPlus([b], after, t);
    assert [b][1..] == [];
    PlusEmpty(b.entries);
    MissingPlus(have, AllEntries(before, t), b.entries);
  }
}
