/** Locked-sigs files read back: what is written is what is read, and merging
    the same file in a second time changes nothing. */
module MergeRoundTrip {
  import opened Text
  import opened TextFile
  import opened MergeSigs
  import opened MergeLaws

  /** A type as it can be read from a file. */
  predicate GoodType(t: string) {
    "t-" <= t && '=' !in t && '\n' !in t && !IsSpace(t[|t| - 1])
  }

  predicate GoodEntries(lines: seq<string>) {
    forall line | line in lines :: FullLine(line) && Continues(line)
  }

  ghost predicate GoodSigs(sigs: map<string, seq<string>>) {
    forall t :: GoodEntries(Get(sigs, t))
  }

  predicate GoodTypes(types: seq<string>) {
    forall t | t in types :: GoodType(t)
  }

  // ---------------------------------------------------------------------
  // Headers

  lemma HeaderType(t: string)
    requires GoodType(t)
    ensures Opens(Header(t)) && TypeOf(Header(t)) == t
  {
    var rest := " \"\\\n";
    assert Header(t)[18..] == (t + " ") + ['='] + rest;
    SplitAt(t + " ", '=', rest);
    SplitPlain(t + " ", '=');
    RStripIs(t, " ");
    assert Header(t)[..20] == "SIGGEN_LOCKEDSIGS_t-" by {
      assert Header(t)[18..20] == t[..2] == "t-";
    }
  }

  lemma HeaderLine(t: string)
    requires GoodType(t)
    ensures FullLine(Header(t))
  {
    var h := Header(t);
    assert h[..|h| - 1] == "SIGGEN_LOCKEDSIGS_" + t + " = \"\\";
  }

  lemma {:induction false} JoinedLine(types: seq<string>)
    requires GoodTypes(types)
    ensures '\n' !in Join(types, ' ')
  {
    if |types| > 1 {
      assert GoodType(types[0]);
      JoinedLine(types[1..]);
    } else if |types| == 1 {
      assert GoodType(types[0]);
    }
  }

  lemma FooterLine(types: seq<string>)
    requires GoodTypes(types)
    ensures FullLine(Footer(types)) && !Opens(Footer(types)) && !Continues(Footer(types))
  {
    JoinedLine(types);
    var f := Footer(types);
    assert f[..|f| - 1] == "SIGGEN_LOCKEDSIGS_TYPES = \"" + Join(types, ' ') + "\"";
    assert f[18] == 'T' && f[|f| - 2] == '"';
    assert "SIGGEN_LOCKEDSIGS_t-"[18] == 't';
    assert "\\\n"[0] == '\\';
  }

  lemma EndLine()
    ensures FullLine(END) && !Continues(END)
  {
    assert END[..5] == "    \"";
    assert END[4] == '"' && "\\\n"[0] == '\\';
  }

  // ---------------------------------------------------------------------
  // Reading back what was written

  /** The blocks that write_sigs_file writes. */
  function Sections(types: seq<string>, sigs: map<string, seq<string>>): seq<Block> {
    if types == [] then []
    else (if Get(sigs, types[0]) == [] then [] else [Block(types[0], Get(sigs, types[0]))]) + Sections(types[1..], sigs)
  }

  lemma {:induction false} FullGood(types: seq<string>, sigs: map<string, seq<string>>)
    requires GoodTypes(types)
    ensures GoodTypes(Full(types, sigs))
  {
    if types != [] {
      FullGood(types[1..], sigs);
    }
  }

  lemma {:induction false} BodyLines(types: seq<string>, sigs: map<string, seq<string>>)
    requires GoodTypes(types) && GoodSigs(sigs)
    ensures forall line | line in Body(types, sigs) :: FullLine(line)
  {
    hide FullLine, GoodType, Header;
    if types != [] {
      var lines := Get(sigs, types[0]);
      BodyLines(types[1..], sigs);
      assert GoodEntries(lines);
      HeaderLine(types[0]);
      EndLine();
    }
  }

  lemma {:induction false} EntriesAre(lines: seq<string>, rest: seq<string>)
    requires GoodEntries(lines) && rest != [] && !Continues(rest[0])
    ensures Entries(lines + rest) == |lines|
  {
    hide FullLine, Continues;
    if lines == [] {
      PlusEmpty(rest);
    } else {
      PlusTail(lines, rest);
      EntriesAre(lines[1..], rest);
    }
  }

  lemma SectionBlocks(t: string, lines: seq<string>, rest: seq<string>)
    requires GoodType(t) && GoodEntries(lines) && lines != []
    ensures Blocks(Section(t, lines) + rest) == [Block(t, lines)] + Blocks(rest)
  {
    hide Header, TypeOf, Opens, Continues, FullLine, GoodType, GoodEntries;
    HeaderType(t);
    EndLine();
    var tail := lines + ([END] + rest);
    SectionTail(t, lines, rest);
    EntriesAre(lines, [END] + rest);
    PlusTail([Header(t)], tail);
    AfterEntries(lines, rest);
  }

  lemma SectionTail(t: string, lines: seq<string>, rest: seq<string>)
    requires lines != []
    ensures Section(t, lines) + rest == [Header(t)] + (lines + ([END] + rest))
    ensures ([Header(t)] + (lines + ([END] + rest)))[1..] == lines + ([END] + rest)
  {
    hide Header;
    Regroup([Header(t)], lines, [END], rest);
  }

  lemma AfterEntries(lines: seq<string>, rest: seq<string>)
    ensures (lines + ([END] + rest))[..|lines|] == lines && After(lines + ([END] + rest), |lines|) == rest
  {
  }

  lemma {:induction false} BodyBlocks(types: seq<string>, sigs: map<string, seq<string>>, last: string)
    requires GoodTypes(types) && GoodSigs(sigs) && !Opens(last)
    ensures Blocks(Body(types, sigs) + [last]) == Sections(types, sigs)
  {
    hide Section, Opens, GoodType, GoodEntries, Blocks;
    if types == [] {
      PlusEmpty([last]);
      NoBlocks(last);
    } else {
      var t := types[0];
      var lines := Get(sigs, t);
      BodyBlocks(types[1..], sigs, last);
      Assoc(Section(t, lines), Body(types[1..], sigs), [last]);
      if lines == [] {
        NoSection([], t);
        PlusEmpty(Section(t, []));
        PlusEmpty(Body(types[1..], sigs) + [last]);
        PlusEmpty(Sections(types[1..], sigs));
      } else {
        SectionBlocks(t, lines, Body(types[1..], sigs) + [last]);
      }
    }
  }

  lemma NoBlocks(last: string)
    requires !Opens(last)
    ensures Blocks([last]) == []
  {
    assert [last][1..] == [];
  }

  /** A written file is read as its non-empty types, in order, with their lines. */
  lemma ReadsBack(types: seq<string>, sigs: map<string, seq<string>>)
    requires GoodTypes(types) && GoodSigs(sigs)
    ensures Blocks(Lines(Written(types, sigs))) == Sections(types, sigs)
  {
    hide FullLine, GoodType, GoodEntries, Footer, Blocks, Lines, Body, Opens;
    FullGood(types, sigs);
    var footer := Footer(Full(types, sigs));
    FooterLine(Full(types, sigs));
    BodyLines(types, sigs);
    LinesConcat(Body(types, sigs) + [footer]);
    BodyBlocks(types, sigs, footer);
  }

  lemma {:induction false} SectionsRead(s: Sigs, types: seq<string>, sigs: map<string, seq<string>>, t: string)
    ensures var r := AddBlocks(s, Sections(types, sigs));
            && r.order == s.order + Full(types, sigs)
            && Get(r.lines, t) == if t in types && Get(sigs, t) != [] then Get(sigs, t) else Get(s.lines, t)
    decreases |types|
  {
    if types == [] {
      PlusEmpty(s.order);
    } else {
      var u, rest := types[0], Sections(types[1..], sigs);
      HeadTail(types);
      if Get(sigs, u) == [] {
        PlusEmpty(rest);
        PlusEmpty(Full(types[1..], sigs));
        SectionsRead(s, types[1..], sigs, t);
      } else {
        var b := Block(u, Get(sigs, u));
        PlusTail([b], rest);
        assert [b][1..] == [];
        PlusEmpty(rest);
        SectionsRead(Sigs(s.order + [u], s.lines[u := b.entries]), types[1..], sigs, t);
        Assoc(s.order, [u], Full(types[1..], sigs));
      }
    }
  }

  /** So the first reader of a merge finds every type as it was. */
  lemma MainReadsBack(types: seq<string>, sigs: map<string, seq<string>>)
    requires GoodTypes(types) && GoodSigs(sigs)
    ensures MainOf(Written(types, sigs)).order == Full(types, sigs)
    ensures forall t | t in types :: Get(MainOf(Written(types, sigs)).lines, t) == Get(sigs, t)
    ensures forall t | t !in types :: Get(MainOf(Written(types, sigs)).lines, t) == []
  {
    hide Written, Lines, Blocks, GoodTypes, GoodSigs, Sections, AddBlocks;
    var empty := Sigs([], map[]);
    ReadsBack(types, sigs);
    MainIsBlocks(empty, Lines(Written(types, sigs)));
    forall t: string
      ensures var r := AddBlocks(empty, Sections(types, sigs));
              r.order == Full(types, sigs) && Get(r.lines, t) == if t in types then Get(sigs, t) else []
    {
      SectionsRead(empty, types, sigs, t);
      PlusEmpty(Full(types, sigs));
    }
    assert MainOf(Written(types, sigs)).order == Full(types, sigs) by {
      SectionsRead(empty, types, sigs, "");
      PlusEmpty(Full(types, sigs));
    }
  }

  // ---------------------------------------------------------------------
  // What is read is good

  predicate GoodBlock(b: Block) {
    GoodType(b.typ) && GoodEntries(b.entries)
  }

  lemma {:induction false} SplitStart(s: string, c: char)
    ensures Split(s, c)[0] <= s && c !in Split(s, c)[0]
  {
    if s != "" {
      SplitStart(s[1..], c);
    }
  }

  lemma TypeOfGood(line: string)
    requires Opens(line) && '\n' !in line[..|line| - 1]
    ensures GoodType(TypeOf(line))
  {
    hide Split;
    var s := line[18..];
    assert s[..2] == "t-";
    TwoBeforeSplit(s);
    var part := Split(s, '=')[0];
    SplitStart(s, '=');
    assert !IsSpace(part[1]);
    var t := RStrip(part);
    assert |t| >= 2;
    assert IsSpace('\n');
    forall i | 0 <= i < |t| - 1 ensures t[i] != '\n' {
      assert t[i] == line[..|line| - 1][18 + i];
    }
  }

  lemma TwoBeforeSplit(s: string)
    requires "t-" <= s
    ensures "t-" <= Split(s, '=')[0]
  {
    var rest := s[2..];
    assert s == ['t'] + (['-'] + rest);
    SplitHead('t', ['-'] + rest, '=');
    SplitHead('-', rest, '=');
  }

  lemma {:induction false} EntriesGood(lines: seq<string>)
    requires Broken(lines)
    ensures GoodEntries(lines[..Entries(lines)])
  {
    var n := Entries(lines);
    if n > 0 {
      var line := lines[0];
      assert line[|line| - 2..][1] == '\n';
      EntriesGood(lines[1..]);
      assert lines[..n] == [line] + lines[1..][..n - 1];
    }
  }

  lemma {:induction false} BlocksGood(lines: seq<string>)
    requires Broken(lines)
    ensures forall b | b in Blocks(lines) :: GoodBlock(b)
    decreases |lines|
  {
    hide GoodType, GoodEntries, Opens, TypeOf, Continues;
    if lines != [] {
      if Opens(lines[0]) {
        var n := Entries(lines[1..]);
        TypeOfGood(lines[0]);
        EntriesGood(lines[1..]);
        BlocksGood(After(lines[1..], n));
      } else {
        BlocksGood(lines[1..]);
      }
    }
  }

  lemma {:induction false} MainGood(s: Sigs, bs: seq<Block>)
    requires GoodTypes(s.order) && GoodSigs(s.lines) && forall b | b in bs :: GoodBlock(b)
    ensures GoodTypes(AddBlocks(s, bs).order) && GoodSigs(AddBlocks(s, bs).lines)
    decreases |bs|
  {
    hide GoodType, GoodEntries;
    if bs != [] {
      var s' := Sigs(s.order + [bs[0].typ], s.lines[bs[0].typ := bs[0].entries]);
      assert GoodBlock(bs[0]);
      forall t: string ensures GoodEntries(Get(s'.lines, t)) {
        assert GoodEntries(Get(s.lines, t));
      }
      MainGood(s', bs[1..]);
    }
  }

  lemma {:induction false} KeepFrom(copyTasks: seq<string>, lines: seq<string>)
    ensures forall line | line in Keep(copyTasks, lines) :: line in lines
  {
    if lines != [] {
      KeepFrom(copyTasks, lines[1..]);
    }
  }

  ghost predicate GoodMerge(m: Merge) {
    GoodTypes(m.sigs.order) && GoodSigs(m.sigs.lines) && GoodSigs(m.tocopy) && forall t | t in m.tocopy :: GoodType(t)
  }

  lemma {:induction false} ExtraGood(copyTasks: seq<string>, m: Merge, bs: seq<Block>)
    requires GoodMerge(m) && forall b | b in bs :: GoodBlock(b)
    ensures var r := MergeBlocks(copyTasks, m, bs); r.Ok? ==> GoodMerge(r.value)
    decreases |bs|
  {
    hide GoodType, GoodEntries, AddEntries, OpenType, GoodMerge;
    if bs != [] {
      var r := AddBlock(copyTasks, m, bs[0]);
      assert GoodBlock(bs[0]);
      if r.Ok? {
        ExtraGoodStep(copyTasks, m, bs[0]);
        ExtraGood(copyTasks, r.value, bs[1..]);
      }
    }
  }

  lemma ExtraGoodStep(copyTasks: seq<string>, m: Merge, b: Block)
    requires GoodMerge(m) && GoodBlock(b) && AddBlock(copyTasks, m, b).Ok?
    ensures GoodMerge(AddBlock(copyTasks, m, b).value)
  {
    hide GoodType, FullLine, Continues, Missing, Keep, AddBlock, Copied;
    AddBlockIs(copyTasks, m, b);
    var m' := AddBlock(copyTasks, m, b).value;
    var have := Get(m.sigs.lines, b.typ);
    var added := Missing(have, b.entries);
    MissingMeans(have, b.entries);
    KeepFrom(copyTasks, added);
    assert GoodEntries(have);
    assert GoodEntries(have + added) && GoodEntries(Keep(copyTasks, added));
    forall t: string ensures GoodEntries(Get(m'.sigs.lines, t)) && GoodEntries(Get(m'.tocopy, t)) {
      assert GoodEntries(Get(m.sigs.lines, t)) && GoodEntries(Get(m.tocopy, t));
    }
  }

  lemma MergeGood(copyTasks: seq<string>, main: string, extra: string)
    ensures var r := MergeOf(copyTasks, main, extra); r.Ok? ==> GoodMerge(r.value) && Listed(r.value.sigs)
  {
    hide GoodType, GoodEntries, GoodBlock, MergeBlocks, AddBlocks, Blocks, Lines, ScanMain, ScanExtra;
    var empty := Sigs([], map[]);
    LinesBreak(main);
    LinesBreak(extra);
    BlocksGood(Lines(main));
    BlocksGood(Lines(extra));
    NoEntriesGood();
    MainIsBlocks(empty, Lines(main));
    MainGood(empty, Blocks(Lines(main)));
    ExtraIsBlocks(copyTasks, Merge(MainOf(main), map[]), Lines(extra));
    ExtraGood(copyTasks, Merge(MainOf(main), map[]), Blocks(Lines(extra)));
    OrderIsKeys(copyTasks, main, extra);
  }

  lemma NoEntriesGood()
    ensures GoodEntries([])
  {
  }

  /** Both files that a merge writes read back: the merged one as the merged
      types, the copy as the copied lines, whatever the order of its types. */
  lemma MergeReadsBack(copyTasks: seq<string>, main: string, extra: string, keys: seq<string>, t: string)
    requires MergeOf(copyTasks, main, extra).Ok?
    requires forall k :: k in keys <==> k in MergeOf(copyTasks, main, extra).value.tocopy
    ensures var m := MergeOf(copyTasks, main, extra).value;
            && Get(MainOf(Written(m.sigs.order, m.sigs.lines)).lines, t) == Get(m.sigs.lines, t)
            && MainOf(Written(m.sigs.order, m.sigs.lines)).order == Full(m.sigs.order, m.sigs.lines)
            && Get(MainOf(Written(keys, m.tocopy)).lines, t) == Get(m.tocopy, t)
  {
    hide MergeOf, MainOf, Written, GoodType, GoodSigs, Full;
    var m := MergeOf(copyTasks, main, extra).value;
    MergeGood(copyTasks, main, extra);
    MainReadsBack(m.sigs.order, m.sigs.lines);
    MainReadsBack(keys, m.tocopy);
    assert t in m.sigs.order <==> t in m.sigs.lines;
  }

  // ---------------------------------------------------------------------
  // Merging again

  lemma {:induction false} FullMeans(types: seq<string>, sigs: map<string, seq<string>>)
    ensures forall t :: t in Full(types, sigs) <==> t in types && Get(sigs, t) != []
  {
    if types != [] {
      FullMeans(types[1..], sigs);
      HeadTail(types);
    }
  }

  /** Only the types that have lines matter to what is written. */
  lemma {:induction false} WrittenSame(types: seq<string>, more: seq<string>, sigs: map<string, seq<string>>,
                                       sigs': map<string, seq<string>>)
    requires forall t :: Get(sigs', t) == Get(sigs, t)
    requires forall t | t in more :: Get(sigs, t) == []
    ensures Body(Full(types, sigs) + more, sigs') == Body(types, sigs)
    ensures Full(Full(types, sigs) + more, sigs') == Full(types, sigs)
    decreases |types| + |more|
  {
    hide Section;
    if types == [] {
      PlusEmpty(more);
      if more != [] {
        NoSection([], more[0]);
        PlusEmpty(Section(more[0], []));
        WrittenSame([], more[1..], sigs, sigs');
        PlusEmpty(more[1..]);
        assert Get(sigs', more[0]) == [];
      }
    } else {
      var t, rest := types[0], Full(types[1..], sigs);
      WrittenSame(types[1..], more, sigs, sigs');
      if Get(sigs, t) == [] {
        NoSection([], t);
        PlusEmpty(Section(t, []));
        PlusEmpty(rest);
      } else {
        Assoc([t], rest, more);
        PlusTail([t], rest + more);
        assert [t][1..] == [];
        PlusEmpty(rest + more);
        assert Get(sigs', t) == Get(sigs, t);
      }
    }
  }

  lemma {:induction false} NothingToCopy(copyTasks: seq<string>, m: Merge, bs: seq<Block>)
    requires forall t :: Get(m.tocopy, t) == []
    requires forall t, x | x in AllEntries(bs, t) :: x in Get(m.sigs.lines, t)
    ensures var r := MergeBlocks(copyTasks, m, bs); r.Ok? ==> forall t :: Get(r.value.tocopy, t) == []
    decreases |bs|
  {
    hide AddEntries, OpenType, Missing, Copied;
    if bs != [] {
      var b := bs[0];
      var r := AddBlock(copyTasks, m, b);
      AddBlockIs(copyTasks, m, b);
      forall x | x in b.entries ensures x in Get(m.sigs.lines, b.typ) {
        assert x in AllEntries(bs, b.typ);
      }
      NoneMissing(Get(m.sigs.lines, b.typ), b.entries);
      if r.Ok? {
        forall t: string, x | x in AllEntries(bs[1..], t) ensures x in Get(r.value.sigs.lines, t) {
          assert x in AllEntries(bs, t);
          assert x in Get(m.sigs.lines, t);
        }
        forall t: string ensures Get(r.value.tocopy, t) == [] {
          assert Get(m.tocopy, t) == [];
        }
        NothingToCopy(copyTasks, r.value, bs[1..]);
      }
    }
  }

  /** Merging the same second file into the merged output succeeds, writes the
      same text, and copies nothing, whatever the filter. */
  lemma MergeAgain(copyTasks: seq<string>, main: string, extra: string, others: seq<string>)
    requires MergeOf(copyTasks, main, extra).Ok?
    ensures var m := MergeOf(copyTasks, main, extra).value;
            var out := Written(m.sigs.order, m.sigs.lines);
            var again := MergeOf(others, out, extra);
            && again.Ok? && Written(again.value.sigs.order, again.value.sigs.lines) == out
            && forall t :: Get(again.value.tocopy, t) == []
  {
    hide MergeOf, Written, MainOf, GoodType, GoodSigs, Missing, Tasked, Full, Lines, Blocks, AllEntries, Types;
    var m := MergeOf(copyTasks, main, extra).value;
    var out := Written(m.sigs.order, m.sigs.lines);
    var bs := Blocks(Lines(extra));
    MergeGood(copyTasks, main, extra);
    MainReadsBack(m.sigs.order, m.sigs.lines);
    MergeKeepsAndAdds(copyTasks, main, extra);
    MergeKeepsAndAdds(others, out, extra);
    forall t: string ensures Get(MainOf(out).lines, t) == Get(m.sigs.lines, t) {
      assert t in m.sigs.order <==> t in m.sigs.lines;
    }
    forall t: string ensures Added(out, extra, t) == [] && Tasked(Added(out, extra, t)) {
      NoneMissing(Get(m.sigs.lines, t), AllEntries(bs, t));
      TaskedPlus([], []);
    }
    var again := MergeOf(others, out, extra).value;
    forall t: string ensures Get(again.sigs.lines, t) == Get(m.sigs.lines, t) {
      PlusEmpty(Get(m.sigs.lines, t));
    }
    AgainWritten(m.sigs, again.sigs, Types(bs));
    AgainCopies(others, out, extra);
  }

  lemma AgainWritten(s: Sigs, again: Sigs, types: seq<string>)
    requires Listed(s)
    requires forall t :: Get(again.lines, t) == Get(s.lines, t)
    requires again.order == Full(s.order, s.lines) + Missing(Full(s.order, s.lines), types)
    ensures Written(again.order, again.lines) == Written(s.order, s.lines)
  {
    hide Full, Missing, Body;
    var full := Full(s.order, s.lines);
    var more := Missing(full, types);
    FullMeans(s.order, s.lines);
    MissingMeans(full, types);
    WrittenSame(s.order, more, s.lines, again.lines);
  }

  lemma AgainCopies(others: seq<string>, out: string, extra: string)
    requires MergeOf(others, out, extra).Ok?
    requires forall t :: Added(out, extra, t) == []
    ensures forall t :: Get(MergeOf(others, out, extra).value.tocopy, t) == []
  {
    hide Missing, AllEntries, ScanMain, ScanExtra, MergeBlocks, Lines, Blocks;
    var bs := Blocks(Lines(extra));
    var m := Merge(MainOf(out), map[]);
    ExtraIsBlocks(others, m, Lines(extra));
    forall t: string, x | x in AllEntries(bs, t) ensures x in Get(m.sigs.lines, t) {
      MissingMeans(Get(m.sigs.lines, t), AllEntries(bs, t));
      assert Added(out, extra, t) == [];
    }
    NothingToCopy(others, m, bs);
  }
}
