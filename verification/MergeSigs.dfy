/** merge_lockedsigs: two locked-sigs files become one, and the lines that the
    second one added, those of certain tasks, are written to a third. */
module MergeSigs {
  import opened Text
  import opened TextFile

  datatype Error = ValueError

  /** The line of an entry, which goes on to the next line. */
  predicate Continues(line: string) {
    |line| >= 2 && line[|line| - 2..] == "\\\n"
  }

  /** The line that opens the variable of a type. */
  predicate Opens(line: string) {
    "SIGGEN_LOCKEDSIGS_t-" <= line
  }

  function TypeOf(line: string): string
    requires Opens(line)
  {
    RStrip(Split(line[18..], '=')[0])
  }

  /** line.strip().split(':') has a target and a task. */
  predicate HasTask(line: string) {
    |Split(Strip(line), ':')| >= 2
  }

  function TaskOf(line: string): string
    requires HasTask(line)
  {
    Split(Strip(line), ':')[1]
  }

  predicate Copied(copyTasks: seq<string>, line: string) {
    HasTask(line) && (copyTasks == [] || TaskOf(line) in copyTasks)
  }

  function Get(m: map<string, seq<string>>, t: string): seq<string> {
    if t in m then m[t] else []
  }

  /** arch_order and merged */
  datatype Sigs = Sigs(order: seq<string>, lines: map<string, seq<string>>)

  /** What is known while the second file is read. */
  datatype Merge = Merge(sigs: Sigs, tocopy: map<string, seq<string>>)

  // ---------------------------------------------------------------------
  // The two scans, line by line

  function ScanMain(invalue: Option<string>, s: Sigs, lines: seq<string>): Sigs
    decreases |lines|
  {
    if lines == [] then s
    else if invalue.Some? then
      if Continues(lines[0]) then
        ScanMain(invalue, s.(lines := s.lines[invalue.value := Get(s.lines, invalue.value) + [lines[0]]]), lines[1..])
      else ScanMain(None, s, lines[1..])
    else if Opens(lines[0]) then
      var t := TypeOf(lines[0]);
      ScanMain(Some(t), Sigs(s.order + [t], s.lines[t := []]), lines[1..])
    else ScanMain(None, s, lines[1..])
  }

  /** An entry of type t in the second file. */
  function AddLine(copyTasks: seq<string>, m: Merge, t: string, line: string): Result<Merge, Error> {
    if line in Get(m.sigs.lines, t) then Ok(m)
    else if !HasTask(line) then Err(ValueError)
    else
      Ok(Merge(m.sigs.(lines := m.sigs.lines[t := Get(m.sigs.lines, t) + [line]]),
               if Copied(copyTasks, line) then m.tocopy[t := Get(m.tocopy, t) + [line]] else m.tocopy))
  }

  /** The second file opens type t. */
  function OpenType(m: Merge, t: string): Merge {
    Merge(if t in m.sigs.lines then m.sigs else Sigs(m.sigs.order + [t], m.sigs.lines[t := []]), m.tocopy[t := []])
  }

  function ScanExtra(copyTasks: seq<string>, invalue: Option<string>, m: Merge,
                     lines: seq<string>): Result<Merge, Error>
    decreases |lines|
  {
    if lines == [] then Ok(m)
    else if invalue.Some? then
      if Continues(lines[0]) then
        match AddLine(copyTasks, m, invalue.value, lines[0])
        case Ok(m') => ScanExtra(copyTasks, invalue, m', lines[1..])
        case Err(e) => Err(e)
      else ScanExtra(copyTasks, None, m, lines[1..])
    else if Opens(lines[0]) then
      var t := TypeOf(lines[0]);
      ScanExtra(copyTasks, Some(t), OpenType(m, t), lines[1..])
    else ScanExtra(copyTasks, None, m, lines[1..])
  }

  method ReadMain(lines: seq<string>) returns (s: Sigs)
    ensures s == ScanMain(None, Sigs([], map[]), lines)
  {
    var merged: map<string, seq<string>>, order, invalue := map[], [], None;
    for i := 0 to |lines|
      invariant invalue.Some? ==> invalue.value in merged
      invariant ScanMain(invalue, Sigs(order, merged), lines[i..]) == ScanMain(None, Sigs([], map[]), lines)
    {
      var line := lines[i];
      assert lines[i..][1..] == lines[i + 1..];
      if invalue.Some? {
        var t := invalue.value;
        if Continues(line) {
          merged := merged[t := merged[t] + [line]];
        } else {
          invalue := None;
        }
      } else if Opens(line) {
        var t := TypeOf(line);
        invalue := Some(t);
        merged := merged[t := []];
        order := order + [t];
      }
    }
    s := Sigs(order, merged);
  }

  method ReadExtra(copyTasks: seq<string>, s: Sigs, lines: seq<string>) returns (r: Result<Merge, Error>)
    ensures r == ScanExtra(copyTasks, None, Merge(s, map[]), lines)
  {
    var merged, order := s.lines, s.order;
    var tocopy: map<string, seq<string>>, invalue := map[], None;
    for i := 0 to |lines|
      invariant invalue.Some? ==> invalue.value in merged && invalue.value in tocopy
      invariant ScanExtra(copyTasks, invalue, Merge(Sigs(order, merged), tocopy), lines[i..]) ==
                ScanExtra(copyTasks, None, Merge(s, map[]), lines)
    {
      var line := lines[i];
      assert lines[i..][1..] == lines[i + 1..];
      if invalue.Some? {
        var t := invalue.value;
        if Continues(line) {
          if line !in merged[t] {
            if !HasTask(line) {
              return Err(ValueError);
            }
            if copyTasks == [] || TaskOf(line) in copyTasks {
              tocopy := tocopy[t := tocopy[t] + [line]];
            }
            merged := merged[t := merged[t] + [line]];
          }
        } else {
          invalue := None;
        }
      } else if Opens(line) {
        var t := TypeOf(line);
        invalue := Some(t);
        if t !in merged {
          merged := merged[t := []];
          order := order + [t];
        }
        tocopy := tocopy[t := []];
      }
    }
    r := Ok(Merge(Sigs(order, merged), tocopy));
  }

  // ---------------------------------------------------------------------
  // Writing

  function Header(t: string): string {
    "SIGGEN_LOCKEDSIGS_" + t + " = \"\\\n"
  }

  const END := "    \"\n"

  function Footer(types: seq<string>): string {
    "SIGGEN_LOCKEDSIGS_TYPES = \"" + Join(types, ' ') + "\"\n"
  }

  /** The types that have lines. */
  function Full(types: seq<string>, sigs: map<string, seq<string>>): seq<string> {
    if types == [] then []
    else (if Get(sigs, types[0]) == [] then [] else [types[0]]) + Full(types[1..], sigs)
  }

  function Body(types: seq<string>, sigs: map<string, seq<string>>): seq<string> {
    if types == [] then [] else Section(types[0], Get(sigs, types[0])) + Body(types[1..], sigs)
  }

  function Section(t: string, lines: seq<string>): seq<string> {
    if lines == [] then [] else [Header(t)] + lines + [END]
  }

  /** The file that write_sigs_file writes. */
  function Written(types: seq<string>, sigs: map<string, seq<string>>): string {
    Concat(Body(types, sigs) + [Footer(Full(types, sigs))])
  }

  lemma {:induction false} BodyPlus(a: seq<string>, t: string, sigs: map<string, seq<string>>)
    ensures Body(a + [t], sigs) == Body(a, sigs) + Section(t, Get(sigs, t))
    ensures Full(a + [t], sigs) == Full(a, sigs) + (if Get(sigs, t) == [] then [] else [t])
  {
    hide Section;
    var last, lastFull := Section(t, Get(sigs, t)), if Get(sigs, t) == [] then [] else [t];
    if a == [] {
      assert [t][1..] == [] && [] + [t] == [t];
      PlusEmpty(last);
      PlusEmpty(lastFull);
    } else {
      PlusTail(a, [t]);
      BodyPlus(a[1..], t, sigs);
      Assoc(Section(a[0], Get(sigs, a[0])), Body(a[1..], sigs), last);
      Assoc(if Get(sigs, a[0]) == [] then [] else [a[0]], Full(a[1..], sigs), lastFull);
    }
  }

  lemma NothingWritten(sigs: map<string, seq<string>>)
    ensures Concat(Body([], sigs)) == "" && Full([], sigs) == []
  {
  }

  lemma SectionDone(before: seq<string>, t: string, lines: seq<string>)
    requires lines != []
    ensures Concat(before + [Header(t)] + lines) + END == Concat(before + Section(t, lines))
  {
    hide Concat;
    hide Header;
    ConcatSnoc(before + [Header(t)] + lines, END);
    Regroup(before, [Header(t)], lines, [END]);
    Assoc([Header(t)], lines, [END]);
  }

  method WriteSigsFile(types: seq<string>, sigs: map<string, seq<string>>) returns (f: string)
    requires forall t | t in types :: t in sigs
    ensures f == Written(types, sigs)
  {
    hide Body, Full, Concat, Join, Section, Header, Footer;
    var fulltypes: seq<string> := [];
    f := "";
    NothingWritten(sigs);
    assert types[..0] == [];
    for i := 0 to |types|
      invariant f == Concat(Body(types[..i], sigs)) && fulltypes == Full(types[..i], sigs)
    {
      var typename := types[i];
      var lines := sigs[typename];
      ghost var before := Body(types[..i], sigs);
      assert types[..i + 1] == types[..i] + [typename];
      BodyPlus(types[..i], typename, sigs);
      if lines != [] {
        f := f + Header(typename);
        ConcatSnoc(before, Header(typename));
        ghost var start := before + [Header(typename)];
        NothingYet(start, lines);
        for j := 0 to |lines|
          invariant f == Concat(start + lines[..j])
        {
          OneMore(start, lines, j);
          f := f + lines[j];
        }
        assert lines[..|lines|] == lines;
        f := f + END;
        SectionDone(before, typename, lines);
        fulltypes := fulltypes + [typename];
      } else {
        NoSection(before, typename);
        PlusEmpty(fulltypes);
      }
    }
    assert types[..|types|] == types;
    ConcatSnoc(Body(types, sigs), Footer(fulltypes));
    f := f + Footer(fulltypes);
  }

  lemma NoSection(before: seq<string>, t: string)
    ensures before + Section(t, []) == before
  {
  }

  lemma NothingYet(start: seq<string>, lines: seq<string>)
    ensures start + lines[..0] == start
  {
  }

  lemma OneMore(start: seq<string>, lines: seq<string>, j: nat)
    requires j < |lines|
    ensures Concat(start + lines[..j + 1]) == Concat(start + lines[..j]) + lines[j]
  {
    assert start + lines[..j + 1] == start + lines[..j] + [lines[j]];
    ConcatSnoc(start + lines[..j], lines[j]);
  }

  /** list(m.keys()), in whatever order. */
  method Keys(m: map<string, seq<string>>) returns (keys: seq<string>)
    ensures forall t :: t in keys <==> t in m
    ensures Distinct(keys)
  {
    keys := [];
    var left := m.Keys;
    while left != {}
      invariant left <= m.Keys && forall t :: t in keys <==> t in m && t !in left
      invariant Distinct(keys)
    {
      var t :| t in left;
      keys, left := keys + [t], left - {t};
    }
  }

  /** The two files that are written; keys is the order in which the copy lists its types. */
  datatype Files = Files(merged: string, copy: string, keys: seq<string>)

  function MergeOf(copyTasks: seq<string>, main: string, extra: string): Result<Merge, Error> {
    ScanExtra(copyTasks, None, Merge(ScanMain(None, Sigs([], map[]), Lines(main)), map[]), Lines(extra))
  }

  method MergeLockedSigs(copyTasks: seq<string>, main: string, extra: string) returns (r: Result<Files, Error>)
    ensures match MergeOf(copyTasks, main, extra)
            case Err(e) => r == Err(e)
            case Ok(m) =>
              && r.Ok? && r.value.merged == Written(m.sigs.order, m.sigs.lines)
              && r.value.copy == Written(r.value.keys, m.tocopy)
              && (forall t :: t in r.value.keys <==> t in m.tocopy)
              && Distinct(r.value.keys)
  {
    var s := ReadMain(Lines(main));
    var m := ReadExtra(copyTasks, s, Lines(extra));
    if m.Err? {
      return Err(m.error);
    }
    OrderIsKeys(copyTasks, main, extra);
    var keys := Keys(m.value.tocopy);
    var copy := WriteSigsFile(keys, m.value.tocopy);
    var merged := WriteSigsFile(m.value.sigs.order, m.value.sigs.lines);
    r := Ok(Files(merged, copy, keys));
  }

  // ---------------------------------------------------------------------
  // arch_order lists the keys of merged

  predicate Listed(s: Sigs) {
    (forall t | t in s.order :: t in s.lines) && (forall t | t in s.lines :: t in s.order)
  }

  lemma {:induction false} MainListed(invalue: Option<string>, s: Sigs, lines: seq<string>)
    requires Listed(s) && (invalue.Some? ==> invalue.value in s.lines)
    ensures Listed(ScanMain(invalue, s, lines))
    decreases |lines|
  {
    if lines != [] {
      if invalue.Some? {
        if Continues(lines[0]) {
          MainListed(invalue, s.(lines := s.lines[invalue.value := Get(s.lines, invalue.value) + [lines[0]]]),
              lines[1..]);
        } else {
          MainListed(None, s, lines[1..]);
        }
      } else if Opens(lines[0]) {
        var t := TypeOf(lines[0]);
        MainListed(Some(t), Sigs(s.order + [t], s.lines[t := []]), lines[1..]);
      } else {
        MainListed(None, s, lines[1..]);
      }
    }
  }

  lemma {:induction false} ExtraListed(copyTasks: seq<string>, invalue: Option<string>, m: Merge, lines: seq<string>)
    requires Listed(m.sigs) && (invalue.Some? ==> invalue.value in m.sigs.lines)
    ensures var r := ScanExtra(copyTasks, invalue, m, lines); r.Ok? ==> Listed(r.value.sigs)
    decreases |lines|
  {
    if lines != [] {
      if invalue.Some? {
        if Continues(lines[0]) {
          var r := AddLine(copyTasks, m, invalue.value, lines[0]);
          if r.Ok? {
            ExtraListed(copyTasks, invalue, r.value, lines[1..]);
          }
        } else {
          ExtraListed(copyTasks, None, m, lines[1..]);
        }
      } else if Opens(lines[0]) {
        ExtraListed(copyTasks, Some(TypeOf(lines[0])), OpenType(m, TypeOf(lines[0])), lines[1..]);
      } else {
        ExtraListed(copyTasks, None, m, lines[1..]);
      }
    }
  }

  lemma OrderIsKeys(copyTasks: seq<string>, main: string, extra: string)
    ensures var r := MergeOf(copyTasks, main, extra); r.Ok? ==> Listed(r.value.sigs)
  {
    MainListed(None, Sigs([], map[]), Lines(main));
    ExtraListed(copyTasks, None, Merge(ScanMain(None, Sigs([], map[]), Lines(main)), map[]), Lines(extra));
  }
}
