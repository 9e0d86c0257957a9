/** What the lines of a locked-sigs file say, for the filter of the copy and for
    the names that are written. */
module MergeLines {
  import opened Text
  import opened TextFile
  import opened MergeSigs
  import opened MergeLaws
  import LockedSigs

  // ---------------------------------------------------------------------
  // An entry

  /** The line of an entry: target:task:rest between blanks. */
  predicate EntryLine(line: string, target: string, task: string, rest: string) {
    ':' !in target && ':' !in task && Strip(line) == target + [':'] + task + [':'] + rest
  }

  /** Its task is the second part. */
  lemma TaskIs(line: string, target: string, task: string, rest: string)
    requires EntryLine(line, target, task, rest)
    ensures HasTask(line) && TaskOf(line) == task
  {
    hide Strip;
    SplitAt(target + [':'] + task, ':', rest);
    SplitAt(target, ':', task);
    SplitPlain(target, ':');
    SplitPlain(task, ':');
    hide Split;
    assert (([target] + [task]) + Split(rest, ':'))[1] == task;
  }

  /** Such a line as it stands in a file, indented and continued. */
  lemma EntryLineRead(indent: string, target: string, task: string, rest: string)
    requires forall i | 0 <= i < |indent| :: IsSpace(indent[i])
    requires ':' !in target && ':' !in task && target != "" && !IsSpace(target[0])
    ensures var line := indent + (target + [':'] + task + [':'] + (rest + "\\")) + "\n";
            EntryLine(line, target, task, rest + "\\") && Continues(line)
  {
    var head := target + [':'] + task + [':'];
    EntryEnds(target, task, rest);
    assert IsSpace('\n');
    hide IsSpace, Strip;
    StripIs(indent, head + (rest + "\\"), "\n");
    Assoc(head, rest, "\\");
    Assoc(indent, head + rest, "\\");
    Continued(indent + (head + rest));
  }

  lemma EntryEnds(target: string, task: string, rest: string)
    requires target != "" && !IsSpace(target[0])
    ensures var core := target + [':'] + task + [':'] + (rest + "\\");
            core != "" && !IsSpace(core[0]) && !IsSpace(core[|core| - 1])
  {
    var core := target + [':'] + task + [':'] + (rest + "\\");
    assert core[0] == target[0] && core[|core| - 1] == '\\';
    assert !IsSpace('\\');
  }

  lemma Continued(s: string)
    ensures Continues(s + "\\" + "\n")
  {
    var line := s + "\\" + "\n";
    assert line[|line| - 2..] == "\\\n";
  }

  lemma StripIs(before: string, core: string, after: string)
    requires core != "" && !IsSpace(core[0]) && !IsSpace(core[|core| - 1])
    requires forall i | 0 <= i < |before| :: IsSpace(before[i])
    requires forall i | 0 <= i < |after| :: IsSpace(after[i])
    ensures Strip(before + core + after) == core
  {
    RStripIs(before + core, after);
    hide RStrip;
    LStripBehind(before, core);
  }

  lemma LStripBehind(before: string, core: string)
    requires core != "" && !IsSpace(core[0])
    requires forall i | 0 <= i < |before| :: IsSpace(before[i])
    ensures LStrip(before + core) == core
  {
    var all := before + core;
    var t := LStrip(all);
    var n := |all| - |t|;
    assert all[|before|] == core[0];
    assert forall i | 0 <= i < |before| :: all[i] == before[i];
    assert t != "" ==> t[0] == all[n];
    assert all[|before|..] == core;
  }

  // ---------------------------------------------------------------------
  // The copy

  lemma {:induction false} KeepMeans(copyTasks: seq<string>, lines: seq<string>)
    ensures forall x :: x in Keep(copyTasks, lines) <==> x in lines && Copied(copyTasks, x)
  {
    hide Copied;
    if lines != [] {
      KeepMeans(copyTasks, lines[1..]);
      HeadTail(lines);
    }
  }

  /** An entry of the last block of a type that neither the first file nor an
      earlier block has is copied exactly if all tasks are, or its own; and
      nothing else is. */
  lemma CopiedByTask(copyTasks: seq<string>, main: string, extra: string, t: string, before: seq<Block>, b: Block,
                     after: seq<Block>)
    requires MergeOf(copyTasks, main, extra).Ok?
    requires Blocks(Lines(extra)) == before + [b] + after && b.typ == t && t !in Types(after)
    ensures var copied := Get(MergeOf(copyTasks, main, extra).value.tocopy, t);
            var have := Get(MainOf(main).lines, t);
            && (forall line | line in copied ::
                  line in b.entries && line !in have && line !in AllEntries(before, t))
            && (forall line, target, task, rest | EntryLine(line, target, task, rest) && line in b.entries
                  && line !in have && line !in AllEntries(before, t) ::
                  line in copied <==> copyTasks == [] || task in copyTasks)
  {
    hide MergeOf, MainOf, Blocks, Missing, AllEntries, Types, Lines, EntryLine, Keep, Copied;
    var have := Get(MainOf(main).lines, t);
    var early := Missing(have, AllEntries(before, t));
    var added := Missing(have + early, b.entries);
    CopyHoldsAddedIff(copyTasks, main, extra, t, before, b, after);
    MissingMeans(have, AllEntries(before, t));
    MissingMeans(have + early, b.entries);
    KeepMeans(copyTasks, added);
    forall line, target, task, rest | EntryLine(line, target, task, rest)
      ensures Copied(copyTasks, line) <==> copyTasks == [] || task in copyTasks
    {
      TaskIs(line, target, task, rest);
      CopiedMeans(copyTasks, line);
    }
  }

  lemma CopiedMeans(copyTasks: seq<string>, line: string)
    requires HasTask(line)
    ensures Copied(copyTasks, line) <==> copyTasks == [] || TaskOf(line) in copyTasks
  {
  }

  // ---------------------------------------------------------------------
  // The names that are written

  /** The variable of a type is the one that is read for it, and the last line
      lists the types, parted by blanks. */
  lemma NamesWritten(t: string, types: seq<string>) returns (list: string)
    requires types != [] && forall u | u in types :: ' ' !in u
    ensures LockedSigs.Variable(t) + " = " <= Header(t)
    ensures Footer(types) == LockedSigs.Variable("TYPES") + " = \"" + list + "\"\n" && Split(list, ' ') == types
  {
    list := Join(types, ' ');
    SplitJoin(types, ' ');
    assert Header(t) == (LockedSigs.Variable(t) + " = ") + "\"\\\n";
  }
}
