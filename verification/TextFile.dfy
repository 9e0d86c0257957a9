/** Text files: the lines that reading one gives, and the text that writing
    lines gives. */
module TextFile {
  import opened Text

  /** Iterating over a text file: its lines, each with its newline. */
  function Lines(text: string): seq<string> {
    if text == "" then [] else var n := LineLength(text); [text[..n]] + Lines(text[n..])
  }

  function LineLength(text: string): (n: nat)
    requires text != ""
    ensures 0 < n <= |text|
  {
    if text[0] == '\n' || |text| == 1 then 1 else 1 + LineLength(text[1..])
  }

  function Concat(lines: seq<string>): string {
    if lines == [] then "" else lines[0] + Concat(lines[1..])
  }

  /** A line that ends in its only newline. */
  predicate FullLine(line: string) {
    line != "" && line[|line| - 1] == '\n' && '\n' !in line[..|line| - 1]
  }

  /** No line has a newline before its last character. */
  predicate Broken(lines: seq<string>) {
    forall line | line in lines :: line != "" && '\n' !in line[..|line| - 1]
  }

  lemma {:induction false} ConcatPlus(a: seq<string>, b: seq<string>)
    ensures Concat(a + b) == Concat(a) + Concat(b)
  {
    if a == [] {
      PlusEmpty(b);
    } else {
      PlusTail(a, b);
      ConcatPlus(a[1..], b);
      Assoc(a[0], Concat(a[1..]), Concat(b));
    }
  }

  lemma ConcatNone()
    ensures Concat([]) == ""
  {
  }

  lemma ConcatOne(line: string)
    ensures Concat([line]) == line
  {
    assert [line][1..] == [];
    PlusEmpty(line);
  }

  lemma ConcatSnoc(a: seq<string>, line: string)
    ensures Concat(a + [line]) == Concat(a) + line
  {
    ConcatPlus(a, [line]);
    ConcatOne(line);
  }

  lemma {:induction false} LineLengthIs(line: string, rest: string)
    requires FullLine(line)
    ensures LineLength(line + rest) == |line|
  {
    if |line| > 1 {
      PlusTail(line, rest);
      assert line[0] == line[..|line| - 1][0];
      assert line[1..][..|line| - 2] == line[..|line| - 1][1..];
      LineLengthIs(line[1..], rest);
    }
  }

  lemma {:induction false} LinesConcat(lines: seq<string>)
    requires forall line | line in lines :: FullLine(line)
    ensures Lines(Concat(lines)) == lines
  {
    if lines != [] {
      var line, rest := lines[0], Concat(lines[1..]);
      LineLengthIs(line, rest);
      assert (line + rest)[..|line|] == line && (line + rest)[|line|..] == rest;
      LinesConcat(lines[1..]);
      HeadTail(lines);
    }
  }

  lemma {:induction false} LineEnds(text: string)
    requires text != ""
    ensures var n := LineLength(text); '\n' !in text[..n - 1]
  {
    var n := LineLength(text);
    if n > 1 {
      LineEnds(text[1..]);
      assert text[..n - 1] == [text[0]] + text[1..][..n - 2];
    }
  }

  lemma {:induction false} LinesBreak(text: string)
    ensures Broken(Lines(text))
  {
    if text != "" {
      var n := LineLength(text);
      LineEnds(text);
      LinesBreak(text[n..]);
      assert text[..n][..n - 1] == text[..n - 1];
    }
  }

  lemma {:induction false} RStripIs(s: string, space: string)
    requires s != "" && !IsSpace(s[|s| - 1])
    requires forall i | 0 <= i < |space| :: IsSpace(space[i])
    ensures RStrip(s + space) == s
  {
    var all := s + space;
    var t := RStrip(all);
    assert all[|s| - 1] == s[|s| - 1];
    assert |t| >= |s|;
    forall i | |s| <= i < |all| ensures IsSpace(all[i]) {
      assert all[i] == space[i - |s|];
    }
    assert t == all[..|t|];
    assert |t| <= |s|;
  }
}
