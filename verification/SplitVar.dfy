/** split_var_value: the items of a variable's value, where the whitespace
    inside an expression does not separate. */
module SplitVar {
  import opened Text
  import opened TextFile

  /** The state of the character loop; last is None for the empty string. */
  datatype Scanner = Scanner(inexpr: int, last: Option<char>, out: seq<string>, buf: string)

  predicate Quote(c: char) {
    c == '"' || c == '\''
  }

  predicate HasQuote(s: string) {
    '"' in s || '\'' in s
  }

  /** The characters that separate items outside expressions. */
  predicate Separates(assignment: bool, c: char) {
    IsSpace(c) || (assignment && Quote(c))
  }

  function Flush(st: Scanner): seq<string> {
    if st.buf != "" then st.out + [st.buf] else st.out
  }

  function Step(assignment: bool, st: Scanner, c: char): Scanner {
    if c == '{' then Scanner(if st.last == Some('$') then st.inexpr + 1 else st.inexpr, Some(c), st.out, st.buf + [c])
    else if c == '}' then Scanner(st.inexpr - 1, Some(c), st.out, st.buf + [c])
    else if assignment && Quote(c) && st.inexpr == 0 then Scanner(0, None, Flush(st) + [[c]], "")
    else if IsSpace(c) && st.inexpr == 0 then Scanner(0, None, Flush(st), "")
    else Scanner(st.inexpr, Some(c), st.out, st.buf + [c])
  }

  /** The state after all of value. */
  function Scan(assignment: bool, value: string): Scanner {
    if value == "" then Scanner(0, None, [], "")
    else Step(assignment, Scan(assignment, value[..|value| - 1]), value[|value| - 1])
  }

  /** The items before assignments are put together. */
  function Items(assignment: bool, value: string): seq<string> {
    Flush(Scan(assignment, value))
  }

  /** The second loop, from item idx on. */
  function Assigned(out: seq<string>, idx: nat, found: bool): seq<string>
    requires idx <= |out|
    decreases |out| - idx
  {
    if idx == |out| then out
    else
      var found' := found || '=' in out[idx];
      if found' && HasQuote(out[idx]) then [Join(out[..idx + 1], ' ')] + out[idx + 1..]
      else Assigned(out, idx + 1, found')
  }

  function SplitValue(value: string, assignment: bool): seq<string> {
    var out := Items(assignment, value);
    if assignment then Assigned(out, 0, false) else out
  }

  method SplitVarValue(value: string, assignment: bool) returns (outlist: seq<string>)
    ensures outlist == SplitValue(value, assignment)
  {
    hide IsSpace, Join, HasQuote;
    var inexpr: int, last: Option<char>, out: seq<string>, buf: string := 0, None, [], "";
    for i := 0 to |value|
      invariant Scanner(inexpr, last, out, buf) == Scan(assignment, value[..i])
    {
      var c := value[i];
      assert value[..i + 1][..i] == value[..i];
      var kept := [c];
      if c == '{' {
        if last == Some('$') {
          inexpr := inexpr + 1;
        }
      } else if c == '}' {
        inexpr := inexpr - 1;
      } else if assignment && Quote(c) && inexpr == 0 {
        if buf != "" {
          out := out + [buf];
        }
        out := out + [[c]];
        kept := "";
        buf := "";
      } else if IsSpace(c) && inexpr == 0 {
        kept := "";
        if buf != "" {
          out := out + [buf];
        }
        buf := "";
      }
      buf := buf + kept;
      last := if kept == "" then None else Some(c);
    }
    assert value[..|value|] == value;
    if buf != "" {
      out := out + [buf];
    }
    outlist := out;
    if assignment {
      var found := false;
      for idx := 0 to |out|
        invariant Assigned(out, idx, found) == Assigned(out, 0, false)
      {
        if '=' in out[idx] {
          found := true;
        }
        if found && HasQuote(out[idx]) {
          return [Join(out[..idx + 1], ' ')] + out[idx + 1..];
        }
      }
    }
  }

  // ---------------------------------------------------------------------
  // Depth, and what is kept

  /** How deep in expressions the end of s is: each "${" opens one, each "}" closes one. */
  function Depth(s: string): int {
    if s == "" then 0
    else
      var n := |s| - 1;
      Depth(s[..n]) + if s[n] == '{' && n > 0 && s[n - 1] == '$' then 1 else if s[n] == '}' then -1 else 0
  }

  /** s without the whitespace at depth zero. */
  function Visible(s: string): string {
    if s == "" then ""
    else
      var n := |s| - 1;
      Visible(s[..n]) + if IsSpace(s[n]) && Depth(s[..n]) == 0 then "" else [s[n]]
  }

  lemma {:induction false} ScanDepth(assignment: bool, value: string)
    ensures var st := Scan(assignment, value);
            && st.inexpr == Depth(value)
            && (st.last == Some('$') <==> value != "" && value[|value| - 1] == '$')
  {
    if value != "" {
      ScanDepth(assignment, value[..|value| - 1]);
      assert !IsSpace('$') && !IsSpace('{') && !IsSpace('}');
    }
  }

  lemma FlushConcat(st: Scanner)
    ensures Concat(Flush(st)) == Concat(st.out) + st.buf
  {
    if st.buf != "" {
      ConcatSnoc(st.out, st.buf);
    } else {
      PlusEmpty(Concat(st.out));
    }
  }

  /** The items hold, in order, exactly the input without the whitespace read
      outside expressions; in both modes, and for unbalanced braces too. */
  lemma {:induction false} ItemsAreVisible(assignment: bool, value: string)
    ensures Concat(Items(assignment, value)) == Visible(value)
  {
    FlushConcat(Scan(assignment, value));
    ScanIsVisible(assignment, value);
  }

  lemma {:induction false} ScanIsVisible(assignment: bool, value: string)
    ensures Concat(Scan(assignment, value).out) + Scan(assignment, value).buf == Visible(value)
  {
    hide IsSpace, Step, Concat, Depth;
    if value == "" {
      ConcatNone();
    } else {
      var n := |value| - 1;
      ScanIsVisible(assignment, value[..n]);
      ScanDepth(assignment, value[..n]);
      StepVisible(assignment, Scan(assignment, value[..n]), value[n]);
    }
  }

  lemma StepVisible(assignment: bool, st: Scanner, c: char)
    ensures var after := Step(assignment, st, c);
            Concat(after.out) + after.buf ==
                Concat(st.out) + st.buf + (if IsSpace(c) && st.inexpr == 0 then "" else [c])
  {
    hide IsSpace, Flush, Concat;
    FlushConcat(st);
    NotSpace();
    PlusEmpty(Concat(Flush(st)));
    if assignment && Quote(c) && st.inexpr == 0 {
      ConcatSnoc(Flush(st), [c]);
      PlusEmpty(Concat(Flush(st)) + [c]);
    } else {
      Assoc(Concat(st.out), st.buf, [c]);
    }
  }

  lemma NotSpace()
    ensures !IsSpace('{') && !IsSpace('}') && !IsSpace('"') && !IsSpace('\'') && !IsSpace('=') && IsSpace(' ')
  {
  }

  // ---------------------------------------------------------------------
  // Items

  /** No character of s separates: each that could lies in an expression. */
  predicate Whole(assignment: bool, s: string) {
    forall i | 0 <= i < |s| :: Separates(assignment, s[i]) ==> Depth(s[..i]) != 0
  }

  /** A list that splitting could have returned: non-empty whole items, all but
      the last of which end at depth zero. */
  predicate WellSplit(items: seq<string>) {
    forall k | 0 <= k < |items| ::
      items[k] != "" && Whole(false, items[k]) && (k < |items| - 1 ==> Depth(items[k]) == 0)
  }

  lemma {:induction false} ScanWhole(assignment: bool, s: string)
    requires s != "" && Whole(assignment, s)
    ensures var st := Scan(assignment, s); st.out == [] && st.buf == s && st.inexpr == Depth(s)
  {
    hide IsSpace;
    var n := |s| - 1;
    ScanDepth(assignment, s);
    ScanDepth(assignment, s[..n]);
    assert s[..n] + [s[n]] == s;
    if n > 0 {
      forall i | 0 <= i < n ensures Separates(assignment, s[..n][i]) ==> Depth(s[..n][..i]) != 0 {
        assert s[..n][..i] == s[..i];
      }
      ScanWhole(assignment, s[..n]);
    }
  }

  /** What is being read and what has been read is whole. */
  predicate Reading(st: Scanner) {
    && (forall x | x in st.out :: x != "" && Whole(false, x) && Depth(x) == 0)
    && Whole(false, st.buf) && Depth(st.buf) == st.inexpr
    && (st.last == Some('$') <==> st.buf != "" && st.buf[|st.buf| - 1] == '$')
  }

  lemma {:induction false} ScanReads(value: string)
    ensures Reading(Scan(false, value))
  {
    hide IsSpace, Step, Reading;
    if value == "" {
      NothingRead();
    } else {
      ScanReads(value[..|value| - 1]);
      StepReads(Scan(false, value[..|value| - 1]), value[|value| - 1]);
    }
  }

  lemma NothingRead()
    ensures Reading(Scanner(0, None, [], ""))
    ensures Whole(false, "") && Depth("") == 0
  {
  }

  lemma StepReads(st: Scanner, c: char)
    requires Reading(st)
    ensures Reading(Step(false, st, c))
  {
    hide IsSpace, Whole, Depth;
    NotSpace();
    NothingRead();
    if !(IsSpace(c) && st.inexpr == 0) {
      Snoc(st.buf, c);
      WholeSnoc(st.buf, c);
      DepthSnoc(st.buf, c);
    }
  }

  lemma DepthSnoc(s: string, c: char)
    ensures Depth(s + [c]) ==
            Depth(s) + if c == '{' && s != "" && s[|s| - 1] == '$' then 1 else if c == '}' then -1 else 0
  {
    Snoc(s, c);
  }

  lemma WholeSnoc(s: string, c: char)
    requires Whole(false, s) && !(IsSpace(c) && Depth(s) == 0)
    ensures Whole(false, s + [c])
  {
    hide IsSpace, Depth;
    Snoc(s, c);
    forall i | 0 <= i < |s + [c]| ensures Separates(false, (s + [c])[i]) ==> Depth((s + [c])[..i]) != 0 {
      if i < |s| {
        assert (s + [c])[..i] == s[..i] && (s + [c])[i] == s[i];
      } else {
        assert (s + [c])[..i] == s;
      }
    }
  }

  lemma SplitIsWell(value: string)
    ensures WellSplit(SplitValue(value, false))
  {
    hide IsSpace, Whole, Depth;
    ScanReads(value);
    var st, items := Scan(false, value), SplitValue(value, false);
    forall k | 0 <= k < |items|
      ensures items[k] != "" && Whole(false, items[k]) && (k < |items| - 1 ==> Depth(items[k]) == 0)
    {
      if k < |st.out| {
        assert items[k] == st.out[k] && st.out[k] in st.out;
      }
    }
  }

  // ---------------------------------------------------------------------
  // Splitting again

  /** After a separator the loop starts afresh: later text adds its own items. */
  lemma {:induction false} ScanFresh(assignment: bool, a: string, b: string)
    requires Scan(assignment, a).inexpr == 0 && Scan(assignment, a).last == None && Scan(assignment, a).buf == ""
    ensures var st, more := Scan(assignment, a), Scan(assignment, b);
            Scan(assignment, a + b) == Scanner(more.inexpr, more.last, st.out + more.out, more.buf)
  {
    hide IsSpace, Quote;
    var out := Scan(assignment, a).out;
    if b == "" {
      PlusEmpty(a);
      PlusEmpty(out);
    } else {
      var n := |b| - 1;
      ScanFresh(assignment, a, b[..n]);
      assert (a + b)[..|a + b| - 1] == a + b[..n];
      StepAppends(assignment, out, Scan(assignment, b[..n]), b[n]);
    }
  }

  lemma StepAppends(assignment: bool, out: seq<string>, st: Scanner, c: char)
    ensures var after := Step(assignment, st, c);
            Step(assignment, st.(out := out + st.out), c) == after.(out := out + after.out)
  {
    hide IsSpace, Quote;
    Assoc(out, st.out, [st.buf]);
    Assoc(out, st.out, [[c]]);
    Assoc(out, st.out + [st.buf], [[c]]);
  }

  /** Joining with single spaces and splitting again gives the same items: what
      splitting returns is a fixed point, for unbalanced braces too. */
  lemma {:induction false} JoinSplits(items: seq<string>)
    requires WellSplit(items)
    ensures SplitValue(Join(items, ' '), false) == items
  {
    hide IsSpace, Whole;
    if items != [] {
      var s := items[0];
      ScanWhole(false, s);
      if |items| > 1 {
        var rest := Join(items[1..], ' ');
        NotSpace();
        Snoc(s, ' ');
        assert Scan(false, s + [' ']) == Scanner(0, None, [s], "");
        ScanFresh(false, s + [' '], rest);
        JoinSplits(items[1..]);
        FlushAppends([s], Scan(false, rest));
        HeadTail(items);
      }
    }
  }

  lemma FlushAppends(out: seq<string>, st: Scanner)
    ensures Flush(st.(out := out + st.out)) == out + Flush(st)
  {
    Assoc(out, st.out, [st.buf]);
  }

  lemma SplitJoinSplit(value: string)
    ensures SplitValue(Join(SplitValue(value, false), ' '), false) == SplitValue(value, false)
  {
    SplitIsWell(value);
    JoinSplits(SplitValue(value, false));
  }

  // ---------------------------------------------------------------------
  // Assignments

  lemma {:induction false} ConcatHas(lines: seq<string>, c: char)
    ensures c in Concat(lines) <==> exists k | 0 <= k < |lines| :: c in lines[k]
  {
    if lines != [] {
      ConcatHas(lines[1..], c);
      if k :| 0 <= k < |lines[1..]| && c in lines[1..][k] {
        assert c in lines[k + 1];
      }
      if k :| 0 <= k < |lines| && c in lines[k] {
        assert k > 0 ==> c in lines[1..][k - 1];
      }
    }
  }

  lemma {:induction false} VisibleHas(s: string, c: char)
    requires !IsSpace(c)
    ensures c in Visible(s) <==> c in s
  {
    if s != "" {
      var n := |s| - 1;
      VisibleHas(s[..n], c);
      assert s == s[..n] + [s[n]];
    }
  }

  /** The head is joined up to its quote. */
  lemma {:induction false} AssignedAt(head: seq<string>, q: char, rest: seq<string>, idx: nat, found: bool)
    requires Quote(q) && idx <= |head|
    requires forall k | 0 <= k < |head| :: !HasQuote(head[k])
    requires found || exists k | idx <= k < |head| :: '=' in head[k]
    ensures Assigned(head + [[q]] + rest, idx, found) == [Join(head + [[q]], ' ')] + rest
    decreases |head| - idx
  {
    hide Join;
    var out := head + [[q]] + rest;
    assert out[..|head| + 1] == head + [[q]] && out[|head| + 1..] == rest;
    assert out[|head|] == [q] && q in [q];
    if idx < |head| {
      assert out[idx] == head[idx];
      AssignedAt(head, q, rest, idx + 1, found || '=' in head[idx]);
    }
  }

  /** A separator at depth zero ends the items before it. */
  lemma ScanQuote(value: string, q: char)
    requires Quote(q) && Depth(value) == 0
    ensures Scan(true, value + [q]) == Scanner(0, None, Items(true, value) + [[q]], "")
  {
    ScanDepth(true, value);
    Snoc(value, q);
  }

  lemma HeadItems(head: string)
    requires '=' in head && !HasQuote(head)
    ensures forall k | 0 <= k < |Items(true, head)| :: !HasQuote(Items(true, head)[k])
    ensures exists k | 0 <= k < |Items(true, head)| :: '=' in Items(true, head)[k]
  {
    hide Items, Visible, Concat, IsSpace;
    ItemsAreVisible(true, head);
    NotSpace();
    VisibleHas(head, '=');
    VisibleHas(head, '"');
    VisibleHas(head, '\'');
    ConcatHas(Items(true, head), '=');
    ConcatHas(Items(true, head), '"');
    ConcatHas(Items(true, head), '\'');
  }

  lemma Quotes(s: string, c: char)
    ensures HasQuote(s) <==> '"' in s || '\'' in s
    ensures Quote(c) <==> c == '"' || c == '\''
  {
  }

  /** An assignment statement head "body" is split into the head up to and
      including the opening quote, the items of the body, and the closing
      quote; it ends with the closing quote exactly if the braces of the body
      leave it at depth zero. */
  lemma AssignmentSplits(head: string, q: char, body: string)
    requires '=' in head && '"' !in head && '\'' !in head && Depth(head) == 0 && (q == '"' || q == '\'')
    ensures var first := Join(Items(true, head) + [[q]], ' ');
            var r := SplitValue(head + [q] + body + [q], true);
            && |r| >= 1 && r[0] == first
            && (Depth(body) == 0 ==> r == [first] + (Items(true, body) + [[q]]))
            && (r[|r| - 1] == [q] <==> Depth(body) == 0)
  {
    Quotes(head, q);
    hide IsSpace, Join, Assigned, HasQuote, Quote;
    var opened', closed := head + [q], body + [q];
    ScanQuote(head, q);
    Assoc(opened', body, [q]);
    ScanFresh(true, opened', closed);
    HeadItems(head);
    var items, more := Items(true, head), Scan(true, closed);
    FlushAppends(items + [[q]], more);
    AssignedAt(items, q, Flush(more), 0, false);
    PlusTail([Join(items + [[q]], ' ')], Flush(more));
    if Depth(body) == 0 {
      ScanQuote(body, q);
    } else {
      QuoteKept(body, q);
    }
  }

  /** At another depth the quote goes into the item being read, which is longer. */
  lemma QuoteKept(body: string, q: char)
    requires Quote(q) && Depth(body) != 0
    ensures var items := Items(true, body + [q]); items != [] && |items[|items| - 1]| > 1
  {
    hide IsSpace;
    ScanDepth(true, body);
    Snoc(body, q);
    BufDeep(body);
    NotSpace();
  }

  lemma {:induction false} BufDeep(s: string)
    ensures Scan(true, s).buf == "" ==> Scan(true, s).inexpr == 0
  {
    if s != "" {
      BufDeep(s[..|s| - 1]);
    }
  }
}
