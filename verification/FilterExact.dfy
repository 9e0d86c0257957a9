/** manifest_licenses with a filter: the exact condition under which the
    printed string reads back as an expression over the kept licenses. */
module FilterExact {
  import opened Text
  import opened License
  import opened LicenseGrammar
  import opened Manifest
  import opened ManifestLaws
  import opened ManifestFilter
  import opened FilterFaults

  predicate KeepsSome(keep: string -> bool, e: Expr) {
    Kept(keep, Leaves(e)) != []
  }

  predicate KeepsFirst(keep: string -> bool, e: Expr) {
    Leaves(e) != [] && keep(Leaves(e)[0])
  }

  /** Regular, every bracket keeps a license, and it keeps its first one unless
      nothing in front of it is kept; any tells whether something in front of e is. */
  predicate Survives(keep: string -> bool, e: Expr, any: bool) {
    match e
    case Lic(_) => true
    case BinAnd(l, r) => Survives(keep, l, any) && Survives(keep, r, any || KeepsSome(keep, l))
    case BinOr(l, r) => Survives(keep, l, any) && Survives(keep, r, any || KeepsSome(keep, l))
    case Group(i) => KeepsSome(keep, i) && (any ==> KeepsFirst(keep, i)) && Survives(keep, i, any)
    case _ => false
  }

  // ---------------------------------------------------------------------
  // If it does not survive

  /** How many operands stand directly in front of a bracket. */
  function Calls(e: Expr): nat {
    match e
    case Lic(_) => 0
    case BinAnd(l, r) => Calls(l) + Calls(r)
    case BinOr(l, r) => Calls(l) + Calls(r)
    case Group(i) => Calls(i)
    case EmptyGroup => 0
    case Apply(f, a) => Calls(f) + Calls(a) + 1
    case ApplyNone(f) => Calls(f) + 1
  }

  lemma OpsMore(ops: string, op: char)
    requires Ops(ops) && Ops([op])
    ensures Ops(ops + [op]) && Opens(ops + [op]) == Opens(ops) + if op == '[' then 1 else 0
  {
    assert [op][0] == op;
    AreaAppend(ops, [op], 0);
    AreaOne(op, 0);
  }

  lemma {:induction false} NetOps(ops: string, any: bool)
    requires Ops(ops)
    ensures Net(Emit(ops, any)) == Opens(ops)
    decreases |ops|
  {
    hide Net, Opens;
    if ops == "" {
      NetNothing();
    } else {
      var op := ops[0];
      HeadTail(ops);
      AreaAppend([op], ops[1..], 0);
      AreaOne(op, 0);
      NetOps(ops[1..], any);
      NetAppend(EmitOne(op, any), Emit(ops[1..], any));
      NetEmitOne(op, any);
    }
  }

  lemma NetNothing()
    ensures Net("") == 0 && Opens("") == 0
  {
  }

  lemma NetEmitOne(op: char, any: bool)
    requires op == '&' || op == '|' || op == '['
    ensures Net(EmitOne(op, any)) == if op == '[' then 1 else 0
  {
    if op == '[' {
      NetOne('[');
    } else if any {
      NetPlain([' ', op, ' ']);
    } else {
      NetNothing();
    }
  }

  lemma NetPrint(s: string, st: State)
    requires Ops(st.operators) && IsLicense(s)
    ensures Net(Print(s, st).text) == Net(st.text) + Opens(st.operators) && Ops(Print(s, st).operators)
  {
    hide Net, Opens, Condense, Emit, IsLicense;
    var any, ops := st.licenses != [], Condense(st.operators, "");
    NetNothing();
    CondenseOpens(st.operators, "");
    NetOps(ops, any);
    NetAppend(st.text, Emit(ops, any));
    NetAppend(st.text + Emit(ops, any), s);
    IsMatched(s);
    NetLicense(s);
  }

  lemma IsMatched(s: string)
    requires IsLicense(s)
    ensures MatchesLicense(s)
  {
  }

  /** The brackets printed and pending, less those closed: a bracket adds
      nothing, an operand in front of one closes a bracket that is not opened. */
  lemma {:induction false} NetVisited(keep: string -> bool, e: Expr, st: State)
    requires Ops(st.operators) && AllLicenses(Leaves(e)) && NoCall(e)
    ensures var after := Visited(keep, e, st);
            Ops(after.operators) && Net(after.text) + Opens(after.operators) ==
                Net(st.text) + Opens(st.operators) - Calls(e)
  {
    hide Net, Opens, Print, IsLicense, Ops;
    match e
    case Lic(s) =>
      assert Leaves(e)[0] == s;
      NetPrint(s, st);
      NoneDue(s, st);
    case BinAnd(l, r) =>
      NetBefore(keep, l, r, st);
      NetVisited(keep, l, st);
      NetPending(Visited(keep, l, st), '&');
      NetVisited(keep, r, Pending(Visited(keep, l, st), '&'));
    case BinOr(l, r) =>
      NetBefore(keep, l, r, st);
      NetVisited(keep, l, st);
      NetPending(Visited(keep, l, st), '|');
      NetVisited(keep, r, Pending(Visited(keep, l, st), '|'));
    case Group(i) =>
      NetPending(st, '[');
      NetVisited(keep, i, Pending(st, '['));
      NetClose(Visited(keep, i, Pending(st, '[')));
    case EmptyGroup =>
      NetPending(st, '[');
      NetClose(Pending(st, '['));
    case Apply(f, a) =>
      NetBefore(keep, f, a, st);
      NetVisited(keep, f, st);
      NetVisited(keep, a, Visited(keep, f, st));
      NetClose(Visited(keep, a, Visited(keep, f, st)));
  }

  lemma NetBefore(keep: string -> bool, l: Expr, r: Expr, st: State)
    requires AllLicenses(Leaves(l) + Leaves(r))
    ensures AllLicenses(Leaves(l)) && AllLicenses(Leaves(r))
  {
    AllLicensesAppend(Leaves(l), Leaves(r));
  }

  lemma NoneDue(s: string, st: State)
    ensures Opens(Print(s, st).operators) == 0
  {
  }

  lemma NetPending(st: State, op: char)
    requires Ops(st.operators) && (op == '&' || op == '|' || op == '[')
    ensures Ops(Pending(st, op).operators)
            && Opens(Pending(st, op).operators) == Opens(st.operators) + if op == '[' then 1 else 0
  {
    hide Opens;
    OpsMore(st.operators, op);
  }

  lemma NetClose(st: State)
    ensures Net(Append(st, "]").text) == Net(st.text) - 1
  {
    hide Net;
    NetAppend(st.text, "]");
    NetOne(']');
  }

  /** A bracket is pending, and behind it an operator. */
  predicate OpenThenOp(ops: string) {
    exists i, j | 0 <= i < j < |ops| :: ops[i] == '[' && (ops[j] == '&' || ops[j] == '|')
  }

  lemma OpenThenMore(ops: string, more: string)
    requires OpenThenOp(ops)
    ensures OpenThenOp(ops + more)
  {
    var i, j :| 0 <= i < j < |ops| && ops[i] == '[' && (ops[j] == '&' || ops[j] == '|');
    assert (ops + more)[i] == ops[i] && (ops + more)[j] == ops[j];
  }

  lemma OpenThenNext(ops: string, op: char)
    requires '[' in ops && (op == '&' || op == '|')
    ensures OpenThenOp(ops + [op])
  {
    var i :| 0 <= i < |ops| && ops[i] == '[';
    assert (ops + [op])[i] == '[' && (ops + [op])[|ops|] == op;
  }

  /** Condensing keeps an operator behind the bracket. */
  lemma {:induction false} CondenseKeeps(operators: string, ops: string)
    requires Ops(operators) && Ops(ops)
    requires OpenThenOp(ops) || OpenThenOp(operators)
             || ('[' in ops && exists j | 0 <= j < |operators| :: operators[j] == '&' || operators[j] == '|')
    ensures OpenThenOp(Condense(operators, ops))
    decreases |operators|
  {
    hide CondenseOne;
    if operators != "" {
      CondenseOneKeeps(operators, ops);
      CondenseKeeps(operators[1..], CondenseOne(operators[0], ops));
    }
  }

  lemma CondenseOneKeeps(operators: string, ops: string)
    requires operators != "" && Ops(operators) && Ops(ops)
    requires OpenThenOp(ops) || OpenThenOp(operators)
             || ('[' in ops && exists j | 0 <= j < |operators| :: operators[j] == '&' || operators[j] == '|')
    ensures var next, rest := CondenseOne(operators[0], ops), operators[1..];
            Ops(next) && (OpenThenOp(next) || OpenThenOp(rest)
                || ('[' in next && exists j | 0 <= j < |rest| :: rest[j] == '&' || rest[j] == '|'))
  {
    var op, rest := operators[0], operators[1..];
    var next := CondenseOne(op, ops);
    NextKeeps(op, ops);
    if OpenThenOp(ops) {
    } else if OpenThenOp(operators) {
      var i, j :| 0 <= i < j < |operators| && operators[i] == '[' && (operators[j] == '&' || operators[j] == '|');
      assert rest[j - 1] == operators[j];
      if i > 0 {
        assert rest[i - 1] == operators[i];
      }
    } else {
      var j :| 0 <= j < |operators| && (operators[j] == '&' || operators[j] == '|');
      if j > 0 {
        assert rest[j - 1] == operators[j];
      }
    }
  }

  lemma NextKeeps(op: char, ops: string)
    requires Ops([op]) || op == '&' || op == '|' || op == '['
    requires Ops(ops)
    ensures var next := CondenseOne(op, ops);
            && ((op == '&' || op == '|' || op == '[') ==> Ops(next))
            && ('[' in ops || op == '[' ==> '[' in next)
            && (OpenThenOp(ops) && (op == '&' || op == '|' || op == '[') ==> OpenThenOp(next))
            && ('[' in ops && (op == '&' || op == '|') ==> OpenThenOp(next))
  {
    var next := CondenseOne(op, ops);
    if next == ops + [op] {
      assert next[|ops|] == op;
      assert forall i | 0 <= i < |ops| :: next[i] == ops[i];
    } else {
      var n := |ops| - 1;
      assert next == ops[..n] + [op] && next[n] == op;
      assert forall i | 0 <= i < n :: next[i] == ops[i];
    }
  }

  /** Printed behind a license, it is an operator right behind a bracket. */
  lemma {:induction false} EmitInside(ops: string)
    requires Ops(ops) && OpenThenOp(ops)
    ensures OperatorInside(Emit(ops, true))
  {
    hide OperatorInside, OpenThenOp;
    OpenThenRest(ops);
    var rest := ops[1..];
    if ops[0] == '[' && (rest[0] == '&' || rest[0] == '|') {
      InsideStart(rest[0], Emit(rest[1..], true));
    } else {
      EmitInside(rest);
      InsideMore(EmitOne(ops[0], true), Emit(rest, true));
    }
  }

  lemma OpenThenRest(ops: string)
    requires Ops(ops) && OpenThenOp(ops)
    ensures |ops| > 1 && Ops(ops[1..])
    ensures OpenThenOp(ops[1..]) || (ops[0] == '[' && (ops[1] == '&' || ops[1] == '|'))
  {
    var rest := ops[1..];
    var i, j :| 0 <= i < j < |ops| && ops[i] == '[' && (ops[j] == '&' || ops[j] == '|');
    assert rest[j - 1] == ops[j];
    if i > 0 {
      assert rest[i - 1] == ops[i];
    } else if ops[1] == '[' {
      assert rest[0] == '[' && j > 1;
    }
  }

  lemma InsideStart(op: char, rest: string)
    requires op == '&' || op == '|'
    ensures OperatorInside(['['] + ([' ', op, ' '] + rest))
  {
    assert InsideAt(['['] + ([' ', op, ' '] + rest), 0);
  }

  /** Before the first license only closing brackets are printed. */
  predicate Sane(st: State) {
    Ops(st.operators) && (st.licenses == [] ==> forall i | 0 <= i < |st.text| :: st.text[i] == ']')
  }

  /** Whatever comes, the string is spoilt or its brackets stay pending. */
  predicate Doomed(st: State) {
    Spoilt(st.text) || (st.licenses != [] && OpenThenOp(st.operators))
  }

  /** A bracket is pending although it is closed already. */
  predicate Hanging(st: State) {
    st.licenses != [] && '[' in st.operators
  }

  lemma SanePending(st: State, op: char)
    requires Sane(st) && (op == '&' || op == '|' || op == '[')
    ensures Sane(Pending(st, op)) && (Doomed(st) ==> Doomed(Pending(st, op)))
    ensures Hanging(st) && op != '[' ==> Doomed(Pending(st, op))
    ensures Hanging(st) || (st.licenses != [] && op == '[') ==> Hanging(Pending(st, op))
  {
    hide Spoilt, OpenThenOp;
    assert [op][0] == op;
    OpsMore(st.operators, op);
    if OpenThenOp(st.operators) {
      OpenThenMore(st.operators, [op]);
    }
    if '[' in st.operators && op != '[' {
      OpenThenNext(st.operators, op);
    }
  }

  lemma SaneClose(st: State)
    requires Sane(st)
    ensures Sane(Append(st, "]")) && (Doomed(st) ==> Doomed(Append(st, "]")))
            && (Hanging(st) ==> Hanging(Append(st, "]")))
    ensures st.licenses == [] ==> Doomed(Append(st, "]"))
  {
    hide OpenThenOp;
    if Spoilt(st.text) {
      SpoiltMore(st.text, "]");
    }
    if st.licenses == [] {
      assert (st.text + "]")[0] == ']';
    }
  }

  lemma SanePrint(s: string, st: State)
    requires Sane(st)
    ensures Sane(Print(s, st)) && (Doomed(st) ==> Doomed(Print(s, st)))
  {
    hide Spoilt, OpenThenOp, Condense, Emit;
    var any, ops := st.licenses != [], Condense(st.operators, "");
    if Spoilt(st.text) {
      SpoiltMore(st.text, Emit(ops, any));
      SpoiltMore(st.text + Emit(ops, any), s);
    } else if Doomed(st) {
      assert Ops("");
      CondenseKeeps(st.operators, "");
      CondenseOpens(st.operators, "");
      EmitInside(ops);
      InsideMore(st.text, Emit(ops, true));
      InsideSpoils(st.text + Emit(ops, true));
      SpoiltMore(st.text + Emit(ops, true), s);
    }
  }

  lemma InsideSpoils(t: string)
    requires OperatorInside(t)
    ensures Spoilt(t)
  {
  }

  lemma {:induction false} DoomStays(keep: string -> bool, e: Expr, st: State)
    requires Sane(st)
    ensures var after := Visited(keep, e, st); Sane(after) && (Doomed(st) ==> Doomed(after))
  {
    hide Sane, Doomed, Hanging, Print;
    match e
    case Lic(s) => SanePrint(s, st);
    case BinAnd(l, r) =>
      DoomStays(keep, l, st);
      SanePending(Visited(keep, l, st), '&');
      DoomStays(keep, r, Pending(Visited(keep, l, st), '&'));
    case BinOr(l, r) =>
      DoomStays(keep, l, st);
      SanePending(Visited(keep, l, st), '|');
      DoomStays(keep, r, Pending(Visited(keep, l, st), '|'));
    case Group(i) =>
      SanePending(st, '[');
      DoomStays(keep, i, Pending(st, '['));
      SaneClose(Visited(keep, i, Pending(st, '[')));
    case EmptyGroup =>
      SanePending(st, '[');
      SaneClose(Pending(st, '['));
    case Apply(f, a) =>
      DoomStays(keep, f, st);
      DoomStays(keep, a, Visited(keep, f, st));
      SaneClose(Visited(keep, a, Visited(keep, f, st)));
    case ApplyNone(f) => DoomStays(keep, f, st);
  }

  /** Where no license is kept, brackets and operators stay pending. */
  lemma {:induction false} NothingPrinted(keep: string -> bool, e: Expr, st: State)
    requires !KeepsSome(keep, e)
    ensures var after := Visited(keep, e, st);
            after.licenses == st.licenses && st.operators <= after.operators && st.text <= after.text
  {
    match e
    case Lic(s) => assert [s][1..] == [];
    case BinAnd(l, r) =>
      KeptAppend(keep, Leaves(l), Leaves(r));
      NothingPrinted(keep, l, st);
      NothingPrinted(keep, r, Pending(Visited(keep, l, st), '&'));
    case BinOr(l, r) =>
      KeptAppend(keep, Leaves(l), Leaves(r));
      NothingPrinted(keep, l, st);
      NothingPrinted(keep, r, Pending(Visited(keep, l, st), '|'));
    case Group(i) => NothingPrinted(keep, i, Pending(st, '['));
    case EmptyGroup =>
    case Apply(f, a) =>
      KeptAppend(keep, Leaves(f), Leaves(a));
      NothingPrinted(keep, f, st);
      NothingPrinted(keep, a, Visited(keep, f, st));
    case ApplyNone(f) => NothingPrinted(keep, f, st);
  }

  lemma FirstOfTwo(keep: string -> bool, l: Expr, r: Expr)
    ensures Kept(keep, Leaves(l) + Leaves(r)) == Kept(keep, Leaves(l)) + Kept(keep, Leaves(r))
    ensures Leaves(l) != [] ==> Leaves(l) + Leaves(r) != [] && (Leaves(l) + Leaves(r))[0] == Leaves(l)[0]
    ensures Leaves(l) == [] ==> !KeepsSome(keep, l)
  {
    KeptAppend(keep, Leaves(l), Leaves(r));
  }

  /** Behind a license, an open bracket whose first license is dropped. */
  lemma {:induction false} FirstDropped(keep: string -> bool, e: Expr, st: State)
    requires Sane(st) && Hanging(st) && Calls(e) == 0
    requires KeepsSome(keep, e) && !KeepsFirst(keep, e)
    ensures Doomed(Visited(keep, e, st))
    decreases e, 1
  {
    hide Sane, Doomed, Print;
    match e
    case Lic(s) =>
      OnlyLeaf(keep, s);
      assert false;
    case BinAnd(l, r) => FirstDroppedTwo(keep, e, l, r, '&', st);
    case BinOr(l, r) => FirstDroppedTwo(keep, e, l, r, '|', st);
    case Group(i) =>
      SanePending(st, '[');
      FirstDropped(keep, i, Pending(st, '['));
      DoomStays(keep, i, Pending(st, '['));
      SaneClose(Visited(keep, i, Pending(st, '[')));
    case EmptyGroup =>
  }

  lemma OnlyLeaf(keep: string -> bool, s: string)
    ensures KeepsSome(keep, Lic(s)) <==> KeepsFirst(keep, Lic(s))
  {
    assert [s][1..] == [];
    KeptNothing(keep);
    assert Kept(keep, [s]) == (if keep(s) then [s] else []) + Kept(keep, []);
  }

  lemma {:induction false} FirstDroppedTwo(keep: string -> bool, e: Expr, l: Expr, r: Expr, op: char, st: State)
    requires l < e && r < e && (op == '&' || op == '|')
    requires Sane(st) && Hanging(st) && Calls(l) == 0 && Calls(r) == 0
    requires Leaves(e) == Leaves(l) + Leaves(r) && KeepsSome(keep, e) && !KeepsFirst(keep, e)
    ensures Doomed(Visited(keep, r, Pending(Visited(keep, l, st), op)))
    decreases e, 0
  {
    hide Sane, Doomed;
    FirstOfTwo(keep, l, r);
    var mid := Visited(keep, l, st);
    DoomStays(keep, l, st);
    if KeepsSome(keep, l) {
      FirstDropped(keep, l, st);
    } else {
      NothingPrinted(keep, l, st);
      StillHanging(st, mid);
    }
    SanePending(mid, op);
    DoomStays(keep, r, Pending(mid, op));
  }

  lemma StillHanging(st: State, after: State)
    requires Hanging(st) && after.licenses == st.licenses && st.operators <= after.operators
    ensures Hanging(after)
  {
    var i :| 0 <= i < |st.operators| && st.operators[i] == '[';
    assert after.operators[i] == '[';
  }

  /** An expression that does not survive leaves a doomed string or a hanging bracket. */
  lemma {:induction false} NotSurviving(keep: string -> bool, e: Expr, st: State)
    requires Sane(st) && Calls(e) == 0 && !Survives(keep, e, st.licenses != [])
    ensures var after := Visited(keep, e, st); Doomed(after) || Hanging(after)
    decreases e, 1
  {
    hide Sane, Doomed, Print;
    match e
    case BinAnd(l, r) => NotSurvivingTwo(keep, e, l, r, '&', st);
    case BinOr(l, r) => NotSurvivingTwo(keep, e, l, r, '|', st);
    case Group(i) => NotSurvivingGroup(keep, e, i, st);
    case EmptyGroup =>
      SanePending(st, '[');
      SaneClose(Pending(st, '['));
  }

  lemma {:induction false} NotSurvivingTwo(keep: string -> bool, e: Expr, l: Expr, r: Expr, op: char, st: State)
    requires l < e && r < e && (op == '&' || op == '|')
    requires Sane(st) && Calls(l) == 0 && Calls(r) == 0
    requires !(Survives(keep, l, st.licenses != []) && Survives(keep, r, st.licenses != [] || KeepsSome(keep, l)))
    ensures var after := Visited(keep, r, Pending(Visited(keep, l, st), op)); Doomed(after) || Hanging(after)
    decreases e, 0
  {
    hide Sane, Doomed, Survives;
    var mid := Visited(keep, l, st);
    DoomStays(keep, l, st);
    SanePending(mid, op);
    if !Survives(keep, l, st.licenses != []) {
      NotSurviving(keep, l, st);
      DoomStays(keep, r, Pending(mid, op));
    } else {
      KeptLicenses(keep, l, st);
      NotSurviving(keep, r, Pending(mid, op));
    }
  }

  lemma {:induction false} NotSurvivingGroup(keep: string -> bool, e: Expr, i: Expr, st: State)
    requires i < e && Sane(st) && Calls(i) == 0
    requires !(KeepsSome(keep, i) && (st.licenses != [] ==> KeepsFirst(keep, i))
             && Survives(keep, i, st.licenses != []))
    ensures var after := Append(Visited(keep, i, Pending(st, '[')), "]"); Doomed(after) || Hanging(after)
    decreases e, 0
  {
    hide Sane, Doomed, Survives;
    var st1 := Pending(st, '[');
    SanePending(st, '[');
    var inner := Visited(keep, i, st1);
    DoomStays(keep, i, st1);
    if !KeepsSome(keep, i) {
      NothingPrinted(keep, i, st1);
      if st.licenses != [] {
        StillHanging(st1, inner);
      }
    } else if st.licenses != [] && !KeepsFirst(keep, i) {
      FirstDropped(keep, i, st1);
    } else {
      NotSurviving(keep, i, st1);
    }
    SaneClose(inner);
  }

  /** So the printed string is no expression at all. */
  lemma NeverReads(keep: string -> bool, e: Expr, f: Expr)
    requires NoCall(e) && AllLicenses(Leaves(e)) && !Survives(keep, e, false)
    ensures !ParsedFrom(Printed(keep, Some(e)).0, f)
  {
    hide Survives, ParsedFrom, Net, Opens, Doomed, Spoilt;
    var st := State("", [], "");
    var after := Visited(keep, e, st);
    NetNothing();
    assert Ops("");
    NetVisited(keep, e, st);
    if ParsedFrom(Rounded(after.text), f) {
      ParsedBalanced(after.text, f);
      ParsedNotSpoilt(after.text, f);
      assert Calls(e) == 0 && Opens(after.operators) == 0;
      NotSurviving(keep, e, st);
      DoomedEnds(after);
      assert false;
    }
  }

  lemma DoomedEnds(st: State)
    requires Doomed(st) || Hanging(st)
    ensures Spoilt(st.text) || Opens(st.operators) > 0
  {
    hide Spoilt;
    if !Spoilt(st.text) {
      var i :| 0 <= i < |st.operators| && st.operators[i] == '[';
      OpensAt(st.operators, i);
    }
  }

  lemma {:induction false} OpensAt(ops: string, i: nat)
    requires i < |ops| && ops[i] == '['
    ensures Opens(ops) > 0
  {
    if i > 0 {
      OpensAt(ops[1..], i - 1);
    }
  }
}
