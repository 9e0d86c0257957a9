/** manifest_licenses with a filter that an expression survives: the printed
    string is the expression over the kept licenses. */
module FilterSurvives {
  import opened Text
  import opened License
  import opened LicenseGrammar
  import opened Manifest
  import opened ManifestLaws
  import opened ManifestFilter
  import opened FilterExact

  /** A kept license or bracket, and the operator read last in front of it. */
  datatype Part = Part(op: char, p: Expr)

  function Parts(keep: string -> bool, e: Expr, op: char): seq<Part> {
    match e
    case Lic(s) => if keep(s) then [Part(op, e)] else []
    case BinAnd(l, r) => Parts(keep, l, op) + Parts(keep, r, '&')
    case BinOr(l, r) => Parts(keep, l, op) + Parts(keep, r, '|')
    case Group(i) => if Parts(keep, i, op) == [] then [] else [Part(op, Group(Grown(Parts(keep, i, op))))]
    case _ => []
  }

  /** The tree of the parts: each further one joins on the right. */
  function Grown(parts: seq<Part>): Expr
    requires parts != []
  {
    var last := parts[|parts| - 1];
    if |parts| == 1 then last.p else Extended(Grown(parts[..|parts| - 1]), last)
  }

  function Extended(e: Expr, i: Part): Expr {
    if i.op != '&' then BinOr(e, i.p)
    else if e.BinOr? then BinOr(e.left, BinAnd(e.right, i.p))
    else BinAnd(e, i.p)
  }

  function OpText(op: char, any: bool): string {
    if any then [' ', op, ' '] else ""
  }

  function PartText(i: Part, any: bool): string {
    OpText(i.op, any) + Spell(Tokens(i.p), true)
  }

  function PartsText(parts: seq<Part>, any: bool): string {
    if parts == [] then "" else PartText(parts[0], any) + PartsText(parts[1..], true)
  }

  function PartLeaves(parts: seq<Part>): seq<string> {
    if parts == [] then [] else Leaves(parts[0].p) + PartLeaves(parts[1..])
  }

  predicate GoodPart(i: Part) {
    (i.op == '&' || i.op == '|') && IsPrimary(i.p, true) && Regular(i.p)
  }

  predicate GoodParts(parts: seq<Part>) {
    forall i | 0 <= i < |parts| :: GoodPart(parts[i])
  }

  lemma {:induction false} PartsTextAppend(a: seq<Part>, b: seq<Part>, any: bool)
    ensures PartsText(a + b, any) == PartsText(a, any) + PartsText(b, any || a != [])
    decreases |a|
  {
    if a == [] {
      PlusEmpty(b);
      PlusEmpty(PartsText(b, any));
    } else {
      PartsTextAppend(a[1..], b, true);
      PlusTail(a, b);
      Assoc(PartText(a[0], any), PartsText(a[1..], true), PartsText(b, true));
    }
  }

  lemma {:induction false} PartLeavesAppend(a: seq<Part>, b: seq<Part>)
    ensures PartLeaves(a + b) == PartLeaves(a) + PartLeaves(b)
  {
    if a == [] {
      PlusEmpty(b);
      PlusEmpty(PartLeaves(b));
    } else {
      PlusTail(a, b);
      PartLeavesAppend(a[1..], b);
      Assoc(Leaves(a[0].p), PartLeaves(a[1..]), PartLeaves(b));
    }
  }

  lemma OnePart(i: Part, any: bool)
    ensures PartsText([i], any) == PartText(i, any) && PartLeaves([i]) == Leaves(i.p)
  {
    hide PartText;
    assert [i][1..] == [];
    PlusEmpty(PartText(i, any));
    PlusEmpty(Leaves(i.p));
  }

  // ---------------------------------------------------------------------
  // The tree of the parts

  lemma {:induction false} GrownIs(parts: seq<Part>)
    requires parts != [] && GoodParts(parts)
    ensures var e := Grown(parts);
            && IsOrExpr(e, true) && Regular(e) && Leaves(e) == PartLeaves(parts)
            && Spell(Tokens(e), true) == PartsText(parts, false)
    decreases |parts|
  {
    hide PartText, Extended, Spell, IsPrimary, Regular;
    var n := |parts| - 1;
    var init, last := parts[..n], parts[n];
    assert parts == init + [last] && GoodPart(last);
    OnePart(last, false);
    OnePart(last, true);
    if n == 0 {
      assert parts == [last];
      FirstText(last);
      PrimaryIsOr(last.p);
    } else {
      PartLeavesAppend(init, [last]);
      PartsTextAppend(init, [last], false);
      GrownIs(init);
      ExtendedIs(Grown(init), last);
    }
  }

  lemma FirstText(i: Part)
    ensures PartText(i, false) == Spell(Tokens(i.p), true)
  {
    PlusEmpty(Spell(Tokens(i.p), true));
  }

  lemma PrimaryIsOr(e: Expr)
    requires IsPrimary(e, true)
    ensures IsAndExpr(e, true) && IsOrExpr(e, true)
  {
  }

  lemma ExtendedIs(e: Expr, i: Part)
    requires IsOrExpr(e, true) && Regular(e) && GoodPart(i)
    ensures var x := Extended(e, i);
            && IsOrExpr(x, true) && Regular(x) && Leaves(x) == Leaves(e) + Leaves(i.p)
            && Spell(Tokens(x), true) == Spell(Tokens(e), true) + PartText(i, true)
  {
    hide Spell, PartText;
    PartSpelled(Tokens(e), i);
    PrimaryIsOr(i.p);
    if i.op != '&' {
    } else if e.BinOr? {
      var right := BinAnd(e.right, i.p);
      assert IsAndExpr(right, true) && Leaves(right) == Leaves(e.right) + Leaves(i.p);
      assert Tokens(right) == Tokens(e.right) + [And] + Tokens(i.p);
      Assoc(Leaves(e.left), Leaves(e.right), Leaves(i.p));
      Regroup(Tokens(e.left) + [Or], Tokens(e.right), [And], Tokens(i.p));
      Assoc(Tokens(e.right), [And], Tokens(i.p));
    } else {
      assert IsAndExpr(e, true) && IsAndExpr(BinAnd(e, i.p), true);
    }
  }

  lemma PartSpelled(ts: seq<Token>, i: Part)
    requires i.op == '&' || i.op == '|'
    ensures Spell(ts + [OperatorOf(i.op)] + Tokens(i.p), true) == Spell(ts, true) + PartText(i, true)
  {
    hide Spell;
    var t := OperatorOf(i.op);
    SpellAppend(ts + [t], Tokens(i.p), true);
    SpellAppend(ts, [t], true);
    SpellToken(t, true);
    assert SpellOne(t, true) == [' ', i.op, ' '];
    Assoc(Spell(ts, true), SpellOne(t, true), Spell(Tokens(i.p), true));
  }

  // ---------------------------------------------------------------------
  // The parts of an expression

  lemma {:induction false} PartsGood(keep: string -> bool, e: Expr, op: char)
    requires op == '&' || op == '|'
    ensures GoodParts(Parts(keep, e, op))
  {
    hide Grown, GoodPart;
    match e
    case Lic(s) => assert GoodPart(Part(op, e)) by { LicGood(op, s); }
    case BinAnd(l, r) =>
      PartsGood(keep, l, op);
      PartsGood(keep, r, '&');
    case BinOr(l, r) =>
      PartsGood(keep, l, op);
      PartsGood(keep, r, '|');
    case Group(i) =>
      PartsGood(keep, i, op);
      if Parts(keep, i, op) != [] {
        GrownIs(Parts(keep, i, op));
        GroupGood(op, Grown(Parts(keep, i, op)));
      }
    case _ =>
  }

  lemma LicGood(op: char, s: string)
    requires op == '&' || op == '|'
    ensures GoodPart(Part(op, Lic(s)))
  {
  }

  lemma GroupGood(op: char, i: Expr)
    requires (op == '&' || op == '|') && IsOrExpr(i, true) && Regular(i)
    ensures GoodPart(Part(op, Group(i)))
  {
  }

  /** The parts hold exactly the kept licenses. */
  lemma {:induction false} PartsKeep(keep: string -> bool, e: Expr, op: char, any: bool)
    requires (op == '&' || op == '|') && Survives(keep, e, any)
    ensures PartLeaves(Parts(keep, e, op)) == Kept(keep, Leaves(e))
    ensures Parts(keep, e, op) == [] <==> !KeepsSome(keep, e)
  {
    hide Grown, KeepsFirst, Kept;
    match e
    case Lic(s) => PartsKeepOne(keep, s, op);
    case BinAnd(l, r) =>
      PartsKeep(keep, l, op, any);
      PartsKeep(keep, r, '&', any || KeepsSome(keep, l));
      PartLeavesAppend(Parts(keep, l, op), Parts(keep, r, '&'));
      KeptAppend(keep, Leaves(l), Leaves(r));
    case BinOr(l, r) =>
      PartsKeep(keep, l, op, any);
      PartsKeep(keep, r, '|', any || KeepsSome(keep, l));
      PartLeavesAppend(Parts(keep, l, op), Parts(keep, r, '|'));
      KeptAppend(keep, Leaves(l), Leaves(r));
    case Group(i) =>
      PartsKeep(keep, i, op, any);
      var inner := Parts(keep, i, op);
      PartsGood(keep, i, op);
      GrownIs(inner);
      OnePart(Part(op, Group(Grown(inner))), true);
  }

  lemma PartsKeepOne(keep: string -> bool, s: string, op: char)
    ensures PartLeaves(Parts(keep, Lic(s), op)) == Kept(keep, Leaves(Lic(s)))
    ensures Parts(keep, Lic(s), op) == [] <==> !KeepsSome(keep, Lic(s))
  {
    OnePart(Part(op, Lic(s)), true);
    OnlyLeaf(keep, s);
    KeptNothing(keep);
    assert [s][1..] == [];
    assert Kept(keep, [s]) == (if keep(s) then [s] else []) + Kept(keep, []);
  }

  // ---------------------------------------------------------------------
  // What the visitor prints

  function Openings(k: nat): string {
    if k == 0 then "" else "[" + Openings(k - 1)
  }

  lemma {:induction false} OpeningsMore(k: nat)
    ensures Openings(k) + "[" == Openings(k + 1) == "[" + Openings(k) && Manifest.Brackets(Openings(k))
            && |Openings(k)| == k
  {
    if k == 0 {
      PlusEmpty("[");
    } else {
      OpeningsMore(k - 1);
      Assoc("[", Openings(k - 1), "[");
    }
  }

  /** Pending behind a license: operators, the last of them op, then k opening brackets. */
  ghost predicate Due(ops: string, op: char, k: nat) {
    exists front :: Operators(front) && front != "" && front[|front| - 1] == op && ops == front + Openings(k)
  }

  /** In front of an expression whose first part comes with op and k brackets. */
  ghost predicate InFront(st: State, op: char, k: nat) {
    && Ops(st.operators) && (op == '&' || op == '|')
    && (if st.licenses == [] then Opens(st.operators) == k else Due(st.operators, op, k))
  }

  lemma {:induction false} CondenseRun(front: string, rest: string, ops: string)
    requires Operators(front) && Operators(ops) && |ops| <= 1 && front != ""
    ensures Condense(front + rest, ops) == Condense(rest, [front[|front| - 1]])
    decreases |front|
  {
    hide Condense;
    PlusTail(front, rest);
    CondenseFirst(front, rest, ops);
    if |front| == 1 {
      assert front[1..] == "";
      PlusEmpty(rest);
    } else {
      CondenseRun(front[1..], rest, [front[0]]);
    }
  }

  lemma CondenseFirst(front: string, rest: string, ops: string)
    requires Operators(front) && Operators(ops) && |ops| <= 1 && front != ""
    ensures Condense(front + rest, ops) == Condense(front[1..] + rest, [front[0]])
  {
    hide CondenseOne;
    PlusTail(front, rest);
    assert front[0] == '&' || front[0] == '|';
    OperatorReplaces(front[0], ops);
  }

  lemma {:induction false} EmitOpenings(k: nat, any: bool)
    ensures Emit(Openings(k), any) == Openings(k)
  {
    if k > 0 {
      EmitOpenings(k - 1, any);
      PlusTail("[", Openings(k - 1));
      assert "["[1..] == "";
      PlusEmpty(Openings(k - 1));
    }
  }

  /** In front of the first license only the brackets are printed. */
  lemma {:induction false} EmitFirst(ops: string)
    requires Ops(ops)
    ensures Emit(ops, false) == Openings(Opens(ops))
  {
    hide Emit, Opens, Openings;
    if ops == "" {
      EmitNothing();
    } else {
      EmitFirst(ops[1..]);
      EmitFirstStep(ops);
    }
  }

  lemma EmitNothing()
    ensures Emit("", false) == Openings(Opens(""))
  {
  }

  lemma EmitFirstStep(ops: string)
    requires Ops(ops) && ops != "" && Emit(ops[1..], false) == Openings(Opens(ops[1..]))
    ensures Emit(ops, false) == Openings(Opens(ops))
  {
    hide Emit, Opens, Openings;
    var k := Opens(ops[1..]);
    EmitUnfold(ops);
    OpensStep(ops);
    OpeningsNext(k);
    PlusEmpty(Openings(k));
  }

  lemma EmitUnfold(ops: string)
    requires Ops(ops) && ops != ""
    ensures Emit(ops, false) == (if ops[0] == '[' then ['['] else "") + Emit(ops[1..], false)
  {
  }

  lemma OpensStep(ops: string)
    requires Ops(ops) && ops != ""
    ensures Opens(ops) == Opens(ops[1..]) + if ops[0] == '[' then 1 else 0
  {
  }

  lemma OpeningsNext(k: nat)
    ensures Openings(k + 1) == ['['] + Openings(k)
  {
  }

  lemma FrontEmits(st: State, op: char, k: nat)
    requires InFront(st, op, k)
    ensures Emit(Condense(st.operators, ""), st.licenses != []) == OpText(op, st.licenses != []) + Openings(k)
  {
    hide Condense, Emit, Opens, Ops;
    if st.licenses == [] {
      NoOps();
      CondenseOpens(st.operators, "");
      EmitFirst(Condense(st.operators, ""));
      PlusEmpty(Openings(k));
    } else {
      var front :| Operators(front) && front != "" && front[|front| - 1] == op && st.operators == front + Openings(k);
      CondenseRun(front, Openings(k), "");
      OpeningsMore(k);
      CondenseBrackets(Openings(k), [op]);
      EmitOp(op, Openings(k));
      EmitOpenings(k, true);
    }
  }

  lemma EmitOp(op: char, rest: string)
    requires op == '&' || op == '|'
    ensures Emit([op] + rest, true) == OpText(op, true) + Emit(rest, true)
  {
    PlusTail([op], rest);
    assert [op][1..] == "";
    PlusEmpty(rest);
  }

  /** A kept license is printed behind what is due. */
  lemma FrontPrints(s: string, st: State, op: char, k: nat)
    requires InFront(st, op, k)
    ensures Print(s, st).text == st.text + OpText(op, st.licenses != []) + Openings(k) + s
  {
    hide Condense, Emit, InFront, OpText;
    FrontEmits(st, op, k);
    Assoc(st.text, OpText(op, st.licenses != []), Openings(k));
  }

  /** Behind an expression another operator follows. */
  lemma FrontNext(st: State, op: char)
    requires Operators(st.operators) && st.licenses != [] && (op == '&' || op == '|')
    ensures InFront(Pending(st, op), op, 0)
  {
    var ops := st.operators + [op];
    assert ops[|ops| - 1] == op;
    PlusEmpty(ops);
    assert Due(ops, op, 0);
  }

  lemma FrontOpens(st: State, op: char, k: nat)
    requires InFront(st, op, k)
    ensures InFront(Pending(st, '['), op, k + 1)
  {
    hide Opens;
    NetPending(st, '[');
    if st.licenses != [] {
      var front :| Operators(front) && front != "" && front[|front| - 1] == op && st.operators == front + Openings(k);
      Assoc(front, Openings(k), "[");
      OpeningsMore(k);
      assert st.operators + ['['] == front + Openings(k + 1);
    }
  }

  /** Where nothing has been kept, the operators give way to the next one. */
  lemma FrontSkips(st: State, after: State, more: string, op: char, k: nat, next: char)
    requires InFront(st, op, k) && (st.licenses != [] ==> k == 0) && (next == '&' || next == '|')
    requires after.licenses == st.licenses && after.operators == st.operators + more && Operators(more)
    ensures InFront(Pending(after, next), next, k)
  {
    hide Opens;
    var ops := after.operators + [next];
    OperatorsOpen(more);
    AreaAppend(st.operators, more, 0);
    assert Ops(after.operators);
    NetPending(after, next);
    if st.licenses != [] {
      var front :| Operators(front) && front != "" && front[|front| - 1] == op && st.operators == front + Openings(0);
      PlusEmpty(front);
      PlusEmpty(ops);
      assert ops[|ops| - 1] == next;
      assert Due(ops, next, 0);
    }
  }

  lemma {:induction false} OperatorsOpen(ops: string)
    requires Operators(ops)
    ensures Ops(ops) && Opens(ops) == 0
  {
    if ops != "" {
      OperatorsOpen(ops[1..]);
    }
  }

  /** What a visit has done: printed the parts, or left its operators pending. */
  ghost predicate Shown(st: State, after: State, parts: seq<Part>, k: nat) {
    if parts == [] then
      && after.licenses == st.licenses && after.text == st.text
      && exists more :: Operators(more) && after.operators == st.operators + more
    else
      && Operators(after.operators) && after.licenses != []
      && after.text == st.text + OpText(parts[0].op, st.licenses != []) + Openings(k) + PartsText(parts, false)
  }

  /** Every expression that survives is shown part by part. */
  lemma {:induction false} SurvivorShown(keep: string -> bool, e: Expr, st: State, op: char, k: nat)
    requires Survives(keep, e, st.licenses != []) && InFront(st, op, k)
    requires st.licenses != [] && k > 0 ==> KeepsFirst(keep, e)
    ensures Shown(st, Visited(keep, e, st), Parts(keep, e, op), k)
    decreases e, 1
  {
    hide Shown, InFront, Print, Grown, KeepsFirst, KeepsSome;
    match e
    case Lic(s) => LicShown(keep, s, st, op, k);
    case BinAnd(l, r) => TwoShown(keep, e, l, r, '&', st, op, k);
    case BinOr(l, r) => TwoShown(keep, e, l, r, '|', st, op, k);
    case Group(i) =>
      FrontOpens(st, op, k);
      SurvivorShown(keep, i, Pending(st, '['), op, k + 1);
      FrontOp(st, op, k);
      PartsKeep(keep, i, op, st.licenses != []);
      PartsGood(keep, i, op);
      if st.licenses != [] {
        FirstPart(keep, i, op, true);
      }
      GroupShown(st, Visited(keep, i, Pending(st, '[')), Parts(keep, i, op), op, k);
      GroupFirst(keep, i, op);
  }

  lemma FrontOp(st: State, op: char, k: nat)
    requires InFront(st, op, k)
    ensures op == '&' || op == '|'
  {
  }

  lemma LicShown(keep: string -> bool, s: string, st: State, op: char, k: nat)
    requires InFront(st, op, k)
    ensures Shown(st, Visited(keep, Lic(s), st), Parts(keep, Lic(s), op), k)
  {
    hide Condense, Emit, InFront, Spell, OpText, PartText;
    if keep(s) {
      FrontPrints(s, st, op, k);
      OnePart(Part(op, Lic(s)), false);
      FirstText(Part(op, Lic(s)));
      SpellToken(Name(s), true);
      assert Tokens(Lic(s)) == [Name(s)];
    } else {
      PlusEmpty(st.operators);
      assert Operators("");
    }
  }

  lemma GroupFirst(keep: string -> bool, i: Expr, op: char)
    ensures Parts(keep, i, op) != [] ==> Parts(keep, Group(i), op) == [Part(op, Group(Grown(Parts(keep, i, op))))]
  {
    hide Grown;
  }

  /** The bracket opens with its first part, and closes behind the last. */
  lemma GroupShown(st: State, inner: State, parts: seq<Part>, op: char, k: nat)
    requires parts != [] && GoodParts(parts) && Shown(Pending(st, '['), inner, parts, k + 1)
    requires st.licenses != [] ==> parts[0].op == op
    ensures Shown(st, Append(inner, "]"), [Part(op, Group(Grown(parts)))], k)
  {
    hide Grown, Spell, PartText, PartsText;
    var g := Part(op, Group(Grown(parts)));
    OnePart(g, false);
    FirstText(g);
    GrownIs(parts);
    var t := Spell(Tokens(Grown(parts)), true);
    SpelledGroup(Grown(parts));
    OpeningsMore(k);
    var front := st.text + OpText(op, st.licenses != []);
    assert OpText(parts[0].op, st.licenses != []) == OpText(op, st.licenses != []);
    Assoc(front, Openings(k), "[");
    Assoc(front + Openings(k), "[", t);
    Assoc(front + Openings(k), "[" + t, "]");
  }

  lemma SpelledGroup(i: Expr)
    ensures Spell(Tokens(Group(i)), true) == "[" + Spell(Tokens(i), true) + "]"
  {
    SpellToken(Open, true);
    SpellToken(Close, true);
    SpellAppend([Open] + Tokens(i), [Close], true);
    SpellAppend([Open], Tokens(i), true);
  }

  lemma {:induction false} SurvivorLeaves(keep: string -> bool, e: Expr, any: bool)
    requires Survives(keep, e, any)
    ensures Leaves(e) != []
  {
    match e
    case Lic(_) =>
    case BinAnd(l, r) => SurvivorLeaves(keep, l, any);
    case BinOr(l, r) => SurvivorLeaves(keep, l, any);
    case Group(i) => SurvivorLeaves(keep, i, any);
  }

  /** If the first license is kept, the first part comes with the operator in front. */
  lemma {:induction false} FirstPart(keep: string -> bool, e: Expr, op: char, any: bool)
    requires Survives(keep, e, any) && KeepsFirst(keep, e)
    ensures Parts(keep, e, op) != [] && Parts(keep, e, op)[0].op == op
  {
    hide Grown;
    match e
    case Lic(s) =>
    case BinAnd(l, r) =>
      SurvivorLeaves(keep, l, any);
      FirstOfTwo(keep, l, r);
      FirstPart(keep, l, op, any);
      PlusTail(Parts(keep, l, op), Parts(keep, r, '&'));
    case BinOr(l, r) =>
      SurvivorLeaves(keep, l, any);
      FirstOfTwo(keep, l, r);
      FirstPart(keep, l, op, any);
      PlusTail(Parts(keep, l, op), Parts(keep, r, '|'));
    case Group(i) => FirstPart(keep, i, op, any);
  }

  lemma FirstIsLeft(keep: string -> bool, e: Expr, l: Expr, r: Expr)
    requires Leaves(e) == Leaves(l) + Leaves(r) && Leaves(l) != [] && KeepsFirst(keep, e)
    ensures KeepsFirst(keep, l) && KeepsSome(keep, l)
  {
    KeptMeans(keep, Leaves(l));
    assert Leaves(e)[0] == Leaves(l)[0] && Leaves(l)[0] in Leaves(l);
  }

  lemma {:induction false} TwoShown(keep: string -> bool, e: Expr, l: Expr, r: Expr, next: char, st: State, op: char,
                                    k: nat)
    requires l < e && r < e && (next == '&' || next == '|') && Leaves(e) == Leaves(l) + Leaves(r)
    requires Survives(keep, l, st.licenses != []) && Survives(keep, r, st.licenses != [] || KeepsSome(keep, l))
    requires InFront(st, op, k) && (st.licenses != [] && k > 0 ==> KeepsFirst(keep, e))
    ensures Shown(st, Visited(keep, r, Pending(Visited(keep, l, st), next)), Parts(keep, l, op) + Parts(keep, r, next),
            k)
    decreases e, 0
  {
    hide Shown, InFront, Survives, Parts, KeepsFirst, KeepsSome, Visited;
    var mid := Visited(keep, l, st);
    var before, more := Parts(keep, l, op), Parts(keep, r, next);
    SurvivorLeaves(keep, l, st.licenses != []);
    if st.licenses != [] && k > 0 {
      FirstIsLeft(keep, e, l, r);
    }
    SurvivorShown(keep, l, st, op, k);
    FrontOp(st, op, k);
    PartsKeep(keep, l, op, st.licenses != []);
    if before == [] {
      SkippedFront(st, mid, op, k, next);
      SurvivorShown(keep, r, Pending(mid, next), next, k);
      SkippedShown(st, mid, next, Visited(keep, r, Pending(mid, next)), more, k);
      PlusEmpty(more);
    } else {
      ShownFront(st, mid, before, k, next);
      SurvivorShown(keep, r, Pending(mid, next), next, 0);
      BothShown(st, mid, next, Visited(keep, r, Pending(mid, next)), before, more, k);
    }
  }

  lemma SkippedFront(st: State, mid: State, op: char, k: nat, next: char)
    requires InFront(st, op, k) && Shown(st, mid, [], k) && (st.licenses != [] ==> k == 0)
    requires next == '&' || next == '|'
    ensures InFront(Pending(mid, next), next, k) && mid.licenses == st.licenses
  {
    hide InFront;
    var more :| Operators(more) && mid.operators == st.operators + more;
    FrontSkips(st, mid, more, op, k, next);
  }

  lemma SkippedShown(st: State, mid: State, next: char, after: State, parts: seq<Part>, k: nat)
    requires Shown(st, mid, [], k) && Shown(Pending(mid, next), after, parts, k) && (next == '&' || next == '|')
    ensures Shown(st, after, parts, k)
  {
    hide PartsText;
    if parts == [] {
      var more :| Operators(more) && mid.operators == st.operators + more;
      var rest :| Operators(rest) && after.operators == mid.operators + [next] + rest;
      var all := more + [next] + rest;
      assert Operators(all);
      Assoc(st.operators, more, [next]);
      Assoc(st.operators, more + [next], rest);
    }
  }

  lemma ShownFront(st: State, mid: State, parts: seq<Part>, k: nat, next: char)
    requires parts != [] && Shown(st, mid, parts, k) && (next == '&' || next == '|')
    ensures InFront(Pending(mid, next), next, 0) && mid.licenses != []
  {
    FrontNext(mid, next);
  }

  lemma BothShown(st: State, mid: State, next: char, after: State, before: seq<Part>, more: seq<Part>, k: nat)
    requires before != [] && Shown(st, mid, before, k) && Shown(Pending(mid, next), after, more, 0)
    requires next == '&' || next == '|'
    ensures Shown(st, after, before + more, k)
  {
    hide PartsText, OpText;
    PlusTail(before, more);
    PartsTextAppend(before, more, false);
    if more == [] {
      PlusEmpty(before);
      var rest :| Operators(rest) && after.operators == mid.operators + [next] + rest;
      assert Operators(mid.operators + [next] + rest);
    } else {
      var front := st.text + OpText(before[0].op, st.licenses != []) + Openings(k);
      LaterText(more);
      PlusEmpty(mid.text + OpText(more[0].op, true));
      Assoc(mid.text, OpText(more[0].op, true), PartsText(more, false));
      Assoc(front, PartsText(before, false), PartsText(more, true));
    }
  }

  lemma LaterText(parts: seq<Part>)
    requires parts != []
    ensures PartsText(parts, true) == OpText(parts[0].op, true) + PartsText(parts, false)
  {
    hide Spell;
    var t := Spell(Tokens(parts[0].p), true);
    PlusEmpty(t);
    Assoc(OpText(parts[0].op, true), t, PartsText(parts[1..], true));
  }

  // ---------------------------------------------------------------------
  // The exact condition

  /** If something is kept, the string reads back exactly if the expression
      survives the filter; if nothing is, exactly if it has no brackets. */
  lemma ReadsBackIff(licensestr: string, e: Expr, keep: string -> bool)
    requires ParsedFrom(licensestr, e)
    ensures ReadsBack(keep, e) <==> if KeepsSome(keep, e) then Survives(keep, e, false) else BracketFree(e)
  {
    hide ReadsBack, Survives, KeepsSome, NoCall, AllLicenses, TokensFrom, Elements, Parse;
    ParsedIsRegular(licensestr, e);
    if !KeepsSome(keep, e) {
      NothingReadsBack(keep, e);
    } else if Survives(keep, e, false) {
      SurvivorReadsBack(keep, e);
    } else {
      LostReadsNever(keep, e);
    }
  }

  lemma ParsedIsRegular(licensestr: string, e: Expr)
    requires ParsedFrom(licensestr, e)
    ensures NoCall(e) && AllLicenses(Leaves(e))
  {
    hide NoCall, TokensFrom, Elements, Parse, AllLicenses;
    ParsedWhole(licensestr, e);
    SquareNoCall(e);
  }

  lemma ParsedWhole(licensestr: string, e: Expr)
    requires ParsedFrom(licensestr, e)
    ensures IsOrExpr(e, true) && AllLicenses(Leaves(e))
  {
    ParsedFromIff(licensestr, e);
  }

  lemma LostReadsNever(keep: string -> bool, e: Expr)
    requires KeepsSome(keep, e) && !Survives(keep, e, false) && NoCall(e) && AllLicenses(Leaves(e))
    ensures !ReadsBack(keep, e)
  {
    hide Survives, ParsedFrom, AllLicenses, NoCall, Visited;
    KeptLicenses(keep, e, State("", [], ""));
    PlusEmpty(Kept(keep, Leaves(e)));
    if f :| ParsedFrom(Printed(keep, Some(e)).0, f) {
      NeverReads(keep, e, f);
    }
  }

  lemma SurvivorReadsBack(keep: string -> bool, e: Expr)
    requires KeepsSome(keep, e) && Survives(keep, e, false) && AllLicenses(Leaves(e))
    ensures ReadsBack(keep, e)
  {
    hide Survives, ParsedFrom, Visited, Grown, Parts, Spell, PartsText, InFront, Shown, Rounded;
    var st := State("", [], "");
    var parts := Parts(keep, e, '&');
    NoOps();
    StartInFront();
    SurvivorShown(keep, e, st, '&', 0);
    PartsKeep(keep, e, '&', false);
    PartsGood(keep, e, '&');
    GrownIs(parts);
    var f := Grown(parts);
    KeptLicenses(keep, e, st);
    PlusEmpty(Kept(keep, Leaves(e)));
    KeptAllLicenses(keep, Leaves(e));
    StartShown(Visited(keep, e, st), parts);
    RegularSpaced(f);
    RoundedSpell(Tokens(f));
    GrownParses(f);
  }

  lemma StartInFront()
    ensures InFront(State("", [], ""), '&', 0)
  {
    NoOps();
  }

  lemma StartShown(after: State, parts: seq<Part>)
    requires parts != [] && Shown(State("", [], ""), after, parts, 0)
    ensures after.text == PartsText(parts, false)
  {
    hide PartsText;
    PlusEmpty(PartsText(parts, false));
  }

  lemma GrownParses(f: Expr)
    requires IsOrExpr(f, true) && Regular(f) && AllLicenses(Leaves(f)) && Spaced(Tokens(f))
    ensures ParsedFrom(Spell(Tokens(f), false), f)
  {
    ReadSpelled(Tokens(f));
    ParseIffTokens(Tokens(f), f, true);
  }

  lemma {:induction false} KeptAllLicenses(keep: string -> bool, ls: seq<string>)
    requires AllLicenses(ls)
    ensures AllLicenses(Kept(keep, ls))
  {
    KeptMeans(keep, ls);
    forall i | 0 <= i < |Kept(keep, ls)| ensures IsLicense(Kept(keep, ls)[i]) {
      assert Kept(keep, ls)[i] in Kept(keep, ls);
      assert Kept(keep, ls)[i] in ls;
    }
  }

  lemma NothingReadsBack(keep: string -> bool, e: Expr)
    requires !KeepsSome(keep, e) && NoCall(e)
    ensures ReadsBack(keep, e) <==> BracketFree(e)
  {
    hide ParsedFrom, Visited, NoCall;
    var st := State("", [], "");
    KeptLicenses(keep, e, st);
    PlusEmpty(Kept(keep, Leaves(e)));
    OnlyClosings(keep, e, st);
  }

  /** With nothing kept, the closing brackets are all that is printed. */
  lemma {:induction false} OnlyClosings(keep: string -> bool, e: Expr, st: State)
    requires !KeepsSome(keep, e) && NoCall(e)
    ensures var text := Visited(keep, e, st).text;
            |text| >= |st.text| && (|text| == |st.text| <==> BracketFree(e)) && st.text <= text
  {
    match e
    case Lic(s) => OnlyLeaf(keep, s);
    case BinAnd(l, r) =>
      FirstOfTwo(keep, l, r);
      OnlyClosings(keep, l, st);
      OnlyClosings(keep, r, Pending(Visited(keep, l, st), '&'));
    case BinOr(l, r) =>
      FirstOfTwo(keep, l, r);
      OnlyClosings(keep, l, st);
      OnlyClosings(keep, r, Pending(Visited(keep, l, st), '|'));
    case Group(i) => OnlyClosings(keep, i, Pending(st, '['));
    case EmptyGroup =>
    case Apply(f, a) =>
      FirstOfTwo(keep, f, a);
      OnlyClosings(keep, f, st);
      OnlyClosings(keep, a, Visited(keep, f, st));
    case ApplyNone(_) =>
  }
}
