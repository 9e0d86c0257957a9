/** Where the printer of manifest_licenses is sound, and where it is not. */
module ManifestLaws {
  import opened Text
  import opened License
  import opened LicenseGrammar
  import opened Manifest

  // ---------------------------------------------------------------------
  // The printer delays "[" but not "]". Opens counts opening brackets, square
  // or round; Area counts the pairs of an opening bracket and a closing one
  // after it, o openings being in front. A delay makes the area smaller.

  predicate OpenChar(c: char) { c == '[' || c == '(' }

  predicate CloseChar(c: char) { c == ']' || c == ')' }

  function Opens(s: string): nat {
    if s == "" then 0 else (if OpenChar(s[0]) then 1 else 0) + Opens(s[1..])
  }

  function Area(s: string, o: nat): nat {
    if s == "" then 0
    else if OpenChar(s[0]) then Area(s[1..], o + 1)
    else (if CloseChar(s[0]) then o else 0) + Area(s[1..], o)
  }

  function TokenOpens(ts: seq<Token>): nat {
    if ts == [] then 0 else (if ts[0] == Open then 1 else 0) + TokenOpens(ts[1..])
  }

  function TokenArea(ts: seq<Token>, o: nat): nat {
    if ts == [] then 0
    else if ts[0] == Open then TokenArea(ts[1..], o + 1)
    else (if ts[0] == Close then o else 0) + TokenArea(ts[1..], o)
  }

  lemma {:induction false} AreaAppend(a: string, b: string, o: nat)
    ensures Opens(a + b) == Opens(a) + Opens(b)
    ensures Area(a + b, o) == Area(a, o) + Area(b, o + Opens(a))
    decreases |a|
  {
    if a == "" {
      assert a + b == b;
    } else {
      assert (a + b)[1..] == a[1..] + b;
      AreaAppend(a[1..], b, if OpenChar(a[0]) then o + 1 else o);
    }
  }

  lemma {:induction false} TokenAreaAppend(a: seq<Token>, b: seq<Token>, o: nat)
    ensures TokenOpens(a + b) == TokenOpens(a) + TokenOpens(b)
    ensures TokenArea(a + b, o) == TokenArea(a, o) + TokenArea(b, o + TokenOpens(a))
    decreases |a|
  {
    if a == [] {
      assert a + b == b;
    } else {
      assert (a + b)[1..] == a[1..] + b;
      TokenAreaAppend(a[1..], b, if a[0] == Open then o + 1 else o);
    }
  }

  lemma AreaOne(c: char, o: nat)
    ensures Opens([c]) == if OpenChar(c) then 1 else 0
    ensures Area([c], o) == if CloseChar(c) then o else 0
  {
    assert [c][1..] == "";
  }

  lemma {:induction false} NoBrackets(s: string, o: nat)
    requires forall i | 0 <= i < |s| :: !OpenChar(s[i]) && !CloseChar(s[i])
    ensures Opens(s) == 0 && Area(s, o) == 0
  {
    if s != "" {
      NoBrackets(s[1..], o);
    }
  }

  lemma LicenseArea(s: string, o: nat)
    requires IsLicense(s)
    ensures Opens(s) == 0 && Area(s, o) == 0
  {
    assert forall i | 0 <= i < |s| :: LicenseChar(s[i]);
    NoBrackets(s, o);
  }

  lemma {:induction false} RoundedArea(s: string, o: nat)
    ensures Opens(Rounded(s)) == Opens(s) && Area(Rounded(s), o) == Area(s, o)
    decreases |s|
  {
    if s != "" {
      RoundedArea(s[1..], if OpenChar(s[0]) then o + 1 else o);
      assert Rounded(s)[1..] == Rounded(s[1..]);
    }
  }

  /** What can be pending. */
  predicate Ops(ops: string) {
    forall i | 0 <= i < |ops| :: ops[i] == '&' || ops[i] == '|' || ops[i] == '['
  }

  /** Condensing loses operators but no bracket. */
  lemma {:induction false} CondenseOpens(operators: string, ops: string)
    requires Ops(operators) && Ops(ops)
    ensures Ops(Condense(operators, ops)) && Opens(Condense(operators, ops)) == Opens(ops) + Opens(operators)
    decreases |operators|
  {
    if operators != "" {
      var op := operators[0];
      var next := CondenseOne(op, ops);
      CondenseStep(op, ops, next);
      CondenseOpens(operators[1..], next);
    }
  }

  lemma CondenseStep(op: char, ops: string, next: string)
    requires Ops([op]) && Ops(ops)
    requires next == ops + [op]
             || (ops != "" && !Bracket(op) && !Bracket(ops[|ops| - 1]) && next == ops[..|ops| - 1] + [op])
    ensures Ops(next) && Opens(next) == Opens(ops) + if op == '[' then 1 else 0
  {
    assert Ops([op]) ==> [op][0] == op;
    AreaOne(op, 0);
    if next == ops + [op] {
      AreaAppend(ops, [op], 0);
    } else {
      var init, last := ops[..|ops| - 1], ops[|ops| - 1];
      AreaAppend(init, [op], 0);
      AreaAppend(init, [last], 0);
      AreaOne(last, 0);
      assert init + [last] == ops;
    }
  }

  lemma {:induction false} EmitArea(ops: string, any: bool, o: nat)
    requires Ops(ops)
    ensures Opens(Emit(ops, any)) == Opens(ops) && Area(Emit(ops, any), o) == 0
    decreases |ops|
  {
    if ops != "" {
      var op := ops[0];
      var o' := if OpenChar(op) then o + 1 else o;
      EmitArea(ops[1..], any, o');
      if Bracket(op) {
        AreaOne(op, o);
        AreaAppend([op], Emit(ops[1..], any), o);
      } else if any {
        NoBrackets([' ', op, ' '], o);
        AreaAppend([' ', op, ' '], Emit(ops[1..], any), o);
      } else {
        assert "" + Emit(ops[1..], any) == Emit(ops[1..], any);
      }
    }
  }

  // ---------------------------------------------------------------------
  // The print against the tokens read so far

  /** Tokens with the given opens and area have been read. Of their opening
      brackets, lost ones will never be printed; gap is by how much the area
      of the print has fallen short for good. */
  predicate Behind(st: State, opens: nat, area: nat, lost: nat, gap: nat) {
    && Ops(st.operators)
    && Opens(st.text) + Opens(st.operators) + lost <= opens
    && Area(st.text, 0) + gap <= area
  }

  lemma ReadOperator(st: State, op: char, opens: nat, area: nat, lost: nat, gap: nat)
    requires Behind(st, opens, area, lost, gap) && Ops([op])
    ensures Behind(Pending(st, op), opens + if op == '[' then 1 else 0, area, lost, gap)
    ensures op == '[' ==> Opens(Pending(st, op).operators) >= 1
  {
    assert [op][0] == op;
    AreaAppend(st.operators, [op], 0);
    AreaOne(op, 0);
  }

  /** A closing bracket: every opening bracket still due at that point widens the gap. */
  lemma ReadClose(st: State, opens: nat, area: nat, lost: nat, gap: nat) returns (gap': nat)
    requires Behind(st, opens, area, lost, gap)
    ensures Behind(Append(st, "]"), opens, area + opens, lost, gap')
    ensures gap' >= gap + Opens(st.operators) + lost
  {
    AreaAppend(st.text, "]", 0);
    AreaOne(']', Opens(st.text));
    gap' := gap + opens - Opens(st.text);
  }

  lemma PrintArea(st: State, s: string)
    requires Ops(st.operators) && IsLicense(s)
    ensures Opens(Print(s, st).text) == Opens(st.text) + Opens(st.operators)
    ensures Area(Print(s, st).text, 0) == Area(st.text, 0)
  {
    hide Condense, Emit, IsLicense, Area, Opens;
    var any, ops := st.licenses != [], Condense(st.operators, "");
    NoBrackets("", 0);
    CondenseOpens(st.operators, "");
    EmitArea(ops, any, Opens(st.text));
    AreaAppend(st.text, Emit(ops, any), 0);
    LicenseArea(s, Opens(st.text + Emit(ops, any)));
    AreaAppend(st.text + Emit(ops, any), s, 0);
  }

  /** The opening brackets in the tokens of e. */
  function WordOpens(e: Expr): nat {
    match e
    case Lic(_) => 0
    case BinAnd(l, r) => WordOpens(l) + WordOpens(r)
    case BinOr(l, r) => WordOpens(l) + WordOpens(r)
    case Group(i) => 1 + WordOpens(i)
    case EmptyGroup => 1
    case Apply(f, a) => WordOpens(f) + 1 + WordOpens(a)
    case ApplyNone(f) => WordOpens(f) + 1
  }

  /** The area of the tokens of e. */
  function WordArea(e: Expr, o: nat): nat {
    match e
    case Lic(_) => 0
    case BinAnd(l, r) => WordArea(l, o) + WordArea(r, o + WordOpens(l))
    case BinOr(l, r) => WordArea(l, o) + WordArea(r, o + WordOpens(l))
    case Group(i) => WordArea(i, o + 1) + (o + 1 + WordOpens(i))
    case EmptyGroup => o + 1
    case Apply(f, a) => WordArea(f, o) + WordArea(a, o + WordOpens(f) + 1) + (o + WordOpens(f) + 1 + WordOpens(a))
    case ApplyNone(f) => WordArea(f, o) + (o + WordOpens(f) + 1)
  }

  lemma TokenAreaOne(t: Token, o: nat)
    ensures TokenOpens([t]) == if t == Open then 1 else 0
    ensures TokenArea([t], o) == if t == Close then o else 0
  {
    assert [t][1..] == [];
  }

  lemma JoinArea(l: seq<Token>, t: Token, r: seq<Token>, o: nat)
    ensures var k := TokenOpens(l) + if t == Open then 1 else 0;
            && TokenOpens(l + [t] + r) == k + TokenOpens(r)
            && TokenArea(l + [t] + r, o) ==
               TokenArea(l, o) + (if t == Close then o + TokenOpens(l) else 0) + TokenArea(r, o + k)
  {
    TokenAreaAppend(l + [t], r, o);
    TokenAreaAppend(l, [t], o);
    TokenAreaOne(t, o + TokenOpens(l));
  }

  lemma CloseArea(l: seq<Token>, o: nat)
    ensures TokenOpens(l + [Close]) == TokenOpens(l)
    ensures TokenArea(l + [Close], o) == TokenArea(l, o) + o + TokenOpens(l)
  {
    TokenAreaAppend(l, [Close], o);
    TokenAreaOne(Close, o + TokenOpens(l));
  }

  lemma {:induction false} WordIsTokens(e: Expr, o: nat)
    ensures TokenOpens(Tokens(e)) == WordOpens(e) && TokenArea(Tokens(e), o) == WordArea(e, o)
    decreases e, 1
  {
    hide TokenOpens, TokenArea, WordOpens, WordArea, Tokens;
    match e
    case Lic(s) => LicIsTokens(s, o);
    case BinAnd(l, r) =>
      BinaryIsTokens(e, l, And, r, o);
      BinaryWords(l, r, o);
    case BinOr(l, r) =>
      BinaryIsTokens(e, l, Or, r, o);
      BinaryWords(l, r, o);
    case _ => BracketsAreTokens(e, o);
  }

  lemma LicIsTokens(s: string, o: nat)
    ensures TokenOpens(Tokens(Lic(s))) == WordOpens(Lic(s)) && TokenArea(Tokens(Lic(s)), o) == WordArea(Lic(s), o)
  {
    TokenAreaOne(Name(s), o);
  }

  lemma BinaryWords(l: Expr, r: Expr, o: nat)
    ensures Tokens(BinAnd(l, r)) == Tokens(l) + [And] + Tokens(r) && Tokens(BinOr(l, r)) == Tokens(l) + [Or] + Tokens(r)
    ensures WordOpens(BinAnd(l, r)) == WordOpens(BinOr(l, r)) == WordOpens(l) + WordOpens(r)
    ensures WordArea(BinAnd(l, r), o) == WordArea(BinOr(l, r), o) == WordArea(l, o) + WordArea(r, o + WordOpens(l))
  {
    BinaryTokens(l, r);
    BinaryOpens(l, r);
    AndArea(l, r, o);
    OrArea(l, r, o);
    hide Tokens, WordOpens, WordArea;
  }

  lemma BinaryTokens(l: Expr, r: Expr)
    ensures Tokens(BinAnd(l, r)) == Tokens(l) + [And] + Tokens(r) && Tokens(BinOr(l, r)) == Tokens(l) + [Or] + Tokens(r)
  {
  }

  lemma BinaryOpens(l: Expr, r: Expr)
    ensures WordOpens(BinAnd(l, r)) == WordOpens(BinOr(l, r)) == WordOpens(l) + WordOpens(r)
  {
  }

  lemma AndArea(l: Expr, r: Expr, o: nat)
    ensures WordArea(BinAnd(l, r), o) == WordArea(l, o) + WordArea(r, o + WordOpens(l))
  {
    hide WordOpens, Tokens;
  }

  lemma OrArea(l: Expr, r: Expr, o: nat)
    ensures WordArea(BinOr(l, r), o) == WordArea(l, o) + WordArea(r, o + WordOpens(l))
  {
    hide WordOpens, Tokens;
  }

  lemma {:induction false} BinaryIsTokens(e: Expr, l: Expr, t: Token, r: Expr, o: nat)
    requires l < e && r < e && (t == And || t == Or)
    ensures TokenOpens(Tokens(l) + [t] + Tokens(r)) == WordOpens(l) + WordOpens(r)
    ensures TokenArea(Tokens(l) + [t] + Tokens(r), o) == WordArea(l, o) + WordArea(r, o + WordOpens(l))
    decreases e, 0
  {
    hide TokenOpens, TokenArea, WordOpens, WordArea, Tokens;
    WordIsTokens(l, o);
    WordIsTokens(r, o + WordOpens(l));
    JoinArea(Tokens(l), t, Tokens(r), o);
  }

  lemma BracketTokens(e: Expr)
    ensures e.Group? ==> Tokens(e) == [Open] + Tokens(e.inner) + [Close]
    ensures e.EmptyGroup? ==> Tokens(e) == [Open, Close]
    ensures e.Apply? ==> Tokens(e) == Tokens(e.fun) + [Open] + Tokens(e.arg) + [Close]
    ensures e.ApplyNone? ==> Tokens(e) == Tokens(e.fun) + [Open, Close]
  {
  }

  lemma {:induction false} BracketsAreTokens(e: Expr, o: nat)
    requires e.Group? || e.EmptyGroup? || e.Apply? || e.ApplyNone?
    ensures TokenOpens(Tokens(e)) == WordOpens(e) && TokenArea(Tokens(e), o) == WordArea(e, o)
    decreases e, 0
  {
    hide TokenOpens, TokenArea, Tokens;
    EmptyTokens(o);
    BracketTokens(e);
    match e
    case Group(i) =>
      WordIsTokens(i, o + 1);
      JoinArea([], Open, Tokens(i), o);
      PlusEmpty([Open]);
      CloseArea([Open] + Tokens(i), o);
    case EmptyGroup =>
      PairArea([], o);
      PlusEmpty([Open, Close]);
    case Apply(f, a) =>
      WordIsTokens(f, o);
      WordIsTokens(a, o + WordOpens(f) + 1);
      JoinArea(Tokens(f), Open, Tokens(a), o);
      CloseArea(Tokens(f) + [Open] + Tokens(a), o);
    case ApplyNone(f) =>
      WordIsTokens(f, o);
      PairArea(Tokens(f), o);
  }

  lemma EmptyTokens(o: nat)
    ensures TokenOpens([]) == 0 && TokenArea([], o) == 0
  {
  }

  lemma PairArea(l: seq<Token>, o: nat)
    ensures TokenOpens(l + [Open, Close]) == TokenOpens(l) + 1
    ensures TokenArea(l + [Open, Close], o) == TokenArea(l, o) + o + TokenOpens(l) + 1
  {
    hide TokenOpens, TokenArea;
    assert l + [Open, Close] == l + [Open] + [Close];
    TokenAreaAppend(l, [Open], o);
    TokenAreaOne(Open, o + TokenOpens(l));
    CloseArea(l + [Open], o);
  }

  lemma NoOps()
    ensures Ops("") && Opens("") == 0
  {
  }

  lemma LicenseBehind(keep: string -> bool, s: string, st: State, opens: nat, area: nat, lost: nat, gap: nat)
    requires Behind(st, opens, area, lost, gap) && AllLicenses(Leaves(Lic(s)))
    ensures Behind(Visited(keep, Lic(s), st), opens, area, lost, gap)
    ensures WordOpens(Lic(s)) == WordArea(Lic(s), opens) == 0 && Regular(Lic(s))
  {
    hide Opens, Area, Ops;
    assert Leaves(Lic(s))[0] == s;
    PrintArea(st, s);
    NoOps();
  }

  /** An "and" and its operands, for all that is counted here. */
  lemma AndParts(keep: string -> bool, l: Expr, r: Expr, st: State, o: nat)
    ensures var e := BinAnd(l, r);
            && Visited(keep, e, st) == Visited(keep, r, Pending(Visited(keep, l, st), '&'))
            && WordOpens(e) == WordOpens(l) + WordOpens(r)
            && WordArea(e, o) == WordArea(l, o) + WordArea(r, o + WordOpens(l))
            && (Regular(e) <==> Regular(l) && Regular(r)) && Leaves(e) == Leaves(l) + Leaves(r)
  {
    hide Pending;
  }

  lemma OrParts(keep: string -> bool, l: Expr, r: Expr, st: State, o: nat)
    ensures var e := BinOr(l, r);
            && Visited(keep, e, st) == Visited(keep, r, Pending(Visited(keep, l, st), '|'))
            && WordOpens(e) == WordOpens(l) + WordOpens(r)
            && WordArea(e, o) == WordArea(l, o) + WordArea(r, o + WordOpens(l))
            && (Regular(e) <==> Regular(l) && Regular(r)) && Leaves(e) == Leaves(l) + Leaves(r)
  {
    hide Pending;
  }

  /** Every empty bracket pair and every operand in front of a bracket leaves the print behind for good. */
  lemma {:induction false} VisitedBehind(keep: string -> bool, e: Expr, st: State, opens: nat, area: nat, lost: nat,
                                         gap: nat)
    returns (gap': nat)
    requires Behind(st, opens, area, lost, gap) && AllLicenses(Leaves(e))
    ensures Behind(Visited(keep, e, st), opens + WordOpens(e), area + WordArea(e, opens), lost, gap')
    ensures gap' >= gap + if Regular(e) then 0 else 1
    decreases e, 1
  {
    hide Opens, Area, Behind, AllLicenses, Visited, WordOpens, WordArea, Regular, Leaves;
    gap' := gap;
    match e
    case Lic(s) => LicenseBehind(keep, s, st, opens, area, lost, gap);
    case BinAnd(l, r) =>
      AndParts(keep, l, r, st, opens);
      AllLicensesAppend(Leaves(l), Leaves(r));
      gap' := VisitedBehind(keep, l, st, opens, area, lost, gap);
      gap' := NextBehind(keep, e, r, '&', Visited(keep, l, st), opens + WordOpens(l), area + WordArea(l, opens), lost,
          gap');
    case BinOr(l, r) =>
      OrParts(keep, l, r, st, opens);
      AllLicensesAppend(Leaves(l), Leaves(r));
      gap' := VisitedBehind(keep, l, st, opens, area, lost, gap);
      gap' := NextBehind(keep, e, r, '|', Visited(keep, l, st), opens + WordOpens(l), area + WordArea(l, opens), lost,
          gap');
    case _ => gap' := BracketBehind(keep, e, st, opens, area, lost, gap);
  }

  lemma {:induction false} NextBehind(keep: string -> bool, e: Expr, i: Expr, op: char, st: State, opens: nat,
                                      area: nat, lost: nat, gap: nat)
    returns (gap': nat)
    requires Behind(st, opens, area, lost, gap) && Ops([op]) && i < e && AllLicenses(Leaves(i))
    ensures var opens' := opens + if op == '[' then 1 else 0;
            Behind(Visited(keep, i, Pending(st, op)), opens' + WordOpens(i), area + WordArea(i, opens'), lost, gap')
    ensures gap' >= gap + if Regular(i) then 0 else 1
    decreases e, 0, 0
  {
    hide WordOpens, WordArea, Visited, Opens, Area, Leaves, AllLicenses, Regular, Behind, Pending;
    ReadOperator(st, op, opens, area, lost, gap);
    gap' := VisitedBehind(keep, i, Pending(st, op), if op == '[' then opens + 1 else opens, area, lost, gap);
  }

  /** A bracket and what it is made of, likewise. */
  lemma BracketParts(keep: string -> bool, e: Expr, st: State, o: nat)
    requires e.Group? || e.EmptyGroup? || e.Apply? || e.ApplyNone?
    ensures e.Group? ==>
              && Visited(keep, e, st) == Append(Visited(keep, e.inner, Pending(st, '[')), "]")
              && WordOpens(e) == 1 + WordOpens(e.inner) && (Regular(e) <==> Regular(e.inner))
                 && Leaves(e) == Leaves(e.inner)
              && WordArea(e, o) == WordArea(e.inner, o + 1) + (o + 1 + WordOpens(e.inner))
    ensures e.EmptyGroup? ==>
            Visited(keep, e, st) == Append(Pending(st, '['), "]") && WordOpens(e) == 1 && WordArea(e, o) == o + 1
    ensures e.Apply? ==>
              && Visited(keep, e, st) == Append(Visited(keep, e.arg, Visited(keep, e.fun, st)), "]")
              && WordOpens(e) == WordOpens(e.fun) + 1 + WordOpens(e.arg)
              && WordArea(e, o) == WordArea(e.fun, o) + WordArea(e.arg, o + WordOpens(e.fun) + 1) +
                 (o + WordOpens(e.fun) + 1 + WordOpens(e.arg))
              && (AllLicenses(Leaves(e)) ==> AllLicenses(Leaves(e.fun)) && AllLicenses(Leaves(e.arg)))
    ensures e.ApplyNone? ==>
              && Visited(keep, e, st) == Visited(keep, e.fun, st) && Leaves(e) == Leaves(e.fun)
              && WordOpens(e) == WordOpens(e.fun) + 1
                 && WordArea(e, o) == WordArea(e.fun, o) + (o + WordOpens(e.fun) + 1)
  {
    hide AllLicenses;
    if e.Apply? && AllLicenses(Leaves(e)) {
      AllLicensesAppend(Leaves(e.fun), Leaves(e.arg));
    }
  }

  lemma BehindWider(st: State, opens: nat, area: nat, lost: nat, gap: nat)
    requires Behind(st, opens, area, lost, gap)
    ensures Behind(st, opens + 1, area + (opens + 1), lost, gap + 1)
  {
  }

  lemma {:induction false} BracketBehind(keep: string -> bool, e: Expr, st: State, opens: nat, area: nat, lost: nat,
                                         gap: nat)
    returns (gap': nat)
    requires Behind(st, opens, area, lost, gap) && AllLicenses(Leaves(e))
    requires e.Group? || e.EmptyGroup? || e.Apply? || e.ApplyNone?
    ensures Behind(Visited(keep, e, st), opens + WordOpens(e), area + WordArea(e, opens), lost, gap')
    ensures gap' >= gap + if Regular(e) then 0 else 1
    decreases e, 0, 1
  {
    hide Behind, Opens, Area, AllLicenses, Visited, WordOpens, WordArea, Regular, Leaves;
    BracketParts(keep, e, st, opens);
    match e
    case Group(i) =>
      gap' := NextBehind(keep, e, i, '[', st, opens, area, lost, gap);
      gap' := ReadClose(Visited(keep, i, Pending(st, '[')), opens + 1 + WordOpens(i), area + WordArea(i, opens + 1),
          lost, gap');
    case EmptyGroup =>
      ReadOperator(st, '[', opens, area, lost, gap);
      gap' := ReadClose(Pending(st, '['), opens + 1, area, lost, gap);
    case Apply(f, a) =>
      gap' := VisitedBehind(keep, f, st, opens, area, lost, gap);
      gap' := ArgumentBehind(keep, e, a, Visited(keep, f, st), opens + WordOpens(f), area + WordArea(f, opens), lost,
          gap');
    case ApplyNone(f) =>
      gap' := VisitedBehind(keep, f, st, opens, area, lost, gap);
      BehindWider(Visited(keep, f, st), opens + WordOpens(f), area + WordArea(f, opens), lost, gap');
      gap' := gap' + 1;
  }

  lemma BehindMore(st: State, opens: nat, area: nat, lost: nat, gap: nat)
    requires Behind(st, opens, area, lost, gap)
    ensures Behind(st, opens + 1, area, lost + 1, gap)
  {
  }

  lemma BehindLess(st: State, opens: nat, area: nat, lost: nat, gap: nat)
    requires Behind(st, opens, area, lost + 1, gap)
    ensures Behind(st, opens, area, lost, gap)
  {
  }

  /** The bracketed argument of a subscript: only its closing bracket is printed. */
  lemma {:induction false} ArgumentBehind(keep: string -> bool, e: Expr, a: Expr, st: State, opens: nat, area: nat,
                                          lost: nat, gap: nat)
    returns (gap': nat)
    requires Behind(st, opens, area, lost, gap) && a < e && AllLicenses(Leaves(a))
    ensures Behind(Append(Visited(keep, a, st), "]"), opens + 1 + WordOpens(a),
                   area + WordArea(a, opens + 1) + (opens + 1 + WordOpens(a)), lost, gap')
    ensures gap' > gap
    decreases e, 0, 0
  {
    hide WordOpens, WordArea, Visited, Opens, Area, Leaves, AllLicenses, Regular, Behind, Append;
    BehindMore(st, opens, area, lost, gap);
    gap' := VisitedBehind(keep, a, st, opens + 1, area, lost + 1, gap);
    gap' := ReadClose(Visited(keep, a, st), opens + 1 + WordOpens(a), area + WordArea(a, opens + 1), lost + 1, gap');
    BehindLess(Append(Visited(keep, a, st), "]"), opens + 1 + WordOpens(a),
               area + WordArea(a, opens + 1) + (opens + 1 + WordOpens(a)), lost, gap');
  }

  // ---------------------------------------------------------------------
  // A string and its tokens have the same counts

  function ElementOpens(es: seq<string>): nat {
    if es == [] then 0 else Opens(es[0]) + ElementOpens(es[1..])
  }

  function ElementArea(es: seq<string>, o: nat): nat {
    if es == [] then 0 else Area(es[0], o) + ElementArea(es[1..], o + Opens(es[0]))
  }

  lemma ElementFirst(e: string, rest: seq<string>, o: nat)
    ensures ElementOpens([e] + rest) == Opens(e) + ElementOpens(rest)
    ensures ElementArea([e] + rest, o) == Area(e, o) + ElementArea(rest, o + Opens(e))
  {
    assert ([e] + rest)[1..] == rest;
  }

  lemma {:induction false} DropBlankArea(es: seq<string>, o: nat)
    ensures ElementOpens(DropBlank(es)) == ElementOpens(es) && ElementArea(DropBlank(es), o) == ElementArea(es, o)
    decreases |es|
  {
    hide Opens, Area, ElementOpens, ElementArea;
    if es != [] {
      DropBlankArea(es[1..], o + Opens(es[0]));
      HeadTail(es);
      ElementFirst(es[0], es[1..], o);
      var rest := DropBlank(es[1..]);
      if Blank(es[0]) {
        NoBrackets(es[0], o);
        PlusEmpty(rest);
      } else {
        ElementFirst(es[0], rest, o);
      }
    }
  }

  lemma OneElement(a: string, o: nat)
    ensures ElementOpens([a]) == Opens(a) && ElementArea([a], o) == Area(a, o)
  {
    assert [a][1..] == [];
  }

  lemma TwoElements(a: string, b: string, es: seq<string>, o: nat)
    ensures ElementOpens([a, b] + es) == Opens(a) + Opens(b) + ElementOpens(es)
    ensures ElementArea([a, b] + es, o) == Area(a, o) + Area(b, o + Opens(a)) + ElementArea(es, o + Opens(a) + Opens(b))
  {
    hide Opens, Area;
    assert ([a, b] + es)[1..] == [b] + es && ([b] + es)[1..] == es;
  }

  lemma {:induction false} PiecesArea(s: string, cur: string, o: nat)
    ensures ElementOpens(Pieces(s, cur)) == Opens(cur) + Opens(s)
    ensures ElementArea(Pieces(s, cur), o) == Area(cur, o) + Area(s, o + Opens(cur))
    decreases |s|
  {
    hide OperatorChar, OpenChar, CloseChar, ElementArea, ElementOpens;
    if s == "" {
      OneElement(cur, o);
    } else if OperatorChar(s[0]) {
      var c, o1 := [s[0]], o + Opens(cur);
      AreaOne(s[0], o1);
      PiecesArea(s[1..], "", o1 + Opens(c));
      TwoElements(cur, c, Pieces(s[1..], ""), o);
    } else {
      PiecesArea(s[1..], cur + [s[0]], o);
      AreaAppend(cur, [s[0]], o);
      AreaOne(s[0], o + Opens(cur));
    }
  }

  lemma MatchedArea(e: string, o: nat)
    requires MatchesLicense(e)
    ensures Opens(e) == 0 && Area(e, o) == 0
  {
    var t := if IsLicense(e) then e else e[..|e| - 1];
    assert forall i | 0 <= i < |t| :: LicenseChar(t[i]);
    assert forall i | 0 <= i < |e| :: e[i] == '\n' || e[i] == t[i];
    NoBrackets(e, o);
  }

  lemma {:induction false} TokensFromArea(es: seq<string>, pos: nat, o: nat)
    requires pos <= |es| && TokensFrom(es, pos).Ok?
    ensures TokenOpens(TokensFrom(es, pos).value) == ElementOpens(es[pos..])
    ensures TokenArea(TokensFrom(es, pos).value, o) == ElementArea(es[pos..], o)
    decreases |es| - pos
  {
    hide Opens, Area, TokenOpens, TokenArea, MatchesLicense, OperatorElement;
    if pos < |es| {
      var e := es[pos];
      TokensFromArea(es, pos + 1, o + Opens(e));
      assert es[pos..][0] == e && es[pos..][1..] == es[pos + 1..];
      ElementTokens(e, TokensFrom(es, pos + 1).value, o);
    } else {
      EmptyTokens(o);
    }
  }

  lemma ElementTokens(e: string, more: seq<Token>, o: nat)
    requires MatchesLicense(e) || OperatorElement(e)
    ensures var t := if MatchesLicense(e) then [Name(e)] else [OperatorToken(e)];
            && TokenOpens(t + more) == Opens(e) + TokenOpens(more)
            && TokenArea(t + more, o) == Area(e, o) + TokenArea(more, o + Opens(e))
    ensures MatchesLicense(e) ==>
            && TokenOpens([And, Name(e)] + more) == TokenOpens(more)
            && TokenArea([And, Name(e)] + more, o) == TokenArea(more, o)
            && Opens(e) == 0 && Area(e, o) == 0
  {
    if MatchesLicense(e) {
      MatchedArea(e, o);
      assert ([And, Name(e)] + more)[1..] == [Name(e)] + more && ([Name(e)] + more)[1..] == more;
    } else {
      assert ([OperatorToken(e)] + more)[1..] == more;
      AreaOne(e[0], o);
      assert e == [e[0]];
    }
  }

  lemma EmptyArea(o: nat)
    ensures Opens("") == 0 && Area("", o) == 0
  {
  }

  lemma AreaOfString(s: string)
    requires TokensFrom(Elements(s), 0).Ok?
    ensures TokenArea(TokensFrom(Elements(s), 0).value, 0) == Area(s, 0)
  {
    hide Area, TokenArea, TokensFrom, Elements, ElementArea;
    TokensFromArea(Elements(s), 0, 0);
    ElementsArea(s);
    assert Elements(s)[0..] == Elements(s);
  }

  lemma ElementsArea(s: string)
    ensures ElementArea(Elements(s), 0) == Area(s, 0)
  {
    hide Area, Opens, Pieces, ElementArea, ElementOpens, DropBlank;
    EmptyArea(0);
    DropBlankArea(Pieces(s, ""), 0);
    PiecesArea(s, "", 0);
  }

  /** What a string is parsed to has its area. */
  lemma ParsedArea(s: string, e: Expr)
    requires ParsedFrom(s, e)
    ensures Area(s, 0) == WordArea(e, 0)
  {
    hide Tokens, TokensFrom, Elements, Area, TokenArea, WordArea, Leaves, AllLicenses, IsOrExpr, ParsedFrom;
    ParsedFromIff(s, e);
    AreaOfString(s);
    WordIsTokens(e, 0);
  }

  /** The printed text of an irregular expression has less. */
  lemma PrintedArea(keep: string -> bool, e: Expr)
    requires !Regular(e) && AllLicenses(Leaves(e))
    ensures Area(Printed(keep, Some(e)).0, 0) < WordArea(e, 0)
  {
    hide Visited, Area, Opens, WordArea, WordOpens, Leaves, AllLicenses, Regular, Rounded, Behind;
    var st := State("", [], "");
    NothingBehind(st);
    var gap := VisitedBehind(keep, e, st, 0, 0, 0, 0);
    BehindArea(Visited(keep, e, st), WordOpens(e), WordArea(e, 0), 0, gap);
    RoundedArea(Visited(keep, e, st).text, 0);
  }

  lemma NothingBehind(st: State)
    requires st.text == "" && st.operators == ""
    ensures Behind(st, 0, 0, 0, 0)
  {
  }

  lemma BehindArea(st: State, opens: nat, area: nat, lost: nat, gap: nat)
    requires Behind(st, opens, area, lost, gap)
    ensures Area(st.text, 0) + gap <= area
  {
  }

  /** Whatever is filtered, an irregular expression never reads back as itself. */
  lemma NeverReadsBack(licensestr: string, e: Expr, keep: string -> bool)
    requires ParsedFrom(licensestr, e) && !Regular(e)
    ensures !ParsedFrom(Printed(keep, Some(e)).0, e)
  {
    hide ParsedFrom, Printed, Regular, Area, WordArea, Leaves, AllLicenses, Tokens, TokensFrom, Elements, IsOrExpr;
    var out := Printed(keep, Some(e)).0;
    ParsedFromIff(licensestr, e);
    PrintedArea(keep, e);
    if ParsedFrom(out, e) {
      ParsedArea(out, e);
    }
  }

  /** With no license filtered, manifest_licenses prints a string for the same
      tree exactly if the expression has no empty brackets and no operand
      directly in front of a bracket. */
  lemma RoundTripIffRegular(licensestr: string, e: Expr, keep: string -> bool)
    requires ParsedFrom(licensestr, e) && KeepsAll(keep, e)
    ensures ParsedFrom(Printed(keep, Some(e)).0, e) <==> Regular(e)
  {
    hide ParsedFrom, Printed, Regular;
    if Regular(e) {
      RoundTrip(licensestr, e, keep);
    } else {
      NeverReadsBack(licensestr, e, keep);
    }
  }
}
