/** manifest_licenses: the filtering printer of license expressions. */
module Manifest {
  import opened Text
  import opened License
  import opened LicenseGrammar

  /** The fields of a ManifestVisitor. */
  datatype State = State(operators: string, licenses: seq<string>, text: string)

  predicate Bracket(op: char) {
    op == '[' || op == ']'
  }

  /** The loop over _operators: a run of operators shrinks to its last one. */
  function Condense(operators: string, ops: string): string {
    if operators == "" then ops else Condense(operators[1..], CondenseOne(operators[0], ops))
  }

  function CondenseOne(op: char, ops: string): string {
    if Bracket(op) || ops == "" || Bracket(ops[|ops| - 1]) then ops + [op] else ops[..|ops| - 1] + [op]
  }

  /** The loop that prints ops; an operator in front of the first license is left out. */
  function Emit(ops: string, any: bool): string {
    if ops == "" then ""
    else EmitOne(ops[0], any) + Emit(ops[1..], any)
  }

  function EmitOne(op: char, any: bool): string {
    if Bracket(op) then [op] else if any then [' ', op, ' '] else ""
  }

  lemma EmitStep(text: string, ops: string, i: nat, any: bool)
    requires i < |ops|
    ensures text + Emit(ops[i..], any) == text + EmitOne(ops[i], any) + Emit(ops[i + 1..], any)
    ensures text + "" == text
  {
    assert ops[i..][0] == ops[i] && ops[i..][1..] == ops[i + 1..];
    Assoc(text, EmitOne(ops[i], any), Emit(ops[i + 1..], any));
  }

  /** visit, for the tree of an expression with square brackets: a list node
      opens its bracket late, with the next printed license, and closes it at once. */
  function Visited(keep: string -> bool, e: Expr, st: State): State
    decreases e
  {
    match e
    case Lic(s) => if keep(s) then Print(s, st) else st
    case BinAnd(l, r) => Visited(keep, r, Pending(Visited(keep, l, st), '&'))
    case BinOr(l, r) => Visited(keep, r, Pending(Visited(keep, l, st), '|'))
    case Group(i) => Append(Visited(keep, i, Pending(st, '[')), "]")
    case EmptyGroup => Append(Pending(st, '['), "]")
    case Apply(f, a) => Append(Visited(keep, a, Visited(keep, f, st)), "]")
    case ApplyNone(f) => Visited(keep, f, st)
  }

  function Print(s: string, st: State): State {
    State("", st.licenses + [s], st.text + Emit(Condense(st.operators, ""), st.licenses != []) + s)
  }

  function Pending(st: State, op: char): State {
    st.(operators := st.operators + [op])
  }

  function Append(st: State, t: string): State {
    st.(text := st.text + t)
  }

  class ManifestVisitor {
    /** license_ok of the canonical license */
    const keep: string -> bool
    var operators: string
    var licenses: seq<string>
    var licensestr: string

    function Fields(): State
      reads this
    {
      State(operators, licenses, licensestr)
    }

    constructor (keep: string -> bool)
      ensures this.keep == keep && Fields() == State("", [], "")
    {
      this.keep := keep;
      operators, licenses, licensestr := "", [], "";
    }

    method Visit(e: Expr)
      modifies this
      ensures Fields() == Visited(keep, e, old(Fields()))
      decreases e, 1
    {
      match e
      case Lic(s) =>
        if keep(s) {
          PrintLicense(s);
        }
      case BinAnd(l, r) =>
        Visit(l);
        operators := operators + "&";
        Visit(r);
      case BinOr(l, r) =>
        Visit(l);
        operators := operators + "|";
        Visit(r);
      case Group(i) =>
        operators := operators + "[";
        Visit(i);
        licensestr := licensestr + "]";
      case EmptyGroup =>
        operators := operators + "[";
        licensestr := licensestr + "]";
      case Apply(f, a) =>
        Visit(f);
        Visit(a);
        licensestr := licensestr + "]";
      case ApplyNone(f) =>
        Visit(f);
    }

    method PrintLicense(s: string)
      modifies this
      ensures Fields() == Print(s, old(Fields()))
      decreases Lic(s), 0
    {
      PlusEmpty(licensestr);
      if operators != "" {
        var ops := "";
        for i := 0 to |operators|
          invariant operators == old(operators) && licenses == old(licenses) && licensestr == old(licensestr)
          invariant Condense(operators, "") == Condense(operators[i..], ops)
        {
          var op := operators[i];
          if Bracket(op) || ops == "" || Bracket(ops[|ops| - 1]) {
            ops := ops + [op];
          } else {
            ops := ops[..|ops| - 1] + [op];
          }
        }
        for i := 0 to |ops|
          invariant operators == old(operators) && licenses == old(licenses)
          invariant old(licensestr) + Emit(ops, licenses != []) == licensestr + Emit(ops[i..], licenses != [])
        {
          EmitStep(licensestr, ops, i, licenses != []);
          if Bracket(ops[i]) {
            licensestr := licensestr + [ops[i]];
          } else if licenses != [] {
            licensestr := licensestr + [' ', ops[i], ' '];
          }
        }
        PlusEmpty(licensestr);
        operators := "";
      }
      licensestr := licensestr + s;
      licenses := licenses + [s];
    }
  }

  /** str.replace('[', '(').replace(']', ')') */
  function RoundChar(c: char): char {
    if c == '[' then '(' else if c == ']' then ')' else c
  }

  function Rounded(s: string): (t: string)
    ensures |t| == |s| && forall i | 0 <= i < |s| :: t[i] == RoundChar(s[i])
  {
    if s == "" then "" else [RoundChar(s[0])] + Rounded(s[1..])
  }

  /** manifest_licenses; an empty string prints as itself. */
  function Printed(keep: string -> bool, e: Option<Expr>): (string, seq<string>) {
    match e
    case None => ("", [])
    case Some(tree) =>
      var st := Visited(keep, tree, State("", [], ""));
      (Rounded(st.text), st.licenses)
  }

  method ManifestLicenses(licensestr: string, keep: string -> bool) returns (r: Result<(string, seq<string>), Error>)
    ensures r == match TokensFrom(Elements(licensestr), 0)
                 case Err(e) => Err(e)
                 case Ok(ts) =>
                   match Parse(ts, true)
                   case Err(e) => Err(e)
                   case Ok(tree) => Ok(Printed(keep, tree))
  {
    var manifest := new ManifestVisitor(keep);
    var elements := GetElements(licensestr);
    if elements.Err? {
      return Err(elements.error);
    }
    var tree := Parse(elements.value, true);
    if tree.Err? {
      return Err(tree.error);
    }
    if tree.value.Some? {
      manifest.Visit(tree.value.value);
    }
    return Ok((Rounded(manifest.licensestr), manifest.licenses));
  }

  // ---------------------------------------------------------------------
  // The list of licenses, for every filter

  /** licenses holds the leaves that pass the filter, in their order. */
  lemma {:induction false} KeptLicenses(keep: string -> bool, e: Expr, st: State)
    ensures Visited(keep, e, st).licenses == st.licenses + Kept(keep, Leaves(e))
  {
    hide Kept, Print;
    match e
    case Lic(s) => KeptOne(keep, s, st);
    case BinAnd(l, r) =>
      KeptLicenses(keep, l, st);
      KeptLicenses(keep, r, Pending(Visited(keep, l, st), '&'));
      KeptTwo(keep, st.licenses, Leaves(l), Leaves(r));
    case BinOr(l, r) =>
      KeptLicenses(keep, l, st);
      KeptLicenses(keep, r, Pending(Visited(keep, l, st), '|'));
      KeptTwo(keep, st.licenses, Leaves(l), Leaves(r));
    case Group(i) => KeptLicenses(keep, i, Pending(st, '['));
    case EmptyGroup => KeptNone(keep, st.licenses);
    case Apply(f, a) =>
      KeptLicenses(keep, f, st);
      KeptLicenses(keep, a, Visited(keep, f, st));
      KeptTwo(keep, st.licenses, Leaves(f), Leaves(a));
    case ApplyNone(f) => KeptLicenses(keep, f, st);
  }

  lemma KeptOne(keep: string -> bool, s: string, st: State)
    ensures Print(s, st).licenses == st.licenses + [s]
    ensures st.licenses + Kept(keep, [s]) == if keep(s) then st.licenses + [s] else st.licenses
  {
    assert [s][1..] == [];
    PlusEmpty([s]);
    PlusEmpty(st.licenses);
  }

  lemma KeptNone(keep: string -> bool, before: seq<string>)
    ensures before + Kept(keep, []) == before
  {
    PlusEmpty(before);
  }

  lemma KeptTwo(keep: string -> bool, before: seq<string>, l: seq<string>, r: seq<string>)
    ensures before + Kept(keep, l) + Kept(keep, r) == before + Kept(keep, l + r)
  {
    KeptAppend(keep, l, r);
    Assoc(before, Kept(keep, l), Kept(keep, r));
  }

  // ---------------------------------------------------------------------
  // Spelling tokens and reading them back

  /** How the printer writes a token list. */
  function Spell(ts: seq<Token>, square: bool): string {
    if ts == [] then ""
    else SpellOne(ts[0], square) + Spell(ts[1..], square)
  }

  function SpellOne(t: Token, square: bool): string {
    match t
    case Name(s) => s
    case And => " & "
    case Or => " | "
    case Open => if square then "[" else "("
    case Close => if square then "]" else ")"
  }

  lemma SpellToken(t: Token, square: bool)
    ensures Spell([t], square) == SpellOne(t, square)
  {
    assert [t][1..] == [];
    PlusEmpty(SpellOne(t, square));
  }

  lemma {:induction false} SpellAppend(a: seq<Token>, b: seq<Token>, square: bool)
    ensures Spell(a + b, square) == Spell(a, square) + Spell(b, square)
  {
    if a == [] {
      PlusEmpty(b);
      PlusEmpty(Spell(b, square));
    } else {
      SpellAppend(a[1..], b, square);
      PlusTail(a, b);
      Assoc(SpellOne(a[0], square), Spell(a[1..], square), Spell(b, square));
    }
  }

  lemma RoundedAppend(a: string, b: string)
    ensures Rounded(a + b) == Rounded(a) + Rounded(b)
  {
  }

  /** Names are licenses, and two of them never stand side by side. */
  predicate Spaced(ts: seq<Token>) {
    && (forall i | 0 <= i < |ts| && ts[i].Name? :: IsLicense(ts[i].s))
    && (forall i | 0 < i < |ts| && ts[i].Name? :: !ts[i - 1].Name?)
  }

  lemma {:induction false} RoundedSpell(ts: seq<Token>)
    requires Spaced(ts)
    ensures Rounded(Spell(ts, true)) == Spell(ts, false)
  {
    if ts != [] {
      RoundedSpell(ts[1..]);
      RoundedAppend(SpellOne(ts[0], true), Spell(ts[1..], true));
      RoundedOne(ts[0]);
    }
  }

  lemma RoundedOne(t: Token)
    requires t.Name? ==> IsLicense(t.s)
    ensures Rounded(SpellOne(t, true)) == SpellOne(t, false)
  {
    var s := SpellOne(t, true);
    if t.Name? {
      assert forall i | 0 <= i < |s| :: LicenseChar(s[i]);
    }
  }

  lemma {:induction false} PiecesRun(s: string, x: string, cur: string)
    requires forall i | 0 <= i < |s| :: !OperatorChar(s[i])
    ensures Pieces(s + x, cur) == Pieces(x, cur + s)
    decreases |s|
  {
    if s == "" {
      PlusEmpty(x);
      PlusEmpty(cur);
    } else {
      PiecesRun(s[1..], x, cur + [s[0]]);
      PlusTail(s, x);
      Assoc(cur, [s[0]], s[1..]);
      assert s == [s[0]] + s[1..];
    }
  }

  lemma DropBlankOne(p: string, ps: seq<string>)
    ensures DropBlank([p] + ps) == (if Blank(p) then [] else [p]) + DropBlank(ps)
  {
    assert ([p] + ps)[1..] == ps;
  }

  /** An operator ends the piece in front of it. */
  lemma PiecesCut(c: char, x: string, cur: string)
    requires OperatorChar(c) && !Blank(cur)
    ensures DropBlank(Pieces([c] + x, cur)) == [cur] + DropBlank(Pieces([c] + x, ""))
  {
    PiecesOperator(c, x);
    var more := [[c]] + Pieces(x, "");
    PiecesAt(c, x, cur);
    PiecesAt(c, x, "");
    DropBlankOne(cur, more);
    DropBlankOne("", more);
    PlusEmpty(DropBlank(more));
  }

  lemma PiecesOperator(c: char, x: string)
    requires OperatorChar(c)
    ensures DropBlank(Pieces([c] + x, "")) == (if c == ' ' then [] else [[c]]) + DropBlank(Pieces(x, ""))
  {
    PiecesAt(c, x, "");
    DropBlankOne("", [[c]] + Pieces(x, ""));
    DropBlankOne([c], Pieces(x, ""));
    PlusEmpty(DropBlank([[c]] + Pieces(x, "")));
    assert Blank([c]) <==> c == ' ' by {
      assert [c][0] == c;
    }
  }

  lemma PiecesAt(c: char, x: string, cur: string)
    requires OperatorChar(c)
    ensures Pieces([c] + x, cur) == [cur] + ([[c]] + Pieces(x, ""))
  {
    assert ([c] + x)[1..] == x;
    assert [cur, [c]] == [cur] + [[c]];
    Assoc([cur], [[c]], Pieces(x, ""));
  }

  function ElementOf(t: Token): string {
    match t
    case Name(s) => s
    case And => "&"
    case Or => "|"
    case Open => "("
    case Close => ")"
  }

  function ElementsOf(ts: seq<Token>): seq<string> {
    seq(|ts|, i requires 0 <= i < |ts| => ElementOf(ts[i]))
  }

  lemma LicenseIsPlain(s: string)
    requires IsLicense(s)
    ensures !Blank(s) && forall i | 0 <= i < |s| :: !OperatorChar(s[i])
  {
    assert !IsSpace(s[0]);
  }

  /** The tokeniser reads a spelled token list back. */
  lemma {:induction false} ElementsOfSpell(ts: seq<Token>)
    requires Spaced(ts)
    ensures Elements(Spell(ts, false)) == ElementsOf(ts)
  {
    if ts != [] {
      var rest := ts[1..];
      ElementsOfSpell(rest);
      var x := Spell(rest, false);
      assert ElementsOf(ts) == [ElementOf(ts[0])] + ElementsOf(rest);
      hide Pieces, DropBlank, ElementsOf;
      match ts[0]
      case Name(s) => SpellName(s, rest);
      case And => SpellOperator('&', x);
      case Or => SpellOperator('|', x);
      case Open => PiecesOperator('(', x);
      case Close => PiecesOperator(')', x);
    }
  }

  lemma SpellName(s: string, rest: seq<Token>)
    requires IsLicense(s) && (rest == [] || !rest[0].Name?)
    ensures Elements(s + Spell(rest, false)) == [s] + Elements(Spell(rest, false))
  {
    var x := Spell(rest, false);
    LicenseIsPlain(s);
    PiecesRun(s, x, "");
    PlusEmpty(s);
    if rest == [] {
      DropBlankOne(s, []);
      DropBlankOne("", []);
      PlusEmpty([s]);
      PlusEmpty([""]);
      assert x == "" && Pieces(x, s) == [s] && Pieces(x, "") == [""];
      assert DropBlank([s]) == [s] && DropBlank([""]) == [];
    } else {
      PiecesCut(x[0], x[1..], s);
      HeadTail(x);
    }
  }

  lemma SpellOperator(c: char, x: string)
    requires c == '&' || c == '|'
    ensures DropBlank(Pieces([' ', c, ' '] + x, "")) == [[c]] + DropBlank(Pieces(x, ""))
  {
    hide Pieces, DropBlank;
    assert [' ', c, ' '] + x == [' '] + ([c] + ([' '] + x));
    PiecesOperator(' ', [c] + ([' '] + x));
    PiecesOperator(c, [' '] + x);
    PiecesOperator(' ', x);
    PlusEmpty(DropBlank(Pieces([c] + ([' '] + x), "")));
    PlusEmpty(DropBlank(Pieces(x, "")));
  }

  lemma {:induction false} TokensOfElements(ts: seq<Token>, pos: nat)
    requires Spaced(ts) && pos <= |ts|
    ensures TokensFrom(ElementsOf(ts), pos) == Ok(ts[pos..])
    decreases |ts| - pos
  {
    if pos < |ts| {
      TokensOfElements(ts, pos + 1);
      MatchesName(ts[pos]);
      if pos > 0 { MatchesName(ts[pos - 1]); }
      assert ts[pos..] == [ts[pos]] + ts[pos + 1..];
    }
  }

  lemma MatchesName(t: Token)
    requires t.Name? ==> IsLicense(t.s)
    ensures MatchesLicense(ElementOf(t)) <==> t.Name?
    ensures OperatorElement(ElementOf(t)) <==> !t.Name?
    ensures !t.Name? ==> OperatorToken(ElementOf(t)) == t
  {
    if t.Name? {
      LicenseIsPlain(t.s);
      assert !OperatorChar(t.s[0]);
    } else {
      assert !LicenseChar(ElementOf(t)[0]);
    }
  }

  lemma ReadSpelled(ts: seq<Token>)
    requires Spaced(ts)
    ensures TokensFrom(Elements(Spell(ts, false)), 0) == Ok(ts)
  {
    ElementsOfSpell(ts);
    TokensOfElements(ts, 0);
    assert ts[0..] == ts;
  }

  // ---------------------------------------------------------------------
  // Round trip: nothing filtered

  /** No empty brackets, and no operand directly in front of a bracket. */
  predicate Regular(e: Expr) {
    match e
    case Lic(_) => true
    case BinAnd(l, r) => Regular(l) && Regular(r)
    case BinOr(l, r) => Regular(l) && Regular(r)
    case Group(i) => Regular(i)
    case _ => false
  }

  predicate Brackets(ops: string) {
    forall i | 0 <= i < |ops| :: ops[i] == '['
  }

  /** What can be pending in front of a leaf: one operator, unless the leaf is the first, then opening brackets. */
  predicate Ready(st: State) {
    if st.licenses == [] then Brackets(st.operators)
    else st.operators != "" && (st.operators[0] == '&' || st.operators[0] == '|') && Brackets(st.operators[1..])
  }

  /** Pending operators as they will be printed. */
  function SpellOps(ops: string): string {
    if ops == "" then "" else (if Bracket(ops[0]) then [ops[0]] else [' ', ops[0], ' ']) + SpellOps(ops[1..])
  }

  lemma {:induction false} CondenseBrackets(operators: string, ops: string)
    requires Brackets(operators)
    ensures Condense(operators, ops) == ops + operators
    decreases |operators|
  {
    if operators == "" {
      PlusEmpty(ops);
    } else {
      CondenseBrackets(operators[1..], ops + [operators[0]]);
      Assoc(ops, [operators[0]], operators[1..]);
      assert [operators[0]] + operators[1..] == operators;
    }
  }

  lemma {:induction false} EmitAll(ops: string, any: bool)
    requires any || Brackets(ops)
    ensures Emit(ops, any) == SpellOps(ops)
  {
    if ops != "" {
      EmitAll(ops[1..], any);
    }
  }

  lemma ReadyEmits(st: State)
    requires Ready(st)
    ensures Emit(Condense(st.operators, ""), st.licenses != []) == SpellOps(st.operators)
  {
    if st.licenses == [] {
      CondenseBrackets(st.operators, "");
      assert "" + st.operators == st.operators;
    } else {
      CondenseBrackets(st.operators[1..], [st.operators[0]]);
      assert [st.operators[0]] + st.operators[1..] == st.operators;
      assert "" + [st.operators[0]] == [st.operators[0]];
    }
    EmitAll(st.operators, st.licenses != []);
  }

  lemma {:induction false} SpellOpsAppend(a: string, b: string)
    ensures SpellOps(a + b) == SpellOps(a) + SpellOps(b)
  {
    if a == "" {
      PlusEmpty(b);
      PlusEmpty(SpellOps(b));
    } else {
      SpellOpsAppend(a[1..], b);
      PlusTail(a, b);
      Assoc(if Bracket(a[0]) then [a[0]] else [' ', a[0], ' '], SpellOps(a[1..]), SpellOps(b));
    }
  }

  predicate KeepsAll(keep: string -> bool, e: Expr) {
    forall i | 0 <= i < |Leaves(e)| :: keep(Leaves(e)[i])
  }

  lemma KeepsBoth(keep: string -> bool, a: seq<string>, b: seq<string>)
    requires forall i | 0 <= i < |a + b| :: keep((a + b)[i])
    ensures forall i | 0 <= i < |a| :: keep(a[i])
    ensures forall i | 0 <= i < |b| :: keep(b[i])
  {
    assert forall i | 0 <= i < |a| :: (a + b)[i] == a[i];
    assert forall i | 0 <= i < |b| :: (a + b)[|a| + i] == b[i];
  }

  /** With nothing filtered, a regular expression is printed token by token. */
  lemma {:induction false} VisitedSpells(keep: string -> bool, e: Expr, st: State)
    requires Regular(e) && KeepsAll(keep, e) && Ready(st)
    ensures Leaves(e) != []
    ensures Visited(keep, e, st) ==
            State("", st.licenses + Leaves(e), st.text + SpellOps(st.operators) + Spell(Tokens(e), true))
    decreases e, 1
  {
    hide Spell, SpellOps, Condense, Emit, Ready;
    match e
    case Lic(s) =>
      ReadyEmits(st);
      assert Leaves(e)[0] == s;
      SpellToken(Name(s), true);
    case BinAnd(l, r) => VisitedBoth(keep, e, l, r, And, '&', st);
    case BinOr(l, r) => VisitedBoth(keep, e, l, r, Or, '|', st);
    case Group(i) =>
      assert forall k | 0 <= k < |Leaves(i)| :: Leaves(i)[k] == Leaves(e)[k];
      ReadyForMore(st);
      VisitedSpells(keep, i, Pending(st, '['));
      SpellGroup(st.text, st.operators, Tokens(i));
  }

  lemma {:induction false} VisitedBoth(keep: string -> bool, e: Expr, l: Expr, r: Expr, t: Token, op: char, st: State)
    requires l < e && r < e && Regular(l) && Regular(r) && Leaves(e) == Leaves(l) + Leaves(r)
    requires (t == And && op == '&') || (t == Or && op == '|')
    requires KeepsAll(keep, e) && Ready(st)
    ensures Leaves(e) != []
    ensures Visited(keep, r, Pending(Visited(keep, l, st), op)) ==
            State("", st.licenses + Leaves(e),
                st.text + SpellOps(st.operators) + Spell(Tokens(l) + [t] + Tokens(r), true))
    decreases e, 0
  {
    hide Spell, SpellOps, Visited, Tokens, Ready;
    KeepsBoth(keep, Leaves(l), Leaves(r));
    VisitedSpells(keep, l, st);
    var mid := Visited(keep, l, st);
    ReadyAfter(mid, op);
    VisitedSpells(keep, r, Pending(mid, op));
    SpellBinary(st.text + SpellOps(st.operators), Tokens(l), t, op, Tokens(r));
    Assoc(st.licenses, Leaves(l), Leaves(r));
  }

  lemma ReadyAfter(st: State, op: char)
    requires st.operators == "" && st.licenses != [] && (op == '&' || op == '|')
    ensures Ready(Pending(st, op)) && Pending(st, op).operators == "" + [op]
  {
    assert ("" + [op])[0] == op && ("" + [op])[1..] == "";
  }

  lemma ReadyForMore(st: State)
    requires Ready(st)
    ensures Ready(Pending(st, '['))
  {
    var ops := st.operators + "[";
    if st.licenses != [] {
      PlusTail(st.operators, "[");
    }
    assert Pending(st, '[').operators == ops;
  }

  lemma SpellBinary(text: string, l: seq<Token>, t: Token, op: char, r: seq<Token>)
    requires (t == And && op == '&') || (t == Or && op == '|')
    ensures text + Spell(l, true) + SpellOps("" + [op]) + Spell(r, true) == text + Spell(l + [t] + r, true)
  {
    hide Spell, SpellOps;
    SpellOperatorOnce(t, op);
    SpellAppend(l + [t], r, true);
    SpellAppend(l, [t], true);
    Assoc(text, Spell(l, true), Spell([t], true));
    Assoc(text, Spell(l + [t], true), Spell(r, true));
  }

  lemma SpellOperatorOnce(t: Token, op: char)
    requires (t == And && op == '&') || (t == Or && op == '|')
    ensures SpellOps("" + [op]) == Spell([t], true)
  {
    SpellToken(t, true);
    assert ("" + [op])[0] == op && ("" + [op])[1..] == "";
  }

  lemma SpellGroup(text: string, ops: string, i: seq<Token>)
    ensures text + SpellOps(ops + "[") + Spell(i, true) + "]" ==
            text + SpellOps(ops) + Spell([Open] + i + [Close], true)
  {
    SpellOpsAppend(ops, "[");
    assert SpellOps("[") == "[" by {
      assert "["[1..] == "";
    }
    SpellToken(Open, true);
    SpellToken(Close, true);
    SpellAppend([Open] + i, [Close], true);
    SpellAppend([Open], i, true);
    hide Spell, SpellOps;
    Assoc(text, SpellOps(ops), "[");
    Assoc(text + SpellOps(ops), "[", Spell(i, true));
    Assoc(text + SpellOps(ops), "[" + Spell(i, true), "]");
  }

  lemma {:induction false} RegularSpaced(e: Expr)
    requires Regular(e) && AllLicenses(Leaves(e))
    ensures Spaced(Tokens(e))
  {
    match e
    case Lic(s) => assert Leaves(e)[0] == s;
    case BinAnd(l, r) => AllLicensesAppend(Leaves(l), Leaves(r)); RegularSpaced(l); RegularSpaced(r);
    case BinOr(l, r) => AllLicensesAppend(Leaves(l), Leaves(r)); RegularSpaced(l); RegularSpaced(r);
    case Group(i) => RegularSpaced(i);
  }

  /** e is what manifest_licenses parses a license string to. */
  ghost predicate ParsedFrom(licensestr: string, e: Expr) {
    TokensFrom(Elements(licensestr), 0).Ok? && Parse(TokensFrom(Elements(licensestr), 0).value, true) == Ok(Some(e))
  }

  lemma ParsedFromIff(licensestr: string, e: Expr)
    ensures ParsedFrom(licensestr, e) <==>
            TokensFrom(Elements(licensestr), 0) == Ok(Tokens(e)) && IsOrExpr(e, true) && AllLicenses(Leaves(e))
  {
    hide Elements, TokensFrom, Tokens, Leaves, AllLicenses, IsOrExpr, Parse;
    var ts := TokensFrom(Elements(licensestr), 0);
    if ts.Ok? {
      ParseIffTokens(ts.value, e, true);
    }
  }

  /** The printed string reads back as the same tree, and the list is the list of its leaves. */
  lemma RoundTrip(licensestr: string, e: Expr, keep: string -> bool)
    requires ParsedFrom(licensestr, e) && KeepsAll(keep, e) && Regular(e)
    ensures ParsedFrom(Printed(keep, Some(e)).0, e)
    ensures Printed(keep, Some(e)).1 == Leaves(e)
  {
    ParsedFromIff(licensestr, e);
    RegularSpaced(e);
    VisitedSpells(keep, e, State("", [], ""));
    assert "" + SpellOps("") + Spell(Tokens(e), true) == Spell(Tokens(e), true);
    assert [] + Leaves(e) == Leaves(e);
    RoundedSpell(Tokens(e));
    ReadSpelled(Tokens(e));
    ParseIffTokens(Tokens(e), e, true);
  }
}
