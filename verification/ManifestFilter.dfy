/** manifest_licenses with a filter on expressions without brackets. */
module ManifestFilter {
  import opened Text
  import opened License
  import opened LicenseGrammar
  import opened Manifest

  predicate BracketFree(e: Expr) {
    match e
    case Lic(_) => true
    case BinAnd(l, r) => BracketFree(l) && BracketFree(r)
    case BinOr(l, r) => BracketFree(l) && BracketFree(r)
    case _ => false
  }

  /** A license and the operator directly in front of it. */
  datatype Item = Item(op: char, s: string)

  /** The licenses of e with their operators; op stands in front of the first. */
  function Items(e: Expr, op: char): seq<Item> {
    match e
    case Lic(s) => [Item(op, s)]
    case BinAnd(l, r) => Items(l, op) + Items(r, '&')
    case BinOr(l, r) => Items(l, op) + Items(r, '|')
    case _ => []
  }

  function KeptItems(keep: string -> bool, items: seq<Item>): seq<Item> {
    if items == [] then [] else (if keep(items[0].s) then [items[0]] else []) + KeptItems(keep, items[1..])
  }

  function ItemText(i: Item, any: bool): string {
    (if any then [' ', i.op, ' '] else "") + i.s
  }

  /** Items in the notation of license strings; the first operator is left out unless something precedes. */
  function ItemsText(items: seq<Item>, any: bool): string {
    if items == [] then "" else ItemText(items[0], any) + ItemsText(items[1..], true)
  }

  lemma {:induction false} KeptItemsAppend(keep: string -> bool, a: seq<Item>, b: seq<Item>)
    ensures KeptItems(keep, a + b) == KeptItems(keep, a) + KeptItems(keep, b)
  {
    if a == [] {
      PlusEmpty(b);
      PlusEmpty(KeptItems(keep, b));
    } else {
      KeptItemsAppend(keep, a[1..], b);
      PlusTail(a, b);
      Assoc(if keep(a[0].s) then [a[0]] else [], KeptItems(keep, a[1..]), KeptItems(keep, b));
    }
  }

  lemma {:induction false} ItemsTextAppend(a: seq<Item>, b: seq<Item>, any: bool)
    ensures ItemsText(a + b, any) == ItemsText(a, any) + ItemsText(b, any || a != [])
    decreases |a|
  {
    if a == [] {
      PlusEmpty(b);
      PlusEmpty(ItemsText(b, any));
    } else {
      ItemsTextAppend(a[1..], b, true);
      PlusTail(a, b);
      Assoc(ItemText(a[0], any), ItemsText(a[1..], true), ItemsText(b, true));
    }
  }

  // ---------------------------------------------------------------------
  // What the visitor prints

  predicate Operators(ops: string) {
    forall i | 0 <= i < |ops| :: ops[i] == '&' || ops[i] == '|'
  }

  /** Waiting for a license whose operator is op. */
  predicate Waiting(st: State, op: char) {
    && Operators(st.operators)
    && (if st.operators == "" then st.licenses == [] else st.operators[|st.operators| - 1] == op)
  }

  lemma {:induction false} CondenseLast(operators: string, ops: string)
    requires Operators(operators) && Operators(ops) && |ops| <= 1 && operators != ""
    ensures Condense(operators, ops) == [operators[|operators| - 1]]
    decreases |operators|
  {
    hide Condense;
    var op, rest := operators[0], operators[1..];
    CondenseNext(operators, ops);
    if rest == "" {
      CondenseNothing([op]);
    } else {
      CondenseLast(rest, [op]);
    }
  }

  lemma CondenseNothing(ops: string)
    ensures Condense("", ops) == ops
  {
  }

  /** Behind an operator another one takes its place. */
  lemma CondenseNext(operators: string, ops: string)
    requires Operators(operators) && Operators(ops) && |ops| <= 1 && operators != ""
    ensures Condense(operators, ops) == Condense(operators[1..], [operators[0]])
  {
    hide CondenseOne;
    assert operators[0] == '&' || operators[0] == '|';
    OperatorReplaces(operators[0], ops);
  }

  lemma OperatorReplaces(op: char, ops: string)
    requires Operators(ops) && |ops| <= 1 && !Bracket(op)
    ensures CondenseOne(op, ops) == [op]
  {
    PlusEmpty([op]);
    assert ops[..0] == "";
  }

  lemma PrintItem(st: State, s: string, op: char)
    requires Waiting(st, op)
    ensures Print(s, st) == State("", st.licenses + [s], st.text + ItemText(Item(op, s), st.licenses != []))
  {
    var any := st.licenses != [];
    if st.operators != "" {
      CondenseLast(st.operators, "");
      assert [op][1..] == "";
      PlusEmpty(EmitOne(op, any));
      assert Emit([op], any) == EmitOne(op, any);
      Assoc(st.text, EmitOne(op, any), s);
    } else {
      PlusEmpty(st.text);
      PlusEmpty(s);
    }
  }

  lemma WaitingNext(st: State, op: char)
    requires Operators(st.operators) && (op == '&' || op == '|')
    ensures Waiting(Pending(st, op), op)
  {
    var ops := st.operators + [op];
    assert ops[|ops| - 1] == op;
  }

  /** The visitor prints the kept items, whatever it drops in between: in front
      of each stands the operator read last, which is the one directly in front of it. */
  lemma {:induction false} VisitedItems(keep: string -> bool, e: Expr, st: State, op: char)
    requires BracketFree(e) && Waiting(st, op)
    ensures var kept := KeptItems(keep, Items(e, op));
            var after := Visited(keep, e, st);
            && after.text == st.text + ItemsText(kept, st.licenses != [])
            && Operators(after.operators)
            && |after.licenses| == |st.licenses| + |kept|
    decreases e, 1
  {
    match e
    case Lic(s) =>
      PrintItem(st, s, op);
      OneItem(keep, Item(op, s), st.licenses != []);
      PlusEmpty(st.text);
    case BinAnd(l, r) => VisitedTwo(keep, e, l, r, '&', st, op);
    case BinOr(l, r) => VisitedTwo(keep, e, l, r, '|', st, op);
  }

  lemma OneItem(keep: string -> bool, i: Item, any: bool)
    ensures KeptItems(keep, [i]) == if keep(i.s) then [i] else []
    ensures ItemsText([i], any) == ItemText(i, any)
  {
    assert [i][1..] == [];
    PlusEmpty([i]);
    PlusEmpty(ItemText(i, any));
  }

  lemma {:induction false} VisitedTwo(keep: string -> bool, e: Expr, l: Expr, r: Expr, mid: char, st: State, op: char)
    requires l < e && r < e && BracketFree(l) && BracketFree(r) && (mid == '&' || mid == '|') && Waiting(st, op)
    ensures var kept := KeptItems(keep, Items(l, op) + Items(r, mid));
            var after := Visited(keep, r, Pending(Visited(keep, l, st), mid));
            && after.text == st.text + ItemsText(kept, st.licenses != [])
            && Operators(after.operators)
            && |after.licenses| == |st.licenses| + |kept|
    decreases e, 0
  {
    hide ItemsText, KeptItems, Items, Visited, Waiting;
    var st1 := Visited(keep, l, st);
    VisitedItems(keep, l, st, op);
    WaitingNext(st1, mid);
    VisitedItems(keep, r, Pending(st1, mid), mid);
    KeptItemsAppend(keep, Items(l, op), Items(r, mid));
    var a, b := KeptItems(keep, Items(l, op)), KeptItems(keep, Items(r, mid));
    ItemsTextAppend(a, b, st.licenses != []);
    Assoc(st.text, ItemsText(a, st.licenses != []), ItemsText(b, st.licenses != [] || a != []));
  }

  // ---------------------------------------------------------------------
  // The printed string reads back

  function OperatorOf(op: char): Token {
    if op == '&' then And else Or
  }

  /** A tree over the given items: each further item joins on the right. */
  function TreeOf(items: seq<Item>): Expr
    requires items != []
  {
    var last := items[|items| - 1];
    if |items| == 1 then Lic(last.s) else Joined(TreeOf(items[..|items| - 1]), last)
  }

  function Joined(e: Expr, i: Item): Expr {
    if i.op != '&' then BinOr(e, Lic(i.s))
    else if e.BinOr? then BinOr(e.left, BinAnd(e.right, Lic(i.s)))
    else BinAnd(e, Lic(i.s))
  }

  function Licenses(items: seq<Item>): seq<string> {
    if items == [] then [] else [items[0].s] + Licenses(items[1..])
  }

  lemma {:induction false} LicensesSnoc(items: seq<Item>, i: Item)
    ensures Licenses(items + [i]) == Licenses(items) + [i.s]
  {
    if items == [] {
      assert [] + [i] == [i] && [i][1..] == [];
    } else {
      PlusTail(items, [i]);
      LicensesSnoc(items[1..], i);
      Assoc([items[0].s], Licenses(items[1..]), [i.s]);
    }
  }

  predicate GoodItems(items: seq<Item>) {
    forall i | 0 <= i < |items| :: IsLicense(items[i].s) && (items[i].op == '&' || items[i].op == '|')
  }

  lemma {:induction false} TreeOfItems(items: seq<Item>)
    requires items != [] && GoodItems(items)
    ensures var e := TreeOf(items);
            && IsOrExpr(e, true) && BracketFree(e) && Leaves(e) == Licenses(items)
            && Spell(Tokens(e), false) == ItemsText(items, false)
    decreases |items|
  {
    var n := |items| - 1;
    var init, last := items[..n], items[n];
    assert items == init + [last];
    LicensesSnoc(init, last);
    ItemsTextAppend(init, [last], false);
    OneItem(s => true, last, init != []);
    if n == 0 {
      PlusEmpty([last]);
      PlusEmpty([last.s]);
      PlusEmpty(ItemsText([last], false));
      PlusEmpty(last.s);
      SpellToken(Name(last.s), false);
      assert Tokens(Lic(last.s)) == [Name(last.s)];
    } else {
      TreeOfItems(init);
      JoinItem(TreeOf(init), last);
    }
  }

  /** Joining one more item appends its operator and its license to everything. */
  lemma JoinItem(e: Expr, i: Item)
    requires IsOrExpr(e, true) && BracketFree(e) && (i.op == '&' || i.op == '|')
    ensures IsOrExpr(Joined(e, i), true) && BracketFree(Joined(e, i)) && Leaves(Joined(e, i)) == Leaves(e) + [i.s]
    ensures Spell(Tokens(Joined(e, i)), false) == Spell(Tokens(e), false) + ItemText(i, true)
  {
    hide Spell;
    SpellMore(Tokens(e), i);
    var lic := Lic(i.s);
    assert IsPrimary(lic, true) && IsAndExpr(lic, true) && BracketFree(lic) && Leaves(lic) == [i.s]
           && Tokens(lic) == [Name(i.s)];
    if i.op != '&' {
    } else if e.BinOr? {
      var right := BinAnd(e.right, lic);
      assert IsAndExpr(right, true) && BracketFree(right) && Leaves(right) == Leaves(e.right) + [i.s];
      assert Tokens(right) == Tokens(e.right) + [And] + [Name(i.s)];
      Assoc(Leaves(e.left), Leaves(e.right), [i.s]);
      Regroup(Tokens(e.left) + [Or], Tokens(e.right), [And], [Name(i.s)]);
      Assoc(Tokens(e.right), [And], [Name(i.s)]);
    } else {
      assert IsAndExpr(BinAnd(e, lic), true);
    }
  }

  lemma SpellMore(ts: seq<Token>, i: Item)
    requires i.op == '&' || i.op == '|'
    ensures Spell(ts + [OperatorOf(i.op)] + [Name(i.s)], false) == Spell(ts, false) + ItemText(i, true)
  {
    hide Spell;
    var t := OperatorOf(i.op);
    SpellAppend(ts + [t], [Name(i.s)], false);
    SpellAppend(ts, [t], false);
    SpellToken(t, false);
    SpellToken(Name(i.s), false);
    Assoc(Spell(ts, false), SpellOne(t, false), i.s);
  }

  lemma {:induction false} ItemsOfLeaves(keep: string -> bool, e: Expr, op: char)
    requires BracketFree(e)
    ensures Licenses(KeptItems(keep, Items(e, op))) == Kept(keep, Leaves(e))
  {
    match e
    case Lic(s) =>
      OneItem(keep, Item(op, s), true);
      assert [s][1..] == [] && [Item(op, s)][1..] == [];
    case BinAnd(l, r) =>
      ItemsOfLeaves(keep, l, op);
      ItemsOfLeaves(keep, r, '&');
      KeptItemsAppend(keep, Items(l, op), Items(r, '&'));
      KeptAppend(keep, Leaves(l), Leaves(r));
      LicensesAppend(KeptItems(keep, Items(l, op)), KeptItems(keep, Items(r, '&')));
    case BinOr(l, r) =>
      ItemsOfLeaves(keep, l, op);
      ItemsOfLeaves(keep, r, '|');
      KeptItemsAppend(keep, Items(l, op), Items(r, '|'));
      KeptAppend(keep, Leaves(l), Leaves(r));
      LicensesAppend(KeptItems(keep, Items(l, op)), KeptItems(keep, Items(r, '|')));
  }

  lemma {:induction false} LicensesAppend(a: seq<Item>, b: seq<Item>)
    ensures Licenses(a + b) == Licenses(a) + Licenses(b)
  {
    if a == [] {
      PlusEmpty(b);
      PlusEmpty(Licenses(b));
    } else {
      PlusTail(a, b);
      LicensesAppend(a[1..], b);
      Assoc([a[0].s], Licenses(a[1..]), Licenses(b));
    }
  }

  lemma {:induction false} ItemsAreGood(e: Expr, op: char)
    requires BracketFree(e) && AllLicenses(Leaves(e)) && (op == '&' || op == '|')
    ensures GoodItems(Items(e, op))
  {
    match e
    case Lic(s) => assert Leaves(e)[0] == s;
    case BinAnd(l, r) =>
      AllLicensesAppend(Leaves(l), Leaves(r));
      ItemsAreGood(l, op);
      ItemsAreGood(r, '&');
    case BinOr(l, r) =>
      AllLicensesAppend(Leaves(l), Leaves(r));
      ItemsAreGood(l, op);
      ItemsAreGood(r, '|');
  }

  lemma {:induction false} KeptAreGood(keep: string -> bool, items: seq<Item>)
    requires GoodItems(items)
    ensures GoodItems(KeptItems(keep, items))
  {
    if items != [] {
      KeptAreGood(keep, items[1..]);
    }
  }

  lemma {:induction false} RoundedItems(items: seq<Item>, any: bool)
    requires GoodItems(items)
    ensures Rounded(ItemsText(items, any)) == ItemsText(items, any)
    decreases |items|
  {
    if items != [] {
      var first := ItemText(items[0], any);
      RoundedItems(items[1..], true);
      RoundedAppend(first, ItemsText(items[1..], true));
      RoundedItem(items[0], any);
    }
  }

  lemma RoundedItem(i: Item, any: bool)
    requires IsLicense(i.s) && (i.op == '&' || i.op == '|')
    ensures Rounded(ItemText(i, any)) == ItemText(i, any)
  {
    RoundedOne(Name(i.s));
    PlusEmpty(i.s);
    if any {
      RoundedAppend([' ', i.op, ' '], i.s);
    }
  }

  /** Without brackets every filter is sound: the string consists of the kept
      licenses, each behind the first one with the operator it had directly in
      front of it, and it reads back as an expression over exactly these. */
  lemma FilteredReadsBack(licensestr: string, e: Expr, keep: string -> bool)
    requires ParsedFrom(licensestr, e) && BracketFree(e)
    ensures var items := KeptItems(keep, Items(e, '&'));
            var (out, licenses) := Printed(keep, Some(e));
            && out == ItemsText(items, false)
            && licenses == Licenses(items) == Kept(keep, Leaves(e))
            && (if items == [] then out == "" else ParsedFrom(out, TreeOf(items)) && Leaves(TreeOf(items)) == licenses)
  {
    hide KeptItems, Items, ItemsText, Kept, Leaves, Visited, Elements, TokensFrom, Parse, Tokens, IsOrExpr, IsPrimary;
    var st := State("", [], "");
    var items := KeptItems(keep, Items(e, '&'));
    ParsedFromIff(licensestr, e);
    ItemsAreGood(e, '&');
    KeptAreGood(keep, Items(e, '&'));
    VisitedItems(keep, e, st, '&');
    PlusEmpty(ItemsText(items, false));
    RoundedItems(items, false);
    KeptLicenses(keep, e, st);
    PlusEmpty(Kept(keep, Leaves(e)));
    ItemsOfLeaves(keep, e, '&');
    if items != [] {
      ItemsReadBack(items);
    } else {
      NoItems();
    }
  }

  lemma NoItems()
    ensures ItemsText([], false) == ""
  {
  }

  lemma ItemsReadBack(items: seq<Item>)
    requires items != [] && GoodItems(items)
    ensures ParsedFrom(ItemsText(items, false), TreeOf(items)) && Leaves(TreeOf(items)) == Licenses(items)
  {
    var e := TreeOf(items);
    TreeOfItems(items);
    LicensesAreGood(items);
    FreeIsRegular(e);
    RegularSpaced(e);
    ReadSpelled(Tokens(e));
    ParseIffTokens(Tokens(e), e, true);
  }

  lemma {:induction false} LicensesAreGood(items: seq<Item>)
    requires GoodItems(items)
    ensures AllLicenses(Licenses(items))
  {
    if items != [] {
      LicensesAreGood(items[1..]);
    }
  }

  lemma {:induction false} FreeIsRegular(e: Expr)
    requires BracketFree(e)
    ensures Regular(e)
  {
    match e
    case Lic(_) =>
    case BinAnd(l, r) => FreeIsRegular(l); FreeIsRegular(r);
    case BinOr(l, r) => FreeIsRegular(l); FreeIsRegular(r);
  }

  // ---------------------------------------------------------------------
  // Exactly the bracket-free expressions survive every filter

  /** What is printed reads back as an expression over exactly the licenses
      kept, or is empty if none are. */
  ghost predicate ReadsBack(keep: string -> bool, e: Expr) {
    var (out, licenses) := Printed(keep, Some(e));
    if licenses == [] then out == "" else exists f :: ParsedFrom(out, f) && Leaves(f) == licenses
  }

  /** No operand is called with nothing; square brackets cannot write that. */
  predicate NoCall(e: Expr) {
    match e
    case Lic(_) => true
    case BinAnd(l, r) => NoCall(l) && NoCall(r)
    case BinOr(l, r) => NoCall(l) && NoCall(r)
    case Group(i) => NoCall(i)
    case EmptyGroup => true
    case Apply(f, a) => NoCall(f) && NoCall(a)
    case ApplyNone(_) => false
  }

  lemma {:induction false} SquareNoCall(e: Expr)
    requires IsOrExpr(e, true) || IsAndExpr(e, true) || IsPrimary(e, true)
    ensures NoCall(e)
  {
    assert !e.BinOr? ==> IsAndExpr(e, true) || IsPrimary(e, true);
    assert !e.BinOr? && !e.BinAnd? ==> IsPrimary(e, true);
    match e
    case Lic(_) =>
    case BinAnd(l, r) =>
      SquareNoCall(l);
      SquareNoCall(r);
    case BinOr(l, r) =>
      SquareNoCall(l);
      SquareNoCall(r);
    case Group(i) => SquareNoCall(i);
    case EmptyGroup =>
    case Apply(f, a) =>
      SquareNoCall(f);
      SquareNoCall(a);
    case ApplyNone(_) =>
  }

  /** The filter that every license fails. */
  predicate DropAll(s: string) {
    false
  }

  /** Even when nothing is kept, every closing bracket is printed. */
  lemma {:induction false} NothingKept(e: Expr, st: State)
    requires NoCall(e)
    ensures var text := Visited(DropAll, e, st).text;
            |text| >= |st.text| && (|text| == |st.text| ==> BracketFree(e))
  {
    match e
    case Lic(_) =>
    case BinAnd(l, r) =>
      NothingKept(l, st);
      NothingKept(r, Pending(Visited(DropAll, l, st), '&'));
    case BinOr(l, r) =>
      NothingKept(l, st);
      NothingKept(r, Pending(Visited(DropAll, l, st), '|'));
    case Group(i) => NothingKept(i, Pending(st, '['));
    case EmptyGroup =>
    case Apply(f, a) =>
      NothingKept(f, st);
      NothingKept(a, Visited(DropAll, f, st));
    case ApplyNone(_) =>
  }

  lemma {:induction false} NoneKept(ls: seq<string>)
    ensures Kept(DropAll, ls) == []
  {
    if ls != [] {
      NoneKept(ls[1..]);
    }
  }

  /** Every filter leaves a string that reads back exactly if the expression has no brackets. */
  lemma EveryFilterIffBracketFree(licensestr: string, e: Expr)
    requires ParsedFrom(licensestr, e)
    ensures (forall keep :: ReadsBack(keep, e)) <==> BracketFree(e)
  {
    if BracketFree(e) {
      forall keep ensures ReadsBack(keep, e) {
        FilteredReadsBack(licensestr, e, keep);
        NoLicensesNoItems(KeptItems(keep, Items(e, '&')));
      }
    } else {
      var st := State("", [], "");
      ParsedFromIff(licensestr, e);
      SquareNoCall(e);
      NothingKept(e, st);
      KeptLicenses(DropAll, e, st);
      NoneKept(Leaves(e));
      assert Printed(DropAll, Some(e)).1 == [];
      assert !ReadsBack(DropAll, e);
    }
  }

  lemma NoLicensesNoItems(items: seq<Item>)
    ensures Licenses(items) == [] <==> items == []
  {
  }

  /** With brackets a filter can break the string: "a & (b | c)" without b is
      printed as "a & ( | c)", which is no license expression. */
  lemma FilterBreaksBrackets(keep: string -> bool, a: string, b: string, c: string)
    requires IsLicense(a) && IsLicense(b) && IsLicense(c) && keep(a) && !keep(b) && keep(c)
    ensures var out := Printed(keep, Some(BinAnd(Lic(a), Group(BinOr(Lic(b), Lic(c)))))).0;
            out == a + " & ( | " + c + ")" && TokensFrom(Elements(out), 0).Ok?
                && Parse(TokensFrom(Elements(out), 0).value, true).Err?
  {
    var ts := [Name(a), And, Open, Or, Name(c), Close];
    var e := BinAnd(Lic(a), Group(BinOr(Lic(b), Lic(c))));
    VisitBroken(keep, a, b, c);
    SpellBroken(a, c);
    RoundBroken(a, c);
    ReadSpelled(ts);
    NeverParses(a, c);
    assert Printed(keep, Some(e)).0 == Rounded(Visited(keep, e, State("", [], "")).text);
  }

  lemma VisitBroken(keep: string -> bool, a: string, b: string, c: string)
    requires keep(a) && !keep(b) && keep(c)
    ensures Visited(keep, BinAnd(Lic(a), Group(BinOr(Lic(b), Lic(c)))), State("", [], "")).text ==
            a + " & [ | " + c + "]"
  {
    var st0 := State("", [], "");
    var st1 := Visited(keep, Lic(a), st0);
    PlusEmpty(a);
    assert st1 == State("", [a], a);
    var st2 := Pending(Pending(st1, '&'), '[');
    var st3 := Pending(Visited(keep, Lic(b), st2), '|');
    assert "" + ['&'] == "&" && "&" + ['['] == "&[" && "&[" + ['|'] == "&[|";
    assert st3 == State("&[|", [a], a);
    assert Visited(keep, BinOr(Lic(b), Lic(c)), st2) == Visited(keep, Lic(c), st3) == Print(c, st3);
    assert Visited(keep, Group(BinOr(Lic(b), Lic(c))), Pending(st1, '&')) == Append(Print(c, st3), "]");
    PendingBroken();
  }

  lemma PendingBroken()
    ensures Emit(Condense("&[|", ""), true) == " & [ | "
  {
    hide Condense;
    CondenseBroken();
    assert "&[|"[1..] == "[|" && "[|"[1..] == "|" && "|"[1..] == "";
    PlusEmpty(" | ");
    assert Emit("|", true) == " | ";
    assert Emit("[|", true) == "[" + " | " == "[ | ";
    assert " & " + "[ | " == " & [ | ";
  }

  lemma CondenseBroken()
    ensures Condense("&[|", "") == "&[|"
  {
    assert "&[|"[1..] == "[|" && "[|"[1..] == "|" && "|"[1..] == "";
    assert "" + ['&'] == "&" && "&" + ['['] == "&[" && "&[" + ['|'] == "&[|";
    assert Condense("|", "&[") == Condense("", "&[|") == "&[|";
    assert Condense("[|", "&") == Condense("|", "&[");
  }

  lemma SpellBroken(a: string, c: string)
    requires IsLicense(a) && IsLicense(c)
    ensures var ts := [Name(a), And, Open, Or, Name(c), Close];
            Spaced(ts) && Spell(ts, false) == a + " & ( | " + c + ")"
  {
    hide Spell;
    var head, mid, tail := [Name(a)], [And, Open, Or], [Name(c), Close];
    assert [Name(a), And, Open, Or, Name(c), Close] == head + mid + tail;
    SpellAppend(head + mid, tail, false);
    SpellAppend(head, mid, false);
    SpellToken(Name(a), false);
    SpellPieces(c);
    Assoc(a + " & ( | ", c, ")");
  }

  lemma SpellPieces(c: string)
    ensures Spell([And, Open, Or], false) == " & ( | " && Spell([Name(c), Close], false) == c + ")"
  {
    SpellToken(And, false);
    SpellToken(Open, false);
    SpellToken(Or, false);
    SpellToken(Close, false);
    SpellToken(Name(c), false);
    SpellAppend([And] + [Open], [Or], false);
    SpellAppend([And], [Open], false);
    SpellAppend([Name(c)], [Close], false);
    assert [And, Open, Or] == [And] + [Open] + [Or] && [Name(c), Close] == [Name(c)] + [Close];
  }

  lemma RoundBroken(a: string, c: string)
    requires IsLicense(a) && IsLicense(c)
    ensures Rounded(a + " & [ | " + c + "]") == a + " & ( | " + c + ")"
  {
    hide Rounded, IsLicense;
    var mid := " & [ | ";
    RoundedAppend(a + mid + c, "]");
    RoundedAppend(a + mid, c);
    RoundedAppend(a, mid);
    RoundedLicense(a);
    RoundedLicense(c);
    BracketsRounded();
  }

  lemma RoundedLicense(s: string)
    requires IsLicense(s)
    ensures Rounded(s) == s
  {
    RoundedOne(Name(s));
  }

  lemma BracketsRounded()
    ensures Rounded(" & [ | ") == " & ( | " && Rounded("]") == ")"
  {
    assert Rounded("]")[0] == RoundChar(']');
    var s, t := " & [ | ", " & ( | ";
    assert forall i | 0 <= i < |s| :: RoundChar(s[i]) == t[i];
  }

  lemma NeverParses(a: string, c: string)
    ensures Parse([Name(a), And, Open, Or, Name(c), Close], true).Err?
  {
    var ts := [Name(a), And, Open, Or, Name(c), Close];
    assert ts[1..][0] == And && ts[1..][1..] == [Open, Or, Name(c), Close];
    var inner := [Or, Name(c), Close];
    assert [Open, Or, Name(c), Close][1..] == inner && inner[0] == Or;
    assert ParsePrimary(inner, true) == None;
    assert ParseAnd(inner, true) == None;
    assert ParseOr(inner, true) == None;
    assert ParsePrimary([Open, Or, Name(c), Close], true) == None;
    assert PrimaryTail(Lic(a), ts[1..], true) == Some((Lic(a), ts[1..]));
    assert ParsePrimary(ts, true) == Some((Lic(a), ts[1..]));
    assert AndTail(Lic(a), ts[1..], true) == None;
    assert ParseAnd(ts, true) == None;
    assert ParseOr(ts, true) == None;
  }
}
