/** The parser and the token list of an expression are inverse to each other. */
module LicenseGrammar {
  import opened Text
  import opened License

  predicate StartsWith(ts: seq<Token>, t: Token) {
    ts != [] && ts[0] == t
  }

  lemma {:induction false} FirstToken(e: Expr)
    ensures Tokens(e) != [] && (Tokens(e)[0].Name? || Tokens(e)[0] == Open)
  {
    match e
    case BinAnd(l, _) => FirstToken(l);
    case BinOr(l, _) => FirstToken(l);
    case Apply(f, _) => FirstToken(f);
    case ApplyNone(f) => FirstToken(f);
    case _ =>
  }

  // One step of each parsing loop, on the tokens of the operand that follows

  lemma PrimaryTailStep(f: Expr, a: Expr, rest: seq<Token>, ts: seq<Token>, square: bool)
    requires IsPrimary(f, square) && IsOrExpr(a, square)
    requires ts == [Open] + (Tokens(a) + ([Close] + rest))
    requires ParseOr(Tokens(a) + ([Close] + rest), square) == Some((a, [Close] + rest))
    ensures PrimaryTail(f, ts, square) == PrimaryTail(Apply(f, a), rest, square)
  {
    FirstToken(a);
    assert ts[1..] == Tokens(a) + ([Close] + rest);
    assert ([Close] + rest)[1..] == rest;
  }

  lemma CallNoneStep(f: Expr, rest: seq<Token>)
    requires IsPrimary(f, false)
    ensures PrimaryTail(f, [Open, Close] + rest, false) == PrimaryTail(ApplyNone(f), rest, false)
  {
    assert ([Open, Close] + rest)[2..] == rest;
  }

  lemma NameStep(s: string, rest: seq<Token>, square: bool)
    ensures ParsePrimary([Name(s)] + rest, square) == PrimaryTail(Lic(s), rest, square)
  {
    assert ([Name(s)] + rest)[1..] == rest;
  }

  lemma EmptyStep(rest: seq<Token>, square: bool)
    ensures ParsePrimary([Open, Close] + rest, square) == PrimaryTail(EmptyGroup, rest, square)
  {
    assert ([Open, Close] + rest)[2..] == rest;
  }

  lemma GroupStep(a: Expr, rest: seq<Token>, ts: seq<Token>, square: bool)
    requires IsOrExpr(a, square)
    requires ts == [Open] + (Tokens(a) + ([Close] + rest))
    requires ParseOr(Tokens(a) + ([Close] + rest), square) == Some((a, [Close] + rest))
    ensures ParsePrimary(ts, square) == PrimaryTail(Group(a), rest, square)
  {
    FirstToken(a);
    assert ts[1..] == Tokens(a) + ([Close] + rest);
    assert ([Close] + rest)[1..] == rest;
  }

  lemma AndTailStep(l: Expr, r: Expr, rest: seq<Token>, ts: seq<Token>, square: bool)
    requires IsAndExpr(l, square) && IsPrimary(r, square)
    requires ts == [And] + (Tokens(r) + rest)
    requires ParsePrimary(Tokens(r) + rest, square) == Some((r, rest))
    ensures AndTail(l, ts, square) == AndTail(BinAnd(l, r), rest, square)
  {
    assert ts[1..] == Tokens(r) + rest;
  }

  lemma OrTailStep(l: Expr, r: Expr, rest: seq<Token>, ts: seq<Token>, square: bool)
    requires IsOrExpr(l, square) && IsAndExpr(r, square)
    requires ts == [Or] + (Tokens(r) + rest)
    requires ParseAnd(Tokens(r) + rest, square) == Some((r, rest))
    ensures OrTail(l, ts, square) == OrTail(BinOr(l, r), rest, square)
  {
    assert ts[1..] == Tokens(r) + rest;
  }

  lemma {:induction false} PrimaryComplete(e: Expr, rest: seq<Token>, square: bool)
    requires IsPrimary(e, square)
    ensures ParsePrimary(Tokens(e) + rest, square) == PrimaryTail(e, rest, square)
    decreases e, 0
  {
    hide ParsePrimary, PrimaryTail, ParseOr;
    match e
    case Lic(s) => NameStep(s, rest, square);
    case EmptyGroup => EmptyStep(rest, square);
    case Group(i) =>
      OrComplete(i, [Close] + rest, square);
      Regroup([Open], Tokens(i), [Close], rest);
      GroupStep(i, rest, Tokens(e) + rest, square);
    case Apply(f, a) =>
      var more := [Open] + (Tokens(a) + ([Close] + rest));
      PrimaryComplete(f, more, square);
      OrComplete(a, [Close] + rest, square);
      Regroup(Tokens(f) + [Open], Tokens(a), [Close], rest);
      Assoc(Tokens(f), [Open], Tokens(a) + ([Close] + rest));
      PrimaryTailStep(f, a, rest, more, square);
    case ApplyNone(f) =>
      PrimaryComplete(f, [Open, Close] + rest, square);
      Assoc(Tokens(f), [Open, Close], rest);
      CallNoneStep(f, rest);
  }

  lemma {:induction false} AndComplete(e: Expr, rest: seq<Token>, square: bool)
    requires IsAndExpr(e, square) && !StartsWith(rest, Open)
    ensures ParseAnd(Tokens(e) + rest, square) == AndTail(e, rest, square)
    decreases e, 1
  {
    if e.BinAnd? {
      var more := [And] + (Tokens(e.right) + rest);
      AndComplete(e.left, more, square);
      PrimaryComplete(e.right, rest, square);
      AndTailStep(e.left, e.right, rest, more, square);
      Regroup(Tokens(e.left), [And], Tokens(e.right), rest);
    } else {
      PrimaryComplete(e, rest, square);
    }
  }

  lemma {:induction false} OrTailEnds(e: Expr, rest: seq<Token>, square: bool)
    requires IsOrExpr(e, square) && !StartsWith(rest, Or)
    ensures OrTail(e, rest, square) == Some((e, rest))
  {
  }

  lemma {:induction false} OrCompleteTail(e: Expr, rest: seq<Token>, square: bool)
    requires IsOrExpr(e, square) && !StartsWith(rest, Open) && !StartsWith(rest, And)
    ensures ParseOr(Tokens(e) + rest, square) == OrTail(e, rest, square)
    decreases e, 2
  {
    if e.BinOr? {
      var more := [Or] + (Tokens(e.right) + rest);
      OrCompleteTail(e.left, more, square);
      AndComplete(e.right, rest, square);
      OrTailStep(e.left, e.right, rest, more, square);
      Regroup(Tokens(e.left), [Or], Tokens(e.right), rest);
    } else {
      AndComplete(e, rest, square);
    }
  }

  /** An expression in front of something that cannot continue it is read off whole. */
  lemma {:induction false} OrComplete(e: Expr, rest: seq<Token>, square: bool)
    requires IsOrExpr(e, square) && (rest == [] || rest[0] == Close)
    ensures ParseOr(Tokens(e) + rest, square) == Some((e, rest))
    decreases e, 3
  {
    OrCompleteTail(e, rest, square);
    OrTailEnds(e, rest, square);
  }

  function Leaves(e: Expr): seq<string> {
    match e
    case Lic(s) => [s]
    case BinAnd(l, r) => Leaves(l) + Leaves(r)
    case BinOr(l, r) => Leaves(l) + Leaves(r)
    case Group(i) => Leaves(i)
    case EmptyGroup => []
    case Apply(f, a) => Leaves(f) + Leaves(a)
    case ApplyNone(f) => Leaves(f)
  }

  predicate AllLicenses(ls: seq<string>) {
    forall i | 0 <= i < |ls| :: IsLicense(ls[i])
  }

  function NamesOf(ts: seq<Token>): seq<string> {
    if ts == [] then [] else (if ts[0].Name? then [ts[0].s] else []) + NamesOf(ts[1..])
  }

  lemma {:induction false} NamesOfAppend(a: seq<Token>, b: seq<Token>)
    ensures NamesOf(a + b) == NamesOf(a) + NamesOf(b)
  {
    if a == [] {
      PlusEmpty(b);
      PlusEmpty(NamesOf(b));
    } else {
      NamesOfAppend(a[1..], b);
      PlusTail(a, b);
      Assoc(if a[0].Name? then [a[0].s] else [], NamesOf(a[1..]), NamesOf(b));
    }
  }

  lemma {:induction false} LeavesAreNames(e: Expr)
    ensures NamesOf(Tokens(e)) == Leaves(e)
  {
    hide NamesOf;
    match e
    case Lic(s) => NamesOfOne(Name(s));
    case BinAnd(l, r) =>
      LeavesAreNames(l);
      LeavesAreNames(r);
      NamesAround(Tokens(l), And, Tokens(r));
    case BinOr(l, r) =>
      LeavesAreNames(l);
      LeavesAreNames(r);
      NamesAround(Tokens(l), Or, Tokens(r));
    case Group(i) =>
      LeavesAreNames(i);
      NamesAround([], Open, Tokens(i));
      PlusEmpty([Open]);
      NamesOfClosed([Open] + Tokens(i));
    case EmptyGroup =>
      assert [Open] + [Close] == [Open, Close];
      NamesOfClosed([Open]);
      NamesOfOne(Open);
    case Apply(f, a) =>
      LeavesAreNames(f);
      LeavesAreNames(a);
      NamesAround(Tokens(f), Open, Tokens(a));
      NamesOfClosed(Tokens(f) + [Open] + Tokens(a));
    case ApplyNone(f) =>
      LeavesAreNames(f);
      NamesAround(Tokens(f), Open, [Close]);
      Assoc(Tokens(f), [Open], [Close]);
      assert [Open] + [Close] == [Open, Close];
      NamesOfOne(Close);
      PlusEmpty(Leaves(f));
  }

  lemma NamesOfOne(t: Token)
    ensures NamesOf([t]) == (if t.Name? then [t.s] else []) && NamesOf([]) == []
  {
    assert [t][1..] == [];
  }

  lemma NamesAround(l: seq<Token>, t: Token, r: seq<Token>)
    requires !t.Name?
    ensures NamesOf(l + [t] + r) == NamesOf(l) + NamesOf(r)
    ensures l == [] ==> NamesOf(l + [t] + r) == NamesOf(r)
  {
    hide NamesOf;
    NamesOfAppend(l + [t], r);
    NamesOfAppend(l, [t]);
    NamesOfOne(t);
    PlusEmpty(NamesOf(l));
    PlusEmpty(NamesOf(r));
  }

  lemma NamesOfClosed(l: seq<Token>)
    ensures NamesOf(l + [Close]) == NamesOf(l)
  {
    hide NamesOf;
    NamesOfAppend(l, [Close]);
    NamesOfOne(Close);
    PlusEmpty(NamesOf(l));
  }

  lemma {:induction false} NamesAreLicenses(ts: seq<Token>)
    ensures AllLicenses(NamesOf(ts)) <==> forall i | 0 <= i < |ts| && ts[i].Name? :: IsLicense(ts[i].s)
  {
    if ts != [] {
      NamesAreLicenses(ts[1..]);
      assert ts == [ts[0]] + ts[1..];
      var first := if ts[0].Name? then [ts[0].s] else [];
      assert AllLicenses(first + NamesOf(ts[1..])) <==> AllLicenses(first) && AllLicenses(NamesOf(ts[1..])) by {
        AllLicensesAppend(first, NamesOf(ts[1..]));
      }
      assert forall i | 0 <= i < |ts[1..]| :: ts[1..][i] == ts[i + 1];
      assert forall i | 0 < i < |ts| :: ts[i] == ts[1..][i - 1];
    }
  }

  lemma AllLicensesAppend(a: seq<string>, b: seq<string>)
    ensures AllLicenses(a + b) <==> AllLicenses(a) && AllLicenses(b)
  {
    assert forall i | 0 <= i < |a| :: (a + b)[i] == a[i];
    assert forall i | 0 <= i < |b| :: (a + b)[|a| + i] == b[i];
  }

  /** Parsing succeeds with e exactly on the tokens of e, for every e of the grammar. */
  lemma ParseIffTokens(ts: seq<Token>, e: Expr, square: bool)
    ensures Parse(ts, square) == Ok(Some(e)) <==> ts == Tokens(e) && IsOrExpr(e, square) && AllLicenses(Leaves(e))
  {
    hide Tokens, Leaves, AllLicenses, IsOrExpr, ParseOr;
    NamesAreLicenses(ts);
    LeavesAreNames(e);
    if ts == Tokens(e) && IsOrExpr(e, square) {
      FirstToken(e);
      OrComplete(e, [], square);
      PlusEmpty(ts);
    }
    if Parse(ts, square) == Ok(Some(e)) {
      assert ParseOr(ts, square) == Some((e, []));
      PlusEmpty(Tokens(e));
      PlusEmpty(ts);
    }
  }

  /** Nothing gives the empty module, and all else that is no expression a syntax error. */
  lemma ParseOutcomes(ts: seq<Token>, square: bool)
    ensures Parse(ts, square) == Ok(None) <==> ts == []
    ensures Parse(ts, square) == Err(SyntaxError) <==>
            ts != [] && forall e :: !(ts == Tokens(e) && IsOrExpr(e, square) && AllLicenses(Leaves(e)))
    ensures Parse(ts, square).Err? ==> Parse(ts, square) == Err(SyntaxError)
  {
    hide Tokens, Leaves, AllLicenses, IsOrExpr, ParseOr;
    forall e
      ensures Parse(ts, square) == Ok(Some(e)) <==>
              ts == Tokens(e) && IsOrExpr(e, square) && AllLicenses(Leaves(e))
    {
      ParseIffTokens(ts, e, square);
    }
    if Parse(ts, square).Ok? && Parse(ts, square).value.Some? {
      var e := Parse(ts, square).value.value;
      FirstToken(e);
    }
  }
}
