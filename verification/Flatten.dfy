/** Flattening a license expression, and what the flat list means. */
module Flatten {
  import opened Text
  import opened License

  type Chooser = (seq<string>, seq<string>) -> seq<string>

  function Flattened(choose: Chooser, e: Expr): seq<string> {
    match e
    case Lic(s) => [s]
    case BinAnd(l, r) => Flattened(choose, l) + Flattened(choose, r)
    case BinOr(l, r) => choose(Flattened(choose, l), Flattened(choose, r))
    case Group(i) => Flattened(choose, i)
    case EmptyGroup => []
    case Apply(f, a) => Flattened(choose, f) + Flattened(choose, a)
    case ApplyNone(f) => Flattened(choose, f)
  }

  class FlattenVisitor {
    const choose: Chooser
    var licenses: seq<string>

    constructor (choose: Chooser)
      ensures this.choose == choose && licenses == []
    {
      this.choose := choose;
      licenses := [];
    }

    /** visit, with visit_Str and visit_BinOp; the two sides of an OR get visitors of their own. */
    method Visit(e: Expr)
      modifies this
      ensures licenses == old(licenses) + Flattened(choose, e)
      decreases e
    {
      match e
      case Lic(s) => licenses := licenses + [s];
      case BinOr(l, r) =>
        var left := new FlattenVisitor(choose);
        left.Visit(l);
        var right := new FlattenVisitor(choose);
        right.Visit(r);
        var selected := choose(left.licenses, right.licenses);
        assert left.licenses == Flattened(choose, l) && right.licenses == Flattened(choose, r);
        licenses := licenses + selected;
      case BinAnd(l, r) => Visit(l); Visit(r);
      case Group(i) => Visit(i);
      case EmptyGroup =>
      case Apply(f, a) => Visit(f); Visit(a);
      case ApplyNone(f) => Visit(f);
    }
  }

  // ---------------------------------------------------------------------
  // Resolutions

  /** ls lists the leaves left when one side of every OR of e is dropped. */
  ghost predicate Resolves(e: Expr, ls: seq<string>) {
    match e
    case Lic(s) => ls == [s]
    case BinAnd(l, r) => exists i | 0 <= i <= |ls| :: Resolves(l, ls[..i]) && Resolves(r, ls[i..])
    case BinOr(l, r) => Resolves(l, ls) || Resolves(r, ls)
    case Group(i) => Resolves(i, ls)
    case EmptyGroup => ls == []
    case Apply(f, a) => exists i | 0 <= i <= |ls| :: Resolves(f, ls[..i]) && Resolves(a, ls[i..])
    case ApplyNone(f) => Resolves(f, ls)
  }

  /** e as a boolean formula over the licenses one agrees to. */
  predicate Satisfied(e: Expr, agreed: set<string>) {
    match e
    case Lic(s) => s in agreed
    case BinAnd(l, r) => Satisfied(l, agreed) && Satisfied(r, agreed)
    case BinOr(l, r) => Satisfied(l, agreed) || Satisfied(r, agreed)
    case Group(i) => Satisfied(i, agreed)
    case EmptyGroup => true
    case Apply(f, a) => Satisfied(f, agreed) && Satisfied(a, agreed)
    case ApplyNone(f) => Satisfied(f, agreed)
  }

  lemma ResolvesBoth(a: Expr, b: Expr, la: seq<string>, lb: seq<string>)
    requires Resolves(a, la) && Resolves(b, lb)
    ensures Resolves(BinAnd(a, b), la + lb) && Resolves(Apply(a, b), la + lb)
  {
    assert (la + lb)[..|la|] == la && (la + lb)[|la|..] == lb;
  }

  /** Whatever the chooser, as long as it answers with one of its arguments, flattening resolves the expression. */
  lemma {:induction false} FlattenedResolves(choose: Chooser, e: Expr)
    requires forall a, b :: choose(a, b) == a || choose(a, b) == b
    ensures Resolves(e, Flattened(choose, e))
  {
    match e
    case Lic(_) | EmptyGroup =>
    case BinAnd(l, r) =>
      FlattenedResolves(choose, l);
      FlattenedResolves(choose, r);
      ResolvesBoth(l, r, Flattened(choose, l), Flattened(choose, r));
    case BinOr(l, r) => FlattenedResolves(choose, l); FlattenedResolves(choose, r);
    case Group(i) => FlattenedResolves(choose, i);
    case Apply(f, a) =>
      FlattenedResolves(choose, f);
      FlattenedResolves(choose, a);
      ResolvesBoth(f, a, Flattened(choose, f), Flattened(choose, a));
    case ApplyNone(f) => FlattenedResolves(choose, f);
  }

  lemma {:induction false} MoreAgreed(e: Expr, agreed: set<string>, more: set<string>)
    requires Satisfied(e, agreed) && agreed <= more
    ensures Satisfied(e, more)
  {
    match e
    case Lic(_) | EmptyGroup =>
    case BinAnd(l, r) => MoreAgreed(l, agreed, more); MoreAgreed(r, agreed, more);
    case BinOr(l, r) => if Satisfied(l, agreed) { MoreAgreed(l, agreed, more); } else { MoreAgreed(r, agreed, more); }
    case Group(i) => MoreAgreed(i, agreed, more);
    case Apply(f, a) => MoreAgreed(f, agreed, more); MoreAgreed(a, agreed, more);
    case ApplyNone(f) => MoreAgreed(f, agreed, more);
  }

  /** A set of licenses satisfies the expression exactly if it covers some resolution. */
  lemma SatisfiedIffResolution(e: Expr, agreed: set<string>)
    ensures Satisfied(e, agreed) <==> exists ls :: Resolves(e, ls) && ToSet(ls) <= agreed
  {
    if Satisfied(e, agreed) {
      var ls := SomeResolution(e, agreed);
    }
    if ls :| Resolves(e, ls) && ToSet(ls) <= agreed {
      ResolutionSatisfies(e, ls);
      MoreAgreed(e, ToSet(ls), agreed);
    }
  }

  lemma {:induction false} ResolutionSatisfies(e: Expr, ls: seq<string>)
    requires Resolves(e, ls)
    ensures Satisfied(e, ToSet(ls))
  {
    match e
    case Lic(_) | EmptyGroup =>
    case BinAnd(l, r) =>
      var i :| 0 <= i <= |ls| && Resolves(l, ls[..i]) && Resolves(r, ls[i..]);
      ResolutionSatisfies(l, ls[..i]);
      ResolutionSatisfies(r, ls[i..]);
      MoreAgreed(l, ToSet(ls[..i]), ToSet(ls));
      MoreAgreed(r, ToSet(ls[i..]), ToSet(ls));
    case BinOr(l, r) => if Resolves(l, ls) { ResolutionSatisfies(l, ls); } else { ResolutionSatisfies(r, ls); }
    case Group(i) => ResolutionSatisfies(i, ls);
    case Apply(f, a) =>
      var i :| 0 <= i <= |ls| && Resolves(f, ls[..i]) && Resolves(a, ls[i..]);
      ResolutionSatisfies(f, ls[..i]);
      ResolutionSatisfies(a, ls[i..]);
      MoreAgreed(f, ToSet(ls[..i]), ToSet(ls));
      MoreAgreed(a, ToSet(ls[i..]), ToSet(ls));
    case ApplyNone(f) => ResolutionSatisfies(f, ls);
  }

  lemma {:induction false} SomeResolution(e: Expr, agreed: set<string>) returns (ls: seq<string>)
    requires Satisfied(e, agreed)
    ensures Resolves(e, ls) && ToSet(ls) <= agreed
  {
    match e
    case Lic(s) => ls := [s];
    case EmptyGroup => ls := [];
    case BinAnd(l, r) =>
      var a := SomeResolution(l, agreed);
      var b := SomeResolution(r, agreed);
      ls := a + b;
      ResolvesBoth(l, r, a, b);
    case BinOr(l, r) =>
      if Satisfied(l, agreed) { ls := SomeResolution(l, agreed); } else { ls := SomeResolution(r, agreed); }
    case Group(i) => ls := SomeResolution(i, agreed);
    case Apply(f, x) =>
      var a := SomeResolution(f, agreed);
      var b := SomeResolution(x, agreed);
      ls := a + b;
      ResolvesBoth(f, x, a, b);
    case ApplyNone(f) => ls := SomeResolution(f, agreed);
  }

  // ---------------------------------------------------------------------
  // The greedy chooser of is_included

  /** The weight of a side: the length of its filtered list. */
  function Count(wanted: string -> bool, ls: seq<string>): nat {
    |Kept(wanted, ls)|
  }

  lemma CountAppend(wanted: string -> bool, a: seq<string>, b: seq<string>)
    ensures Count(wanted, a + b) == Count(wanted, a) + Count(wanted, b)
  {
    KeptAppend(wanted, a, b);
  }

  /** choose_licenses: the side with more included licenses, the right one on a tie. */
  function Greedy(wanted: string -> bool): Chooser {
    (alpha: seq<string>, beta: seq<string>) => if Count(wanted, alpha) > Count(wanted, beta) then alpha else beta
  }

  /** Choosing locally is globally best: no resolution has more included licenses. */
  lemma {:induction false} GreedyIsOptimal(wanted: string -> bool, e: Expr, ls: seq<string>)
    requires Resolves(e, ls)
    ensures Count(wanted, ls) <= Count(wanted, Flattened(Greedy(wanted), e))
  {
    match e
    case Lic(_) | EmptyGroup =>
    case BinAnd(l, r) =>
      var i :| 0 <= i <= |ls| && Resolves(l, ls[..i]) && Resolves(r, ls[i..]);
      GreedyIsOptimal(wanted, l, ls[..i]);
      GreedyIsOptimal(wanted, r, ls[i..]);
      CountBoth(wanted, l, r, ls, i);
    case BinOr(l, r) => if Resolves(l, ls) { GreedyIsOptimal(wanted, l, ls); } else { GreedyIsOptimal(wanted, r, ls); }
    case Group(i) => GreedyIsOptimal(wanted, i, ls);
    case Apply(f, a) =>
      var i :| 0 <= i <= |ls| && Resolves(f, ls[..i]) && Resolves(a, ls[i..]);
      GreedyIsOptimal(wanted, f, ls[..i]);
      GreedyIsOptimal(wanted, a, ls[i..]);
      CountBoth(wanted, f, a, ls, i);
    case ApplyNone(f) => GreedyIsOptimal(wanted, f, ls);
  }

  lemma CountBoth(wanted: string -> bool, a: Expr, b: Expr, ls: seq<string>, i: nat)
    requires i <= |ls|
    ensures Count(wanted, ls) == Count(wanted, ls[..i]) + Count(wanted, ls[i..])
    ensures var fa, fb := Flattened(Greedy(wanted), a), Flattened(Greedy(wanted), b);
            Count(wanted, fa + fb) == Count(wanted, fa) + Count(wanted, fb)
  {
    assert ls[..i] + ls[i..] == ls;
    CountAppend(wanted, ls[..i], ls[i..]);
    CountAppend(wanted, Flattened(Greedy(wanted), a), Flattened(Greedy(wanted), b));
  }

  // ---------------------------------------------------------------------
  // is_included

  /** any(fnmatch(license, pattern) for pattern in patterns) */
  function MatchesAny(fnmatch: (string, string) -> bool, patterns: seq<string>): string -> bool {
    lic => exists i | 0 <= i < |patterns| :: fnmatch(lic, patterns[i])
  }

  /** ls is the resolution of e that the chooser has settled on: none holds more whitelisted licenses. */
  ghost predicate BestResolution(wanted: string -> bool, e: Expr, ls: seq<string>) {
    Resolves(e, ls) && forall other :: Resolves(e, other) ==> Count(wanted, other) <= Count(wanted, ls)
  }

  /** What is_included says of a flat list: its blacklisted licenses if it has any, else its whitelisted ones. */
  function Verdict(wanted: string -> bool, banned: string -> bool, ls: seq<string>): (bool, seq<string>) {
    if exists i | 0 <= i < |ls| :: banned(ls[i]) then (false, Kept(banned, ls)) else (true, Kept(wanted, ls))
  }

  lemma VerdictByFilter(wanted: string -> bool, banned: string -> bool, ls: seq<string>)
    ensures Verdict(wanted, banned, ls) ==
            if Kept(banned, ls) != [] then (false, Kept(banned, ls)) else (true, Kept(wanted, ls))
  {
    KeptMeans(banned, ls);
    if Kept(banned, ls) != [] {
      assert Kept(banned, ls)[0] in Kept(banned, ls);
    }
    if i :| 0 <= i < |ls| && banned(ls[i]) {
      assert ls[i] in Kept(banned, ls);
    }
  }

  /** The verdict is negative exactly if a license is blacklisted, and lists
      those that are; else it lists the whitelisted ones. */
  lemma VerdictMeans(wanted: string -> bool, banned: string -> bool, ls: seq<string>)
    ensures var (ok, found) := Verdict(wanted, banned, ls);
            && (!ok <==> exists l :: l in ls && banned(l))
            && (forall l :: l in found <==> l in ls && if ok then wanted(l) else banned(l))
  {
    KeptMeans(banned, ls);
    KeptMeans(wanted, ls);
    if l :| l in ls && banned(l) {
      var i :| 0 <= i < |ls| && ls[i] == l;
    }
  }

  /** The same by the patterns of the two lists. */
  lemma VerdictByPatterns(fnmatch: (string, string) -> bool, whitelist: seq<string>, blacklist: seq<string>,
                          ls: seq<string>)
    ensures var (ok, found) := Verdict(MatchesAny(fnmatch, whitelist), MatchesAny(fnmatch, blacklist), ls);
            && (!ok <==> exists l, p :: l in ls && p in blacklist && fnmatch(l, p))
            && (forall l :: l in found <==>
                            l in ls && exists p :: p in (if ok then whitelist else blacklist) && fnmatch(l, p))
  {
    hide Verdict, MatchesAny;
    VerdictMeans(MatchesAny(fnmatch, whitelist), MatchesAny(fnmatch, blacklist), ls);
    forall l
      ensures MatchesAny(fnmatch, whitelist)(l) <==> exists p :: p in whitelist && fnmatch(l, p)
      ensures MatchesAny(fnmatch, blacklist)(l) <==> exists p :: p in blacklist && fnmatch(l, p)
    {
      MatchesMeans(fnmatch, whitelist, l);
      MatchesMeans(fnmatch, blacklist, l);
    }
  }

  lemma MatchesMeans(fnmatch: (string, string) -> bool, patterns: seq<string>, l: string)
    ensures MatchesAny(fnmatch, patterns)(l) <==> exists p :: p in patterns && fnmatch(l, p)
  {
    if p :| p in patterns && fnmatch(l, p) {
      var i :| 0 <= i < |patterns| && patterns[i] == p;
    }
  }

  /** Alternatives in a row: l[0] | l[1] | ... */
  function Alternatives(ls: seq<string>): Expr
    requires ls != []
  {
    if |ls| == 1 then Lic(ls[0]) else BinOr(Alternatives(ls[..|ls| - 1]), Lic(ls[|ls| - 1]))
  }

  /** Of alternatives in a row the last whitelisted one is taken, or the last if none is. */
  lemma {:induction false} LastWanted(wanted: string -> bool, ls: seq<string>, i: nat)
    requires i < |ls| && forall j | i < j < |ls| :: !wanted(ls[j])
    requires wanted(ls[i]) || (i == |ls| - 1 && forall j | 0 <= j < |ls| :: !wanted(ls[j]))
    ensures Flattened(Greedy(wanted), Alternatives(ls)) == [ls[i]]
    decreases |ls|
  {
    hide Count;
    var n := |ls| - 1;
    if n > 0 {
      var front := ls[..n];
      CountOne(wanted, ls[n]);
      var k := i;
      if i == n {
        k := LastOf(wanted, front);
      }
      LastWanted(wanted, front, k);
      CountOne(wanted, front[k]);
    }
  }

  lemma CountOne(wanted: string -> bool, l: string)
    ensures Count(wanted, [l]) == if wanted(l) then 1 else 0
  {
    assert [l][1..] == [];
    KeptNothing(wanted);
    PlusEmpty(if wanted(l) then [l] else []);
  }

  /** The last whitelisted license, or the last one. */
  lemma {:induction false} LastOf(wanted: string -> bool, ls: seq<string>) returns (i: nat)
    requires ls != []
    ensures i < |ls| && forall j | i < j < |ls| :: !wanted(ls[j])
    ensures wanted(ls[i]) || (i == |ls| - 1 && forall j | 0 <= j < |ls| :: !wanted(ls[j]))
    decreases |ls|
  {
    var n := |ls| - 1;
    if wanted(ls[n]) || n == 0 {
      i := n;
    } else {
      i := LastOf(wanted, ls[..n]);
      if !wanted(ls[i]) {
        i := n;
      }
    }
  }

  /** is_included; an absent whitelist or blacklist is an empty one. The answer
      is the verdict on a best resolution: the one that takes the right side of
      every OR whose left side is not strictly better. */
  method IsIncluded(fnmatch: (string, string) -> bool, licensestr: string, whitelist0: seq<string>,
                    blacklist: seq<string>)
    returns (r: Result<(bool, seq<string>), Error>)
    ensures var ts := TokensFrom(Elements(licensestr), 0);
            var wanted := MatchesAny(fnmatch, if whitelist0 == [] then ["*"] else whitelist0);
            var banned := MatchesAny(fnmatch, blacklist);
            if ts.Err? then r == Err(ts.error)
            else match Parse(ts.value, false)
                 case Err(e) => r == Err(e)
                 case Ok(None) => r == Ok((true, []))
                 case Ok(Some(e)) =>
                   var ls := Flattened(Greedy(wanted), e);
                   BestResolution(wanted, e, ls) && r == Ok(Verdict(wanted, banned, ls))
  {
    hide TokensFrom, Elements, Parse, MatchesAny, Greedy, Flattened, BestResolution, Kept, Verdict;
    var whitelist := if whitelist0 == [] then ["*"] else whitelist0;
    var wanted, banned := MatchesAny(fnmatch, whitelist), MatchesAny(fnmatch, blacklist);
    var ts := GetElements(licensestr);
    if ts.Err? {
      return Err(ts.error);
    }
    var parsed := Parse(ts.value, false);
    if parsed.Err? {
      return Err(parsed.error);
    }
    var visitor := new FlattenVisitor(Greedy(wanted));
    if parsed.value.Some? {
      visitor.Visit(parsed.value.value);
      assert visitor.licenses == Flattened(Greedy(wanted), parsed.value.value);
      IsBest(wanted, parsed.value.value);
    }
    var licenses := visitor.licenses;
    KeptNothing(wanted);
    KeptNothing(banned);
    var excluded := Kept(banned, licenses);
    var included := Kept(wanted, licenses);
    VerdictByFilter(wanted, banned, licenses);
    r := Ok(if excluded != [] then (false, excluded) else (true, included));
  }

  lemma IsBest(wanted: string -> bool, e: Expr)
    ensures BestResolution(wanted, e, Flattened(Greedy(wanted), e))
  {
    FlattenedResolves(Greedy(wanted), e);
    forall other | Resolves(e, other) {
      GreedyIsOptimal(wanted, e, other);
    }
  }
}
