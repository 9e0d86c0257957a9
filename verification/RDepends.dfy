/** get_rdepends_recursively: the runtime dependencies of a list of packages. */
module RDepends {
  import opened Text

  /** What is read from the package data: the RDEPENDS of a package, in order
      and without versions (empty when there are none), and whether the
      package has any data at all. */
  datatype PkgData = PkgData(rdepends: string -> seq<string>, known: set<string>)

  /** b is taken over as a dependency of a: a direct dependency of an input
      package always is, any other one only if it has package data. */
  predicate Edge(d: PkgData, inputs: set<string>, a: string, b: string) {
    b in d.rdepends(a) && (a in inputs || b in d.known)
  }

  /** A chain of dependencies from p[0]. */
  predicate Chain(d: PkgData, inputs: set<string>, p: seq<string>) {
    p != [] && forall i | 0 <= i < |p| - 1 :: Edge(d, inputs, p[i], p[i + 1])
  }

  ghost predicate Reachable(d: PkgData, inputs: set<string>, x: string) {
    exists p :: Chain(d, inputs, p) && p[0] in inputs && p[|p| - 1] == x
  }

  /** Closed under dependencies. */
  ghost predicate ClosedUnder(d: PkgData, inputs: set<string>, s: set<string>) {
    forall a, b | a in s && Edge(d, inputs, a, b) :: b in s
  }

  lemma ReachableStep(d: PkgData, inputs: set<string>, a: string, b: string)
    requires Reachable(d, inputs, a) && Edge(d, inputs, a, b)
    ensures Reachable(d, inputs, b)
  {
    var p :| Chain(d, inputs, p) && p[0] in inputs && p[|p| - 1] == a;
    var q := p + [b];
    assert Chain(d, inputs, q) && q[0] in inputs && q[|q| - 1] == b;
  }

  lemma InputsReachable(d: PkgData, inputs: set<string>, x: string)
    requires x in inputs
    ensures Reachable(d, inputs, x)
  {
    assert Chain(d, inputs, [x]);
    assert [x][0] == x && [x][|[x]| - 1] == x;
  }

  lemma {:induction false} ChainStays(d: PkgData, inputs: set<string>, s: set<string>, p: seq<string>)
    requires ClosedUnder(d, inputs, s) && Chain(d, inputs, p) && p[0] in s
    ensures p[|p| - 1] in s
    decreases |p|
  {
    if |p| > 1 {
      assert Edge(d, inputs, p[0], p[1]);
      ChainStays(d, inputs, s, p[1..]);
    }
  }

  /** A closed set of reachable packages that holds the inputs is exactly what is reachable. */
  lemma ClosureIsReachable(d: PkgData, inputs: set<string>, s: set<string>)
    requires inputs <= s && ClosedUnder(d, inputs, s)
    requires forall x | x in s :: Reachable(d, inputs, x)
    ensures forall x :: x in s <==> Reachable(d, inputs, x)
  {
    forall x | Reachable(d, inputs, x) ensures x in s {
      var p :| Chain(d, inputs, p) && p[0] in inputs && p[|p| - 1] == x;
      ChainStays(d, inputs, s, p);
    }
  }

  // ---------------------------------------------------------------------
  // The code. Lists are objects here because two names may mean one list.

  class List {
    var items: seq<string>

    constructor (items: seq<string>)
      ensures this.items == items
    {
      this.items := items;
    }
  }

  /** All packages of scanned have their dependencies in have. */
  predicate Scanned(d: PkgData, scanned: seq<string>, have: set<string>) {
    forall i | 0 <= i < |scanned| :: forall b | b in d.rdepends(scanned[i]) && b in d.known :: b in have
  }

  /** One package of next: its new dependencies go on done and new. When next is
      done itself, the list that is being walked grows. */
  method Visit(d: PkgData, sub: string, pkgs: seq<string>, done: List, new_: List)
    requires done != new_
    modifies done, new_
    ensures old(done.items) <= done.items
    ensures new_.items == old(new_.items) + done.items[|old(done.items)|..]
    ensures forall x | x in done.items[|old(done.items)|..] ::
            x in d.rdepends(sub) && x in d.known && x !in old(done.items) && x !in pkgs
    ensures forall b | b in d.rdepends(sub) && b in d.known :: b in done.items || b in pkgs
  {
    ghost var more: seq<string> := [];
    var deps := d.rdepends(sub);
    for k := 0 to |deps|
      invariant done.items == old(done.items) + more && new_.items == old(new_.items) + more
      invariant forall x | x in more :: x in deps && x in d.known && x !in old(done.items) && x !in pkgs
      invariant forall i, j | 0 <= i < j < |more| :: more[i] != more[j]
      invariant forall j | 0 <= j < k && deps[j] in d.known :: deps[j] in done.items || deps[j] in pkgs
    {
      var p := deps[k];
      if p in done.items || p in pkgs {
        continue;
      }
      if p in d.known {
        done.items := done.items + [p];
        new_.items := new_.items + [p];
        more := more + [p];
      }
    }
  }

  lemma ScannedMore(d: PkgData, scanned: seq<string>, sub: string, have: set<string>, have': set<string>)
    requires Scanned(d, scanned, have) && have <= have'
    requires forall b | b in d.rdepends(sub) && b in d.known :: b in have'
    ensures Scanned(d, scanned + [sub], have')
  {
  }

  /** The known packages not on the list yet: what bounds the growth. */
  ghost function Left(d: PkgData, done: seq<string>): nat {
    |d.known - ToSet(done)|
  }

  lemma LeftShrinks(d: PkgData, done: seq<string>, more: seq<string>)
    requires forall x | x in more :: x in d.known && x !in done
    ensures more != [] ==> Left(d, done + more) < Left(d, done)
    ensures more == [] ==> done + more == done
  {
    if more != [] {
      var x := more[0];
      assert x in d.known - ToSet(done) && x !in d.known - ToSet(done + more);
      assert d.known - ToSet(done + more) <= d.known - ToSet(done) - {x};
      Smaller(d.known - ToSet(done + more), d.known - ToSet(done) - {x});
    }
  }

  /** The while loop for one input package. On the first pass next and done are
      one list, so that pass walks everything it adds and completes the closure;
      the second finds nothing new, and there is no third. */
  method Closure(d: PkgData, pkgs: seq<string>, direct: seq<string>, ghost inputs: set<string>)
    returns (result: seq<string>, ghost passes: nat)
    requires forall x | x in direct :: Reachable(d, inputs, x)
    ensures direct <= result && passes <= 2
    ensures Scanned(d, result, ToSet(result) + ToSet(pkgs))
    ensures forall x | x in result :: Reachable(d, inputs, x)
  {
    var done := new List(direct);
    var next := done;
    passes := 0;
    while next.items != []
      invariant fresh(done) && fresh(next)
      invariant direct <= done.items && AllReachable(d, inputs, done.items)
      invariant passes == 0 ==> next == done
      invariant passes > 0 ==>
                  && next != done && Scanned(d, done.items, ToSet(done.items) + ToSet(pkgs))
                  && ToSet(next.items) <= ToSet(done.items)
      invariant passes >= 2 ==> next.items == []
      invariant passes <= 2
      decreases 2 - passes
    {
      var new_ := new List([]);
      Pass(d, pkgs, next, done, new_, inputs);
      next := new_;
      passes := passes + 1;
    }
    assert passes == 0 ==> done.items == [];
    return done.items, passes;
  }

  /** The body of the while loop. */
  method Pass(d: PkgData, pkgs: seq<string>, next: List, done: List, new_: List, ghost inputs: set<string>)
    requires new_ != done && new_ != next && new_.items == []
    requires AllReachable(d, inputs, done.items)
    requires next != done ==>
             Scanned(d, done.items, ToSet(done.items) + ToSet(pkgs)) && ToSet(next.items) <= ToSet(done.items)
    modifies done, new_
    ensures old(done.items) <= done.items && AllReachable(d, inputs, done.items)
    ensures Scanned(d, done.items, ToSet(done.items) + ToSet(pkgs))
    ensures ToSet(new_.items) <= ToSet(done.items)
    ensures next != done ==> new_.items == [] && done.items == old(done.items)
  {
    hide Reachable, Scanned, Left;
    var i := 0;
    ScannedNone(d, done.items, ToSet(done.items) + ToSet(pkgs));
    while i < |next.items|
      invariant 0 <= i <= |next.items|
      invariant old(done.items) <= done.items && AllReachable(d, inputs, done.items)
      invariant forall x | x in new_.items :: x in done.items
      invariant next == done ==> Scanned(d, done.items[..i], ToSet(done.items) + ToSet(pkgs))
      invariant next != done ==> new_.items == [] && done.items == old(done.items) && next.items == old(next.items)
      decreases Left(d, done.items), |next.items| - i
    {
      ghost var before := done.items;
      var sub := next.items[i];
      assert sub in before by {
        assert sub in next.items && (next != done ==> sub in ToSet(next.items));
      }
      Visit(d, sub, pkgs, done, new_);
      Grown(d, inputs, before, sub, done.items, pkgs);
      if next == done {
        assert done.items[..i] == before[..i] && done.items[..i + 1] == before[..i] + [sub];
        ScannedMore(d, before[..i], sub, ToSet(before) + ToSet(pkgs), ToSet(done.items) + ToSet(pkgs));
      } else {
        NothingNew(d, before, sub, done.items, pkgs);
      }
      i := i + 1;
    }
    assert next == done ==> done.items[..i] == done.items;
    assert forall x | x in ToSet(new_.items) :: x in ToSet(done.items);
  }

  ghost predicate AllReachable(d: PkgData, inputs: set<string>, items: seq<string>) {
    forall x | x in items :: Reachable(d, inputs, x)
  }

  lemma ScannedNone(d: PkgData, items: seq<string>, have: set<string>)
    ensures Scanned(d, items[..0], have)
  {
  }

  /** What a visit has added is reachable, and leaves less to add. */
  lemma Grown(d: PkgData, inputs: set<string>, before: seq<string>, sub: string, after: seq<string>, pkgs: seq<string>)
    requires before <= after && sub in before && AllReachable(d, inputs, before)
    requires forall x | x in after[|before|..] :: x in d.rdepends(sub) && x in d.known && x !in before
    ensures AllReachable(d, inputs, after)
    ensures after == before || Left(d, after) < Left(d, before)
    ensures ToSet(before) + ToSet(pkgs) <= ToSet(after) + ToSet(pkgs)
  {
    var more := after[|before|..];
    assert after == before + more;
    LeftShrinks(d, before, more);
    forall x | x in after ensures Reachable(d, inputs, x) {
      if x in more {
        ReachableStep(d, inputs, sub, x);
      }
    }
    assert forall x | x in ToSet(before) :: x in ToSet(after);
  }

  lemma NothingNew(d: PkgData, before: seq<string>, sub: string, after: seq<string>, pkgs: seq<string>)
    requires Scanned(d, before, ToSet(before) + ToSet(pkgs)) && sub in before && before <= after
    requires forall x | x in after[|before|..] :: x in d.rdepends(sub) && x in d.known && x !in before && x !in pkgs
    ensures after == before
  {
    var more := after[|before|..];
    assert forall x | x in more :: x in ToSet(before) + ToSet(pkgs);
    NothingIn(more);
  }

  lemma NothingIn(s: seq<string>)
    ensures s == [] <==> forall x :: x !in s
  {
    if s != [] {
      assert s[0] in s;
    }
  }

  /** get_rdepends_recursively: extends the given list in place, and then holds
      exactly the packages reachable from those it held before. */
  method GetRDependsRecursively(d: PkgData, pkgs: List) returns (ghost passes: nat)
    modifies pkgs
    ensures old(pkgs.items) <= pkgs.items
    ensures forall x :: x in pkgs.items <==> Reachable(d, ToSet(old(pkgs.items)), x)
    ensures passes <= 2 * |old(pkgs.items)|
  {
    hide Reachable, Scanned, Gathered;
    var copy := pkgs.items;
    passes := 0;
    GatheredNone(d, copy);
    for i := 0 to |copy|
      invariant copy <= pkgs.items && passes <= 2 * i
      invariant Gathered(d, copy, i, pkgs.items)
    {
      var subRdep := d.rdepends(copy[i]);
      if subRdep == [] {
        GatheredSkip(d, copy, i, pkgs.items);
        continue;
      }
      DirectReachable(d, copy, i);
      ghost var before := pkgs.items;
      var done; ghost var p;
      done, p := Closure(d, pkgs.items, subRdep, ToSet(copy));
      pkgs.items := pkgs.items + done;
      passes := passes + p;
      GatheredMore(d, copy, i, before, done);
    }
    GatheredAll(d, copy, pkgs.items);
  }

  /** The list after i input packages: all of it is reachable, it has the direct
      dependencies of those i, and the dependencies of everything added. */
  ghost predicate Gathered(d: PkgData, copy: seq<string>, i: nat, items: seq<string>) {
    && copy <= items && i <= |copy|
    && AllReachable(d, ToSet(copy), items)
    && (forall j | 0 <= j < i :: forall b | b in d.rdepends(copy[j]) :: b in items)
    && Scanned(d, items[|copy|..], ToSet(items))
  }

  lemma GatheredNone(d: PkgData, copy: seq<string>)
    ensures Gathered(d, copy, 0, copy)
  {
    forall x | x in copy ensures Reachable(d, ToSet(copy), x) {
      InputsReachable(d, ToSet(copy), x);
    }
  }

  lemma DirectReachable(d: PkgData, copy: seq<string>, i: nat)
    requires i < |copy|
    ensures forall b | b in d.rdepends(copy[i]) :: Reachable(d, ToSet(copy), b)
  {
    InputsReachable(d, ToSet(copy), copy[i]);
    forall b | b in d.rdepends(copy[i]) ensures Reachable(d, ToSet(copy), b) {
      assert copy[i] in ToSet(copy);
      ReachableStep(d, ToSet(copy), copy[i], b);
    }
  }

  lemma GatheredSkip(d: PkgData, copy: seq<string>, i: nat, items: seq<string>)
    requires Gathered(d, copy, i, items) && i < |copy| && d.rdepends(copy[i]) == []
    ensures Gathered(d, copy, i + 1, items)
  {
    hide Reachable, Scanned;
  }

  lemma GatheredMore(d: PkgData, copy: seq<string>, i: nat, before: seq<string>, done: seq<string>)
    requires Gathered(d, copy, i, before) && i < |copy| && d.rdepends(copy[i]) <= done
    requires Scanned(d, done, ToSet(done) + ToSet(before)) && AllReachable(d, ToSet(copy), done)
    ensures Gathered(d, copy, i + 1, before + done)
  {
    hide Reachable, Scanned;
    var items := before + done;
    assert ToSet(items) == ToSet(done) + ToSet(before);
    assert items[|copy|..] == before[|copy|..] + done;
    ScannedBoth(d, before[|copy|..], done, ToSet(before), ToSet(items));
    forall b | b in d.rdepends(copy[i]) ensures b in items {
      assert b in done;
    }
  }

  lemma GatheredAll(d: PkgData, copy: seq<string>, items: seq<string>)
    requires Gathered(d, copy, |copy|, items)
    ensures forall x :: x in items <==> Reachable(d, ToSet(copy), x)
  {
    hide Reachable, Scanned;
    forall a, b | a in ToSet(items) && Edge(d, ToSet(copy), a, b) ensures b in ToSet(items) {
      MemberClosed(d, copy, items, a, b);
    }
    ClosureIsReachable(d, ToSet(copy), ToSet(items));
    assert forall x :: x in items <==> x in ToSet(items);
  }

  lemma ScannedBoth(d: PkgData, a: seq<string>, b: seq<string>, have: set<string>, have': set<string>)
    requires Scanned(d, a, have) && Scanned(d, b, have') && have <= have'
    ensures Scanned(d, a + b, have')
  {
  }

  lemma MemberClosed(d: PkgData, copy: seq<string>, items: seq<string>, a: string, b: string)
    requires copy <= items
    requires forall j | 0 <= j < |copy| :: forall x | x in d.rdepends(copy[j]) :: x in items
    requires Scanned(d, items[|copy|..], ToSet(items))
    requires a in items && Edge(d, ToSet(copy), a, b)
    ensures b in items
  {
    var k :| 0 <= k < |items| && items[k] == a;
    if a in copy {
      var j :| 0 <= j < |copy| && copy[j] == a;
    } else {
      assert items[|copy|..][k - |copy|] == a;
      assert b in ToSet(items);
    }
  }
}
