/** The order in which delayed postinst scripts run: dependencies first. */
module Postinsts {
  import opened Text

  type Graph = map<string, seq<string>>

  /** Every dependency is a package of the graph. */
  predicate Closed(g: Graph) {
    forall p | p in g :: forall d | d in g[p] :: d in g
  }

  // ---------------------------------------------------------------------
  // _get_pkgs_postinsts: dependencies that have no delayed postinst go

  function Only(deps: seq<string>, names: set<string>): (kept: seq<string>)
    ensures forall d :: d in kept <==> d in deps && d in names
  {
    if deps == [] then []
    else
      assert deps == [deps[0]] + deps[1..];
      (if deps[0] in names then [deps[0]] else []) + Only(deps[1..], names)
  }

  /** list.remove: the first occurrence goes. */
  function RemoveFirst(s: seq<string>, x: string): seq<string>
    requires x in s
  {
    if s[0] == x then s[1..] else [s[0]] + RemoveFirst(s[1..], x)
  }

  lemma {:induction false} RemoveBehind(a: seq<string>, x: string, b: seq<string>)
    requires x !in a
    ensures x in a + ([x] + b) && RemoveFirst(a + ([x] + b), x) == a + b
  {
    assert (a + ([x] + b))[|a|] == x;
    if a == [] {
      PlusEmpty([x] + b);
      PlusEmpty(b);
      assert ([x] + b)[1..] == b;
    } else {
      RemoveBehind(a[1..], x, b);
      PlusTail(a, [x] + b);
      PlusTail(a, b);
      HeadTail(a + b);
    }
  }

  lemma {:induction false} OnlySnoc(deps: seq<string>, d: string, names: set<string>)
    ensures Only(deps + [d], names) == Only(deps, names) + if d in names then [d] else []
  {
    if deps == [] {
      PlusEmpty([d]);
      assert [d][1..] == [];
    } else {
      PlusTail(deps, [d]);
      OnlySnoc(deps[1..], d, names);
      Assoc(if deps[0] in names then [deps[0]] else [], Only(deps[1..], names), if d in names then [d] else []);
      PlusEmpty(Only(deps, names));
      PlusEmpty(Only(deps[1..], names));
    }
  }

  /** One list: removing while walking a copy leaves the filtered list, duplicates and all. */
  method FilterList(deps0: seq<string>, pkgNames: set<string>) returns (list: seq<string>)
    ensures list == Only(deps0, pkgNames)
  {
    hide Only, RemoveFirst;
    list := deps0;
    var deps := list;
    NothingFiltered(deps, pkgNames);
    for i := 0 to |deps|
      invariant list == Only(deps[..i], pkgNames) + deps[i..]
    {
      var d := deps[i];
      OneFiltered(deps, i, pkgNames);
      if d !in pkgNames {
        list := RemoveFirst(list, d);
      }
    }
    assert deps[..|deps|] == deps && deps[|deps|..] == [];
    PlusEmpty(Only(deps, pkgNames));
  }

  lemma NothingFiltered(deps: seq<string>, names: set<string>)
    ensures Only(deps[..0], names) + deps[0..] == deps
  {
    assert deps[..0] == [] && deps[0..] == deps;
    PlusEmpty(deps);
  }

  /** The list before and after its i-th dependency is looked at. */
  lemma OneFiltered(deps: seq<string>, i: nat, names: set<string>)
    requires i < |deps|
    ensures var d, list := deps[i], Only(deps[..i], names) + deps[i..];
            d in list && Only(deps[..i + 1], names) + deps[i + 1..] == if d in names then list else RemoveFirst(list, d)
  {
    hide RemoveFirst;
    var d, kept, rest := deps[i], Only(deps[..i], names), deps[i + 1..];
    assert deps[..i + 1] == deps[..i] + [d] && deps[i..] == [d] + rest;
    OnlySnoc(deps[..i], d, names);
    assert d in [d] + rest;
    if d in names {
      Assoc(kept, [d], rest);
    } else {
      RemoveBehind(kept, d, rest);
      PlusEmpty(kept);
    }
  }

  /** The filter over the dictionary; keys lists its keys in dictionary order. */
  method FilterDeps(pkgs0: Graph, keys: seq<string>) returns (pkgs: Graph)
    requires ToSet(keys) == pkgs0.Keys && Distinct(keys)
    ensures pkgs.Keys == pkgs0.Keys
    ensures forall p | p in pkgs :: pkgs[p] == Only(pkgs0[p], pkgs0.Keys)
    ensures Closed(pkgs)
  {
    hide Only;
    pkgs := pkgs0;
    for i := 0 to |keys|
      invariant pkgs.Keys == pkgs0.Keys
      invariant forall j | 0 <= j < i :: keys[j] in pkgs0 && pkgs[keys[j]] == Only(pkgs0[keys[j]], pkgs0.Keys)
      invariant forall j | i <= j < |keys| :: keys[j] in pkgs0 && pkgs[keys[j]] == pkgs0[keys[j]]
    {
      assert keys[i] in ToSet(keys);
      var list := FilterList(pkgs[keys[i]], pkgs0.Keys);
      pkgs := pkgs[keys[i] := list];
    }
    forall p | p in pkgs ensures pkgs[p] == Only(pkgs0[p], pkgs0.Keys) {
      assert p in ToSet(keys);
    }
  }

  // ---------------------------------------------------------------------
  // Paths and cycles

  /** Each package on p has the next one among its dependencies. */
  predicate IsPath(g: Graph, p: seq<string>) {
    forall i | 0 <= i < |p| - 1 :: p[i] in g && p[i + 1] in g[p[i]]
  }

  predicate IsCycle(g: Graph, p: seq<string>) {
    |p| > 1 && p[0] == p[|p| - 1] && IsPath(g, p)
  }

  ghost predicate HasCycle(g: Graph) {
    exists p :: IsCycle(g, p)
  }

  /** Dropping the dependencies outside the delayed set neither makes nor breaks a cycle. */
  lemma FilterKeepsCycles(pkgs: Graph, filtered: Graph)
    requires filtered.Keys == pkgs.Keys && forall p | p in filtered :: filtered[p] == Only(pkgs[p], pkgs.Keys)
    ensures HasCycle(filtered) <==> HasCycle(pkgs)
  {
    if c :| IsCycle(filtered, c) {
      assert IsCycle(pkgs, c) by {
        assert forall i | 0 <= i < |c| - 1 :: c[i] in filtered && c[i + 1] in filtered[c[i]];
      }
    }
    if c :| IsCycle(pkgs, c) {
      forall i | 0 <= i < |c| - 1 ensures c[i] in filtered && c[i + 1] in filtered[c[i]] {
        assert c[i] in pkgs && c[i + 1] in pkgs[c[i]];
        assert i + 1 < |c| - 1 || c[i + 1] == c[0];
        assert c[0] in pkgs && (i + 1 < |c| - 1 ==> c[i + 1] in pkgs);
      }
      assert IsCycle(filtered, c);
    }
  }

  /** Every package in order stands behind all its dependencies. */
  predicate Topological(g: Graph, order: seq<string>) {
    forall i | 0 <= i < |order| :: order[i] in g && forall d | d in g[order[i]] :: d in order[..i]
  }

  lemma {:induction false} PathDescends(g: Graph, order: seq<string>, p: seq<string>, i: nat)
    requires Topological(g, order) && Distinct(order)
    requires |p| > 1 && IsPath(g, p) && i < |order| && p[0] == order[i]
    ensures exists j :: 0 <= j < i && order[j] == p[|p| - 1]
    decreases |p|
  {
    assert p[1] in g[p[0]];
    var j :| 0 <= j < i && order[..i][j] == p[1];
    if |p| > 2 {
      PathDescends(g, order, p[1..], j);
    }
  }

  /** An order that holds every package excludes cycles. */
  lemma TopologicalNoCycle(g: Graph, order: seq<string>)
    requires Topological(g, order) && Distinct(order) && ToSet(order) == g.Keys
    ensures !HasCycle(g)
  {
    if p :| IsCycle(g, p) {
      assert p[0] in g && p[0] in ToSet(order);
      var i :| 0 <= i < |order| && order[i] == p[0];
      PathDescends(g, order, p, i);
    }
  }

  // ---------------------------------------------------------------------
  // _dep_resolve

  /** RuntimeError of _dep_resolve: the two packages it names. */
  datatype Circular = Circular(node: string, edge: string)

  class DepResolver {
    var resolved: seq<string>
    var seen: seq<string>

    constructor ()
      ensures resolved == [] && seen == []
    {
      resolved, seen := [], [];
    }

    /** path leads from the root of the search to the caller: its packages are
        seen and not resolved yet, and all other seen ones are resolved. */
    ghost predicate Valid(g: Graph, path: seq<string>)
      reads this
    {
      && ToSet(seen) == ToSet(resolved) + ToSet(path)
      && Distinct(resolved) && ToSet(resolved) !! ToSet(path)
      && Topological(g, resolved)
      && IsPath(g, path) && (forall x | x in path :: x in g)
    }

    method DepResolve(g: Graph, node: string, ghost path: seq<string>) returns (r: Result<(), Circular>)
      requires Closed(g) && Valid(g, path) && node in g && node !in seen
      requires IsPath(g, path + [node])
      modifies this
      ensures r.Ok? ==> Valid(g, path) && ToSet(old(seen)) <= ToSet(seen)
      ensures r.Ok? ==> old(resolved) <= resolved && resolved != [] && resolved[|resolved| - 1] == node
      ensures r.Err? ==> HasCycle(g)
      decreases |g.Keys - ToSet(seen)|
    {
      hide Valid, Topological, Distinct, ToSet, IsPath, HasCycle;
      ghost var stack := path + [node];
      Enter(g, path, node);
      for i := 0 to |g[node]|
        invariant Valid(g, stack) && old(resolved) <= resolved && ToSet(old(seen)) + {node} <= ToSet(seen)
        invariant forall j | 0 <= j < i :: g[node][j] in resolved
      {
        var edge := g[node][i];
        assert edge in g[node];
        if edge !in resolved {
          if edge in seen {
            BackEdge(g, stack, edge);
            ClosesCycle(g, stack, edge);
            return Err(Circular(node, edge));
          }
          assert node in g.Keys - ToSet(old(seen));
          Shrinks(g.Keys, ToSet(old(seen)), ToSet(seen), node);
          Extend(g, path, node, edge);
          var r' := DepResolve(g, edge, stack);
          if r'.Err? {
            return r';
          }
        }
      }
      forall d | d in g[node] ensures d in resolved {
        var j :| 0 <= j < |g[node]| && g[node][j] == d;
      }
      Resolve(g, path, node);
      return Ok(());
    }

    /** seen.append(node) */
    method Enter(g: Graph, ghost path: seq<string>, node: string)
      requires Valid(g, path) && node in g && node !in seen && IsPath(g, path + [node])
      modifies this`seen
      ensures seen == old(seen) + [node] && Valid(g, path + [node])
      ensures ToSet(seen) == ToSet(old(seen)) + {node} && node !in ToSet(old(seen)) && node !in path
    {
      assert node !in ToSet(seen) && node !in ToSet(path);
      seen := seen + [node];
      assert ToSet(seen) == ToSet(old(seen)) + {node};
      assert ToSet(path + [node]) == ToSet(path) + {node};
      assert node !in ToSet(resolved);
    }

    lemma BackEdge(g: Graph, stack: seq<string>, edge: string)
      requires Valid(g, stack) && edge in seen && edge !in resolved
      ensures edge in stack && IsPath(g, stack)
    {
      assert edge in ToSet(seen);
    }

    method Resolve(g: Graph, ghost path: seq<string>, node: string)
      requires Valid(g, path + [node]) && node !in path && node in g
      requires forall d | d in g[node] :: d in resolved
      modifies this`resolved
      ensures resolved == old(resolved) + [node] && Valid(g, path)
    {
      assert node in ToSet(path + [node]);
      assert ToSet(path + [node]) == ToSet(path) + {node};
      assert IsPath(g, path) by {
        assert forall i | 0 <= i < |path| :: (path + [node])[i] == path[i];
      }
      assert forall x | x in path :: x in path + [node];
      resolved := resolved + [node];
      assert ToSet(resolved) == ToSet(old(resolved)) + {node};
      assert forall i | 0 <= i < |old(resolved)| :: resolved[..i] == old(resolved)[..i];
      assert resolved[..|old(resolved)|] == old(resolved);
    }
  }

  lemma Shrinks(all: set<string>, before: set<string>, now: set<string>, x: string)
    requires x in all - before && before + {x} <= now
    ensures |all - now| < |all - before|
  {
    assert all - now <= all - before - {x};
    Smaller(all - now, all - before - {x});
  }

  /** An edge back into the stack closes a cycle. */
  lemma ClosesCycle(g: Graph, stack: seq<string>, edge: string)
    requires stack != [] && IsPath(g, stack) && edge in stack
    requires stack[|stack| - 1] in g && edge in g[stack[|stack| - 1]]
    ensures HasCycle(g)
  {
    var k :| 0 <= k < |stack| && stack[k] == edge;
    var cycle := stack[k..] + [edge];
    assert IsCycle(g, cycle);
  }

  // ---------------------------------------------------------------------
  // _get_delayed_postinsts_common

  const ROOT := "__packagegroup_postinst__"

  /** The graph with the artificial root that depends on everything. */
  function Rooted(g: Graph, keys: seq<string>): Graph {
    g[ROOT := keys]
  }

  /** None for an image without packages or without delayed scripts; otherwise
      each package once, behind its dependencies, or an error exactly if the
      dependencies are circular or a package has the name of the root. */
  method DelayedPostinsts(emptyImage: bool, pkgs: Graph, keys: seq<string>)
    returns (r: Result<Option<seq<string>>, Circular>)
    requires Closed(pkgs) && ToSet(keys) == pkgs.Keys
    ensures emptyImage || pkgs == map[] ==> r == Ok(None)
    ensures !emptyImage && pkgs != map[] ==>
              (r.Err? <==> HasCycle(pkgs) || ROOT in pkgs)
    ensures !emptyImage && pkgs != map[] && r.Ok? ==>
              && r.value.Some?
              && var order := r.value.value;
                 Distinct(order) && ToSet(order) == pkgs.Keys && Topological(pkgs, order)
  {
    var pkgList: seq<string> := [];
    if !emptyImage && pkgs != map[] {
      var g := Rooted(pkgs, keys);
      RootedClosed(pkgs, keys);
      RootedCycles(pkgs, keys);
      var resolver := new DepResolver();
      assert resolver.Valid(g, []);
      assert [] + [ROOT] == [ROOT];
      var done := resolver.DepResolve(g, ROOT, []);
      if done.Err? {
        return Err(done.error);
      }
      pkgList := resolver.resolved;
      RootIsLast(pkgs, keys, pkgList);
      pkgList := RemoveFirst(pkgList, ROOT);
      assert pkgList != [] by {
        var p :| p in pkgs;
        assert p in ToSet(pkgList);
      }
    }
    if |pkgList| == 0 {
      return Ok(None);
    }
    return Ok(Some(pkgList));
  }

  /** Every package stands behind all its dependencies that are packages of the
      graph; the others do not matter. */
  predicate DependenciesFirst(g: Graph, order: seq<string>) {
    forall i | 0 <= i < |order| :: order[i] in g && forall d | d in g[order[i]] && d in g :: d in order[..i]
  }

  /** The order of the delayed scripts, from the dependencies as they were read:
      an error exactly if those are circular, whatever else they mention. */
  method GetDelayedPostinsts(emptyImage: bool, pkgs0: Graph, keys: seq<string>)
    returns (r: Result<Option<seq<string>>, Circular>)
    requires ToSet(keys) == pkgs0.Keys && Distinct(keys)
    ensures emptyImage || pkgs0 == map[] ==> r == Ok(None)
    ensures !emptyImage && pkgs0 != map[] ==>
              (r.Err? <==> HasCycle(pkgs0) || ROOT in pkgs0)
    ensures !emptyImage && pkgs0 != map[] && r.Ok? ==>
              && r.value.Some?
              && var order := r.value.value;
                 Distinct(order) && ToSet(order) == pkgs0.Keys && DependenciesFirst(pkgs0, order)
  {
    hide Only, HasCycle;
    if emptyImage {
      r := DelayedPostinsts(true, map[], []);
    } else {
      var pkgs := FilterDeps(pkgs0, keys);
      FilterKeepsCycles(pkgs0, pkgs);
      assert pkgs0 == map[] <==> pkgs0.Keys == {};
      assert pkgs == map[] <==> pkgs.Keys == {};
      r := DelayedPostinsts(false, pkgs, keys);
    }
  }

  lemma RootedClosed(g: Graph, keys: seq<string>)
    requires Closed(g) && ToSet(keys) == g.Keys
    ensures Closed(Rooted(g, keys))
  {
    forall d | d in keys ensures d in g {
      assert d in ToSet(keys);
    }
  }

  /** The root adds no cycle unless its name is taken, and then it is one. */
  lemma RootedCycles(g: Graph, keys: seq<string>)
    requires Closed(g) && ToSet(keys) == g.Keys
    ensures HasCycle(Rooted(g, keys)) <==> HasCycle(g) || ROOT in g
  {
    var h := Rooted(g, keys);
    if ROOT in g {
      assert ROOT in ToSet(keys);
      assert IsCycle(h, [ROOT, ROOT]);
    } else {
      if p :| IsCycle(g, p) {
        assert IsCycle(h, p) by {
          assert forall i | 0 <= i < |p| - 1 :: p[i] in g && h[p[i]] == g[p[i]];
        }
      }
      if p :| IsCycle(h, p) {
        RootedClosed(g, keys);
        forall i | 0 <= i < |p| - 1 ensures p[i] in g && p[i + 1] in g[p[i]] {
          NotRoot(g, keys, p, i);
        }
        assert IsCycle(g, p);
      }
    }
  }

  lemma NotRoot(g: Graph, keys: seq<string>, p: seq<string>, i: nat)
    requires Closed(g) && ToSet(keys) == g.Keys && ROOT !in g
    requires IsCycle(Rooted(g, keys), p) && i < |p| - 1
    ensures p[i] != ROOT
  {
    var h := Rooted(g, keys);
    var k := if i == 0 then |p| - 2 else i - 1;
    assert p[k] in h && p[k + 1] in h[p[k]];
    assert p[k + 1] == p[i];
    if p[k] == ROOT {
      assert p[i] in ToSet(keys);
    } else {
      assert p[i] in g[p[k]];
    }
  }

  lemma RootIsLast(g: Graph, keys: seq<string>, resolved: seq<string>)
    requires Closed(g) && ToSet(keys) == g.Keys && g != map[]
    requires Topological(Rooted(g, keys), resolved) && Distinct(resolved)
    requires resolved != [] && resolved[|resolved| - 1] == ROOT
    ensures ROOT !in g && ROOT in resolved
    ensures var order := RemoveFirst(resolved, ROOT);
            Distinct(order) && ToSet(order) == g.Keys && Topological(g, order)
    ensures !HasCycle(g)
  {
    var n := |resolved| - 1;
    var order := resolved[..n];
    assert resolved == order + [ROOT];
    assert ROOT !in order;
    RemoveBehind(order, ROOT, []);
    PlusEmpty([ROOT]);
    PlusEmpty(order);
    BeforeRoot(g, keys, order);
    TopologicalNoCycle(g, order);
  }

  lemma BeforeRoot(g: Graph, keys: seq<string>, order: seq<string>)
    requires Closed(g) && ToSet(keys) == g.Keys
    requires Topological(Rooted(g, keys), order + [ROOT]) && Distinct(order + [ROOT]) && ROOT !in order
    ensures ROOT !in g && Distinct(order) && ToSet(order) == g.Keys && Topological(g, order)
  {
    var h, all, n := Rooted(g, keys), order + [ROOT], |order|;
    assert all[n] == ROOT && all[..n] == order;
    forall p | p in g ensures p in order {
      assert p in ToSet(keys);
      assert p in h[all[n]];
    }
    forall i | 0 <= i < n ensures order[i] in g && forall d | d in g[order[i]] :: d in order[..i] {
      assert all[i] == order[i] && all[..i] == order[..i];
      assert order[i] in order;
      assert all[i] in h;
    }
    forall i, j | 0 <= i < j < n ensures order[i] != order[j] {
      assert all[i] == order[i] && all[j] == order[j];
    }
    assert forall x | x in order :: x in g;
  }

  /** The worklist of the search, one package further. */
  lemma Extend(g: Graph, path: seq<string>, node: string, edge: string)
    requires IsPath(g, path + [node]) && node in g && edge in g[node]
    ensures IsPath(g, path + [node] + [edge])
  {
  }
}
