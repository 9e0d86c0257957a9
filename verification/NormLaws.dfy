/** What os.path.normpath means: the normalised path leads where the path led,
    as long as no directory on the way is a symlink. */
module NormLaws {
  import opened Text
  import opened PosixPath
  import opened RootedPath
  import opened Resolver

  // ---------------------------------------------------------------------
  // Where a path leads

  /** The directory that components lead to from base, both given by the names
      below "/": ".." goes up one, and stays at "/". */
  function Leads(base: seq<string>, comps: seq<string>): seq<string>
    decreases |comps|
  {
    if comps == [] then base else Leads(LeadsOne(base, comps[0]), comps[1..])
  }

  function LeadsOne(base: seq<string>, d: string): seq<string> {
    if d == "" || d == "." then base else if d == ".." then Up(base) else base + [d]
  }

  /** An absolute path starts at "/". */
  function StartOf(p: string, base: seq<string>): seq<string> {
    if IsAbs(p) then [] else base
  }

  lemma {:induction false} LeadsPlus(base: seq<string>, a: seq<string>, b: seq<string>)
    ensures Leads(base, a + b) == Leads(Leads(base, a), b)
    decreases |a|
  {
    hide LeadsOne;
    if a == [] {
      PlusEmpty(b);
    } else {
      PlusTail(a, b);
      LeadsPlus(LeadsOne(base, a[0]), a[1..], b);
    }
  }

  lemma LeadsSnoc(base: seq<string>, cs: seq<string>, d: string)
    ensures Leads(base, cs + [d]) == LeadsOne(Leads(base, cs), d)
  {
    LeadsPlus(base, cs, [d]);
    assert [d][1..] == [];
  }

  /** One component read by the loop of normpath. */
  lemma StepLeads(base: seq<string>, acc: seq<string>, d: string, k: nat)
    requires Normal(acc, k) && (k > 0 ==> base == [])
    ensures Leads(base, NormStep(d, k, acc)) == LeadsOne(Leads(base, acc), d)
  {
    if d == ".." && acc != [] && acc[|acc| - 1] != ".." {
      UpSnoc(acc);
      LeadsSnoc(base, Up(acc), acc[|acc| - 1]);
    } else if d == ".." && acc == [] && k > 0 {
      assert Leads(base, acc) == [];
    } else if d != "" && d != "." {
      LeadsSnoc(base, acc, d);
    }
  }

  lemma {:induction false} LoopLeads(base: seq<string>, comps: seq<string>, acc: seq<string>, k: nat)
    requires forall i | 0 <= i < |comps| :: '/' !in comps[i]
    requires Normal(acc, k) && (k > 0 ==> base == [])
    ensures Leads(base, NormComps(comps, k, acc)) == Leads(Leads(base, acc), comps)
    decreases |comps|
  {
    hide NormStep, LeadsOne, Normal;
    if comps != [] {
      StepLeads(base, acc, comps[0], k);
      StepNormal(acc, comps[0], k);
      LoopLeads(base, comps[1..], NormStep(comps[0], k, acc), k);
    }
  }

  lemma StepNormal(acc: seq<string>, d: string, k: nat)
    requires Normal(acc, k) && '/' !in d
    ensures Normal(NormStep(d, k, acc), k)
  {
    NormCompsNormal([d], k, acc);
    assert [d][1..] == [];
    assert NormComps([d], k, acc) == NormStep(d, k, acc);
  }

  /** From any directory, a path and its normalised form lead to the same place. */
  lemma NormPathLeads(p: string, base: seq<string>)
    ensures IsAbs(NormPath(p)) <==> IsAbs(p)
    ensures Leads(StartOf(p, base), Split(p, '/')) == Leads(StartOf(NormPath(p), base), Split(NormPath(p), '/'))
  {
    var cs := NormPathShape(p);
    var k, start := Lead(p), StartOf(p, base);
    NormPathAbs(p);
    SplitParts(p, '/');
    if k > 0 || cs != [] {
      SplitSlashed(k, cs);
    } else {
      SplitPlain(".", '/');
    }
    NormalNone(k);
    hide NormPath, Split, Normal, Leads;
    NormalSplitLeads(start, k, cs);
    EmptyLeads(start);
    if p == "" {
      SplitPlain("", '/');
    } else {
      LoopLeads(start, Split(p, '/'), [], k);
    }
  }

  lemma NormalNone(k: nat)
    ensures Normal([], k)
  {
  }

  lemma EmptyLeads(base: seq<string>)
    ensures Leads(base, []) == base && Leads(base, [""]) == base && Leads(base, ["."]) == base
  {
    assert [""][1..] == [] && ["."][1..] == [];
  }

  lemma NormPathAbs(p: string)
    ensures IsAbs(NormPath(p)) <==> IsAbs(p)
  {
    hide NormPath;
    var cs := NormPathShape(p);
    if cs != [] {
      JoinEnds(cs);
      PlusEmpty(Join(cs, '/'));
    }
  }

  lemma NormalSplitLeads(base: seq<string>, k: nat, cs: seq<string>)
    ensures Leads(base, NormalSplit(k, cs)) == Leads(base, cs)
  {
    EmptyLeads(base);
    var parts := if cs == [] then [""] else cs;
    SlashLeads(base, parts);
    SlashLeads(base, [""] + parts);
  }

  lemma SlashLeads(base: seq<string>, comps: seq<string>)
    ensures Leads(base, [""] + comps) == Leads(base, comps)
  {
    PlusTail([""], comps);
    assert [""][1..] == [];
    PlusEmpty(comps);
  }

  /** Only exactly two slashes in front stay two. */
  lemma NormPathLead(p: string)
    ensures "//" <= NormPath(p) <==> "//" <= p && !("///" <= p)
    ensures !("///" <= NormPath(p))
  {
    hide NormPath;
    var cs := NormPathShape(p);
    if cs != [] {
      JoinEnds(cs);
      assert (Slashes(Lead(p)) + Join(cs, '/'))[|Slashes(Lead(p))|] == Join(cs, '/')[0];
    } else {
      PlusEmpty(Slashes(Lead(p)));
    }
  }

  /** The text of a link is followed from where it starts, component by
      component; from the directory of the link unless it is absolute. */
  lemma TargetLeads(text: string, file: string, root: string, base: seq<string>)
    ensures TargetStart(text, file, root) == if "/" <= text then root else Dirname(file)
    ensures Leads(StartOf(text, base), TargetComps(text)) == Leads(StartOf(text, base), Split(text, '/'))
  {
    hide NormPath, Split, Leads;
    NormPathLeads(text, base);
  }

  /** A root that is named by plain components is taken as it is, with a slash
      behind it, whether it has one already or not. */
  lemma RootNamed(cs: seq<string>)
    requires cs != [] && forall i | 0 <= i < |cs| :: Name(cs[i]) && cs[i] != "."
    ensures RootOf("/" + Join(cs, '/')) == "/" + Join(cs, '/') + "/"
    ensures RootOf("/" + Join(cs, '/') + "/") == "/" + Join(cs, '/') + "/"
  {
    var p := "/" + Join(cs, '/');
    JoinEnds(cs);
    assert Slashes(1) == "/";
    NormPathFixed(1, cs);
    LeadOfNormal(1, cs);
    assert p[|p| - 1] == Join(cs, '/')[|Join(cs, '/')| - 1];
    hide Join, Normal, NormComps, Split;
    TailLead(p);
    NormPathTail(p, "");
  }

  lemma TailLead(p: string)
    requires Lead(p) == 1 && p != "/"
    ensures Lead(p + "/" + "") == Lead(p) && p + "/" + "" == p + "/"
  {
    PlusEmpty(p + "/");
  }

  // ---------------------------------------------------------------------
  // Components that cancel

  /** A name and the ".." behind it cancel, wherever they stand; d must not be ".". */
  lemma UpCancels(a: seq<string>, d: string, b: seq<string>, k: nat)
    requires Name(d) && d != "."
    ensures NormComps(a + [d, ".."] + b, k, []) == NormComps(a + b, k, [])
  {
    var acc := NormComps(a, k, []);
    NormCompsAppend(a + [d, ".."], b, k, []);
    NormCompsAppend(a, [d, ".."], k, []);
    NormCompsAppend(a, b, k, []);
    OneUp(d, k, acc);
  }

  lemma OneUp(d: string, k: nat, acc: seq<string>)
    requires Name(d) && d != "."
    ensures NormComps([d, ".."], k, acc) == acc
  {
    assert [d, ".."][1..] == [".."] && [".."][1..] == [];
    var more := NormStep(d, k, acc);
    assert more == acc + [d] && more[|more| - 1] == d && more[..|more| - 1] == acc;
    assert NormComps([d, ".."], k, acc) == NormComps([".."], k, more) == NormComps([], k, NormStep("..", k, more));
  }

  /** Above "/" there is nothing. */
  lemma RootUp(b: seq<string>, k: nat)
    requires k > 0
    ensures NormComps([".."] + b, k, []) == NormComps(b, k, [])
  {
    PlusTail([".."], b);
    assert [".."][1..] == [];
    PlusEmpty(b);
  }

  /** So a file that is spelled with a detour below root is the same file without it. */
  lemma DetourBelow(r: string, cs: seq<string>, d: string, ds: seq<string>)
    requires RootShape(r) && Name(d) && d != "." && forall c | c in cs + ds :: c != "" && '/' !in c
    ensures NormPath(Render(r, cs + [d, ".."] + ds)) == NormPath(Render(r, cs + ds))
  {
    var long, short, b := cs + [d, ".."] + ds, cs + ds, r[..|r| - 1];
    DetourChars(cs, d, ds);
    assert b + ['/'] == r;
    BelowComps(b, long);
    if short == [] {
      RenderNothing(r);
    } else {
      BelowComps(b, short);
    }
    hide Split, Join, Lead, NormComps, Render, Name;
    DetourComps(b, cs, d, ds, Lead(r));
    RootComps(b, Lead(r));
    SameComps(Render(r, long), Render(r, short));
  }

  lemma DetourChars(cs: seq<string>, d: string, ds: seq<string>)
    requires Name(d) && forall c | c in cs + ds :: c != "" && '/' !in c
    ensures cs + [d, ".."] + ds != [] && forall c | c in cs + [d, ".."] + ds :: c != "" && '/' !in c
  {
    assert (cs + [d, ".."] + ds)[|cs|] == d;
    assert forall c | c in cs + [d, ".."] + ds :: c in cs + ds || c == d || c == "..";
  }

  lemma DetourComps(b: string, cs: seq<string>, d: string, ds: seq<string>, k: nat)
    requires Name(d) && d != "."
    ensures NormComps(Split(b, '/') + (cs + [d, ".."] + ds), k, []) == NormComps(Split(b, '/') + (cs + ds), k, [])
    ensures cs + ds == [] ==>
              NormComps(Split(b, '/') + (cs + [d, ".."] + ds), k, []) == NormComps(Split(b, '/'), k, [])
  {
    hide Split, NormComps;
    var head := Split(b, '/');
    UpCancels(head + cs, d, ds, k);
    Assoc(head, cs, ds);
    Assoc(head, cs, [d, ".."]);
    Assoc(head, cs + [d, ".."], ds);
    PlusEmpty(head);
  }

  lemma RootComps(b: string, k: nat)
    ensures NormComps(Split(b + ['/'], '/'), k, []) == NormComps(Split(b, '/'), k, [])
  {
    SplitAt(b, '/', "");
    SplitPlain("", '/');
    PlusEmpty(b + ['/']);
    hide Split;
    NormCompsAppend(Split(b, '/'), [""], k, []);
    SkipEmpty(k, NormComps(Split(b, '/'), k, []));
  }

  lemma SameComps(p: string, q: string)
    requires p != "" && q != "" && Lead(p) == Lead(q)
    requires NormComps(Split(p, '/'), Lead(p), []) == NormComps(Split(q, '/'), Lead(p), [])
    ensures NormPath(p) == NormPath(q)
  {
  }

  lemma SkipEmpty(k: nat, acc: seq<string>)
    ensures NormComps([""], k, acc) == acc
  {
    assert [""][1..] == [];
  }

  /** The components of a path below a root that ends in its slash. */
  lemma BelowComps(b: string, cs: seq<string>)
    requires cs != [] && forall c | c in cs :: c != "" && '/' !in c
    ensures Render(b + ['/'], cs) != "" && Lead(Render(b + ['/'], cs)) == Lead(b + ['/'])
    ensures Split(Render(b + ['/'], cs), '/') == Split(b, '/') + cs
  {
    assert forall i | 0 <= i < |cs| :: cs[i] in cs;
    JoinEnds(cs);
    SplitAt(b, '/', Join(cs, '/'));
    SplitJoin(cs, '/');
    hide Split, Join;
    var r, body := b + ['/'], Join(cs, '/');
    var p := r + body;
    assert p[|r|] == body[0];
    assert forall i | 0 <= i < |r| :: p[i] == r[i];
  }

  /** The same for a relative text, as a link may hold. */
  lemma DetourRelative(cs: seq<string>, d: string, ds: seq<string>)
    requires Name(d) && d != "." && forall c | c in cs + ds :: c != "" && '/' !in c
    ensures NormPath(Join(cs + [d, ".."] + ds, '/')) == NormPath(Join(cs + ds, '/'))
  {
    var long, short := cs + [d, ".."] + ds, cs + ds;
    DetourChars(cs, d, ds);
    UpCancels(cs, d, ds, 0);
    RelativeComps(long);
    if short == [] {
      hide NormComps;
      NormPathNothing(Join(long, '/'));
    } else {
      RelativeComps(short);
      hide NormComps, Join, Split;
      SameComps(Join(long, '/'), Join(short, '/'));
    }
  }

  lemma RelativeComps(cs: seq<string>)
    requires cs != [] && forall c | c in cs :: c != "" && '/' !in c
    ensures Join(cs, '/') != "" && Lead(Join(cs, '/')) == 0 && Split(Join(cs, '/'), '/') == cs
  {
    assert forall i | 0 <= i < |cs| :: cs[i] in cs;
    JoinEnds(cs);
    SplitJoin(cs, '/');
  }

  lemma NormPathNothing(p: string)
    requires p != "" && Lead(p) == 0 && NormComps(Split(p, '/'), 0, []) == NormComps([], 0, [])
    ensures NormPath(p) == NormPath(Join([], '/')) == "."
  {
  }

  // ---------------------------------------------------------------------
  // What this means for realpath

  /** A detour in the name of the file makes no difference, whatever links there are. */
  lemma FileDetour(v: View, root: string, cs: seq<string>, d: string, ds: seq<string>, usePhysdir: bool, n: nat,
                   assumeDir: bool)
    requires Name(d) && d != "." && forall c | c in cs + ds :: c != "" && '/' !in c
    ensures Resolve(v, Render(RootOf(root), cs + [d, ".."] + ds), root, usePhysdir, n, assumeDir) ==
            Resolve(v, Render(RootOf(root), cs + ds), root, usePhysdir, n, assumeDir)
  {
    hide NormPath, RootOf, Render, Split;
    RootOfHasShape(root);
    DetourBelow(RootOf(root), cs, d, ds);
  }

  /** Nor does one in the text of a link. */
  lemma TargetDetour(v: View, file: string, root: string, cs: seq<string>, d: string, ds: seq<string>, n: nat,
                     assumeDir: bool)
    requires Name(d) && d != "." && forall c | c in cs + ds :: c != "" && '/' !in c
    ensures ResolveTarget(v, file, Join(cs + [d, ".."] + ds, '/'), root, n, assumeDir) ==
            ResolveTarget(v, file, Join(cs + ds, '/'), root, n, assumeDir)
    ensures ResolveTarget(v, file, Render("/", cs + [d, ".."] + ds), root, n, assumeDir) ==
            ResolveTarget(v, file, Render("/", cs + ds), root, n, assumeDir)
  {
    hide NormPath, Join, Split;
    DetourRelative(cs, d, ds);
    DetourBelow("/", cs, d, ds);
  }
}
