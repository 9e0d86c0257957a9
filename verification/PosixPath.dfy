/** os.path on POSIX, as far as the resolver uses it: string functions only,
    none of them looks at a file system. */
module PosixPath {
  import opened Text

  predicate IsAbs(p: string) {
    p != "" && p[0] == '/'
  }

  predicate AllSlashes(p: string) {
    forall i | 0 <= i < |p| :: p[i] == '/'
  }

  /** p up to and including its last slash. */
  function Head(p: string): (h: string)
    ensures h <= p
    ensures h != "" ==> h[|h| - 1] == '/'
    ensures forall i | |h| <= i < |p| :: p[i] != '/'
  {
    if p == "" || p[|p| - 1] == '/' then p else Head(p[..|p| - 1])
  }

  /** os.path.dirname */
  function Dirname(p: string): string {
    var h := Head(p);
    if AllSlashes(h) then h else StripRight(h, '/')
  }

  /** os.path.join */
  function JoinPath(a: string, b: string): string {
    if IsAbs(b) then b
    else if a == "" || a[|a| - 1] == '/' then a + b
    else a + "/" + b
  }

  /** How many leading slashes os.path.normpath keeps: exactly two survive as two. */
  function Lead(p: string): (k: nat)
    ensures k <= 2
  {
    if !IsAbs(p) then 0
    else if "//" <= p && !("///" <= p) then 2
    else 1
  }

  function Slashes(k: nat): string {
    if k == 0 then "" else if k == 1 then "/" else "//"
  }

  /** The component loop of os.path.normpath. */
  function NormComps(comps: seq<string>, lead: nat, acc: seq<string>): seq<string> {
    if comps == [] then acc
    else NormComps(comps[1..], lead, NormStep(comps[0], lead, acc))
  }

  function NormStep(d: string, lead: nat, acc: seq<string>): seq<string> {
    if d == "" || d == "." then acc
    else if d != ".." || (lead == 0 && acc == []) || (acc != [] && acc[|acc| - 1] == "..") then acc + [d]
    else if acc != [] then acc[..|acc| - 1]
    else acc
  }

  /** os.path.normpath */
  function NormPath(p: string): string {
    if p == "" then "."
    else
      var path := Slashes(Lead(p)) + Join(NormComps(Split(p, '/'), Lead(p), []), '/');
      if path == "" then "." else path
  }

  // ---------------------------------------------------------------------
  // Component lists that normpath leaves alone

  /** A component that is neither empty nor a parent reference. */
  predicate Name(d: string) {
    d != "" && d != ".." && '/' !in d
  }

  /** Non-empty, slash-free, no "."; ".." only at the front, and only in a relative path. */
  predicate Normal(cs: seq<string>, lead: nat) {
    && (forall i | 0 <= i < |cs| :: cs[i] != "" && cs[i] != "." && '/' !in cs[i])
    && (forall i | 0 <= i < |cs| && cs[i] == ".." :: lead == 0 && (i == 0 || cs[i - 1] == ".."))
  }

  lemma {:induction false} NormCompsNormal(comps: seq<string>, lead: nat, acc: seq<string>)
    requires forall i | 0 <= i < |comps| :: '/' !in comps[i]
    requires Normal(acc, lead)
    ensures Normal(NormComps(comps, lead, acc), lead)
  {
    if comps != [] {
      var next := NormStep(comps[0], lead, acc);
      if next == acc + [comps[0]] {
        assert forall i | 0 <= i < |next| && next[i] == ".." :: lead == 0 && (i == 0 || next[i - 1] == "..");
      }
      NormCompsNormal(comps[1..], lead, next);
    }
  }

  /** A normal list goes through the loop unchanged. */
  lemma {:induction false} NormCompsFixed(acc: seq<string>, comps: seq<string>, lead: nat)
    requires Normal(acc + comps, lead)
    ensures NormComps(comps, lead, acc) == acc + comps
    decreases comps
  {
    if comps == [] {
      assert acc + comps == acc;
    } else {
      var d := comps[0];
      assert (acc + comps)[|acc|] == d;
      assert acc != [] ==> (acc + comps)[|acc| - 1] == acc[|acc| - 1];
      assert NormStep(d, lead, acc) == acc + [d];
      assert (acc + [d]) + comps[1..] == acc + comps;
      NormCompsFixed(acc + [d], comps[1..], lead);
    }
  }

  lemma {:induction false} JoinEnds(cs: seq<string>)
    requires cs != []
    requires forall i | 0 <= i < |cs| :: cs[i] != "" && '/' !in cs[i]
    ensures Join(cs, '/') != ""
    ensures Join(cs, '/')[0] != '/'
    ensures Join(cs, '/')[|Join(cs, '/')| - 1] != '/'
  {
    assert cs[0][0] in cs[0] && cs[0][|cs[0]| - 1] in cs[0];
    if |cs| > 1 {
      JoinEnds(cs[1..]);
    }
  }

  /** What splitting a normalised path at its slashes gives: one empty component
      for each leading slash (and one more for a bare root), then normal ones. */
  function NormalSplit(k: nat, cs: seq<string>): seq<string> {
    var parts := if cs == [] then [""] else cs;
    if k == 0 then (if cs == [] then ["."] else cs) else if k == 1 then [""] + parts else [""] + ([""] + parts)
  }

  lemma NormPathShape(p: string) returns (cs: seq<string>)
    ensures Normal(cs, Lead(p))
    ensures NormPath(p) == if Lead(p) == 0 && cs == [] then "." else Slashes(Lead(p)) + Join(cs, '/')
    ensures p != "" ==> cs == NormComps(Split(p, '/'), Lead(p), [])
    ensures p == "" ==> cs == []
  {
    SplitParts(p, '/');
    if p == "" {
      cs := [];
    } else {
      NormCompsNormal(Split(p, '/'), Lead(p), []);
      cs := NormComps(Split(p, '/'), Lead(p), []);
      if cs != [] { JoinEnds(cs); }
    }
  }

  lemma SplitSlashed(k: nat, cs: seq<string>)
    requires k <= 2 && Normal(cs, k)
    requires k > 0 || cs != []
    ensures Split(Slashes(k) + Join(cs, '/'), '/') == NormalSplit(k, cs)
  {
    var body := Join(cs, '/');
    if cs == [] {
      SplitPlain("", '/');
    } else {
      SplitJoin(cs, '/');
    }
    var parts := if cs == [] then [""] else cs;
    assert Split(body, '/') == parts;
    SplitSlash(body);
    SplitSlash("/" + body);
    PlusEmpty(body);
    assert "/" + ("/" + body) == "//" + body;
  }

  /** A slash in front is one more empty part. */
  lemma SplitSlash(s: string)
    ensures Split("/" + s, '/') == [""] + Split(s, '/')
  {
    SplitHead('/', s, '/');
  }

  lemma SplitNormPath(p: string) returns (cs: seq<string>)
    ensures Normal(cs, Lead(p))
    ensures NormPath(p) == if Lead(p) == 0 && cs == [] then "." else Slashes(Lead(p)) + Join(cs, '/')
    ensures Split(NormPath(p), '/') == NormalSplit(Lead(p), cs)
    ensures NormPath(p) == "." <==> Lead(p) == 0 && cs == []
  {
    cs := NormPathShape(p);
    if Lead(p) == 0 && cs == [] {
      SplitPlain(".", '/');
    } else {
      SplitSlashed(Lead(p), cs);
      NotDot(Lead(p), cs);
    }
  }

  lemma NotDot(k: nat, cs: seq<string>)
    requires k <= 2 && Normal(cs, k)
    requires k > 0 || cs != []
    ensures Slashes(k) + Join(cs, '/') != "."
  {
    if k == 0 {
      PlusEmpty(Join(cs, '/'));
      SplitJoin(cs, '/');
      SplitPlain(".", '/');
      assert forall i | 0 <= i < |cs| :: cs[i] != ".";
    } else {
      assert (Slashes(k) + Join(cs, '/'))[0] == '/';
    }
  }

  lemma LeadOfNormal(k: nat, cs: seq<string>)
    requires k <= 2 && Normal(cs, k)
    requires k > 0 || cs != []
    ensures Lead(Slashes(k) + Join(cs, '/')) == k
  {
    var body := Join(cs, '/');
    if cs != [] {
      JoinEnds(cs);
      assert ("//" + body)[2] == body[0];
      assert ("/" + body)[1] == body[0];
      assert "" + body == body;
    } else {
      assert "/" + body == "/" && "//" + body == "//";
    }
  }

  /** A path spelled from a normal component list is its own normpath. */
  lemma NormPathFixed(k: nat, cs: seq<string>)
    requires k <= 2 && Normal(cs, k)
    requires k > 0 || cs != []
    ensures NormPath(Slashes(k) + Join(cs, '/')) == Slashes(k) + Join(cs, '/')
  {
    if cs != [] { JoinEnds(cs); }
    SplitSlashed(k, cs);
    LeadOfNormal(k, cs);
    NormCompsSplit(k, cs);
  }

  lemma NormCompsSplit(k: nat, cs: seq<string>)
    requires k <= 2 && Normal(cs, k) && (k > 0 || cs != [])
    ensures NormComps(NormalSplit(k, cs), k, []) == cs
  {
    var parts := if cs == [] then [""] else cs;
    PlusEmpty(cs);
    NormCompsFixed([], cs, k);
    assert NormComps(parts, k, []) == cs by {
      assert [""][1..] == [];
    }
    EmptyFirst(parts, k);
    EmptyFirst([""] + parts, k);
  }

  lemma EmptyFirst(parts: seq<string>, k: nat)
    ensures NormComps([""] + parts, k, []) == NormComps(parts, k, [])
  {
    PlusTail([""], parts);
    assert [""][1..] == [];
    PlusEmpty(parts);
  }

  /** normpath is idempotent: the reason why a key that was normalised once
      is found again after it has been normalised a second time. */
  lemma NormPathIdempotent(p: string)
    ensures NormPath(NormPath(p)) == NormPath(p)
  {
    var cs := SplitNormPath(p);
    if Lead(p) == 0 && cs == [] {
      SplitPlain(".", '/');
      assert NormComps(["."], 0, []) == [];
    } else {
      NormPathFixed(Lead(p), cs);
    }
  }

  lemma {:induction false} NormCompsAppend(a: seq<string>, b: seq<string>, lead: nat, acc: seq<string>)
    ensures NormComps(a + b, lead, acc) == NormComps(b, lead, NormComps(a, lead, acc))
    decreases a
  {
    if a == [] {
      assert a + b == b;
    } else {
      assert (a + b)[1..] == a[1..] + b;
      NormCompsAppend(a[1..], b, lead, NormStep(a[0], lead, acc));
    }
  }

  /** Only the component list after the last slash changes: "p/" and "p/." are p to normpath. */
  lemma NormPathTail(p: string, d: string)
    requires p != "" && (d == "" || d == ".") && Lead(p + "/" + d) == Lead(p)
    ensures NormPath(p + "/" + d) == NormPath(p)
  {
    SplitAt(p, '/', d);
    SplitPlain(d, '/');
    assert p + ['/'] + d == p + "/" + d;
    NormCompsAppend(Split(p, '/'), [d], Lead(p), []);
    assert NormComps([d], Lead(p), NormComps(Split(p, '/'), Lead(p), [])) == NormComps(Split(p, '/'), Lead(p), []);
  }
}
