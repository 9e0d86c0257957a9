/** The few string operations of the Python library that the modelled code
    leans on, with the laws that tie them together. */
module Text {

  datatype Option<+T> = None | Some(value: T)

  datatype Result<+T, +E> = Ok(value: T) | Err(error: E)

  // Laws of concatenation, to be called by name: proofs that cite them stay
  // cheap where the bare facts would set the solver searching.

  lemma Assoc<T>(a: seq<T>, b: seq<T>, c: seq<T>)
    ensures a + b + c == a + (b + c)
  {
  }

  lemma PlusEmpty<T>(a: seq<T>)
    ensures [] + a == a && a + [] == a
  {
  }

  lemma PlusTail<T>(a: seq<T>, b: seq<T>)
    requires a != []
    ensures a + b != [] && (a + b)[0] == a[0] && (a + b)[1..] == a[1..] + b
  {
  }

  lemma Regroup<T>(a: seq<T>, b: seq<T>, c: seq<T>, d: seq<T>)
    ensures a + b + c + d == a + (b + (c + d))
  {
  }

  lemma HeadTail<T>(a: seq<T>)
    requires a != []
    ensures [a[0]] + a[1..] == a
  {
  }

  lemma Snoc<T>(a: seq<T>, x: T)
    ensures (a + [x])[|a|] == x && (a + [x])[..|a|] == a
  {
  }

  /** The elements of a list. */
  function ToSet(s: seq<string>): set<string> {
    set x | x in s
  }

  predicate Distinct(s: seq<string>) {
    forall i, j | 0 <= i < j < |s| :: s[i] != s[j]
  }

  lemma {:induction false} Smaller(a: set<string>, b: set<string>)
    requires a <= b
    ensures |a| <= |b|
    decreases |a|
  {
    if a != {} {
      var x :| x in a;
      Smaller(a - {x}, b - {x});
    }
  }

  /** The items that pass a filter, in their order. */
  function Kept(keep: string -> bool, ls: seq<string>): seq<string> {
    if ls == [] then [] else (if keep(ls[0]) then [ls[0]] else []) + Kept(keep, ls[1..])
  }

  lemma {:induction false} KeptAppend(keep: string -> bool, a: seq<string>, b: seq<string>)
    ensures Kept(keep, a + b) == Kept(keep, a) + Kept(keep, b)
  {
    if a == [] {
      PlusEmpty(b);
      PlusEmpty(Kept(keep, b));
    } else {
      KeptAppend(keep, a[1..], b);
      PlusTail(a, b);
      Assoc(if keep(a[0]) then [a[0]] else [], Kept(keep, a[1..]), Kept(keep, b));
    }
  }

  lemma KeptNothing(keep: string -> bool)
    ensures Kept(keep, []) == []
  {
  }

  lemma {:induction false} KeptMeans(keep: string -> bool, ls: seq<string>)
    ensures forall l :: l in Kept(keep, ls) <==> l in ls && keep(l)
  {
    if ls != [] {
      KeptMeans(keep, ls[1..]);
      HeadTail(ls);
    }
  }

  /** str.split(c) for a one-character separator: never empty. */
  function Split(s: string, c: char): (parts: seq<string>)
    ensures parts != []
  {
    if s == "" then [""] else Grow(s[0], c, Split(s[1..], c))
  }

  /** The parts of x + s, given the parts of s. */
  function Grow(x: char, c: char, parts: seq<string>): (grown: seq<string>)
    requires parts != []
    ensures grown != []
  {
    if x == c then [""] + parts else [[x] + parts[0]] + parts[1..]
  }

  /** c.join(parts) for a one-character separator. */
  function Join(parts: seq<string>, c: char): string {
    if parts == [] then ""
    else if |parts| == 1 then parts[0]
    else parts[0] + [c] + Join(parts[1..], c)
  }

  /** str.rstrip for a one-character set. */
  function StripRight(s: string, c: char): (t: string)
    ensures t <= s
    ensures forall i | |t| <= i < |s| :: s[i] == c
    ensures t != "" ==> t[|t| - 1] != c
  {
    if s == "" || s[|s| - 1] != c then s else StripRight(s[..|s| - 1], c)
  }

  /** str.isspace for one character. */
  predicate IsSpace(c: char) {
    var n := c as int;
    || 0x09 <= n <= 0x0d || 0x1c <= n <= 0x20 || n == 0x85 || n == 0xa0 || n == 0x1680
    || 0x2000 <= n <= 0x200a || n == 0x2028 || n == 0x2029 || n == 0x202f || n == 0x205f || n == 0x3000
  }

  /** str.rstrip() */
  function RStrip(s: string): (t: string)
    ensures t <= s
    ensures forall i | |t| <= i < |s| :: IsSpace(s[i])
    ensures t != "" ==> !IsSpace(t[|t| - 1])
  {
    if s == "" || !IsSpace(s[|s| - 1]) then s else RStrip(s[..|s| - 1])
  }

  /** str.lstrip() */
  function LStrip(s: string): (t: string)
    ensures |t| <= |s| && t == s[|s| - |t|..]
    ensures forall i | 0 <= i < |s| - |t| :: IsSpace(s[i])
    ensures t != "" ==> !IsSpace(t[0])
  {
    if s == "" || !IsSpace(s[0]) then s else LStrip(s[1..])
  }

  /** str.strip() */
  function Strip(s: string): string {
    LStrip(RStrip(s))
  }

  /** x in y on Python strings. */
  predicate Contains(x: string, y: string) {
    exists i | 0 <= i <= |y| :: x <= y[i..]
  }

  lemma {:induction false} SplitParts(s: string, c: char)
    ensures forall p | p in Split(s, c) :: c !in p
  {
    if s != "" {
      SplitParts(s[1..], c);
    }
  }

  lemma {:induction false} SplitPlain(s: string, c: char)
    requires c !in s
    ensures Split(s, c) == [s]
  {
    if s != "" {
      SplitPlain(s[1..], c);
      assert [s[0]] + s[1..] == s;
    }
  }

  lemma {:induction false} SplitAt(s: string, c: char, t: string)
    ensures Split(s + [c] + t, c) == Split(s, c) + Split(t, c)
  {
    if s == "" {
      SplitHead(c, t, c);
      assert s + [c] + t == [c] + t;
    } else {
      SplitAt(s[1..], c, t);
      SplitAtStep(s[0], s[1..], s[1..] + [c] + t, t, c);
      assert [s[0]] + (s[1..] + [c] + t) == s + [c] + t;
      assert [s[0]] + s[1..] == s;
    }
  }

  lemma SplitAtStep(x: char, s: string, whole: string, t: string, c: char)
    requires Split(whole, c) == Split(s, c) + Split(t, c)
    ensures Split([x] + whole, c) == Split([x] + s, c) + Split(t, c)
  {
    SplitHead(x, whole, c);
    SplitHead(x, s, c);
    GrowConcat(x, c, Split(s, c), Split(t, c));
  }

  lemma SplitHead(x: char, s: string, c: char)
    ensures Split([x] + s, c) == Grow(x, c, Split(s, c))
  {
    assert ([x] + s)[1..] == s;
  }

  lemma GrowConcat(x: char, c: char, parts: seq<string>, more: seq<string>)
    requires parts != []
    ensures Grow(x, c, parts + more) == Grow(x, c, parts) + more
  {
    assert (parts + more)[1..] == parts[1..] + more;
  }

  /** Splitting undoes joining. */
  lemma {:induction false} SplitJoin(parts: seq<string>, c: char)
    requires parts != []
    requires forall p | p in parts :: c !in p
    ensures Split(Join(parts, c), c) == parts
  {
    SplitPlain(parts[0], c);
    if |parts| > 1 {
      SplitAt(parts[0], c, Join(parts[1..], c));
      SplitJoin(parts[1..], c);
    }
  }

  lemma {:induction false} JoinSnoc(parts: seq<string>, p: string, c: char)
    requires parts != []
    ensures Join(parts + [p], c) == Join(parts, c) + [c] + p
  {
    if |parts| > 1 {
      assert (parts + [p])[1..] == parts[1..] + [p];
      JoinSnoc(parts[1..], p, c);
    } else {
      assert (parts + [p])[1..] == [p];
    }
  }
}
