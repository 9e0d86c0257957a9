/** How files below a root are named: by plain components, but for one case. */
module NamedFiles {
  import opened Text
  import opened PosixPath
  import opened RootedPath
  import opened ResolverLaws
  import opened FlatWalk
  import opened RealPathTheorems

  /** The file is root, or named by plain components below it. */
  ghost predicate NamedBelow(file: string, root: string) {
    RootOf(root) != "" && exists cs :: Plain(cs) && Spells(RootOf(root), NormPath(file), cs)
  }

  /** Below an absolute root every file is, but for one case: normpath keeps
      exactly two slashes in front, to which POSIX gives a meaning of their own,
      so that "//a" is below the root "/" but not its "a". */
  lemma FilesAreNamed(file: string, root: string)
    requires IsAbs(root) && IsPathBelow(NormPath(file), RootOf(root)) && RootOf(root) != "//"
    requires RootOf(root) == "/" ==> !("//" <= NormPath(file))
    ensures NamedBelow(file, root)
  {
    hide NormPath, RootOf, Split;
    var f, r := NormPath(file), RootOf(root);
    RootOfHasShape(root);
    if r <= f && f != r {
      var rest := f[|r|..];
      var cs := Split(rest, '/');
      PlainBelow(file, root);
      JoinSplit(rest, '/');
      assert f == r + rest;
      assert Spells(r, f, cs);
    } else if r <= f {
      RootSpells(r);
      assert Spells(r, f, []);
    } else {
      assert f + "/" == r;
      NormPathNotEmpty(file);
      RootSlashes(root);
      SlashesOnly(r, f);
      assert Spells(r, f, []);
    }
  }

  lemma NormPathNotEmpty(p: string)
    ensures NormPath(p) != ""
  {
  }

  lemma SlashesOnly(r: string, f: string)
    requires RootShape(r) && f + "/" == r && f != "" && (AllSlashes(r) ==> r == "/")
    ensures f == Bare(r)
  {
    assert f == r[..|r| - 1];
  }

  lemma RootSlashes(root: string)
    ensures AllSlashes(RootOf(root)) ==> RootOf(root) == "/" || RootOf(root) == "//"
  {
    hide NormPath;
    var cs := NormPathShape(root);
    if cs != [] {
      JoinEnds(cs);
      var n := NormPath(root);
      assert n[|n| - 1] == Join(cs, '/')[|Join(cs, '/')| - 1];
      assert RootOf(root)[|n| - 1] == n[|n| - 1];
    } else {
      JoinNothing();
      PlusEmpty(Slashes(Lead(root)));
    }
  }

  lemma {:induction false} LastComp(s: string)
    requires s != "" && s[|s| - 1] != '/'
    ensures Split(s, '/')[|Split(s, '/')| - 1] != ""
  {
    var parts := Split(s[1..], '/');
    if |s| > 1 {
      LastComp(s[1..]);
      GrowLast(s[0], '/', parts);
    } else {
      assert s[1..] == "" && parts == [""];
    }
  }

  lemma GrowLast(x: char, c: char, parts: seq<string>)
    requires parts != [] && parts[|parts| - 1] != ""
    ensures var grown := Grow(x, c, parts); grown[|grown| - 1] != ""
  {
  }

  lemma NoThreeSlashes(p: string)
    ensures !("///" <= NormPath(p))
  {
    hide NormPath, Lead, Join;
    var cs := NormPathShape(p);
    if cs != [] {
      JoinEnds(cs);
      assert (Slashes(Lead(p)) + Join(cs, '/'))[Lead(p)] == Join(cs, '/')[0];
    } else {
      PlusEmpty(Slashes(Lead(p)));
      assert Join([], '/') == "" by {
        JoinNothing();
      }
    }
  }

  /** Empty components stand in front only, so that a first one that is not empty excludes them. */
  lemma {:induction false} NoneEmpty(root: string, start: string, comps: seq<string>, i: nat)
    requires Todo(root, start, comps) && comps != [] && comps[0] != "" && i < |comps|
    ensures comps[i] != ""
  {
    if i > 0 {
      NoneEmpty(root, start, comps, i - 1);
    }
  }

  /** What follows an absolute root in a normalised path does not start with a slash. */
  lemma NoSlashBelow(file: string, root: string)
    requires IsAbs(root) && RootOf(root) <= NormPath(file) && NormPath(file) != RootOf(root)
    requires RootOf(root) == "/" ==> !("//" <= NormPath(file))
    ensures NormPath(file)[|RootOf(root)|] != '/'
  {
    hide NormPath, RootOf, Split;
    var f, r := NormPath(file), RootOf(root);
    RootOfHasShape(root);
    NoThreeSlashes(file);
    if AllSlashes(r) {
      if |r| == 1 {
        assert r == "/";
      } else {
        assert f[0] == r[0] && f[1] == r[1];
      }
    } else {
      var b := r[..|r| - 1];
      assert f[|r| - 1] == r[|r| - 1] && f == b + ['/'] + f[|r|..];
      LastComp(b);
      SplitAt(b, '/', f[|r|..]);
      TargetTodo(file, r, r);
      var head, tail := Split(b, '/'), Split(f[|r|..], '/');
      assert (head + tail)[|head|] == tail[0] && (head + tail)[|head| - 1] == head[|head| - 1];
      SlashFirst(f[|r|..]);
    }
  }

  lemma SlashFirst(s: string)
    requires s != ""
    ensures s[0] == '/' <==> Split(s, '/')[0] == ""
  {
  }

  /** What follows an absolute root in a normalised path. */
  lemma PlainBelow(file: string, root: string)
    requires IsAbs(root) && RootOf(root) <= NormPath(file) && NormPath(file) != RootOf(root)
    requires RootOf(root) == "/" ==> !("//" <= NormPath(file))
    ensures Plain(Split(NormPath(file)[|RootOf(root)|..], '/'))
  {
    var f, r := NormPath(file), RootOf(root);
    RootOfHasShape(root);
    AbsoluteComps(file, root);
    NoSlashBelow(file, root);
    hide NormPath, RootOf, Split, NormalSplit;
    var head, tail := SplitBelow(f, r);
    SlashFirst(f[|r|..]);
    TargetTodo(file, r, r);
    NoDotInTarget(file);
    TodoTail(r, head, tail);
    TodoRest(r, tail);
    TailPlain(r, head, tail);
  }

  /** The end of a list of names, behind empty ones that come first. */
  lemma TailPlain(r: string, head: seq<string>, tail: seq<string>)
    requires forall i | 0 <= i < |head + tail| :: (head + tail)[i] == "" || Name((head + tail)[i])
    requires "." !in head + tail && Todo(r, "", tail) && tail != [] && tail[0] != ""
    ensures Plain(tail)
  {
    forall i | 0 <= i < |tail| ensures Name(tail[i]) && tail[i] != "." {
      NoneEmpty(r, "", tail, i);
      assert tail[i] == (head + tail)[|head| + i];
    }
  }

  lemma TodoRest(r: string, tail: seq<string>)
    requires Todo(r, r, [""] + tail) && tail != [] && tail[0] != ""
    ensures Todo(r, "", tail)
  {
    var all := [""] + tail;
    forall i | 0 <= i < |tail| ensures '/' !in tail[i] && (i > 0 && tail[i] == "" ==> tail[i - 1] == "") {
      assert all[i + 1] == tail[i];
      assert i > 0 ==> all[i] == tail[i - 1];
    }
  }

  /** A normalised absolute path has no parent reference. */
  lemma AbsoluteComps(file: string, root: string)
    requires IsAbs(root) && RootOf(root) <= NormPath(file)
    ensures forall i | 0 <= i < |Split(NormPath(file), '/')| ::
            Split(NormPath(file), '/')[i] == "" || Name(Split(NormPath(file), '/')[i])
  {
    hide NormPath, Split;
    var cs := SplitNormPath(file);
    var rs := NormPathShape(root);
    RootAbsolute(root);
    if Lead(file) == 0 {
      NormPathRelative(file);
      assert false;
    }
  }

  lemma RootAbsolute(root: string)
    requires IsAbs(root)
    ensures IsAbs(RootOf(root))
  {
    hide NormPath;
    var rs := NormPathShape(root);
  }

  lemma NormPathRelative(file: string)
    requires Lead(file) == 0
    ensures !IsAbs(NormPath(file))
  {
    hide NormPath;
    var cs := NormPathShape(file);
    if cs != [] {
      JoinEnds(cs);
      PlusEmpty(Join(cs, '/'));
    }
  }

  /** Joining undoes splitting. */
  lemma {:induction false} JoinSplit(s: string, c: char)
    ensures Join(Split(s, c), c) == s
  {
    if s != "" {
      JoinSplit(s[1..], c);
      GrowJoined(s[0], c, Split(s[1..], c));
      HeadTail(s);
    }
  }

  lemma GrowJoined(x: char, c: char, parts: seq<string>)
    requires parts != []
    ensures Join(Grow(x, c, parts), c) == [x] + Join(parts, c)
  {
    if x == c {
      assert ([""] + parts)[1..] == parts;
    } else if |parts| > 1 {
      Regroup([x], parts[0], [c], Join(parts[1..], c));
    }
  }
}
