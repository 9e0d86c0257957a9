/** What relocation makes of the paths in a file: every marker gives way to the
    new prefix, and nothing else does. */
module ElfMarkers {
  import opened Text
  import opened Elf
  import opened ElfLaws
  import opened ElfDirs

  // ---------------------------------------------------------------------
  // The parts between the markers

  /** The parts with m between them. */
  function JoinBy(parts: seq<Bytes>, m: Bytes): Bytes
    requires parts != []
  {
    if |parts| == 1 then parts[0] else parts[0] + m + JoinBy(parts[1..], m)
  }

  /** No marker begins in the first n bytes of b. */
  predicate Unmarked(b: Bytes, n: nat)
    requires n <= |b|
  {
    forall i | 0 <= i < n :: !(Marker() <= b[i..])
  }

  /** The parts that markers cut bytes into, read from the left: behind each
      but the last the next marker follows, and the last has none. */
  predicate Cut(parts: seq<Bytes>) {
    && parts != []
    && (forall i | 0 <= i < |parts| - 1 :: Unmarked(parts[i] + Marker(), |parts[i]|))
    && Unmarked(parts[|parts| - 1], |parts[|parts| - 1]|)
  }

  lemma {:induction false} SubNone(newPrefix: Bytes, b: Bytes)
    requires Unmarked(b, |b|)
    ensures Sub(newPrefix, b) == b
    decreases |b|
  {
    hide Marker;
    if b != [] {
      assert b[0..] == b;
      forall i | 0 <= i < |b[1..]| ensures !(Marker() <= b[1..][i..]) {
        assert b[1..][i..] == b[i + 1..];
      }
      SubNone(newPrefix, b[1..]);
      HeadTail(b);
    }
  }

  lemma {:induction false} SubFirst(newPrefix: Bytes, a: Bytes, rest: Bytes)
    requires Unmarked(a + Marker(), |a|)
    ensures Sub(newPrefix, a + Marker() + rest) == a + newPrefix + Sub(newPrefix, rest)
    decreases |a|
  {
    hide Marker;
    var m := Marker();
    var b := a + m + rest;
    if a == [] {
      PlusEmpty(m);
      PlusEmpty(newPrefix);
      assert (m + rest)[|m|..] == rest;
    } else {
      var a' := a[1..];
      Ahead(a, rest);
      UnmarkedTail(a);
      SubFirst(newPrefix, a', rest);
      PlusTail(a, m);
      PlusTail(a + m, rest);
      hide Unmarked;
      HeadTail(a);
      Regroup([a[0]], a', newPrefix, Sub(newPrefix, rest));
      Assoc(a', newPrefix, Sub(newPrefix, rest));
    }
  }

  /** A path below the default directory moves below the new one. */
  lemma DefaultMoves(newPrefix: Bytes, path: Bytes)
    requires Unmarked(path, |path|)
    ensures Sub(newPrefix, Ascii("##DEFAULT_INSTALL_DIR##") + path) == newPrefix + path
  {
    SubFirst(newPrefix, [], path);
    SubNone(newPrefix, path);
    PlusEmpty(Marker());
    PlusEmpty(newPrefix);
  }

  lemma UnmarkedTail(a: Bytes)
    requires a != [] && Unmarked(a + Marker(), |a|)
    ensures Unmarked(a[1..] + Marker(), |a| - 1)
  {
    hide Marker;
    var m := Marker();
    forall i | 0 <= i < |a| - 1 ensures !(m <= (a[1..] + m)[i..]) {
      assert (a[1..] + m)[i..] == (a + m)[i + 1..];
    }
  }

  /** Whether a marker begins here does not depend on what follows the next one. */
  lemma Ahead(a: Bytes, rest: Bytes)
    requires a != [] && Unmarked(a + Marker(), |a|)
    ensures !(Marker() <= a + Marker() + rest)
  {
    hide Marker;
    var m := Marker();
    assert (a + m)[0..] == a + m;
    assert !(m <= (a + m)[0..]);
    assert (a + m + rest)[..|m|] == (a + m)[..|m|];
  }

  lemma CutTail(parts: seq<Bytes>)
    requires Cut(parts) && |parts| > 1
    ensures Cut(parts[1..]) && Unmarked(parts[0] + Marker(), |parts[0]|)
  {
    hide Unmarked;
    var more := parts[1..];
    forall i | 0 <= i < |more| - 1 ensures Unmarked(more[i] + Marker(), |more[i]|) {
      assert more[i] == parts[i + 1];
    }
  }

  /** All markers give way to the prefix. */
  lemma {:induction false} SubParts(newPrefix: Bytes, parts: seq<Bytes>)
    requires Cut(parts)
    ensures Sub(newPrefix, JoinBy(parts, Marker())) == JoinBy(parts, newPrefix)
    decreases |parts|
  {
    hide Sub, Marker, Unmarked;
    if |parts| == 1 {
      SubNone(newPrefix, parts[0]);
    } else {
      CutTail(parts);
      SubParts(newPrefix, parts[1..]);
      SubFirst(newPrefix, parts[0], JoinBy(parts[1..], Marker()));
    }
  }

  /** And any bytes are cut into parts. */
  lemma {:induction false} Parted(b: Bytes) returns (parts: seq<Bytes>)
    ensures Cut(parts) && b == JoinBy(parts, Marker())
    decreases |b|
  {
    var n := FirstMarker(b);
    hide Marker;
    var m := Marker();
    if n == |b| {
      parts := [b];
    } else {
      assert b == b[..n] + m + b[n + |m|..];
      var more := Parted(b[n + |m|..]);
      parts := [b[..n]] + more;
      CutCons(b[..n], more);
    }
  }

  /** Where the first marker begins, or the end. */
  lemma {:induction false} FirstMarker(b: Bytes) returns (n: nat)
    ensures n <= |b|
    ensures if n == |b| then Unmarked(b, |b|) else Marker() <= b[n..] && Unmarked(b[..n] + Marker(), n)
    decreases |b|
  {
    hide Marker;
    n := 0;
    while n < |b| && !(Marker() <= b[n..])
      invariant n <= |b| && forall i | 0 <= i < n :: !(Marker() <= b[i..])
    {
      n := n + 1;
    }
    if n < |b| {
      var m := Marker();
      forall i | 0 <= i < n ensures !(m <= (b[..n] + m)[i..]) {
        assert b[..n] + m == b[..n + |m|];
        assert b[..n + |m|][i..] <= b[i..];
      }
    }
  }

  lemma JoinCons(a: Bytes, more: seq<Bytes>, m: Bytes)
    requires more != []
    ensures JoinBy([a] + more, m) == a + m + JoinBy(more, m)
  {
    PlusTail([a], more);
    assert [a][1..] == [];
    PlusEmpty(more);
  }

  lemma CutCons(a: Bytes, more: seq<Bytes>)
    requires Cut(more) && Unmarked(a + Marker(), |a|)
    ensures Cut([a] + more) && JoinBy([a] + more, Marker()) == a + Marker() + JoinBy(more, Marker())
  {
    hide Unmarked, Marker, JoinBy;
    var parts := [a] + more;
    JoinCons(a, more, Marker());
    assert parts[|parts| - 1] == more[|more| - 1];
    forall i | 0 <= i < |parts| - 1 ensures Unmarked(parts[i] + Marker(), |parts[i]|) {
      assert i > 0 ==> parts[i] == more[i - 1];
    }
  }

  // ---------------------------------------------------------------------
  // A path with NULs behind it, as .ldsocache and the slots hold one

  lemma {:induction false} StripZeros(b: Bytes, n: nat)
    requires b == [] || b[|b| - 1] != 0
    ensures StripNul(b + Zeros(n)) == b
    decreases n
  {
    if n == 0 {
      PlusEmpty(b);
    } else {
      var all := b + Zeros(n);
      assert all[|all| - 1] == 0 && all[..|all| - 1] == b + Zeros(n - 1);
      StripZeros(b, n - 1);
    }
  }

  /** NULs make no marker. */
  lemma UnmarkedZeros(b: Bytes, n: nat)
    requires Unmarked(b, |b|)
    ensures Unmarked(b + Zeros(n), |b| + n)
  {
    hide Marker;
    var m, all := Marker(), b + Zeros(n);
    forall i | 0 <= i < |b| + n ensures !(m <= all[i..]) {
      if i + |m| <= |b| {
        assert all[i..][..|m|] == b[i..][..|m|];
        assert !(m <= b[i..]);
      } else if i + |m| <= |b| + n {
        assert all[i..][|m| - 1] == 0 && m[|m| - 1] in m;
      }
    }
  }

  lemma {:induction false} JoinByZeros(parts: seq<Bytes>, m: Bytes, n: nat)
    requires parts != []
    ensures var last := |parts| - 1;
            JoinBy(parts[last := parts[last] + Zeros(n)], m) == JoinBy(parts, m) + Zeros(n)
    decreases |parts|
  {
    var last := |parts| - 1;
    var longer := parts[last := parts[last] + Zeros(n)];
    if last > 0 {
      JoinByZeros(parts[1..], m, n);
      assert longer[1..] == parts[1..][last - 1 := parts[1..][last - 1] + Zeros(n)];
      Assoc(parts[0] + m, JoinBy(parts[1..], m), Zeros(n));
    }
  }

  /** The path that becomes of it, without the NULs. */
  lemma RewrittenIs(newPrefix: Bytes, parts: seq<Bytes>, n: nat)
    requires Cut(parts)
    requires var path := JoinBy(parts, newPrefix); path == [] || path[|path| - 1] != 0
    ensures Rewritten(newPrefix, JoinBy(parts, Marker()) + Zeros(n)) == JoinBy(parts, newPrefix)
  {
    hide Sub, Marker, StripNul;
    var last := |parts| - 1;
    var longer := parts[last := parts[last] + Zeros(n)];
    CutZeros(parts, n);
    JoinByZeros(parts, Marker(), n);
    JoinByZeros(parts, newPrefix, n);
    SubParts(newPrefix, longer);
    StripZeros(JoinBy(parts, newPrefix), n);
  }

  lemma CutZeros(parts: seq<Bytes>, n: nat)
    requires Cut(parts)
    ensures Cut(parts[|parts| - 1 := parts[|parts| - 1] + Zeros(n)])
  {
    hide Marker, Unmarked;
    UnmarkedZeros(parts[|parts| - 1], n);
  }

  // ---------------------------------------------------------------------
  // The strings of .sysdirs

  /** ps are strings, none of them empty. */
  predicate Dirs(ps: seq<Bytes>) {
    NulFree(ps) && [] !in ps
  }

  /** The paths of a section that holds ps, and then nothing or a NUL: all of
      them, each with its markers replaced. */
  lemma {:induction false} NewPathsAre(newPrefix: Bytes, ps: seq<Bytes>, rest: Bytes)
    requires Dirs(ps) && (rest == [] || rest[0] == 0)
    ensures var news := NewPaths(newPrefix, SplitNul(Strings(ps) + rest));
            && |news| == |ps|
            && forall i, parts | 0 <= i < |ps| && Cut(parts) && ps[i] == JoinBy(parts, Marker()) ::
                 news[i] == JoinBy(parts, newPrefix)
  {
    hide SplitNul, Sub, Marker, Unmarked, JoinBy, Strings;
    StringsSplit(ps, rest);
    EmptyNext(rest);
    NewPathsOf(newPrefix, ps, SplitNul(rest));
    forall i, parts | 0 <= i < |ps| && Cut(parts) && ps[i] == JoinBy(parts, Marker())
      ensures Sub(newPrefix, ps[i]) == JoinBy(parts, newPrefix)
    {
      SubParts(newPrefix, parts);
    }
  }

  lemma EmptyNext(rest: Bytes)
    requires rest == [] || rest[0] == 0
    ensures SplitNul(rest)[0] == []
  {
  }

  lemma {:induction false} NewPathsOf(newPrefix: Bytes, ps: seq<Bytes>, more: seq<Bytes>)
    requires [] !in ps && more != [] && more[0] == []
    ensures var news := NewPaths(newPrefix, ps + more);
            |news| == |ps| && forall i | 0 <= i < |ps| :: news[i] == Sub(newPrefix, ps[i])
    decreases |ps|
  {
    hide Sub;
    if ps == [] {
      PlusEmpty(more);
    } else {
      PlusTail(ps, more);
      NewPathsOf(newPrefix, ps[1..], more);
      assert ps[0] in ps;
      assert forall i | 0 < i < |ps| :: ps[i] == ps[1..][i - 1];
    }
  }

  // ---------------------------------------------------------------------
  // The file

  /** The contents of a relocated file, by the parts between the markers of the
      original: a .ldsocache, each slot of a .gccrelocprefix, and a .sysdirs. */
  lemma RelocatedPaths(arch: Arch, data: Bytes, newPrefix: Bytes, newDlPath: Bytes, s: Option<Segment>, strtab: Bytes,
                       secs: seq<Section>, j: nat, parts: seq<Bytes>, n: nat)
    requires |data| >= 64 && j < |secs| && Cut(parts)
    requires var h := HeaderOf(arch, data[..64]);
             && FindInterp(arch, h, data, 0) == Ok(s) && (s.Some? ==> InterpApart(arch, h, data, s.value, secs))
             && StrTab(arch, h, data) == Some(strtab) && Laid(arch, h, data, strtab, secs) && Separate(h, data, secs)
    requires AllDirsFit(arch, newPrefix, data, secs) && Relocated(arch, data, newPrefix, newDlPath).1 == None
    requires var path := JoinBy(parts, newPrefix); path == [] || path[|path| - 1] != 0
    ensures var d := Relocated(arch, data, newPrefix, newDlPath).0;
            var now, was, path := Region(d, secs[j]), Region(data, secs[j]), JoinBy(parts, newPrefix);
            var old' := JoinBy(parts, Marker()) + Zeros(n);
            && (KindOf(secs[j]) == LdSoCache && was == old' ==> now == Padded(path, |was|))
            && (KindOf(secs[j]) == GccRelocPrefix ==>
                  forall p: nat | p % 4096 == 0 && p + 4096 <= |was| && was[p..p + 4096] == old' ::
                    |now| == |was| && now[p..p + 4096] == Padded(path, 4096))
  {
    hide KindOf, HeaderOf, StrTab, Laid, Separate, FindInterp, InterpApart, AllDirsFit, Relocated, Region, Marker, Cut;
    hide JoinBy, Rewritten, Outside, WithInterp, ReadAt, Padded;
    RelocationIs(arch, data, newPrefix, newDlPath, s, strtab, secs);
    RewrittenIs(newPrefix, parts, n);
    var was := Region(data, secs[j]);
    if KindOf(secs[j]) == GccRelocPrefix {
      forall p: nat | p % 4096 == 0 && p + 4096 <= |was|
        ensures SlotsFit(newPrefix, was) &&
                SlotsOf(newPrefix, was)[p..p + 4096] == Padded(Rewritten(newPrefix, was[p..p + 4096]), 4096)
      {
        SlotIs(newPrefix, was, p);
      }
    }
  }

  /** And the strings of .sysdirs with their lengths. */
  lemma RelocatedDirs(arch: Arch, data: Bytes, newPrefix: Bytes, newDlPath: Bytes, s: Option<Segment>, strtab: Bytes,
                      secs: seq<Section>, a: nat, b: nat, ps: seq<Bytes>, rest: Bytes)
    returns (news: seq<Bytes>)
    requires |data| >= 64
    requires var h := HeaderOf(arch, data[..64]);
             && FindInterp(arch, h, data, 0) == Ok(s) && (s.Some? ==> InterpApart(arch, h, data, s.value, secs))
             && StrTab(arch, h, data) == Some(strtab) && Laid(arch, h, data, strtab, secs) && Separate(h, data, secs)
    requires AllDirsFit(arch, newPrefix, data, secs) && Relocated(arch, data, newPrefix, newDlPath).1 == None
    requires Last(secs, 0, a, SysDirs) && Last(secs, 0, b, SysDirsLen)
    requires Dirs(ps) && (rest == [] || rest[0] == 0) && Region(data, secs[a]) == Strings(ps) + rest
    ensures |news| == |ps|
    ensures forall i, parts | 0 <= i < |ps| && Cut(parts) && ps[i] == JoinBy(parts, Marker()) ::
              news[i] == JoinBy(parts, newPrefix)
    ensures var d := Relocated(arch, data, newPrefix, newDlPath).0;
            && Region(d, secs[a]) == Padded(Strings(news), secs[a].size)
            && Total(WordSize(arch), |ps|) <= |Region(d, secs[b])|
            && Numbers(WordSize(arch), |ps|, Region(d, secs[b])) == Sizes(news)
  {
    hide KindOf, HeaderOf, StrTab, Laid, Separate, FindInterp, InterpApart, AllDirsFit, Relocated, Region, Marker, Cut;
    hide JoinBy, Outside, WithInterp, ReadAt, Padded, SplitNul, NewPaths, Strings, Lengths, Numbers, Total, Packable;
    RelocationIs(arch, data, newPrefix, newDlPath, s, strtab, secs);
    NewPathsAre(newPrefix, ps, rest);
    news := PathsOf(newPrefix, data, secs[a]);
    var d := Relocated(arch, data, newPrefix, newDlPath).0;
    var lens := Lengths(WordSize(arch), news);
    assert SectionsRelocated(arch, newPrefix, data, d, secs, a, b);
    assert lens + Region(d, secs[b])[|lens|..] == Region(d, secs[b]);
    LengthsRead(arch, news, Region(d, secs[b])[|lens|..]);
  }
}
