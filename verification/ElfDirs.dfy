/** The library directories of the dynamic loader and their lengths, and what
    relocating a whole file keeps. */
module ElfDirs {
  import opened Text
  import opened Elf
  import opened ElfLaws

  // ---------------------------------------------------------------------
  // Numbers and strings read back

  lemma {:induction false} PackedWord(n: nat, w: nat)
    requires n < Limit(w)
    ensures Word(Pack(n, w)) == n
  {
    if w > 0 {
      PackedWord(n / 256, w - 1);
      PlusTail([n % 256], Pack(n / 256, w - 1));
    }
  }

  /** How many bytes count numbers take. */
  function Total(w: nat, count: nat): nat {
    if count == 0 then 0 else w + Total(w, count - 1)
  }

  /** The first count numbers of w bytes each. */
  function Numbers(w: nat, count: nat, b: Bytes): seq<nat>
    requires Total(w, count) <= |b|
  {
    if count == 0 then [] else [Word(b[..w])] + Numbers(w, count - 1, b[w..])
  }

  function Sizes(paths: seq<Bytes>): seq<nat> {
    if paths == [] then [] else [|paths[0]|] + Sizes(paths[1..])
  }

  lemma {:induction false} LengthsTotal(w: nat, paths: seq<Bytes>)
    ensures |Lengths(w, paths)| == Total(w, |paths|)
  {
    if paths != [] {
      LengthsTotal(w, paths[1..]);
    }
  }

  lemma {:induction false} LengthsRead(arch: Arch, paths: seq<Bytes>, rest: Bytes)
    requires Packable(arch, paths)
    ensures var w := WordSize(arch);
            Total(w, |paths|) <= |Lengths(w, paths) + rest|
                && Numbers(w, |paths|, Lengths(w, paths) + rest) == Sizes(paths)
    decreases |paths|
  {
    hide Limit, Pack, Word;
    var w := WordSize(arch);
    LengthsTotal(w, paths);
    if paths != [] {
      var first, more := Pack(|paths[0]|, w), Lengths(w, paths[1..]);
      PackedWord(|paths[0]|, w);
      LengthsRead(arch, paths[1..], rest);
      Assoc(first, more, rest);
      CutAt(first, more + rest);
      LengthsTotal(w, paths[1..]);
    }
  }

  lemma CutAt(a: Bytes, b: Bytes)
    ensures (a + b)[..|a|] == a && (a + b)[|a|..] == b
  {
  }

  predicate NulFree(paths: seq<Bytes>) {
    forall p | p in paths :: 0 !in p
  }

  lemma {:induction false} UpToNulIs(p: Bytes, rest: Bytes)
    requires 0 !in p && (rest == [] || rest[0] == 0)
    ensures UpToNul(p + rest) == |p|
  {
    if p == [] {
      PlusEmpty(rest);
    } else {
      PlusTail(p, rest);
      UpToNulIs(p[1..], rest);
    }
  }

  lemma SplitNulAt(p: Bytes, rest: Bytes)
    requires 0 !in p
    ensures SplitNul(p + [0] + rest) == [p] + SplitNul(rest)
  {
    Assoc(p, [0], rest);
    UpToNulIs(p, [0] + rest);
    CutAt(p, [0] + rest);
    CutAt(p + [0], rest);
  }

  /** The strings of a section written by change_dl_sysdirs, split at NULs. */
  lemma {:induction false} StringsSplit(paths: seq<Bytes>, rest: Bytes)
    requires NulFree(paths)
    ensures SplitNul(Strings(paths) + rest) == paths + SplitNul(rest)
    decreases |paths|
  {
    hide SplitNul;
    if paths == [] {
      PlusEmpty(rest);
      PlusEmpty(SplitNul(rest));
    } else {
      var p, more := paths[0], Strings(paths[1..]);
      StringsSplit(paths[1..], rest);
      Assoc(p + [0], more, rest);
      SplitNulAt(p, more + rest);
      Assoc([p], paths[1..], SplitNul(rest));
      HeadTail(paths);
    }
  }

  lemma {:induction false} SplitNulFree(b: Bytes)
    ensures NulFree(SplitNul(b))
    decreases |b|
  {
    var n := UpToNul(b);
    if n < |b| {
      SplitNulFree(b[n + 1..]);
    }
  }

  lemma {:induction false} SubFree(newPrefix: Bytes, b: Bytes)
    requires 0 !in newPrefix && 0 !in b
    ensures 0 !in Sub(newPrefix, b)
    decreases |b|
  {
    if b != [] {
      if Marker() <= b {
        SubFree(newPrefix, b[|Marker()|..]);
      } else {
        SubFree(newPrefix, b[1..]);
      }
    }
  }

  lemma {:induction false} NewPathsFree(newPrefix: Bytes, paths: seq<Bytes>)
    requires 0 !in newPrefix && NulFree(paths)
    ensures NulFree(NewPaths(newPrefix, paths))
    decreases |paths|
  {
    hide Sub;
    if paths != [] {
      SubFree(newPrefix, paths[0]);
      NewPathsFree(newPrefix, paths[1..]);
    }
  }

  // ---------------------------------------------------------------------
  // What the loop has remembered

  /** a is the last section of its kind, from i on. */
  predicate Last(secs: seq<Section>, i: nat, a: nat, kind: Kind) {
    i <= a < |secs| && KindOf(secs[a]) == kind && forall j | a < j < |secs| :: KindOf(secs[j]) != kind
  }

  predicate Lacks(secs: seq<Section>, i: nat, kind: Kind) {
    forall j | i <= j < |secs| :: KindOf(secs[j]) != kind
  }

  lemma {:induction false} RememberedDirs(data: Bytes, secs: seq<Section>, i: nat, found: Found)
    requires i <= |secs|
    ensures var r := Remembered(data, secs, i, found);
            && (Lacks(secs, i, SysDirs) ==> r.sysdirs == found.sysdirs && r.off == found.off && r.size == found.size)
            && (forall a: nat | Last(secs, i, a, SysDirs) ::
               r.sysdirs == Some(Region(data, secs[a])) && r.off == secs[a].offset && r.size == secs[a].size)
    decreases |secs| - i
  {
    hide KindOf, Region;
    if i < |secs| {
      var found' := Recall(data, found, secs[i]);
      RememberedDirs(data, secs, i + 1, found');
      forall a: nat | Last(secs, i, a, SysDirs)
        ensures var r := Remembered(data, secs, i, found);
                r.sysdirs == Some(Region(data, secs[a])) && r.off == secs[a].offset && r.size == secs[a].size
      {
        if a > i {
          assert Last(secs, i + 1, a, SysDirs);
        } else {
          assert Lacks(secs, i + 1, SysDirs);
        }
      }
    }
  }

  lemma {:induction false} RememberedLen(data: Bytes, secs: seq<Section>, i: nat, found: Found)
    requires i <= |secs|
    ensures var r := Remembered(data, secs, i, found);
            && (Lacks(secs, i, SysDirsLen) ==> r.lenOff == found.lenOff)
            && (forall b: nat | Last(secs, i, b, SysDirsLen) :: r.lenOff == Some(secs[b].offset))
    decreases |secs| - i
  {
    hide KindOf, Region;
    if i < |secs| {
      var found' := Recall(data, found, secs[i]);
      RememberedLen(data, secs, i + 1, found');
      forall b: nat | Last(secs, i, b, SysDirsLen)
        ensures Remembered(data, secs, i, found).lenOff == Some(secs[b].offset) {
        if b > i {
          assert Last(secs, i + 1, b, SysDirsLen);
        } else {
          assert Lacks(secs, i + 1, SysDirsLen);
        }
      }
    }
  }

  // ---------------------------------------------------------------------
  // change_dl_sysdirs

  /** Byte k lies in no section that change_dl_sysdirs knows. */
  predicate Outside(secs: seq<Section>, k: nat) {
    forall j | 0 <= j < |secs| && Named(secs[j]) :: !(secs[j].offset <= k < secs[j].offset + secs[j].size)
  }

  /** From data to d the two sections hold the paths and their lengths, and nothing else has changed. */
  predicate DirsWritten(w: nat, data: Bytes, d: Bytes, sa: Section, sb: Section, paths: seq<Bytes>) {
    && |d| == |data|
    && (forall k | 0 <= k < |data| && !(sa.offset <= k < sa.offset + sa.size)
       && !(sb.offset <= k < sb.offset + sb.size) :: d[k] == data[k])
    && Region(d, sa) == Padded(Strings(paths), sa.size)
    && Lengths(w, paths) <= Region(d, sb)
  }

  lemma DirsAre(arch: Arch, newPrefix: Bytes, data: Bytes, found: Found, sa: Section, sb: Section)
    requires sa.offset + sa.size <= |data| && sb.offset + sb.size <= |data|
    requires Disjoint(sa.offset, sa.size, sb.offset, sb.size)
    requires found.sysdirs.Some? && found.off == sa.offset && found.size == sa.size && found.lenOff == Some(sb.offset)
    ensures var paths := NewPaths(newPrefix, SplitNul(found.sysdirs.value));
            var (d, err) := SysDirsChanged(arch, newPrefix, data, found);
            && (err == None <==> Packable(arch, paths))
            && (err.Some? ==> err == Some(StructError))
            && (err == None && |Strings(paths)| <= sa.size && |Lengths(WordSize(arch), paths)| <= sb.size ==>
                  DirsWritten(WordSize(arch), data, d, sa, sb, paths))
  {
    hide NewPaths, SplitNul, Strings, Lengths, Packable, Splice, WriteAt, ReadAt;
    var paths := NewPaths(newPrefix, SplitNul(found.sysdirs.value));
    var dirs, lens := Padded(Strings(paths), sa.size), Lengths(WordSize(arch), paths);
    if Packable(arch, paths) && |Strings(paths)| <= sa.size && |lens| <= sb.size {
      WriteSplices(data, sa.offset, dirs);
      var d := Splice(data, sa.offset, dirs);
      WriteSplices(d, sb.offset, lens);
      TwoSplices(data, sa, sb, dirs, lens);
    }
  }

  lemma ReadLess(data: Bytes, p: nat, m: nat, n: nat)
    requires m <= n && p + n <= |data|
    ensures ReadAt(data, p, m) <= ReadAt(data, p, n)
  {
  }

  lemma TwoSplices(data: Bytes, sa: Section, sb: Section, dirs: Bytes, lens: Bytes)
    requires sa.offset + sa.size <= |data| && sb.offset + sb.size <= |data|
    requires Disjoint(sa.offset, sa.size, sb.offset, sb.size)
    requires |dirs| == sa.size && |lens| <= sb.size
    ensures var d := Splice(Splice(data, sa.offset, dirs), sb.offset, lens);
            && (forall k | 0 <= k < |data| && !(sa.offset <= k < sa.offset + sa.size)
               && !(sb.offset <= k < sb.offset + sb.size) :: d[k] == data[k])
            && Region(d, sa) == dirs && lens <= Region(d, sb)
  {
    hide Splice;
    var d1 := Splice(data, sa.offset, dirs);
    var d := Splice(d1, sb.offset, lens);
    forall k | 0 <= k < |data|
      ensures !(sa.offset <= k < sa.offset + sa.size) && !(sb.offset <= k < sb.offset + sb.size) ==> d[k] == data[k]
      ensures sb.offset <= k < sb.offset + |lens| ==> d[k] == lens[k - sb.offset]
    {
      SpliceAt(data, sa.offset, dirs, k);
      SpliceAt(d1, sb.offset, lens, k);
    }
    ReadSpliced(data, sa.offset, dirs);
    ReadApart(d1, sb.offset, lens, sa.offset, sa.size);
    ReadSpliced(d1, sb.offset, lens);
    ReadLess(d, sb.offset, |lens|, sb.size);
  }

  /** The rewritten paths that the two sections should hold. */
  function PathsOf(newPrefix: Bytes, data: Bytes, s: Section): seq<Bytes> {
    NewPaths(newPrefix, SplitNul(Region(data, s)))
  }

  /** Paths and lengths fit their sections, which the code does not check. */
  predicate DirsFit(arch: Arch, sa: Section, sb: Section, paths: seq<Bytes>) {
    |Strings(paths)| <= sa.size && |Lengths(WordSize(arch), paths)| <= sb.size
  }

  /** The sections of data, as they should be in d. */
  predicate SectionsRelocated(arch: Arch, newPrefix: Bytes, data: Bytes, d: Bytes, secs: seq<Section>, a: nat, b: nat)
    requires a < |secs| && b < |secs|
  {
    && (forall j | 0 <= j < |secs| && KindOf(secs[j]) in {LdSoCache, GccRelocPrefix} ::
          Fits(newPrefix, KindOf(secs[j]), Region(data, secs[j]))
              && Region(d, secs[j]) == After(newPrefix, KindOf(secs[j]), Region(data, secs[j])))
    && Region(d, secs[a]) == Padded(Strings(PathsOf(newPrefix, data, secs[a])), secs[a].size)
    && Lengths(WordSize(arch), PathsOf(newPrefix, data, secs[a])) <= Region(d, secs[b])
  }

  /** For a dynamic loader with both sections, the last of each kind if there
      are several: when the call fails, and what it leaves when it does not. */
  lemma DlSysDirsAre(arch: Arch, h: Header, data: Bytes, newPrefix: Bytes, strtab: Bytes, secs: seq<Section>, a: nat,
                     b: nat)
    requires StrTab(arch, h, data) == Some(strtab) && Laid(arch, h, data, strtab, secs) && Separate(h, data, secs)
    requires Last(secs, 0, a, SysDirs) && Last(secs, 0, b, SysDirsLen)
    ensures var paths := PathsOf(newPrefix, data, secs[a]);
            var (d, err) := DlSysDirsChanged(arch, h, data, newPrefix);
            && (err == None <==> AllFit(newPrefix, data, secs, 0) && Packable(arch, paths))
            && (err == None && DirsFit(arch, secs[a], secs[b], paths) ==>
                  && |d| == |data|
                  && (forall k | 0 <= k < |data| && Outside(secs, k) :: d[k] == data[k])
                  && SectionsRelocated(arch, newPrefix, data, d, secs, a, b))
  {
    hide KindOf, Fits, After, SectionsChanged, Laid, NewPaths, SplitNul, Packable, Strings, Lengths, Region;
    hide SysDirsChanged, StrTab, SectionPos;
    var (d1, found, err) := SectionsChanged(arch, h, strtab, newPrefix, data, NOTHING, 0);
    RoundsAre(arch, h, strtab, newPrefix, data, secs, NOTHING, 0);
    if err == None {
      RememberedDirs(data, secs, 0, NOTHING);
      RememberedLen(data, secs, 0, NOTHING);
      ApartKinds(h, data, secs, a, b);
      DirsAre(arch, newPrefix, d1, found, secs[a], secs[b]);
      var paths := PathsOf(newPrefix, data, secs[a]);
      if Packable(arch, paths) && DirsFit(arch, secs[a], secs[b], paths) {
        Assembled(arch, h, newPrefix, data, d1, SysDirsChanged(arch, newPrefix, d1, found).0, secs, a, b, paths);
      }
    }
  }

  lemma ApartKinds(h: Header, data: Bytes, secs: seq<Section>, a: nat, b: nat)
    requires Separate(h, data, secs) && a < |secs| && b < |secs| && Named(secs[a]) && Named(secs[b]) && a != b
    ensures secs[a].offset + secs[a].size <= |data|
            && Disjoint(secs[a].offset, secs[a].size, secs[b].offset, secs[b].size)
  {
    hide KindOf, SectionPos;
    if b < a {
      assert Disjoint(secs[b].offset, secs[b].size, secs[a].offset, secs[a].size);
    }
  }

  /** The rounds lead from data to d1, the last two writes from there to d. */
  lemma Assembled(arch: Arch, h: Header, newPrefix: Bytes, data: Bytes, d1: Bytes, d: Bytes, secs: seq<Section>, a: nat,
                  b: nat, paths: seq<Bytes>)
    requires Separate(h, data, secs) && Rewrote(newPrefix, data, d1, secs, 0)
    requires Last(secs, 0, a, SysDirs) && Last(secs, 0, b, SysDirsLen)
    requires DirsWritten(WordSize(arch), d1, d, secs[a], secs[b], paths)
    ensures |d| == |data|
    ensures forall k | 0 <= k < |data| && Outside(secs, k) :: d[k] == data[k]
    ensures forall j | 0 <= j < |secs| && KindOf(secs[j]) in {LdSoCache, GccRelocPrefix} ::
              Fits(newPrefix, KindOf(secs[j]), Region(data, secs[j]))
                  && Region(d, secs[j]) == After(newPrefix, KindOf(secs[j]), Region(data, secs[j]))
  {
    hide KindOf, Fits, After, Strings, Lengths, Region, SectionPos;
    forall k | 0 <= k < |data| && Outside(secs, k) ensures d[k] == data[k] {
      assert Untouched(secs, 0, k);
    }
    forall j | 0 <= j < |secs| && KindOf(secs[j]) in {LdSoCache, GccRelocPrefix}
      ensures Region(d, secs[j]) == Region(d1, secs[j])
    {
      ApartKinds(h, data, secs, j, a);
      ApartKinds(h, data, secs, j, b);
      RegionKept(d1, d, secs[j]);
    }
  }

  /** Without .sysdirs nothing is written at the end; with it but without
      .sysdirslen the function fails, having rewritten the other sections. */
  lemma DlSysDirsPartial(arch: Arch, h: Header, data: Bytes, newPrefix: Bytes, strtab: Bytes, secs: seq<Section>)
    requires StrTab(arch, h, data) == Some(strtab) && Laid(arch, h, data, strtab, secs) && Separate(h, data, secs)
    requires AllFit(newPrefix, data, secs, 0)
    ensures var (d, err) := DlSysDirsChanged(arch, h, data, newPrefix);
            && (Lacks(secs, 0, SysDirs) ==> err == None && Rewrote(newPrefix, data, d, secs, 0))
            && (forall a: nat | Last(secs, 0, a, SysDirs) && Lacks(secs, 0, SysDirsLen) ::
                  err == Some(UnboundLocalError) && Rewrote(newPrefix, data, d, secs, 0))
  {
    hide KindOf, SectionsChanged, Laid, NewPaths, SplitNul, Packable, Strings, Lengths, Region, StrTab, SectionPos;
    hide Rewrote;
    RoundsAre(arch, h, strtab, newPrefix, data, secs, NOTHING, 0);
    RememberedDirs(data, secs, 0, NOTHING);
    RememberedLen(data, secs, 0, NOTHING);
  }

  lemma {:induction false} LastOrLacks(secs: seq<Section>, kind: Kind, n: nat) returns (a: nat)
    requires n <= |secs| && forall j | n <= j < |secs| :: KindOf(secs[j]) != kind
    ensures Last(secs, 0, a, kind) || Lacks(secs, 0, kind)
  {
    hide KindOf;
    a := 0;
    if n > 0 {
      if KindOf(secs[n - 1]) == kind {
        a := n - 1;
      } else {
        a := LastOrLacks(secs, kind, n - 1);
      }
    }
  }

  /** Every failure of the function, whichever sections there are: it exits
      exactly if some path does not fit its slot; the variable it has not
      initialised stops it exactly if they fit and there is a .sysdirs but no
      .sysdirslen; and packing exactly if both are there and a length is too large. */
  lemma DlSysDirsErrors(arch: Arch, h: Header, data: Bytes, newPrefix: Bytes, strtab: Bytes, secs: seq<Section>)
    requires StrTab(arch, h, data) == Some(strtab) && Laid(arch, h, data, strtab, secs) && Separate(h, data, secs)
    ensures var err := DlSysDirsChanged(arch, h, data, newPrefix).1;
            var fit := AllFit(newPrefix, data, secs, 0);
            && (err == Some(Exit) <==> !fit)
            && (err == Some(UnboundLocalError) <==> fit && !Lacks(secs, 0, SysDirs) && Lacks(secs, 0, SysDirsLen))
            && (err == Some(StructError) <==>
                  && fit && !Lacks(secs, 0, SysDirsLen)
                  && exists a: nat :: Last(secs, 0, a, SysDirs) && !Packable(arch, PathsOf(newPrefix, data, secs[a])))
  {
    hide KindOf, SectionsChanged, Laid, NewPaths, SplitNul, Packable, Strings, Lengths, Region, StrTab, SectionPos;
    hide Separate, AllFit, Rewrote;
    RoundsAre(arch, h, strtab, newPrefix, data, secs, NOTHING, 0);
    RememberedDirs(data, secs, 0, NOTHING);
    RememberedLen(data, secs, 0, NOTHING);
    var a := LastOrLacks(secs, SysDirs, |secs|);
    var b := LastOrLacks(secs, SysDirsLen, |secs|);
  }

  /** After a relocation whose paths fit, the i-th word of .sysdirslen is the
      length of the i-th NUL-separated string of .sysdirs, and those strings
      are the rewritten paths. */
  lemma LengthsMatchStrings(arch: Arch, h: Header, data: Bytes, newPrefix: Bytes, strtab: Bytes, secs: seq<Section>,
                            a: nat, b: nat)
    requires StrTab(arch, h, data) == Some(strtab) && Laid(arch, h, data, strtab, secs) && Separate(h, data, secs)
    requires Last(secs, 0, a, SysDirs) && Last(secs, 0, b, SysDirsLen) && 0 !in newPrefix
    requires DlSysDirsChanged(arch, h, data, newPrefix).1 == None
    requires DirsFit(arch, secs[a], secs[b], PathsOf(newPrefix, data, secs[a]))
    ensures var paths := PathsOf(newPrefix, data, secs[a]);
            var d := DlSysDirsChanged(arch, h, data, newPrefix).0;
            && paths <= SplitNul(Region(d, secs[a]))
            && Total(WordSize(arch), |paths|) <= |Region(d, secs[b])|
            && Numbers(WordSize(arch), |paths|, Region(d, secs[b])) == Sizes(paths)
  {
    hide KindOf, DlSysDirsChanged, Laid, Separate, NewPaths, SplitNul, Packable, Strings, Lengths, Region, StrTab;
    hide Numbers, Total, AllFit, Padded;
    DlSysDirsAre(arch, h, data, newPrefix, strtab, secs, a, b);
    var paths := PathsOf(newPrefix, data, secs[a]);
    var d := DlSysDirsChanged(arch, h, data, newPrefix).0;
    SplitNulFree(Region(data, secs[a]));
    NewPathsFree(newPrefix, SplitNul(Region(data, secs[a])));
    PadRest(Strings(paths), secs[a].size);
    StringsSplit(paths, Padded(Strings(paths), secs[a].size)[|Strings(paths)|..]);
    var lens := Lengths(WordSize(arch), paths);
    var rest := Region(d, secs[b])[|lens|..];
    assert lens + rest == Region(d, secs[b]);
    LengthsRead(arch, paths, rest);
  }

  lemma PadRest(b: Bytes, n: nat)
    ensures b + Padded(b, n)[|b|..] == Padded(b, n)
  {
  }

  // ---------------------------------------------------------------------
  // The overflow that is not checked

  lemma WriteSize(data: Bytes, p: nat, b: Bytes)
    ensures |WriteAt(data, p, b)| == if b == [] || p + |b| <= |data| then |data| else p + |b|
  {
  }

  /** change_dl_sysdirs keeps the size of the file exactly if the rewritten
      paths fit their section, or at least the file, and so do the lengths. */
  lemma DlSysDirsKeepSizeIff(arch: Arch, h: Header, data: Bytes, newPrefix: Bytes, strtab: Bytes, secs: seq<Section>,
                             a: nat, b: nat)
    requires StrTab(arch, h, data) == Some(strtab) && Laid(arch, h, data, strtab, secs) && Separate(h, data, secs)
    requires Last(secs, 0, a, SysDirs) && Last(secs, 0, b, SysDirsLen)
    requires DlSysDirsChanged(arch, h, data, newPrefix).1 == None
    ensures var paths := PathsOf(newPrefix, data, secs[a]);
            var lens := Lengths(WordSize(arch), paths);
            |DlSysDirsChanged(arch, h, data, newPrefix).0| == |data| <==>
            && (|Strings(paths)| <= secs[a].size || secs[a].offset + |Strings(paths)| <= |data|)
            && (paths == [] || secs[b].offset + |lens| <= |data|)
  {
    hide KindOf, SectionsChanged, Laid, NewPaths, SplitNul, Packable, Strings, Lengths, Region, StrTab, SectionPos;
    hide WriteAt, AllFit;
    var (d1, found, err) := SectionsChanged(arch, h, strtab, newPrefix, data, NOTHING, 0);
    RoundsAre(arch, h, strtab, newPrefix, data, secs, NOTHING, 0);
    RememberedDirs(data, secs, 0, NOTHING);
    RememberedLen(data, secs, 0, NOTHING);
    ApartKinds(h, data, secs, a, b);
    var paths := PathsOf(newPrefix, data, secs[a]);
    var dirs, lens := Padded(Strings(paths), secs[a].size), Lengths(WordSize(arch), paths);
    LengthsNone(arch, paths);
    WriteSize(d1, secs[a].offset, dirs);
    WriteSize(WriteAt(d1, secs[a].offset, dirs), secs[b].offset, lens);
  }

  lemma LengthsNone(arch: Arch, paths: seq<Bytes>)
    ensures Lengths(WordSize(arch), paths) == [] <==> paths == []
  {
    hide Pack;
  }

  // ---------------------------------------------------------------------
  // The whole file

  /** The interpreter of segment s lies in the file, apart from the section
      headers, the section names and the named sections. */
  ghost predicate InterpApart(arch: Arch, h: Header, data: Bytes, s: Segment, secs: seq<Section>) {
    && s.offset + s.filesz <= |data|
    && (forall k: nat | k < h.shnum || k == h.shstrndx ::
          SectionPos(h, k) + h.shentsize <= |data| && Disjoint(s.offset, s.filesz, SectionPos(h, k), h.shentsize))
    && (forall i | 0 <= i < |secs| && Named(secs[i]) :: Disjoint(s.offset, s.filesz, secs[i].offset, secs[i].size))
    && |SectionBytes(h, data, h.shstrndx)| == SectionSize(arch)
    && var names := SectionOf(arch, SectionBytes(h, data, h.shstrndx), []);
       names.offset + names.size <= |data| && Disjoint(s.offset, s.filesz, names.offset, names.size)
  }

  /** Setting the interpreter leaves the sections where and what they are. */
  lemma InterpKeepsSections(arch: Arch, h: Header, data: Bytes, s: Segment, newDlPath: Bytes, strtab: Bytes,
                            secs: seq<Section>)
    requires StrTab(arch, h, data) == Some(strtab) && Laid(arch, h, data, strtab, secs) && Separate(h, data, secs)
    requires InterpApart(arch, h, data, s, secs)
    ensures var d := WithInterp(data, s, newDlPath);
            && |d| == |data|
            && StrTab(arch, h, d) == Some(strtab) && Laid(arch, h, d, strtab, secs) && Separate(h, d, secs)
            && (forall j | 0 <= j < |secs| && Named(secs[j]) :: Region(d, secs[j]) == Region(data, secs[j]))
            && (forall k | 0 <= k < |data| && !(s.offset <= k < s.offset + s.filesz) :: d[k] == data[k])
  {
    hide WithInterp, KindOf, SectionOf, SectionPos, ReadAt, Padded, Precompiled, Splice;
    InterpIs(data, s, newDlPath);
    var d := WithInterp(data, s, newDlPath);
    if d != data {
      var b := Padded(newDlPath, s.filesz);
      forall k: nat | k < h.shnum || k == h.shstrndx ensures SectionBytes(h, d, k) == SectionBytes(h, data, k) {
        ReadApart(data, s.offset, b, SectionPos(h, k), h.shentsize);
      }
      var names := SectionOf(arch, SectionBytes(h, data, h.shstrndx), []);
      ReadApart(data, s.offset, b, names.offset, names.size);
      forall j | 0 <= j < |secs| && Named(secs[j]) ensures Region(d, secs[j]) == Region(data, secs[j]) {
        ReadApart(data, s.offset, b, secs[j].offset, secs[j].size);
      }
    }
  }

  lemma InterpStays(d1: Bytes, d: Bytes, s: Segment, secs: seq<Section>)
    requires s.offset + s.filesz <= |d1| && |d| == |d1|
    requires forall i | 0 <= i < |secs| && Named(secs[i]) :: Disjoint(s.offset, s.filesz, secs[i].offset, secs[i].size)
    requires forall k | 0 <= k < |d1| && Outside(secs, k) :: d[k] == d1[k]
    ensures ReadAt(d, s.offset, s.filesz) == ReadAt(d1, s.offset, s.filesz)
  {
    hide KindOf;
    forall k | s.offset <= k < s.offset + s.filesz ensures d[k] == d1[k] {
      assert Outside(secs, k);
    }
    assert d[s.offset..s.offset + s.filesz] == d1[s.offset..s.offset + s.filesz];
  }

  predicate AllDirsFit(arch: Arch, newPrefix: Bytes, data: Bytes, secs: seq<Section>) {
    forall a, b | 0 <= a < |secs| && 0 <= b < |secs| && Last(secs, 0, a, SysDirs) && Last(secs, 0, b, SysDirsLen) ::
      DirsFit(arch, secs[a], secs[b], PathsOf(newPrefix, data, secs[a]))
  }

  /** What makes change_dl_sysdirs succeed: paths that fit their slots, and
      with .sysdirs a .sysdirslen and lengths that can be packed. */
  ghost predicate Passes(arch: Arch, newPrefix: Bytes, data: Bytes, secs: seq<Section>) {
    && AllFit(newPrefix, data, secs, 0)
    && (Lacks(secs, 0, SysDirs) || !Lacks(secs, 0, SysDirsLen))
    && (forall a: nat | Last(secs, 0, a, SysDirs) :: Packable(arch, PathsOf(newPrefix, data, secs[a])))
  }

  /** The sections of data, whichever there are, as they should be in d. */
  ghost predicate AllRelocated(arch: Arch, newPrefix: Bytes, data: Bytes, d: Bytes, secs: seq<Section>) {
    && (forall j | 0 <= j < |secs| && KindOf(secs[j]) in {LdSoCache, GccRelocPrefix} ::
          Fits(newPrefix, KindOf(secs[j]), Region(data, secs[j]))
              && Region(d, secs[j]) == After(newPrefix, KindOf(secs[j]), Region(data, secs[j])))
    && (forall a: nat, b: nat | Last(secs, 0, a, SysDirs) && Last(secs, 0, b, SysDirsLen) ::
          SectionsRelocated(arch, newPrefix, data, d, secs, a, b))
    && (Lacks(secs, 0, SysDirs) ==> forall j | 0 <= j < |secs| && KindOf(secs[j]) == SysDirsLen ::
          Region(d, secs[j]) == Region(data, secs[j]))
  }

  lemma DlSysDirsPass(arch: Arch, h: Header, data: Bytes, newPrefix: Bytes, strtab: Bytes, secs: seq<Section>)
    requires StrTab(arch, h, data) == Some(strtab) && Laid(arch, h, data, strtab, secs) && Separate(h, data, secs)
    ensures DlSysDirsChanged(arch, h, data, newPrefix).1 == None <==> Passes(arch, newPrefix, data, secs)
  {
    hide KindOf, StrTab, Laid, Separate, DlSysDirsChanged, AllFit, Packable, PathsOf;
    DlSysDirsErrors(arch, h, data, newPrefix, strtab, secs);
    var err := DlSysDirsChanged(arch, h, data, newPrefix).1;
    assert err == None || err == Some(Exit) || err == Some(UnboundLocalError) || err == Some(StructError) by {
      assert err.Some? ==> err.value.Exit? || err.value.UnboundLocalError? || err.value.StructError?;
    }
  }

  /** change_dl_sysdirs, whichever sections there are. */
  lemma DlSysDirsWhole(arch: Arch, h: Header, data: Bytes, newPrefix: Bytes, strtab: Bytes, secs: seq<Section>)
    requires StrTab(arch, h, data) == Some(strtab) && Laid(arch, h, data, strtab, secs) && Separate(h, data, secs)
    ensures var (d, err) := DlSysDirsChanged(arch, h, data, newPrefix);
            && (err == None <==> Passes(arch, newPrefix, data, secs))
            && (err == None && AllDirsFit(arch, newPrefix, data, secs) ==>
                  && |d| == |data|
                  && (forall k | 0 <= k < |data| && Outside(secs, k) :: d[k] == data[k])
                  && AllRelocated(arch, newPrefix, data, d, secs))
  {
    hide KindOf, StrTab, Laid, Separate, DlSysDirsChanged, DirsFit, AllFit, SectionsRelocated, Packable, Fits, After;
    hide Region, PathsOf;
    DlSysDirsPass(arch, h, data, newPrefix, strtab, secs);
    var (d, err) := DlSysDirsChanged(arch, h, data, newPrefix);
    if err == None && AllDirsFit(arch, newPrefix, data, secs) {
      var a := LastOrLacks(secs, SysDirs, |secs|);
      var b := LastOrLacks(secs, SysDirsLen, |secs|);
      if Last(secs, 0, a, SysDirs) {
        DlSysDirsAre(arch, h, data, newPrefix, strtab, secs, a, b);
        BothRelocated(arch, newPrefix, data, d, secs, a, b);
      } else {
        DlSysDirsPartial(arch, h, data, newPrefix, strtab, secs);
        NoneRelocated(arch, newPrefix, data, d, secs);
      }
    }
  }

  lemma BothRelocated(arch: Arch, newPrefix: Bytes, data: Bytes, d: Bytes, secs: seq<Section>, a: nat, b: nat)
    requires Last(secs, 0, a, SysDirs) && Last(secs, 0, b, SysDirsLen)
    requires SectionsRelocated(arch, newPrefix, data, d, secs, a, b)
    ensures AllRelocated(arch, newPrefix, data, d, secs)
  {
    hide KindOf, Fits, After, Region, PathsOf, Strings, Lengths, Padded;
  }

  /** Without .sysdirs only the first two kinds of sections are rewritten. */
  lemma NoneRelocated(arch: Arch, newPrefix: Bytes, data: Bytes, d: Bytes, secs: seq<Section>)
    requires Lacks(secs, 0, SysDirs) && Rewrote(newPrefix, data, d, secs, 0)
    ensures AllRelocated(arch, newPrefix, data, d, secs)
    ensures |d| == |data| && forall k | 0 <= k < |data| && Outside(secs, k) :: d[k] == data[k]
  {
    hide KindOf, Fits, Region, PathsOf, Strings, Lengths, Padded;
    forall k | 0 <= k < |data| && Outside(secs, k) ensures Untouched(secs, 0, k) {
    }
  }

  // All of this depends on the named sections alone.

  ghost predicate SameRegions(data: Bytes, data': Bytes, secs: seq<Section>) {
    forall j | 0 <= j < |secs| && Named(secs[j]) :: Region(data', secs[j]) == Region(data, secs[j])
  }

  lemma FitAlike(newPrefix: Bytes, data: Bytes, data': Bytes, secs: seq<Section>)
    requires SameRegions(data, data', secs)
    ensures AllFit(newPrefix, data', secs, 0) == AllFit(newPrefix, data, secs, 0)
  {
    hide KindOf, Region, Fits;
  }

  lemma PathsAlike(newPrefix: Bytes, data: Bytes, data': Bytes, secs: seq<Section>, a: nat)
    requires SameRegions(data, data', secs) && Last(secs, 0, a, SysDirs)
    ensures Region(data', secs[a]) == Region(data, secs[a])
    ensures PathsOf(newPrefix, data', secs[a]) == PathsOf(newPrefix, data, secs[a])
  {
    hide Region, NewPaths, SplitNul;
  }

  lemma PassAlike(arch: Arch, newPrefix: Bytes, data: Bytes, data': Bytes, secs: seq<Section>)
    requires SameRegions(data, data', secs)
    ensures Passes(arch, newPrefix, data', secs) <==> Passes(arch, newPrefix, data, secs)
    ensures AllDirsFit(arch, newPrefix, data, secs) ==> AllDirsFit(arch, newPrefix, data', secs)
  {
    hide AllFit, KindOf, Lacks, Packable, DirsFit, PathsOf, SameRegions;
    FitAlike(newPrefix, data, data', secs);
    forall a: nat | Last(secs, 0, a, SysDirs)
      ensures PathsOf(newPrefix, data', secs[a]) == PathsOf(newPrefix, data, secs[a])
    {
      PathsAlike(newPrefix, data, data', secs, a);
    }
  }

  lemma RelocatedAlike(arch: Arch, newPrefix: Bytes, data: Bytes, data': Bytes, d: Bytes, secs: seq<Section>)
    requires SameRegions(data, data', secs) && AllRelocated(arch, newPrefix, data', d, secs)
    ensures AllRelocated(arch, newPrefix, data, d, secs)
  {
    hide KindOf, Fits, After, Region, SectionsRelocated, SameRegions;
    forall a: nat, b: nat | Last(secs, 0, a, SysDirs) && Last(secs, 0, b, SysDirsLen)
      ensures SectionsRelocated(arch, newPrefix, data, d, secs, a, b)
    {
      OthersAlike(data, data', secs);
      PathsAlike(newPrefix, data, data', secs, a);
      PartsAlike(arch, newPrefix, data, data', d, secs, a, b);
    }
    OthersAlike(data, data', secs);
  }

  lemma OthersAlike(data: Bytes, data': Bytes, secs: seq<Section>)
    requires SameRegions(data, data', secs)
    ensures forall j | 0 <= j < |secs| && KindOf(secs[j]) in {LdSoCache, GccRelocPrefix, SysDirsLen} ::
              Region(data', secs[j]) == Region(data, secs[j])
  {
    hide KindOf, Region;
  }

  lemma PartsAlike(arch: Arch, newPrefix: Bytes, data: Bytes, data': Bytes, d: Bytes, secs: seq<Section>, a: nat,
                   b: nat)
    requires a < |secs| && b < |secs| && SectionsRelocated(arch, newPrefix, data', d, secs, a, b)
    requires PathsOf(newPrefix, data', secs[a]) == PathsOf(newPrefix, data, secs[a])
    requires forall j | 0 <= j < |secs| && KindOf(secs[j]) in {LdSoCache, GccRelocPrefix, SysDirsLen} ::
               Region(data', secs[j]) == Region(data, secs[j])
    ensures SectionsRelocated(arch, newPrefix, data, d, secs, a, b)
  {
    hide KindOf, Fits, After, Region, PathsOf, Strings, Lengths, Padded;
  }

  /** Relocating a file whose parts lie inside it and apart: it succeeds exactly
      if change_dl_sysdirs can; and if the directories fit, which the code does
      not check, the size is kept, no byte outside the interpreter and the named
      sections is changed, and each of those that the file has is what it
      should be. */
  lemma RelocationIs(arch: Arch, data: Bytes, newPrefix: Bytes, newDlPath: Bytes, s: Option<Segment>, strtab: Bytes,
                     secs: seq<Section>)
    requires |data| >= 64
    requires var h := HeaderOf(arch, data[..64]);
             && FindInterp(arch, h, data, 0) == Ok(s) && (s.Some? ==> InterpApart(arch, h, data, s.value, secs))
             && StrTab(arch, h, data) == Some(strtab) && Laid(arch, h, data, strtab, secs) && Separate(h, data, secs)
    ensures var (d, err) := Relocated(arch, data, newPrefix, newDlPath);
            && (err == None <==> Passes(arch, newPrefix, data, secs))
            && (err == None && AllDirsFit(arch, newPrefix, data, secs) ==>
                  && |d| == |data|
                  && (forall k | 0 <= k < |data| && Outside(secs, k)
                        && (s.Some? ==> !(s.value.offset <= k < s.value.offset + s.value.filesz)) :: d[k] == data[k])
                  && (s.Some? ==> ReadAt(d, s.value.offset, s.value.filesz) ==
                                  ReadAt(WithInterp(data, s.value, newDlPath), s.value.offset, s.value.filesz))
                  && AllRelocated(arch, newPrefix, data, d, secs))
  {
    hide KindOf, HeaderOf, WithInterp, DlSysDirsChanged, StrTab, Laid, Separate, FindInterp, Passes, AllDirsFit;
    hide AllRelocated, Region, Outside, ReadAt;
    var h := HeaderOf(arch, data[..64]);
    if s.Some? {
      var d1 := WithInterp(data, s.value, newDlPath);
      var (d, err) := DlSysDirsChanged(arch, h, d1, newPrefix);
      InterpKeepsSections(arch, h, data, s.value, newDlPath, strtab, secs);
      DlSysDirsWhole(arch, h, d1, newPrefix, strtab, secs);
      assert SameRegions(data, d1, secs);
      PassAlike(arch, newPrefix, data, d1, secs);
      if err == None && AllDirsFit(arch, newPrefix, data, secs) {
        RelocatedAlike(arch, newPrefix, data, d1, d, secs);
        InterpStays(d1, d, s.value, secs);
      }
    } else {
      DlSysDirsWhole(arch, h, data, newPrefix, strtab, secs);
    }
  }

  /** A relocation that succeeds keeps the size of the file, and every byte
      outside its first PT_INTERP and the named sections. */
  lemma RelocationKeeps(arch: Arch, data: Bytes, newPrefix: Bytes, newDlPath: Bytes, s: Option<Segment>, strtab: Bytes,
                        secs: seq<Section>)
    requires |data| >= 64
    requires var h := HeaderOf(arch, data[..64]);
             && FindInterp(arch, h, data, 0) == Ok(s) && (s.Some? ==> InterpApart(arch, h, data, s.value, secs))
             && StrTab(arch, h, data) == Some(strtab) && Laid(arch, h, data, strtab, secs) && Separate(h, data, secs)
    requires AllDirsFit(arch, newPrefix, data, secs) && Relocated(arch, data, newPrefix, newDlPath).1 == None
    ensures var d := Relocated(arch, data, newPrefix, newDlPath).0;
            && |d| == |data|
            && forall k | 0 <= k < |data| && Outside(secs, k)
               && (s.Some? ==> !(s.value.offset <= k < s.value.offset + s.value.filesz)) :: d[k] == data[k]
  {
    hide KindOf, HeaderOf, StrTab, Laid, Separate, FindInterp, InterpApart, AllDirsFit, Outside, Relocated;
    RelocationIs(arch, data, newPrefix, newDlPath, s, strtab, secs);
  }
}
