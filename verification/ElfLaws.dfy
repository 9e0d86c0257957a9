/** What relocation does to a file whose parts lie inside it and apart from
    one another: which bytes change, and into what. */
module ElfLaws {
  import opened Text
  import opened Elf

  // ---------------------------------------------------------------------
  // Writing inside the file

  /** data with b in place of what is at p. */
  function Splice(data: Bytes, p: nat, b: Bytes): (d: Bytes)
    requires p + |b| <= |data|
    ensures |d| == |data|
  {
    data[..p] + b + data[p + |b|..]
  }

  lemma WriteSplices(data: Bytes, p: nat, b: Bytes)
    requires p + |b| <= |data|
    ensures WriteAt(data, p, b) == Splice(data, p, b)
  {
    if b == [] {
      assert data[..p] + [] + data[p..] == data;
    }
  }

  /** A file keeps its size under a padded write exactly if the text fits the
      place, or at least the file. */
  lemma SizeKeptIff(data: Bytes, p: nat, size: nat, b: Bytes)
    requires p + size <= |data|
    ensures |WriteAt(data, p, Padded(b, size))| == |data| <==> |b| <= size || p + |b| <= |data|
  {
    if p + |Padded(b, size)| <= |data| {
      WriteSplices(data, p, Padded(b, size));
    }
  }

  lemma SpliceAt(data: Bytes, p: nat, b: Bytes, k: nat)
    requires p + |b| <= |data| && k < |data|
    ensures Splice(data, p, b)[k] == if p <= k < p + |b| then b[k - p] else data[k]
  {
  }

  lemma SpliceSame(data: Bytes, p: nat, n: nat)
    requires p + n <= |data|
    ensures Splice(data, p, data[p..p + n]) == data
  {
  }

  lemma ReadSpliced(data: Bytes, p: nat, b: Bytes)
    requires p + |b| <= |data|
    ensures ReadAt(Splice(data, p, b), p, |b|) == b
  {
  }

  lemma ReadApart(data: Bytes, p: nat, b: Bytes, q: nat, n: nat)
    requires p + |b| <= |data| && q + n <= |data| && (p + |b| <= q || q + n <= p)
    ensures ReadAt(Splice(data, p, b), q, n) == ReadAt(data, q, n)
  {
    var d := Splice(data, p, b);
    forall k | q <= k < q + n ensures d[k] == data[k] {
      SpliceAt(data, p, b, k);
    }
    assert d[q..q + n] == data[q..q + n];
  }

  /** Two writes side by side are one. */
  lemma SpliceNext(data: Bytes, p: nat, a: Bytes, b: Bytes)
    requires p + |a| + |b| <= |data|
    ensures Splice(Splice(data, p, a), p + |a|, b) == Splice(data, p, a + b)
  {
    var d := Splice(data, p, a);
    assert d[..p + |a|] == data[..p] + a;
    assert d[p + |a| + |b|..] == data[p + |a| + |b|..];
    Assoc(data[..p], a, b);
  }

  // ---------------------------------------------------------------------
  // The interpreter

  /** Segment i can be read, and is an interpreter or not. */
  predicate IsInterp(arch: Arch, h: Header, data: Bytes, i: nat, interp: bool) {
    var b := SegmentBytes(h, data, i);
    |b| == SegmentSize(arch) && (SegmentOf(arch, b).typ == 3 <==> interp)
  }

  /** Only the first PT_INTERP counts. */
  lemma {:induction false} FirstInterp(arch: Arch, h: Header, data: Bytes, i: nat, s: Segment)
    requires i <= h.phnum
    ensures FindInterp(arch, h, data, i) == Ok(Some(s)) <==>
            exists j | i <= j < h.phnum ::
              IsInterp(arch, h, data, j, true) && SegmentOf(arch, SegmentBytes(h, data, j)) == s
              && forall k | i <= k < j :: IsInterp(arch, h, data, k, false)
    decreases h.phnum - i
  {
    hide SegmentOf, SegmentBytes;
    if i < h.phnum {
      FirstInterp(arch, h, data, i + 1, s);
      if IsInterp(arch, h, data, i, false) {
        if FindInterp(arch, h, data, i + 1) == Ok(Some(s)) {
          var j :| i + 1 <= j < h.phnum && IsInterp(arch, h, data, j, true)
              && SegmentOf(arch, SegmentBytes(h, data, j)) == s
                   && forall k | i + 1 <= k < j :: IsInterp(arch, h, data, k, false);
          assert forall k | i <= k < j :: IsInterp(arch, h, data, k, false);
        }
      } else if FindInterp(arch, h, data, i) == Ok(Some(s)) {
        assert IsInterp(arch, h, data, i, true);
      }
    }
  }

  /** Changing the interpreter keeps the size and every byte outside it. It is
      set to the new path, NUL-terminated and padded, unless it is
      precompiled or too small, when nothing changes. */
  lemma InterpIs(data: Bytes, s: Segment, newDlPath: Bytes)
    requires s.offset + s.filesz <= |data|
    ensures var d := WithInterp(data, s, newDlPath);
            var set' := !Precompiled(ReadAt(data, s.offset, 11)) && |newDlPath| < s.filesz;
            && |d| == |data|
            && (forall k | 0 <= k < |data| && !(s.offset <= k < s.offset + s.filesz) :: d[k] == data[k])
            && (!set' ==> d == data)
            && (set' ==> d == Splice(data, s.offset, Padded(newDlPath, s.filesz))
                         && newDlPath <= ReadAt(d, s.offset, s.filesz)
                         && forall k | s.offset + |newDlPath| <= k < s.offset + s.filesz :: d[k] == 0)
  {
    hide Precompiled;
    if !Precompiled(ReadAt(data, s.offset, 11)) && |newDlPath| < s.filesz {
      var b := Padded(newDlPath, s.filesz);
      WriteSplices(data, s.offset, b);
      ReadSpliced(data, s.offset, b);
      forall k | 0 <= k < |data|
        ensures !(s.offset <= k < s.offset + s.filesz) ==> Splice(data, s.offset, b)[k] == data[k]
        ensures s.offset + |newDlPath| <= k < s.offset + s.filesz ==> Splice(data, s.offset, b)[k] == 0
      {
        SpliceAt(data, s.offset, b, k);
      }
    }
  }

  // ---------------------------------------------------------------------
  // One section

  function Region(data: Bytes, s: Section): Bytes {
    ReadAt(data, s.offset, s.size)
  }

  /** Every whole slot rewritten and padded; what follows the last one is kept. */
  function SlotsOf(newPrefix: Bytes, b: Bytes): (r: Bytes)
    requires SlotsFit(newPrefix, b)
    ensures |r| == |b|
    decreases |b|
  {
    if |b| < 4096 then b else Padded(Rewritten(newPrefix, b[..4096]), 4096) + SlotsOf(newPrefix, b[4096..])
  }

  predicate SlotsFit(newPrefix: Bytes, b: Bytes)
    decreases |b|
  {
    |b| < 4096 || (|Rewritten(newPrefix, b[..4096])| < 4096 && SlotsFit(newPrefix, b[4096..]))
  }

  lemma {:induction false} SlotsAre(newPrefix: Bytes, data: Bytes, off: nat, size: nat, o: nat)
    requires off + size <= |data| && o <= size
    ensures var rest := data[off + o..off + size];
            var (d, err) := SlotsChanged(newPrefix, data, off, size, o);
            && (err == None <==> SlotsFit(newPrefix, rest))
            && (err.Some? ==> err == Some(Exit))
            && (err == None ==> d == Splice(data, off + o, SlotsOf(newPrefix, rest)))
    decreases size - o
  {
    hide Rewritten, WriteAt;
    var rest := data[off + o..off + size];
    if o + 4096 > size {
      SpliceSame(data, off + o, size - o);
    } else {
      assert rest[..4096] == ReadAt(data, off + o, 4096);
      var path := Rewritten(newPrefix, rest[..4096]);
      if |path| < 4096 {
        SlotStep(newPrefix, data, off, size, o);
      }
    }
  }

  lemma {:induction false} SlotStep(newPrefix: Bytes, data: Bytes, off: nat, size: nat, o: nat)
    requires off + size <= |data| && o + 4096 <= size
    requires |Rewritten(newPrefix, ReadAt(data, off + o, 4096))| < 4096
    ensures var rest := data[off + o..off + size];
            var (d, err) := SlotsChanged(newPrefix, data, off, size, o);
            && (err == None <==> SlotsFit(newPrefix, rest))
            && (err.Some? ==> err == Some(Exit))
            && (err == None ==> d == Splice(data, off + o, SlotsOf(newPrefix, rest)))
    decreases size - o, 0
  {
    hide Rewritten, WriteAt, Splice;
    var rest := data[off + o..off + size];
    var slot := Padded(Rewritten(newPrefix, ReadAt(data, off + o, 4096)), 4096);
    assert rest[..4096] == ReadAt(data, off + o, 4096);
    WriteSplices(data, off + o, slot);
    var data' := Splice(data, off + o, slot);
    ReadApart(data, off + o, slot, off + o + 4096, size - o - 4096);
    assert data'[off + o + 4096..off + size] == data[off + o + 4096..off + size] == rest[4096..];
    SlotsAre(newPrefix, data', off, size, o + 4096);
    if SlotsFit(newPrefix, rest[4096..]) {
      SpliceNext(data, off + o, slot, SlotsOf(newPrefix, rest[4096..]));
    }
  }

  lemma SliceRight(a: Bytes, b: Bytes, p: nat, n: nat)
    requires |a| <= p && p + n <= |a| + |b|
    ensures (a + b)[p..p + n] == b[p - |a|..p - |a| + n]
  {
  }

  /** Each slot of the result, here the one at p, is the old slot rewritten,
      NUL-terminated and padded. */
  lemma {:induction false} SlotIs(newPrefix: Bytes, b: Bytes, p: nat)
    requires SlotsFit(newPrefix, b) && p % 4096 == 0 && p + 4096 <= |b|
    ensures var path := Rewritten(newPrefix, b[p..p + 4096]);
            |path| < 4096 && SlotsOf(newPrefix, b)[p..p + 4096] == Padded(path, 4096)
    decreases p
  {
    hide Rewritten, Padded;
    var slot, rest := Padded(Rewritten(newPrefix, b[..4096]), 4096), SlotsOf(newPrefix, b[4096..]);
    if p == 0 {
      assert (slot + rest)[..4096] == slot;
    } else {
      SlotIs(newPrefix, b[4096..], p - 4096);
      assert b[..4096] + b[4096..] == b;
      SliceRight(b[..4096], b[4096..], p, 4096);
      SliceRight(slot, rest, p, 4096);
    }
  }

  /** Whether the rewritten paths fit, for the two kinds that the loop rewrites. */
  predicate Fits(newPrefix: Bytes, kind: Kind, b: Bytes) {
    match kind
    case LdSoCache => |Rewritten(newPrefix, b)| < |b|
    case GccRelocPrefix => SlotsFit(newPrefix, b)
    case _ => true
  }

  function After(newPrefix: Bytes, kind: Kind, b: Bytes): (r: Bytes)
    requires Fits(newPrefix, kind, b)
    ensures |r| == |b|
  {
    match kind
    case LdSoCache => Padded(Rewritten(newPrefix, b), |b|)
    case GccRelocPrefix => SlotsOf(newPrefix, b)
    case _ => b
  }

  lemma SectionIs(newPrefix: Bytes, data: Bytes, found: Found, s: Section)
    requires s.offset + s.size <= |data|
    ensures var (d, found', err) := SectionChanged(newPrefix, data, found, s);
            && (err == None <==> Fits(newPrefix, KindOf(s), Region(data, s)))
            && (err.Some? ==> err == Some(Exit))
            && (err == None ==> d == Splice(data, s.offset, After(newPrefix, KindOf(s), Region(data, s))))
  {
    hide Rewritten, WriteAt, KindOf, SlotsChanged, SlotsFit, SlotsOf, Splice;
    SpliceSame(data, s.offset, s.size);
    match KindOf(s)
    case LdSoCache =>
      if |Rewritten(newPrefix, Region(data, s))| < s.size {
        WriteSplices(data, s.offset, Padded(Rewritten(newPrefix, Region(data, s)), s.size));
      }
    case GccRelocPrefix => SlotsAre(newPrefix, data, s.offset, s.size, 0);
    case _ =>
  }

  // ---------------------------------------------------------------------
  // All sections

  /** The section headers and the names of the file. */
  predicate Laid(arch: Arch, h: Header, data: Bytes, strtab: Bytes, secs: seq<Section>) {
    && |secs| == h.shnum
    && forall i | 0 <= i < |secs| ::
         |SectionBytes(h, data, i)| == SectionSize(arch) && secs[i] == SectionOf(arch, SectionBytes(h, data, i), strtab)
  }

  predicate Named(s: Section) {
    KindOf(s) != Other
  }

  /** [p, p + n) and [q, q + m) have no byte in common. */
  predicate Disjoint(p: nat, n: nat, q: nat, m: nat) {
    p + n <= q || q + m <= p
  }

  /** The named sections lie in the file, and apart from each other and from the section headers. */
  predicate Separate(h: Header, data: Bytes, secs: seq<Section>) {
    && (forall i | 0 <= i < |secs| && Named(secs[i]) ::
          secs[i].offset + secs[i].size <= |data| && forall k | 0 <= k < h.shnum ::
            SectionPos(h, k) + h.shentsize <= |data|
                && Disjoint(secs[i].offset, secs[i].size, SectionPos(h, k), h.shentsize))
    && (forall i, j | 0 <= i < j < |secs| && Named(secs[i]) && Named(secs[j]) ::
          Disjoint(secs[i].offset, secs[i].size, secs[j].offset, secs[j].size))
  }

  /** Byte k belongs to no section from i on that the loop rewrites. */
  predicate Untouched(secs: seq<Section>, i: nat, k: nat) {
    forall j | i <= j < |secs| && KindOf(secs[j]) in {LdSoCache, GccRelocPrefix} ::
      !(secs[j].offset <= k < secs[j].offset + secs[j].size)
  }

  /** What the loop remembers of the sections from i on. */
  function Remembered(data: Bytes, secs: seq<Section>, i: nat, found: Found): Found
    requires i <= |secs|
    decreases |secs| - i
  {
    if i == |secs| then found else Remembered(data, secs, i + 1, Recall(data, found, secs[i]))
  }

  function Recall(data: Bytes, found: Found, s: Section): Found {
    match KindOf(s)
    case SysDirs => Found(Some(Region(data, s)), s.offset, s.size, found.lenOff)
    case SysDirsLen => found.(lenOff := Some(s.offset))
    case _ => found
  }

  /** One round that succeeds: where everything is stays the same, and so do
      the other named sections. */
  lemma RoundKeeps(arch: Arch, h: Header, strtab: Bytes, newPrefix: Bytes, data: Bytes, secs: seq<Section>, i: nat)
    requires Laid(arch, h, data, strtab, secs) && Separate(h, data, secs) && i < |secs| && Named(secs[i])
    requires Fits(newPrefix, KindOf(secs[i]), Region(data, secs[i]))
    ensures var s := secs[i];
            var b := After(newPrefix, KindOf(s), Region(data, s));
            s.offset + |b| <= |data| &&
            var d := Splice(data, s.offset, b);
            && Laid(arch, h, d, strtab, secs) && Separate(h, d, secs)
            && Region(d, s) == b
            && (forall j | 0 <= j < |secs| && j != i && Named(secs[j]) :: Region(d, secs[j]) == Region(data, secs[j]))
            && (forall k | 0 <= k < |data| && !(s.offset <= k < s.offset + s.size) :: d[k] == data[k])
  {
    hide KindOf, Fits, After, Splice, SectionOf, ReadAt, SectionPos;
    var s := secs[i];
    assert ReadAt(data, s.offset, s.size) == data[s.offset..s.offset + s.size];
    var b := After(newPrefix, KindOf(s), Region(data, s));
    var d := Splice(data, s.offset, b);
    ReadSpliced(data, s.offset, b);
    forall j | 0 <= j < |secs| ensures SectionBytes(h, d, j) == SectionBytes(h, data, j) {
      ReadApart(data, s.offset, b, SectionPos(h, j), h.shentsize);
    }
    forall j | 0 <= j < |secs| && j != i && Named(secs[j]) ensures Region(d, secs[j]) == Region(data, secs[j]) {
      ReadApart(data, s.offset, b, secs[j].offset, secs[j].size);
    }
    forall k | 0 <= k < |data| && !(s.offset <= k < s.offset + s.size) ensures d[k] == data[k] {
      SpliceAt(data, s.offset, b, k);
    }
  }

  lemma {:induction false} RememberedSame(data: Bytes, d: Bytes, secs: seq<Section>, i: nat, found: Found)
    requires i <= |secs|
    requires forall j | i <= j < |secs| && Named(secs[j]) :: Region(d, secs[j]) == Region(data, secs[j])
    ensures Remembered(d, secs, i, found) == Remembered(data, secs, i, found)
    decreases |secs| - i
  {
    hide KindOf, Region;
    if i < |secs| {
      RememberedSame(data, d, secs, i + 1, Recall(data, found, secs[i]));
    }
  }

  /** From data to d, every section from i on has been rewritten and nothing else. */
  predicate Rewrote(newPrefix: Bytes, data: Bytes, d: Bytes, secs: seq<Section>, i: nat) {
    && |d| == |data|
    && (forall j | i <= j < |secs| && Named(secs[j]) ::
          Fits(newPrefix, KindOf(secs[j]), Region(data, secs[j]))
              && Region(d, secs[j]) == After(newPrefix, KindOf(secs[j]), Region(data, secs[j])))
    && (forall k | 0 <= k < |data| && Untouched(secs, i, k) :: d[k] == data[k])
  }

  predicate AllFit(newPrefix: Bytes, data: Bytes, secs: seq<Section>, i: nat) {
    forall j | i <= j < |secs| && Named(secs[j]) :: Fits(newPrefix, KindOf(secs[j]), Region(data, secs[j]))
  }

  lemma RegionKept(d: Bytes, d': Bytes, s: Section)
    requires |d'| == |d| && s.offset + s.size <= |d|
    requires forall k | s.offset <= k < s.offset + s.size :: d'[k] == d[k]
    ensures Region(d', s) == Region(d, s)
  {
    assert d'[s.offset..s.offset + s.size] == d[s.offset..s.offset + s.size];
  }

  /** Section i is rewritten from data to d, and the later ones from there to d'. */
  lemma RewroteStep(h: Header, newPrefix: Bytes, data: Bytes, d: Bytes, d': Bytes, secs: seq<Section>, i: nat)
    requires i < |secs| && Named(secs[i]) && Separate(h, data, secs) && |d| == |data|
    requires Fits(newPrefix, KindOf(secs[i]), Region(data, secs[i]))
    requires Region(d, secs[i]) == After(newPrefix, KindOf(secs[i]), Region(data, secs[i]))
    requires forall j | 0 <= j < |secs| && j != i && Named(secs[j]) :: Region(d, secs[j]) == Region(data, secs[j])
    requires forall k | 0 <= k < |data| && !(secs[i].offset <= k < secs[i].offset + secs[i].size) :: d[k] == data[k]
    requires KindOf(secs[i]) !in {LdSoCache, GccRelocPrefix} ==> d == data
    requires Rewrote(newPrefix, d, d', secs, i + 1)
    ensures Rewrote(newPrefix, data, d', secs, i)
  {
    hide KindOf, Fits, After, Region, SectionPos;
    var s := secs[i];
    forall k | s.offset <= k < s.offset + s.size ensures d'[k] == d[k] {
      assert Untouched(secs, i + 1, k);
    }
    RegionKept(d, d', s);
    forall k | 0 <= k < |data| && Untouched(secs, i, k) ensures d'[k] == data[k] {
      assert Untouched(secs, i + 1, k);
    }
  }

  lemma RewroteOther(newPrefix: Bytes, data: Bytes, d': Bytes, secs: seq<Section>, i: nat)
    requires i < |secs| && !Named(secs[i]) && Rewrote(newPrefix, data, d', secs, i + 1)
    ensures Rewrote(newPrefix, data, d', secs, i)
  {
    hide KindOf, Fits, After, Region;
    forall k | 0 <= k < |data| && Untouched(secs, i, k) ensures d'[k] == data[k] {
      assert Untouched(secs, i + 1, k);
    }
  }

  /** All rounds: they fail exactly if some rewritten path does not fit; else
      every section is rewritten, all other bytes are kept, and the loop has
      remembered the library directories. */
  lemma {:induction false} RoundsAre(arch: Arch, h: Header, strtab: Bytes, newPrefix: Bytes, data: Bytes,
                                     secs: seq<Section>, found: Found, i: nat)
    requires Laid(arch, h, data, strtab, secs) && Separate(h, data, secs) && i <= |secs|
    ensures var (d, found', err) := SectionsChanged(arch, h, strtab, newPrefix, data, found, i);
            && (err == None <==> AllFit(newPrefix, data, secs, i))
            && (err.Some? ==> err == Some(Exit))
            && (err == None ==> Rewrote(newPrefix, data, d, secs, i) && found' == Remembered(data, secs, i, found))
    decreases |secs| - i
  {
    hide KindOf, Fits, After, SectionOf, SectionChanged, Separate, Region, ReadAt, SectionBytes;
    if i < |secs| {
      if Named(secs[i]) {
        NamedRound(arch, h, strtab, newPrefix, data, secs, found, i);
      } else {
        OtherRound(newPrefix, data, found, secs[i]);
        RoundsAre(arch, h, strtab, newPrefix, data, secs, found, i + 1);
        if AllFit(newPrefix, data, secs, i) {
          RewroteOther(newPrefix, data, SectionsChanged(arch, h, strtab, newPrefix, data, found, i + 1).0, secs, i);
        }
      }
    }
  }

  lemma OtherRound(newPrefix: Bytes, data: Bytes, found: Found, s: Section)
    requires !Named(s)
    ensures SectionChanged(newPrefix, data, found, s) == (data, found, None) && Recall(data, found, s) == found
  {
    hide KindOf;
  }

  lemma Recalls(newPrefix: Bytes, data: Bytes, found: Found, s: Section)
    ensures SectionChanged(newPrefix, data, found, s).1 == Recall(data, found, s)
  {
    hide KindOf, CacheChanged, SlotsChanged;
  }

  lemma AfterSame(newPrefix: Bytes, data: Bytes, s: Section)
    requires s.offset + s.size <= |data| && KindOf(s) !in {LdSoCache, GccRelocPrefix}
    ensures Splice(data, s.offset, After(newPrefix, KindOf(s), Region(data, s))) == data
  {
    SpliceSame(data, s.offset, s.size);
  }

  lemma {:induction false} NamedRound(arch: Arch, h: Header, strtab: Bytes, newPrefix: Bytes, data: Bytes,
                                      secs: seq<Section>, found: Found, i: nat)
    requires Laid(arch, h, data, strtab, secs) && Separate(h, data, secs) && i < |secs| && Named(secs[i])
    ensures var (d, found', err) := SectionsChanged(arch, h, strtab, newPrefix, data, found, i);
            && (err == None <==> AllFit(newPrefix, data, secs, i))
            && (err.Some? ==> err == Some(Exit))
            && (err == None ==> Rewrote(newPrefix, data, d, secs, i) && found' == Remembered(data, secs, i, found))
    decreases |secs| - i, 0
  {
    hide KindOf, Fits, After, SectionOf, SectionChanged, Region, ReadAt, SectionBytes, Splice, Rewrote, SectionPos;
    hide Recall, Disjoint;
    var s := secs[i];
    Recalls(newPrefix, data, found, s);
    SectionIs(newPrefix, data, found, s);
    if Fits(newPrefix, KindOf(s), Region(data, s)) {
      var d := SectionChanged(newPrefix, data, found, s).0;
      var found' := Recall(data, found, s);
      RoundKeeps(arch, h, strtab, newPrefix, data, secs, i);
      RoundsAre(arch, h, strtab, newPrefix, d, secs, found', i + 1);
      RememberedSame(data, d, secs, i + 1, found');
      FitSame(newPrefix, data, d, secs, i);
      if AllFit(newPrefix, data, secs, i) {
        if KindOf(s) !in {LdSoCache, GccRelocPrefix} {
          AfterSame(newPrefix, data, s);
        }
        RewroteStep(h, newPrefix, data, d, SectionsChanged(arch, h, strtab, newPrefix, d, found', i + 1).0, secs, i);
      }
    }
  }

  lemma FitSame(newPrefix: Bytes, data: Bytes, d: Bytes, secs: seq<Section>, i: nat)
    requires i < |secs| && Named(secs[i]) && Fits(newPrefix, KindOf(secs[i]), Region(data, secs[i]))
    requires forall j | 0 <= j < |secs| && j != i && Named(secs[j]) :: Region(d, secs[j]) == Region(data, secs[j])
    ensures AllFit(newPrefix, d, secs, i + 1) <==> AllFit(newPrefix, data, secs, i)
  {
    hide KindOf, Fits, Region;
    if AllFit(newPrefix, d, secs, i + 1) {
      forall j | i <= j < |secs| && Named(secs[j]) ensures Fits(newPrefix, KindOf(secs[j]), Region(data, secs[j])) {
        if j > i {
          assert Region(d, secs[j]) == Region(data, secs[j]);
        }
      }
    }
  }
}
