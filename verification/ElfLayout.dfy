/** The headers of an ELF file as the System V ABI lays them out (chapter 4,
    "ELF Header" and "Sections", and chapter 5, "Program Header"), read back by
    the functions of Elf. */
module ElfLayout {
  import opened Text
  import opened Elf
  import opened ElfLaws
  import opened ElfDirs

  // ---------------------------------------------------------------------
  // Numbers

  /** Later bytes count more: the numbers are little-endian. */
  lemma {:induction false} WordPlus(a: Bytes, b: Bytes)
    ensures Word(a + b) == Word(a) + Limit(|a|) * Word(b)
    decreases |a|
  {
    if a == [] {
      PlusEmpty(b);
    } else {
      PlusTail(a, b);
      WordPlus(a[1..], b);
      Scale(Limit(|a| - 1), Word(b));
    }
  }

  lemma Scale(limit: nat, n: nat)
    ensures 256 * (limit * n) == (256 * limit) * n
  {
  }

  /** A field behind x, in bytes that begin with both. */
  lemma FieldRead(b: Bytes, x: Bytes, n: nat, w: nat)
    requires n < Limit(w) && x + Pack(n, w) <= b
    ensures |x| + w <= |b| && Field(b, |x|, w) == n && x <= b
  {
    PackedWord(n, w);
    hide Word, Pack, Limit;
    assert b[..|x| + w] == x + Pack(n, w);
    assert b[|x|..|x| + w] == b[..|x| + w][|x|..] == Pack(n, w);
    assert b[..|x|] == b[..|x| + w][..|x|] == x;
  }

  // ---------------------------------------------------------------------
  // The ELF header

  /** The fields of the header that the script does not look at. */
  datatype Other = Other(ident: Bytes, typ: nat, machine: nat, version: nat, entry: nat, flags: nat, ehsize: nat)

  predicate Fields(arch: Arch, o: Other, h: Header) {
    var w := WordSize(arch);
    && |o.ident| == 16
    && o.typ < Limit(2) && o.machine < Limit(2) && o.version < Limit(4) && o.entry < Limit(w)
    && o.flags < Limit(4) && o.ehsize < Limit(2)
    && h.phoff < Limit(w) && h.shoff < Limit(w) && h.phentsize < Limit(2) && h.phnum < Limit(2)
    && h.shentsize < Limit(2) && h.shnum < Limit(2) && h.shstrndx < Limit(2)
  }

  function HeaderStart(arch: Arch, o: Other): Bytes {
    o.ident + Pack(o.typ, 2) + Pack(o.machine, 2) + Pack(o.version, 4) + Pack(o.entry, WordSize(arch))
  }

  function HeaderMiddle(arch: Arch, o: Other, h: Header): Bytes {
    HeaderStart(arch, o) + Pack(h.phoff, WordSize(arch)) + Pack(h.shoff, WordSize(arch)) + Pack(o.flags, 4)
    + Pack(o.ehsize, 2)
  }

  function HeaderBytes(arch: Arch, o: Other, h: Header): Bytes {
    HeaderMiddle(arch, o, h) + Pack(h.phentsize, 2) + Pack(h.phnum, 2) + Pack(h.shentsize, 2) + Pack(h.shnum, 2)
    + Pack(h.shstrndx, 2)
  }

  lemma HeaderRead(arch: Arch, o: Other, h: Header, b: Bytes)
    requires Fields(arch, o, h) && |b| == 64 && HeaderBytes(arch, o, h) <= b
    ensures HeaderOf(arch, b) == h
  {
    hide Limit, Pack, Field;
    var w := WordSize(arch);
    var start, middle := HeaderStart(arch, o), HeaderMiddle(arch, o, h);
    var x1 := start + Pack(h.phoff, w);
    var x2 := x1 + Pack(h.shoff, w);
    var x3 := x2 + Pack(o.flags, 4);
    var y1 := middle + Pack(h.phentsize, 2);
    var y2 := y1 + Pack(h.phnum, 2);
    var y3 := y2 + Pack(h.shentsize, 2);
    var y4 := y3 + Pack(h.shnum, 2);
    FieldRead(b, y4, h.shstrndx, 2);
    FieldRead(b, y3, h.shnum, 2);
    FieldRead(b, y2, h.shentsize, 2);
    FieldRead(b, y1, h.phnum, 2);
    FieldRead(b, middle, h.phentsize, 2);
    FieldRead(b, x3, o.ehsize, 2);
    FieldRead(b, x2, o.flags, 4);
    FieldRead(b, x1, h.shoff, w);
    FieldRead(b, start, h.phoff, w);
  }

  // ---------------------------------------------------------------------
  // Tables

  function Rows(entries: seq<Bytes>): Bytes {
    if entries == [] then [] else entries[0] + Rows(entries[1..])
  }

  lemma {:induction false} RowRead(entries: seq<Bytes>, n: nat, i: nat, before: Bytes, after: Bytes)
    requires i < |entries| && forall e | e in entries :: |e| == n
    ensures ReadAt(before + Rows(entries) + after, |before| + i * n, n) == entries[i]
    decreases |entries|
  {
    hide ReadAt;
    var e, rest := entries[0], entries[1..];
    assert entries[0] in entries;
    assert forall r | r in rest :: r in entries;
    Regroup(before, e, Rows(rest), after);
    Assoc(before, e + Rows(rest), after);
    Assoc(e, Rows(rest), after);
    if i == 0 {
      RowFirst(before, e, Rows(rest) + after);
    } else {
      RowRead(rest, n, i - 1, before + e, after);
      Assoc(before, e, Rows(rest));
      RowNext(|before|, i, n);
    }
  }

  lemma RowNext(p: nat, i: nat, n: nat)
    requires i > 0
    ensures p + n + (i - 1) * n == p + i * n
  {
  }

  lemma RowFirst(before: Bytes, e: Bytes, rest: Bytes)
    ensures ReadAt(before + (e + rest), |before| + 0 * |e|, |e|) == e
  {
    var data := before + (e + rest);
    assert data[|before|..|before| + |e|] == e;
    assert e != [] || ReadAt(data, |before|, 0) == [];
  }

  /** The entries of the two tables stand one behind the other. */
  lemma TablesRead(h: Header, entries: seq<Bytes>, i: nat, before: Bytes, after: Bytes)
    requires i < |entries|
    ensures |before| == h.phoff && (forall e | e in entries :: |e| == h.phentsize) ==>
              SegmentBytes(h, before + Rows(entries) + after, i) == entries[i]
    ensures |before| == h.shoff && (forall e | e in entries :: |e| == h.shentsize) ==>
              SectionBytes(h, before + Rows(entries) + after, i) == entries[i]
  {
    hide ReadAt, Rows;
    if |before| == h.phoff && forall e | e in entries :: |e| == h.phentsize {
      RowRead(entries, h.phentsize, i, before, after);
    }
    if |before| == h.shoff && forall e | e in entries :: |e| == h.shentsize {
      RowRead(entries, h.shentsize, i, before, after);
    }
  }

  // ---------------------------------------------------------------------
  // Program headers

  function SegmentBytesOf(arch: Arch, s: Segment, flags: nat, vaddr: nat, paddr: nat, memsz: nat, align: nat): Bytes {
    if arch == Elf32 then
      Pack(s.typ, 4) + Pack(s.offset, 4) + Pack(vaddr, 4) + Pack(paddr, 4) + Pack(s.filesz, 4) + Pack(memsz, 4)
      + Pack(flags, 4) + Pack(align, 4)
    else
      Pack(s.typ, 4) + Pack(flags, 4) + Pack(s.offset, 8) + Pack(vaddr, 8) + Pack(paddr, 8) + Pack(s.filesz, 8)
      + Pack(memsz, 8) + Pack(align, 8)
  }

  lemma SegmentRead(arch: Arch, s: Segment, flags: nat, vaddr: nat, paddr: nat, memsz: nat, align: nat)
    requires var l := Limit(WordSize(arch));
             && s.typ < Limit(4) && flags < Limit(4) && s.offset < l && vaddr < l && paddr < l && s.filesz < l
             && memsz < l && align < l
    ensures var b := SegmentBytesOf(arch, s, flags, vaddr, paddr, memsz, align);
            |b| == SegmentSize(arch) && SegmentOf(arch, b) == s
  {
    hide Limit, Pack, Field;
    var b := SegmentBytesOf(arch, s, flags, vaddr, paddr, memsz, align);
    PlusEmpty(Pack(s.typ, 4));
    if arch == Elf32 {
      var x2 := Pack(s.typ, 4) + Pack(s.offset, 4);
      var x3 := x2 + Pack(vaddr, 4);
      var x4 := x3 + Pack(paddr, 4);
      var x5 := x4 + Pack(s.filesz, 4);
      var x6 := x5 + Pack(memsz, 4);
      FieldRead(b, x6 + Pack(flags, 4), align, 4);
      FieldRead(b, x6, flags, 4);
      FieldRead(b, x5, memsz, 4);
      FieldRead(b, x4, s.filesz, 4);
      FieldRead(b, x3, paddr, 4);
      FieldRead(b, x2, vaddr, 4);
      FieldRead(b, Pack(s.typ, 4), s.offset, 4);
    } else {
      var x2 := Pack(s.typ, 4) + Pack(flags, 4);
      var x3 := x2 + Pack(s.offset, 8);
      var x4 := x3 + Pack(vaddr, 8);
      var x5 := x4 + Pack(paddr, 8);
      var x6 := x5 + Pack(s.filesz, 8);
      FieldRead(b, x6 + Pack(memsz, 8), align, 8);
      FieldRead(b, x6, memsz, 8);
      FieldRead(b, x5, s.filesz, 8);
      FieldRead(b, x4, paddr, 8);
      FieldRead(b, x3, vaddr, 8);
      FieldRead(b, x2, s.offset, 8);
      FieldRead(b, Pack(s.typ, 4), flags, 4);
    }
    FieldRead(b, [], s.typ, 4);
  }

  // ---------------------------------------------------------------------
  // Section headers

  /** The fields of a section header that the script does not look at. */
  datatype Attributes = Attributes(flags: nat, addr: nat, link: nat, info: nat, addralign: nat, entsize: nat)

  function SectionBytesOf(arch: Arch, name: nat, s: Section, a: Attributes): Bytes {
    var w := WordSize(arch);
    Pack(name, 4) + Pack(s.typ, 4) + Pack(a.flags, w) + Pack(a.addr, w) + Pack(s.offset, w) + Pack(s.size, w)
    + Pack(a.link, 4) + Pack(a.info, 4) + Pack(a.addralign, w) + Pack(a.entsize, w)
  }

  predicate SectionFits(arch: Arch, name: nat, s: Section, a: Attributes) {
    var l := Limit(WordSize(arch));
    && name < Limit(4) && s.typ < Limit(4) && a.link < Limit(4) && a.info < Limit(4)
    && a.flags < l && a.addr < l && s.offset < l && s.size < l && a.addralign < l && a.entsize < l
  }

  lemma SectionFields(arch: Arch, name: nat, s: Section, a: Attributes, strtab: Bytes)
    requires SectionFits(arch, name, s, a)
    ensures var b := SectionBytesOf(arch, name, s, a);
            && |b| == SectionSize(arch)
            && SectionOf(arch, b, strtab) == Section(NameAt(strtab, name), s.typ, s.offset, s.size)
  {
    hide Limit, Pack, Field, NameAt;
    var w, b := WordSize(arch), SectionBytesOf(arch, name, s, a);
    var x1 := Pack(name, 4);
    var x2 := x1 + Pack(s.typ, 4);
    var x3 := x2 + Pack(a.flags, w);
    var x4 := x3 + Pack(a.addr, w);
    var x5 := x4 + Pack(s.offset, w);
    var x6 := x5 + Pack(s.size, w);
    var x7 := x6 + Pack(a.link, 4);
    var x8 := x7 + Pack(a.info, 4);
    FieldRead(b, x8 + Pack(a.addralign, w), a.entsize, w);
    FieldRead(b, x8, a.addralign, w);
    FieldRead(b, x7, a.info, 4);
    FieldRead(b, x6, a.link, 4);
    FieldRead(b, x5, s.size, w);
    FieldRead(b, x4, s.offset, w);
    FieldRead(b, x3, a.addr, w);
    FieldRead(b, x2, a.flags, w);
    FieldRead(b, x1, s.typ, 4);
    PlusEmpty(x1);
    FieldRead(b, [], name, 4);
  }

  /** The name is the string at its offset in the string table. */
  lemma SectionRead(arch: Arch, s: Section, a: Attributes, before: Bytes, after: Bytes)
    requires 0 !in s.name && SectionFits(arch, |before|, s, a)
    ensures var b := SectionBytesOf(arch, |before|, s, a);
            |b| == SectionSize(arch) && SectionOf(arch, b, before + s.name + [0] + after) == s
  {
    hide SectionBytesOf, SectionFits, SectionOf, NameAt;
    SectionFields(arch, |before|, s, a, before + s.name + [0] + after);
    NameRead(before, s.name, after);
  }

  /** The names stand in the section whose header is number shstrndx. */
  lemma StrTabRead(arch: Arch, h: Header, data: Bytes, name: nat, s: Section, a: Attributes)
    requires SectionBytes(h, data, h.shstrndx) == SectionBytesOf(arch, name, s, a) && SectionFits(arch, name, s, a)
    ensures StrTab(arch, h, data) == Some(ReadAt(data, s.offset, s.size))
  {
    hide SectionBytesOf, SectionFits, SectionOf, NameAt, SectionBytes, ReadAt;
    SectionFields(arch, name, s, a, []);
  }

  /** The sections that count, by name. */
  lemma KindNamed(typ: nat, offset: nat, size: nat, name: Bytes)
    ensures KindOf(Section(Ascii(".sysdirs"), 1, offset, size)) == SysDirs
    ensures KindOf(Section(Ascii(".sysdirslen"), 1, offset, size)) == SysDirsLen
    ensures KindOf(Section(Ascii(".ldsocache"), 1, offset, size)) == LdSoCache
    ensures KindOf(Section(Ascii(".gccrelocprefix"), 1, offset, size)) == GccRelocPrefix
    ensures typ != 1 ==> KindOf(Section(name, typ, offset, size)) == Kind.Other
  {
  }

  /** Interpreters in the directories of precompiled binaries, and only they, are left alone. */
  lemma LeftAlone(data: Bytes, s: Segment, newDlPath: Bytes)
    requires s.offset + s.filesz <= |data| && 11 <= s.filesz && |newDlPath| < s.filesz
    ensures var path := ReadAt(data, s.offset, s.filesz);
            ReadAt(WithInterp(data, s, newDlPath), s.offset, s.filesz) ==
            if exists dir | dir in {"/lib/", "/lib32/", "/lib64/", "/usr/lib32/", "/usr/lib64/"} :: Ascii(dir) <= path
            then path else Padded(newDlPath, s.filesz)
  {
    var path, fname := ReadAt(data, s.offset, s.filesz), ReadAt(data, s.offset, 11);
    assert fname == path[..11];
    PrecompiledIs(path);
    InterpIs(data, s, newDlPath);
    hide Precompiled, Ascii, WithInterp, Padded;
    ReadSpliced(data, s.offset, Padded(newDlPath, s.filesz));
  }

  lemma PrecompiledIs(path: Bytes)
    requires 11 <= |path|
    ensures Precompiled(path[..11]) <==>
            exists dir | dir in {"/lib/", "/lib32/", "/lib64/", "/usr/lib32/", "/usr/lib64/"} :: Ascii(dir) <= path
  {
    var dirs := ["/lib/", "/lib32/", "/lib64/", "/usr/lib32/", "/usr/lib64/"];
    forall dir | dir in dirs ensures Ascii(dir) <= path[..11] <==> Ascii(dir) <= path {
      assert |dir| <= 11;
      assert path[..11] <= path;
      Shorter(Ascii(dir), path);
    }
    assert dirs[0] in dirs && dirs[1] in dirs && dirs[2] in dirs && dirs[3] in dirs && dirs[4] in dirs;
  }

  lemma Shorter(b: Bytes, path: Bytes)
    requires |b| <= 11 <= |path|
    ensures b <= path[..11] <==> b <= path
  {
    assert path[..11][..|b|] == path[..|b|];
  }

  lemma NameRead(before: Bytes, name: Bytes, after: Bytes)
    requires 0 !in name
    ensures NameAt(before + name + [0] + after, |before|) == name
  {
    var strtab := before + name + [0] + after;
    Regroup(before, name, [0], after);
    var rest := name + ([0] + after);
    CutAt(before, rest);
    UpToNulIs(name, [0] + after);
    assert strtab[|before|..|before| + |name|] == rest[..|name|] == name;
  }

  /** A name that the string table does not end loses its last byte. */
  lemma NameUnended(before: Bytes, name: Bytes)
    requires 0 !in name && name != []
    ensures NameAt(before + name, |before|) == name[..|name| - 1]
  {
    var strtab := before + name;
    assert strtab[|before|..] == name;
    UpToNulIs(name, []);
    PlusEmpty(name);
    assert strtab[|before|..|strtab| - 1] == name[..|name| - 1];
  }
}
