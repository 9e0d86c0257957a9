/** In-place relocation of ELF files: the program interpreter, and the
    sections of the dynamic loader that hold paths. Offsets and field sizes
    are those of the System V ABI, chapters 4 and 5. */
module Elf {
  import opened Text

  type Byte = x: int | 0 <= x < 256

  type Bytes = seq<Byte>

  datatype Arch = Elf32 | Elf64

  /** struct.error, sys.exit(-1), and a local variable read before it is set. */
  datatype Error = StructError | Exit | UnboundLocalError

  /** The bytes of an ASCII literal. */
  function Ascii(s: string): (b: Bytes)
    ensures |b| == |s| && forall i | 0 <= i < |s| && s[i] as int < 128 :: b[i] == s[i] as int
  {
    seq(|s|, i requires 0 <= i < |s| => s[i] as int % 256)
  }

  function Zeros(n: nat): (b: Bytes)
    ensures |b| == n && forall i | 0 <= i < n :: b[i] == 0
  {
    seq(n, _ => 0)
  }

  /** b + "\0" * (n - len(b)), which is b alone if b is longer. */
  function Padded(b: Bytes, n: nat): (p: Bytes)
    ensures |p| == if |b| < n then n else |b|
    ensures b <= p
  {
    if |b| < n then b + Zeros(n - |b|) else b
  }

  /** A little-endian number. */
  function Word(b: Bytes): nat {
    if b == [] then 0 else b[0] + 256 * Word(b[1..])
  }

  function Pack(n: nat, w: nat): (b: Bytes)
    ensures |b| == w
  {
    if w == 0 then [] else [n % 256] + Pack(n / 256, w - 1)
  }

  /** How many numbers w bytes can hold. */
  function Limit(w: nat): nat {
    if w == 0 then 1 else 256 * Limit(w - 1)
  }

  // ---------------------------------------------------------------------
  // The file

  function ReadAt(data: Bytes, p: nat, n: nat): (b: Bytes)
    ensures p + n <= |data| ==> b == data[p..p + n]
  {
    if p >= |data| then [] else if p + n <= |data| then data[p..p + n] else data[p..]
  }

  /** Writing past the end makes the file longer. */
  function WriteAt(data: Bytes, p: nat, b: Bytes): Bytes {
    if b == [] then data
    else
      var d := Padded(data, p);
      d[..p] + b + if p + |b| < |d| then d[p + |b|..] else []
  }

  class Binary {
    var data: Bytes
    var pos: nat

    method Seek(p: nat)
      modifies `pos
      ensures pos == p
    {
      pos := p;
    }

    method Read(n: nat) returns (b: Bytes)
      modifies `pos
      ensures b == ReadAt(data, old(pos), n) && pos == old(pos) + |b|
    {
      b := ReadAt(data, pos, n);
      pos := pos + |b|;
    }

    method Write(b: Bytes)
      modifies this
      ensures data == WriteAt(old(data), old(pos), b) && pos == old(pos) + |b|
    {
      data := WriteAt(data, pos, b);
      pos := pos + |b|;
    }
  }

  // ---------------------------------------------------------------------
  // Headers

  datatype Header = Header(phoff: nat, shoff: nat, phentsize: nat, phnum: nat, shentsize: nat, shnum: nat,
      shstrndx: nat)

  datatype Segment = Segment(typ: nat, offset: nat, filesz: nat)

  datatype Section = Section(name: Bytes, typ: nat, offset: nat, size: nat)

  function Field(b: Bytes, p: nat, w: nat): nat
    requires p + w <= |b|
  {
    Word(b[p..p + w])
  }

  function HeaderOf(arch: Arch, b: Bytes): Header
    requires |b| >= 64
  {
    if arch == Elf32 then
      Header(Field(b, 28, 4), Field(b, 32, 4), Field(b, 42, 2), Field(b, 44, 2), Field(b, 46, 2), Field(b, 48, 2),
          Field(b, 50, 2))
    else
      Header(Field(b, 32, 8), Field(b, 40, 8), Field(b, 54, 2), Field(b, 56, 2), Field(b, 58, 2), Field(b, 60, 2),
          Field(b, 62, 2))
  }

  function SegmentSize(arch: Arch): nat {
    if arch == Elf32 then 32 else 56
  }

  function SectionSize(arch: Arch): nat {
    if arch == Elf32 then 40 else 64
  }

  function SegmentOf(arch: Arch, b: Bytes): Segment
    requires |b| == SegmentSize(arch)
  {
    if arch == Elf32 then Segment(Field(b, 0, 4), Field(b, 4, 4), Field(b, 16, 4))
    else Segment(Field(b, 0, 4), Field(b, 8, 8), Field(b, 32, 8))
  }

  /** A section header, with the name it has in the string table. */
  function SectionOf(arch: Arch, b: Bytes, strtab: Bytes): Section
    requires |b| == SectionSize(arch)
  {
    if arch == Elf32 then Section(NameAt(strtab, Field(b, 0, 4)), Field(b, 4, 4), Field(b, 16, 4), Field(b, 20, 4))
    else Section(NameAt(strtab, Field(b, 0, 4)), Field(b, 4, 4), Field(b, 24, 8), Field(b, 32, 8))
  }

  /** strtab[i:strtab.find("\0", i)]; without a NUL the last byte is cut off. */
  function NameAt(strtab: Bytes, i: nat): Bytes {
    if i >= |strtab| then []
    else
      var n := UpToNul(strtab[i..]);
      if i + n < |strtab| then strtab[i..i + n] else strtab[i..|strtab| - 1]
  }

  function UpToNul(b: Bytes): (n: nat)
    ensures n <= |b| && 0 !in b[..n] && (n < |b| ==> b[n] == 0)
  {
    if b == [] || b[0] == 0 then 0 else 1 + UpToNul(b[1..])
  }

  // ---------------------------------------------------------------------
  // change_interpreter

  function SegmentPos(h: Header, i: nat): nat {
    h.phoff + i * h.phentsize
  }

  function SegmentBytes(h: Header, data: Bytes, i: nat): Bytes {
    ReadAt(data, SegmentPos(h, i), h.phentsize)
  }

  /** The first PT_INTERP among the segments from i on. */
  function FindInterp(arch: Arch, h: Header, data: Bytes, i: nat): Result<Option<Segment>, Error>
    requires i <= h.phnum
    decreases h.phnum - i
  {
    if i == h.phnum then Ok(None)
    else
      var b := SegmentBytes(h, data, i);
      if |b| != SegmentSize(arch) then Err(StructError)
      else if SegmentOf(arch, b).typ == 3 then Ok(Some(SegmentOf(arch, b)))
      else FindInterp(arch, h, data, i + 1)
  }

  /** Interpreters that are left alone. */
  predicate Precompiled(fname: Bytes) {
    || Ascii("/lib/") <= fname || Ascii("/lib64/") <= fname || Ascii("/lib32/") <= fname
    || Ascii("/usr/lib32/") <= fname || Ascii("/usr/lib64/") <= fname
  }

  function WithInterp(data: Bytes, s: Segment, newDlPath: Bytes): Bytes {
    if Precompiled(ReadAt(data, s.offset, 11)) || |newDlPath| >= s.filesz then data
    else WriteAt(data, s.offset, Padded(newDlPath, s.filesz))
  }

  function InterpChanged(arch: Arch, h: Header, data: Bytes, newDlPath: Bytes): (Bytes, Option<Error>) {
    match FindInterp(arch, h, data, 0)
    case Err(e) => (data, Some(e))
    case Ok(None) => (data, None)
    case Ok(Some(s)) => (WithInterp(data, s, newDlPath), None)
  }

  method ChangeInterpreter(f: Binary, arch: Arch, h: Header, newDlPath: Bytes) returns (err: Option<Error>)
    modifies f
    ensures (f.data, err) == InterpChanged(arch, h, old(f.data), newDlPath)
  {
    hide Precompiled, SegmentOf, WithInterp, ReadAt, SegmentPos;
    for i := 0 to h.phnum
      invariant f.data == old(f.data)
      invariant FindInterp(arch, h, f.data, i) == FindInterp(arch, h, f.data, 0)
    {
      f.Seek(SegmentPos(h, i));
      var b := f.Read(h.phentsize);
      assert b == SegmentBytes(h, f.data, i);
      if |b| != SegmentSize(arch) {
        return Some(StructError);
      }
      var s := SegmentOf(arch, b);
      if s.typ == 3 {
        SetInterpreter(f, s, newDlPath);
        break;
      }
    }
    err := None;
  }

  method SetInterpreter(f: Binary, s: Segment, newDlPath: Bytes)
    modifies f
    ensures f.data == WithInterp(old(f.data), s, newDlPath)
  {
    hide Precompiled, WriteAt, ReadAt;
    f.Seek(s.offset);
    var fname := f.Read(11);
    if Precompiled(fname) {
      return;
    }
    if |newDlPath| >= s.filesz {
      return;
    }
    f.Seek(s.offset);
    f.Write(newDlPath + Zeros(s.filesz - |newDlPath|));
  }

  // ---------------------------------------------------------------------
  // change_dl_sysdirs

  /** old_prefix */
  function Marker(): (m: Bytes)
    ensures m != [] && 0 !in m
  {
    Ascii("##DEFAULT_INSTALL_DIR##")
  }

  /** old_prefix.sub(newPrefix, b), for a prefix that is taken literally. */
  function Sub(newPrefix: Bytes, b: Bytes): Bytes
    decreases |b|
  {
    if b == [] then []
    else if Marker() <= b then newPrefix + Sub(newPrefix, b[|Marker()|..])
    else [b[0]] + Sub(newPrefix, b[1..])
  }

  function StripNul(b: Bytes): (s: Bytes)
    ensures s <= b
    ensures s != [] ==> s[|s| - 1] != 0
  {
    if b == [] || b[|b| - 1] != 0 then b else StripNul(b[..|b| - 1])
  }

  /** A path rewritten, without the NULs after it. */
  function Rewritten(newPrefix: Bytes, b: Bytes): Bytes {
    StripNul(Sub(newPrefix, b))
  }

  /** What the loop remembers: contents, offset and size of .sysdirs, and the
      offset of .sysdirslen. */
  datatype Found = Found(sysdirs: Option<Bytes>, off: nat, size: nat, lenOff: Option<nat>)

  const NOTHING := Found(None, 0, 0, None)

  /** The slots of .gccrelocprefix, from offset o on. */
  function SlotsChanged(newPrefix: Bytes, data: Bytes, off: nat, size: nat, o: nat): (Bytes, Option<Error>)
    decreases size - o
  {
    if o + 4096 > size then (data, None)
    else
      var path := Rewritten(newPrefix, ReadAt(data, off + o, 4096));
      if |path| >= 4096 then (data, Some(Exit))
      else SlotsChanged(newPrefix, WriteAt(data, off + o, Padded(path, 4096)), off, size, o + 4096)
  }

  function CacheChanged(newPrefix: Bytes, data: Bytes, s: Section): (Bytes, Option<Error>) {
    var path := Rewritten(newPrefix, ReadAt(data, s.offset, s.size));
    if |path| >= s.size then (data, Some(Exit)) else (WriteAt(data, s.offset, Padded(path, s.size)), None)
  }

  datatype Kind = SysDirs | SysDirsLen | LdSoCache | GccRelocPrefix | Other

  /** What the loop does with a section; only SHT_PROGBITS sections count. */
  function KindOf(s: Section): Kind {
    if s.typ != 1 then Other
    else if s.name == Ascii(".sysdirs") then SysDirs
    else if s.name == Ascii(".sysdirslen") then SysDirsLen
    else if s.name == Ascii(".ldsocache") then LdSoCache
    else if s.name == Ascii(".gccrelocprefix") then GccRelocPrefix
    else Other
  }

  /** One round of the loop. */
  function SectionChanged(newPrefix: Bytes, data: Bytes, found: Found, s: Section): (Bytes, Found, Option<Error>) {
    match KindOf(s)
    case SysDirs => (data, Found(Some(ReadAt(data, s.offset, s.size)), s.offset, s.size, found.lenOff), None)
    case SysDirsLen => (data, found.(lenOff := Some(s.offset)), None)
    case LdSoCache => var (d, err) := CacheChanged(newPrefix, data, s); (d, found, err)
    case GccRelocPrefix => var (d, err) := SlotsChanged(newPrefix, data, s.offset, s.size, 0); (d, found, err)
    case Other => (data, found, None)
  }

  function SectionPos(h: Header, i: nat): nat {
    h.shoff + i * h.shentsize
  }

  function SectionBytes(h: Header, data: Bytes, i: nat): Bytes {
    ReadAt(data, SectionPos(h, i), h.shentsize)
  }

  function StrTab(arch: Arch, h: Header, data: Bytes): Option<Bytes> {
    var b := SectionBytes(h, data, h.shstrndx);
    if |b| != SectionSize(arch) then None
    else var s := SectionOf(arch, b, []); Some(ReadAt(data, s.offset, s.size))
  }

  /** The rounds from section i on. */
  function SectionsChanged(arch: Arch, h: Header, strtab: Bytes, newPrefix: Bytes, data: Bytes, found: Found,
                           i: nat): (Bytes, Found, Option<Error>)
    requires i <= h.shnum
    decreases h.shnum - i
  {
    if i == h.shnum then (data, found, None)
    else
      var b := SectionBytes(h, data, i);
      if |b| != SectionSize(arch) then (data, found, Some(StructError))
      else
        var (data', found', err) := SectionChanged(newPrefix, data, found, SectionOf(arch, b, strtab));
        if err.Some? then (data', found', err) else SectionsChanged(arch, h, strtab, newPrefix, data', found', i + 1)
  }

  /** b.split("\0") */
  function SplitNul(b: Bytes): (parts: seq<Bytes>)
    ensures parts != []
    decreases |b|
  {
    var n := UpToNul(b);
    if n == |b| then [b] else [b[..n]] + SplitNul(b[n + 1..])
  }

  /** The paths before the first empty one, rewritten. */
  function NewPaths(newPrefix: Bytes, paths: seq<Bytes>): seq<Bytes> {
    if paths == [] || paths[0] == [] then [] else [Sub(newPrefix, paths[0])] + NewPaths(newPrefix, paths[1..])
  }

  function WordSize(arch: Arch): nat {
    if arch == Elf32 then 4 else 8
  }

  /** The paths, each with its NUL. */
  function Strings(paths: seq<Bytes>): Bytes {
    if paths == [] then [] else paths[0] + [0] + Strings(paths[1..])
  }

  /** Their lengths. */
  function Lengths(w: nat, paths: seq<Bytes>): Bytes {
    if paths == [] then [] else Pack(|paths[0]|, w) + Lengths(w, paths[1..])
  }

  predicate Packable(arch: Arch, paths: seq<Bytes>) {
    forall p | p in paths :: |p| < Limit(WordSize(arch))
  }

  /** The end of change_dl_sysdirs. */
  function SysDirsChanged(arch: Arch, newPrefix: Bytes, data: Bytes, found: Found): (Bytes, Option<Error>) {
    if found.sysdirs.None? then (data, None)
    else if found.lenOff.None? then (data, Some(UnboundLocalError))
    else
      var paths := NewPaths(newPrefix, SplitNul(found.sysdirs.value));
      if !Packable(arch, paths) then (data, Some(StructError))
      else
        var data' := WriteAt(data, found.off, Padded(Strings(paths), found.size));
        (WriteAt(data', found.lenOff.value, Lengths(WordSize(arch), paths)), None)
  }

  function DlSysDirsChanged(arch: Arch, h: Header, data: Bytes, newPrefix: Bytes): (Bytes, Option<Error>) {
    match StrTab(arch, h, data)
    case None => (data, Some(StructError))
    case Some(strtab) =>
      var (data', found, err) := SectionsChanged(arch, h, strtab, newPrefix, data, NOTHING, 0);
      if err.Some? then (data', err) else SysDirsChanged(arch, newPrefix, data', found)
  }

  method ChangeSlots(f: Binary, newPrefix: Bytes, off: nat, size: nat) returns (err: Option<Error>)
    requires f.pos == off
    modifies f
    ensures (f.data, err) == SlotsChanged(newPrefix, old(f.data), off, size, 0)
  {
    hide WriteAt, ReadAt, Rewritten;
    var offset := 0;
    while offset + 4096 <= size
      invariant f.pos == off + offset || offset + 4096 > size
      invariant SlotsChanged(newPrefix, f.data, off, size, offset) == SlotsChanged(newPrefix, old(f.data), off, size, 0)
    {
      var path := f.Read(4096);
      var newPath := Rewritten(newPrefix, path);
      if |newPath| >= 4096 {
        return Some(Exit);
      }
      newPath := newPath + Zeros(4096 - |newPath|);
      f.Seek(off + offset);
      f.Write(newPath);
      offset := offset + 4096;
    }
    err := None;
  }

  method ChangeSection(f: Binary, newPrefix: Bytes, found: Found, s: Section)
    returns (found': Found, err: Option<Error>)
    modifies f
    ensures (f.data, found', err) == SectionChanged(newPrefix, old(f.data), found, s)
  {
    hide WriteAt, ReadAt, Rewritten, SlotsChanged, KindOf;
    found', err := found, None;
    if KindOf(s) != Other {
      f.Seek(s.offset);
      if KindOf(s) == SysDirs {
        var sysdirs := f.Read(s.size);
        found' := Found(Some(sysdirs), s.offset, s.size, found.lenOff);
      } else if KindOf(s) == SysDirsLen {
        found' := found.(lenOff := Some(s.offset));
      } else if KindOf(s) == LdSoCache {
        var path := f.Read(s.size);
        var newPath := Rewritten(newPrefix, path);
        if |newPath| >= s.size {
          err := Some(Exit);
          return;
        }
        newPath := newPath + Zeros(s.size - |newPath|);
        f.Seek(s.offset);
        f.Write(newPath);
      } else {
        err := ChangeSlots(f, newPrefix, s.offset, s.size);
      }
    }
  }

  method ChangeDlSysDirs(f: Binary, arch: Arch, h: Header, newPrefix: Bytes) returns (err: Option<Error>)
    modifies f
    ensures (f.data, err) == DlSysDirsChanged(arch, h, old(f.data), newPrefix)
  {
    hide WriteAt, ReadAt, SectionPos, SectionChanged, NameAt, Field, NewPaths, SplitNul, Packable, Strings, Lengths;
    hide SectionOf;
    f.Seek(SectionPos(h, h.shstrndx));
    var b := f.Read(h.shentsize);
    if |b| != SectionSize(arch) {
      return Some(StructError);
    }
    var sh := SectionOf(arch, b, []);
    f.Seek(sh.offset);
    var strtab := f.Read(sh.size);
    var found := NOTHING;
    for i := 0 to h.shnum
      invariant SectionsChanged(arch, h, strtab, newPrefix, f.data, found, i) ==
                SectionsChanged(arch, h, strtab, newPrefix, old(f.data), NOTHING, 0)
    {
      f.Seek(SectionPos(h, i));
      b := f.Read(h.shentsize);
      if |b| != SectionSize(arch) {
        return Some(StructError);
      }
      found, err := ChangeSection(f, newPrefix, found, SectionOf(arch, b, strtab));
      if err.Some? {
        return err;
      }
    }
    if found.sysdirs.Some? {
      if found.lenOff.None? {
        return Some(UnboundLocalError);
      }
      var ok, sysdirs, sysdirslen := NewSysDirs(arch, newPrefix, SplitNul(found.sysdirs.value));
      if !ok {
        return Some(StructError);
      }
      f.Seek(found.off);
      f.Write(Padded(sysdirs, found.size));
      f.Seek(found.lenOff.value);
      f.Write(sysdirslen);
    }
    err := None;
  }

  /** The loop over the old paths, up to the first empty one. */
  method NewSysDirs(arch: Arch, newPrefix: Bytes, paths: seq<Bytes>)
    returns (ok: bool, sysdirs: Bytes, sysdirslen: Bytes)
    ensures var news := NewPaths(newPrefix, paths);
            && ok == Packable(arch, news)
            && (ok ==> sysdirs == Strings(news) && sysdirslen == Lengths(WordSize(arch), news))
  {
    hide Sub, Pack, Limit;
    ok, sysdirs, sysdirslen := true, [], [];
    ghost var news := NewPaths(newPrefix, paths);
    ghost var done: seq<Bytes> := [];
    for i := 0 to |paths|
      invariant news == done + NewPaths(newPrefix, paths[i..])
      invariant Packable(arch, done) && sysdirs == Strings(done) && sysdirslen == Lengths(WordSize(arch), done)
    {
      if paths[i] == [] {
        PlusEmpty(done);
        return;
      }
      var newPath := Sub(newPrefix, paths[i]);
      assert paths[i..][1..] == paths[i + 1..];
      Assoc(done, [newPath], NewPaths(newPrefix, paths[i + 1..]));
      if |newPath| >= Limit(WordSize(arch)) {
        assert newPath in news;
        ok := false;
        return;
      }
      PathAdded(WordSize(arch), done, newPath);
      sysdirs := sysdirs + newPath + [0];
      sysdirslen := sysdirslen + Pack(|newPath|, WordSize(arch));
      done := done + [newPath];
    }
    PlusEmpty(done);
  }

  lemma {:induction false} PathAdded(w: nat, paths: seq<Bytes>, p: Bytes)
    ensures Strings(paths + [p]) == Strings(paths) + p + [0]
    ensures Lengths(w, paths + [p]) == Lengths(w, paths) + Pack(|p|, w)
  {
    hide Pack;
    if paths == [] {
      assert [p][1..] == [];
      PlusEmpty([p]);
      PlusEmpty(p);
      PlusEmpty(p + [0]);
      PlusEmpty(Pack(|p|, w));
    } else {
      PlusTail(paths, [p]);
      PathAdded(w, paths[1..], p);
      Regroup(paths[0] + [0], Strings(paths[1..]), p, [0]);
      Assoc(Strings(paths[1..]), p, [0]);
      Assoc(Pack(|paths[0]|, w), Lengths(w, paths[1..]), Pack(|p|, w));
    }
  }

  /** The main script, for one file that get_arch recognises. */
  function Relocated(arch: Arch, data: Bytes, newPrefix: Bytes, newDlPath: Bytes): (Bytes, Option<Error>) {
    if |data| < 64 then (data, None)
    else
      var h := HeaderOf(arch, data[..64]);
      var (d, err) := InterpChanged(arch, h, data, newDlPath);
      if err.Some? then (d, err) else DlSysDirsChanged(arch, h, d, newPrefix)
  }

  method Relocate(f: Binary, arch: Arch, newPrefix: Bytes, newDlPath: Bytes) returns (err: Option<Error>)
    modifies f
    ensures (f.data, err) == Relocated(arch, old(f.data), newPrefix, newDlPath)
  {
    hide HeaderOf, InterpChanged, DlSysDirsChanged;
    err := None;
    if |f.data| >= 64 {
      f.Seek(0);
      var b := f.Read(64);
      assert b == f.data[..64];
      var h := HeaderOf(arch, b);
      err := ChangeInterpreter(f, arch, h, newDlPath);
      if err.None? {
        err := ChangeDlSysDirs(f, arch, h, newPrefix);
      }
    }
  }
}
