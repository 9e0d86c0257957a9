/** What the resolver asks the operating system. */
module FileSystem {
  import opened Text

  /** errno values the resolver raises; Other stands for any error of readlink. */
  datatype Errno = ENOENT | ELOOP | EINVAL | Other(code: int)

  datatype Kind = Regular | Directory | Link | Special

  /** A stat result: the file type, and everything else as one number. */
  datatype Stat = Stat(kind: Kind, inode: int)

  /** The answers of one unchanging file system to lstat, stat and readlink.
      None is the error that makes the caller treat the path as missing. */
  datatype FileSystem = FileSystem(
    lstat: string -> Option<Stat>,
    stat: string -> Option<Stat>,
    readlink: string -> Result<string, Errno>)

  predicate IsKind(st: Option<Stat>, kind: Kind) {
    st.Some? && st.value.kind == kind
  }

  /** stat agrees with lstat except on symbolic links, and a link can be read. */
  ghost predicate Coherent(fs: FileSystem) {
    && (forall p :: !IsKind(fs.lstat(p), Link) ==> fs.stat(p) == fs.lstat(p))
    && (forall p :: IsKind(fs.lstat(p), Link) ==> fs.readlink(p).Ok?)
  }

  /** The operating system. Every call advances the clock, and world(t) gives
      the answer at time t: nothing says that two calls see the same files. */
  class Os {
    const world: nat -> FileSystem
    var clock: nat

    constructor (world: nat -> FileSystem)
      ensures this.world == world && clock == 0
    {
      this.world := world;
      clock := 0;
    }

    /** All calls see the file system fs. */
    ghost predicate Fixed(fs: FileSystem) {
      forall t :: world(t) == fs
    }

    method LStat(p: string) returns (st: Option<Stat>)
      modifies this`clock
      ensures st == world(old(clock)).lstat(p) && clock == old(clock) + 1
    {
      st := world(clock).lstat(p);
      clock := clock + 1;
    }

    method Stat(p: string) returns (st: Option<Stat>)
      modifies this`clock
      ensures st == world(old(clock)).stat(p) && clock == old(clock) + 1
    {
      st := world(clock).stat(p);
      clock := clock + 1;
    }

    method ReadLink(p: string) returns (target: Result<string, Errno>)
      modifies this`clock
      ensures target == world(old(clock)).readlink(p) && clock == old(clock) + 1
    {
      target := world(clock).readlink(p);
      clock := clock + 1;
    }
  }
}
