/** Blocks of the file system (fs.c): the free map, the block references held by inodes and
    indirect blocks, and who owns each block. The disk is raw blocks as the cache shows them. */
module FsBlocks {
  import opened Disk
  import opened Options

  const NDIRECT := 12
  const NINDIRECT := 128           // BSIZE / sizeof(uint)
  const MAXFILE := 140             // NDIRECT + NINDIRECT
  const BPB := 4096                // bits per free-map block
  const LIMIT := 0x1_0000_0000

  /** From the super block: total blocks, first free-map block, first data block. */
  datatype Super = Super(size: nat, bmapstart: nat, data: nat)

  datatype Inode = Inode(typ: int, size: nat, addrs: seq<nat>)

  /** inodes are the in-memory copies, dinodes what iupdate last wrote. */
  datatype Fs = Fs(sb: Super, disk: seq<Block>, inodes: seq<Inode>, dinodes: seq<Inode>)

  /** A place that can refer to a block. */
  datatype Ref = Direct(inum: nat, i: nat) | Indirect(inum: nat) | Entry(inum: nat, j: nat)

  predicate Shape(fs: Fs) {
    && |fs.disk| == fs.sb.size < LIMIT
    && 0 < fs.sb.data <= fs.sb.size && fs.sb.bmapstart + fs.sb.size / BPB < fs.sb.data
    && |fs.dinodes| == |fs.inodes|
    && forall n | 0 <= n < |fs.inodes| :: |fs.inodes[n].addrs| == NDIRECT + 1 && fs.inodes[n].addrs[NDIRECT] < fs.sb.size
  }

  function BBlock(fs: Fs, b: nat): nat {
    b / BPB + fs.sb.bmapstart
  }

  predicate IsSet(fs: Fs, b: nat)
    requires Shape(fs) && b < fs.sb.size
  {
    MapBit(fs.disk[BBlock(fs, b)], b % BPB)
  }

  predicate RefOk(fs: Fs, r: Ref) {
    r.inum < |fs.inodes| && (r.Direct? ==> r.i < NDIRECT) && (r.Entry? ==> r.j < NINDIRECT)
  }

  /** The block a place refers to; 0 means none. */
  function AddrOf(fs: Fs, r: Ref): (b: nat)
    requires Shape(fs) && RefOk(fs, r)
  {
    var a := fs.inodes[r.inum].addrs;
    match r
    case Direct(_, i) => a[i]
    case Indirect(_) => a[NDIRECT]
    case Entry(_, j) => if a[NDIRECT] == 0 then 0 else Word(fs.disk[a[NDIRECT]], j)
  }

  /** Every referenced block is referenced once, by its owner, and the free map marks exactly
      the metadata blocks, the owned blocks and the blocks in `loose`, which are allocated
      but not yet referenced. */
  ghost predicate Owned(fs: Fs, owner: map<nat, Ref>, loose: set<nat>): (b: bool)
    ensures b ==> Shape(fs)
  {
    && Shape(fs)
    && (forall b | b in owner :: fs.sb.data <= b < fs.sb.size && RefOk(fs, owner[b]) && AddrOf(fs, owner[b]) == b && b !in loose)
    && (forall r | RefOk(fs, r) && AddrOf(fs, r) != 0 :: AddrOf(fs, r) in owner && owner[AddrOf(fs, r)] == r)
    && (forall b | b in loose :: fs.sb.data <= b < fs.sb.size)
    && forall b | 0 <= b < fs.sb.size :: IsSet(fs, b) <==> b < fs.sb.data || b in owner || b in loose
  }

  /** The place that refers to block bn of a file. */
  function RefOf(inum: nat, bn: nat): (r: Ref) {
    if bn < NDIRECT then Direct(inum, bn) else Entry(inum, bn - NDIRECT)
  }

  /** The contents of block bn of file inum, if it has one. */
  function DataAt(fs: Fs, inum: nat, bn: nat): (r: Option<Block>)
    requires Shape(fs) && inum < |fs.inodes| && bn < MAXFILE
  {
    var b := AddrOf(fs, RefOf(inum, bn));
    if 0 < b < |fs.disk| then Some(fs.disk[b]) else None
  }

  /** t agrees with s on all file contents, sizes and types. */
  ghost predicate SameFiles(s: Fs, t: Fs)
    requires Shape(s) && Shape(t)
  {
    && t.sb == s.sb && |t.inodes| == |s.inodes|
    && (forall n | 0 <= n < |s.inodes| :: t.inodes[n].size == s.inodes[n].size && t.inodes[n].typ == s.inodes[n].typ)
    && forall n, bn | 0 <= n < |s.inodes| && 0 <= bn < MAXFILE :: DataAt(t, n, bn) == DataAt(s, n, bn)
  }

  /** t differs from s at most in block bn of file inum, which holds d. */
  ghost predicate OneBlock(s: Fs, t: Fs, inum: nat, bn: nat, d: Block)
    requires Shape(s) && Shape(t)
  {
    && inum < |s.inodes| && bn < MAXFILE
    && t.sb == s.sb && |t.inodes| == |s.inodes|
    && (forall n | 0 <= n < |s.inodes| :: t.inodes[n].size == s.inodes[n].size && t.inodes[n].typ == s.inodes[n].typ)
    && (forall n, k | 0 <= n < |s.inodes| && 0 <= k < MAXFILE && !(n == inum && k == bn) :: DataAt(t, n, k) == DataAt(s, n, k))
    && DataAt(t, inum, bn) == Some(d)
  }

  // ---- the layout on disk ----

  /** Block bn of a file is named by addrs[bn], or past the direct ones by the 32-bit little-endian
      number at 4 * (bn - 12) of the indirect block. */
  lemma {:induction false} FileLayout(fs: Fs, n: nat, bn: nat)
    requires Shape(fs) && n < |fs.inodes| && bn < MAXFILE
    ensures var a := fs.inodes[n].addrs;
            AddrOf(fs, RefOf(n, bn)) == if bn < 12 then a[bn] else if a[12] == 0 then 0 else LittleEndian(fs.disk[a[12]], 4 * (bn - 12), 4)
  {
    hide Word, LittleEndian;
    var a := fs.inodes[n].addrs;
    if bn >= 12 && a[12] != 0 {
      WordBytes(fs.disk[a[12]], bn - 12);
    }
  }

  /** Block b is marked by bit i % 8 of byte i / 8 of free-map block b / 4096, where i is b % 4096. */
  lemma {:induction false} FreeMapLayout(fs: Fs, b: nat)
    requires Shape(fs) && b < fs.sb.size
    ensures fs.sb.bmapstart + b / 4096 < |fs.disk|
    ensures var d, i := fs.disk[fs.sb.bmapstart + b / 4096], b % 4096;
            IsSet(fs, b) <==> d[i / 8] / Pow2(i % 8) % 2 == 1
  {
    hide MapBit, Pow2;
    MapBitDigit(fs.disk[BBlock(fs, b)], b % BPB);
  }

  // ---- what ownership means ----

  /** Block ownership: no block is referenced from two places, and a block is marked in use
      exactly when it is metadata or referenced. */
  lemma {:induction false} OwnershipMeans(fs: Fs, owner: map<nat, Ref>, r: Ref, q: Ref, b: nat)
    requires Owned(fs, owner, {}) && RefOk(fs, r) && RefOk(fs, q) && b < fs.sb.size
    ensures AddrOf(fs, r) == AddrOf(fs, q) != 0 ==> r == q
    ensures AddrOf(fs, r) == b != 0 ==> fs.sb.data <= b && IsSet(fs, b)
    ensures IsSet(fs, b) <==> b < fs.sb.data || exists x | RefOk(fs, x) :: AddrOf(fs, x) == b
  {
    hide AddrOf, IsSet;
    if IsSet(fs, b) && b >= fs.sb.data {
      assert AddrOf(fs, owner[b]) == b;
    }
  }
}
