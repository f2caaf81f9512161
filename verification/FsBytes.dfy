/** Files as byte sequences (readi, writei and filewrite's chunking). */
module FsBytes {
  import opened Disk
  import opened Options
  import opened FsBlocks
  import opened FsCount
  import opened FsAlloc

  const MAXBYTES := 71680  // MAXFILE * BSIZE

  /** Byte k of file n, if its block is mapped. */
  function ByteAt(fs: Fs, n: nat, k: nat): (r: Option<byte>)
    requires Shape(fs) && n < |fs.inodes| && k < MAXBYTES
  {
    match DataAt(fs, n, k / BSIZE)
    case None => None
    case Some(d) => Some(d[k % BSIZE])
  }

  /** Every block below the size is mapped. */
  ghost predicate FileOk(fs: Fs, n: nat)
    requires Shape(fs) && n < |fs.inodes|
  {
    fs.inodes[n].size <= MAXBYTES && forall k | 0 <= k < fs.inodes[n].size :: ByteAt(fs, n, k).Some?
  }

  /** The contents of file n. */
  ghost function Bytes(fs: Fs, n: nat): (s: seq<byte>)
    requires Shape(fs) && n < |fs.inodes| && FileOk(fs, n)
    ensures |s| == fs.inodes[n].size
  {
    seq(fs.inodes[n].size, (k: nat) requires k < fs.inodes[n].size => ByteAt(fs, n, k).value)
  }

  /** Ownership, and every file readable up to its size; on disk, inodes are as in memory. */
  ghost predicate FsInv(fs: Fs, owner: map<nat, Ref>) {
    && Shape(fs) && Owned(fs, owner, {})
    && (forall n | 0 <= n < |fs.inodes| :: FileOk(fs, n))
    && fs.dinodes == fs.inodes
  }

  function Min(a: int, b: int): int { if a < b then a else b }

  /** memmove of bytes into a block at offset o. */
  function SpliceBlock(d: Block, o: nat, s: seq<byte>): (r: Block)
    requires o + |s| <= BSIZE
  {
    d[..o] + s + d[o + |s|..]
  }

  /** memmove of bytes into a file at offset off. */
  function Splice(s: seq<byte>, off: nat, src: seq<byte>): (r: seq<byte>)
    requires off <= |s|
  {
    s[..off] + src + if off + |src| < |s| then s[off + |src|..] else []
  }

  // ---- writei ----

  /** How many bytes one turn of the loop moves. */
  function Chunk(left: nat, off: nat): (m: nat)
    ensures left > 0 ==> 0 < m <= left
    ensures off / BSIZE * BSIZE + off % BSIZE == off && off % BSIZE + m <= BSIZE
  {
    Min(left, BSIZE - off % BSIZE)
  }

  /** One turn of writei's loop: map the block, move m bytes, log the buffer. */
  function WriteChunk(fs: Fs, n: nat, off: nat, s: seq<byte>): (r: Option<Fs>)
    requires Shape(fs) && n < |fs.inodes| && off < MAXBYTES && off % BSIZE + |s| <= BSIZE
    ensures r.Some? ==> Keeps(fs, r.value, n)
  {
    match Bmap(fs, n, off / BSIZE)
    case NoSpace => None
    case Mapped(g, addr) =>
      if addr >= |g.disk| then None  // iderw panics: block out of range
      else Some(g.(disk := g.disk[addr := SpliceBlock(g.disk[addr], off % BSIZE, s)]))
  }

  /** writei's loop. */
  function WriteLoop(fs: Fs, n: nat, off: nat, src: seq<byte>): (r: Option<Fs>)
    requires Shape(fs) && n < |fs.inodes| && off + |src| <= MAXBYTES
    ensures r.Some? ==> Keeps(fs, r.value, n)
    decreases |src|
  {
    if src == [] then Some(fs)
    else
      var m := Chunk(|src|, off);
      match WriteChunk(fs, n, off, src[..m])
      case None => None
      case Some(g) => WriteLoop(g, n, off + m, src[m..])
  }

  /** t has src at off in file n, and every other mapped byte of every file as s has. */
  ghost predicate Wrote(s: Fs, t: Fs, n: nat, off: nat, src: seq<byte>)
    requires Shape(s) && Shape(t)
  {
    && n < |s.inodes| && off + |src| <= MAXBYTES
    && t.sb == s.sb && |t.inodes| == |s.inodes|
    && (forall x | 0 <= x < |s.inodes| :: t.inodes[x].size == s.inodes[x].size && t.inodes[x].typ == s.inodes[x].typ)
    && (forall x, k | 0 <= x < |s.inodes| && 0 <= k < MAXBYTES && x != n :: ByteAt(t, x, k) == ByteAt(s, x, k))
    && (forall k | off <= k < off + |src| :: ByteAt(t, n, k) == Some(src[k - off]))
    && forall k | 0 <= k < MAXBYTES && !(off <= k < off + |src|) && ByteAt(s, n, k).Some? :: ByteAt(t, n, k) == ByteAt(s, n, k)
  }

  lemma {:induction false} PutChunk(g: Fs, t: Fs, n: nat, off: nat, s: seq<byte>, d: Block)
    requires Shape(g) && Shape(t) && n < |g.inodes| && off + |s| <= MAXBYTES && off < MAXBYTES && off % BSIZE + |s| <= BSIZE
    requires DataAt(g, n, off / BSIZE) == Some(d)
    requires OneBlock(g, t, n, off / BSIZE, SpliceBlock(d, off % BSIZE, s))
    ensures Wrote(g, t, n, off, s)
  {
    hide DataAt;
    var o := off % BSIZE;
    forall k | 0 <= k < MAXBYTES
      ensures off <= k < off + |s| ==> ByteAt(t, n, k) == Some(s[k - off])
      ensures !(off <= k < off + |s|) ==> ByteAt(t, n, k) == ByteAt(g, n, k)
    {
      if k / BSIZE == off / BSIZE {
        assert k - off == k % BSIZE - o;
      } else {
        assert !(off <= k < off + |s|);
      }
    }
  }

  lemma {:induction false} FilledChunk(fs: Fs, g: Fs, t: Fs, n: nat, off: nat, s: seq<byte>)
    requires Shape(fs) && Shape(g) && Shape(t) && n < |fs.inodes| && off + |s| <= MAXBYTES && off < MAXBYTES
    requires OneBlock(fs, g, n, off / BSIZE, ZeroBlock()) && DataAt(fs, n, off / BSIZE).None?
    requires Wrote(g, t, n, off, s)
    ensures Wrote(fs, t, n, off, s)
  {
    hide DataAt;
    forall k | 0 <= k < MAXBYTES && ByteAt(fs, n, k).Some? ensures ByteAt(g, n, k) == ByteAt(fs, n, k) {
      assert k / BSIZE != off / BSIZE;
    }
  }

  lemma {:induction false} WriteChunkOk(fs: Fs, owner: map<nat, Ref>, n: nat, off: nat, s: seq<byte>) returns (owner': map<nat, Ref>)
    requires Owned(fs, owner, {}) && n < |fs.inodes| && off + |s| <= MAXBYTES && off < MAXBYTES && off % BSIZE + |s| <= BSIZE
    ensures var r := WriteChunk(fs, n, off, s);
            && (r.Some? ==> Owned(r.value, owner', {}) && Wrote(fs, r.value, n, off, s))
            && (r.Some? && ByteAt(fs, n, off).Some? ==> r.value.inodes == fs.inodes)
            && (r.None? ==> Bmap(fs, n, off / BSIZE).NoSpace?)
  {
    hide Bmap, SpliceBlock, Wrote, OneBlock, IsSet, AddrOf;
    var bn := off / BSIZE;
    owner' := BmapOk(fs, owner, n, bn);
    var b := Bmap(fs, n, bn);
    if b.Mapped? {
      var g := b.fs;
      assert b.addr in owner';
      var d := g.disk[b.addr];
      assert DataAt(g, n, bn) == Some(d);
      PutData(g, owner', {}, n, bn, SpliceBlock(d, off % BSIZE, s));
      var t := WriteChunk(fs, n, off, s).value;
      PutChunk(g, t, n, off, s, d);
      if DataAt(fs, n, bn).None? {
        FilledChunk(fs, g, t, n, off, s);
      }
    }
  }

  lemma {:induction false} WroteThen(s: Fs, g: Fs, t: Fs, n: nat, off: nat, a: seq<byte>, b: seq<byte>)
    requires Shape(s) && Shape(g) && Shape(t) && Wrote(s, g, n, off, a) && Wrote(g, t, n, off + |a|, b)
    ensures Wrote(s, t, n, off, a + b)
  {
    hide ByteAt;
    forall k | off <= k < off + |a + b| ensures ByteAt(t, n, k) == Some((a + b)[k - off]) {
      if k < off + |a| {
        assert ByteAt(g, n, k) == Some(a[k - off]);
      }
    }
  }

  lemma WroteNothing(s: Fs, n: nat, off: nat)
    requires Shape(s) && n < |s.inodes| && off <= MAXBYTES
    ensures Wrote(s, s, n, off, [])
  {
  }

  lemma StillMapped(s: Fs, t: Fs, n: nat, off: nat, src: seq<byte>, from: nat, len: nat)
    requires Shape(s) && Shape(t) && Wrote(s, t, n, off, src) && from + len <= MAXBYTES
    requires forall k | from <= k < from + len :: ByteAt(s, n, k).Some?
    ensures forall k | from <= k < from + len :: ByteAt(t, n, k).Some?
  {
    hide ByteAt;
  }

  /** writei's loop puts the source bytes at the offset, disturbs no other byte of any file,
      and keeps ownership. */
  lemma {:induction false} WriteLoopOk(fs: Fs, owner: map<nat, Ref>, n: nat, off: nat, src: seq<byte>) returns (owner': map<nat, Ref>)
    requires Owned(fs, owner, {}) && n < |fs.inodes| && off + |src| <= MAXBYTES
    ensures var r := WriteLoop(fs, n, off, src);
            && (r.Some? ==> Owned(r.value, owner', {}) && Wrote(fs, r.value, n, off, src))
            && (r.Some? && (forall k | off <= k < off + |src| :: ByteAt(fs, n, k).Some?) ==> r.value.inodes == fs.inodes)
    decreases |src|
  {
    hide Wrote, WriteChunk, IsSet, AddrOf;
    owner' := owner;
    if src == [] {
      WroteNothing(fs, n, off);
    } else {
      var m := Chunk(|src|, off);
      owner' := WriteChunkOk(fs, owner, n, off, src[..m]);
      var c := WriteChunk(fs, n, off, src[..m]);
      if c.Some? {
        owner' := WriteLoopOk(c.value, owner', n, off + m, src[m..]);
        var r := WriteLoop(fs, n, off, src);
        if r.Some? {
          WroteThen(fs, c.value, r.value, n, off, src[..m], src[m..]);
          assert src[..m] + src[m..] == src;
          if forall k | off <= k < off + |src| :: ByteAt(fs, n, k).Some? {
            StillMapped(fs, c.value, n, off, src[..m], off + m, |src| - m);
          }
        }
      }
    }
  }

  // ---- how many blocks a write takes ----

  predicate Has(fs: Fs, n: nat, bn: nat)
    requires Shape(fs) && n < |fs.inodes| && bn < MAXFILE
  {
    AddrOf(fs, RefOf(n, bn)) != 0
  }

  predicate HasIndirect(fs: Fs, n: nat)
    requires Shape(fs) && n < |fs.inodes|
  {
    fs.inodes[n].addrs[NDIRECT] != 0
  }

  /** Positions i..j of file n without a block. */
  function Missing(fs: Fs, n: nat, i: nat, j: nat): (k: nat)
    requires Shape(fs) && n < |fs.inodes| && j <= MAXFILE
    decreases j - i
  {
    if i >= j then 0 else (if Has(fs, n, i) then 0 else 1) + Missing(fs, n, i + 1, j)
  }

  /** Blocks to add for positions i..j: the missing ones, and the indirect block if it is needed first. */
  function Need(fs: Fs, n: nat, i: nat, j: nat): (k: nat)
    requires Shape(fs) && n < |fs.inodes| && j <= MAXFILE
  {
    if i >= j then 0 else Missing(fs, n, i, j) + if j > NDIRECT && !HasIndirect(fs, n) then 1 else 0
  }

  /** t has the blocks of s, and those of positions i..j. */
  ghost predicate Filled(s: Fs, t: Fs, n: nat, i: nat, j: nat) {
    && Shape(s) && Shape(t) && n < |s.inodes| == |t.inodes| && i < j <= MAXFILE
    && (forall k: nat | k < MAXFILE :: Has(t, n, k) <==> Has(s, n, k) || i <= k < j)
    && (HasIndirect(t, n) <==> HasIndirect(s, n) || j > NDIRECT)
  }

  lemma {:induction false} MissingSplit(fs: Fs, n: nat, i: nat, j: nat, k: nat)
    requires Shape(fs) && n < |fs.inodes| && i <= j <= k <= MAXFILE
    ensures Missing(fs, n, i, k) == Missing(fs, n, i, j) + Missing(fs, n, j, k)
    decreases j - i
  {
    hide Has;
    if i < j {
      MissingSplit(fs, n, i + 1, j, k);
    }
  }

  lemma {:induction false} MissingSame(s: Fs, t: Fs, n: nat, i: nat, j: nat)
    requires Shape(s) && Shape(t) && n < |s.inodes| == |t.inodes| && j <= MAXFILE
    requires forall k | i <= k < j :: Has(t, n, k) == Has(s, n, k)
    ensures Missing(t, n, i, j) == Missing(s, n, i, j)
    decreases j - i
  {
    hide Has;
    if i < j {
      MissingSame(s, t, n, i + 1, j);
    }
  }

  lemma {:induction false} MissingNone(fs: Fs, n: nat, i: nat, j: nat)
    requires Shape(fs) && n < |fs.inodes| && j <= MAXFILE && forall k | i <= k < j :: Has(fs, n, k)
    ensures Missing(fs, n, i, j) == 0
    decreases j - i
  {
    hide Has;
    if i < j {
      MissingNone(fs, n, i + 1, j);
    }
  }

  /** After positions i..j are filled, going on from i2 to j2 needs what is left of i..j2. */
  lemma {:induction false} NeedSplit(s: Fs, t: Fs, n: nat, i: nat, j: nat, i2: nat, j2: nat)
    requires Filled(s, t, n, i, j) && i <= i2 <= j <= j2 <= MAXFILE
    ensures Need(s, n, i, j2) == Need(s, n, i, j) + Need(t, n, i2, j2)
  {
    hide Has, HasIndirect, Missing;
    MissingSplit(s, n, i, j, j2);
    if i2 < j2 {
      MissingSplit(t, n, i2, j, j2);
      MissingNone(t, n, i2, j);
    }
    MissingSame(s, t, n, j, j2);
    if i2 == j2 || j == j2 {
      MissingEmpty(s, n, j2);
    }
  }

  lemma MissingEmpty(fs: Fs, n: nat, j: nat)
    requires Shape(fs) && n < |fs.inodes| && j <= MAXFILE
    ensures Missing(fs, n, j, j) == 0
  {
  }

  lemma {:induction false} FilledThen(s: Fs, g: Fs, t: Fs, n: nat, i: nat, j: nat, i2: nat, j2: nat)
    requires Filled(s, g, n, i, j) && Filled(g, t, n, i2, j2) && i <= i2 <= j <= j2
    ensures Filled(s, t, n, i, j2)
  {
    hide Has, HasIndirect;
  }

  lemma {:induction false} HasData(fs: Fs, owner: map<nat, Ref>, n: nat, k: nat)
    requires Owned(fs, owner, {}) && n < |fs.inodes| && k < MAXFILE
    ensures Has(fs, n, k) <==> DataAt(fs, n, k).Some?
  {
    hide IsSet, AddrOf;
    var r := RefOf(n, k);
    assert RefOk(fs, r);
    assert AddrOf(fs, r) != 0 ==> AddrOf(fs, r) in owner;
  }

  /** One turn of the loop fills one position and takes exactly the blocks it needs; it fails
      exactly when there are fewer. */
  lemma {:induction false} WriteChunkCount(fs: Fs, owner: map<nat, Ref>, n: nat, off: nat, s: seq<byte>)
    requires Owned(fs, owner, {}) && n < |fs.inodes| && off + |s| <= MAXBYTES && off < MAXBYTES && off % BSIZE + |s| <= BSIZE
    ensures var r, bn := WriteChunk(fs, n, off, s), off / BSIZE;
            && (r.None? <==> FreeBlocks(fs) < Need(fs, n, bn, bn + 1))
            && (r.Some? ==> FreeBlocks(r.value) == FreeBlocks(fs) - Need(fs, n, bn, bn + 1) && Filled(fs, r.value, n, bn, bn + 1))
  {
    hide Bmap, SpliceBlock, Wrote, OneBlock, IsSet, FreeBlocks, Filled, Need, BmapNeed, WriteChunk;
    var bn := off / BSIZE;
    NeedOne(fs, n, bn);
    BmapCount(fs, owner, n, bn);
    var w := BmapOk(fs, owner, n, bn);
    var u := WriteChunkOk(fs, owner, n, off, s);
    var b, r := Bmap(fs, n, bn), WriteChunk(fs, n, off, s);
    if b.Mapped? {
      assert b.addr in w;
      ChunkIs(fs, n, off, s);
      var t := r.value;
      DataCount(b.fs, t);
      PutData(b.fs, w, {}, n, bn, t.disk[b.addr]);
      ChunkFilled(fs, owner, b.fs, w, t, u, n, bn, t.disk[b.addr]);
    } else {
      NoChunk(fs, n, off, s);
    }
  }

  lemma NeedOne(fs: Fs, n: nat, bn: nat)
    requires Shape(fs) && n < |fs.inodes| && bn < MAXFILE
    ensures Need(fs, n, bn, bn + 1) == BmapNeed(fs, n, bn)
  {
    hide Word;
    assert Missing(fs, n, bn, bn + 1) == if Has(fs, n, bn) then 0 else 1;
  }

  lemma ChunkIs(fs: Fs, n: nat, off: nat, s: seq<byte>)
    requires Shape(fs) && n < |fs.inodes| && off < MAXBYTES && off % BSIZE + |s| <= BSIZE
    requires Bmap(fs, n, off / BSIZE).Mapped? && Bmap(fs, n, off / BSIZE).addr < |Bmap(fs, n, off / BSIZE).fs.disk|
    ensures var r, b := WriteChunk(fs, n, off, s), Bmap(fs, n, off / BSIZE);
            r.Some? && b.addr < |r.value.disk| && r.value == b.fs.(disk := b.fs.disk[b.addr := r.value.disk[b.addr]])
  {
    hide Bmap, SpliceBlock;
  }

  lemma NoChunk(fs: Fs, n: nat, off: nat, s: seq<byte>)
    requires Shape(fs) && n < |fs.inodes| && off < MAXBYTES && off % BSIZE + |s| <= BSIZE && Bmap(fs, n, off / BSIZE).NoSpace?
    ensures WriteChunk(fs, n, off, s).None?
  {
    hide Bmap;
  }

  lemma {:induction false} ChunkFilled(fs: Fs, w0: map<nat, Ref>, g: Fs, w1: map<nat, Ref>, t: Fs, w2: map<nat, Ref>, n: nat, bn: nat, d: Block)
    requires Owned(fs, w0, {}) && Owned(g, w1, {}) && Owned(t, w2, {}) && n < |fs.inodes| == |g.inodes| && bn < MAXFILE
    requires OneBlock(g, t, n, bn, d) && t.inodes == g.inodes
    requires g == fs || OneBlock(fs, g, n, bn, ZeroBlock())
    requires g.inodes[n].addrs[NDIRECT] == 0 <==> fs.inodes[n].addrs[NDIRECT] == 0 && bn < NDIRECT
    ensures Filled(fs, t, n, bn, bn + 1)
  {
    hide Owned, DataAt, Has;
    forall k: nat | k < MAXFILE ensures Has(t, n, k) <==> Has(fs, n, k) || k == bn {
      HasData(fs, w0, n, k);
      HasData(t, w2, n, k);
    }
  }

  function BlocksEnd(off: nat, len: nat): (j: nat) {
    (off + len + 511) / BSIZE
  }

  /** Blocks that writing len bytes at off adds to file n. */
  function WriteNeed(fs: Fs, n: nat, off: nat, len: nat): (k: nat)
    requires Shape(fs) && n < |fs.inodes| && off + len <= MAXBYTES
  {
    if len == 0 then 0 else Need(fs, n, off / BSIZE, BlocksEnd(off, len))
  }

  lemma ChunkEnd(off: nat, len: nat)
    requires len > 0 && off + len <= MAXBYTES
    ensures var m := Chunk(len, off);
            && BlocksEnd(off, m) == off / BSIZE + 1 <= BlocksEnd(off, len) <= MAXFILE && off < MAXBYTES
            && (m < len ==> (off + m) / BSIZE == off / BSIZE + 1 && BlocksEnd(off + m, len - m) == BlocksEnd(off, len))
  {
  }

  /** The loop fails exactly when fewer blocks are free than the write adds. */
  lemma {:induction false} WriteLoopCount(fs: Fs, owner: map<nat, Ref>, n: nat, off: nat, src: seq<byte>)
    requires Owned(fs, owner, {}) && n < |fs.inodes| && off + |src| <= MAXBYTES
    ensures var r, need := WriteLoop(fs, n, off, src), WriteNeed(fs, n, off, |src|);
            && (r.None? <==> FreeBlocks(fs) < need)
            && (r.Some? ==> FreeBlocks(r.value) == FreeBlocks(fs) - need)
            && (r.Some? && src != [] ==> Filled(fs, r.value, n, off / BSIZE, BlocksEnd(off, |src|)))
    decreases |src|
  {
    hide Wrote, WriteChunk, IsSet, AddrOf, FreeBlocks, Filled, Need, Chunk, BlocksEnd;
    if src != [] {
      var m := Chunk(|src|, off);
      ChunkEnd(off, |src|);
      WriteChunkCount(fs, owner, n, off, src[..m]);
      var w := WriteChunkOk(fs, owner, n, off, src[..m]);
      var c := WriteChunk(fs, n, off, src[..m]);
      var i, j := off / BSIZE, BlocksEnd(off, |src|);
      if c.Some? {
        WriteLoopCount(c.value, w, n, off + m, src[m..]);
        if m < |src| {
          NeedSplit(fs, c.value, n, i, i + 1, i + 1, j);
          var r := WriteLoop(fs, n, off, src);
          if r.Some? {
            FilledThen(fs, c.value, r.value, n, i, i + 1, i + 1, j);
          }
        }
      } else if m < |src| {
        NeedGrows(fs, n, i, i + 1, j);
      }
    }
  }

  lemma {:induction false} NeedGrows(fs: Fs, n: nat, i: nat, j: nat, k: nat)
    requires Shape(fs) && n < |fs.inodes| && i < j <= k <= MAXFILE
    ensures Need(fs, n, i, j) <= Need(fs, n, i, k)
  {
    hide Has, HasIndirect, Missing;
    MissingSplit(fs, n, i, j, k);
  }

  datatype WriteResult = Done(fs: Fs) | Rejected | Panic

  /** writei's tests on offset and count, in 32-bit arithmetic. */
  predicate TooFar(size: nat, off: nat, n: nat) {
    off > size || (off + n) % LIMIT < off || (off + n) % LIMIT > MAXBYTES
  }

  /** writei for a regular file or directory; Panic is where balloc finds no block. */
  function Writei(fs: Fs, n: nat, off: nat, src: seq<byte>): (r: WriteResult)
    requires Shape(fs) && n < |fs.inodes| && off < LIMIT && |src| < LIMIT
    ensures r.Done? ==> Shape(r.fs) && off + |src| <= MAXBYTES && SameInodes(fs, r.fs, n)
    ensures r.Done? ==> r.fs.inodes[n].size == if src != [] && off + |src| > fs.inodes[n].size then off + |src| else fs.inodes[n].size
  {
    if TooFar(fs.inodes[n].size, off, |src|) then Rejected
    else
      match WriteLoop(fs, n, off, src)
      case None => Panic
      case Some(t) => Done(if |src| > 0 && off + |src| > t.inodes[n].size then Resized(t, n, off + |src|) else t)
  }

  /** ip->size = size; iupdate(ip) */
  function Resized(t: Fs, n: nat, size: nat): (r: Fs)
    requires Shape(t) && n < |t.inodes|
    ensures Shape(r)
  {
    var ip := t.inodes[n].(size := size);
    t.(inodes := t.inodes[n := ip], dinodes := t.dinodes[n := ip])
  }

  lemma {:induction false} ResizedRefs(t: Fs, owner: map<nat, Ref>, n: nat, size: nat)
    requires Owned(t, owner, {}) && n < |t.inodes|
    ensures var r := Resized(t, n, size);
            Owned(r, owner, {}) && forall x, k | 0 <= x < |t.inodes| && 0 <= k < MAXBYTES :: ByteAt(r, x, k) == ByteAt(t, x, k)
  {
    hide Word, IsSet;
    var r := Resized(t, n, size);
    assert forall q :: RefOk(r, q) == RefOk(t, q);
    assert forall q | RefOk(t, q) :: AddrOf(r, q) == AddrOf(t, q);
    SameBits(t, r);
    forall x, bn | 0 <= x < |t.inodes| && 0 <= bn < MAXFILE ensures DataAt(r, x, bn) == DataAt(t, x, bn) {
      assert RefOk(t, RefOf(x, bn));
    }
  }

  /** The bytes of every file after writei has set the size. */
  lemma {:induction false} WriteiBytes(fs: Fs, t: Fs, r: Fs, n: nat, off: nat, src: seq<byte>)
    requires Shape(fs) && Shape(t) && Shape(r) && Wrote(fs, t, n, off, src) && n < |fs.inodes| == |r.inodes|
    requires (forall x | 0 <= x < |fs.inodes| :: FileOk(fs, x)) && off <= fs.inodes[n].size
    requires forall x, k | 0 <= x < |t.inodes| && 0 <= k < MAXBYTES :: ByteAt(r, x, k) == ByteAt(t, x, k)
    requires forall x | 0 <= x < |t.inodes| && x != n :: r.inodes[x].size == t.inodes[x].size
    requires r.inodes[n].size == if off + |src| > fs.inodes[n].size then off + |src| else fs.inodes[n].size
    ensures forall x | 0 <= x < |fs.inodes| :: FileOk(r, x)
    ensures Bytes(r, n) == Splice(Bytes(fs, n), off, src)
    ensures forall x | 0 <= x < |fs.inodes| && x != n :: Bytes(r, x) == Bytes(fs, x)
  {
    hide ByteAt;
    forall x | 0 <= x < |fs.inodes| ensures FileOk(r, x) {
      assert FileOk(fs, x);
    }
    assert Bytes(r, n) == Splice(Bytes(fs, n), off, src);
    forall x | 0 <= x < |fs.inodes| && x != n ensures Bytes(r, x) == Bytes(fs, x) {
      assert FileOk(fs, x) && FileOk(r, x);
    }
  }

  /** writei is a splice: on success file n holds its old bytes with src put at off, its size
      is the larger of the old size and off plus the count, no other file changes, ownership
      holds and the inode on disk is up to date. It is refused exactly when off is past the
      end or the write would pass the largest file size, and else panics exactly when fewer
      blocks are free than it adds. */
  lemma {:induction false} WriteiSplices(fs: Fs, owner: map<nat, Ref>, n: nat, off: nat, src: seq<byte>) returns (owner': map<nat, Ref>)
    requires FsInv(fs, owner) && n < |fs.inodes| && off < LIMIT && |src| < LIMIT
    ensures Writei(fs, n, off, src).Rejected? <==> off > fs.inodes[n].size || off + |src| > MAXBYTES
    ensures off <= fs.inodes[n].size && off + |src| <= MAXBYTES ==>
              (Writei(fs, n, off, src).Panic? <==> FreeBlocks(fs) < WriteNeed(fs, n, off, |src|))
    ensures Writei(fs, n, off, src).Done? ==>
              var t := Writei(fs, n, off, src).fs;
              && FsInv(t, owner') && |t.inodes| == |fs.inodes|
              && (forall x | 0 <= x < |fs.inodes| :: t.inodes[x].typ == fs.inodes[x].typ)
              && (forall x | 0 <= x < |fs.inodes| && x != n :: t.inodes[x] == fs.inodes[x])
              && FreeBlocks(t) == FreeBlocks(fs) - WriteNeed(fs, n, off, |src|)
              && Bytes(t, n) == Splice(Bytes(fs, n), off, src)
              && forall x | 0 <= x < |fs.inodes| && x != n :: Bytes(t, x) == Bytes(fs, x)
  {
    hide IsSet, AddrOf, ByteAt, WriteLoop, Bytes, Splice, FreeBlocks, WriteNeed;
    owner' := owner;
    assert FileOk(fs, n);
    if !TooFar(fs.inodes[n].size, off, |src|) {
      WriteiCount(fs, owner, n, off, src);
      owner' := WriteLoopOk(fs, owner, n, off, src);
      var l := WriteLoop(fs, n, off, src);
      if l.Some? {
        var t := l.value;
        var r := Writei(fs, n, off, src).fs;
        ResizedRefs(t, owner', n, off + |src|);
        WriteiBytes(fs, t, r, n, off, src);
        WriteiSynced(fs, t, r, n);
      }
    }
  }

  lemma {:induction false} WriteiCount(fs: Fs, owner: map<nat, Ref>, n: nat, off: nat, src: seq<byte>)
    requires Owned(fs, owner, {}) && n < |fs.inodes| && off <= fs.inodes[n].size && off + |src| <= MAXBYTES
    ensures var r, need := Writei(fs, n, off, src), WriteNeed(fs, n, off, |src|);
            && (r.Panic? <==> FreeBlocks(fs) < need)
            && (r.Done? ==> FreeBlocks(r.fs) == FreeBlocks(fs) - need)
            && (r.Done? && src != [] ==> Filled(fs, r.fs, n, off / BSIZE, BlocksEnd(off, |src|)))
  {
    hide IsSet, AddrOf, WriteLoop, FreeBlocks, WriteNeed, Filled;
    WriteLoopCount(fs, owner, n, off, src);
    var l := WriteLoop(fs, n, off, src);
    if l.Some? && src != [] {
      var t := l.value;
      var r := Resized(t, n, off + |src|);
      DataCount(t, r);
      ResizedFilled(fs, t, n, off + |src|, off / BSIZE, BlocksEnd(off, |src|));
    }
  }

  lemma {:induction false} ResizedFilled(fs: Fs, t: Fs, n: nat, size: nat, i: nat, j: nat)
    requires Filled(fs, t, n, i, j)
    ensures Filled(fs, Resized(t, n, size), n, i, j)
  {
    hide Word;
    var r := Resized(t, n, size);
    assert forall k: nat | k < MAXFILE :: Has(r, n, k) == Has(t, n, k);
  }

  lemma WriteiSynced(fs: Fs, t: Fs, r: Fs, n: nat)
    requires n < |fs.inodes| && fs.dinodes == fs.inodes && Keeps(fs, t, n)
    requires (r == t && t.inodes == fs.inodes) || exists size: nat :: r == Resized(t, n, size)
    ensures r.dinodes == r.inodes && |r.inodes| == |fs.inodes|
  {
  }

  // ---- readi ----

  /** readi's loop; bmap could allocate, so the file system is part of the result. */
  function ReadLoop(fs: Fs, n: nat, off: nat, cnt: nat): (r: Option<(Fs, seq<byte>)>)
    requires Shape(fs) && n < |fs.inodes| && off + cnt <= MAXBYTES
    decreases cnt
  {
    if cnt == 0 then Some((fs, []))
    else
      var m := Chunk(cnt, off);
      match Bmap(fs, n, off / BSIZE)
      case NoSpace => None
      case Mapped(g, addr) =>
        if addr >= |g.disk| then None  // iderw panics: block out of range
        else
          match ReadLoop(g, n, off + m, cnt - m)
          case None => None
          case Some((t, rest)) => Some((t, g.disk[addr][off % BSIZE..off % BSIZE + m] + rest))
  }

  lemma {:induction false} ReadLoopOk(fs: Fs, owner: map<nat, Ref>, n: nat, off: nat, cnt: nat)
    requires Owned(fs, owner, {}) && n < |fs.inodes| && off + cnt <= MAXBYTES
    requires forall k | off <= k < off + cnt :: ByteAt(fs, n, k).Some?
    ensures var r := ReadLoop(fs, n, off, cnt);
            && r.Some? && r.value.0 == fs && |r.value.1| == cnt
            && forall k | off <= k < off + cnt :: r.value.1[k - off] == ByteAt(fs, n, k).value
    decreases cnt
  {
    hide IsSet, AddrOf, Bmap;
    if cnt > 0 {
      var m := Chunk(cnt, off);
      var bn := off / BSIZE;
      assert ByteAt(fs, n, off).Some?;
      var owner' := BmapOk(fs, owner, n, bn);
      MappedInRange(fs, owner, n, bn);
      ReadLoopOk(fs, owner, n, off + m, cnt - m);
      var d := DataAt(fs, n, bn).value;
      var here := d[off % BSIZE..off % BSIZE + m];
      var r := ReadLoop(fs, n, off, cnt).value.1;
      forall k | off <= k < off + cnt ensures r[k - off] == ByteAt(fs, n, k).value {
        if k < off + m {
          assert k / BSIZE == bn && k % BSIZE == off % BSIZE + (k - off);
          assert r[k - off] == here[k - off];
        }
      }
    }
  }

  lemma MappedInRange(fs: Fs, owner: map<nat, Ref>, n: nat, bn: nat)
    requires Owned(fs, owner, {}) && n < |fs.inodes| && bn < MAXFILE && DataAt(fs, n, bn).Some?
    ensures RefOk(fs, RefOf(n, bn))
    ensures var a := AddrOf(fs, RefOf(n, bn)); 0 < a < |fs.disk| && DataAt(fs, n, bn) == Some(fs.disk[a])
  {
  }

  datatype ReadResult = Read(fs: Fs, bytes: seq<byte>) | ReadRejected | ReadPanic

  /** readi for a regular file or directory. */
  function Readi(fs: Fs, n: nat, off: nat, cnt: nat): (r: ReadResult)
    requires Shape(fs) && n < |fs.inodes| && off < LIMIT && cnt < LIMIT && fs.inodes[n].size <= MAXBYTES
  {
    var size := fs.inodes[n].size;
    if off > size || (off + cnt) % LIMIT < off then ReadRejected
    else
      match ReadLoop(fs, n, off, if off + cnt > size then size - off else cnt)
      case None => ReadPanic
      case Some((t, s)) => Read(t, s)
  }

  /** readi returns exactly the file's bytes in the range, clipped to the size, and changes
      nothing: it never allocates. It is refused exactly when off is past the end or the
      range overflows 32 bits. */
  lemma {:induction false} ReadiReads(fs: Fs, owner: map<nat, Ref>, n: nat, off: nat, cnt: nat)
    requires FsInv(fs, owner) && n < |fs.inodes| && off < LIMIT && cnt < LIMIT
    ensures FileOk(fs, n)
    ensures var size := fs.inodes[n].size;
            Readi(fs, n, off, cnt) == if off > size || off + cnt >= LIMIT then ReadRejected
                                      else Read(fs, Bytes(fs, n)[off..if off + cnt > size then size else off + cnt])
  {
    hide ByteAt, Owned, ReadLoop;
    var size := fs.inodes[n].size;
    assert FileOk(fs, n);
    if !(off > size || off + cnt >= LIMIT) {
      var c := if off + cnt > size then size - off else cnt;
      ReadLoopOk(fs, owner, n, off, c);
      var s := ReadLoop(fs, n, off, c).value.1;
      assert s == Bytes(fs, n)[off..off + c];
    }
  }

  // ---- filewrite ----

  const MAXCHUNK := 6656  // ((LOGSIZE-1-1-2) / 2) * 512

  datatype FileResult = Finished(fs: Fs, off: nat) | Stopped(fs: Fs, off: nat) | Crashed

  /** filewrite's loop over chunks, f->off included; Stopped is the return of -1. */
  function FileWrite(fs: Fs, n: nat, off: nat, src: seq<byte>): (r: FileResult)
    requires Shape(fs) && n < |fs.inodes| && off < LIMIT && |src| < LIMIT
    decreases |src|
  {
    if src == [] then Finished(fs, off)
    else
      var m := Min(|src|, MAXCHUNK);
      match Writei(fs, n, off, src[..m])
      case Rejected => Stopped(fs, off)
      case Panic => Crashed
      case Done(t) => FileWrite(t, n, off + m, src[m..])
  }

  lemma {:induction false} SpliceThen(s: seq<byte>, off: nat, a: seq<byte>, b: seq<byte>)
    requires off <= |s|
    ensures |Splice(s, off, a)| >= off + |a|
    ensures Splice(Splice(s, off, a), off + |a|, b) == Splice(s, off, a + b)
  {
  }

  /** What a chunked write leaves behind: file n with src at off, other files as they were, and
      every inode of the type it had. */
  ghost predicate Spliced(fs: Fs, owner: map<nat, Ref>, t: Fs, owner': map<nat, Ref>, n: nat, off: nat, src: seq<byte>)
    requires FsInv(fs, owner) && FsInv(t, owner') && n < |fs.inodes| == |t.inodes|
  {
    && FileOk(fs, n) && FileOk(t, n) && off <= fs.inodes[n].size && SameInodes(fs, t, n)
    && Bytes(t, n) == Splice(Bytes(fs, n), off, src)
    && forall x | 0 <= x < |fs.inodes| && x != n :: FileOk(fs, x) && FileOk(t, x) && Bytes(t, x) == Bytes(fs, x)
  }

  lemma {:induction false} SplicedThen(fs: Fs, w: map<nat, Ref>, g: Fs, w1: map<nat, Ref>, t: Fs, w2: map<nat, Ref>,
                                       n: nat, off: nat, a: seq<byte>, b: seq<byte>)
    requires FsInv(fs, w) && FsInv(g, w1) && FsInv(t, w2) && n < |fs.inodes| == |g.inodes| == |t.inodes|
    requires Spliced(fs, w, g, w1, n, off, a) && Spliced(g, w1, t, w2, n, off + |a|, b)
    ensures Spliced(fs, w, t, w2, n, off, a + b)
  {
    hide Owned, Bytes, FileOk, Splice;
    SpliceThen(Bytes(fs, n), off, a, b);
  }

  /** How many bytes go into chunks that end inside the largest file. */
  function Fit(off: nat, len: nat): (k: nat)
    requires off <= MAXBYTES
    ensures k <= len && off + k <= MAXBYTES
  {
    if off + len <= MAXBYTES then len else (MAXBYTES - off) / MAXCHUNK * MAXCHUNK
  }

  lemma FitNext(off: nat, len: nat)
    requires off <= MAXBYTES && len > 0
    ensures var m := Min(len, MAXCHUNK);
            && (off + m > MAXBYTES ==> Fit(off, len) == 0)
            && (off + m <= MAXBYTES ==> Fit(off, len) == m + Fit(off + m, len - m))
  {
    var m := Min(len, MAXCHUNK);
    if off + m <= MAXBYTES < off + len {
      var room := MAXBYTES - off;
      assert room / MAXCHUNK == 1 + (room - MAXCHUNK) / MAXCHUNK;
    }
  }

  /** What a write of a + b bytes needs is what the first a need and then the b. */
  lemma {:induction false} NeedThen(fs: Fs, t: Fs, n: nat, off: nat, a: nat, b: nat)
    requires a > 0 && off + a + b <= MAXBYTES && Filled(fs, t, n, off / BSIZE, BlocksEnd(off, a))
    ensures WriteNeed(fs, n, off, a + b) == WriteNeed(fs, n, off, a) + WriteNeed(t, n, off + a, b)
  {
    hide Filled, Need;
    if b > 0 {
      BlocksGrow(off, a, b);
      NeedSplit(fs, t, n, off / BSIZE, BlocksEnd(off, a), (off + a) / BSIZE, BlocksEnd(off, a + b));
    }
  }

  lemma BlocksGrow(off: nat, a: nat, b: nat)
    requires a > 0 && b > 0 && off + a + b <= MAXBYTES
    ensures off / BSIZE <= (off + a) / BSIZE <= BlocksEnd(off, a) <= BlocksEnd(off, a + b) == BlocksEnd(off + a, b) <= MAXFILE
    ensures off / BSIZE < BlocksEnd(off, a)
  {
  }

  lemma {:induction false} NeedFirst(fs: Fs, n: nat, off: nat, a: nat, b: nat)
    requires Shape(fs) && n < |fs.inodes| && off + a + b <= MAXBYTES
    ensures WriteNeed(fs, n, off, a) <= WriteNeed(fs, n, off, a + b)
  {
    hide Need;
    if a > 0 && b > 0 {
      BlocksGrow(off, a, b);
      NeedGrows(fs, n, off / BSIZE, BlocksEnd(off, a), BlocksEnd(off, a + b));
    }
  }

  /** filewrite panics exactly when fewer blocks are free than the chunks that fit add. */
  lemma {:induction false} FileWriteCount(fs: Fs, owner: map<nat, Ref>, n: nat, off: nat, src: seq<byte>)
    requires FsInv(fs, owner) && n < |fs.inodes| && |src| < LIMIT && off <= fs.inodes[n].size
    ensures off <= MAXBYTES
    ensures FileWrite(fs, n, off, src).Crashed? <==> FreeBlocks(fs) < WriteNeed(fs, n, off, Fit(off, |src|))
    decreases |src|
  {
    hide IsSet, AddrOf, ByteAt, Bytes, Splice, Writei, Owned, FreeBlocks, Filled, Need, Fit;
    assert FileOk(fs, n);
    if src != [] {
      var m := Min(|src|, MAXCHUNK);
      FitNext(off, |src|);
      var owner' := WriteiSplices(fs, owner, n, off, src[..m]);
      var w := Writei(fs, n, off, src[..m]);
      if off + m <= MAXBYTES {
        WriteiCount(fs, owner, n, off, src[..m]);
        var rest := Fit(off + m, |src| - m);
        NeedFirst(fs, n, off, m, rest);
        if w.Done? {
          ChunkSpliced(fs, owner, w.fs, owner', n, off, src[..m]);
          FileWriteCount(w.fs, owner', n, off + m, src[m..]);
          NeedThen(fs, w.fs, n, off, m, rest);
        }
      }
    }
  }

  /** A chunked filewrite is one splice. When it stops early, exactly the bytes before the
      new offset were written; it stops exactly when the whole write would not fit. It panics
      exactly when fewer blocks are free than the chunks that fit add. */
  lemma {:induction false} FileWriteSplices(fs: Fs, owner: map<nat, Ref>, n: nat, off: nat, src: seq<byte>) returns (owner': map<nat, Ref>)
    requires FsInv(fs, owner) && n < |fs.inodes| && |src| < LIMIT && off <= fs.inodes[n].size
    ensures off <= MAXBYTES
    ensures FileWrite(fs, n, off, src).Crashed? <==> FreeBlocks(fs) < WriteNeed(fs, n, off, Fit(off, |src|))
    ensures match FileWrite(fs, n, off, src)
            case Crashed => true
            case Finished(t, o) =>
              && o == off + |src| <= MAXBYTES && FsInv(t, owner') && |t.inodes| == |fs.inodes|
              && Spliced(fs, owner, t, owner', n, off, src)
            case Stopped(t, o) =>
              && o == off + Fit(off, |src|) && off <= o < off + |src| && off + |src| > MAXBYTES && FsInv(t, owner') && |t.inodes| == |fs.inodes|
              && Spliced(fs, owner, t, owner', n, off, src[..o - off])
    decreases |src|
  {
    hide IsSet, AddrOf, ByteAt, Bytes, Splice, Writei, Owned, FreeBlocks, WriteNeed, Fit;
    FileWriteCount(fs, owner, n, off, src);
    owner' := owner;
    assert FileOk(fs, n);
    if src == [] {
      NothingSpliced(fs, owner, n, off);
    } else {
      var m := Min(|src|, MAXCHUNK);
      FitNext(off, |src|);
      owner' := WriteiSplices(fs, owner, n, off, src[..m]);
      var w := Writei(fs, n, off, src[..m]);
      if w.Done? {
        var g, w1 := w.fs, owner';
        ChunkSpliced(fs, owner, g, w1, n, off, src[..m]);
        owner' := FileWriteSplices(g, w1, n, off + m, src[m..]);
        match FileWrite(g, n, off + m, src[m..])
        case Crashed =>
        case Finished(t, o) =>
          SplicedThen(fs, owner, g, w1, t, owner', n, off, src[..m], src[m..]);
          assert src[..m] + src[m..] == src;
        case Stopped(t, o) =>
          SplicedThen(fs, owner, g, w1, t, owner', n, off, src[..m], src[m..][..o - off - m]);
          assert src[..m] + src[m..][..o - off - m] == src[..o - off];
      } else if w.Rejected? {
        NothingSpliced(fs, owner, n, off);
        owner' := owner;
        assert src[..0] == [];
      }
    }
  }

  lemma {:induction false} ChunkSpliced(fs: Fs, w: map<nat, Ref>, g: Fs, w1: map<nat, Ref>, n: nat, off: nat, a: seq<byte>)
    requires FsInv(fs, w) && FsInv(g, w1) && n < |fs.inodes| == |g.inodes| && off <= fs.inodes[n].size
    requires Bytes(g, n) == Splice(Bytes(fs, n), off, a)
    requires SameInodes(fs, g, n) && forall x | 0 <= x < |fs.inodes| && x != n :: Bytes(g, x) == Bytes(fs, x)
    ensures Spliced(fs, w, g, w1, n, off, a) && off + |a| <= g.inodes[n].size
  {
    hide ByteAt;
    assert FileOk(fs, n) && FileOk(g, n);
  }

  lemma {:induction false} NothingSpliced(fs: Fs, owner: map<nat, Ref>, n: nat, off: nat)
    requires FsInv(fs, owner) && n < |fs.inodes| && off <= fs.inodes[n].size
    ensures Spliced(fs, owner, fs, owner, n, off, []) && off <= MAXBYTES
  {
    hide ByteAt;
    assert FileOk(fs, n);
    assert Splice(Bytes(fs, n), off, []) == Bytes(fs, n);
  }

  /** What writei stores, readi at the same offset gives back. */
  lemma {:induction false} WriteThenRead(fs: Fs, owner: map<nat, Ref>, n: nat, off: nat, src: seq<byte>)
    requires FsInv(fs, owner) && n < |fs.inodes| && off < LIMIT && |src| < LIMIT
    requires Writei(fs, n, off, src).Done?
    ensures var t := Writei(fs, n, off, src).fs;
            t.inodes[n].size <= MAXBYTES && Readi(t, n, off, |src|) == Read(t, src)
  {
    hide Owned, Writei, Readi, Bytes, ByteAt;
    assert FileOk(fs, n);
    var owner' := WriteiSplices(fs, owner, n, off, src);
    var t := Writei(fs, n, off, src).fs;
    ReadiReads(t, owner', n, off, |src|);
    assert Splice(Bytes(fs, n), off, src)[off..off + |src|] == src;
  }
}
