/** The block layer of fs.c, and filewrite's loop (file.c), as code over the disk and the inode
    table. An `ok` result of false is a panic; after it nothing is promised. */
module FsCode {
  import opened Disk
  import opened Options
  import opened FsBlocks
  import opened FsAlloc
  import opened FsBytes
  import opened FsTrunc

  class FileSystem {
    const sb: Super
    var disk: seq<Block>
    var inodes: seq<Inode>
    var dinodes: seq<Inode>

    function Value(): Fs
      reads this
    {
      Fs(sb, disk, inodes, dinodes)
    }

    constructor (fs: Fs)
      ensures Value() == fs
    {
      sb, disk, inodes, dinodes := fs.sb, fs.disk, fs.inodes, fs.dinodes;
    }

    /** The two nested scans of balloc. */
    method FindFree() returns (found: nat)
      requires Shape(Value())
      ensures found == FirstFree(Value())
    {
      hide MapBit;
      var b := 0;
      while b < sb.size
        invariant b % BPB == 0
        invariant FirstFree(Value()) == FirstFree(Value(), if b < sb.size then b else sb.size)
      {
        assert BBlock(Value(), b) < sb.data;
        var bp := disk[b / BPB + sb.bmapstart];
        var bi := 0;
        while bi < BPB && b + bi < sb.size
          invariant 0 <= bi <= BPB && b + bi <= sb.size
          invariant FirstFree(Value()) == FirstFree(Value(), b + bi)
        {
          InBlock(b, bi);
          assert BBlock(Value(), b + bi) == BBlock(Value(), b);
          if !MapBit(bp, bi) {
            return b + bi;
          }
          bi := bi + 1;
        }
        b := b + BPB;
      }
      found := sb.size;
    }

    method Balloc() returns (ok: bool, b: nat)
      requires Shape(Value())
      modifies this
      ensures ok <==> FirstFree(old(Value())) < sb.size
      ensures ok ==> b == FirstFree(old(Value())) && Value() == FsAlloc.Balloc(old(Value()), b)
    {
      hide SetMapBit;
      b := FindFree();
      ok := b < sb.size;
      if ok {
        var at := b / BPB + sb.bmapstart;
        assert at == BBlock(Value(), b);
        disk := disk[at := SetMapBit(disk[at], b % BPB, true)];
        disk := disk[b := ZeroBlock()];
      }
    }

    method Bfree(b: nat) returns (ok: bool)
      requires Shape(Value()) && b < sb.size
      modifies `disk
      ensures ok <==> IsSet(old(Value()), b)
      ensures ok ==> Value() == SetBit(old(Value()), b, false)
    {
      hide SetMapBit, MapBit;
      var at := b / BPB + sb.bmapstart;
      assert at == BBlock(Value(), b);
      ok := MapBit(disk[at], b % BPB);
      if ok {
        disk := disk[at := SetMapBit(disk[at], b % BPB, false)];
      }
    }

    method SetAddr(n: nat, i: nat, b: nat)
      requires Shape(Value()) && n < |inodes| && i <= NDIRECT && b < sb.size
      modifies `inodes
      ensures Value() == FsAlloc.SetAddr(old(Value()), n, i, b)
    {
      inodes := inodes[n := inodes[n].(addrs := inodes[n].addrs[i := b])];
    }

    method Bmap(n: nat, bn: nat) returns (ok: bool, addr: nat)
      requires Shape(Value()) && n < |inodes|
      modifies this
      ensures bn >= MAXFILE ==> !ok
      ensures bn < MAXFILE ==> ok == FsAlloc.Bmap(old(Value()), n, bn).Mapped?
      ensures ok ==> FsAlloc.Bmap(old(Value()), n, bn) == Mapped(Value(), addr)
    {
      hide FirstFree, FsAlloc.Balloc, Word, SetWord;
      if bn < NDIRECT {
        addr := inodes[n].addrs[bn];
        ok := true;
        if addr == 0 {
          ok, addr := Balloc();
          if ok {
            SetAddr(n, bn, addr);
          }
        }
        return;
      }
      addr := 0;
      if bn - NDIRECT >= NINDIRECT {
        return false, addr;
      }
      var j := bn - NDIRECT;
      addr := inodes[n].addrs[NDIRECT];
      if addr == 0 {
        ok, addr := Balloc();
        if !ok {
          return;
        }
        SetAddr(n, NDIRECT, addr);
      }
      assert Indirected(old(Value()), n) == Some(Value());
      ok, addr := Enter(n, j);
    }

    /** The second half of bmap: entry j of the indirect block. */
    method Enter(n: nat, j: nat) returns (ok: bool, addr: nat)
      requires Shape(Value()) && n < |inodes| && j < NINDIRECT
      modifies this
      ensures ok == Entered(old(Value()), n, j).Mapped?
      ensures ok ==> Entered(old(Value()), n, j) == Mapped(Value(), addr)
    {
      hide FirstFree, FsAlloc.Balloc, Word, SetWord;
      var ind := inodes[n].addrs[NDIRECT];
      addr := Word(disk[ind], j);
      ok := true;
      if addr == 0 {
        ok, addr := Balloc();
        if ok {
          disk := disk[ind := SetWord(disk[ind], j, addr)];
        }
      }
    }

    method Iupdate(n: nat)
      requires n < |inodes| == |dinodes|
      modifies `dinodes
      ensures dinodes == old(dinodes)[n := inodes[n]]
    {
      dinodes := dinodes[n := inodes[n]];
    }

    /** writei for an inode that is not a device: -1, or the byte count. */
    method Writei(n: nat, off: nat, src: seq<byte>) returns (ok: bool, r: int)
      requires Shape(Value()) && n < |inodes| && off < LIMIT && |src| < LIMIT
      modifies this
      ensures ok <==> !FsBytes.Writei(old(Value()), n, off, src).Panic?
      ensures ok && FsBytes.Writei(old(Value()), n, off, src).Rejected? ==> r == -1 && Value() == old(Value())
      ensures ok && FsBytes.Writei(old(Value()), n, off, src).Done? ==>
                r == |src| && Value() == FsBytes.Writei(old(Value()), n, off, src).fs
      ensures ok ==> |inodes| == |old(inodes)| && (forall x | 0 <= x < |inodes| :: inodes[x].typ == old(inodes)[x].typ)
      ensures ok ==> forall x | 0 <= x < |inodes| && x != n :: inodes[x] == old(inodes)[x]
    {
      hide FsAlloc.Bmap, SpliceBlock, WriteLoop;
      if off > inodes[n].size || (off + |src|) % LIMIT < off {
        return true, -1;
      }
      if (off + |src|) % LIMIT > MAXBYTES {
        return true, -1;
      }
      ok, r := true, |src|;
      var tot, o := 0, off;
      assert src[0..] == src;
      while tot < |src|
        invariant tot <= |src| && o == off + tot
        invariant Shape(Value()) && |inodes| == |old(inodes)|
        invariant WriteLoop(old(Value()), n, off, src) == WriteLoop(Value(), n, o, src[tot..])
      {
        var m := Min(|src| - tot, BSIZE - o % BSIZE);
        assert src[tot..][..m] == src[tot..tot + m] && src[tot..][m..] == src[tot + m..];
        WriteTurn(Value(), n, o, src[tot..]);
        var good, addr := Bmap(n, o / BSIZE);
        if !good || addr >= |disk| {
          return false, -1;
        }
        disk := disk[addr := SpliceBlock(disk[addr], o % BSIZE, src[tot..tot + m])];
        tot, o := tot + m, o + m;
      }
      WriteDone(Value(), n, o);
      assert src[tot..] == [];
      if |src| > 0 && o > inodes[n].size {
        inodes := inodes[n := inodes[n].(size := o)];
        Iupdate(n);
      }
    }

    /** readi for an inode that is not a device: -1, or the byte count and the bytes. */
    method Readi(n: nat, off: nat, cnt: nat) returns (ok: bool, r: int, dst: seq<byte>)
      requires Shape(Value()) && n < |inodes| && off < LIMIT && cnt < LIMIT && inodes[n].size <= MAXBYTES
      modifies this
      ensures ok <==> !FsBytes.Readi(old(Value()), n, off, cnt).ReadPanic?
      ensures ok && r == -1 ==> FsBytes.Readi(old(Value()), n, off, cnt).ReadRejected? && Value() == old(Value())
      ensures ok && r != -1 ==> r == |dst| && FsBytes.Readi(old(Value()), n, off, cnt) == Read(Value(), dst)
    {
      hide FsAlloc.Bmap, ReadLoop, Then;
      dst := [];
      if off > inodes[n].size || (off + cnt) % LIMIT < off {
        return true, -1, dst;
      }
      var want := cnt;
      if off + cnt > inodes[n].size {
        want := inodes[n].size - off;
      }
      var tot, o := 0, off;
      ThenNothing(ReadLoop(Value(), n, off, want));
      while tot < want
        invariant tot <= want && o == off + tot && |dst| == tot
        invariant Shape(Value()) && |inodes| == |old(inodes)|
        invariant ReadLoop(old(Value()), n, off, want) == Then(dst, ReadLoop(Value(), n, o, want - tot))
      {
        var m := Min(want - tot, BSIZE - o % BSIZE);
        ReadTurn(Value(), n, o, want - tot, dst);
        var good, addr := Bmap(n, o / BSIZE);
        if !good || addr >= |disk| {
          return false, -1, dst;
        }
        var piece := disk[addr][o % BSIZE..o % BSIZE + m];
        dst := dst + piece;
        tot, o := tot + m, o + m;
      }
      ReadDone(Value(), n, o, dst);
      ok, r := true, want;
    }

    /** filewrite's loop on an inode: the new file offset, and n or -1. */
    method Filewrite(n: nat, off: nat, src: seq<byte>) returns (ok: bool, r: int, o: nat)
      requires Shape(Value()) && n < |inodes| && off < LIMIT && |src| < LIMIT
      modifies this
      ensures ok <==> !FileWrite(old(Value()), n, off, src).Crashed?
      ensures ok && r == -1 ==> FileWrite(old(Value()), n, off, src) == Stopped(Value(), o)
      ensures ok && r != -1 ==> r == |src| && FileWrite(old(Value()), n, off, src) == Finished(Value(), o)
    {
      hide FsBytes.Writei;
      var i := 0;
      o, r := off, -1;
      while i < |src|
        invariant i <= |src| && o < LIMIT
        invariant Shape(Value()) && |inodes| == |old(inodes)|
        invariant FileWrite(old(Value()), n, off, src) == FileWrite(Value(), n, o, src[i..])
      {
        var n1 := |src| - i;
        if n1 > MAXCHUNK {
          n1 := MAXCHUNK;
        }
        assert src[i..][..n1] == src[i..i + n1] && src[i..][n1..] == src[i + n1..];
        ok, r := Writei(n, o, src[i..i + n1]);
        if !ok {
          return;
        }
        if r > 0 {
          o := o + r;
        }
        if r < 0 {
          return true, -1, o;
        }
        i := i + r;
      }
      ok, r := true, |src|;
    }

    /** itrunc: no bfree panics. */
    method Itrunc(n: nat, ghost owner: map<nat, Ref>)
      requires FsInv(Value(), owner) && n < |inodes|
      modifies this
      ensures InRange(old(Value()), n, PLACES) && Value() == FsTrunc.Itrunc(old(Value()), n)
    {
      hide IsSet, AddrOf, Owned, SetBit, FsAlloc.SetAddr, Cleared, FileOk, InRange;
      ghost var s := Value();
      NothingCleared(s, n);
      var i := 0;
      while i < NDIRECT
        invariant 0 <= i <= NDIRECT && Cleared(s, Value(), n, i, i)
      {
        FreeNext(s, Value(), owner, n, i, i);
        DirectAddr(s, Value(), n, i, i);
        if inodes[n].addrs[i] != 0 {
          var ok := Bfree(inodes[n].addrs[i]);
          assert ok;
          ZeroNext(s, Value(), n, i + 1, i);
          SetAddr(n, i, 0);
        } else {
          ZeroSkip(s, Value(), n, i + 1, i);
        }
        i := i + 1;
      }
      DirectAddr(s, Value(), n, NDIRECT, NDIRECT);
      if inodes[n].addrs[NDIRECT] != 0 {
        FreeEntries(n, s, owner);
        FreeNext(s, Value(), owner, n, MAXFILE, NDIRECT);
        var ok := Bfree(inodes[n].addrs[NDIRECT]);
        assert ok;
        ZeroNext(s, Value(), n, PLACES, NDIRECT);
        SetAddr(n, NDIRECT, 0);
      } else {
        NoEntries(s, Value(), owner, n, NDIRECT);
        ZeroSkip(s, Value(), n, PLACES, NDIRECT);
      }
      AllCleared(s, Value(), n);
      inodes := inodes[n := inodes[n].(size := 0)];
      Iupdate(n);
    }

    /** The entries of the indirect block. */
    method FreeEntries(n: nat, ghost s: Fs, ghost owner: map<nat, Ref>)
      requires FsInv(s, owner) && Cleared(s, Value(), n, NDIRECT, NDIRECT) && s.inodes[n].addrs[NDIRECT] != 0
      modifies `disk
      ensures Cleared(s, Value(), n, MAXFILE, NDIRECT)
    {
      hide IsSet, Owned, SetBit, Word, Cleared, FileOk, InRange;
      DirectAddr(s, Value(), n, NDIRECT, NDIRECT);
      IndirectKept(s, Value(), owner, n);
      var a := disk[inodes[n].addrs[NDIRECT]];
      var j := 0;
      while j < NINDIRECT
        invariant 0 <= j <= NINDIRECT && Cleared(s, Value(), n, NDIRECT + j, NDIRECT)
      {
        FreeNext(s, Value(), owner, n, NDIRECT + j, NDIRECT);
        if Word(a, j) != 0 {
          var ok := Bfree(Word(a, j));
          assert ok;
        }
        j := j + 1;
      }
    }
  }

  // ---- balloc's scan ----

  lemma InBlock(b: nat, bi: nat)
    requires b % BPB == 0 && bi < BPB
    ensures (b + bi) / BPB == b / BPB && (b + bi) % BPB == bi
  {
  }

  // ---- writei's loop ----

  lemma WriteDone(fs: Fs, n: nat, off: nat)
    requires Shape(fs) && n < |fs.inodes| && off <= MAXBYTES
    ensures WriteLoop(fs, n, off, []) == Some(fs)
  {
  }

  lemma {:induction false} WriteTurn(fs: Fs, n: nat, off: nat, src: seq<byte>)
    requires Shape(fs) && n < |fs.inodes| && off + |src| <= MAXBYTES && src != []
    ensures var m := Min(|src|, BSIZE - off % BSIZE);
            && 0 < m <= |src| && off % BSIZE + m <= BSIZE && off < MAXBYTES
            && WriteLoop(fs, n, off, src) ==
               match FsAlloc.Bmap(fs, n, off / BSIZE)
               case NoSpace => None
               case Mapped(g, addr) =>
                 if addr >= |g.disk| then None
                 else WriteLoop(g.(disk := g.disk[addr := SpliceBlock(g.disk[addr], off % BSIZE, src[..m])]), n, off + m, src[m..])
  {
    hide FsAlloc.Bmap, SpliceBlock;
    var m := Chunk(|src|, off);
  }

  // ---- readi's loop ----

  function Then(head: seq<byte>, r: Option<(Fs, seq<byte>)>): Option<(Fs, seq<byte>)> {
    match r
    case None => None
    case Some((t, rest)) => Some((t, head + rest))
  }

  lemma ThenNothing(r: Option<(Fs, seq<byte>)>)
    ensures Then([], r) == r
  {
    if r.Some? {
      assert [] + r.value.1 == r.value.1;
    }
  }

  lemma ReadDone(fs: Fs, n: nat, off: nat, head: seq<byte>)
    requires Shape(fs) && n < |fs.inodes| && off <= MAXBYTES
    ensures Then(head, ReadLoop(fs, n, off, 0)) == Some((fs, head))
  {
    assert head + [] == head;
  }

  lemma {:induction false} ReadTurn(fs: Fs, n: nat, off: nat, cnt: nat, head: seq<byte>)
    requires Shape(fs) && n < |fs.inodes| && off + cnt <= MAXBYTES && cnt > 0
    ensures var m := Min(cnt, BSIZE - off % BSIZE);
            && 0 < m <= cnt && off % BSIZE + m <= BSIZE && off < MAXBYTES
            && Then(head, ReadLoop(fs, n, off, cnt)) ==
               match FsAlloc.Bmap(fs, n, off / BSIZE)
               case NoSpace => None
               case Mapped(g, addr) =>
                 if addr >= |g.disk| then None
                 else Then(head + g.disk[addr][off % BSIZE..off % BSIZE + m], ReadLoop(g, n, off + m, cnt - m))
  {
    hide FsAlloc.Bmap;
    var m := Chunk(cnt, off);
    var b := FsAlloc.Bmap(fs, n, off / BSIZE);
    if b.Mapped? && b.addr < |b.fs.disk| {
      var piece := b.fs.disk[b.addr][off % BSIZE..off % BSIZE + m];
      var rest := ReadLoop(b.fs, n, off + m, cnt - m);
      if rest.Some? {
        assert head + (piece + rest.value.1) == head + piece + rest.value.1;
      }
    }
  }

  // ---- itrunc's loops ----

  ghost predicate InRange(fs: Fs, n: nat, k: nat)
    requires Shape(fs) && n < |fs.inodes| && k <= PLACES
  {
    forall i | 0 <= i < |BlocksUpTo(fs, n, k)| :: BlocksUpTo(fs, n, k)[i] < fs.sb.size
  }

  function ZeroTo(a: seq<nat>, i: nat): (r: seq<nat>)
    ensures |r| == |a|
    ensures forall k | 0 <= k < |a| :: r[k] == if k < i then 0 else a[k]
  {
    seq(|a|, k requires 0 <= k < |a| => if k < i then 0 else a[k])
  }

  /** t is s with the blocks of the first k places of inode n freed and its first i addresses zeroed. */
  ghost predicate Cleared(s: Fs, t: Fs, n: nat, k: nat, i: nat) {
    && Shape(s) && Shape(t) && n < |s.inodes| && k <= PLACES && i <= NDIRECT + 1 && InRange(s, n, k)
    && t.sb == s.sb && t.disk == Freed(s, BlocksUpTo(s, n, k)).disk && t.dinodes == s.dinodes
    && t.inodes == s.inodes[n := s.inodes[n].(addrs := ZeroTo(s.inodes[n].addrs, i))]
  }

  lemma NothingCleared(s: Fs, n: nat)
    requires Shape(s) && n < |s.inodes|
    ensures Cleared(s, s, n, 0, 0)
  {
    assert ZeroTo(s.inodes[n].addrs, 0) == s.inodes[n].addrs;
  }

  /** The next block is allocated, so bfree accepts it. */
  lemma {:induction false} FreeNext(s: Fs, t: Fs, owner: map<nat, Ref>, n: nat, k: nat, i: nat)
    requires FsInv(s, owner) && k < PLACES && Cleared(s, t, n, k, i)
    ensures Shape(t) && t.sb == s.sb && |t.inodes| == |s.inodes|
    ensures var b := AddrOf(s, PlaceAt(n, k));
            && (b == 0 ==> Cleared(s, t, n, k + 1, i))
            && (b != 0 ==> b < s.sb.size && IsSet(t, b) && Cleared(s, SetBit(t, b, false), n, k + 1, i))
  {
    hide AddrOf, IsSet, SetMapBit, FileOk;
    var b, bs := AddrOf(s, PlaceAt(n, k)), BlocksUpTo(s, n, k);
    if b == 0 {
      assert BlocksUpTo(s, n, k + 1) == bs;
    } else {
      NotYetFreed(s, owner, n, k);
      FreedBits(s, bs, b);
      SameBits(Freed(s, bs), t);
      assert (bs + [b])[..|bs|] == bs;
      assert BlocksUpTo(s, n, k + 1) == bs + [b];
      assert BBlock(t, b) == BBlock(Freed(s, bs), b);
    }
  }

  lemma {:induction false} NotYetFreed(s: Fs, owner: map<nat, Ref>, n: nat, k: nat)
    requires Owned(s, owner, {}) && n < |s.inodes| && k < PLACES && AddrOf(s, PlaceAt(n, k)) != 0
    ensures var b := AddrOf(s, PlaceAt(n, k));
            b < s.sb.size && IsSet(s, b) && b !in BlocksUpTo(s, n, k)
  {
    hide AddrOf, IsSet, BlocksUpTo;
    BlocksOwned(s, owner, n, k);
    var r := PlaceAt(n, k);
    assert RefOk(s, r) && PlaceIndex(r) == k;
    var b := AddrOf(s, r);
    assert owner[b] == r;
  }

  lemma ZeroNext(s: Fs, t: Fs, n: nat, k: nat, i: nat)
    requires i <= NDIRECT && Cleared(s, t, n, k, i)
    ensures Cleared(s, FsAlloc.SetAddr(t, n, i, 0), n, k, i + 1)
  {
    hide Freed, InRange, BlocksUpTo;
    assert ZeroTo(s.inodes[n].addrs, i)[i := 0] == ZeroTo(s.inodes[n].addrs, i + 1);
  }

  lemma ZeroSkip(s: Fs, t: Fs, n: nat, k: nat, i: nat)
    requires i <= NDIRECT && Cleared(s, t, n, k, i) && s.inodes[n].addrs[i] == 0
    ensures Cleared(s, t, n, k, i + 1)
  {
    hide Freed, InRange, BlocksUpTo;
    assert ZeroTo(s.inodes[n].addrs, i) == ZeroTo(s.inodes[n].addrs, i + 1);
  }

  lemma DirectAddr(s: Fs, t: Fs, n: nat, k: nat, i: nat)
    requires i <= NDIRECT && Cleared(s, t, n, k, i)
    ensures Shape(t) && t.sb == s.sb && n < |t.inodes| == |s.inodes| && t.inodes[n].addrs[i] == s.inodes[n].addrs[i]
    ensures AddrOf(s, if i < NDIRECT then Direct(n, i) else Indirect(n)) == s.inodes[n].addrs[i]
  {
    hide Freed, InRange, BlocksUpTo;
  }

  lemma IndirectKept(s: Fs, t: Fs, owner: map<nat, Ref>, n: nat)
    requires FsInv(s, owner) && Cleared(s, t, n, NDIRECT, NDIRECT) && s.inodes[n].addrs[NDIRECT] != 0
    ensures s.inodes[n].addrs[NDIRECT] < |t.disk| && t.disk[s.inodes[n].addrs[NDIRECT]] == s.disk[s.inodes[n].addrs[NDIRECT]]
  {
    hide IsSet, Freed, FileOk, BlocksUpTo;
    assert AddrOf(s, Indirect(n)) in owner;
    FreedRest(s, BlocksUpTo(s, n, NDIRECT), s.inodes[n].addrs[NDIRECT]);
  }

  lemma {:induction false} NoEntries(s: Fs, t: Fs, owner: map<nat, Ref>, n: nat, k: nat)
    requires FsInv(s, owner) && NDIRECT <= k <= PLACES && Cleared(s, t, n, k, NDIRECT) && s.inodes[n].addrs[NDIRECT] == 0
    ensures Cleared(s, t, n, PLACES, NDIRECT)
    decreases PLACES - k
  {
    hide Cleared, Owned, FileOk, InRange;
    if k < PLACES {
      FreeNext(s, t, owner, n, k, NDIRECT);
      NoEntries(s, t, owner, n, k + 1);
    }
  }

  lemma AllCleared(s: Fs, t: Fs, n: nat)
    requires Cleared(s, t, n, PLACES, NDIRECT + 1)
    ensures InRange(s, n, PLACES) && |t.inodes| == |s.inodes| == |t.dinodes|
    ensures var ip := t.inodes[n].(size := 0);
            FsTrunc.Itrunc(s, n) == t.(inodes := t.inodes[n := ip], dinodes := t.dinodes[n := ip])
  {
    hide Freed;
    assert ZeroTo(s.inodes[n].addrs, NDIRECT + 1) == Emptied(s.inodes[n]).addrs;
  }
}
