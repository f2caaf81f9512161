/** balloc, bfree and bmap (fs.c) on values, with what each does to ownership and to files. */
module FsAlloc {
  import opened Disk
  import opened Options
  import opened FsBlocks
  import opened FsCount

  function SetBit(fs: Fs, b: nat, on: bool): (t: Fs)
    requires Shape(fs) && b < fs.sb.size
    ensures Shape(t) && t.sb == fs.sb && t.inodes == fs.inodes && t.dinodes == fs.dinodes
  {
    fs.(disk := fs.disk[BBlock(fs, b) := SetMapBit(fs.disk[BBlock(fs, b)], b % BPB, on)])
  }

  lemma {:induction false} BitsAfterSet(fs: Fs, b: nat, on: bool, c: nat)
    requires Shape(fs) && b < fs.sb.size && c < fs.sb.size
    ensures IsSet(SetBit(fs, b, on), c) == if c == b then on else IsSet(fs, c)
  {
    hide SetMapBit, MapBit;
    if BBlock(fs, c) == BBlock(fs, b) {
      MapBitAfterSet(fs.disk[BBlock(fs, b)], b % BPB, on, c % BPB);
    }
  }

  /** Owned blocks as before, inodes as before: all references and files as before. */
  lemma {:induction false} FrameRefs(s: Fs, t: Fs, owner: map<nat, Ref>, loose: set<nat>)
    requires Owned(s, owner, loose) && Shape(t) && t.sb == s.sb && t.inodes == s.inodes
    requires forall b | b in owner :: t.disk[b] == s.disk[b]
    ensures forall r | RefOk(s, r) :: AddrOf(t, r) == AddrOf(s, r)
    ensures SameFiles(s, t)
  {
    hide Word, IsSet;
    forall r | RefOk(s, r) ensures AddrOf(t, r) == AddrOf(s, r) {
      if r.Entry? {
        assert AddrOf(s, Indirect(r.inum)) == s.inodes[r.inum].addrs[NDIRECT];
      }
    }
    forall n, bn | 0 <= n < |s.inodes| && 0 <= bn < MAXFILE ensures DataAt(t, n, bn) == DataAt(s, n, bn) {
      var r := RefOf(n, bn);
      assert RefOk(s, r) && AddrOf(t, r) == AddrOf(s, r);
    }
  }

  // ---- balloc ----

  /** The first block balloc finds free from `from` on, or sb.size where it panics. */
  function FirstFree(fs: Fs, from: nat := 0): (b: nat)
    requires Shape(fs) && from <= fs.sb.size
    ensures from <= b <= fs.sb.size
    ensures b < fs.sb.size ==> !IsSet(fs, b)
    ensures forall c | from <= c < b :: IsSet(fs, c)
    decreases fs.sb.size - from
  {
    if from == fs.sb.size || !IsSet(fs, from) then from else FirstFree(fs, from + 1)
  }

  /** Mark block b in use and zero it. */
  function Balloc(fs: Fs, b: nat): (t: Fs)
    requires Shape(fs) && b < fs.sb.size
    ensures Shape(t) && t.sb == fs.sb && t.inodes == fs.inodes && t.dinodes == fs.dinodes
  {
    var u := SetBit(fs, b, true);
    u.(disk := u.disk[b := ZeroBlock()])
  }

  lemma {:induction false} BallocBits(fs: Fs, b: nat, c: nat)
    requires Shape(fs) && fs.sb.data <= b < fs.sb.size && c < fs.sb.size
    ensures IsSet(Balloc(fs, b), c) == (c == b || IsSet(fs, c))
  {
    hide MapBit, SetMapBit;
    BitsAfterSet(fs, b, true, c);
    var t, u := Balloc(fs, b), SetBit(fs, b, true);
    assert BBlock(t, c) == BBlock(u, c) < fs.sb.data;
    assert t.disk[BBlock(t, c)] == u.disk[BBlock(t, c)];
  }

  lemma {:induction false} BallocRest(fs: Fs, b: nat, c: nat)
    requires Shape(fs) && fs.sb.data <= b < fs.sb.size && fs.sb.data <= c < fs.sb.size
    ensures Balloc(fs, b).disk[c] == if c == b then ZeroBlock() else fs.disk[c]
  {
    hide MapBit, SetMapBit;
    assert BBlock(fs, b) < fs.sb.data;
  }

  /** Same references, and the free map marks a different loose set. */
  lemma {:induction false} Remark(s: Fs, t: Fs, owner: map<nat, Ref>, loose: set<nat>, loose': set<nat>)
    requires Owned(s, owner, loose) && Shape(t) && t.sb == s.sb && t.inodes == s.inodes
    requires forall b | b in owner :: t.disk[b] == s.disk[b] && b !in loose'
    requires forall b | b in loose' :: s.sb.data <= b < s.sb.size
    requires forall b | 0 <= b < s.sb.size :: IsSet(t, b) <==> b < s.sb.data || b in owner || b in loose'
    ensures Owned(t, owner, loose') && SameFiles(s, t)
  {
    hide AddrOf, IsSet, DataAt;
    FrameRefs(s, t, owner, loose);
    assert forall r :: RefOk(t, r) == RefOk(s, r);
  }

  /** balloc takes a block nobody owns, zeroes it, and disturbs no file. */
  lemma {:induction false} BallocOk(fs: Fs, owner: map<nat, Ref>, loose: set<nat>, b: nat)
    requires Owned(fs, owner, loose) && b < fs.sb.size && !IsSet(fs, b)
    ensures fs.sb.data <= b && b !in owner && b !in loose
    ensures var t := Balloc(fs, b);
            && Owned(t, owner, loose + {b}) && SameFiles(fs, t) && t.disk[b] == ZeroBlock()
            && forall c | c in owner || c in loose :: t.disk[c] == fs.disk[c]
  {
    hide IsSet, AddrOf, Balloc, SameFiles;
    var t := Balloc(fs, b);
    forall c | 0 <= c < fs.sb.size ensures IsSet(t, c) == (c == b || IsSet(fs, c)) {
      BallocBits(fs, b, c);
    }
    forall c | fs.sb.data <= c < fs.sb.size ensures t.disk[c] == if c == b then ZeroBlock() else fs.disk[c] {
      BallocRest(fs, b, c);
    }
    Remark(fs, t, owner, loose, loose + {b});
  }

  // ---- linking an allocated block ----

  function SetAddr(fs: Fs, n: nat, i: nat, b: nat): (t: Fs)
    requires Shape(fs) && n < |fs.inodes| && i <= NDIRECT && b < fs.sb.size
    ensures Shape(t) && t.sb == fs.sb && t.disk == fs.disk
  {
    fs.(inodes := fs.inodes[n := fs.inodes[n].(addrs := fs.inodes[n].addrs[i := b])])
  }

  /** References change at r alone, from nothing to the loose block b. */
  lemma {:induction false} Link(s: Fs, t: Fs, owner: map<nat, Ref>, loose: set<nat>, r: Ref, b: nat)
    requires Owned(s, owner, loose) && Shape(t) && t.sb == s.sb && |t.inodes| == |s.inodes|
    requires RefOk(s, r) && AddrOf(s, r) == 0 && b in loose && b != 0
    requires forall q | RefOk(s, q) :: AddrOf(t, q) == if q == r then b else AddrOf(s, q)
    requires forall c | 0 <= c < s.sb.size :: IsSet(t, c) == IsSet(s, c)
    ensures Owned(t, owner[b := r], loose - {b})
  {
    hide AddrOf, IsSet;
    assert forall q :: RefOk(t, q) == RefOk(s, q);
  }

  /** ip->addrs[i] = b */
  lemma {:induction false} LinkDirect(s: Fs, owner: map<nat, Ref>, loose: set<nat>, n: nat, i: nat, b: nat)
    requires Owned(s, owner, loose) && n < |s.inodes| && i < NDIRECT && b in loose && AddrOf(s, Direct(n, i)) == 0
    ensures var t := SetAddr(s, n, i, b);
            Owned(t, owner[b := Direct(n, i)], loose - {b}) && OneBlock(s, t, n, i, s.disk[b])
  {
    hide IsSet, Word;
    var t := SetAddr(s, n, i, b);
    assert forall q | RefOk(s, q) :: AddrOf(t, q) == if q == Direct(n, i) then b else AddrOf(s, q);
    assert forall c | 0 <= c < s.sb.size :: IsSet(t, c) == IsSet(s, c) by { SameBits(s, t); }
    Link(s, t, owner, loose, Direct(n, i), b);
    forall m, k | 0 <= m < |s.inodes| && 0 <= k < MAXFILE && !(m == n && k == i) ensures DataAt(t, m, k) == DataAt(s, m, k) {
      var q := RefOf(m, k);
      assert RefOk(s, q) && q != Direct(n, i) && AddrOf(t, q) == AddrOf(s, q);
    }
  }

  lemma SameBits(s: Fs, t: Fs)
    requires Shape(s) && Shape(t) && t.sb == s.sb
    requires forall c | 0 <= c < s.sb.data :: t.disk[c] == s.disk[c]
    ensures forall c | 0 <= c < s.sb.size :: IsSet(t, c) == IsSet(s, c)
  {
    hide MapBit;
    forall c | 0 <= c < s.sb.size ensures IsSet(t, c) == IsSet(s, c) {
      assert BBlock(s, c) < s.sb.data;
    }
  }

  /** ip->addrs[NDIRECT] = b, for a zeroed block */
  lemma {:induction false} LinkIndirect(s: Fs, owner: map<nat, Ref>, loose: set<nat>, n: nat, b: nat)
    requires Owned(s, owner, loose) && n < |s.inodes| && b in loose && AddrOf(s, Indirect(n)) == 0 && s.disk[b] == ZeroBlock()
    ensures var t := SetAddr(s, n, NDIRECT, b);
            Owned(t, owner[b := Indirect(n)], loose - {b}) && SameFiles(s, t)
  {
    hide IsSet, Word;
    var t := SetAddr(s, n, NDIRECT, b);
    forall q | RefOk(s, q) ensures AddrOf(t, q) == if q == Indirect(n) then b else AddrOf(s, q) {
      if q.Entry? && q.inum == n {
        ZeroWord(q.j);
      }
    }
    assert forall c | 0 <= c < s.sb.size :: IsSet(t, c) == IsSet(s, c) by { SameBits(s, t); }
    Link(s, t, owner, loose, Indirect(n), b);
    forall m, k | 0 <= m < |s.inodes| && 0 <= k < MAXFILE ensures DataAt(t, m, k) == DataAt(s, m, k) {
      var q := RefOf(m, k);
      assert RefOk(s, q) && q != Indirect(n) && AddrOf(t, q) == AddrOf(s, q);
    }
  }

  /** a[j] = b in the indirect block */
  function SetEntry(fs: Fs, n: nat, j: nat, b: nat): (t: Fs)
    requires Shape(fs) && n < |fs.inodes| && j < NINDIRECT && b < LIMIT
    ensures Shape(t) && t.sb == fs.sb && t.inodes == fs.inodes
  {
    var a := fs.inodes[n].addrs[NDIRECT];
    fs.(disk := fs.disk[a := SetWord(fs.disk[a], j, b)])
  }

  lemma {:induction false} EntryRefs(s: Fs, owner: map<nat, Ref>, loose: set<nat>, n: nat, j: nat, b: nat, q: Ref)
    requires Owned(s, owner, loose) && n < |s.inodes| && j < NINDIRECT && b < LIMIT && AddrOf(s, Indirect(n)) != 0
    requires RefOk(s, q)
    ensures AddrOf(SetEntry(s, n, j, b), q) == if q == Entry(n, j) then b else AddrOf(s, q)
  {
    hide Word, SetWord, IsSet;
    var a := AddrOf(s, Indirect(n));
    assert a in owner && owner[a] == Indirect(n);
    if q.Entry? {
      var a' := AddrOf(s, Indirect(q.inum));
      if q.inum == n {
        WordAfterSet(s.disk[a], j, b, q.j);
      } else {
        assert a' != 0 ==> owner[a'] == Indirect(q.inum);
      }
    }
  }

  lemma {:induction false} LinkEntry(s: Fs, owner: map<nat, Ref>, loose: set<nat>, n: nat, j: nat, b: nat)
    requires Owned(s, owner, loose) && n < |s.inodes| && j < NINDIRECT && b in loose
    requires AddrOf(s, Indirect(n)) != 0 && AddrOf(s, Entry(n, j)) == 0
    ensures var t := SetEntry(s, n, j, b);
            Owned(t, owner[b := Entry(n, j)], loose - {b}) && OneBlock(s, t, n, NDIRECT + j, s.disk[b])
  {
    hide Word, SetWord, IsSet, AddrOf;
    EntryRefs(s, owner, loose, n, j, b, Entry(n, j));
    var a := AddrOf(s, Indirect(n));
    var t := SetEntry(s, n, j, b);
    assert a in owner && owner[a] == Indirect(n) && s.sb.data <= a < s.sb.size;
    assert s.inodes[n].addrs[NDIRECT] == a by { IndirectIs(s, n); }
    forall q | RefOk(s, q) ensures AddrOf(t, q) == if q == Entry(n, j) then b else AddrOf(s, q) {
      EntryRefs(s, owner, loose, n, j, b, q);
    }
    SameBits(s, t);
    Link(s, t, owner, loose, Entry(n, j), b);
    forall m, k | 0 <= m < |s.inodes| && 0 <= k < MAXFILE
      ensures DataAt(t, m, k) == if m == n && k == NDIRECT + j then Some(s.disk[b]) else DataAt(s, m, k)
    {
      var q := RefOf(m, k);
      assert RefOk(s, q);
      assert AddrOf(s, q) != 0 ==> owner[AddrOf(s, q)] == q;
      assert a != b && t.disk[b] == s.disk[b];
    }
  }

  lemma IndirectIs(fs: Fs, n: nat)
    requires Shape(fs) && n < |fs.inodes|
    ensures AddrOf(fs, Indirect(n)) == fs.inodes[n].addrs[NDIRECT]
  {
  }

  /** Writing a data block of a file changes that block of that file alone. */
  lemma {:induction false} PutData(s: Fs, owner: map<nat, Ref>, loose: set<nat>, n: nat, bn: nat, d: Block)
    requires Owned(s, owner, loose) && n < |s.inodes| && bn < MAXFILE && AddrOf(s, RefOf(n, bn)) != 0
    ensures AddrOf(s, RefOf(n, bn)) < |s.disk|
    ensures var t := s.(disk := s.disk[AddrOf(s, RefOf(n, bn)) := d]);
            Owned(t, owner, loose) && OneBlock(s, t, n, bn, d)
  {
    hide Word, IsSet;
    var r := RefOf(n, bn);
    var x := AddrOf(s, r);
    assert RefOk(s, r) && x in owner && owner[x] == r;
    var t := s.(disk := s.disk[x := d]);
    forall q | RefOk(s, q) ensures AddrOf(t, q) == AddrOf(s, q) {
      if q.Entry? {
        var a := AddrOf(s, Indirect(q.inum));
        assert RefOk(s, Indirect(q.inum));
        assert a != 0 ==> owner[a] == Indirect(q.inum);
      }
    }
    SameBits(s, t);
    assert forall q :: RefOk(t, q) == RefOk(s, q);
    forall m, k | 0 <= m < |s.inodes| && 0 <= k < MAXFILE && !(m == n && k == bn) ensures DataAt(t, m, k) == DataAt(s, m, k) {
      var q := RefOf(m, k);
      assert RefOk(s, q) && q != r;
      assert AddrOf(s, q) != 0 ==> owner[AddrOf(s, q)] == q;
    }
  }

  // ---- bmap ----

  datatype Mapped = Mapped(fs: Fs, addr: nat) | NoSpace

  /** Every inode but n is as it was, and n has kept its type. */
  predicate SameInodes(s: Fs, t: Fs, n: nat) {
    && |t.inodes| == |s.inodes|
    && (forall x | 0 <= x < |s.inodes| :: t.inodes[x].typ == s.inodes[x].typ)
    && forall x | 0 <= x < |s.inodes| && x != n :: t.inodes[x] == s.inodes[x]
  }

  /** t keeps the disk's shape, every inode but the block numbers of n, and all on-disk inodes. */
  predicate Keeps(s: Fs, t: Fs, n: nat) {
    && Shape(t) && t.sb == s.sb && SameInodes(s, t, n) && t.dinodes == s.dinodes
    && (n < |s.inodes| ==> t.inodes[n].size == s.inodes[n].size)
  }

  /** Make sure file n has an indirect block. */
  function Indirected(fs: Fs, n: nat): (r: Option<Fs>)
    requires Shape(fs) && n < |fs.inodes|
    ensures r.Some? ==> Keeps(fs, r.value, n)
  {
    if fs.inodes[n].addrs[NDIRECT] != 0 then Some(fs)
    else
      var b := FirstFree(fs);
      if b == fs.sb.size then None else Some(SetAddr(Balloc(fs, b), n, NDIRECT, b))
  }

  /** bmap: the block of file n at position bn, allocating what is missing; NoSpace where balloc panics. */
  function Bmap(fs: Fs, n: nat, bn: nat): (r: Mapped)
    requires Shape(fs) && n < |fs.inodes| && bn < MAXFILE
    ensures r.Mapped? ==> Keeps(fs, r.fs, n)
  {
    if bn < NDIRECT then
      var addr := fs.inodes[n].addrs[bn];
      if addr != 0 then Mapped(fs, addr)
      else
        var b := FirstFree(fs);
        if b == fs.sb.size then NoSpace else Mapped(SetAddr(Balloc(fs, b), n, bn, b), b)
    else
      match Indirected(fs, n)
      case None => NoSpace
      case Some(g) => Entered(g, n, bn - NDIRECT)
  }

  /** Entry j of the indirect block of file n, allocated if it is missing. */
  function Entered(g: Fs, n: nat, j: nat): (r: Mapped)
    requires Shape(g) && n < |g.inodes| && j < NINDIRECT
    ensures r.Mapped? ==> Keeps(g, r.fs, n)
  {
    var addr := Word(g.disk[g.inodes[n].addrs[NDIRECT]], j);
    if addr != 0 then Mapped(g, addr)
    else
      var b := FirstFree(g);
      if b == g.sb.size then NoSpace else Mapped(SetEntry(Balloc(g, b), n, j, b), b)
  }

  /** Composition of a step that keeps all files with one that changes a block. */
  lemma {:induction false} ThenBlock(s: Fs, u: Fs, t: Fs, n: nat, bn: nat, d: Block)
    requires Shape(s) && Shape(u) && Shape(t) && SameFiles(s, u) && OneBlock(u, t, n, bn, d)
    ensures OneBlock(s, t, n, bn, d)
  {
    hide DataAt;
  }

  lemma {:induction false} ThenSame(s: Fs, u: Fs, t: Fs)
    requires Shape(s) && Shape(u) && Shape(t) && SameFiles(s, u) && SameFiles(u, t)
    ensures SameFiles(s, t)
  {
    hide DataAt;
  }

  lemma {:induction false} BmapDirect(fs: Fs, owner: map<nat, Ref>, n: nat, bn: nat) returns (owner': map<nat, Ref>)
    requires Owned(fs, owner, {}) && n < |fs.inodes| && bn < NDIRECT && fs.inodes[n].addrs[bn] == 0
    ensures match Bmap(fs, n, bn)
            case NoSpace => FirstFree(fs) == fs.sb.size
            case Mapped(t, addr) =>
              && Owned(t, owner', {}) && addr == AddrOf(t, RefOf(n, bn)) != 0 && OneBlock(fs, t, n, bn, ZeroBlock())
  {
    hide IsSet, Word, DataAt, FirstFree, Balloc, SameFiles, OneBlock;
    owner' := owner;
    var b := FirstFree(fs);
    if b < fs.sb.size {
      BallocOk(fs, owner, {}, b);
      var u := Balloc(fs, b);
      assert {} + {b} == {b} && {b} - {b} == {};
      LinkDirect(u, owner, {b}, n, bn, b);
      owner' := owner[b := Direct(n, bn)];
      ThenBlock(fs, u, SetAddr(u, n, bn, b), n, bn, ZeroBlock());
    }
  }

  lemma {:induction false} IndirectedOk(fs: Fs, owner: map<nat, Ref>, n: nat) returns (owner': map<nat, Ref>)
    requires Owned(fs, owner, {}) && n < |fs.inodes|
    ensures var r := Indirected(fs, n);
            && (r.None? ==> FirstFree(fs) == fs.sb.size)
            && (r.Some? ==> Owned(r.value, owner', {}) && SameFiles(fs, r.value) && AddrOf(r.value, Indirect(n)) != 0)
  {
    hide IsSet, Word, DataAt, FirstFree, Balloc, SameFiles;
    owner' := owner;
    if fs.inodes[n].addrs[NDIRECT] != 0 {
      assert SameFiles(fs, fs) by { SameSelf(fs); }
    } else {
      var b := FirstFree(fs);
      if b < fs.sb.size {
        BallocOk(fs, owner, {}, b);
        var u := Balloc(fs, b);
        assert {} + {b} == {b} && {b} - {b} == {};
        LinkIndirect(u, owner, {b}, n, b);
        owner' := owner[b := Indirect(n)];
        ThenSame(fs, u, SetAddr(u, n, NDIRECT, b));
      }
    }
  }

  lemma SameSelf(fs: Fs)
    requires Shape(fs)
    ensures SameFiles(fs, fs)
  {
  }

  lemma {:induction false} BmapEntry(g: Fs, owner: map<nat, Ref>, n: nat, j: nat, b: nat) returns (owner': map<nat, Ref>)
    requires Owned(g, owner, {}) && n < |g.inodes| && j < NINDIRECT && b < g.sb.size && !IsSet(g, b)
    requires AddrOf(g, Indirect(n)) != 0 && AddrOf(g, Entry(n, j)) == 0
    ensures var t := SetEntry(Balloc(g, b), n, j, b);
            && Owned(t, owner', {}) && b == AddrOf(t, Entry(n, j)) != 0 && OneBlock(g, t, n, NDIRECT + j, ZeroBlock())
  {
    hide IsSet, Word, SetWord, DataAt, Balloc, SameFiles, OneBlock, AddrOf;
    BallocOk(g, owner, {}, b);
    var u := Balloc(g, b);
    assert {} + {b} == {b} && {b} - {b} == {};
    FrameRefs(g, u, owner, {});
    LinkEntry(u, owner, {b}, n, j, b);
    EntryRefs(u, owner, {b}, n, j, b, Entry(n, j));
    owner' := owner[b := Entry(n, j)];
    ThenBlock(g, u, SetEntry(u, n, j, b), n, NDIRECT + j, ZeroBlock());
  }

  // ---- how many blocks bmap takes ----

  lemma {:induction false} BallocCount(fs: Fs, owner: map<nat, Ref>)
    requires Owned(fs, owner, {})
    ensures var b := FirstFree(fs);
            && (b == fs.sb.size <==> FreeBlocks(fs) == 0)
            && (b < fs.sb.size ==> fs.sb.data <= b && FreeBlocks(Balloc(fs, b)) == FreeBlocks(fs) - 1)
  {
    hide IsSet, FreeBlocks, FirstFree, Balloc, AddrOf;
    var b := FirstFree(fs);
    SomeFree(fs, b, 0);
    if b < fs.sb.size {
      BallocOk(fs, owner, {}, b);
      forall c | 0 <= c < fs.sb.size ensures IsSet(Balloc(fs, b), c) == (c == b || IsSet(fs, c)) {
        BallocBits(fs, b, c);
      }
      MarkCount(fs, Balloc(fs, b), b, 0);
    }
  }

  /** Writing outside the metadata changes no mark. */
  lemma {:induction false} DataCount(s: Fs, t: Fs)
    requires Shape(s) && Shape(t) && t.sb == s.sb
    requires forall c | 0 <= c < s.sb.data :: t.disk[c] == s.disk[c]
    ensures FreeBlocks(t) == FreeBlocks(s)
  {
    hide IsSet, FreeBlocks;
    SameBits(s, t);
    SameCount(s, t, 0);
  }

  /** Blocks bmap has to make for position bn: the block, and the indirect block if it is missing. */
  function BmapNeed(fs: Fs, n: nat, bn: nat): (k: nat)
    requires Shape(fs) && n < |fs.inodes| && bn < MAXFILE
  {
    if AddrOf(fs, RefOf(n, bn)) != 0 then 0
    else if bn >= NDIRECT && fs.inodes[n].addrs[NDIRECT] == 0 then 2
    else 1
  }

  lemma {:induction false} IndirectedCount(fs: Fs, owner: map<nat, Ref>, n: nat)
    requires Owned(fs, owner, {}) && n < |fs.inodes|
    ensures var r, made := Indirected(fs, n), fs.inodes[n].addrs[NDIRECT] == 0;
            && (r.None? <==> made && FreeBlocks(fs) == 0)
            && (r.Some? ==> FreeBlocks(r.value) == FreeBlocks(fs) - if made then 1 else 0)
            && (r.Some? ==> r.value.inodes[n].addrs[NDIRECT] != 0)
  {
    hide IsSet, FreeBlocks, FirstFree, Balloc, Word;
    if fs.inodes[n].addrs[NDIRECT] == 0 {
      BallocCount(fs, owner);
      var b := FirstFree(fs);
      if b < fs.sb.size {
        var u := Balloc(fs, b);
        DataCount(u, SetAddr(u, n, NDIRECT, b));
      }
    }
  }

  lemma {:induction false} EnteredCount(g: Fs, owner: map<nat, Ref>, n: nat, j: nat)
    requires Owned(g, owner, {}) && n < |g.inodes| && j < NINDIRECT && g.inodes[n].addrs[NDIRECT] != 0
    ensures var r, made := Entered(g, n, j), AddrOf(g, Entry(n, j)) == 0;
            && (r.NoSpace? <==> made && FreeBlocks(g) == 0)
            && (r.Mapped? ==> FreeBlocks(r.fs) == FreeBlocks(g) - (if made then 1 else 0) && r.fs.inodes == g.inodes)
  {
    hide IsSet, FreeBlocks, FirstFree, Balloc, Word, SetWord;
    assert AddrOf(g, Indirect(n)) in owner;
    if AddrOf(g, Entry(n, j)) == 0 {
      BallocCount(g, owner);
      var b := FirstFree(g);
      if b < g.sb.size {
        var u := Balloc(g, b);
        DataCount(u, SetEntry(u, n, j, b));
      }
    }
  }

  /** bmap fails exactly when fewer blocks are free than it needs. */
  lemma {:induction false} BmapCount(fs: Fs, owner: map<nat, Ref>, n: nat, bn: nat)
    requires Owned(fs, owner, {}) && n < |fs.inodes| && bn < MAXFILE
    ensures var r, need := Bmap(fs, n, bn), BmapNeed(fs, n, bn);
            && (r.NoSpace? <==> FreeBlocks(fs) < need)
            && (r.Mapped? ==> FreeBlocks(r.fs) == FreeBlocks(fs) - need)
            && (r.Mapped? ==> (r.fs.inodes[n].addrs[NDIRECT] == 0 <==> fs.inodes[n].addrs[NDIRECT] == 0 && bn < NDIRECT))
  {
    hide IsSet, FreeBlocks, FirstFree, Balloc, Word, Indirected, Entered;
    if bn < NDIRECT {
      if fs.inodes[n].addrs[bn] == 0 {
        BallocCount(fs, owner);
        var b := FirstFree(fs);
        if b < fs.sb.size {
          var u := Balloc(fs, b);
          DataCount(u, SetAddr(u, n, bn, b));
        }
      }
    } else {
      var j := bn - NDIRECT;
      IndirectedCount(fs, owner, n);
      var w := IndirectedOk(fs, owner, n);
      var i := Indirected(fs, n);
      if i.Some? {
        EnteredCount(i.value, w, n, j);
        SameEntry(fs, owner, i.value, w, n, j);
        if fs.inodes[n].addrs[NDIRECT] != 0 {
          NothingToAdd(fs, n);
        }
      }
    }
  }

  lemma {:induction false} SameEntry(s: Fs, owner: map<nat, Ref>, t: Fs, w: map<nat, Ref>, n: nat, j: nat)
    requires Owned(s, owner, {}) && Owned(t, w, {}) && SameFiles(s, t) && n < |s.inodes| && j < NINDIRECT
    ensures AddrOf(t, Entry(n, j)) == 0 <==> AddrOf(s, Entry(n, j)) == 0
  {
    hide IsSet, Word;
    var r := Entry(n, j);
    assert RefOk(s, r) && RefOk(t, r) && RefOf(n, NDIRECT + j) == r;
    assert AddrOf(s, r) != 0 ==> AddrOf(s, r) in owner;
    assert AddrOf(t, r) != 0 ==> AddrOf(t, r) in w;
    assert DataAt(t, n, NDIRECT + j) == DataAt(s, n, NDIRECT + j);
  }

  /** bmap keeps ownership, returns the block that position now refers to, and changes no
      file except that a missing block becomes a zero block. It fails exactly when fewer blocks
      are free than it has to make, and otherwise takes exactly those. */
  lemma {:induction false} BmapOk(fs: Fs, owner: map<nat, Ref>, n: nat, bn: nat) returns (owner': map<nat, Ref>)
    requires Owned(fs, owner, {}) && n < |fs.inodes| && bn < MAXFILE
    ensures match Bmap(fs, n, bn)
            case NoSpace => DataAt(fs, n, bn).None? && FreeBlocks(fs) < BmapNeed(fs, n, bn)
            case Mapped(t, addr) =>
              && Owned(t, owner', {}) && RefOk(t, RefOf(n, bn)) && addr == AddrOf(t, RefOf(n, bn)) != 0
              && (DataAt(fs, n, bn).Some? ==> t == fs)
              && (DataAt(fs, n, bn).None? ==> OneBlock(fs, t, n, bn, ZeroBlock()))
              && FreeBlocks(t) == FreeBlocks(fs) - BmapNeed(fs, n, bn)
  {
    hide IsSet, Word, FirstFree, Balloc, SameFiles, OneBlock, Indirected, FreeBlocks, BmapNeed;
    var r := RefOf(n, bn);
    assert RefOk(fs, r) && (AddrOf(fs, r) != 0 ==> AddrOf(fs, r) in owner);
    BmapCount(fs, owner, n, bn);
    owner' := owner;
    if bn < NDIRECT {
      if fs.inodes[n].addrs[bn] == 0 {
        owner' := BmapDirect(fs, owner, n, bn);
      }
    } else {
      owner' := BmapFar(fs, owner, n, bn);
    }
  }

  lemma {:induction false} EnteredOk(g: Fs, owner: map<nat, Ref>, n: nat, j: nat) returns (owner': map<nat, Ref>)
    requires Owned(g, owner, {}) && n < |g.inodes| && j < NINDIRECT && AddrOf(g, Indirect(n)) != 0
    ensures match Entered(g, n, j)
            case NoSpace => DataAt(g, n, NDIRECT + j).None?
            case Mapped(t, addr) =>
              && Owned(t, owner', {}) && RefOk(t, Entry(n, j)) && addr == AddrOf(t, Entry(n, j)) != 0
              && (DataAt(g, n, NDIRECT + j).Some? ==> t == g)
              && (DataAt(g, n, NDIRECT + j).None? ==> OneBlock(g, t, n, NDIRECT + j, ZeroBlock()))
  {
    hide IsSet, Word, Balloc, OneBlock, FirstFree, SetEntry;
    owner' := owner;
    var a := AddrOf(g, Entry(n, j));
    assert a == Word(g.disk[g.inodes[n].addrs[NDIRECT]], j);
    assert RefOk(g, Entry(n, j)) && (a != 0 ==> a in owner);
    if a == 0 {
      var b := FirstFree(g);
      if b < g.sb.size {
        owner' := BmapEntry(g, owner, n, j, b);
      }
    }
  }

  lemma {:induction false} BmapFar(fs: Fs, owner: map<nat, Ref>, n: nat, bn: nat) returns (owner': map<nat, Ref>)
    requires Owned(fs, owner, {}) && n < |fs.inodes| && NDIRECT <= bn < MAXFILE
    ensures match Bmap(fs, n, bn)
            case NoSpace => DataAt(fs, n, bn).None?
            case Mapped(t, addr) =>
              && Owned(t, owner', {}) && RefOk(t, RefOf(n, bn)) && addr == AddrOf(t, RefOf(n, bn)) != 0
              && (DataAt(fs, n, bn).Some? ==> t == fs)
              && (DataAt(fs, n, bn).None? ==> OneBlock(fs, t, n, bn, ZeroBlock()))
  {
    hide IsSet, Word, OneBlock, SameFiles, Indirected, FirstFree, Entered;
    owner' := IndirectedOk(fs, owner, n);
    var j := bn - NDIRECT;
    var i := Indirected(fs, n);
    if fs.inodes[n].addrs[NDIRECT] != 0 {
      NothingToAdd(fs, n);
    }
    if i.Some? {
      var g := i.value;
      SameDataAt(fs, g, n, bn);
      owner' := EnteredOk(g, owner', n, j);
      var e := Entered(g, n, j);
      if e.Mapped? && DataAt(fs, n, bn).None? {
        ThenBlock(fs, g, e.fs, n, bn, ZeroBlock());
      }
    }
  }

  lemma NothingToAdd(fs: Fs, n: nat)
    requires Shape(fs) && n < |fs.inodes| && fs.inodes[n].addrs[NDIRECT] != 0
    ensures Indirected(fs, n) == Some(fs)
  {
  }

  lemma SameDataAt(s: Fs, t: Fs, n: nat, bn: nat)
    requires Shape(s) && Shape(t) && SameFiles(s, t) && n < |s.inodes| && bn < MAXFILE
    ensures t.sb == s.sb && |t.inodes| == |s.inodes| && DataAt(t, n, bn) == DataAt(s, n, bn)
  {
  }
}
