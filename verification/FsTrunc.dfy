/** bfree and itrunc (fs.c) on values: truncating a file returns exactly its blocks. */
module FsTrunc {
  import opened Disk
  import opened Options
  import opened FsBlocks
  import opened FsAlloc
  import opened FsBytes

  const PLACES := 141  // NDIRECT + NINDIRECT + 1

  /** The places of an inode in the order itrunc visits them. */
  function PlaceAt(n: nat, k: nat): (r: Ref)
    requires k < PLACES
  {
    if k < MAXFILE then RefOf(n, k) else Indirect(n)
  }

  /** The blocks referred to by the first k places. */
  function BlocksUpTo(fs: Fs, n: nat, k: nat): (s: seq<nat>)
    requires Shape(fs) && n < |fs.inodes| && k <= PLACES
  {
    if k == 0 then []
    else
      var b := AddrOf(fs, PlaceAt(n, k - 1));
      BlocksUpTo(fs, n, k - 1) + if b != 0 then [b] else []
  }

  /** bfree of each block in turn. */
  function Freed(fs: Fs, bs: seq<nat>): (t: Fs)
    requires Shape(fs) && forall i | 0 <= i < |bs| :: bs[i] < fs.sb.size
    ensures Shape(t) && t.sb == fs.sb && t.inodes == fs.inodes && t.dinodes == fs.dinodes
    decreases |bs|
  {
    if bs == [] then fs else SetBit(Freed(fs, bs[..|bs| - 1]), bs[|bs| - 1], false)
  }

  lemma {:induction false} FreedBits(fs: Fs, bs: seq<nat>, c: nat)
    requires Shape(fs) && c < fs.sb.size && forall i | 0 <= i < |bs| :: bs[i] < fs.sb.size
    ensures IsSet(Freed(fs, bs), c) == (IsSet(fs, c) && c !in bs)
    decreases |bs|
  {
    hide IsSet;
    if bs != [] {
      var front, b := bs[..|bs| - 1], bs[|bs| - 1];
      assert bs == front + [b];
      FreedBits(fs, front, c);
      BitsAfterSet(Freed(fs, front), b, false, c);
    }
  }

  lemma {:induction false} FreedRest(fs: Fs, bs: seq<nat>, c: nat)
    requires Shape(fs) && fs.sb.data <= c < fs.sb.size && forall i | 0 <= i < |bs| :: bs[i] < fs.sb.size
    ensures Freed(fs, bs).disk[c] == fs.disk[c]
    decreases |bs|
  {
    hide SetMapBit;
    if bs != [] {
      FreedRest(fs, bs[..|bs| - 1], c);
      assert BBlock(fs, bs[|bs| - 1]) < fs.sb.data;
    }
  }

  /** The blocks of the first k places are in range, owned by those places, and listed once. */
  lemma {:induction false} BlocksOwned(fs: Fs, owner: map<nat, Ref>, n: nat, k: nat)
    requires Owned(fs, owner, {}) && n < |fs.inodes| && k <= PLACES
    ensures var s := BlocksUpTo(fs, n, k);
            && (forall i | 0 <= i < |s| :: s[i] in owner && owner[s[i]].inum == n && PlaceIndex(owner[s[i]]) < k)
            && (forall i, j | 0 <= i < j < |s| :: s[i] != s[j])
            && forall i | 0 <= i < k && AddrOf(fs, PlaceAt(n, i)) != 0 :: AddrOf(fs, PlaceAt(n, i)) in s
  {
    hide AddrOf, IsSet;
    if k > 0 {
      BlocksOwned(fs, owner, n, k - 1);
      var r := PlaceAt(n, k - 1);
      assert RefOk(fs, r) && PlaceIndex(r) == k - 1;
    }
  }

  function PlaceIndex(r: Ref): (k: nat) {
    match r
    case Direct(_, i) => i
    case Entry(_, j) => NDIRECT + j
    case Indirect(_) => MAXFILE
  }

  lemma PlaceOfIndex(fs: Fs, r: Ref)
    requires RefOk(fs, r)
    ensures PlaceIndex(r) < PLACES && PlaceAt(r.inum, PlaceIndex(r)) == r
  {
  }

  /** All of an inode's blocks. */
  function BlocksOf(fs: Fs, n: nat): (s: seq<nat>)
    requires Shape(fs) && n < |fs.inodes|
  {
    BlocksUpTo(fs, n, PLACES)
  }

  function Emptied(ip: Inode): (r: Inode) {
    ip.(size := 0, addrs := seq(NDIRECT + 1, (_: nat) => 0))
  }

  /** itrunc: free the blocks, clear the references and the size, write the inode back. */
  function Itrunc(fs: Fs, n: nat): (t: Fs)
    requires Shape(fs) && n < |fs.inodes| && forall i | 0 <= i < |BlocksOf(fs, n)| :: BlocksOf(fs, n)[i] < fs.sb.size
    ensures Shape(t) && t.sb == fs.sb && |t.inodes| == |fs.inodes|
  {
    var ip := Emptied(fs.inodes[n]);
    Freed(fs, BlocksOf(fs, n)).(inodes := fs.inodes[n := ip], dinodes := fs.dinodes[n := ip])
  }

  /** Exactly the blocks of inode n, each once, so that no bfree meets a free block. */
  lemma {:induction false} BlocksOfExact(fs: Fs, owner: map<nat, Ref>, n: nat)
    requires Owned(fs, owner, {}) && n < |fs.inodes|
    ensures var s := BlocksOf(fs, n);
            && (forall b :: b in s <==> b in owner && owner[b].inum == n)
            && (forall i, j | 0 <= i < j < |s| :: s[i] != s[j])
            && forall i | 0 <= i < |s| :: fs.sb.data <= s[i] < fs.sb.size && IsSet(fs, s[i])
  {
    hide AddrOf, IsSet, PlaceAt;
    BlocksOwned(fs, owner, n, PLACES);
    forall b | b in owner && owner[b].inum == n ensures b in BlocksOf(fs, n) {
      PlaceOfIndex(fs, owner[b]);
      OwnedNonzero(fs, owner, b);
    }
  }

  lemma OwnedNonzero(fs: Fs, owner: map<nat, Ref>, b: nat)
    requires Owned(fs, owner, {}) && b in owner
    ensures AddrOf(fs, owner[b]) == b && b != 0
  {
  }

  lemma {:induction false} TruncRefs(fs: Fs, t: Fs, owner: map<nat, Ref>, n: nat, r: Ref)
    requires Owned(fs, owner, {}) && n < |fs.inodes| && Shape(t) && t.sb == fs.sb
    requires t.inodes == fs.inodes[n := Emptied(fs.inodes[n])]
    requires forall c | fs.sb.data <= c < fs.sb.size :: t.disk[c] == fs.disk[c]
    requires RefOk(fs, r)
    ensures AddrOf(t, r) == if r.inum == n then 0 else AddrOf(fs, r)
  {
    hide Word, IsSet;
    if r.Entry? && r.inum != n {
      assert RefOk(fs, Indirect(r.inum));
      assert AddrOf(fs, Indirect(r.inum)) != 0 ==> AddrOf(fs, Indirect(r.inum)) in owner;
    }
  }

  /** Truncation gives back exactly the inode's blocks: afterwards the free map marks the
      blocks of all other inodes, file n is empty, and every other file is as it was. */
  lemma {:induction false} ItruncReturnsBlocks(fs: Fs, owner: map<nat, Ref>, n: nat) returns (owner': map<nat, Ref>)
    requires FsInv(fs, owner) && n < |fs.inodes|
    ensures forall i | 0 <= i < |BlocksOf(fs, n)| :: BlocksOf(fs, n)[i] < fs.sb.size
    ensures var t := Itrunc(fs, n);
            && owner' == (map b | b in owner && owner[b].inum != n :: owner[b])
            && FsInv(t, owner') && FileOk(t, n) && Bytes(t, n) == []
            && (forall x | 0 <= x < |fs.inodes| :: t.inodes[x].typ == fs.inodes[x].typ)
            && (forall x | 0 <= x < |fs.inodes| && x != n :: t.inodes[x] == fs.inodes[x])
            && (forall c | 0 <= c < fs.sb.size :: IsSet(t, c) <==> IsSet(fs, c) && c !in BlocksOf(fs, n))
            && forall x | 0 <= x < |fs.inodes| && x != n :: FileOk(fs, x) && FileOk(t, x) && Bytes(t, x) == Bytes(fs, x)
  {
    hide IsSet, AddrOf, BlocksOf, ByteAt, Freed;
    BlocksOfExact(fs, owner, n);
    var t := Itrunc(fs, n);
    owner' := map b | b in owner && owner[b].inum != n :: owner[b];
    TruncBits(fs, t, n);
    TruncOwned(fs, t, owner, owner', n);
    forall x, k | 0 <= x < |fs.inodes| && x != n && 0 <= k < MAXBYTES ensures ByteAt(t, x, k) == ByteAt(fs, x, k) {
      TruncByte(fs, t, owner, n, x, k);
    }
    forall x | 0 <= x < |fs.inodes| ensures FileOk(t, x) && (x != n ==> FileOk(fs, x) && Bytes(t, x) == Bytes(fs, x)) {
      assert FileOk(fs, x);
    }
  }

  lemma {:induction false} TruncBits(fs: Fs, t: Fs, n: nat)
    requires Shape(fs) && n < |fs.inodes| && (forall i | 0 <= i < |BlocksOf(fs, n)| :: BlocksOf(fs, n)[i] < fs.sb.size)
    requires t == Itrunc(fs, n)
    ensures forall c | 0 <= c < fs.sb.size :: IsSet(t, c) == (IsSet(fs, c) && c !in BlocksOf(fs, n))
    ensures forall c | fs.sb.data <= c < fs.sb.size :: t.disk[c] == fs.disk[c]
  {
    hide BlocksOf, Freed, IsSet;
    var g := Freed(fs, BlocksOf(fs, n));
    forall c | 0 <= c < fs.sb.size ensures IsSet(t, c) == (IsSet(fs, c) && c !in BlocksOf(fs, n)) {
      FreedBits(fs, BlocksOf(fs, n), c);
      SameBits(g, t);
    }
    forall c | fs.sb.data <= c < fs.sb.size ensures t.disk[c] == fs.disk[c] {
      FreedRest(fs, BlocksOf(fs, n), c);
    }
  }

  lemma {:induction false} TruncOwned(fs: Fs, t: Fs, owner: map<nat, Ref>, owner': map<nat, Ref>, n: nat)
    requires Owned(fs, owner, {}) && n < |fs.inodes| && Shape(t) && t.sb == fs.sb
    requires t.inodes == fs.inodes[n := Emptied(fs.inodes[n])]
    requires forall c | fs.sb.data <= c < fs.sb.size :: t.disk[c] == fs.disk[c]
    requires forall c | 0 <= c < fs.sb.size :: IsSet(t, c) == (IsSet(fs, c) && c !in BlocksOf(fs, n))
    requires owner' == map b | b in owner && owner[b].inum != n :: owner[b]
    ensures Owned(t, owner', {})
  {
    hide IsSet, AddrOf, BlocksOf;
    BlocksOfExact(fs, owner, n);
    forall r | RefOk(fs, r) ensures AddrOf(t, r) == if r.inum == n then 0 else AddrOf(fs, r) {
      TruncRefs(fs, t, owner, n, r);
    }
    assert forall r :: RefOk(t, r) == RefOk(fs, r);
  }

  lemma {:induction false} TruncByte(fs: Fs, t: Fs, owner: map<nat, Ref>, n: nat, x: nat, k: nat)
    requires Owned(fs, owner, {}) && n < |fs.inodes| && x < |fs.inodes| && x != n && k < MAXBYTES && Shape(t) && t.sb == fs.sb
    requires t.inodes == fs.inodes[n := Emptied(fs.inodes[n])]
    requires forall c | fs.sb.data <= c < fs.sb.size :: t.disk[c] == fs.disk[c]
    ensures ByteAt(t, x, k) == ByteAt(fs, x, k)
  {
    hide IsSet, AddrOf;
    var r := RefOf(x, k / BSIZE);
    assert RefOk(fs, r);
    TruncRefs(fs, t, owner, n, r);
    assert AddrOf(fs, r) != 0 ==> AddrOf(fs, r) in owner;
  }
}
