/** Inodes on disk (iupdate and ilock in fs.c): eight 64-byte records to a block. */
module FsInodes {
  import opened Disk

  const IPB := 8      // inodes per block
  const IWORDS := 16  // words per inode
  const NADDRS := 13  // NDIRECT + 1

  type short = x: int | -0x8000 <= x < 0x8000
  type Addrs = s: seq<word> | |s| == 13 witness seq(13, (_: nat) => 0)

  datatype Dinode = Dinode(typ: short, major: short, minor: short, nlink: short, size: word, addrs: Addrs)

  /** Two shorts in one little-endian word. */
  function Join(lo: short, hi: short): (w: word) {
    lo % 0x10000 + 0x10000 * (hi % 0x10000)
  }

  function Signed(h: nat): (s: short)
    requires h < 0x10000
  {
    if h < 0x8000 then h else h - 0x10000
  }

  function Lo(w: word): (s: short) { Signed(w % 0x10000) }
  function Hi(w: word): (s: short) { Signed(w / 0x10000) }

  lemma JoinSplit(lo: short, hi: short)
    ensures Lo(Join(lo, hi)) == lo && Hi(Join(lo, hi)) == hi
  {
    var w := Join(lo, hi);
    assert w % 0x10000 == lo % 0x10000 && w / 0x10000 == hi % 0x10000;
  }

  /** The words of an inode record. */
  function Pack(d: Dinode): (ws: seq<word>)
    ensures |ws| == IWORDS
  {
    [Join(d.typ, d.major), Join(d.minor, d.nlink), d.size] + d.addrs
  }

  function PutWords(b: Block, at: nat, ws: seq<word>): (r: Block)
    requires at + |ws| <= WORDS
    decreases |ws|
  {
    if ws == [] then b else SetWord(PutWords(b, at, ws[..|ws| - 1]), at + |ws| - 1, ws[|ws| - 1])
  }

  lemma {:induction false} WordsAfterPut(b: Block, at: nat, ws: seq<word>, k: nat)
    requires at + |ws| <= WORDS && k < WORDS
    ensures Word(PutWords(b, at, ws), k) == if at <= k < at + |ws| then ws[k - at] else Word(b, k)
    decreases |ws|
  {
    hide Word, SetWord;
    if ws != [] {
      var front := ws[..|ws| - 1];
      WordsAfterPut(b, at, front, k);
      WordAfterSet(PutWords(b, at, front), at + |ws| - 1, ws[|ws| - 1], k);
    }
  }

  function GetWords(b: Block, at: nat, n: nat): (ws: seq<word>)
    requires at + n <= WORDS
    ensures |ws| == n && forall k | 0 <= k < n :: ws[k] == Word(b, at + k)
  {
    if n == 0 then [] else GetWords(b, at, n - 1) + [Word(b, at + n - 1)]
  }

  function Unpack(ws: seq<word>): (d: Dinode)
    requires |ws| == IWORDS
  {
    Dinode(Lo(ws[0]), Hi(ws[0]), Lo(ws[1]), Hi(ws[1]), ws[2], ws[3..])
  }

  lemma UnpackPack(d: Dinode)
    ensures Unpack(Pack(d)) == d
  {
    hide Join, Lo, Hi;
    JoinSplit(d.typ, d.major);
    JoinSplit(d.minor, d.nlink);
    assert Pack(d)[3..] == d.addrs;
  }

  /** The record in slot i of a block. */
  function Get(b: Block, i: nat): (d: Dinode)
    requires i < IPB
  {
    Unpack(GetWords(b, IWORDS * i, IWORDS))
  }

  /** The inode that ilock reads. */
  function Stored(disk: seq<Block>, start: nat, inum: nat): (d: Dinode)
    requires start + inum / IPB < |disk|
  {
    Get(disk[start + inum / IPB], inum % IPB)
  }

  /** The record is struct dinode: four 16-bit fields, the size and thirteen block numbers, all
      little-endian, one after the other from byte 64 * i of the block. */
  lemma {:induction false} RecordLayout(b: Block, i: nat)
    requires i < IPB
    ensures var d, at := Get(b, i), 64 * i;
            && d.typ % 0x10000 == LittleEndian(b, at, 2) && d.major % 0x10000 == LittleEndian(b, at + 2, 2)
            && d.minor % 0x10000 == LittleEndian(b, at + 4, 2) && d.nlink % 0x10000 == LittleEndian(b, at + 6, 2)
            && d.size == LittleEndian(b, at + 8, 4)
            && forall k | 0 <= k < NADDRS :: d.addrs[k] == LittleEndian(b, at + 12 + 4 * k, 4)
  {
    hide Word, LittleEndian;
    forall j: nat | IWORDS * i <= j < IWORDS * i + IWORDS ensures Word(b, j) == LittleEndian(b, 4 * j, 4) {
      WordBytes(b, j);
    }
    WordBytes(b, IWORDS * i);
    WordBytes(b, IWORDS * i + 1);
    var d := Get(b, i);
    forall k | 0 <= k < NADDRS ensures d.addrs[k] == LittleEndian(b, 64 * i + 12 + 4 * k, 4) {
      assert d.addrs[k] == Word(b, IWORDS * i + 3 + k);
      assert 4 * (IWORDS * i + 3 + k) == 64 * i + 12 + 4 * k;
    }
  }

  lemma {:induction false} GetPut(b: Block, i: nat, d: Dinode, j: nat)
    requires i < IPB && j < IPB
    ensures Get(PutWords(b, IWORDS * i, Pack(d)), j) == if j == i then d else Get(b, j)
  {
    hide Word, SetWord, PutWords, Unpack, Pack, GetWords;
    var at, ws := IWORDS * j, Pack(d);
    var r := PutWords(b, IWORDS * i, ws);
    var was, now := GetWords(b, at, IWORDS), GetWords(r, at, IWORDS);
    forall k | 0 <= k < IWORDS ensures now[k] == if j == i then ws[k] else was[k] {
      WordsAfterPut(b, IWORDS * i, ws, at + k);
    }
    assert now == if j == i then ws else was;
    UnpackPack(d);
  }

  /** What iupdate stored ilock reads back; every other inode is as it was. */
  lemma {:induction false} IupdateThenIlock(disk: seq<Block>, start: nat, inum: nat, d: Dinode, other: nat)
    requires start + inum / IPB < |disk| && start + other / IPB < |disk|
    ensures var at := start + inum / IPB;
            var t := disk[at := PutWords(disk[at], IWORDS * (inum % IPB), Pack(d))];
            Stored(t, start, other) == if other == inum then d else Stored(disk, start, other)
  {
    hide PutWords, Get, Pack;
    var at := start + inum / IPB;
    if start + other / IPB == at {
      GetPut(disk[at], inum % IPB, d, other % IPB);
      assert other % IPB == inum % IPB <==> other == inum;
    }
  }

  class InodeDisk {
    const start: nat  // sb.inodestart
    var disk: seq<Block>

    constructor (start: nat, disk: seq<Block>)
      ensures this.start == start && this.disk == disk
    {
      this.start, this.disk := start, disk;
    }

    /** iupdate: the disk shows the new inode, every other inode and every other block as before. */
    method Iupdate(inum: nat, d: Dinode)
      requires start + inum / IPB < |disk|
      modifies this
      ensures |disk| == |old(disk)|
      ensures forall m: nat | start + m / IPB < |disk| ::
                Stored(disk, start, m) == if m == inum then d else Stored(old(disk), start, m)
      ensures forall b | 0 <= b < |disk| && b != start + inum / IPB :: disk[b] == old(disk)[b]
    {
      hide Stored, SetWord;
      var at, slot := start + inum / IPB, IWORDS * (inum % IPB);
      var bp := disk[at];
      ghost var was, ws := bp, Pack(d);
      bp := SetWord(bp, slot, Join(d.typ, d.major));
      bp := SetWord(bp, slot + 1, Join(d.minor, d.nlink));
      bp := SetWord(bp, slot + 2, d.size);
      FirstThree(was, slot, ws);
      var k := 0;
      while k < NADDRS
        invariant 0 <= k <= NADDRS && bp == PutWords(was, slot, ws[..3 + k])
      {
        bp := SetWord(bp, slot + 3 + k, d.addrs[k]);
        assert ws[..4 + k][..3 + k] == ws[..3 + k];
        k := k + 1;
      }
      assert ws[..IWORDS] == ws;
      disk := disk[at := bp];
      forall m: nat | start + m / IPB < |disk|
        ensures Stored(disk, start, m) == if m == inum then d else Stored(old(disk), start, m)
      {
        IupdateThenIlock(old(disk), start, inum, d, m);
      }
    }

    /** The reading part of ilock; ok is false where it panics on an inode without a type. */
    method Ilock(inum: nat) returns (ok: bool, d: Dinode)
      requires start + inum / IPB < |disk|
      ensures d == Stored(disk, start, inum) && ok == (d.typ != 0)
    {
      hide Word, Lo, Hi;
      var bp, slot := disk[start + inum / IPB], IWORDS * (inum % IPB);
      ghost var ws := GetWords(bp, slot, IWORDS);
      var addrs: seq<word> := [];
      var k := 0;
      while k < NADDRS
        invariant 0 <= k <= NADDRS && addrs == ws[3..3 + k]
      {
        addrs := addrs + [Word(bp, slot + 3 + k)];
        k := k + 1;
      }
      assert addrs == ws[3..];
      d := Dinode(Lo(Word(bp, slot)), Hi(Word(bp, slot)), Lo(Word(bp, slot + 1)), Hi(Word(bp, slot + 1)), Word(bp, slot + 2), addrs);
      ok := d.typ != 0;
    }
  }

  lemma FirstThree(b: Block, at: nat, ws: seq<word>)
    requires at + |ws| <= WORDS && |ws| >= 3
    ensures PutWords(b, at, ws[..3]) == SetWord(SetWord(SetWord(b, at, ws[0]), at + 1, ws[1]), at + 2, ws[2])
  {
    hide SetWord;
    assert ws[..3][..2] == ws[..2] && ws[..2][..1] == ws[..1] && ws[..1][..0] == [];
    assert PutWords(b, at, ws[..1]) == SetWord(b, at, ws[0]);
    assert PutWords(b, at, ws[..2]) == SetWord(SetWord(b, at, ws[0]), at + 1, ws[1]);
  }
}
