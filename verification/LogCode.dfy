/** log.c itself: the in-memory header, the loops that copy blocks, and the counters,
    updated in place. Every bwrite is recorded in `images`, so a crash exposes the last
    recorded image and the loops can be compared write by write with LogDisk. */
module LogCode {
  import opened Disk
  import opened LogDisk
  import opened LogSystem

  lemma Assoc<T>(z: seq<T>, a: seq<T>, b: seq<T>, c: seq<T>, d: seq<T>)
    ensures z + a + b + c + d == z + (a + b + c + d)
  {
  }

  /** The only state Begin can lead to. */
  function Begun(s: State, p: int): (t: State)
    ensures forall L: Layout, u: State :: Step(L, s, Begin(p), u) ==> u == t
  {
    s.(outstanding := s.outstanding + 1, ops := s.ops[p := Op(s.epoch, 0, false)])
  }

  lemma {:induction false} RecoveredReads(L: Layout, d: Image)
    requires WfImage(L, d) && CanRun(L, Dev(d, map[]), Head(d[L.start]))
    ensures var lh := Head(d[L.start]);
            var r := RecoverRun(L, Dev(d, map[]), lh, |lh| + 1);
            |r.disk| == |d| && forall b | 0 <= b < |d| && Home(L, b) :: BRead(r, b) == Rec(L, d, b)
  {
    hide Word, PutHead, Slot, InstallRun, Head, Rec;
    ClearKeepsRec(L, Dev(d, map[]), Head(d[L.start]));
  }

  class Log {
    const L: Layout               // log.start, log.size
    var disk: Image
    var dirty: map<nat, Block>    // buffers pinned by B_DIRTY
    var n: nat                    // log.lh.n
    const block: array<nat>       // log.lh.block
    var outstanding: int
    var committing: bool
    ghost var images: seq<Image>  // the disk after each block write so far

    ghost predicate Shape()
      reads this, block
    {
      && block.Length == LOGSIZE && n <= LOGSIZE
      && CanRun(L, Dev(disk, dirty), block[..n])
    }

    function Device(): Dev
      reads this
    {
      Dev(disk, dirty)
    }

    function Lh(): seq<nat>
      reads this, block
      requires n <= block.Length
    {
      block[..n]
    }

    /** initlog: an idle log, with what the disk had committed installed. */
    constructor (L: Layout, disk: Image)
      requires WfImage(L, disk)
      ensures this.L == L && fresh(block) && Shape() && n == 0 && outstanding == 0 && !committing
      ensures var lh := Head(disk[L.start]);
              && CanRun(L, Dev(disk, map[]), lh)
              && Device() == RecoverRun(L, Dev(disk, map[]), lh, |lh| + 1)
              && images == RecoverTrail(L, Dev(disk, map[]), lh, |lh| + 1)
      ensures forall b | 0 <= b < |disk| && Home(L, b) :: BRead(Device(), b) == Rec(L, disk, b)
    {
      this.L := L;
      this.disk := disk;
      dirty := map[];
      n := 0;
      block := new nat[LOGSIZE](_ => 0);
      outstanding := 0;
      committing := false;
      images := [];
      new;
      hide Head, Word, RecoverRun, RecoverTrail;
      RecoverFromLog();
      RecoveredReads(L, disk);
    }

    method Bread(b: nat) returns (data: Block)
      requires b < |disk|
      ensures data == BRead(Device(), b)
    {
      data := if b in dirty then dirty[b] else disk[b];
    }

    method Bwrite(b: nat, data: Block)
      requires b < |disk|
      modifies this`disk, this`dirty, this`images
      ensures Device() == BWrite(old(Device()), b, data)
      ensures images == old(images) + [disk]
    {
      disk := disk[b := data];
      dirty := dirty - {b};
      images := images + [disk];
    }

    method WriteLog()
      requires Shape()
      modifies this`disk, this`dirty, this`images
      ensures Device() == LogRun(L, old(Device()), Lh(), n)
      ensures images == old(images) + LogTrail(L, old(Device()), Lh(), n)
    {
      hide Word, LogTrail, InstallTrail;
      ghost var dev0, lh := Device(), Lh();
      assert LogTrail(L, dev0, lh, 0) == [] && InstallTrail(L, dev0, lh, 0) == [] by { EmptyTrail(L, dev0, lh); }
      var tail := 0;
      while tail < n
        invariant tail <= n
        invariant Device() == LogRun(L, dev0, lh, tail)
        invariant images == old(images) + LogTrail(L, dev0, lh, tail)
      {
        var from := Bread(block[tail]);
        Bwrite(L.start + tail + 1, from);
        TrailStep(L, dev0, lh, tail);
        tail := tail + 1;
      }
    }

    method InstallTrans()
      requires Shape()
      modifies this`disk, this`dirty, this`images
      ensures Device() == InstallRun(L, old(Device()), Lh(), n)
      ensures images == old(images) + InstallTrail(L, old(Device()), Lh(), n)
    {
      hide Word, LogTrail, InstallTrail;
      ghost var dev0, lh := Device(), Lh();
      assert LogTrail(L, dev0, lh, 0) == [] && InstallTrail(L, dev0, lh, 0) == [] by { EmptyTrail(L, dev0, lh); }
      var tail := 0;
      while tail < n
        invariant tail <= n
        invariant Device() == InstallRun(L, dev0, lh, tail)
        invariant images == old(images) + InstallTrail(L, dev0, lh, tail)
      {
        var lbuf := Bread(L.start + tail + 1);
        Bwrite(block[tail], lbuf);
        TrailStep(L, dev0, lh, tail);
        tail := tail + 1;
      }
    }

    method WriteHead()
      requires Shape()
      modifies this`disk, this`dirty, this`images
      ensures Shape() && Device() == HeadWrite(L, old(Device()), Lh())
      ensures images == old(images) + [disk]
    {
      ghost var lh := Lh();
      var buf := Bread(L.start);
      ghost var old0 := buf;
      buf := SetWord(buf, 0, n);
      var i := 0;
      while i < n
        invariant i <= n
        invariant buf == PutEntries(old0, lh, i)
      {
        buf := SetWord(buf, i + 1, block[i]);
        i := i + 1;
      }
      Bwrite(L.start, buf);
    }

    method ReadHead()
      requires WfImage(L, disk) && dirty == map[] && block.Length == LOGSIZE
      modifies this`n, block
      ensures Shape() && Lh() == Head(disk[L.start])
    {
      hide Word;
      var buf := Bread(L.start);
      n := Word(buf, 0);
      var i := 0;
      while i < n
        invariant i <= n
        invariant n == |Head(disk[L.start])|
        invariant forall j | 0 <= j < i :: block[j] == Head(disk[L.start])[j]
      {
        block[i] := Word(buf, i + 1);
        i := i + 1;
      }
      assert Lh() == Head(disk[L.start]);
    }

    /** Boot-time recovery writes exactly the images of RecoverRun and leaves the log empty. */
    method RecoverFromLog()
      requires WfImage(L, disk) && dirty == map[] && block.Length == LOGSIZE
      modifies this`disk, this`dirty, this`images, this`n, block
      ensures var lh := Head(old(disk)[L.start]);
              && CanRun(L, old(Device()), lh)
              && Device() == RecoverRun(L, old(Device()), lh, |lh| + 1)
              && images == old(images) + RecoverTrail(L, old(Device()), lh, |lh| + 1)
      ensures n == 0 && Shape()
    {
      hide Head, Word, InstallRun, HeadWrite, RecoverRun, RecoverTrail, InstallTrail;
      ReadHead();
      ghost var dev0, lh := Device(), Lh();
      RecoverTrailParts(L, dev0, lh);
      InstallTrans();
      n := 0;
      assert Lh() == [];
      WriteHead();
    }

    /** commit writes exactly the 2n+2 images of CommitRun, or nothing for an empty transaction. */
    method Commit()
      requires Shape()
      modifies this`disk, this`dirty, this`images, this`n
      ensures n == 0 && Shape()
      ensures var lh := old(Lh());
              if lh == [] then Device() == old(Device()) && images == old(images)
              else
                && Device() == CommitRun(L, old(Device()), lh, 2 * |lh| + 2)
                && images == old(images) + CommitTrail(L, old(Device()), lh, 2 * |lh| + 2)
    {
      hide CommitRun, CommitTrail;
      if n > 0 {
        CommitBlocks();
      }
    }

    /** The four phases for a transaction that is not empty. */
    method CommitBlocks()
      requires Shape() && n > 0
      modifies this`disk, this`dirty, this`images, this`n
      ensures n == 0 && Shape()
      ensures Device() == CommitRun(L, old(Device()), old(Lh()), 2 * |old(Lh())| + 2)
      ensures images == old(images) + CommitTrail(L, old(Device()), old(Lh()), 2 * |old(Lh())| + 2)
    {
      hide Word, InstallRun, HeadWrite, LogRun, CommitRun, CommitTrail, LogTrail, InstallTrail;
      ghost var dev0, lh := Device(), Lh();
      CommitTrailParts(L, dev0, lh);
      WriteLog();
      ghost var a := LogTrail(L, dev0, lh, |lh|);
      LogRunShape(L, dev0, lh, |lh|);
      WriteHead();
      ghost var h := Device();
      InstallTrans();
      ghost var c := InstallTrail(L, h, lh, |lh|);
      assert images == old(images) + a + [h.disk] + c;
      n := 0;
      assert Lh() == [];
      WriteHead();
      Assoc(old(images), a, [h.disk], c, [disk]);
    }

    /** The object is what state s of the machine shows. */
    ghost predicate Shows(s: State)
      reads this, block
    {
      && n <= block.Length && s.dev == Device() && s.lh == Lh()
      && s.outstanding == outstanding && s.committing == committing && !s.panicked && !s.mode.Recovering?
    }

    /** One pass of begin_op's loop under log.lock; refusal means sleep and retry. It admits
        exactly when no commit runs and the log could hold what it has and the maximum of every
        operation, the new one included; that is the Begin step of the machine. */
    method BeginOp() returns (admitted: bool)
      modifies this`outstanding
      ensures admitted <==> !old(committing) && old(n) + (old(outstanding) + 1) * MAXOPBLOCKS <= LOGSIZE
      ensures forall s: State, p: int | old(Shows(s)) && p !in s.ops ::
                (admitted <==> Step(L, s, Begin(p), Begun(s, p))) && Shows(if admitted then Begun(s, p) else s)
      ensures admitted ==> !committing && n + outstanding * MAXOPBLOCKS <= LOGSIZE
      ensures admitted <==> outstanding != old(outstanding)
    {
      admitted := !committing && n + (outstanding + 1) * MAXOPBLOCKS <= LOGSIZE;
      if admitted {
        outstanding := outstanding + 1;
      }
    }

    /** log_write of a block whose buffer now holds data: the unlocked size test, then the
        absorption scan and append under log.lock. */
    method LogWrite(b: nat, data: Block) returns (panic: bool)
      requires Shape() && Home(L, b) && b < |disk|
      modifies this`dirty, this`n, block
      ensures panic <==> old(n) >= LOGSIZE || old(n) >= L.size - 1 || outstanding < 1
      ensures Shape() && disk == old(disk)
      ensures panic ==> Lh() == old(Lh()) && dirty == old(dirty)
      ensures !panic ==> Lh() == Absorb(old(Lh()), b) && dirty == old(dirty)[b := data]
      ensures !panic ==> Lh() == if b in old(Lh()) then old(Lh()) else old(Lh()) + [b]
    {
      hide Word, Slot;
      if n >= LOGSIZE || n >= L.size - 1 || outstanding < 1 {
        return true;
      }
      panic := false;
      ghost var lh := Lh();
      var i := 0;
      while i < n && block[i] != b
        invariant i <= n
        invariant forall j | 0 <= j < i :: block[j] != b
      {
        i := i + 1;
      }
      assert Slot(lh, b) == i;
      block[i] := b;
      if i == n {
        n := n + 1;
        assert Lh() == lh + [b];
      } else {
        assert Lh() == lh;
      }
      dirty := dirty[b := data];
      FitsAbsorbed(L, |disk|, lh, b);
    }

    /** end_op: the last operation out commits everything logged since the log was empty. */
    method EndOp() returns (panic: bool)
      requires Shape()
      modifies this`disk, this`dirty, this`images, this`n, this`outstanding, this`committing
      ensures panic <==> old(committing)
      ensures outstanding == old(outstanding) - 1 && Shape()
      ensures !panic ==> !committing
      ensures panic || outstanding != 0 ==> Device() == old(Device()) && n == old(n) && images == old(images)
      ensures !panic && outstanding == 0 ==>
                n == 0 && var lh := old(Lh());
                if lh == [] then Device() == old(Device()) && images == old(images)
                else
                  && Device() == CommitRun(L, old(Device()), lh, 2 * |lh| + 2)
                  && images == old(images) + CommitTrail(L, old(Device()), lh, 2 * |lh| + 2)
    {
      hide Word, CommitRun, CommitTrail;
      outstanding := outstanding - 1;
      if committing {
        return true;
      }
      panic := false;
      if outstanding == 0 {
        committing := true;
        Commit();
        committing := false;
      }
    }
  }

  lemma FitsAbsorbed(L: Layout, lim: nat, lh: seq<nat>, b: nat)
    requires LhFits(L, lim, lh) && Home(L, b) && b < lim
    requires |lh| < LOGSIZE && |lh| < L.size - 1
    ensures LhFits(L, lim, Absorb(lh, b))
  {
  }
}
