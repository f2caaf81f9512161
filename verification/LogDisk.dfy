/** The on-disk redo log (log.c): header, log blocks, commit and recovery as sequences of
    single block writes, and what a crash between any two of them leaves behind. */
module LogDisk {
  import opened Disk

  const MAXOPBLOCKS := 10
  const LOGSIZE := 30  // MAXOPBLOCKS * 3

  /** The log region: header block at `start`, log blocks after it, `size` blocks in all. */
  datatype Layout = Layout(start: nat, size: nat)

  type Image = seq<Block>

  /** The disk together with the cache blocks pinned by B_DIRTY. */
  datatype Dev = Dev(disk: Image, dirty: map<nat, Block>)

  /** Blocks outside the log region: the only ones a transaction may log. */
  predicate Home(L: Layout, b: nat) {
    b < L.start || L.start + L.size <= b
  }

  predicate Distinct(s: seq<nat>) {
    forall i, j | 0 <= i < j < |s| :: s[i] != s[j]
  }

  function Elems(s: seq<nat>): (r: set<nat>) {
    set b | b in s
  }

  /** What bread hands out: the pinned copy if there is one, else the disk. */
  function BRead(dev: Dev, b: nat): (r: Block)
    requires b < |dev.disk|
  {
    if b in dev.dirty then dev.dirty[b] else dev.disk[b]
  }

  /** bwrite: one atomic block write, which also clears B_DIRTY. */
  function BWrite(dev: Dev, b: nat, data: Block): (r: Dev)
    requires b < |dev.disk|
  {
    Dev(dev.disk[b := data], dev.dirty - {b})
  }

  /** The header's block list. */
  function Head(b: Block): (lh: seq<nat>)
    requires Word(b, 0) <= LOGSIZE
  {
    seq(Word(b, 0), (i: nat) requires i < Word(b, 0) => Word(b, i + 1))
  }

  predicate LhFits(L: Layout, lim: nat, lh: seq<nat>) {
    && |lh| <= LOGSIZE
    && |lh| < L.size
    && Distinct(lh)
    && forall i | 0 <= i < |lh| :: Home(L, lh[i]) && lh[i] < lim
  }

  /** A disk whose on-disk header describes a well-formed log. */
  predicate WfImage(L: Layout, d: Image) {
    && 0 < L.size
    && L.start + L.size <= |d| <= 0x1_0000_0000
    && Word(d[L.start], 0) <= LOGSIZE
    && LhFits(L, |d|, Head(d[L.start]))
  }

  function PutEntries(b: Block, lh: seq<nat>, k: nat): (r: Block)
    requires k <= |lh| <= LOGSIZE
    requires forall i | 0 <= i < |lh| :: lh[i] < 0x1_0000_0000
  {
    if k == 0 then SetWord(b, 0, |lh|) else SetWord(PutEntries(b, lh, k - 1), k, lh[k - 1])
  }

  /** The header block write_head builds over the previous header's bytes. */
  function PutHead(b: Block, lh: seq<nat>): (r: Block)
    requires |lh| <= LOGSIZE
    requires forall i | 0 <= i < |lh| :: lh[i] < 0x1_0000_0000
  {
    PutEntries(b, lh, |lh|)
  }

  lemma {:induction false} EntriesStored(b: Block, lh: seq<nat>, k: nat)
    requires k <= |lh| <= LOGSIZE
    requires forall i | 0 <= i < |lh| :: lh[i] < 0x1_0000_0000
    ensures Word(PutEntries(b, lh, k), 0) == |lh|
    ensures forall i | 0 <= i < k :: Word(PutEntries(b, lh, k), i + 1) == lh[i]
  {
    hide Word, SetWord;
    if k == 0 {
      WordAfterSet(b, 0, |lh|, 0);
    } else {
      EntriesStored(b, lh, k - 1);
      var p := PutEntries(b, lh, k - 1);
      WordAfterSet(p, k, lh[k - 1], 0);
      forall i | 0 <= i < k
        ensures Word(PutEntries(b, lh, k), i + 1) == lh[i]
      {
        WordAfterSet(p, k, lh[k - 1], i + 1);
      }
    }
  }

  /** The on-disk header: the count in the first word, then the block numbers in order. */
  lemma {:induction false} HeadLayout(b: Block, lh: seq<nat>)
    requires |lh| <= LOGSIZE
    requires forall i | 0 <= i < |lh| :: lh[i] < 0x1_0000_0000
    ensures Word(PutHead(b, lh), 0) == |lh|
    ensures forall i | 0 <= i < |lh| :: Word(PutHead(b, lh), i + 1) == lh[i]
  {
    hide Word;
    HeadRoundTrip(b, lh);
    var h := Head(PutHead(b, lh));
    assert forall i | 0 <= i < |lh| :: h[i] == Word(PutHead(b, lh), i + 1);
  }

  /** read_head undoes write_head. */
  lemma {:induction false} HeadRoundTrip(b: Block, lh: seq<nat>)
    requires |lh| <= LOGSIZE
    requires forall i | 0 <= i < |lh| :: lh[i] < 0x1_0000_0000
    ensures Word(PutHead(b, lh), 0) <= LOGSIZE
    ensures Head(PutHead(b, lh)) == lh
  {
    EntriesStored(b, lh, |lh|);
  }

  /** First position of b in lh, or |lh|: log_write's absorption scan. */
  function Slot(lh: seq<nat>, b: nat): (i: nat)
    ensures i <= |lh|
    ensures i < |lh| ==> lh[i] == b
    ensures forall j | 0 <= j < i :: lh[j] != b
  {
    if |lh| == 0 || lh[0] == b then 0 else 1 + Slot(lh[1..], b)
  }

  lemma {:induction false} SlotAt(lh: seq<nat>, i: nat)
    requires Distinct(lh) && i < |lh|
    ensures Slot(lh, lh[i]) == i
  {
    var j := Slot(lh, lh[i]);
    assert j <= i;
    assert j < |lh| && lh[j] == lh[i];
  }

  /** What recovery will make of block b of this disk. */
  function Rec(L: Layout, d: Image, b: nat): (r: Block)
    requires WfImage(L, d) && b < |d|
  {
    var lh := Head(d[L.start]);
    var i := Slot(lh, b);
    if i < |lh| then d[L.start + 1 + i] else d[b]
  }

  // ---- commit and recovery, one block write at a time ----

  /** After k iterations of write_log. */
  function LogRun(L: Layout, dev: Dev, lh: seq<nat>, k: nat): (r: Dev)
    requires k <= |lh| && LhFits(L, |dev.disk|, lh) && L.start + L.size <= |dev.disk|
    ensures |r.disk| == |dev.disk|
  {
    if k == 0 then dev else
      var p := LogRun(L, dev, lh, k - 1);
      BWrite(p, L.start + k, BRead(p, lh[k - 1]))
  }

  /** write_head with in-memory header lh. */
  function HeadWrite(L: Layout, dev: Dev, lh: seq<nat>): (r: Dev)
    requires L.start < |dev.disk| <= 0x1_0000_0000 && LhFits(L, |dev.disk|, lh)
    ensures |r.disk| == |dev.disk|
  {
    BWrite(dev, L.start, PutHead(BRead(dev, L.start), lh))
  }

  /** After k iterations of install_trans. */
  function InstallRun(L: Layout, dev: Dev, lh: seq<nat>, k: nat): (r: Dev)
    requires k <= |lh| && LhFits(L, |dev.disk|, lh) && L.start + L.size <= |dev.disk|
    ensures |r.disk| == |dev.disk|
  {
    if k == 0 then dev else
      var p := InstallRun(L, dev, lh, k - 1);
      BWrite(p, lh[k - 1], BRead(p, L.start + k))
  }

  predicate CanRun(L: Layout, dev: Dev, lh: seq<nat>) {
    && L.start + L.size <= |dev.disk| <= 0x1_0000_0000
    && LhFits(L, |dev.disk|, lh)
    && forall b | b in dev.dirty :: Home(L, b)
  }

  /** After the first k of commit's 2n+2 block writes: n log blocks, the header,
      n home blocks, the empty header. */
  function CommitRun(L: Layout, dev: Dev, lh: seq<nat>, k: nat): (r: Dev)
    requires CanRun(L, dev, lh) && k <= 2 * |lh| + 2
    ensures |r.disk| == |dev.disk|
  {
    var n := |lh|;
    if k <= n then LogRun(L, dev, lh, k)
    else
      var h := HeadWrite(L, LogRun(L, dev, lh, n), lh);
      if k <= 2 * n + 1 then InstallRun(L, h, lh, k - n - 1)
      else HeadWrite(L, InstallRun(L, h, lh, n), [])
  }

  /** After the first k of recover_from_log's n+1 block writes. */
  function RecoverRun(L: Layout, dev: Dev, lh: seq<nat>, k: nat): (r: Dev)
    requires CanRun(L, dev, lh) && k <= |lh| + 1
    ensures |r.disk| == |dev.disk|
  {
    if k <= |lh| then InstallRun(L, dev, lh, k)
    else HeadWrite(L, InstallRun(L, dev, lh, |lh|), [])
  }

  /** The disk images these runs pass through, one per block write. */
  function LogTrail(L: Layout, dev: Dev, lh: seq<nat>, k: nat): (r: seq<Image>)
    requires CanRun(L, dev, lh) && k <= |lh|
  {
    seq(k, (i: nat) requires i < k => LogRun(L, dev, lh, i + 1).disk)
  }

  function InstallTrail(L: Layout, dev: Dev, lh: seq<nat>, k: nat): (r: seq<Image>)
    requires CanRun(L, dev, lh) && k <= |lh|
  {
    seq(k, (i: nat) requires i < k => InstallRun(L, dev, lh, i + 1).disk)
  }

  function CommitTrail(L: Layout, dev: Dev, lh: seq<nat>, k: nat): (r: seq<Image>)
    requires CanRun(L, dev, lh) && k <= 2 * |lh| + 2
  {
    seq(k, (i: nat) requires i < k => CommitRun(L, dev, lh, i + 1).disk)
  }

  function RecoverTrail(L: Layout, dev: Dev, lh: seq<nat>, k: nat): (r: seq<Image>)
    requires CanRun(L, dev, lh) && k <= |lh| + 1
  {
    seq(k, (i: nat) requires i < k => RecoverRun(L, dev, lh, i + 1).disk)
  }

  lemma EmptyTrail(L: Layout, dev: Dev, lh: seq<nat>)
    requires CanRun(L, dev, lh)
    ensures LogTrail(L, dev, lh, 0) == [] && InstallTrail(L, dev, lh, 0) == []
  {
  }

  lemma {:induction false} TrailStep(L: Layout, dev: Dev, lh: seq<nat>, k: nat)
    requires CanRun(L, dev, lh) && k < |lh|
    ensures LogTrail(L, dev, lh, k + 1) == LogTrail(L, dev, lh, k) + [LogRun(L, dev, lh, k + 1).disk]
    ensures InstallTrail(L, dev, lh, k + 1) == InstallTrail(L, dev, lh, k) + [InstallRun(L, dev, lh, k + 1).disk]
  {
    hide LogRun, InstallRun;
  }

  /** commit's images are those of write_log, write_head, install_trans, write_head in turn. */
  lemma {:induction false} CommitTrailParts(L: Layout, dev: Dev, lh: seq<nat>)
    requires CanRun(L, dev, lh)
    ensures var n := |lh|; var h := HeadWrite(L, LogRun(L, dev, lh, n), lh);
            && CanRun(L, h, lh)
            && CanRun(L, InstallRun(L, h, lh, n), [])
            && CommitRun(L, dev, lh, 2 * n + 2) == HeadWrite(L, InstallRun(L, h, lh, n), [])
            && CommitTrail(L, dev, lh, 2 * n + 2) ==
               LogTrail(L, dev, lh, n) + [h.disk] + InstallTrail(L, h, lh, n)
               + [HeadWrite(L, InstallRun(L, h, lh, n), []).disk]
  {
    hide LogRun, InstallRun, PutHead;
    LogRunShape(L, dev, lh, |lh|);
    InstallRunShape(L, HeadWrite(L, LogRun(L, dev, lh, |lh|), lh), lh, |lh|);
    NoInstall(L, HeadWrite(L, LogRun(L, dev, lh, |lh|), lh), lh);
  }

  lemma NoInstall(L: Layout, dev: Dev, lh: seq<nat>)
    requires LhFits(L, |dev.disk|, lh) && L.start + L.size <= |dev.disk|
    ensures InstallRun(L, dev, lh, 0) == dev
  {
  }

  lemma {:induction false} RecoverTrailParts(L: Layout, dev: Dev, lh: seq<nat>)
    requires CanRun(L, dev, lh)
    ensures var m := InstallRun(L, dev, lh, |lh|);
            && CanRun(L, m, [])
            && RecoverRun(L, dev, lh, |lh| + 1) == HeadWrite(L, m, [])
            && RecoverTrail(L, dev, lh, |lh| + 1) == InstallTrail(L, dev, lh, |lh|) + [HeadWrite(L, m, []).disk]
  {
    hide InstallRun, PutHead;
    InstallRunShape(L, dev, lh, |lh|);
  }

  lemma {:induction false} LogRunShape(L: Layout, dev: Dev, lh: seq<nat>, k: nat)
    requires CanRun(L, dev, lh) && k <= |lh|
    ensures var r := LogRun(L, dev, lh, k);
            && r.dirty == dev.dirty
            && (forall b | 0 <= b < |dev.disk| && (Home(L, b) || b == L.start) :: r.disk[b] == dev.disk[b])
            && forall i | 0 <= i < k :: r.disk[L.start + 1 + i] == BRead(dev, lh[i])
  {
    hide Word, Slot;
    if k > 0 {
      LogRunShape(L, dev, lh, k - 1);
      var p := LogRun(L, dev, lh, k - 1);
      assert Home(L, lh[k - 1]) && !Home(L, L.start + k);
      assert BRead(p, lh[k - 1]) == BRead(dev, lh[k - 1]);
      assert p.dirty - {L.start + k} == p.dirty;
    }
  }

  lemma {:induction false} InstallRunShape(L: Layout, dev: Dev, lh: seq<nat>, k: nat)
    requires CanRun(L, dev, lh) && k <= |lh|
    ensures var r := InstallRun(L, dev, lh, k);
            && (forall b | b in r.dirty :: b in dev.dirty)
            && forall b | 0 <= b < |dev.disk| ::
                 var i := Slot(lh, b);
                 r.disk[b] == if i < k then dev.disk[L.start + 1 + i] else dev.disk[b]
  {
    hide Word, Slot;
    if k > 0 {
      InstallRunShape(L, dev, lh, k - 1);
      var p := InstallRun(L, dev, lh, k - 1);
      SlotAt(lh, k - 1);
      LogBlockNotHome(L, |dev.disk|, lh, L.start + k);
      assert BRead(p, L.start + k) == dev.disk[L.start + k];
    }
  }

  lemma {:induction false} InstallUnpins(L: Layout, dev: Dev, lh: seq<nat>, k: nat)
    requires CanRun(L, dev, lh) && k <= |lh|
    ensures InstallRun(L, dev, lh, k).dirty == dev.dirty - Elems(lh[..k])
  {
    if k > 0 {
      InstallUnpins(L, dev, lh, k - 1);
      assert lh[..k] == lh[..k - 1] + [lh[k - 1]];
      assert Elems(lh[..k]) == Elems(lh[..k - 1]) + {lh[k - 1]};
    }
  }

  lemma {:induction false} LogBlockNotHome(L: Layout, lim: nat, lh: seq<nat>, b: nat)
    requires LhFits(L, lim, lh) && !Home(L, b)
    ensures Slot(lh, b) == |lh|
  {
  }

  /** A disk image that crashed part-way through installing committed block list lh
      still recovers to the same blocks. */
  lemma {:induction false} InstallKeepsRec(L: Layout, dev: Dev, lh: seq<nat>, k: nat)
    requires WfImage(L, dev.disk) && CanRun(L, dev, lh) && k <= |lh|
    requires Head(dev.disk[L.start]) == lh
    ensures var r := InstallRun(L, dev, lh, k).disk;
            && WfImage(L, r) && Head(r[L.start]) == lh
            && forall b | 0 <= b < |r| && Home(L, b) :: Rec(L, r, b) == Rec(L, dev.disk, b)
  {
    hide Word, PutHead, Head, Slot;
    InstallRunShape(L, dev, lh, k);
    var r := InstallRun(L, dev, lh, k).disk;
    LogBlockNotHome(L, |dev.disk|, lh, L.start);
    assert r[L.start] == dev.disk[L.start];
    forall b | 0 <= b < |r| && Home(L, b)
      ensures Rec(L, r, b) == Rec(L, dev.disk, b)
    {
      var i := Slot(lh, b);
      if i < |lh| {
        LogBlockNotHome(L, |dev.disk|, lh, L.start + 1 + i);
      }
    }
  }

  /** Clearing the header once everything is installed changes no recovered block. */
  lemma {:induction false} ClearKeepsRec(L: Layout, dev: Dev, lh: seq<nat>)
    requires WfImage(L, dev.disk) && CanRun(L, dev, lh)
    requires Head(dev.disk[L.start]) == lh
    ensures var r := HeadWrite(L, InstallRun(L, dev, lh, |lh|), []);
            && WfImage(L, r.disk) && Head(r.disk[L.start]) == []
            && (forall b | 0 <= b < |r.disk| && Home(L, b) :: r.disk[b] == Rec(L, dev.disk, b))
            && r.dirty == dev.dirty - Elems(lh)
  {
    hide Word, PutHead, Head, Slot, InstallRun;
    InstallRunShape(L, dev, lh, |lh|);
    InstallUnpins(L, dev, lh, |lh|);
    var m := InstallRun(L, dev, lh, |lh|);
    HeadRoundTrip(BRead(m, L.start), []);
    assert lh[..|lh|] == lh;
    assert L.start !in m.dirty;
    forall b | 0 <= b < |m.disk| && Home(L, b)
      ensures m.disk[b] == Rec(L, dev.disk, b)
    {
      assert Slot(lh, b) <= |lh|;
    }
  }

  /** Any cut of recovery keeps what will be recovered; a complete one installs it
      and leaves an empty log. */
  lemma {:induction false} RecoverKeepsRec(L: Layout, d: Image, k: nat)
    requires WfImage(L, d) && k <= |Head(d[L.start])| + 1
    ensures CanRun(L, Dev(d, map[]), Head(d[L.start]))
    ensures var lh := Head(d[L.start]); var r := RecoverRun(L, Dev(d, map[]), lh, k).disk;
            && WfImage(L, r)
            && Head(r[L.start]) == (if k <= |lh| then lh else [])
            && forall b | 0 <= b < |r| && Home(L, b) :: Rec(L, r, b) == Rec(L, d, b)
  {
    hide Word, PutHead;
    var lh := Head(d[L.start]);
    if k <= |lh| {
      InstallKeepsRec(L, Dev(d, map[]), lh, k);
    } else {
      ClearKeepsRec(L, Dev(d, map[]), lh);
    }
  }

  /** Where a commit starts: empty on-disk log, pinned blocks are exactly the logged ones. */
  predicate CommitReady(L: Layout, dev: Dev, lh: seq<nat>) {
    && WfImage(L, dev.disk)
    && CanRun(L, dev, lh)
    && Head(dev.disk[L.start]) == []
    && dev.dirty.Keys == Elems(lh)
  }

  /** A crash after any k of commit's writes leaves the whole old state (k <= n)
      or the whole new state (k > n) recoverable. */
  lemma {:induction false} CommitCut(L: Layout, dev: Dev, lh: seq<nat>, k: nat)
    requires CommitReady(L, dev, lh) && k <= 2 * |lh| + 2
    ensures var r := CommitRun(L, dev, lh, k).disk;
            && WfImage(L, r)
            && Head(r[L.start]) == (if |lh| < k <= 2 * |lh| + 1 then lh else [])
            && forall b | 0 <= b < |r| && Home(L, b) ::
                 Rec(L, r, b) == if k <= |lh| then dev.disk[b] else BRead(dev, b)
  {
    hide Word, PutHead, Head, Slot, LhFits, LogRun, InstallRun;
    var n := |lh|;
    if k <= n {
      LogRunShape(L, dev, lh, k);
    } else {
      HeadWritten(L, dev, lh);
      var h := HeadWrite(L, LogRun(L, dev, lh, n), lh);
      if k <= 2 * n + 1 {
        InstallKeepsRec(L, h, lh, k - n - 1);
      } else {
        ClearKeepsRec(L, h, lh);
      }
    }
  }

  /** The header write is the commit point. */
  lemma {:induction false} HeadWritten(L: Layout, dev: Dev, lh: seq<nat>)
    requires CommitReady(L, dev, lh)
    ensures var h := HeadWrite(L, LogRun(L, dev, lh, |lh|), lh);
            && WfImage(L, h.disk) && Head(h.disk[L.start]) == lh && CanRun(L, h, lh)
            && h.dirty == dev.dirty
            && forall b | 0 <= b < |h.disk| && Home(L, b) :: Rec(L, h.disk, b) == BRead(dev, b)
  {
    hide Word, PutHead, Head, Slot, LogRun;
    LogRunShape(L, dev, lh, |lh|);
    var p := LogRun(L, dev, lh, |lh|);
    HeadRoundTrip(BRead(p, L.start), lh);
    assert L.start !in dev.dirty;
    assert p.dirty - {L.start} == p.dirty;
  }

  /** A finished commit: every block equals what bread gave before, nothing stays pinned. */
  lemma {:induction false} CommitDone(L: Layout, dev: Dev, lh: seq<nat>)
    requires CommitReady(L, dev, lh)
    ensures var r := CommitRun(L, dev, lh, 2 * |lh| + 2);
            && r.dirty == map[]
            && WfImage(L, r.disk) && Head(r.disk[L.start]) == []
            && forall b | 0 <= b < |r.disk| && Home(L, b) :: r.disk[b] == BRead(dev, b)
  {
    hide Word, PutHead;
    HeadWritten(L, dev, lh);
    ClearKeepsRec(L, HeadWrite(L, LogRun(L, dev, lh, |lh|), lh), lh);
    assert forall b | b in lh :: exists i :: 0 <= i < |lh| && lh[i] == b;
  }

  // ---- repeated crashes ----

  /** Boot on disk d and crash after at most c of recovery's writes. */
  function Reboot(L: Layout, d: Image, c: nat): (r: Image)
    requires WfImage(L, d)
    ensures WfImage(L, r)
  {
    RecoverKeepsRec(L, d, 0);
    var lh := Head(d[L.start]);
    var k := if c <= |lh| then c else |lh| + 1;
    RecoverKeepsRec(L, d, k);
    RecoverRun(L, Dev(d, map[]), lh, k).disk
  }

  /** A boot that recovers completely, after any number of boots that crashed inside recovery. */
  function Reboots(L: Layout, d: Image, cuts: seq<nat>): (r: Image)
    requires WfImage(L, d)
    ensures WfImage(L, r)
    decreases |cuts|
  {
    if cuts == [] then Reboot(L, d, LOGSIZE + 1) else Reboots(L, Reboot(L, d, cuts[0]), cuts[1..])
  }

  lemma {:induction false} RebootsRecover(L: Layout, d: Image, cuts: seq<nat>)
    requires WfImage(L, d)
    ensures var r := Reboots(L, d, cuts);
            && |r| == |d|
            && Head(r[L.start]) == []
            && forall b | 0 <= b < |r| && Home(L, b) :: r[b] == Rec(L, d, b)
    decreases |cuts|
  {
    var lh := Head(d[L.start]);
    if cuts == [] {
      RecoverKeepsRec(L, d, |lh| + 1);
    } else {
      var c := cuts[0];
      RecoverKeepsRec(L, d, if c <= |lh| then c else |lh| + 1);
      RebootsRecover(L, Reboot(L, d, c), cuts[1..]);
    }
  }

  /** Crash atomicity: crash after any prefix of commit's writes, then crash inside recovery
      any number of times; the recovery that completes leaves all home blocks as before the
      transaction, or all as after it, according to whether the header write happened,
      and an empty log. */
  lemma {:induction false} CrashAtomicity(L: Layout, dev: Dev, lh: seq<nat>, k: nat, cuts: seq<nat>)
    requires CommitReady(L, dev, lh) && k <= 2 * |lh| + 2
    ensures WfImage(L, CommitRun(L, dev, lh, k).disk)
    ensures var r := Reboots(L, CommitRun(L, dev, lh, k).disk, cuts);
            && Head(r[L.start]) == []
            && |r| == |dev.disk|
            && (k <= |lh| ==> forall b | 0 <= b < |r| && Home(L, b) :: r[b] == dev.disk[b])
            && (k > |lh| ==> forall b | 0 <= b < |r| && Home(L, b) :: r[b] == BRead(dev, b))
  {
    CommitCut(L, dev, lh, k);
    RebootsRecover(L, CommitRun(L, dev, lh, k).disk, cuts);
  }
}
