/** Any number of processes using the buffer cache at lock granularity. Each use of a
    buffer is a handle that goes through bget, the sleep lock, fill, changes, and brelse.
    The cache behaves as a plain map from block numbers to contents. */
module BioSystem {
  import opened Disk
  import opened LogDisk
  import opened Bio

  /** touched: the holder changed the data and has not yet called log_write or bwrite. */
  datatype Phase = Waiting | Holding(touched: bool) | Unlocked
  datatype Handle = Handle(buf: nat, blockno: nat, phase: Phase)

  datatype State = State(cache: Cache, disk: Image, handles: map<int, Handle>, stamp: seq<nat>, clock: nat)

  datatype Event =
    | Get(h: int, blockno: nat)      // bget under bcache.lock
    | Lock(h: int)                   // acquiresleep returns
    | Fill(h: int)                   // iderw reads the block
    | Modify(h: int, data: Block)    // the holder changes the data
    | LogWrite(h: int)               // log_write pins the buffer
    | Write(h: int)                  // bwrite
    | Unlock(h: int)                 // brelse: releasesleep
    | Put(h: int)                    // brelse: refcnt--, maybe move to the ring's front

  const DEV := 1  // ROOTDEV, the only device iderw accepts

  function SetBuf(s: State, i: nat, b: Buf): (t: State)
    requires i < |s.cache.bufs|
  {
    s.(cache := s.cache.(bufs := s.cache.bufs[i := b]))
  }

  function SetPhase(s: State, h: int, p: Phase): (t: State)
    requires h in s.handles
  {
    s.(handles := s.handles[h := s.handles[h].(phase := p)])
  }

  predicate Holds(s: State, h: int) {
    h in s.handles && s.handles[h].phase.Holding? && s.handles[h].buf < |s.cache.bufs|
  }

  ghost predicate Step(s: State, e: Event, t: State)
    requires RingOk(s.cache)
  {
    match e
    case Get(h, blockno) =>
      && h !in s.handles && blockno < |s.disk|
      && var g := Bget(s.cache, DEV, blockno);
         g.Got? && t == s.(cache := g.cache, handles := s.handles[h := Handle(g.buf, blockno, Waiting)])
    case Lock(h) =>
      && h in s.handles && s.handles[h].phase.Waiting? && s.handles[h].buf < |s.cache.bufs|
      && var i := s.handles[h].buf;
         !s.cache.bufs[i].locked && t == SetPhase(SetBuf(s, i, s.cache.bufs[i].(locked := true)), h, Holding(false))
    case Fill(h) =>
      && Holds(s, h)
      && var i := s.handles[h].buf; var b := s.cache.bufs[i];
         !b.valid && b.blockno < |s.disk| && t == SetBuf(s, i, b.(data := s.disk[b.blockno], valid := true))
    case Modify(h, data) =>
      && Holds(s, h)
      && var i := s.handles[h].buf; var b := s.cache.bufs[i];
         b.valid && t == SetPhase(SetBuf(s, i, b.(data := data)), h, Holding(true))
    case LogWrite(h) =>
      && Holds(s, h)
      && var i := s.handles[h].buf; var b := s.cache.bufs[i];
         b.valid && t == SetPhase(SetBuf(s, i, b.(dirty := true)), h, Holding(false))
    case Write(h) =>
      && Holds(s, h)
      && var i := s.handles[h].buf; var b := s.cache.bufs[i];
         b.valid && b.blockno < |s.disk|
         && t == SetPhase(SetBuf(s, i, b.(dirty := false)), h, Holding(false)).(disk := s.disk[b.blockno := b.data])
    case Unlock(h) =>
      && Holds(s, h) && !s.handles[h].phase.touched
      && var i := s.handles[h].buf; var b := s.cache.bufs[i];
         b.valid && t == SetPhase(SetBuf(s, i, b.(locked := false)), h, Unlocked)
    case Put(h) =>
      && h in s.handles && s.handles[h].phase.Unlocked? && s.handles[h].buf < |s.cache.bufs|
      && var i := s.handles[h].buf;
         s.cache.bufs[i].refcnt > 0 && |s.stamp| == |s.cache.bufs|
         && t == State(Bput(s.cache, i), s.disk, s.handles - {h},
                       if s.cache.bufs[i].refcnt == 1 then s.stamp[i := s.clock + 1] else s.stamp, s.clock + 1)
  }

  ghost predicate Used(s: State, t: State, h: int) {
    && h in s.handles && h in t.handles && t.handles[h].buf == s.handles[h].buf < |s.cache.bufs| == |t.cache.bufs|
    && t.handles[h].blockno == s.handles[h].blockno
  }

  function Before(s: State, t: State, h: int): Buf
    requires Used(s, t, h)
  {
    s.cache.bufs[s.handles[h].buf]
  }

  function After(s: State, t: State, h: int): Buf
    requires Used(s, t, h)
  {
    t.cache.bufs[t.handles[h].buf]
  }

  /** bread ends with the block locked and its contents valid, log_write pins, bwrite puts the
      contents on the disk, brelse gives the lock and then the reference back. */
  ghost predicate Did(s: State, e: Event, t: State) {
    match e
    case Get(h, n) => h in t.handles && t.handles[h].blockno == n && t.handles[h].phase.Waiting?
    case Lock(h) => Used(s, t, h) && !Before(s, t, h).locked && After(s, t, h).locked && Holds(t, h)
    case Fill(h) => Used(s, t, h) && var b := Before(s, t, h); b.blockno < |s.disk| && After(s, t, h) == b.(valid := true, data := s.disk[b.blockno])
    case Modify(h, data) => Used(s, t, h) && After(s, t, h) == Before(s, t, h).(data := data) && t.handles[h].phase == Holding(true)
    case LogWrite(h) => Used(s, t, h) && After(s, t, h) == Before(s, t, h).(dirty := true) && t.handles[h].phase == Holding(false)
    case Write(h) =>
      && Used(s, t, h) && var b := Before(s, t, h);
      && After(s, t, h) == b.(dirty := false) && b.blockno < |s.disk| && t.disk == s.disk[b.blockno := b.data]
    case Unlock(h) => Used(s, t, h) && After(s, t, h) == Before(s, t, h).(locked := false) && t.handles[h].phase.Unlocked?
    case Put(h) => t.handles == s.handles - {h} && t.disk == s.disk
  }

  lemma {:induction false} StepExactly(s: State, e: Event, t: State)
    requires RingOk(s.cache) && Step(s, e, t)
    ensures Did(s, e, t)
    ensures !e.Write? ==> t.disk == s.disk
  {
    hide Bget, Bput;
  }

  // ---- invariant ----

  ghost function Refs(handles: map<int, Handle>, i: nat): set<int> {
    set h | h in handles && handles[h].buf == i
  }

  /** Each block of the device is cached at most once. */
  ghost predicate Unique(bufs: seq<Buf>) {
    forall i, j | 0 <= i < j < |bufs| && bufs[i].dev == DEV :: !Names(bufs[j], DEV, bufs[i].blockno)
  }

  ghost predicate Touched(handles: map<int, Handle>, i: nat) {
    exists h | h in handles :: handles[h].buf == i && handles[h].phase == Holding(true)
  }

  ghost predicate Held(handles: map<int, Handle>, i: nat) {
    exists h | h in handles :: handles[h].buf == i && handles[h].phase.Holding?
  }

  ghost predicate BufOk(s: State, i: nat)
    requires i < |s.cache.bufs|
  {
    var b := s.cache.bufs[i];
    && b.refcnt == |Refs(s.handles, i)|
    && (b.locked <==> Held(s.handles, i))
    && (b.dirty ==> b.valid)
    && (b.valid ==> b.dev == DEV && b.blockno < |s.disk|)
    && (b.valid && !b.dirty && !Touched(s.handles, i) ==> b.data == s.disk[b.blockno])
  }

  ghost predicate HandleOk(s: State, h: int)
    requires h in s.handles
  {
    var i := s.handles[h].buf;
    && i < |s.cache.bufs|
    && Names(s.cache.bufs[i], DEV, s.handles[h].blockno)
    && s.handles[h].blockno < |s.disk|
  }

  /** No two handles hold one buffer. */
  ghost predicate Exclusive(handles: map<int, Handle>) {
    forall h, k | h in handles && k in handles && h != k && handles[h].phase.Holding? && handles[k].phase.Holding? ::
      handles[h].buf != handles[k].buf
  }

  ghost predicate Inv(s: State) {
    && RingOk(s.cache)
    && Unique(s.cache.bufs)
    && (forall i | 0 <= i < |s.cache.bufs| :: BufOk(s, i))
    && (forall h | h in s.handles :: HandleOk(s, h))
    && Exclusive(s.handles)
  }

  /** Changing one handle's phase, its buffer and its disk block keeps the invariant
      elsewhere; what is left is to look at that buffer. */
  lemma {:induction false} LocalStep(s: State, h: int, b: Buf, p: Phase, d: Image, t: State)
    requires Inv(s) && h in s.handles
    requires var i := s.handles[h].buf; var a := s.cache.bufs[i];
             && b.dev == a.dev && b.blockno == a.blockno && b.refcnt == a.refcnt
             && |d| == |s.disk| && (forall n | 0 <= n < |d| && n != b.blockno :: d[n] == s.disk[n])
             && t == SetPhase(SetBuf(s, i, b), h, p).(disk := d)
             && (p.Holding? && !s.handles[h].phase.Holding? ==> !a.locked)
             && (b.locked <==> Held(t.handles, i))
             && (b.dirty ==> b.valid)
             && (b.valid && !b.dirty && !Touched(t.handles, i) ==> b.data == d[b.blockno])
    ensures Inv(t)
  {
    var i := s.handles[h].buf;
    assert HandleOk(s, h);
    assert BufOk(s, i);
    forall j | 0 <= j < |t.cache.bufs| ensures BufOk(t, j) {
      assert BufOk(s, j);
      assert Refs(t.handles, j) == Refs(s.handles, j);
      if j != i {
        OtherBuffers(s, h, p, t, j);
        assert !Names(s.cache.bufs[j], DEV, b.blockno);
      }
    }
    forall k | k in t.handles ensures HandleOk(t, k) {
      assert HandleOk(s, k);
    }
  }

  lemma OtherBuffers(s: State, h: int, p: Phase, t: State, j: nat)
    requires h in s.handles && s.handles[h].buf != j
    requires t.handles == s.handles[h := s.handles[h].(phase := p)]
    ensures Held(t.handles, j) == Held(s.handles, j)
    ensures Touched(t.handles, j) == Touched(s.handles, j)
  {
    if Held(s.handles, j) {
      var k :| k in s.handles && s.handles[k].buf == j && s.handles[k].phase.Holding?;
      assert t.handles[k] == s.handles[k];
    }
    if Touched(s.handles, j) {
      var k :| k in s.handles && s.handles[k].buf == j && s.handles[k].phase == Holding(true);
      assert t.handles[k] == s.handles[k];
    }
  }

  lemma PhaseFacts(s: State, h: int, p: Phase, t: State)
    requires Inv(s) && h in s.handles
    requires s.handles[h].phase.Holding? || !s.cache.bufs[s.handles[h].buf].locked
    requires t.handles == s.handles[h := s.handles[h].(phase := p)]
    ensures Held(t.handles, s.handles[h].buf) == p.Holding?
    ensures Touched(t.handles, s.handles[h].buf) == (p == Holding(true))
  {
    var i := s.handles[h].buf;
    assert HandleOk(s, h) && BufOk(s, i);
    assert t.handles[h] == s.handles[h].(phase := p);
    assert s.handles[h].phase.Holding? || !Held(s.handles, i);
    assert forall k | k in t.handles && k != h :: t.handles[k] == s.handles[k];
    assert forall k | k in t.handles && k != h :: !(s.handles[k].buf == i && s.handles[k].phase.Holding?);
  }

  /** Steps taken by the holder of a buffer, and taking the lock. */
  lemma {:induction false} HolderStep(s: State, e: Event, t: State)
    requires Inv(s) && Step(s, e, t) && !e.Get? && !e.Put?
    ensures Inv(t)
  {
    hide RingOk, Unique, Exclusive, Held, Touched;
    var h := e.h;
    var i := s.handles[h].buf;
    var q := s.handles[h].phase;
    assert HandleOk(s, h) && BufOk(s, i);
    var p := t.handles[h].phase;
    assert t.handles == s.handles[h := s.handles[h].(phase := p)];
    PhaseFacts(s, h, p, t);
    assert s.handles == s.handles[h := s.handles[h].(phase := q)];
    PhaseFacts(s, h, q, s);
    LocalStep(s, h, t.cache.bufs[i], p, t.disk, t);
  }

  lemma {:induction false} RefsAdd(handles: map<int, Handle>, h: int, x: Handle, j: nat)
    requires h !in handles
    ensures |Refs(handles[h := x], j)| == |Refs(handles, j)| + (if x.buf == j then 1 else 0)
  {
    assert Refs(handles[h := x], j) == Refs(handles, j) + (if x.buf == j then {h} else {});
  }

  lemma {:induction false} HeldAdd(handles: map<int, Handle>, h: int, x: Handle, j: nat)
    requires h !in handles && x.phase.Waiting?
    ensures Held(handles[h := x], j) == Held(handles, j)
    ensures Touched(handles[h := x], j) == Touched(handles, j)
  {
    var g := handles[h := x];
    assert forall k | k in handles :: g[k] == handles[k];
  }

  lemma {:induction false} RefsDrop(handles: map<int, Handle>, h: int, j: nat)
    requires h in handles && !handles[h].phase.Holding?
    ensures |Refs(handles - {h}, j)| == |Refs(handles, j)| - (if handles[h].buf == j then 1 else 0)
    ensures Held(handles - {h}, j) == Held(handles, j)
    ensures Touched(handles - {h}, j) == Touched(handles, j)
  {
    var g := handles - {h};
    assert forall k | k in g :: g[k] == handles[k];
    assert Refs(g, j) == Refs(handles, j) - (if handles[h].buf == j then {h} else {});
  }

  lemma {:induction false} NoRefs(handles: map<int, Handle>, i: nat)
    requires |Refs(handles, i)| == 0
    ensures forall h | h in handles :: handles[h].buf != i
    ensures !Held(handles, i) && !Touched(handles, i)
  {
    var r := Refs(handles, i);
    assert r == {};
    assert forall h | h in handles :: h !in r;
  }

  lemma {:induction false} GetUnique(c: Cache, n: nat)
    requires RingOk(c) && Unique(c.bufs) && Bget(c, DEV, n).Got?
    ensures var g := Bget(c, DEV, n); RingOk(g.cache) && Unique(g.cache.bufs)
  {
    var p := Find(c, DEV, n);
    if p == |c.ring| {
      forall j | 0 <= j < |c.bufs| ensures !Names(c.bufs[j], DEV, n) {
        assert j in c.ring;
      }
    }
  }

  lemma {:induction false} GetStep(s: State, h: int, n: nat, t: State)
    requires Inv(s) && Step(s, Get(h, n), t)
    ensures Inv(t)
  {
    hide Refs, Held, Touched;
    var i := t.handles[h].buf;
    assert BufOk(s, i);
    if s.cache.bufs[i].refcnt == 0 {
      NoRefs(s.handles, i);
    }
    assert Names(t.cache.bufs[i], DEV, n);
    forall j | 0 <= j < |t.cache.bufs| ensures BufOk(t, j) {
      assert BufOk(s, j);
      RefsAdd(s.handles, h, t.handles[h], j);
      HeldAdd(s.handles, h, t.handles[h], j);
    }
    forall k | k in t.handles ensures HandleOk(t, k) {
      if k != h { assert HandleOk(s, k); }
    }
    GetUnique(s.cache, n);
  }

  lemma {:induction false} PutStep(s: State, h: int, t: State)
    requires Inv(s) && Step(s, Put(h), t)
    ensures Inv(t)
  {
    hide Refs, Held, Touched, MoveToFront;
    var i := s.handles[h].buf;
    assert HandleOk(s, h);
    MoveToFrontKeeps(s.cache.ring, i);
    RingKept(s.cache, i);
    forall j | 0 <= j < |t.cache.bufs| ensures BufOk(t, j) {
      assert BufOk(s, j);
      RefsDrop(s.handles, h, j);
    }
    forall k | k in t.handles ensures HandleOk(t, k) {
      assert HandleOk(s, k);
    }
  }

  lemma {:induction false} StepKeepsInv(s: State, e: Event, t: State)
    requires Inv(s) && Step(s, e, t)
    ensures Inv(t)
  {
    match e
    case Get(h, n) => GetStep(s, h, n, t);
    case Put(h) => PutStep(s, h, t);
    case _ => HolderStep(s, e, t);
  }

  // ---- the cache is a map from block numbers to contents ----

  /** The latest contents of block n. */
  ghost function View(s: State, n: nat): Block
    requires RingOk(s.cache) && n < |s.disk|
  {
    var p := Find(s.cache, DEV, n);
    if p < |s.cache.ring| && s.cache.bufs[s.cache.ring[p]].valid then s.cache.bufs[s.cache.ring[p]].data
    else s.disk[n]
  }

  lemma {:induction false} ViewOfBuffer(s: State, n: nat, i: nat)
    requires RingOk(s.cache) && Unique(s.cache.bufs) && n < |s.disk|
    requires i < |s.cache.bufs| && Names(s.cache.bufs[i], DEV, n)
    ensures View(s, n) == if s.cache.bufs[i].valid then s.cache.bufs[i].data else s.disk[n]
  {
    var p := Find(s.cache, DEV, n);
    assert i in s.cache.ring;
    assert p < |s.cache.ring|;
    assert s.cache.ring[p] == i;
  }

  lemma {:induction false} ViewOfDisk(s: State, n: nat)
    requires RingOk(s.cache) && n < |s.disk|
    requires forall i | 0 <= i < |s.cache.bufs| :: !Names(s.cache.bufs[i], DEV, n)
    ensures View(s, n) == s.disk[n]
  {
  }

  /** bread hands its caller the latest contents, and only its caller can change them. */
  lemma HolderSeesLatest(s: State, h: int)
    requires Inv(s) && Holds(s, h) && s.cache.bufs[s.handles[h].buf].valid
    ensures s.handles[h].blockno < |s.disk|
    ensures s.cache.bufs[s.handles[h].buf].data == View(s, s.handles[h].blockno)
    ensures forall k | k != h && Holds(s, k) :: s.handles[k].blockno != s.handles[h].blockno
  {
    assert HandleOk(s, h);
    ViewOfBuffer(s, s.handles[h].blockno, s.handles[h].buf);
    forall k | k != h && Holds(s, k)
      ensures s.handles[k].blockno != s.handles[h].blockno
    {
      assert HandleOk(s, k);
    }
  }

  lemma {:induction false} SameNames(s: State, t: State, n: nat, i: nat)
    requires Inv(s) && Inv(t) && n < |s.disk| == |t.disk| && |t.cache.bufs| == |s.cache.bufs| && i < |s.cache.bufs|
    requires forall j | 0 <= j < |s.cache.bufs| && j != i :: t.cache.bufs[j] == s.cache.bufs[j]
    requires s.disk[n] == t.disk[n]
    requires !Names(s.cache.bufs[i], DEV, n) && !Names(t.cache.bufs[i], DEV, n)
    ensures View(t, n) == View(s, n)
  {
    hide Find, View, BufOk, HandleOk, Exclusive;
    if j :| 0 <= j < |s.cache.bufs| && Names(s.cache.bufs[j], DEV, n) {
      ViewOfBuffer(s, n, j);
      ViewOfBuffer(t, n, j);
    } else {
      ViewOfDisk(s, n);
      ViewOfDisk(t, n);
    }
  }

  /** The buffer a step works on. */
  function BufferOf(s: State, e: Event, t: State): nat {
    if e.Get? then (if e.h in t.handles then t.handles[e.h].buf else 0)
    else if e.h in s.handles then s.handles[e.h].buf else 0
  }

  /** Refinement: of all steps, recycling, disk reads and writes and lock traffic included,
      only a holder's change to its own block alters the map, and at that block alone. */
  lemma {:induction false} RefinesBlockMap(s: State, e: Event, t: State, n: nat)
    requires Inv(s) && Step(s, e, t) && Inv(t) && n < |s.disk|
    ensures |t.disk| == |s.disk|
    ensures View(t, n) == if e.Modify? && s.handles[e.h].blockno == n then e.data else View(s, n)
  {
    hide View, Find, FindIdle, MoveToFront;
    var i := BufferOf(s, e, t);
    if e.Get? {
      GetRefines(s, e.h, e.blockno, t, n);
    } else {
      assert HandleOk(s, e.h);
      assert BufOk(s, i);
      if s.handles[e.h].blockno == n {
        ViewOfBuffer(s, n, i);
        ViewOfBuffer(t, n, i);
      } else {
        SameNames(s, t, n, i);
      }
    }
  }

  lemma {:induction false} GetRefines(s: State, h: int, m: nat, t: State, n: nat)
    requires Inv(s) && Step(s, Get(h, m), t) && Inv(t) && n < |s.disk|
    ensures |t.disk| == |s.disk| && View(t, n) == View(s, n)
  {
    hide View, MoveToFront;
    var i := t.handles[h].buf;
    var a := s.cache.bufs[i];
    assert BufOk(s, i);
    assert HandleOk(t, h);
    if a.refcnt == 0 {
      NoRefs(s.handles, i);
    }
    if Names(t.cache.bufs[i], DEV, n) {
      ViewOfBuffer(t, n, i);
      if Names(a, DEV, n) {
        ViewOfBuffer(s, n, i);
      } else {
        forall j | 0 <= j < |s.cache.bufs| ensures !Names(s.cache.bufs[j], DEV, n) {
          assert j in s.cache.ring;
        }
        ViewOfDisk(s, n);
      }
    } else if Names(a, DEV, n) {
      ViewOfBuffer(s, n, i);
      forall j | 0 <= j < |t.cache.bufs| ensures !Names(t.cache.bufs[j], DEV, n) {
        assert j == i || t.cache.bufs[j] == s.cache.bufs[j];
      }
      ViewOfDisk(t, n);
    } else {
      SameNames(s, t, n, i);
    }
  }

  /** A referenced or dirty buffer is never given to another block. */
  lemma PinnedStays(s: State, e: Event, t: State, i: nat)
    requires Inv(s) && Step(s, e, t) && i < |s.cache.bufs|
    requires s.cache.bufs[i].dirty || s.cache.bufs[i].refcnt > 0
    ensures |t.cache.bufs| == |s.cache.bufs|
    ensures Names(t.cache.bufs[i], s.cache.bufs[i].dev, s.cache.bufs[i].blockno)
    ensures s.cache.bufs[i].dirty && !t.cache.bufs[i].dirty ==> e.Write? && t.disk[s.cache.bufs[i].blockno] == t.cache.bufs[i].data
  {
    hide MoveToFront;
    if e.h in s.handles {
      assert HandleOk(s, e.h);
    }
    assert BufOk(s, i);
  }

  // ---- the device that log.c is written against ----

  ghost function DirtyBlocks(s: State): map<nat, Block>
    requires RingOk(s.cache)
  {
    map n: nat | n < |s.disk| && Pinned(s.cache, n) :: s.cache.bufs[s.cache.ring[Find(s.cache, DEV, n)]].data
  }

  predicate Pinned(c: Cache, n: nat)
    requires RingOk(c)
  {
    var p := Find(c, DEV, n);
    p < |c.ring| && c.bufs[c.ring[p]].dirty
  }

  /** Outside a holder's changes, bread is LogDisk.BRead of the disk and the pinned blocks. */
  lemma CacheIsDevice(s: State, n: nat)
    requires Inv(s) && n < |s.disk|
    requires forall h | Holds(s, h) && s.handles[h].blockno == n :: !s.handles[h].phase.touched
    ensures View(s, n) == BRead(Dev(s.disk, DirtyBlocks(s)), n)
  {
    var p := Find(s.cache, DEV, n);
    if p < |s.cache.ring| {
      var i := s.cache.ring[p];
      assert BufOk(s, i);
      assert forall h | h in s.handles :: HandleOk(s, h);
      assert !Touched(s.handles, i);
    }
  }

  // ---- least recently used ----

  /** The ring is ordered by the time each buffer was last released to zero references. */
  ghost predicate ByAge(s: State) {
    && RingOk(s.cache) && |s.stamp| == |s.cache.bufs|
    && (forall i | 0 <= i < |s.stamp| :: s.stamp[i] <= s.clock)
    && forall i, j | 0 <= i < j < |s.cache.ring| :: s.stamp[s.cache.ring[i]] > s.stamp[s.cache.ring[j]]
  }

  lemma {:induction false} ByAgeStep(s: State, e: Event, t: State)
    requires ByAge(s) && Step(s, e, t)
    ensures ByAge(t)
  {
    hide Position, Find, FindIdle, MoveToFront;
    if e.Put? {
      var i := s.handles[e.h].buf;
      RingKept(s.cache, i);
      if s.cache.bufs[i].refcnt == 1 {
        MovedByAge(s.cache.ring, i, s.stamp, s.clock);
      }
    }
  }

  lemma {:induction false} MovedByAge(r: seq<nat>, x: nat, stamp: seq<nat>, clock: nat)
    requires x in r && Distinct(r) && forall i | 0 <= i < |r| :: r[i] < |stamp|
    requires forall i | 0 <= i < |stamp| :: stamp[i] <= clock
    requires forall i, j | 0 <= i < j < |r| :: stamp[r[i]] > stamp[r[j]]
    ensures var m, st := MoveToFront(r, x), stamp[x := clock + 1];
            && |m| == |r| && (forall i | 0 <= i < |m| :: m[i] < |stamp|)
            && forall i, j | 0 <= i < j < |m| :: st[m[i]] > st[m[j]]
  {
    hide Position;
    var k := Position(r, x);
    var m := MoveToFront(r, x);
    assert forall i | 0 < i < |m| :: m[i] == r[if i <= k then i - 1 else i];
    assert forall i | 0 < i < |m| :: m[i] != x;
  }

  /** A recycled buffer is the least recently released of all idle ones. */
  lemma {:induction false} VictimIsOldest(s: State, h: int, n: nat, t: State, j: nat)
    requires ByAge(s) && Step(s, Get(h, n), t)
    requires Find(s.cache, DEV, n) == |s.cache.ring|
    requires j < |s.cache.bufs| && Idle(s.cache.bufs[j])
    ensures t.handles[h].buf < |s.stamp| && s.stamp[t.handles[h].buf] <= s.stamp[j]
  {
    assert j in s.cache.ring;
    var p :| 0 <= p < |s.cache.ring| && s.cache.ring[p] == j;
    var k := FindIdle(s.cache, |s.cache.ring|);
    assert p < k;
  }

  // ---- whole runs ----

  ghost predicate Init(s: State) {
    && RingOk(s.cache)
    && (forall i | 0 <= i < |s.cache.bufs| ::
          s.cache.bufs[i].dev == 0 && !s.cache.bufs[i].valid && !s.cache.bufs[i].dirty
          && s.cache.bufs[i].refcnt == 0 && !s.cache.bufs[i].locked)
    && s.handles == map[]
    && ByAge(s)
  }

  ghost predicate Run(ss: seq<State>, es: seq<Event>) {
    && |ss| == |es| + 1
    && Init(ss[0])
    && forall i | 0 <= i < |es| :: RingOk(ss[i].cache) && Step(ss[i], es[i], ss[i + 1])
  }

  lemma {:induction false} RunKeepsInv(ss: seq<State>, es: seq<Event>, i: nat)
    requires Run(ss, es) && i < |ss|
    ensures Inv(ss[i]) && ByAge(ss[i])
  {
    hide Step;
    if i == 0 {
      InitInv(ss[0]);
    } else {
      RunKeepsInv(ss, es, i - 1);
      assert Step(ss[i - 1], es[i - 1], ss[i]);
      StepKeepsInv(ss[i - 1], es[i - 1], ss[i]);
      ByAgeStep(ss[i - 1], es[i - 1], ss[i]);
    }
  }

  lemma InitInv(s: State)
    requires Init(s)
    ensures Inv(s)
  {
    forall i | 0 <= i < |s.cache.bufs| ensures BufOk(s, i) {
      assert Refs(s.handles, i) == {};
    }
  }
}
