/** The buffer cache (bio.c) on values: buffers, the most-recently-used ring, lookup,
    recycling and release, and the system of processes that hold and wait for buffers. */
module Bio {
  import opened Disk
  import opened LogDisk

  datatype Buf = Buf(dev: nat, blockno: nat, valid: bool, dirty: bool, refcnt: nat, locked: bool, data: Block)

  /** ring lists buffer numbers from head.next (most recent) to head.prev. */
  datatype Cache = Cache(bufs: seq<Buf>, ring: seq<nat>)

  predicate Names(b: Buf, dev: nat, blockno: nat) {
    b.dev == dev && b.blockno == blockno
  }

  predicate Idle(b: Buf) {
    b.refcnt == 0 && !b.dirty
  }

  /** The ring is a permutation of all buffers. */
  predicate RingOk(c: Cache) {
    && |c.ring| == |c.bufs|
    && Distinct(c.ring)
    && (forall i | 0 <= i < |c.ring| :: c.ring[i] < |c.bufs|)
    && forall b | 0 <= b < |c.bufs| :: b in c.ring
  }

  /** First ring position, from the recent end, whose buffer holds the block; or |ring|. */
  function Find(c: Cache, dev: nat, blockno: nat, from: nat := 0): (i: nat)
    requires RingOk(c) && from <= |c.ring|
    ensures from <= i <= |c.ring|
    ensures i < |c.ring| ==> Names(c.bufs[c.ring[i]], dev, blockno)
    ensures forall j | from <= j < i :: !Names(c.bufs[c.ring[j]], dev, blockno)
    decreases |c.ring| - from
  {
    if from == |c.ring| || Names(c.bufs[c.ring[from]], dev, blockno) then from
    else Find(c, dev, blockno, from + 1)
  }

  /** One past the last ring position below `to` whose buffer is unreferenced and clean; or 0. */
  function FindIdle(c: Cache, to: nat): (i: nat)
    requires RingOk(c) && to <= |c.ring|
    ensures i <= to
    ensures i > 0 ==> Idle(c.bufs[c.ring[i - 1]])
    ensures forall j | i <= j < to :: !Idle(c.bufs[c.ring[j]])
  {
    if to == 0 || Idle(c.bufs[c.ring[to - 1]]) then to else FindIdle(c, to - 1)
  }

  datatype Got = Got(cache: Cache, buf: nat) | NoBuffers

  /** bget up to the point where it waits for the buffer's sleep lock. */
  function Bget(c: Cache, dev: nat, blockno: nat): (r: Got)
    requires RingOk(c)
  {
    var i := Find(c, dev, blockno);
    if i < |c.ring| then
      var b := c.ring[i];
      Got(c.(bufs := c.bufs[b := c.bufs[b].(refcnt := c.bufs[b].refcnt + 1)]), b)
    else
      var k := FindIdle(c, |c.ring|);
      if k == 0 then NoBuffers
      else
        var b := c.ring[k - 1];
        Got(c.(bufs := c.bufs[b := Buf(dev, blockno, false, false, 1, c.bufs[b].locked, c.bufs[b].data)]), b)
  }

  predicate Same(c: Cache, d: Cache, b: nat) {
    |d.bufs| == |c.bufs| && d.ring == c.ring && forall j | 0 <= j < |c.bufs| && j != b :: d.bufs[j] == c.bufs[j]
  }

  /** bget panics exactly when no buffer holds the block and every buffer is referenced or
      dirty. Otherwise it either adds one reference to a buffer that holds the block, or, only
      when none does, hands an unreferenced clean buffer over with its contents invalid. */
  lemma {:induction false} BgetExactly(c: Cache, dev: nat, n: nat)
    requires RingOk(c)
    ensures Bget(c, dev, n).NoBuffers? <==>
            forall i | 0 <= i < |c.bufs| :: (c.bufs[i].dev != dev || c.bufs[i].blockno != n) && (c.bufs[i].refcnt > 0 || c.bufs[i].dirty)
    ensures match Bget(c, dev, n)
            case NoBuffers => true
            case Got(d, b) =>
              b < |c.bufs| && Same(c, d, b)
              && d.bufs[b].dev == dev && d.bufs[b].blockno == n && d.bufs[b].refcnt == c.bufs[b].refcnt + 1
              && d.bufs[b].locked == c.bufs[b].locked && d.bufs[b].data == c.bufs[b].data
              && (if exists i | 0 <= i < |c.bufs| :: c.bufs[i].dev == dev && c.bufs[i].blockno == n
                  then c.bufs[b].dev == dev && c.bufs[b].blockno == n && d.bufs[b].valid == c.bufs[b].valid && d.bufs[b].dirty == c.bufs[b].dirty
                  else c.bufs[b].refcnt == 0 && !c.bufs[b].dirty && !d.bufs[b].valid && !d.bufs[b].dirty)
  {
    var i := Find(c, dev, n);
    if i < |c.ring| {
      var b := c.ring[i];
      assert b < |c.bufs| && c.bufs[b].dev == dev && c.bufs[b].blockno == n;
    } else {
      forall x | 0 <= x < |c.bufs| ensures !Names(c.bufs[x], dev, n) && (FindIdle(c, |c.ring|) == 0 ==> !Idle(c.bufs[x])) {
        assert x in c.ring;
      }
    }
  }

  function Position(s: seq<nat>, x: nat): (i: nat)
    requires x in s
    ensures i < |s| && s[i] == x
  {
    if s[0] == x then 0 else 1 + Position(s[1..], x)
  }

  function MoveToFront(s: seq<nat>, x: nat): (r: seq<nat>)
    requires x in s
  {
    var i := Position(s, x);
    [x] + s[..i] + s[i + 1..]
  }

  /** The part of brelse after the sleep lock is released. */
  function Bput(c: Cache, b: nat): (r: Cache)
    requires RingOk(c) && b < |c.bufs| && c.bufs[b].refcnt > 0
  {
    var n := c.bufs[b].refcnt - 1;
    Cache(c.bufs[b := c.bufs[b].(refcnt := n)], if n == 0 then MoveToFront(c.ring, b) else c.ring)
  }

  lemma {:induction false} MoveToFrontKeeps(s: seq<nat>, x: nat)
    requires Distinct(s) && x in s
    ensures var r := MoveToFront(s, x); |r| == |s| && Distinct(r) && Elems(r) == Elems(s)
  {
    hide Position;
    var i := Position(s, x);
    var r := MoveToFront(s, x);
    forall y | y in s ensures y in r {
      var j :| 0 <= j < |s| && s[j] == y;
      if j < i { assert r[j + 1] == y; } else if j > i { assert r[j] == y; } else { assert r[0] == y; }
    }
    assert forall y | y in r :: y in s;
  }

  /** brelse gives one reference back and changes nothing else about any buffer. The buffer
      becomes the most recent exactly when that was the last reference, and then the rest of the
      ring keeps its order. */
  lemma {:induction false} BputExactly(c: Cache, b: nat)
    requires RingOk(c) && b < |c.bufs| && c.bufs[b].refcnt > 0
    ensures var d := Bput(c, b);
            && |d.bufs| == |c.bufs| && (forall j | 0 <= j < |c.bufs| && j != b :: d.bufs[j] == c.bufs[j])
            && d.bufs[b] == c.bufs[b].(refcnt := c.bufs[b].refcnt - 1)
            && (c.bufs[b].refcnt > 1 ==> d.ring == c.ring)
            && (c.bufs[b].refcnt == 1 ==> exists i | 0 <= i < |c.ring| :: c.ring[i] == b && d.ring == [b] + c.ring[..i] + c.ring[i + 1..])
  {
    hide Position;
    var i := Position(c.ring, b);
    assert c.ring[i] == b;
  }

  lemma {:induction false} RingKept(c: Cache, b: nat)
    requires RingOk(c) && b < |c.bufs|
    ensures RingOk(c.(ring := MoveToFront(c.ring, b)))
  {
    hide Position;
    MoveToFrontKeeps(c.ring, b);
    var r := MoveToFront(c.ring, b);
    assert forall x :: x in r <==> x in Elems(r);
    assert forall x :: x in c.ring <==> x in Elems(c.ring);
    assert forall i | 0 <= i < |r| :: r[i] in r;
  }
}
