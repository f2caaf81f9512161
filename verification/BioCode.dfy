/** bio.c itself: buffers in a fixed array, threaded on a doubly linked ring through a head
    node, with binit, bget and brelse rewriting the links in place. */
module BioCode {
  import opened Disk
  import opened LogDisk
  import opened Bio

  /** The i-th node of the ring, the head being node 0 and node |r|+1. */
  function At(head: nat, r: seq<nat>, i: nat): nat
    requires i <= |r| + 1
  {
    if i == 0 || i == |r| + 1 then head else r[i - 1]
  }

  /** prev and next thread the head and the nodes of r into one ring, in order. */
  ghost predicate Linked(head: nat, r: seq<nat>, prev: seq<nat>, next: seq<nat>) {
    && |prev| == |next| == head + 1
    && Distinct(r)
    && (forall i | 0 <= i < |r| :: r[i] < head)
    && (forall i | 0 <= i <= |r| :: next[At(head, r, i)] == At(head, r, i + 1))
    && forall i | 0 <= i <= |r| :: prev[At(head, r, i + 1)] == At(head, r, i)
  }

  lemma {:induction false} Unlink(head: nat, r: seq<nat>, prev: seq<nat>, next: seq<nat>, k: nat)
    requires Linked(head, r, prev, next) && k < |r|
    ensures next[r[k]] <= head && prev[r[k]] <= head
    ensures var n, p := next[r[k]], prev[r[k]];
            Linked(head, r[..k] + r[k + 1..], prev[n := p], next[p := n])
  {
    var q := r[..k] + r[k + 1..];
    assert At(head, r, k + 1) == r[k];
    var n, p := next[r[k]], prev[r[k]];
    assert n == At(head, r, k + 2) && p == At(head, r, k);
    forall i | 0 <= i <= |q|
      ensures next[p := n][At(head, q, i)] == At(head, q, i + 1)
      ensures prev[n := p][At(head, q, i + 1)] == At(head, q, i)
    {
      var j := if i <= k then i else i + 1;
      assert At(head, q, i) == At(head, r, j);
      var j' := if i < k then i + 1 else i + 2;
      assert At(head, q, i + 1) == At(head, r, j');
    }
  }

  lemma {:induction false} PushFront(head: nat, r: seq<nat>, prev: seq<nat>, next: seq<nat>, b: nat)
    requires Linked(head, r, prev, next) && b < head && b !in r
    ensures next[head] <= head
    ensures var f := next[head];
            Linked(head, [b] + r, prev[b := head][f := b], next[b := f][head := b])
  {
    var q := [b] + r;
    var f := next[head];
    assert At(head, r, 0) == head;
    assert f == At(head, r, 1);
    forall i | 0 <= i <= |q|
      ensures next[b := f][head := b][At(head, q, i)] == At(head, q, i + 1)
      ensures prev[b := head][f := b][At(head, q, i + 1)] == At(head, q, i)
    {
      if i > 1 {
        assert At(head, q, i) == At(head, r, i - 1);
      }
      if i > 0 {
        assert At(head, q, i + 1) == At(head, r, i);
      }
    }
  }

  class BCache {
    const nbuf: nat
    const buf: array<Buf>
    const prev: array<nat>
    const next: array<nat>
    ghost var ring: seq<nat>

    ghost predicate Valid()
      reads this, buf, prev, next
    {
      && buf.Length == nbuf && prev.Length == next.Length == nbuf + 1 && prev != next
      && RingOk(Cache(buf[..], ring))
      && Linked(nbuf, ring, prev[..], next[..])
    }

    ghost function Value(): Cache
      reads this, buf
    {
      Cache(buf[..], ring)
    }

    /** binit threads every buffer, the last one most recent. */
    constructor (nbuf: nat)
      ensures Valid() && this.nbuf == nbuf && fresh(buf) && fresh(prev) && fresh(next)
      ensures forall i | 0 <= i < nbuf :: buf[i] == Buf(0, 0, false, false, 0, false, ZeroBlock())
      ensures |ring| == nbuf && forall i | 0 <= i < nbuf :: ring[i] == nbuf - 1 - i
    {
      this.nbuf := nbuf;
      buf := new Buf[nbuf](_ => Buf(0, 0, false, false, 0, false, ZeroBlock()));
      prev := new nat[nbuf + 1](_ => nbuf);
      next := new nat[nbuf + 1](_ => nbuf);
      ring := [];
      new;
      var b := 0;
      while b < nbuf
        invariant b <= nbuf
        invariant prev.Length == next.Length == nbuf + 1
        invariant |ring| == b && forall i | 0 <= i < b :: ring[i] == b - 1 - i
        invariant Linked(nbuf, ring, prev[..], next[..])
        invariant fresh(buf) && fresh(prev) && fresh(next) && prev != next
        invariant forall i | 0 <= i < nbuf :: buf[i] == Buf(0, 0, false, false, 0, false, ZeroBlock())
      {
        PushFront(nbuf, ring, prev[..], next[..], b);
        next[b] := next[nbuf];
        prev[b] := nbuf;
        prev[next[nbuf]] := b;
        next[nbuf] := b;
        ring := [b] + ring;
        b := b + 1;
      }
      forall b | 0 <= b < nbuf ensures b in ring {
        assert ring[nbuf - 1 - b] == b;
      }
    }

    /** bget's first scan, from the most recent buffer; the head means not cached. */
    method Scan(dev: nat, blockno: nat) returns (b: nat)
      requires Valid()
      ensures var i := Find(Value(), dev, blockno); b == if i < nbuf then ring[i] else nbuf
    {
      assert At(nbuf, ring, 0) == nbuf;
      b := next[nbuf];
      ghost var i := 0;
      while b != nbuf && !(buf[b].dev == dev && buf[b].blockno == blockno)
        invariant 0 <= i <= nbuf && b == At(nbuf, ring, i + 1)
        invariant forall j | 0 <= j < i :: !Names(buf[ring[j]], dev, blockno)
        decreases nbuf - i
      {
        b := next[b];
        i := i + 1;
      }
      assert Find(Value(), dev, blockno) == i;
    }

    /** bget's second scan, from the least recent buffer; the head means none is idle. */
    method ScanIdle() returns (b: nat)
      requires Valid()
      ensures var k := FindIdle(Value(), nbuf); b == if k > 0 then ring[k - 1] else nbuf
    {
      assert At(nbuf, ring, nbuf + 1) == nbuf;
      b := prev[nbuf];
      ghost var i := nbuf;
      while b != nbuf && !(buf[b].refcnt == 0 && !buf[b].dirty)
        invariant 0 <= i <= nbuf && b == At(nbuf, ring, i)
        invariant forall j | i <= j < nbuf :: !Idle(buf[ring[j]])
        decreases i
      {
        b := prev[b];
        i := i - 1;
      }
      assert FindIdle(Value(), nbuf) == i;
    }

    /** bget up to the sleep lock; ok is false where bget panics. */
    method Get(dev: nat, blockno: nat) returns (ok: bool, b: nat)
      requires Valid()
      modifies buf
      ensures Valid()
      ensures ok <==> exists i | 0 <= i < nbuf :: Names(old(buf[..])[i], dev, blockno) || Idle(old(buf[..])[i])
      ensures ok ==> b < nbuf && Names(buf[b], dev, blockno) && buf[b].refcnt == old(buf[..])[b].refcnt + 1
      ensures match Bget(old(Value()), dev, blockno)
              case Got(c, i) => ok && b == i && Value() == c
              case NoBuffers => !ok && Value() == old(Value())
    {
      hide Linked, Find, FindIdle;
      BgetExactly(Value(), dev, blockno);
      ok := true;
      b := Scan(dev, blockno);
      if b != nbuf {
        buf[b] := buf[b].(refcnt := buf[b].refcnt + 1);
        return;
      }
      b := ScanIdle();
      if b != nbuf {
        buf[b] := Buf(dev, blockno, false, false, 1, buf[b].locked, buf[b].data);
        return;
      }
      ok := false;
    }

    /** Take b out of the ring and put it back next to the head. */
    method ToFront(b: nat)
      requires prev.Length == next.Length == nbuf + 1 && prev != next
      requires Linked(nbuf, ring, prev[..], next[..]) && b in ring
      modifies this`ring, prev, next
      ensures Linked(nbuf, ring, prev[..], next[..])
      ensures ring == MoveToFront(old(ring), b)
    {
      hide Position;
      ghost var k := Position(ring, b);
      ghost var q := ring[..k] + ring[k + 1..];
      Unlink(nbuf, ring, prev[..], next[..], k);
      prev[next[b]] := prev[b];
      next[prev[b]] := next[b];
      assert b !in q;
      PushFront(nbuf, q, prev[..], next[..], b);
      next[b] := next[nbuf];
      prev[b] := nbuf;
      prev[next[nbuf]] := b;
      next[nbuf] := b;
      ring := [b] + q;
      assert ring == MoveToFront(old(ring), b);
    }

    /** brelse after releasesleep: drop a reference, and at zero move to the recent end. */
    method Put(b: nat)
      requires Valid() && b < nbuf && buf[b].refcnt > 0
      modifies this`ring, buf, prev, next
      ensures Valid() && Value() == Bput(old(Value()), b)
    {
      hide Linked, MoveToFront;
      ghost var c := Value();
      buf[b] := buf[b].(refcnt := buf[b].refcnt - 1);
      if buf[b].refcnt == 0 {
        assert b in ring;
        RingKept(Value(), b);
        ToFront(b);
      }
    }
  }
}
