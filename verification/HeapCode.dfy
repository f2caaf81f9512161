/** umalloc.c itself: headers in memory, the circular list walked and rewritten in place. */
module HeapCode {
  import opened Heap
  import opened Sums

  const UNIT := 8       // sizeof(Header)
  const MINCORE := 4096

  type Mem = map<int, int>

  function Next(f: seq<Blk>, i: nat): int
    requires i < |f|
  {
    if i + 1 < |f| then f[i + 1].at else f[0].at
  }

  predicate Link(f: seq<Blk>, i: nat, ptr: Mem)
    requires i < |f|
  {
    f[i].at in ptr && ptr[f[i].at] == Next(f, i)
  }

  ghost predicate Sizes(f: seq<Blk>, size: Mem) {
    forall i | 0 <= i < |f| :: f[i].at in size && size[f[i].at] == f[i].size
  }

  /** The headers in memory form one cycle through the blocks of f, in order. */
  ghost predicate Threaded(f: seq<Blk>, ptr: Mem, size: Mem) {
    Sizes(f, size) && forall i | 0 <= i < |f| :: Link(f, i, ptr)
  }

  ghost predicate Listed(f: seq<Blk>, a: int) {
    exists i | 0 <= i < |f| :: f[i].at == a
  }

  /** Threaded but for the link out of position k. */
  ghost predicate ThreadedBut(f: seq<Blk>, k: nat, ptr: Mem, size: Mem) {
    Sizes(f, size) && forall i | 0 <= i < |f| && i != k :: Link(f, i, ptr)
  }

  /** What free does to the header bp and, on a touch, to its right neighbour q. */
  function RightSize(bp: int, q: int, size: Mem): Mem
    requires bp in size && q in size
  {
    if bp + size[bp] == q then size[bp := size[bp] + size[q]] else size
  }

  function RightPtr(bp: int, q: int, ptr: Mem, size: Mem): Mem
    requires bp in size && q in ptr
  {
    ptr[bp := if bp + size[bp] == q then ptr[q] else q]
  }

  /** The list free works on next: the right neighbour gone if it was absorbed. */
  function WithoutRight(f: seq<Blk>, k: nat, b: Blk): seq<Blk>
    requires k < |f|
  {
    f[..k + 1] + Right(f, k, b).1
  }

  ghost predicate Ready(base: int, f: seq<Blk>, k: nat, bp: int, ptr: Mem, size: Mem) {
    && FreeList(base, f) && Threaded(f, ptr, size) && k < |f| && bp in size && size[bp] > 0
    && Fits(base, f, Blk(bp, size[bp])) && f[k].at < bp && forall i | k < i < |f| :: bp <= f[i].at
  }

  lemma {:induction false} NextListed(base: int, f: seq<Blk>, k: nat, bp: int, ptr: Mem, size: Mem)
    requires Ready(base, f, k, bp, ptr, size)
    ensures var q := Next(f, k); q in size && q in ptr && q != bp
    ensures bp + size[bp] == Next(f, k) <==> k + 1 < |f| && bp + size[bp] == f[k + 1].at
    ensures forall i | 0 <= i < |f| :: f[i].at != bp
  {
    var j := if k + 1 < |f| then k + 1 else 0;
    assert Link(f, j, ptr);
    assert f[0].at == base;
    if k + 1 < |f| {
      assert Apart(f[k + 1], Blk(bp, size[bp]));
    }
  }

  lemma {:induction false} ThreadRightMerged(base: int, f: seq<Blk>, k: nat, bp: int, ptr: Mem, size: Mem)
    requires Ready(base, f, k, bp, ptr, size)
    requires k + 1 < |f| && bp + size[bp] == f[k + 1].at
    ensures Next(f, k) in size && Next(f, k) in ptr
    ensures var q, b := Next(f, k), Blk(bp, size[bp]);
            var g, ptr1, size1 := WithoutRight(f, k, b), RightPtr(bp, q, ptr, size), RightSize(bp, q, size);
            && ThreadedBut(g, k, ptr1, size1) && ptr1[bp] == Next(g, k) && size1[bp] == Right(f, k, b).0.size
  {
    NextListed(base, f, k, bp, ptr, size);
    var q, b := Next(f, k), Blk(bp, size[bp]);
    var g, ptr1 := WithoutRight(f, k, b), RightPtr(bp, q, ptr, size);
    assert forall i | 0 <= i < |g| :: g[i] == f[if i <= k then i else i + 1];
    assert Link(f, k + 1, ptr);
    hide FreeList, Fits, RightPtr, RightSize;
    assert forall x | x in ptr && x != bp :: x in ptr1 && ptr1[x] == ptr[x] by { RightElsewhere(bp, q, ptr, size); }
    forall i | 0 <= i < |g| && i != k ensures Link(g, i, ptr1) {
      assert Link(f, if i <= k then i else i + 1, ptr);
    }
    RightHere(bp, q, ptr, size);
  }

  lemma RightElsewhere(bp: int, q: int, ptr: Mem, size: Mem)
    requires bp in size && q in ptr
    ensures forall x | x in ptr && x != bp :: x in RightPtr(bp, q, ptr, size) && RightPtr(bp, q, ptr, size)[x] == ptr[x]
  {
  }

  lemma RightHere(bp: int, q: int, ptr: Mem, size: Mem)
    requires bp in size && q in size && q in ptr && bp + size[bp] == q
    ensures bp in RightPtr(bp, q, ptr, size) && RightPtr(bp, q, ptr, size)[bp] == ptr[q]
    ensures RightSize(bp, q, size) == size[bp := size[bp] + size[q]]
  {
  }

  /** free's first assignments: bp points past a touching right neighbour and absorbs it. */
  lemma {:induction false} ThreadRight(base: int, f: seq<Blk>, k: nat, bp: int, ptr: Mem, size: Mem)
    requires Ready(base, f, k, bp, ptr, size)
    ensures Next(f, k) in size && Next(f, k) in ptr
    ensures var q, b := Next(f, k), Blk(bp, size[bp]);
            var g, ptr1, size1 := WithoutRight(f, k, b), RightPtr(bp, q, ptr, size), RightSize(bp, q, size);
            && ThreadedBut(g, k, ptr1, size1) && ptr1[bp] == Next(g, k) && size1[bp] == Right(f, k, b).0.size
  {
    NextListed(base, f, k, bp, ptr, size);
    if k + 1 < |f| && bp + size[bp] == f[k + 1].at {
      ThreadRightMerged(base, f, k, bp, ptr, size);
    } else {
      var g, ptr1 := WithoutRight(f, k, Blk(bp, size[bp])), RightPtr(bp, Next(f, k), ptr, size);
      assert g == f;
      forall i | 0 <= i < |g| && i != k ensures Link(g, i, ptr1) {
        assert Link(f, i, ptr);
      }
    }
  }

  /** What free does to the left neighbour p: absorb bp or point to it. */
  function LeftSize(p: int, bp: int, size: Mem): Mem
    requires bp in size && p in size
  {
    if p + size[p] == bp then size[p := size[p] + size[bp]] else size
  }

  function LeftPtr(p: int, bp: int, ptr: Mem, size: Mem): Mem
    requires bp in ptr && p in size
  {
    ptr[p := if p + size[p] == bp then ptr[bp] else bp]
  }

  /** free's last assignments. */
  lemma {:induction false} ThreadLeft(g: seq<Blk>, k: nat, bp: int, ptr: Mem, size: Mem)
    requires ThreadedBut(g, k, ptr, size) && k < |g| && bp in ptr && ptr[bp] == Next(g, k)
    requires bp in size && size[bp] >= 0
    requires (forall i | 0 <= i < |g| :: g[i].at != bp) && forall i, j | 0 <= i < j < |g| :: g[i].at != g[j].at
    ensures g[k].at in size
    ensures var p := g[k].at;
            var r := if p + size[p] == bp then g[..k] + [Blk(p, g[k].size + size[bp])] + g[k + 1..]
                        else g[..k + 1] + [Blk(bp, size[bp])] + g[k + 1..];
            Threaded(r, LeftPtr(p, bp, ptr, size), LeftSize(p, bp, size))
  {
    var p := g[k].at;
    var ptr2 := LeftPtr(p, bp, ptr, size);
    if p + size[p] == bp {
      var r := g[..k] + [Blk(p, g[k].size + size[bp])] + g[k + 1..];
      assert |r| == |g| && forall i | 0 <= i < |r| && i != k :: r[i] == g[i];
      forall i | 0 <= i < |r| ensures Link(r, i, ptr2) {
        if i != k { assert Link(g, i, ptr); }
      }
    } else {
      var r := g[..k + 1] + [Blk(bp, size[bp])] + g[k + 1..];
      assert |r| == |g| + 1;
      assert forall i | 0 <= i < |r| :: r[i] == if i <= k then g[i] else if i == k + 1 then Blk(bp, size[bp]) else g[i - 1];
      forall i | 0 <= i < |r| ensures Link(r, i, ptr2) {
        if i < k { assert Link(g, i, ptr); }
        if i > k + 1 { assert Link(g, i - 1, ptr); }
      }
    }
  }

  lemma {:induction false} ThreadUnlink(base: int, f: seq<Blk>, i: nat, ptr: Mem, size: Mem)
    requires FreeList(base, f) && Threaded(f, ptr, size) && 1 <= i < |f|
    ensures f[i].at in ptr && Threaded(f[..i] + f[i + 1..], ptr[f[i - 1].at := ptr[f[i].at]], size)
  {
    assert Link(f, i, ptr);
    var r, ptr' := f[..i] + f[i + 1..], ptr[f[i - 1].at := ptr[f[i].at]];
    assert forall j | 0 <= j < |r| :: r[j] == f[if j < i then j else j + 1];
    forall j | 0 <= j < |r| ensures Link(r, j, ptr') {
      assert Link(f, if j < i then j else j + 1, ptr);
    }
  }

  lemma {:induction false} ThreadShorten(base: int, f: seq<Blk>, i: nat, n: nat, ptr: Mem, size: Mem)
    requires FreeList(base, f) && Threaded(f, ptr, size) && 1 <= i < |f| && f[i].size > n > 0
    ensures f[i].at in size
    ensures var p := f[i].at;
            Threaded(f[i := Blk(p, f[i].size - n)], ptr, size[p := size[p] - n][p + (size[p] - n) := n])
  {
    Sorted(base, f);
    var r := f[i := Blk(f[i].at, f[i].size - n)];
    assert forall j | 0 <= j < |r| :: r[j].at == f[j].at;
    forall j | 0 <= j < |r| ensures Link(r, j, ptr) {
      assert Link(f, j, ptr);
    }
    TailFree(base, f, i, n);
  }

  /** malloc unlinks an exact fit, or shortens the block it cuts the tail from. */
  lemma {:induction false} ThreadTake(base: int, f: seq<Blk>, i: nat, n: nat, ptr: Mem, size: Mem)
    requires FreeList(base, f) && Threaded(f, ptr, size) && 1 <= i < |f| && f[i].size >= n > 0
    ensures f[i].at in ptr && f[i].at in size
    ensures var p, prevp := f[i].at, f[i - 1].at;
            if f[i].size == n then Threaded(TakeAt(f, i, n), ptr[prevp := ptr[p]], size)
            else Threaded(TakeAt(f, i, n), ptr, size[p := size[p] - n][p + (size[p] - n) := n])
  {
    hide Threaded, FreeList;
    LinkAt(f, i, ptr, size);
    if f[i].size == n {
      ThreadUnlink(base, f, i, ptr, size);
    } else {
      ThreadShorten(base, f, i, n, ptr, size);
    }
  }

  lemma {:induction false} TailFree(base: int, f: seq<Blk>, i: nat, n: nat)
    requires FreeList(base, f) && 1 <= i < |f| && f[i].size > n > 0
    ensures forall j | 0 <= j < |f| :: f[j].at != f[i].at + (f[i].size - n)
  {
  }

  // ---- the allocator ----

  /** Live blocks are apart from the free list and from each other, and their headers hold their sizes. */
  ghost predicate LiveOk(base: int, f: seq<Blk>, live: map<int, nat>, size: Mem) {
    LiveApart(base, f, live) && forall a | a in live :: a in size && size[a] == live[a]
  }

  class Allocator {
    const base: int              // &base; the heap lies above it
    var inited: bool             // freep != 0
    var freep: int
    var ptr: Mem                 // s.ptr of each header
    var size: Mem                // s.size of each header
    var brk: int                 // end of the memory sbrk has handed out
    ghost var f: seq<Blk>        // the free list from base
    ghost var live: map<int, nat>
    ghost var obtained: nat      // units received from sbrk

    ghost predicate List()
      reads this
    {
      inited && FreeList(base, f) && Threaded(f, ptr, size) && Listed(f, freep)
    }

    ghost predicate Valid()
      reads this
    {
      && base < brk
      && (inited ==> List())
      && (!inited ==> f == [] && live == map[])
      && LiveOk(base, f, live, size)
      && Below(f, live, brk)
      && obtained == Total(f) + Sum(live)
    }

    constructor (base: int, brk: int)
      requires base < brk
      ensures Valid() && !inited && live == map[] && obtained == 0 && this.base == base && this.brk == brk
    {
      this.base, this.brk := base, brk;
      inited, freep := false, 0;
      ptr, size := map[], map[];
      f, live, obtained := [], map[], 0;
    }

    /** free's search for the place of bp. It stops wherever freep points. */
    method Search(bp: int) returns (p: int)
      requires List() && bp > base && forall i | 0 <= i < |f| :: f[i].at != bp
      ensures Placeable(f, bp) && p == f[Place(f, bp)].at
    {
      hide Threaded, FreeList, Place;
      Sorted(base, f);
      BaseFirst(base, f);
      ghost var k := Place(f, bp);
      p := freep;
      ghost var i: nat :| i < |f| && f[i].at == p;
      LinkAt(f, i, ptr, size);
      StopsAtPlace(f, i, bp);
      while !(bp > p && bp < ptr[p])
        invariant 0 <= i < |f| && p == f[i].at && p in ptr && ptr[p] == Next(f, i)
        invariant StopsHere(f, i, bp) <==> i == k
        decreases if i <= k then k - i else k + |f| - i
      {
        if p >= ptr[p] && (bp > p || bp < ptr[p]) {
          break;
        }
        p := ptr[p];
        i := if i + 1 < |f| then i + 1 else 0;
        LinkAt(f, i, ptr, size);
        StopsAtPlace(f, i, bp);
      }
    }

    /** free's two coalescing tests, for bp to go between p and its successor. */
    method Relink(bp: int, p: int)
      requires p in ptr && ptr[p] in ptr && ptr[p] in size && bp in size && p in size && p != bp
      modifies this`ptr, this`size
      ensures var ptr1, size1 := RightPtr(bp, old(ptr)[p], old(ptr), old(size)), RightSize(bp, old(ptr)[p], old(size));
              ptr == LeftPtr(p, bp, ptr1, size1) && size == LeftSize(p, bp, size1)
    {
      var q := ptr[p];
      if bp + size[bp] == q {
        size, ptr := size[bp := size[bp] + size[q]], ptr[bp := ptr[q]];
      } else {
        ptr := ptr[bp := q];
      }
      if p + size[p] == bp {
        size, ptr := size[p := size[p] + size[bp]], ptr[p := ptr[bp]];
      } else {
        ptr := ptr[p := bp];
      }
    }

    /** The body of free for the block whose header is bp. */
    method Insert(bp: int)
      requires List() && bp in size && size[bp] > 0 && Fits(base, f, Blk(bp, size[bp]))
      modifies this`freep, this`ptr, this`size, this`f
      ensures List()
      ensures Placeable(old(f), bp)
      ensures var k := Place(old(f), bp);
              f == InsertAt(old(f), k, Blk(bp, old(size)[bp])) && freep == old(f)[k].at
      ensures forall a | a in old(size) && a != bp && !Listed(old(f), a) :: a in size && size[a] == old(size)[a]
    {
      hide InsertAt, Threaded, RightPtr, RightSize, LeftPtr, LeftSize, FreeList;
      Sorted(base, f);
      NotListed(base, f, Blk(bp, size[bp]));
      var p := Search(bp);
      ghost var k := Place(f, bp);
      FreeSplice(base, f, k, bp, ptr, size);
      Relink(bp, p);
      freep := p;
      f := InsertAt(f, k, Blk(bp, old(size)[bp]));
    }

    /** free of a live block: its units go back to the list and nothing else changes. */
    method Free(ap: int)
      requires Valid() && ap - 1 in live
      modifies this`freep, this`ptr, this`size, this`f, this`live
      ensures Valid() && live == old(live) - {ap - 1} && obtained == old(obtained) && brk == old(brk)
      ensures Total(f) == Total(old(f)) + old(live)[ap - 1]
    {
      hide InsertAt, Threaded, Fits, Place, FreeList, LiveOk, Below, Listed;
      var bp := ap - 1;
      ghost var b := Blk(bp, live[bp]);
      InListed(base, f, live, size, bp);
      Insert(bp);
      ghost var k := Place(old(f), bp);
      FreedLive(base, old(f), k, bp, old(live), old(size), size, brk);
      InsertTotal(old(f), k, b);
      SumRemove(live, bp);
      live := live - {bp};
    }

    /** morecore: new memory from sbrk, at or above everything handed out so far, is freed into the list. */
    method MoreCore(nu: nat, coreOk: bool, coreAt: int) returns (ok: bool)
      requires Valid() && inited && nu > 0
      requires coreOk ==> coreAt >= brk
      modifies this
      ensures Valid() && inited && ok == coreOk && live == old(live)
      ensures !ok ==> f == old(f) && freep == old(freep) && obtained == old(obtained)
      ensures ok ==> obtained == old(obtained) + (if nu < MINCORE then MINCORE else nu)
      ensures ok ==> Roomy(f, freep, nu)
    {
      hide InsertAt, Threaded, Fits, Place, FreeList, LiveOk, Below, Listed, Roomy;
      var n := if nu < MINCORE then MINCORE else nu;
      if !coreOk {
        return false;
      }
      ok := true;
      var hp := coreAt;
      CoreFits(base, f, live, size, brk, hp, n, ptr);
      size := size[hp := n];
      ghost var size0 := size;
      brk := hp + n;
      obtained := obtained + n;
      Insert(hp);
      ghost var k, b := Place(old(f), hp), Blk(hp, n);
      InsertTotal(old(f), k, b);
      CoreLive(base, old(f), k, b, live, size0, size, brk);
      GrownRoomy(base, old(f), k, b, freep, nu);
    }

    /** malloc's success branch: take n units from the block p that follows prevp. */
    method Take(prevp: int, p: int, n: nat, ghost i: nat) returns (ap: int)
      requires Valid() && inited && 1 <= i < |f| && p == f[i].at && prevp == f[i - 1].at && f[i].size >= n > 0
      modifies this`freep, this`ptr, this`size, this`f, this`live
      ensures Valid() && inited && obtained == old(obtained) && brk == old(brk)
      ensures ap - 1 !in old(live) && live == old(live)[ap - 1 := n]
      ensures f == TakeAt(old(f), i, n)
    {
      hide Threaded, Fits, FreeList, LiveOk, Below, TakeAt;
      LinkAt(f, i, ptr, size);
      ThreadTake(base, f, i, n, ptr, size);
      TakeTotal(f, i, n);
      TakenLive(base, f, i, n, live, ptr, size, brk);
      TakenListed(base, f, i, n);
      var h := p;
      if size[p] == n {
        ptr := ptr[prevp := ptr[p]];
      } else {
        h := p + (size[p] - n);
        size := size[p := size[p] - n][h := n];
      }
      freep := prevp;
      f := TakeAt(f, i, n);
      SumUpdate(live, h, n);
      assert live - {h} == live;
      live := live[h := n];
      ap := h + 1;
    }

    /** malloc. The scan ends: with a block of at least nbytes, or with null after sbrk failed
        and no free block was large enough. It calls morecore at most once, even when the new
        memory was merged into freep, which the scan steps past first. */
    method Malloc(nbytes: nat, coreOk: bool, coreAt: int) returns (ok: bool, ap: int)
      requires Valid() && (coreOk ==> coreAt >= brk)
      modifies this
      ensures Valid() && inited
      ensures var n := (nbytes + UNIT - 1) / UNIT + 1;
              && (ok ==> ap - 1 !in old(live) && live == old(live)[ap - 1 := n] && (n - 1) * UNIT >= nbytes)
              && (!ok ==> !coreOk && live == old(live) && obtained == old(obtained)
                          && forall i | 0 <= i < |f| :: f[i].size < n)
              && (obtained == old(obtained) || (coreOk && obtained == old(obtained) + (if n < MINCORE then MINCORE else n)))
              && (obtained != old(obtained) <==> ok && forall i | 0 <= i < |old(f)| :: old(f)[i].size < n)
    {
      hide Threaded, LiveOk, Below, Total, FreeList, Listed, ScanInv, Roomy;
      var n := (nbytes + UNIT - 1) / UNIT + 1;
      if !inited {
        ptr, size := ptr[base := base], size[base := 0];
        freep, inited := base, true;
        f := [Blk(base, 0)];
        Fresh(base, brk, ptr, size);
      }
      var prevp := freep;
      ghost var fi := ScanStart(f, freep, ptr, size, n);
      var p := ptr[prevp];
      ghost var c, grown := 0, false;
      while true
        invariant Valid() && inited && live == old(live)
        invariant ScanInv(f, freep, fi, c, prevp, p, n, grown)
        invariant !grown ==> brk == old(brk) && obtained == old(obtained) && (old(inited) ==> f == old(f)) && (!old(inited) ==> f == [Blk(base, 0)])
        invariant grown ==> forall i | 0 <= i < |old(f)| :: old(f)[i].size < n
        invariant grown ==> coreOk && obtained == old(obtained) + (if n < MINCORE then MINCORE else n)
        decreases !grown, |f| - c
      {
        ghost var i := ScanHere(base, f, freep, fi, c, prevp, p, n, grown, ptr, size);
        if size[p] >= n {
          ap := Take(prevp, p, n, i);
          ok := true;
          return;
        }
        if p == freep {
          ok := MoreCore(n, coreOk, coreAt);
          if !ok {
            ap := 0;
            return;
          }
          p := freep;
          grown, c := true, 0;
          fi := ScanAgain(f, freep, ptr, size, n);
        } else {
          c := c + 1;
        }
        prevp := p;
        p := ptr[p];
      }
    }
  }

  /** malloc's scan: c blocks after freep have been passed; before morecore they were all too
      small, after it the block to find is freep itself or the one next to it. */
  ghost predicate ScanInv(f: seq<Blk>, freep: int, fi: nat, c: nat, prevp: int, p: int, n: nat, grown: bool) {
    && fi < |f| && f[fi].at == freep && c < |f|
    && prevp == f[Wrap(f, fi + c)].at && p == f[Wrap(f, fi + 1 + c)].at
    && if grown then f[fi].size >= n || (c == 0 && fi + 1 < |f| && f[fi + 1].size >= n) else Scanned(f, fi, c, n)
  }

  lemma ScanStart(f: seq<Blk>, freep: int, ptr: Mem, size: Mem, n: nat) returns (fi: nat)
    requires Threaded(f, ptr, size) && Listed(f, freep)
    ensures freep in ptr && ScanInv(f, freep, fi, 0, freep, ptr[freep], n, false)
  {
    hide Threaded;
    fi :| fi < |f| && f[fi].at == freep;
    LinkAt(f, fi, ptr, size);
  }

  lemma ScanAgain(f: seq<Blk>, freep: int, ptr: Mem, size: Mem, n: nat) returns (fi: nat)
    requires Threaded(f, ptr, size) && Roomy(f, freep, n)
    ensures freep in ptr && ScanInv(f, freep, fi, 0, freep, ptr[freep], n, true)
  {
    hide Threaded;
    fi :| 0 <= fi < |f| && f[fi].at == freep && (f[fi].size >= n || (fi + 1 < |f| && f[fi + 1].size >= n));
    LinkAt(f, fi, ptr, size);
  }

  /** At each block: a hit has its predecessor in prevp, a miss elsewhere can go on, and a
      miss at freep means the whole list was scanned and memory was not yet added. */
  lemma {:induction false} ScanHere(base: int, f: seq<Blk>, freep: int, fi: nat, c: nat, prevp: int, p: int, n: nat,
                                    grown: bool, ptr: Mem, size: Mem) returns (i: nat)
    requires FreeList(base, f) && Threaded(f, ptr, size) && ScanInv(f, freep, fi, c, prevp, p, n, grown) && n > 0
    ensures i < |f| && f[i].at == p && p in size && size[p] == f[i].size && p in ptr
    ensures size[p] >= n ==> i >= 1 && prevp == f[i - 1].at
    ensures size[p] < n && p != freep ==> c + 1 < |f| && ScanInv(f, freep, fi, c + 1, p, ptr[p], n, grown)
    ensures size[p] < n && p == freep ==> !grown && forall j | 0 <= j < |f| :: f[j].size < n
  {
    hide Threaded, FreeList;
    i := Wrap(f, fi + 1 + c);
    LinkAt(f, i, ptr, size);
    SameAt(base, f, i, fi);
    BaseFirst(base, f);
    assert i == fi <==> c == |f| - 1;
    assert After(f, fi, i) == c + 1;
    assert forall j | 0 <= j < |f| && After(f, fi, j) == c + 1 :: j == i;
  }

  function Wrap(f: seq<Blk>, x: nat): (i: nat)
    requires |f| > 0 && x < 2 * |f|
    ensures i < |f|
  {
    if x < |f| then x else x - |f|
  }

  /** The c blocks after freep are all too small. */
  ghost predicate Scanned(f: seq<Blk>, fi: nat, c: nat, n: nat)
    requires fi < |f|
  {
    forall i | 0 <= i < |f| && After(f, fi, i) <= c :: f[i].size < n
  }

  /** How many steps along the cycle position i is after fi. */
  function After(f: seq<Blk>, fi: nat, i: nat): nat
    requires fi < |f| && i < |f|
  {
    if i > fi then i - fi else i + |f| - fi
  }

  lemma SameAt(base: int, f: seq<Blk>, i: nat, j: nat)
    requires FreeList(base, f) && i < |f| && j < |f|
    ensures f[i].at == f[j].at <==> i == j
  {
    Sorted(base, f);
  }

  lemma Fresh(base: int, brk: int, ptr: Mem, size: Mem)
    requires base < brk && base in ptr && ptr[base] == base && base in size && size[base] == 0
    ensures var f := [Blk(base, 0)];
            && FreeList(base, f) && Threaded(f, ptr, size) && Listed(f, base)
            && LiveOk(base, f, map[], size) && Below(f, map[], brk) && Total(f) == Total([])
  {
    TotalOne(Blk(base, 0));
    assert Link([Blk(base, 0)], 0, ptr);
    assert [Blk(base, 0)][0].at == base;
  }

  lemma {:induction false} TakenListed(base: int, f: seq<Blk>, i: nat, n: nat)
    requires FreeList(base, f) && 1 <= i < |f| && f[i].size >= n > 0
    ensures FreeList(base, TakeAt(f, i, n)) && Listed(TakeAt(f, i, n), f[i - 1].at)
  {
    hide TakeAt;
    TakeOk(base, f, i, n);
    assert TakeAt(f, i, n)[i - 1].at == f[i - 1].at;
  }

  lemma {:induction false} TakenLive(base: int, f: seq<Blk>, i: nat, n: nat, live: map<int, nat>, ptr: Mem, size: Mem, brk: int)
    requires FreeList(base, f) && LiveOk(base, f, live, size) && Below(f, live, brk) && Threaded(f, ptr, size)
    requires 1 <= i < |f| && f[i].size >= n > 0
    ensures var p, h := f[i].at, f[i].at + (f[i].size - n);
            var size' := if f[i].size == n then size else size[p := size[p] - n][h := n];
            && h !in live
            && LiveOk(base, TakeAt(f, i, n), live[h := n], size') && Below(TakeAt(f, i, n), live[h := n], brk)
  {
    hide TakeAt;
    var p, h := f[i].at, f[i].at + (f[i].size - n);
    var r, b := TakeAt(f, i, n), Carved(f, i, n);
    TakeOk(base, f, i, n);
    TakeEnds(f, i, n, brk);
    forall a | a in live
      ensures Fits(base, r, Blk(a, live[a])) && Apart(b, Blk(a, live[a])) && a != h && a != p
    {
      TakeApart(base, f, i, n, Blk(a, live[a]));
      NotListed(base, f, Blk(a, live[a]));
    }
  }

  /** A block of n units is at freep or right after it. */
  ghost predicate Roomy(f: seq<Blk>, freep: int, n: nat) {
    exists k | 0 <= k < |f| :: f[k].at == freep && (f[k].size >= n || (k + 1 < |f| && f[k + 1].size >= n))
  }

  lemma {:induction false} GrownRoomy(base: int, f: seq<Blk>, k: nat, b: Blk, freep: int, n: nat)
    requires FreeList(base, f) && Fits(base, f, b) && k < |f| && f[k].at < b.at && b.size >= n && freep == f[k].at
    requires forall i | k < i < |f| :: b.at <= f[i].at
    ensures Roomy(InsertAt(f, k, b), freep, n)
  {
    RightOk(base, f, k, b);
    var (m, _) := Right(f, k, b);
    var r := InsertAt(f, k, b);
    assert r[k].at == freep;
    assert if End(f[k]) == b.at then r[k].size >= m.size else r[k + 1] == m;
  }

  lemma {:induction false} InListed(base: int, f: seq<Blk>, live: map<int, nat>, size: Mem, bp: int)
    requires LiveOk(base, f, live, size) && bp in live
    ensures bp in size && size[bp] == live[bp] > 0 && Fits(base, f, Blk(bp, live[bp]))
  {
  }

  lemma {:induction false} FreedLive(base: int, f: seq<Blk>, k: nat, bp: int, live: map<int, nat>, size: Mem, size': Mem, brk: int)
    requires FreeList(base, f) && LiveOk(base, f, live, size) && Below(f, live, brk) && bp in live
    requires k < |f| && f[k].at < bp && forall i | k < i < |f| :: bp <= f[i].at
    requires forall a | a in size && a != bp && !Listed(f, a) :: a in size' && size'[a] == size[a]
    ensures LiveOk(base, InsertAt(f, k, Blk(bp, live[bp])), live - {bp}, size')
    ensures Below(InsertAt(f, k, Blk(bp, live[bp])), live - {bp}, brk)
  {
    hide InsertAt;
    var b := Blk(bp, live[bp]);
    InsertEnds(f, k, b, brk);
    forall a | a in live && a != bp
      ensures Fits(base, InsertAt(f, k, b), Blk(a, live[a])) && a in size' && size'[a] == live[a]
    {
      InsertApart(base, f, k, b, Blk(a, live[a]));
      NotListed(base, f, Blk(a, live[a]));
    }
  }

  lemma {:induction false} CoreFits(base: int, f: seq<Blk>, live: map<int, nat>, size: Mem, brk: int, hp: int, n: nat, ptr: Mem)
    requires FreeList(base, f) && LiveOk(base, f, live, size) && Below(f, live, brk) && base < brk <= hp && n > 0
    requires Threaded(f, ptr, size)
    ensures Fits(base, f, Blk(hp, n)) && Threaded(f, ptr, size[hp := n])
    ensures LiveOk(base, f, live, size[hp := n]) && Below(f, live, hp + n)
    ensures forall a | a in live :: Apart(Blk(hp, n), Blk(a, live[a])) && a != hp
  {
    assert forall i | 0 <= i < |f| :: f[i].at != hp by {
      assert forall i | 1 <= i < |f| :: f[i].at < End(f[i]);
    }
    assert forall a | a in live :: a < End(Blk(a, live[a]));
  }

  lemma {:induction false} CoreLive(base: int, f: seq<Blk>, k: nat, b: Blk, live: map<int, nat>, size: Mem, size': Mem, brk: int)
    requires FreeList(base, f) && LiveOk(base, f, live, size) && Fits(base, f, b)
    requires Below(f, live, brk) && End(b) <= brk
    requires k < |f| && f[k].at < b.at && forall i | k < i < |f| :: b.at <= f[i].at
    requires forall a | a in live :: Apart(b, Blk(a, live[a])) && a != b.at
    requires forall a | a in size && a != b.at && !Listed(f, a) :: a in size' && size'[a] == size[a]
    ensures LiveOk(base, InsertAt(f, k, b), live, size') && Below(InsertAt(f, k, b), live, brk)
  {
    hide InsertAt;
    InsertEnds(f, k, b, brk);
    forall a | a in live
      ensures Fits(base, InsertAt(f, k, b), Blk(a, live[a])) && a in size' && size'[a] == live[a]
    {
      InsertApart(base, f, k, b, Blk(a, live[a]));
      NotListed(base, f, Blk(a, live[a]));
    }
  }

  /** The tests of free's search succeed at position i. */
  predicate StopsHere(f: seq<Blk>, i: nat, bp: int)
    requires i < |f|
  {
    var p, q := f[i].at, Next(f, i);
    (bp > p && bp < q) || (p >= q && (bp > p || bp < q))
  }

  lemma StopsAtPlace(f: seq<Blk>, i: nat, bp: int)
    requires Placeable(f, bp) && i < |f| && forall j | 0 <= j < |f| :: f[j].at != bp
    ensures StopsHere(f, i, bp) <==> i == Place(f, bp)
  {
    hide Place;
    var k := Place(f, bp);
    assert k + 1 < |f| ==> bp <= f[k + 1].at;
  }

  lemma BaseFirst(base: int, f: seq<Blk>)
    requires FreeList(base, f)
    ensures |f| >= 1 && f[0] == Blk(base, 0)
  {
  }

  /** All of free's assignments together leave the list with bp inserted. */
  lemma {:induction false} FreeSplice(base: int, f: seq<Blk>, k: nat, bp: int, ptr: Mem, size: Mem)
    requires Ready(base, f, k, bp, ptr, size)
    ensures Next(f, k) in size && Next(f, k) in ptr && f[k].at in size && f[k].at != bp
    ensures f[k].at in ptr && ptr[f[k].at] == Next(f, k)
    ensures FreeList(base, InsertAt(f, k, Blk(bp, size[bp]))) && Listed(InsertAt(f, k, Blk(bp, size[bp])), f[k].at)
    ensures var p, q := f[k].at, Next(f, k);
            var ptr1, size1 := RightPtr(bp, q, ptr, size), RightSize(bp, q, size);
            && bp in ptr1 && bp in size1 && p in size1
            && Threaded(InsertAt(f, k, Blk(bp, size[bp])), LeftPtr(p, bp, ptr1, size1), LeftSize(p, bp, size1))
            && forall a | a in size && a != bp && a != p ::
                 a in LeftSize(p, bp, size1) && LeftSize(p, bp, size1)[a] == size[a]
  {
    hide Threaded, ThreadedBut, Fits, WithoutRight;
    var b := Blk(bp, size[bp]);
    ThreadRight(base, f, k, bp, ptr, size);
    RightDistinct(base, f, k, b);
    var p, q, g := f[k].at, Next(f, k), WithoutRight(f, k, b);
    var ptr1, size1 := RightPtr(bp, q, ptr, size), RightSize(bp, q, size);
    LinkAt(f, k, ptr, size);
    ThreadLeft(g, k, bp, ptr1, size1);
    RightOk(base, f, k, b);
    InsertOk(base, f, k, b);
    assert InsertAt(f, k, b)[k].at == p;
    assert g[..k + 1] == f[..k + 1];
  }

  lemma {:induction false} NotListed(base: int, f: seq<Blk>, b: Blk)
    requires FreeList(base, f) && Fits(base, f, b)
    ensures b.at > base && f[0].at == base && forall i | 0 <= i < |f| :: f[i].at != b.at
  {
    forall i | 0 <= i < |f| ensures f[i].at != b.at {
      if i > 0 { assert Apart(f[i], b); }
    }
  }

  lemma LinkAt(f: seq<Blk>, i: nat, ptr: Mem, size: Mem)
    requires Threaded(f, ptr, size) && i < |f|
    ensures f[i].at in ptr && ptr[f[i].at] == Next(f, i) && f[i].at in size && size[f[i].at] == f[i].size
  {
    assert Link(f, i, ptr);
  }

  lemma {:induction false} RightDistinct(base: int, f: seq<Blk>, k: nat, b: Blk)
    requires FreeList(base, f) && Fits(base, f, b) && k < |f| && f[k].at < b.at
    requires forall i | k < i < |f| :: b.at <= f[i].at
    ensures var g := WithoutRight(f, k, b);
            && |g| > k && g[k] == f[k] && g[..k] == f[..k] && g[k + 1..] == Right(f, k, b).1
            && (forall i | 0 <= i < |g| :: g[i].at != b.at) && forall i, j | 0 <= i < j < |g| :: g[i].at != g[j].at
  {
    RightOk(base, f, k, b);
  }
}
