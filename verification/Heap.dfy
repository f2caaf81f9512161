/** The user heap (umalloc.c) on values: the free list as an address-ordered sequence of
    blocks starting with the empty block `base`. Addresses and sizes are in Header units. */
module Heap {

  datatype Blk = Blk(at: int, size: nat)

  function End(b: Blk): int { b.at + b.size }

  predicate Apart(a: Blk, b: Blk) {
    End(a) <= b.at || End(b) <= a.at
  }

  /** One pass in address order from base, with a gap after every block. */
  predicate FreeList(base: int, f: seq<Blk>) {
    && |f| >= 1 && f[0] == Blk(base, 0)
    && (forall i | 1 <= i < |f| :: f[i].size > 0)
    && forall i, j | 0 <= i < j < |f| :: End(f[i]) < f[j].at
  }

  predicate Fits(base: int, f: seq<Blk>, b: Blk) {
    b.at > base && b.size > 0 && forall i | 1 <= i < |f| :: Apart(f[i], b)
  }

  /** The list is in address order and starts before at. */
  predicate Placeable(f: seq<Blk>, at: int) {
    |f| >= 1 && f[0].at < at && forall i, j | 0 <= i < j < |f| :: f[i].at < f[j].at
  }

  /** The last list position before address at. */
  function Place(f: seq<Blk>, at: int): (k: nat)
    requires Placeable(f, at)
    ensures k < |f| && f[k].at < at
    ensures forall i | k < i < |f| :: at <= f[i].at
  {
    if f[|f| - 1].at < at then |f| - 1 else Place(f[..|f| - 1], at)
  }

  function Total(f: seq<Blk>): nat {
    if f == [] then 0 else Total(f[..|f| - 1]) + f[|f| - 1].size
  }

  /** b with the block after it absorbed, if they touch, and the rest of the list. */
  function Right(f: seq<Blk>, k: nat, b: Blk): (r: (Blk, seq<Blk>))
    requires k < |f|
  {
    if k + 1 < |f| && End(b) == f[k + 1].at then (Blk(b.at, b.size + f[k + 1].size), f[k + 2..])
    else (b, f[k + 1..])
  }

  /** free: put b after position k, coalescing with both neighbours. */
  function InsertAt(f: seq<Blk>, k: nat, b: Blk): (r: seq<Blk>)
    requires k < |f|
  {
    var (m, rest) := Right(f, k, b);
    if End(f[k]) == b.at then f[..k] + [Blk(f[k].at, f[k].size + m.size)] + rest
    else f[..k + 1] + [m] + rest
  }

  lemma {:induction false} Sorted(base: int, f: seq<Blk>)
    requires FreeList(base, f)
    ensures forall i, j | 0 <= i < j < |f| :: f[i].at < f[j].at
  {
  }

  lemma {:induction false} RightOk(base: int, f: seq<Blk>, k: nat, b: Blk)
    requires FreeList(base, f) && Fits(base, f, b) && k < |f| && f[k].at < b.at
    requires forall i | k < i < |f| :: b.at <= f[i].at
    ensures var (m, rest) := Right(f, k, b);
            && m.at == b.at && m.size >= b.size
            && (forall i | 0 <= i < |rest| :: End(m) < rest[i].at && rest[i].size > 0)
            && (forall i, j | 0 <= i < j < |rest| :: End(rest[i]) < rest[j].at)
            && (forall i, j | 0 <= i <= k && 0 <= j < |rest| :: End(f[i]) < rest[j].at)
            && End(f[k]) <= b.at
  {
    if k + 1 < |f| {
      assert Apart(f[k + 1], b);
    }
    if k > 0 {
      assert Apart(f[k], b);
    }
  }

  /** Freeing keeps the list ordered and fully coalesced. */
  lemma {:induction false} InsertOk(base: int, f: seq<Blk>, k: nat, b: Blk)
    requires FreeList(base, f) && Fits(base, f, b) && k < |f| && f[k].at < b.at
    requires forall i | k < i < |f| :: b.at <= f[i].at
    ensures FreeList(base, InsertAt(f, k, b))
    ensures k < |InsertAt(f, k, b)| && InsertAt(f, k, b)[k].at == f[k].at
  {
    hide Right;
    RightOk(base, f, k, b);
    var (m, rest) := Right(f, k, b);
    var r := InsertAt(f, k, b);
    if End(f[k]) == b.at {
      assert r == f[..k] + ([Blk(f[k].at, f[k].size + m.size)] + rest);
    } else {
      assert r == f[..k + 1] + ([m] + rest);
    }
  }

  lemma {:induction false} TotalConcat(f: seq<Blk>, g: seq<Blk>)
    ensures Total(f + g) == Total(f) + Total(g)
    decreases |g|
  {
    if g == [] {
      assert f + g == f;
    } else {
      var g' := g[..|g| - 1];
      assert (f + g)[..|f + g| - 1] == f + g';
      TotalConcat(f, g');
    }
  }

  lemma {:induction false} TotalOne(b: Blk)
    ensures Total([b]) == b.size
  {
    assert [b][..0] == [];
  }

  lemma {:induction false} TotalFront(f: seq<Blk>, k: nat)
    requires k < |f|
    ensures Total(f) == Total(f[..k]) + f[k].size + Total(f[k + 1..])
  {
    assert f == f[..k] + [f[k]] + f[k + 1..];
    TotalConcat(f[..k] + [f[k]], f[k + 1..]);
    TotalConcat(f[..k], [f[k]]);
    TotalOne(f[k]);
  }

  lemma {:induction false} RightTotal(f: seq<Blk>, k: nat, b: Blk)
    requires k < |f|
    ensures var (m, rest) := Right(f, k, b); m.size + Total(rest) == b.size + Total(f[k + 1..])
  {
    if k + 1 < |f| && End(b) == f[k + 1].at {
      TotalFront(f[k + 1..], 0);
      assert f[k + 1..][..0] == [];
      assert f[k + 1..][1..] == f[k + 2..];
    }
  }

  /** Freeing adds exactly the block's units to the list. */
  lemma {:induction false} InsertTotal(f: seq<Blk>, k: nat, b: Blk)
    requires k < |f|
    ensures Total(InsertAt(f, k, b)) == Total(f) + b.size
  {
    hide Right;
    RightTotal(f, k, b);
    TotalFront(f, k);
    var (m, rest) := Right(f, k, b);
    if End(f[k]) == b.at {
      var x := Blk(f[k].at, f[k].size + m.size);
      TotalConcat(f[..k] + [x], rest);
      TotalConcat(f[..k], [x]);
      TotalOne(x);
    } else {
      TotalConcat(f[..k + 1] + [m], rest);
      TotalConcat(f[..k + 1], [m]);
      TotalOne(m);
      assert f[..k + 1] == f[..k] + [f[k]];
      TotalConcat(f[..k], [f[k]]);
      TotalOne(f[k]);
    }
  }

  /** A block apart from b and from every old free block is apart from every new one. */
  lemma {:induction false} InsertApart(base: int, f: seq<Blk>, k: nat, b: Blk, x: Blk)
    requires FreeList(base, f) && Fits(base, f, b) && k < |f| && f[k].at < b.at
    requires forall i | k < i < |f| :: b.at <= f[i].at
    requires Fits(base, f, x) && Apart(b, x)
    ensures Fits(base, InsertAt(f, k, b), x)
  {
    if k + 1 < |f| {
      assert Apart(f[k + 1], b) && Apart(f[k + 1], x);
    }
    if k > 0 {
      assert Apart(f[k], b) && Apart(f[k], x);
    }
  }

  // ---- malloc ----

  /** The block malloc carves from position i: all of it, or its tail. */
  function Carved(f: seq<Blk>, i: nat, n: nat): (b: Blk)
    requires i < |f| && f[i].size >= n
  {
    Blk(End(f[i]) - n, n)
  }

  function TakeAt(f: seq<Blk>, i: nat, n: nat): (r: seq<Blk>)
    requires i < |f| && f[i].size >= n
  {
    if f[i].size == n then f[..i] + f[i + 1..] else f[i := Blk(f[i].at, f[i].size - n)]
  }

  lemma {:induction false} TakeOk(base: int, f: seq<Blk>, i: nat, n: nat)
    requires FreeList(base, f) && i < |f| && f[i].size >= n > 0
    ensures i >= 1 && FreeList(base, TakeAt(f, i, n))
    ensures Fits(base, TakeAt(f, i, n), Carved(f, i, n))
    ensures i - 1 < |TakeAt(f, i, n)| && TakeAt(f, i, n)[i - 1] == f[i - 1]
  {
    var r := TakeAt(f, i, n);
    forall j | 1 <= j < |r| ensures Apart(r[j], Carved(f, i, n)) && r[j].size > 0 {
      if f[i].size == n {
        assert r[j] == f[if j < i then j else j + 1];
      }
    }
    if f[i].size == n {
      assert forall j | 0 <= j < |r| :: r[j] == f[if j < i then j else j + 1];
    }
  }

  lemma {:induction false} TakeTotal(f: seq<Blk>, i: nat, n: nat)
    requires i < |f| && f[i].size >= n
    ensures Total(TakeAt(f, i, n)) + n == Total(f)
  {
    TotalFront(f, i);
    if f[i].size == n {
      TotalConcat(f[..i], f[i + 1..]);
    } else {
      var r := TakeAt(f, i, n);
      TotalFront(r, i);
      assert r[..i] == f[..i] && r[i + 1..] == f[i + 1..];
    }
  }

  lemma {:induction false} TakeApart(base: int, f: seq<Blk>, i: nat, n: nat, x: Blk)
    requires FreeList(base, f) && i < |f| && f[i].size >= n > 0 && Fits(base, f, x)
    ensures Fits(base, TakeAt(f, i, n), x) && Apart(Carved(f, i, n), x)
  {
    assert i >= 1;
    assert Apart(f[i], x);
    var r := TakeAt(f, i, n);
    forall j | 1 <= j < |r| ensures Apart(r[j], x) {
      if f[i].size == n {
        assert r[j] == f[if j < i then j else j + 1];
      }
    }
  }

  // ---- address by address ----

  predicate Holds(b: Blk, a: int) {
    b.at <= a < End(b)
  }

  ghost predicate Free(f: seq<Blk>, a: int) {
    exists i | 0 <= i < |f| :: Holds(f[i], a)
  }

  lemma {:induction false} FreeConcat(f: seq<Blk>, g: seq<Blk>, a: int)
    ensures Free(f + g, a) <==> Free(f, a) || Free(g, a)
  {
    hide Holds;
    if Free(f, a) {
      var i :| 0 <= i < |f| && Holds(f[i], a);
      assert Holds((f + g)[i], a);
    }
    if Free(g, a) {
      var i :| 0 <= i < |g| && Holds(g[i], a);
      assert Holds((f + g)[|f| + i], a);
    }
  }

  lemma {:induction false} FreeOne(b: Blk, a: int)
    ensures Free([b], a) <==> Holds(b, a)
  {
    assert [b][0] == b;
  }

  lemma {:induction false} FreeFront(f: seq<Blk>, k: nat, a: int)
    requires k < |f|
    ensures Free(f, a) <==> Free(f[..k], a) || Holds(f[k], a) || Free(f[k + 1..], a)
  {
    hide Free, Holds;
    assert f == f[..k] + [f[k]] + f[k + 1..];
    FreeConcat(f[..k] + [f[k]], f[k + 1..], a);
    FreeConcat(f[..k], [f[k]], a);
    FreeOne(f[k], a);
  }

  lemma {:induction false} RightUnits(f: seq<Blk>, k: nat, b: Blk, a: int)
    requires k < |f|
    ensures var (m, rest) := Right(f, k, b); Holds(m, a) || Free(rest, a) <==> Holds(b, a) || Free(f[k + 1..], a)
  {
    hide Free;
    if k + 1 < |f| && End(b) == f[k + 1].at {
      FreeFront(f[k + 1..], 0, a);
      assert f[k + 1..][..0] == [] && f[k + 1..][1..] == f[k + 2..];
      assert !Free([], a) by { FreeNone(a); }
    }
  }

  lemma FreeNone(a: int)
    ensures !Free([], a)
  {
  }

  /** Freeing b makes exactly its units free as well. */
  lemma {:induction false} InsertUnits(f: seq<Blk>, k: nat, b: Blk, a: int)
    requires k < |f|
    ensures Free(InsertAt(f, k, b), a) <==> Free(f, a) || Holds(b, a)
  {
    hide Right, Free;
    RightUnits(f, k, b, a);
    FreeFront(f, k, a);
    var (m, rest) := Right(f, k, b);
    if End(f[k]) == b.at {
      var x := Blk(f[k].at, f[k].size + m.size);
      MergedUnits(f, k, b, a);
      FreeConcat(f[..k] + [x], rest, a);
      FreeConcat(f[..k], [x], a);
      FreeOne(x, a);
    } else {
      FreeConcat(f[..k + 1] + [m], rest, a);
      FreeConcat(f[..k + 1], [m], a);
      FreeOne(m, a);
      assert f[..k + 1] == f[..k] + [f[k]];
      FreeConcat(f[..k], [f[k]], a);
      FreeOne(f[k], a);
    }
  }

  lemma MergedUnits(f: seq<Blk>, k: nat, b: Blk, a: int)
    requires k < |f| && End(f[k]) == b.at
    ensures var m := Right(f, k, b).0; Holds(Blk(f[k].at, f[k].size + m.size), a) <==> Holds(f[k], a) || Holds(m, a)
  {
  }

  /** malloc takes exactly the units of the block it returns. */
  lemma {:induction false} TakeUnits(base: int, f: seq<Blk>, i: nat, n: nat, a: int)
    requires FreeList(base, f) && i < |f| && f[i].size >= n > 0
    ensures Free(TakeAt(f, i, n), a) <==> Free(f, a) && !Holds(Carved(f, i, n), a)
  {
    hide Free, FreeList;
    FreeFront(f, i, a);
    if Holds(f[i], a) {
      OthersApart(base, f, i, a);
    }
    if f[i].size == n {
      FreeConcat(f[..i], f[i + 1..], a);
    } else {
      var r := TakeAt(f, i, n);
      FreeFront(r, i, a);
      assert r[..i] == f[..i] && r[i + 1..] == f[i + 1..];
    }
  }

  /** No other block of the list holds an address that block i holds. */
  lemma {:induction false} OthersApart(base: int, f: seq<Blk>, i: nat, a: int)
    requires FreeList(base, f) && i < |f| && Holds(f[i], a)
    ensures !Free(f[..i], a) && !Free(f[i + 1..], a)
  {
    var g := f[i + 1..];
    forall j | 0 <= j < |g| ensures !Holds(g[j], a) {
      assert g[j] == f[i + 1 + j];
    }
  }

  // ---- the live blocks, and the end of the heap ----

  /** Live blocks are apart from the free list and from each other. */
  ghost predicate LiveApart(base: int, f: seq<Blk>, live: map<int, nat>) {
    && (forall a | a in live :: Fits(base, f, Blk(a, live[a])))
    && forall a, c | a in live && c in live && a != c :: Apart(Blk(a, live[a]), Blk(c, live[c]))
  }

  ghost predicate Below(f: seq<Blk>, live: map<int, nat>, brk: int) {
    (forall i | 0 <= i < |f| :: End(f[i]) <= brk) && forall a | a in live :: a + live[a] <= brk
  }

  lemma {:induction false} InsertEnds(f: seq<Blk>, k: nat, b: Blk, brk: int)
    requires k < |f| && End(b) <= brk && forall i | 0 <= i < |f| :: End(f[i]) <= brk
    ensures forall i | 0 <= i < |InsertAt(f, k, b)| :: End(InsertAt(f, k, b)[i]) <= brk
  {
  }

  lemma {:induction false} TakeEnds(f: seq<Blk>, i: nat, n: nat, brk: int)
    requires i < |f| && f[i].size >= n && forall j | 0 <= j < |f| :: End(f[j]) <= brk
    ensures forall j | 0 <= j < |TakeAt(f, i, n)| :: End(TakeAt(f, i, n)[j]) <= brk
  {
  }
}
