/** Every sequence of malloc and free calls, on values: blocks stay apart and units are
    conserved. Each malloc is a Carve, preceded by a Grow when it called morecore. */
module HeapRuns {
  import opened Heap
  import opened Sums

  datatype State = State(f: seq<Blk>, live: map<int, nat>, brk: int, obtained: nat)

  datatype Event = Grow(at: int, n: nat) | Carve(i: nat, n: nat) | Release(bp: int)

  ghost predicate Inv(base: int, s: State) {
    && FreeList(base, s.f) && base < s.brk
    && LiveApart(base, s.f, s.live) && Below(s.f, s.live, s.brk)
    && s.obtained == Total(s.f) + Sum(s.live)
  }

  ghost predicate Step(s: State, e: Event, t: State) {
    match e
    case Grow(at, n) =>
      at >= s.brk && n > 0 && Placeable(s.f, at)
      && t == State(InsertAt(s.f, Place(s.f, at), Blk(at, n)), s.live, at + n, s.obtained + n)
    case Carve(i, n) =>
      i < |s.f| && s.f[i].size >= n > 0
      && t == s.(f := TakeAt(s.f, i, n), live := s.live[Carved(s.f, i, n).at := n])
    case Release(bp) =>
      bp in s.live && Placeable(s.f, bp)
      && t == s.(f := InsertAt(s.f, Place(s.f, bp), Blk(bp, s.live[bp])), live := s.live - {bp})
  }

  lemma {:induction false} GrowKeeps(base: int, s: State, at: int, n: nat, t: State)
    requires Inv(base, s) && Step(s, Grow(at, n), t)
    ensures Inv(base, t)
  {
    hide InsertAt, Place, FreeList;
    Sorted(base, s.f);
    var k, b := Place(s.f, at), Blk(at, n);
    assert Fits(base, s.f, b);
    InsertOk(base, s.f, k, b);
    InsertTotal(s.f, k, b);
    InsertEnds(s.f, k, b, t.brk);
    forall a | a in s.live ensures Fits(base, t.f, Blk(a, s.live[a])) {
      InsertApart(base, s.f, k, b, Blk(a, s.live[a]));
    }
  }

  lemma {:induction false} ReleaseKeeps(base: int, s: State, bp: int, t: State)
    requires Inv(base, s) && Step(s, Release(bp), t)
    ensures Inv(base, t)
  {
    hide InsertAt, Place, FreeList, Sum;
    Sorted(base, s.f);
    var k, b := Place(s.f, bp), Blk(bp, s.live[bp]);
    InsertOk(base, s.f, k, b);
    InsertTotal(s.f, k, b);
    InsertEnds(s.f, k, b, s.brk);
    SumRemove(s.live, bp);
    forall a | a in t.live ensures Fits(base, t.f, Blk(a, s.live[a])) {
      InsertApart(base, s.f, k, b, Blk(a, s.live[a]));
    }
  }

  lemma {:induction false} CarveLive(base: int, s: State, i: nat, n: nat, t: State)
    requires Inv(base, s) && Step(s, Carve(i, n), t)
    ensures LiveApart(base, t.f, t.live) && Below(t.f, t.live, t.brk) && Carved(s.f, i, n).at !in s.live
  {
    hide TakeAt, Sum, FreeList, Total;
    var b := Carved(s.f, i, n);
    TakeOk(base, s.f, i, n);
    TakeEnds(s.f, i, n, s.brk);
    forall a | a in s.live
      ensures Fits(base, t.f, Blk(a, s.live[a])) && Apart(b, Blk(a, s.live[a])) && a != b.at
    {
      TakeApart(base, s.f, i, n, Blk(a, s.live[a]));
    }
  }

  lemma {:induction false} CarveKeeps(base: int, s: State, i: nat, n: nat, t: State)
    requires Inv(base, s) && Step(s, Carve(i, n), t)
    ensures Inv(base, t)
  {
    hide TakeAt, Sum, LiveApart, Below, FreeList, Total;
    CarveLive(base, s, i, n, t);
    TakeOk(base, s.f, i, n);
    TakeTotal(s.f, i, n);
    var a := Carved(s.f, i, n).at;
    SumUpdate(s.live, a, n);
    assert s.live - {a} == s.live;
  }

  ghost predicate Run(base: int, ss: seq<State>, es: seq<Event>) {
    && |ss| == |es| + 1
    && base < ss[0].brk && ss[0] == State([Blk(base, 0)], map[], ss[0].brk, 0)
    && forall i | 0 <= i < |es| :: Step(ss[i], es[i], ss[i + 1])
  }

  /** Heap safety over whole runs: the free list stays ordered and coalesced, live blocks
      stay apart from it and from each other, and units from sbrk are free or live. */
  lemma {:induction false} RunKeepsHeap(base: int, ss: seq<State>, es: seq<Event>, i: nat)
    requires Run(base, ss, es) && i < |ss|
    ensures Inv(base, ss[i])
  {
    hide Step;
    if i == 0 {
      TotalOne(Blk(base, 0));
    } else {
      RunKeepsHeap(base, ss, es, i - 1);
      var s, e, t := ss[i - 1], es[i - 1], ss[i];
      assert Step(s, e, t);
      match e
      case Grow(at, n) => GrowKeeps(base, s, at, n, t);
      case Carve(j, n) => CarveKeeps(base, s, j, n, t);
      case Release(bp) => ReleaseKeeps(base, s, bp, t);
    }
  }

  // ---- address by address ----

  /** Some live block holds address a. */
  ghost predicate Live(s: State, a: int) {
    exists p | p in s.live :: Holds(Blk(p, s.live[p]), a)
  }

  /** sbrk has handed out address a within the first i steps. */
  ghost predicate Obtained(es: seq<Event>, i: nat, a: int)
    requires i <= |es|
  {
    exists k | 0 <= k < i :: es[k].Grow? && Holds(Blk(es[k].at, es[k].n), a)
  }

  lemma {:induction false} StepUnits(base: int, s: State, e: Event, t: State, a: int)
    requires Inv(base, s) && Step(s, e, t)
    ensures Free(t.f, a) || Live(t, a) <==> Free(s.f, a) || Live(s, a) || (e.Grow? && Holds(Blk(e.at, e.n), a))
  {
    hide InsertAt, TakeAt, Free, Total, Sum;
    match e
    case Grow(at, n) =>
      var k := Place(s.f, at);
      InsertUnits(s.f, k, Blk(at, n), a);
      assert t.live == s.live;
    case Carve(i, n) =>
      CarveLive(base, s, i, n, t);
      TakeUnits(base, s.f, i, n, a);
      if Holds(Carved(s.f, i, n), a) { CarvedIsFree(s.f, i, n, a); }
      var b := Carved(s.f, i, n);
      assert forall p | p in s.live :: p in t.live && t.live[p] == s.live[p];
      assert b.at in t.live && t.live[b.at] == n;
    case Release(bp) =>
      var k, b := Place(s.f, bp), Blk(bp, s.live[bp]);
      InsertUnits(s.f, k, b, a);
      assert forall p | p in s.live :: p == bp || (p in t.live && t.live[p] == s.live[p]);
      assert forall p | p in t.live :: p in s.live && t.live[p] == s.live[p];
  }

  lemma CarvedIsFree(f: seq<Blk>, i: nat, n: nat, a: int)
    requires i < |f| && f[i].size >= n && Holds(Carved(f, i, n), a)
    ensures Free(f, a)
  {
    assert Holds(f[i], a);
  }

  lemma {:induction false} NotBoth(base: int, s: State, a: int)
    requires Inv(base, s)
    ensures !(Free(s.f, a) && Live(s, a))
  {
    if Free(s.f, a) {
      var i :| 0 <= i < |s.f| && Holds(s.f[i], a);
      forall p | p in s.live ensures !Holds(Blk(p, s.live[p]), a) {
        assert Fits(base, s.f, Blk(p, s.live[p]));
        assert Apart(s.f[i], Blk(p, s.live[p]));
      }
    }
  }

  /** In every run each address obtained from sbrk, and no other, is free or inside a live block,
      and never both. */
  lemma {:induction false} UnitsConserved(base: int, ss: seq<State>, es: seq<Event>, i: nat, a: int)
    requires Run(base, ss, es) && i < |ss|
    ensures Obtained(es, i, a) <==> Free(ss[i].f, a) || Live(ss[i], a)
    ensures !(Free(ss[i].f, a) && Live(ss[i], a))
  {
    hide Step, Inv, Free, Live;
    RunKeepsHeap(base, ss, es, i);
    NotBoth(base, ss[i], a);
    if i == 0 {
      NothingYet(base, ss[0], a);
    } else {
      UnitsConserved(base, ss, es, i - 1, a);
      RunKeepsHeap(base, ss, es, i - 1);
      assert Step(ss[i - 1], es[i - 1], ss[i]);
      StepUnits(base, ss[i - 1], es[i - 1], ss[i], a);
    }
  }

  lemma NothingYet(base: int, s: State, a: int)
    requires s.f == [Blk(base, 0)] && s.live == map[]
    ensures !Free(s.f, a) && !Live(s, a)
  {
  }
}
