/** deallocuvm, freevm and allocuvm (vm.c) on values. */
module VmUser {
  import opened Disk
  import opened Options
  import opened VmMem
  import opened VmSteps
  import opened VmOps

  /** PGROUNDUP(sz) / PGSIZE */
  function PagesUp(sz: nat): (n: nat)
    ensures sz <= n * 4096 < sz + 4096
  {
    (sz + 4095) / 4096
  }

  // ---- deallocuvm ----

  function PutWord(m: Mem, p: nat, j: nat, w: word): (t: Mem)
    requires Shape(m) && p < NPAGES && j < NENTRIES
    ensures Shape(t) && t.lay == m.lay
  {
    Put(m, p, m.pages[p][j := w])
  }

  /** Free what virtual page v maps, if anything; None where kfree panics. */
  function Drop(m: Mem, d: nat, v: nat): (r: Option<Mem>)
    requires Shape(m) && d < NPAGES && v < VPAGES
    ensures r.Some? ==> Shape(r.value)
  {
    var w := Pte(m, d, v);
    if !Present(w) then Some(m)
    else if !Managed(m, Frame(w)) then None
    else Some(PutWord(Kfree(m, Frame(w)), Frame(m.pages[d][v / NENTRIES]), v % NENTRIES, 0))
  }

  /** The page-by-page scan. */
  function DropRange(m: Mem, d: nat, lo: nat, hi: nat): (r: Option<Mem>)
    requires Shape(m) && d < NPAGES && hi <= VPAGES
    ensures r.Some? ==> Shape(r.value)
    decreases hi - lo
  {
    if lo >= hi then Some(m)
    else
      match Drop(m, d, lo)
      case None => None
      case Some(g) => DropRange(g, d, lo + 1, hi)
  }

  /** Ownership without the user pages lo..hi of directory d. */
  function Without(owner: map<nat, Place>, d: nat, lo: nat, hi: nat): (w: map<nat, Place>)
    ensures forall x :: Live(w, x) <==> Live(owner, x)
  {
    map p | p in owner && !(owner[p].Data? && owner[p].d == d && lo <= owner[p].v < hi) :: owner[p]
  }

  /** The mapped entries lo..hi of directory d became 0; nothing else changed. */
  ghost predicate Cleared(s: Mem, t: Mem, owner: map<nat, Place>, d: nat, lo: nat, hi: nat) {
    && Shape(s) && Shape(t) && t.lay == s.lay
    && forall x: nat, y: nat | Live(owner, x) && x < NPAGES && y < VPAGES ::
         Pte(t, x, y) == if x == d && lo <= y < hi && Present(Pte(s, x, y)) then 0 else Pte(s, x, y)
  }

  lemma {:induction false} FreeThenClear(m: Mem, owner: map<nat, Place>, d: nat, v: nat)
    requires Owned(m, owner) && Live(owner, d) && d < NPAGES && v < UPAGES && Present(Pte(m, d, v))
    ensures HasTable(m, d, v)
    ensures var p := Frame(Pte(m, d, v));
            && Managed(m, p) && p in owner && owner[p] == Data(d, v)
            && Drop(m, d, v) == Some(Kfree(SetPte(m, d, v, 0), p))
  {
    hide Junk, Head;
    TableOf(m, owner, d, v / NENTRIES);
    var p, q := Frame(Pte(m, d, v)), Frame(m.pages[d][v / NENTRIES]);
    assert PlaceOk(Data(d, v)) && At(m, Data(d, v)) == p;
    assert p != q;
    var j := Junk(Head(m.free));
    var t := m.pages[q][v % NENTRIES := 0];
    assert m.pages[p := j][q := t] == m.pages[q := t][p := j];
  }

  lemma {:induction false} DropMapped(m: Mem, owner: map<nat, Place>, d: nat, v: nat)
    requires Owned(m, owner) && Live(owner, d) && d < NPAGES && v < UPAGES && Present(Pte(m, d, v))
    ensures var r, p := Drop(m, d, v), Frame(Pte(m, d, v));
            && r.Some? && p in owner && owner[p] == Data(d, v) && Owned(r.value, owner - {p})
            && OneEntry(m, r.value, owner, d, v, 0) && SameData(m, r.value, owner - {p})
  {
    hide Pte, SetPte, Kfree, Drop, Owned;
    FreeThenClear(m, owner, d, v);
    var p, u := Frame(Pte(m, d, v)), SetPte(m, d, v, 0);
    UnmapOk(m, owner, d, v);
    SetPteView(m, owner, d, v, 0);
    SetPteData(m, owner, d, v, 0);
    var w := owner[p := Held];
    KfreeOk(u, w, p);
    var t := Kfree(u, p);
    assert w - {p} == owner - {p};
    assert forall x: nat | Live(owner, x) :: Live(w, x);
  }

  lemma {:induction false} DropOk(m: Mem, owner: map<nat, Place>, d: nat, v: nat)
    requires Owned(m, owner) && Live(owner, d) && d < NPAGES && v < UPAGES
    ensures var r, w := Drop(m, d, v), Without(owner, d, v, v + 1);
            && r.Some? && Owned(r.value, w)
            && Cleared(m, r.value, owner, d, v, v + 1) && SameData(m, r.value, w)
  {
    hide Pte, Owned, SameData, Drop;
    OwnerOfPage(m, owner, d, v);
    if Present(Pte(m, d, v)) {
      DropMapped(m, owner, d, v);
      WithoutOne(owner, d, v, Frame(Pte(m, d, v)));
    } else {
      DropNothing(m, owner, d, v);
      assert Without(owner, d, v, v + 1) == owner;
    }
  }

  lemma WithoutOne(owner: map<nat, Place>, d: nat, v: nat, p: nat)
    requires p in owner && owner[p] == Data(d, v) && forall q | q in owner && owner[q] == Data(d, v) :: q == p
    ensures Without(owner, d, v, v + 1) == owner - {p}
  {
  }

  lemma DropNothing(m: Mem, owner: map<nat, Place>, d: nat, v: nat)
    requires Shape(m) && d < NPAGES && v < UPAGES && !Present(Pte(m, d, v))
    ensures Drop(m, d, v) == Some(m) && SameData(m, m, owner)
  {
  }

  /** A user page is mapped exactly when it owns a page, and then that one. */
  lemma OwnerOfPage(m: Mem, owner: map<nat, Place>, d: nat, v: nat)
    requires Owned(m, owner) && Live(owner, d) && d < NPAGES && v < UPAGES
    ensures forall p | p in owner && owner[p] == Data(d, v) :: Present(Pte(m, d, v)) && Frame(Pte(m, d, v)) == p
    ensures Present(Pte(m, d, v)) ==> Frame(Pte(m, d, v)) in owner && owner[Frame(Pte(m, d, v))] == Data(d, v)
  {
    hide Pte;
    assert PlaceOk(Data(d, v));
    assert Present(Pte(m, d, v)) ==> At(m, Data(d, v)) == Frame(Pte(m, d, v));
  }

  lemma {:induction false} ClearedThen(a: Mem, b: Mem, c: Mem, owner: map<nat, Place>, w: map<nat, Place>, d: nat, lo: nat, hi: nat)
    requires lo < hi && Cleared(a, b, owner, d, lo, lo + 1) && Cleared(b, c, w, d, lo + 1, hi)
    requires forall x: nat :: Live(w, x) <==> Live(owner, x)
    ensures Cleared(a, c, owner, d, lo, hi)
  {
    hide Pte;
    forall x: nat, y: nat | Live(owner, x) && x < NPAGES && y < VPAGES
      ensures Pte(c, x, y) == if x == d && lo <= y < hi && Present(Pte(a, x, y)) then 0 else Pte(a, x, y)
    {
      assert Live(w, x) && Pte(b, x, y) == if x == d && lo <= y < lo + 1 && Present(Pte(a, x, y)) then 0 else Pte(a, x, y);
    }
  }

  /** The scan frees exactly the user pages of the range, panics nowhere, and changes no other
      mapping and no other page. */
  lemma {:induction false} DropRangeOk(m: Mem, owner: map<nat, Place>, d: nat, lo: nat, hi: nat)
    requires Owned(m, owner) && Live(owner, d) && d < NPAGES && hi <= UPAGES
    ensures var r, w := DropRange(m, d, lo, hi), Without(owner, d, lo, hi);
            && r.Some? && Owned(r.value, w)
            && Cleared(m, r.value, owner, d, lo, hi) && SameData(m, r.value, w)
    decreases hi - lo
  {
    hide Pte, Drop, Owned;
    var w := Without(owner, d, lo, hi);
    if lo >= hi {
      assert w == owner;
    } else {
      DropOk(m, owner, d, lo);
      var g, u := Drop(m, d, lo).value, Without(owner, d, lo, lo + 1);
      DropRangeOk(g, u, d, lo + 1, hi);
      assert Without(u, d, lo + 1, hi) == w;
      var t := DropRange(m, d, lo, hi).value;
      ClearedThen(m, g, t, owner, u, d, lo, hi);
    }
  }

  /** An absent directory entry: scanning its pages one by one does what jumping over them does. */
  lemma {:induction false} JumpIsScan(m: Mem, d: nat, v: nat, hi: nat)
    requires Shape(m) && d < NPAGES && v < hi <= VPAGES && !Present(m.pages[d][v / NENTRIES])
    ensures DropRange(m, d, v, hi) == DropRange(m, d, (v / NENTRIES + 1) * NENTRIES, hi)
    decreases hi - v
  {
    assert DropRange(m, d, v, hi) == DropRange(m, d, v + 1, hi);
    if v + 1 < (v / NENTRIES + 1) * NENTRIES {
      assert (v + 1) / NENTRIES == v / NENTRIES;
      if v + 1 < hi {
        JumpIsScan(m, d, v + 1, hi);
      }
    }
  }

  // ---- freevm ----

  function FreeTables(m: Mem, d: nat, i: nat): (r: Option<Mem>)
    requires Shape(m) && d < NPAGES && i <= NENTRIES
    ensures r.Some? ==> Shape(r.value) && r.value.lay == m.lay
    decreases NENTRIES - i
  {
    if i == NENTRIES then Some(m)
    else if !Present(m.pages[d][i]) then FreeTables(m, d, i + 1)
    else if !Managed(m, Frame(m.pages[d][i])) then None
    else FreeTables(Kfree(m, Frame(m.pages[d][i])), d, i + 1)
  }

  function Freevm(m: Mem, d: nat): (r: Option<Mem>)
    requires Shape(m) && d < NPAGES
    ensures r.Some? ==> Shape(r.value)
  {
    match DropRange(m, d, 0, UPAGES)
    case None => None
    case Some(g) =>
      match FreeTables(g, d, 0)
      case None => None
      case Some(t) => if Managed(t, d) then Some(Kfree(t, d)) else None
  }

  /** Ownership without any page of directory d. */
  function Gone(owner: map<nat, Place>, d: nat): (w: map<nat, Place>) {
    map p | p in owner && (owner[p].Held? || owner[p].d != d) :: owner[p]
  }

  /** Directory d let go, and its tables below entry i freed. */
  function Rest(owner: map<nat, Place>, d: nat, i: nat): (w: map<nat, Place>) {
    map p | p in owner && !(owner[p].Table? && owner[p].d == d && owner[p].i < i) ::
      if !owner[p].Held? && owner[p].d == d then Held else owner[p]
  }

  lemma {:induction false} RestNext(m: Mem, owner: map<nat, Place>, d: nat, i: nat)
    requires Owned(m, owner) && Live(owner, d) && d < NPAGES && i < NENTRIES
    ensures Present(m.pages[d][i]) ==>
              var q := Frame(m.pages[d][i]);
              && Managed(m, q) && q != d && q in Rest(owner, d, i) && Rest(owner, d, i)[q] == Held
              && Rest(owner, d, i + 1) == Rest(owner, d, i) - {q}
    ensures !Present(m.pages[d][i]) ==> Rest(owner, d, i + 1) == Rest(owner, d, i)
  {
    TableOf(m, owner, d, i);
    forall p | p in owner && owner[p] == Table(d, i) ensures Present(m.pages[d][i]) && p == Frame(m.pages[d][i]) {
      assert At(m, Table(d, i)) == p;
    }
  }

  lemma {:induction false} FreeTablesOk(m: Mem, owner: map<nat, Place>, g: Mem, d: nat, i: nat)
    requires Owned(m, owner) && Live(owner, d) && d < NPAGES && i <= NENTRIES
    requires Shape(g) && g.lay == m.lay && g.pages[d] == m.pages[d] && Owned(g, Rest(owner, d, i))
    ensures var r, w := FreeTables(g, d, i), Rest(owner, d, NENTRIES);
            && r.Some? && Owned(r.value, w) && SameView(g, r.value, w) && SameData(g, r.value, w)
    decreases NENTRIES - i
  {
    hide Pte, Owned, Rest, Kfree;
    var w := Rest(owner, d, NENTRIES);
    if i < NENTRIES {
      RestNext(m, owner, d, i);
      if Present(m.pages[d][i]) {
        var q := Frame(m.pages[d][i]);
        KfreeOk(g, Rest(owner, d, i), q);
        var k := Kfree(g, q);
        KfreeElsewhere(g, q, d);
        FreeTablesOk(m, owner, k, d, i + 1);
        RestShrinks(owner, d, i);
        var t := FreeTables(k, d, i + 1).value;
        ViewThen(g, k, t, w, w) by { NarrowView(g, k, Rest(owner, d, i), w); }
        DataThen(g, k, t, Rest(owner, d, i + 1), w);
      } else {
        FreeTablesOk(m, owner, g, d, i + 1);
      }
    }
  }

  lemma KfreeElsewhere(m: Mem, q: nat, p: nat)
    requires Shape(m) && Managed(m, q) && p < NPAGES && p != q
    ensures Kfree(m, q).pages[p] == m.pages[p]
  {
  }

  lemma RestShrinks(owner: map<nat, Place>, d: nat, i: nat)
    requires i < NENTRIES
    ensures Keeps(Rest(owner, d, i), Rest(owner, d, NENTRIES)) && Keeps(Rest(owner, d, i + 1), Rest(owner, d, NENTRIES))
  {
  }

  /** w is a part of owner. */
  ghost predicate Keeps(owner: map<nat, Place>, w: map<nat, Place>) {
    forall p | p in w :: p in owner && owner[p] == w[p]
  }

  lemma NarrowView(s: Mem, t: Mem, owner: map<nat, Place>, w: map<nat, Place>)
    requires SameView(s, t, owner) && Keeps(owner, w)
    ensures SameView(s, t, w)
  {
    hide Pte;
  }

  lemma DataThen(a: Mem, b: Mem, c: Mem, owner: map<nat, Place>, w: map<nat, Place>)
    requires SameData(a, b, owner) && SameData(b, c, w) && Keeps(owner, w)
    ensures SameData(a, c, w)
  {
  }

  lemma {:induction false} GoneIs(m: Mem, owner: map<nat, Place>, d: nat)
    requires Owned(m, owner) && Live(owner, d)
    requires forall p | p in owner && !owner[p].Held? && owner[p].d == d :: !owner[p].Data?
    ensures Disowned(owner, d) == Rest(owner, d, 0)
    ensures d in Rest(owner, d, NENTRIES) && Rest(owner, d, NENTRIES)[d] == Held
    ensures Rest(owner, d, NENTRIES) - {d} == Gone(owner, d)
  {
    forall p | p in owner && !owner[p].Held? && owner[p].d == d && p != d ensures owner[p].Table? && owner[p].i < NENTRIES {
      assert At(m, owner[p]) == p && PlaceOk(owner[p]);
    }
  }

  lemma GoneTwice(owner: map<nat, Place>, d: nat, lo: nat, hi: nat)
    ensures var w := Without(owner, d, lo, hi);
            Gone(w, d) == Gone(owner, d) && Keeps(w, Gone(owner, d))
  {
  }

  lemma {:induction false} FreeSpace(m: Mem, owner: map<nat, Place>, d: nat)
    requires Owned(m, owner) && Live(owner, d) && d < NPAGES && forall v: nat | v < UPAGES :: !Present(Pte(m, d, v))
    ensures var r, w := FreeTables(m, d, 0), Gone(owner, d);
            && r.Some? && Managed(r.value, d) && Owned(Kfree(r.value, d), w)
            && SameView(m, Kfree(r.value, d), w) && SameData(m, Kfree(r.value, d), w)
  {
    hide Pte, Owned, Rest, Kfree, FreeTables;
    Disown(m, owner, d);
    GoneIs(m, owner, d);
    FreeTablesOk(m, owner, m, d, 0);
    var u, w, t := Rest(owner, d, NENTRIES), Gone(owner, d), FreeTables(m, d, 0).value;
    KfreeOk(t, u, d);
    var z := Kfree(t, d);
    assert Keeps(u, w);
    NarrowView(m, t, u, w);
    NarrowView(t, z, u, w);
    ViewThen(m, t, z, w, w);
    DataThen(m, t, z, u, w);
  }

  /** freevm panics nowhere and returns exactly the pages of directory d, each once: its user
      pages, its tables and itself. No other mapping or page changes. */
  lemma {:induction false} FreevmOk(m: Mem, owner: map<nat, Place>, d: nat)
    requires Owned(m, owner) && Live(owner, d)
    ensures d < NPAGES
    ensures var r, w := Freevm(m, d), Gone(owner, d);
            && r.Some? && Owned(r.value, w) && SameView(m, r.value, w) && SameData(m, r.value, w)
            && forall p: nat :: p in r.value.free <==> p in m.free || (p in owner && !owner[p].Held? && owner[p].d == d)
  {
    hide Pte, Owned, DropRange, FreeTables, Kfree;
    InMemory(m, owner, d);
    DropRangeOk(m, owner, d, 0, UPAGES);
    var g, u, w := DropRange(m, d, 0, UPAGES).value, Without(owner, d, 0, UPAGES), Gone(owner, d);
    forall v: nat | v < UPAGES ensures !Present(Pte(g, d, v)) {
      assert Pte(g, d, v) == if Present(Pte(m, d, v)) then 0 else Pte(m, d, v);
    }
    FreeSpace(g, u, d);
    GoneTwice(owner, d, 0, UPAGES);
    var t := Freevm(m, d).value;
    assert SameView(m, g, w);
    ViewThen(m, g, t, w, w);
    DataThen(m, g, t, u, w);
    FreeIs(m, owner, t, w);
  }

  lemma FreeIs(m: Mem, owner: map<nat, Place>, t: Mem, w: map<nat, Place>)
    requires Owned(m, owner) && Owned(t, w) && t.lay == m.lay && Keeps(owner, w)
    ensures forall p: nat :: p in t.free <==> p in m.free || (p in owner && p !in w)
  {
    forall p: nat ensures p in t.free <==> p in m.free || (p in owner && p !in w) {
      assert Managed(t, p) == Managed(m, p);
      if p in t.free { var i :| 0 <= i < |t.free| && t.free[i] == p; }
      if p in m.free { var i :| 0 <= i < |m.free| && m.free[i] == p; }
    }
  }
}
