/** The single page and entry updates that vm.c is made of, with what each does to the flat
    view and to ownership. */
module VmSteps {
  import opened Disk
  import opened VmMem

  // ---- kalloc and kfree ----

  const KERNBASE := 0x8000_0000

  /** The kernel address of a page, as the free list stores it. */
  function Addr(p: nat): (a: word)
    requires p < NPAGES
  {
    KERNBASE + p * 4096
  }

  function Head(free: seq<nat>): (a: word)
    requires free != [] ==> free[0] < NPAGES
  {
    if free == [] then 0 else Addr(free[0])
  }

  /** A freed page: junk, with the list link in its first word. */
  function Junk(next: word): (s: Page) {
    seq(NENTRIES, (i: nat) => if i == 0 then next else 0x01010101 as word)
  }

  function Kalloc(m: Mem): (t: Mem)
    requires Shape(m) && m.free != []
    ensures Shape(t) && t.lay == m.lay && t.pages == m.pages
  {
    m.(free := m.free[1..])
  }

  function Kfree(m: Mem, p: nat): (t: Mem)
    requires Shape(m) && Managed(m, p)
    ensures Shape(t) && t.lay == m.lay
  {
    Put(m, p, Junk(Head(m.free))).(free := [p] + m.free)
  }

  lemma {:induction false} FreePop(m: Mem, owner: map<nat, Place>)
    requires Shape(m) && FreeOk(m, owner) && m.free != []
    ensures FreeOk(Kalloc(m), owner[m.free[0] := Held]) && m.free[0] !in owner && Managed(m, m.free[0])
  {
    var t, p := Kalloc(m), m.free[0];
    assert m.free == [p] + t.free;
    forall i | 0 <= i < |t.free| ensures Managed(t, t.free[i]) && t.free[i] != p {
      assert t.free[i] == m.free[i + 1];
    }
  }

  /** kalloc hands out a page that nobody holds. */
  lemma {:induction false} KallocOk(m: Mem, owner: map<nat, Place>)
    requires Owned(m, owner) && m.free != []
    ensures Managed(m, m.free[0]) && m.free[0] !in owner && Owned(Kalloc(m), owner[m.free[0] := Held])
    ensures SameView(m, Kalloc(m), owner) && SameData(m, Kalloc(m), owner)
  {
    FreePop(m, owner);
    var t, w := Kalloc(m), owner[m.free[0] := Held];
    assert forall d :: Live(w, d) <==> Live(owner, d);
    assert forall r | PlaceOk(r) :: At(t, r) == At(m, r);
    assert forall d | Live(owner, d) :: PlaceOk(Root(d));
  }

  lemma {:induction false} FreePush(m: Mem, owner: map<nat, Place>, p: nat)
    requires Shape(m) && FreeOk(m, owner) && p in owner
    ensures Managed(m, p) && FreeOk(Kfree(m, p), owner - {p})
  {
    var t := Kfree(m, p);
    forall i | 0 <= i < |t.free| ensures Managed(t, t.free[i]) && (i > 0 ==> t.free[i] != p) {
      assert i > 0 ==> t.free[i] == m.free[i - 1];
    }
    assert forall x: nat :: x in t.free <==> x == p || x in m.free;
  }

  /** kfree of a held page returns it to the list, once, and changes no mapping. */
  lemma {:induction false} KfreeOk(m: Mem, owner: map<nat, Place>, p: nat)
    requires Owned(m, owner) && p in owner && owner[p].Held?
    ensures Managed(m, p) && Owned(Kfree(m, p), owner - {p})
    ensures SameView(m, Kfree(m, p), owner) && SameData(m, Kfree(m, p), owner - {p})
  {
    hide Junk, Head;
    FreePush(m, owner, p);
    var u := Put(m, p, Junk(Head(m.free)));
    PutElsewhere(m, owner, p, Junk(Head(m.free)));
    var t, w := Kfree(m, p), owner - {p};
    assert forall d :: Live(w, d) <==> Live(owner, d);
    assert forall r | PlaceOk(r) :: At(t, r) == At(u, r);
    assert forall d | Live(owner, d) :: PlaceOk(Root(d));
  }

  // ---- directories ----

  /** memset(p, 0, PGSIZE) of a held page, which then serves as an empty directory. */
  lemma {:induction false} NewRoot(m: Mem, owner: map<nat, Place>, p: nat)
    requires Owned(m, owner) && p in owner && owner[p].Held?
    ensures p < NPAGES
    ensures var t := Put(m, p, ZeroPage());
            && Owned(t, owner[p := Root(p)]) && SameView(m, t, owner) && SameData(m, t, owner - {p})
            && forall v: nat | v < VPAGES :: Pte(t, p, v) == 0
  {
    var t, w := Put(m, p, ZeroPage()), owner[p := Root(p)];
    PutElsewhere(m, owner, p, ZeroPage());
    forall d ensures Live(w, d) <==> d == p || Live(owner, d) {
    }
    assert forall i | 0 <= i < NENTRIES :: t.pages[p][i] == 0;
    forall r | PlaceOk(r) && r.d == p && !r.Root? ensures At(t, r) == -1 {
    }
  }

  /** A directory without user pages can be let go: it and its tables become held pages. */
  function Disowned(owner: map<nat, Place>, d: nat): (w: map<nat, Place>) {
    map p | p in owner :: if !owner[p].Held? && owner[p].d == d then Held else owner[p]
  }

  lemma {:induction false} Disown(m: Mem, owner: map<nat, Place>, d: nat)
    requires Owned(m, owner) && Live(owner, d) && d < NPAGES && forall v: nat | v < UPAGES :: !Present(Pte(m, d, v))
    ensures Owned(m, Disowned(owner, d))
    ensures forall p | p in owner && !owner[p].Held? && owner[p].d == d :: !owner[p].Data?
  {
    var w := Disowned(owner, d);
    forall x ensures Live(w, x) <==> Live(owner, x) && x != d {
    }
    hide Pte;
  }

  // ---- entries ----

  function InstallTable(m: Mem, d: nat, i: nat, p: nat): (t: Mem)
    requires Shape(m) && d < NPAGES && i < NENTRIES && p < NPAGES
    ensures Shape(t) && t.lay == m.lay && t.free == m.free
  {
    var z := Put(m, p, ZeroPage());
    Put(z, d, z.pages[d][i := Entry(p, 7)])
  }

  lemma {:induction false} InstallAt(m: Mem, owner: map<nat, Place>, d: nat, i: nat, p: nat, x: nat, v: nat)
    requires Owned(m, owner) && Live(owner, d) && i < NENTRIES && p in owner && owner[p].Held?
    requires d < NPAGES && p < NPAGES && !Present(m.pages[d][i]) && Live(owner, x) && v < VPAGES
    ensures x < NPAGES && Pte(InstallTable(m, d, i, p), x, v) == Pte(m, x, v)
  {
    TableOf(m, owner, x, v / NENTRIES);
  }

  /** A zeroed table in an empty directory entry changes no mapping. */
  lemma {:induction false} InstallView(m: Mem, owner: map<nat, Place>, d: nat, i: nat, p: nat)
    requires Owned(m, owner) && Live(owner, d) && i < NENTRIES && p in owner && owner[p].Held?
    requires d < NPAGES && p < NPAGES && !Present(m.pages[d][i])
    ensures SameView(m, InstallTable(m, d, i, p), owner)
  {
    hide Pte, InstallTable, Live;
    var t := InstallTable(m, d, i, p);
    forall x: nat, v: nat | Live(owner, x) && x < NPAGES && v < VPAGES ensures Pte(t, x, v) == Pte(m, x, v) {
      InstallAt(m, owner, d, i, p, x, v);
    }
  }

  lemma {:induction false} InstallOk(m: Mem, owner: map<nat, Place>, d: nat, i: nat, p: nat)
    requires Owned(m, owner) && Live(owner, d) && i < NENTRIES && p in owner && owner[p].Held?
    requires d < NPAGES && !Present(m.pages[d][i])
    ensures p < NPAGES
    ensures var t := InstallTable(m, d, i, p);
            Owned(t, owner[p := Table(d, i)]) && SameView(m, t, owner) && SameData(m, t, owner - {p})
  {
    InstallView(m, owner, d, i, p);
    var t := InstallTable(m, d, i, p);
    forall q | PlaceOk(q) && Live(owner, q.d) ensures At(t, q) == if q == Table(d, i) then p else At(m, q) {
      hide Pte;
    }
    assert At(m, Table(d, i)) == -1;
    hide At, Pte;
    Link(m, t, owner, Table(d, i), p);
  }

  /** *pte = w, for a virtual page that has a table. */
  function SetPte(m: Mem, d: nat, v: nat, w: word): (t: Mem)
    requires Shape(m) && d < NPAGES && v < VPAGES && Present(m.pages[d][v / NENTRIES]) && Frame(m.pages[d][v / NENTRIES]) < NPAGES
    ensures Shape(t) && t.lay == m.lay && t.free == m.free
  {
    var p := Frame(m.pages[d][v / NENTRIES]);
    Put(m, p, m.pages[p][v % NENTRIES := w])
  }

  ghost predicate HasTable(m: Mem, d: nat, v: nat) {
    && Shape(m) && d < NPAGES && v < VPAGES
    && Present(m.pages[d][v / NENTRIES]) && Frame(m.pages[d][v / NENTRIES]) < NPAGES
  }

  lemma {:induction false} SetPteAt(m: Mem, owner: map<nat, Place>, d: nat, v: nat, w: word, x: nat, y: nat)
    requires Owned(m, owner) && Live(owner, d) && HasTable(m, d, v) && Live(owner, x) && y < VPAGES
    ensures x < NPAGES && Pte(SetPte(m, d, v, w), x, y) == if x == d && y == v then w else Pte(m, x, y)
  {
    TableOf(m, owner, d, v / NENTRIES);
    TableOf(m, owner, x, y / NENTRIES);
    if x == d && y / NENTRIES == v / NENTRIES && y != v {
      assert y % NENTRIES != v % NENTRIES;
    }
  }

  /** Storing an entry changes that virtual page of that directory and nothing else. */
  lemma {:induction false} SetPteView(m: Mem, owner: map<nat, Place>, d: nat, v: nat, w: word)
    requires Owned(m, owner) && Live(owner, d) && HasTable(m, d, v)
    ensures OneEntry(m, SetPte(m, d, v, w), owner, d, v, w)
  {
    hide Pte, SetPte, Live;
    var t := SetPte(m, d, v, w);
    forall x: nat, y: nat | Live(owner, x) && x < NPAGES && y < VPAGES
      ensures Pte(t, x, y) == if x == d && y == v then w else Pte(m, x, y)
    {
      SetPteAt(m, owner, d, v, w, x, y);
    }
  }

  lemma SetPteData(m: Mem, owner: map<nat, Place>, d: nat, v: nat, w: word)
    requires Owned(m, owner) && Live(owner, d) && HasTable(m, d, v)
    ensures SameData(m, SetPte(m, d, v, w), owner)
  {
    TableOf(m, owner, d, v / NENTRIES);
  }

  lemma {:induction false} SetPtePlaces(m: Mem, owner: map<nat, Place>, d: nat, v: nat, w: word, q: Place)
    requires Owned(m, owner) && Live(owner, d) && HasTable(m, d, v) && PlaceOk(q) && Live(owner, q.d)
    ensures At(SetPte(m, d, v, w), q) == if q == Data(d, v) then (if Present(w) then Frame(w) else -1) else At(m, q)
  {
    SetPteView(m, owner, d, v, w);
    TableOf(m, owner, d, v / NENTRIES);
    hide Pte;
  }

  lemma SetPteOpen(m: Mem, owner: map<nat, Place>, d: nat, v: nat, w: word)
    requires Owned(m, owner) && Live(owner, d) && HasTable(m, d, v)
    ensures TablesOpen(SetPte(m, d, v, w), owner)
  {
    TableOf(m, owner, d, v / NENTRIES);
  }

  /** Mapping a held page at a user address that was empty. */
  lemma {:induction false} MapOk(m: Mem, owner: map<nat, Place>, d: nat, v: nat, p: nat, flags: nat)
    requires Owned(m, owner) && Live(owner, d) && HasTable(m, d, v) && v < UPAGES && !Present(Pte(m, d, v))
    requires p in owner && owner[p].Held? && flags < 4096 && flags % 2 == 1
    ensures p < FRAMES && Owned(SetPte(m, d, v, Entry(p, flags)), owner[p := Data(d, v)])
  {
    hide Pte, SetPte;
    var t := SetPte(m, d, v, Entry(p, flags));
    forall q | PlaceOk(q) && Live(owner, q.d) ensures At(t, q) == if q == Data(d, v) then p else At(m, q) {
      SetPtePlaces(m, owner, d, v, Entry(p, flags), q);
    }
    assert At(m, Data(d, v)) == -1;
    hide At;
    SetPteOpen(m, owner, d, v, Entry(p, flags));
    Link(m, t, owner, Data(d, v), p);
  }

  /** Clearing a user mapping: its page is held until it is freed. */
  lemma {:induction false} UnmapOk(m: Mem, owner: map<nat, Place>, d: nat, v: nat)
    requires Owned(m, owner) && Live(owner, d) && HasTable(m, d, v) && v < UPAGES && Present(Pte(m, d, v))
    ensures var p := Frame(Pte(m, d, v));
            p in owner && owner[p] == Data(d, v) && Owned(SetPte(m, d, v, 0), owner[p := Held])
  {
    hide Pte, SetPte;
    var t, p := SetPte(m, d, v, 0), Frame(Pte(m, d, v));
    forall q | PlaceOk(q) && Live(owner, q.d) ensures At(t, q) == if q == Data(d, v) then -1 else At(m, q) {
      SetPtePlaces(m, owner, d, v, 0, q);
    }
    assert At(m, Data(d, v)) == p;
    hide At;
    SetPteOpen(m, owner, d, v, 0);
    Unlink(m, t, owner, Data(d, v), p);
  }

  /** A kernel mapping owns nothing. */
  lemma {:induction false} KernelMapOk(m: Mem, owner: map<nat, Place>, d: nat, v: nat, w: word)
    requires Owned(m, owner) && Live(owner, d) && HasTable(m, d, v) && v >= UPAGES
    ensures Owned(SetPte(m, d, v, w), owner)
  {
    hide Pte, SetPte;
    var t := SetPte(m, d, v, w);
    forall q | PlaceOk(q) && Live(owner, q.d) ensures At(t, q) == At(m, q) {
      SetPtePlaces(m, owner, d, v, w, q);
    }
    hide At;
    SetPteOpen(m, owner, d, v, w);
    SameLinks(m, t, owner);
  }
}
