/** walkpgdir, mappages and setupkvm (vm.c) on values. */
module VmOps {
  import opened Disk
  import opened VmMem
  import opened VmSteps

  datatype Result = Mapped(mem: Mem) | NoMem(mem: Mem) | Panic

  /** w is owner with some more page-table pages of directory d. */
  ghost predicate Adds(owner: map<nat, Place>, w: map<nat, Place>, d: nat) {
    && (forall p | p in owner :: p in w && w[p] == owner[p])
    && forall p | p in w && p !in owner :: w[p].Table? && w[p].d == d
  }

  lemma AddsThen(a: map<nat, Place>, b: map<nat, Place>, c: map<nat, Place>, d: nat)
    requires Adds(a, b, d) && Adds(b, c, d)
    ensures Adds(a, c, d)
  {
  }

  /** walkpgdir with alloc set: directory d has a table for page v, if memory suffices. */
  function Walk(m: Mem, d: nat, v: nat): (r: Result)
    requires Shape(m) && d < NPAGES && v < VPAGES
    ensures !r.Panic? && Shape(r.mem)
  {
    if Present(m.pages[d][v / NENTRIES]) then Mapped(m)
    else if m.free == [] then NoMem(m)
    else Mapped(InstallTable(Kalloc(m), d, v / NENTRIES, m.free[0]))
  }

  /** walkpgdir changes no mapping; it fails exactly when a table is missing and no page is free,
      and then changes nothing. The entry it leaves, old or new, is open to writing and to user
      mode; a new table is a zeroed page that was free. */
  lemma {:induction false} WalkOk(m: Mem, owner: map<nat, Place>, d: nat, v: nat) returns (w: map<nat, Place>)
    requires Owned(m, owner) && Live(owner, d) && v < VPAGES
    ensures d < NPAGES
    ensures var r := Walk(m, d, v);
            && (r.NoMem? ==> r.mem == m && m.free == [])
            && (r.NoMem? <==> !Present(m.pages[d][v / NENTRIES]) && m.free == [])
            && (r.Mapped? ==>
                  && Owned(r.mem, w) && Adds(owner, w, d) && HasTable(r.mem, d, v)
                  && SameView(m, r.mem, owner) && SameData(m, r.mem, owner)
                  && Flags(r.mem.pages[d][v / NENTRIES]) == 7)
            && (r.Mapped? && !Present(m.pages[d][v / NENTRIES]) ==> NewTable(m, r.mem, d, v / NENTRIES))
  {
    hide Pte, InstallTable, Kalloc;
    TableOf(m, owner, d, v / NENTRIES);
    w := owner;
    if !Present(m.pages[d][v / NENTRIES]) && m.free != [] {
      w := WalkNew(m, owner, d, v);
    }
  }

  /** Entry i of directory d names the first free page, now zeroed; nothing else changed. */
  ghost predicate NewTable(m: Mem, t: Mem, d: nat, i: nat) {
    && Shape(m) && Shape(t) && d < NPAGES && i < NENTRIES && m.free != []
    && t.free == m.free[1..] && t.pages[d] == m.pages[d][i := Entry(m.free[0], 7)]
    && t.pages[m.free[0]] == ZeroPage() && forall p | 0 <= p < NPAGES && p != d && p != m.free[0] :: t.pages[p] == m.pages[p]
  }

  lemma {:induction false} WalkNew(m: Mem, owner: map<nat, Place>, d: nat, v: nat) returns (w: map<nat, Place>)
    requires Owned(m, owner) && Live(owner, d) && d < NPAGES && v < VPAGES && !Present(m.pages[d][v / NENTRIES]) && m.free != []
    ensures var t := InstallTable(Kalloc(m), d, v / NENTRIES, m.free[0]);
            && Owned(t, w) && Adds(owner, w, d) && HasTable(t, d, v) && SameView(m, t, owner) && SameData(m, t, owner)
            && NewTable(m, t, d, v / NENTRIES) && Flags(t.pages[d][v / NENTRIES]) == 7
  {
    hide Pte, Owned;
    var p, i, g := m.free[0], v / NENTRIES, Kalloc(m);
    KallocOk(m, owner);
    InstallOk(g, owner[p := Held], d, i, p);
    w := owner[p := Held][p := Table(d, i)];
    var t := InstallTable(g, d, i, p);
    assert t.pages[d][i] == Entry(p, 7);
    ViewThen(m, g, t, owner, owner[p := Held]);
    assert SameData(m, t, owner);
  }

  lemma ViewThen(a: Mem, b: Mem, c: Mem, u: map<nat, Place>, w: map<nat, Place>)
    requires SameView(a, b, u) && SameView(b, c, w) && forall d: nat | Live(u, d) :: Live(w, d)
    ensures SameView(a, c, u)
  {
    hide Pte;
  }

  // ---- mappages ----

  /** perm | PTE_P */
  function WithP(perm: nat): (f: nat)
    requires perm < 4096
    ensures f < 4096 && f % 2 == 1 && (perm % 2 == 1 ==> f == perm)
  {
    if perm % 2 == 1 then perm else perm + 1
  }

  function MapPage(m: Mem, d: nat, v: nat, frame: nat, perm: nat): (r: Result)
    requires Shape(m) && d < NPAGES && v < VPAGES && frame < FRAMES && perm < 4096
    ensures !r.Panic? ==> Shape(r.mem)
  {
    var r := Walk(m, d, v);
    if r.NoMem? then r
    else if Frame(r.mem.pages[d][v / NENTRIES]) >= NPAGES || !Present(r.mem.pages[d][v / NENTRIES]) then Panic  // no such memory
    else if Present(Pte(r.mem, d, v)) then Panic  // remap
    else Mapped(SetPte(r.mem, d, v, Entry(frame, WithP(perm))))
  }

  /** A user page: the held page p becomes mapped at v, nothing else changes, and it panics
      exactly when v is mapped. */
  lemma {:induction false} MapUserPage(m: Mem, owner: map<nat, Place>, d: nat, v: nat, p: nat, perm: nat) returns (w: map<nat, Place>)
    requires Owned(m, owner) && Live(owner, d) && v < UPAGES && p in owner && owner[p].Held? && perm < 4096
    ensures d < NPAGES && p < NPAGES
    ensures var r := MapPage(m, d, v, p, perm);
            && (r.Panic? <==> Present(Pte(m, d, v)))
            && (r.NoMem? ==> r.mem == m && m.free == [])
            && (r.Mapped? ==>
                  && Owned(r.mem, w) && Adds(owner[p := Data(d, v)], w, d)
                  && OneEntry(m, r.mem, owner, d, v, Entry(p, WithP(perm))) && SameData(m, r.mem, owner))
  {
    hide Pte, Walk, SetPte, Owned;
    assert p < NPAGES by { InMemory(m, owner, p); }
    assert d < NPAGES by { InMemory(m, owner, d); }
    w := WalkOk(m, owner, d, v);
    var k := Walk(m, d, v);
    if k.Mapped? && !Present(Pte(m, d, v)) {
      var g, e := k.mem, Entry(p, WithP(perm));
      MapOk(g, w, d, v, p, WithP(perm));
      SetPteView(g, w, d, v, e);
      SetPteData(g, w, d, v, e);
      var t := SetPte(g, d, v, e);
      EntryThen(m, g, t, owner, w, d, v, e);
      w := w[p := Data(d, v)];
    } else if k.NoMem? {
      NoTableNoEntry(m, owner, d, v);
    }
  }

  lemma InMemory(m: Mem, owner: map<nat, Place>, p: nat)
    requires Owned(m, owner) && p in owner
    ensures p < NPAGES && Managed(m, p)
  {
  }

  lemma NoTableNoEntry(m: Mem, owner: map<nat, Place>, d: nat, v: nat)
    requires Owned(m, owner) && Live(owner, d) && d < NPAGES && v < VPAGES && Walk(m, d, v).NoMem?
    ensures Pte(m, d, v) == 0
  {
  }

  lemma EntryThen(a: Mem, b: Mem, c: Mem, u: map<nat, Place>, w: map<nat, Place>, d: nat, v: nat, e: word)
    requires SameView(a, b, u) && OneEntry(b, c, w, d, v, e) && Adds(u, w, d)
    ensures OneEntry(a, c, u, d, v, e)
  {
    hide Pte;
  }

  /** mappages for n pages. */
  function MapRange(m: Mem, d: nat, v: nat, n: nat, frame: nat, perm: nat): (r: Result)
    requires Shape(m) && d < NPAGES && v + n <= VPAGES && frame + n <= FRAMES && perm < 4096
    ensures !r.Panic? ==> Shape(r.mem)
    decreases n
  {
    if n == 0 then Mapped(m)
    else
      var r := MapPage(m, d, v, frame, perm);
      if r.Mapped? then MapRange(r.mem, d, v + 1, n - 1, frame + 1, perm) else r
  }

  /** Virtual pages v.. of directory d map the frames from `frame` on; nothing else changed. */
  ghost predicate RangeView(s: Mem, t: Mem, owner: map<nat, Place>, d: nat, v: nat, n: nat, frame: nat, perm: nat) {
    && Shape(s) && Shape(t) && t.lay == s.lay && frame + n <= FRAMES && perm < 4096
    && forall x: nat, y: nat | Live(owner, x) && x < NPAGES && y < VPAGES ::
         Pte(t, x, y) == if x == d && v <= y < v + n then Entry(frame + (y - v), WithP(perm)) else Pte(s, x, y)
  }

  lemma {:induction false} MapKernelPage(m: Mem, owner: map<nat, Place>, d: nat, v: nat, frame: nat, perm: nat) returns (w: map<nat, Place>)
    requires Owned(m, owner) && Live(owner, d) && UPAGES <= v < VPAGES && frame < FRAMES && perm < 4096
    ensures d < NPAGES
    ensures var r := MapPage(m, d, v, frame, perm);
            && (r.Panic? <==> Present(Pte(m, d, v)))
            && (r.NoMem? ==> r.mem == m && m.free == [])
            && (r.Mapped? ==>
                  && Owned(r.mem, w) && Adds(owner, w, d)
                  && OneEntry(m, r.mem, owner, d, v, Entry(frame, WithP(perm))) && SameData(m, r.mem, owner))
  {
    hide Pte, Walk, SetPte, Owned;
    assert d < NPAGES by { InMemory(m, owner, d); }
    w := WalkOk(m, owner, d, v);
    var k := Walk(m, d, v);
    if k.Mapped? && !Present(Pte(m, d, v)) {
      var g, e := k.mem, Entry(frame, WithP(perm));
      KernelMapOk(g, w, d, v, e);
      SetPteView(g, w, d, v, e);
      SetPteData(g, w, d, v, e);
      EntryThen(m, g, SetPte(g, d, v, e), owner, w, d, v, e);
    } else if k.NoMem? {
      NoTableNoEntry(m, owner, d, v);
    }
  }

  /** A kernel range is mapped frame by frame, and nothing else changes. A failure leaves a
      sound memory; there is a panic only where an entry of the range was in use. */
  lemma {:induction false} MapKernelRange(m: Mem, owner: map<nat, Place>, d: nat, v: nat, n: nat, frame: nat, perm: nat)
    returns (w: map<nat, Place>)
    requires Owned(m, owner) && Live(owner, d) && UPAGES <= v && v + n <= VPAGES && frame + n <= FRAMES && perm < 4096
    ensures d < NPAGES
    ensures var r := MapRange(m, d, v, n, frame, perm);
            && (r.Panic? ==> exists y | v <= y < v + n :: Present(Pte(m, d, y)))
            && (!r.Panic? ==> Owned(r.mem, w) && Adds(owner, w, d) && OthersView(m, r.mem, owner, d) && SameData(m, r.mem, owner))
            && (r.Mapped? ==> RangeView(m, r.mem, owner, d, v, n, frame, perm))
    decreases n
  {
    hide Pte, MapPage, Owned;
    assert d < NPAGES by { InMemory(m, owner, d); }
    w := owner;
    if n > 0 {
      w := MapKernelPage(m, owner, d, v, frame, perm);
      var k := MapPage(m, d, v, frame, perm);
      if k.Mapped? {
        var u := w;
        w := MapKernelRange(k.mem, u, d, v + 1, n - 1, frame + 1, perm);
        var r := MapRange(m, d, v, n, frame, perm);
        if r.Panic? {
          var y :| v + 1 <= y < v + n && Present(Pte(k.mem, d, y));
          assert Pte(k.mem, d, y) == Pte(m, d, y);
        } else {
          AddsThen(owner, u, w, d);
          OthersThen(m, k.mem, r.mem, owner, u, d, v, frame, perm);
          if r.Mapped? {
            RangeThen(m, k.mem, r.mem, owner, u, d, v, n, frame, perm);
          }
        }
      } else {
        w := owner;
        assert k.Panic? ==> v <= v < v + n && Present(Pte(m, d, v));
      }
    }
  }

  /** Every other live directory maps what it mapped. */
  ghost predicate OthersView(s: Mem, t: Mem, owner: map<nat, Place>, d: nat) {
    && Shape(s) && Shape(t) && t.lay == s.lay
    && forall x: nat, y: nat | Live(owner, x) && x != d && x < NPAGES && y < VPAGES :: Pte(t, x, y) == Pte(s, x, y)
  }

  lemma OthersThen(a: Mem, b: Mem, c: Mem, owner: map<nat, Place>, w: map<nat, Place>, d: nat, v: nat, frame: nat, perm: nat)
    requires frame < FRAMES && perm < 4096
    requires OneEntry(a, b, owner, d, v, Entry(frame, WithP(perm))) && Adds(owner, w, d) && OthersView(b, c, w, d)
    ensures OthersView(a, c, owner, d)
  {
    hide Pte;
  }

  lemma RangeThen(a: Mem, b: Mem, c: Mem, owner: map<nat, Place>, w: map<nat, Place>, d: nat, v: nat, n: nat, frame: nat, perm: nat)
    requires n > 0 && frame + n <= FRAMES && perm < 4096
    requires OneEntry(a, b, owner, d, v, Entry(frame, WithP(perm))) && Adds(owner, w, d)
    requires RangeView(b, c, w, d, v + 1, n - 1, frame + 1, perm)
    ensures RangeView(a, c, owner, d, v, n, frame, perm)
  {
    hide Pte;
    forall x: nat, y: nat | Live(owner, x) && x < NPAGES && y < VPAGES
      ensures Pte(c, x, y) == if x == d && v <= y < v + n then Entry(frame + (y - v), WithP(perm)) else Pte(a, x, y)
    {
      assert Live(w, x);
      if x == d && v < y < v + n {
        assert frame + 1 + (y - (v + 1)) == frame + (y - v);
      }
    }
  }
}
