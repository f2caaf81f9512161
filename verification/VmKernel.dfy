/** setupkvm (vm.c): a directory with the kernel's mappings. */
module VmKernel {
  import opened Disk
  import opened VmMem
  import opened VmSteps
  import opened VmOps
  import opened VmCount
  import opened VmRights

  datatype Range = Range(v: nat, n: nat, frame: nat, perm: nat)

  const DEVPAGE := 0xFE000  // DEVSPACE / PGSIZE

  /** The kmap table in pages. */
  function Kmap(lay: Layout): (s: seq<Range>)
    requires 0x100 < lay.data < NPAGES
    ensures |s| == 4
    ensures forall i | 0 <= i < 4 :: s[i].n > 0 && UPAGES <= s[i].v && s[i].v + s[i].n <= VPAGES && s[i].frame + s[i].n <= FRAMES && s[i].perm < 4096
  {
    [Range(UPAGES, 0x100, 0, 2),
     Range(UPAGES + 0x100, lay.data - 0x100, 0x100, 0),
     Range(UPAGES + lay.data, NPAGES - lay.data, lay.data, 2),
     Range(DEVPAGE, VPAGES - DEVPAGE, DEVPAGE, 2)]
  }

  /** The loop over kmap from entry k on. */
  function MapAll(m: Mem, d: nat, k: nat): (r: Result)
    requires Shape(m) && d < NPAGES && k <= 4
    ensures !r.Panic? ==> Shape(r.mem)
    decreases 4 - k
  {
    if k == 4 then Mapped(m)
    else
      var e := Kmap(m.lay)[k];
      var r := MapRange(m, d, e.v, e.n, e.frame, e.perm);
      if r.Mapped? then MapAll(r.mem, d, k + 1) else r
  }

  datatype Space = Built(mem: Mem, d: nat) | Failed(mem: Mem) | Stuck

  function Setupkvm(m: Mem): (r: Space)
    requires Shape(m)
    ensures !r.Stuck? ==> Shape(r.mem)
    ensures r.Built? ==> r.d < NPAGES
  {
    if m.free == [] then Failed(m)
    else
      var d := m.free[0];
      match MapAll(Put(Kalloc(m), d, ZeroPage()), d, 0)
      case Mapped(t) => Built(t, d)
      case NoMem(t) => Failed(t)
      case Panic => Stuck
  }

  /** What the first k ranges map at page y. */
  function KernelUpTo(lay: Layout, k: nat, y: nat): (w: word)
    requires 0x100 < lay.data < NPAGES && k <= 4
  {
    if k == 0 then 0
    else
      var e := Kmap(lay)[k - 1];
      if e.v <= y < e.v + e.n then Entry(e.frame + (y - e.v), WithP(e.perm)) else KernelUpTo(lay, k - 1, y)
  }

  function KernelPte(lay: Layout, y: nat): (w: word)
    requires 0x100 < lay.data < NPAGES
  {
    KernelUpTo(lay, 4, y)
  }

  /** The kernel part in closed form: memory at KERNBASE, read-only where the kernel's text is,
      devices at their own addresses, and nothing in the user part. */
  lemma KernelPart(lay: Layout, y: nat)
    requires 0x100 < lay.data < NPAGES && y < VPAGES
    ensures KernelPte(lay, y) ==
            if UPAGES <= y < UPAGES + NPAGES then Entry(y - UPAGES, if 0x100 <= y - UPAGES < lay.data then 1 else 3)
            else if DEVPAGE <= y then Entry(y, 3)
            else 0
  {
    assert KernelUpTo(lay, 4, y) == if DEVPAGE <= y then Entry(y, 3) else KernelUpTo(lay, 3, y);
    assert KernelUpTo(lay, 3, y) == if UPAGES + lay.data <= y < UPAGES + NPAGES then Entry(y - UPAGES, 3) else KernelUpTo(lay, 2, y);
    assert KernelUpTo(lay, 2, y) == if UPAGES + 0x100 <= y < UPAGES + lay.data then Entry(y - UPAGES, 1) else KernelUpTo(lay, 1, y);
    assert KernelUpTo(lay, 1, y) == if UPAGES <= y < UPAGES + 0x100 then Entry(y - UPAGES, 3) else KernelUpTo(lay, 0, y);
  }

  /** No kernel page is open to user mode, and the kernel's text cannot be written. */
  lemma {:induction false} KernelRights(lay: Layout, y: nat)
    requires 0x100 < lay.data < NPAGES && y < VPAGES
    ensures Grants(KernelPte(lay, y)) ==
            if UPAGES <= y < UPAGES + NPAGES || DEVPAGE <= y then Access(!(0x100 <= y - UPAGES < lay.data), false) else NoAccess
  {
    hide KernelPte;
    KernelPart(lay, y);
  }

  /** The ranges ascend, so range k is clear of the ones before it. */
  lemma {:induction false} NotYet(lay: Layout, k: nat, j: nat, y: nat)
    requires 0x100 < lay.data < NPAGES && j <= k < 4 && Kmap(lay)[k].v <= y
    ensures KernelUpTo(lay, j, y) == 0
  {
    if j > 0 {
      NotYet(lay, k, j - 1, y);
    }
  }

  /** Directory d maps exactly the first k ranges. */
  ghost predicate MapsUpTo(m: Mem, d: nat, k: nat): (b: bool)
    ensures b ==> Shape(m) && d < NPAGES && k <= 4
  {
    && Shape(m) && d < NPAGES && k <= 4
    && forall y: nat | y < VPAGES :: Pte(m, d, y) == KernelUpTo(m.lay, k, y)
  }

  lemma {:induction false} NoRemap(m: Mem, d: nat, k: nat, y: nat)
    requires MapsUpTo(m, d, k) && k < 4 && Kmap(m.lay)[k].v <= y < VPAGES
    ensures !Present(Pte(m, d, y))
  {
    hide Pte;
    NotYet(m.lay, k, k, y);
  }

  lemma {:induction false} NextRange(m: Mem, t: Mem, owner: map<nat, Place>, d: nat, k: nat)
    requires MapsUpTo(m, d, k) && k < 4 && Live(owner, d)
    requires var e := Kmap(m.lay)[k]; RangeView(m, t, owner, d, e.v, e.n, e.frame, e.perm)
    ensures MapsUpTo(t, d, k + 1)
  {
    hide Pte, Kmap;
    forall y: nat | y < VPAGES ensures Pte(t, d, y) == KernelUpTo(t.lay, k + 1, y) {
      assert Pte(m, d, y) == KernelUpTo(m.lay, k, y);
    }
  }

  lemma OthersTwice(a: Mem, b: Mem, c: Mem, owner: map<nat, Place>, w: map<nat, Place>, d: nat)
    requires OthersView(a, b, owner, d) && OthersView(b, c, w, d) && Adds(owner, w, d)
    ensures OthersView(a, c, owner, d)
  {
    hide Pte;
  }

  lemma {:induction false} MapAllOk(m: Mem, owner: map<nat, Place>, d: nat, k: nat) returns (w: map<nat, Place>)
    requires Owned(m, owner) && Live(owner, d) && MapsUpTo(m, d, k)
    ensures var r := MapAll(m, d, k);
            && !r.Panic? && Owned(r.mem, w) && Adds(owner, w, d) && OthersView(m, r.mem, owner, d) && SameData(m, r.mem, owner)
            && (r.Mapped? ==> MapsUpTo(r.mem, d, 4))
    decreases 4 - k
  {
    hide Pte, Owned, MapRange, Kmap, MapsUpTo;
    w := owner;
    if k < 4 {
      var e := Kmap(m.lay)[k];
      w := MapKernelRange(m, owner, d, e.v, e.n, e.frame, e.perm);
      forall y | e.v <= y < e.v + e.n ensures !Present(Pte(m, d, y)) {
        NoRemap(m, d, k, y);
      }
      var r := MapRange(m, d, e.v, e.n, e.frame, e.perm);
      if r.Mapped? {
        NextRange(m, r.mem, owner, d, k);
        var u := w;
        w := MapAllOk(r.mem, u, d, k + 1);
        var t := MapAll(m, d, k);
        AddsThen(owner, u, w, d);
        OthersTwice(m, r.mem, t.mem, owner, u, d);
      }
    }
  }

  // ---- how many pages it takes ----

  const DIRPAGES := 65  // one directory, 56 tables for memory, 8 for devices

  /** Where range k starts; the device range is not adjacent to the others. */
  function KernelEnd(lay: Layout, k: nat): (v: nat) {
    if k == 0 then UPAGES else if k == 1 then UPAGES + 0x100 else if k == 2 then UPAGES + lay.data else UPAGES + NPAGES
  }

  /** The tables of directory d are those of the first k ranges. */
  ghost predicate TablesUpTo(m: Mem, d: nat, k: nat) {
    && Shape(m) && d < NPAGES && k <= 4
    && forall i | 0 <= i < NENTRIES ::
         Present(m.pages[d][i]) <==> 512 <= i < TablesUp(KernelEnd(m.lay, k)) || (k == 4 && 1016 <= i)
  }

  /** Table pages the first k ranges take. */
  function TablesTaken(lay: Layout, k: nat): (n: int) {
    if k == 4 then DIRPAGES - 1 else TablesUp(KernelEnd(lay, k)) - 512
  }

  lemma {:induction false} RangeTables(m: Mem, d: nat, k: nat)
    requires TablesUpTo(m, d, k) && k < 4
    ensures var e := Kmap(m.lay)[k];
            Absent(m.pages[d], e.v / NENTRIES, TablesUp(e.v + e.n)) == TablesTaken(m.lay, k + 1) - TablesTaken(m.lay, k)
  {
    hide Present, Absent;
    var e := Kmap(m.lay)[k];
    AbsentFrom(m.pages[d], e.v / NENTRIES, TablesUp(e.v), TablesUp(e.v + e.n));
  }

  lemma {:induction false} NextTables(m: Mem, t: Mem, d: nat, k: nat)
    requires TablesUpTo(m, d, k) && k < 4 && Shape(t) && t.lay == m.lay
    requires var e := Kmap(m.lay)[k];
             && (forall i | e.v / NENTRIES <= i < TablesUp(e.v + e.n) :: Present(t.pages[d][i]))
             && forall i | 0 <= i < NENTRIES && !(e.v / NENTRIES <= i < TablesUp(e.v + e.n)) :: t.pages[d][i] == m.pages[d][i]
    ensures TablesUpTo(t, d, k + 1)
  {
    hide Present;
    var e := Kmap(m.lay)[k];
    forall i | 0 <= i < NENTRIES
      ensures Present(t.pages[d][i]) <==> 512 <= i < TablesUp(KernelEnd(m.lay, k + 1)) || (k == 3 && 1016 <= i)
    {
      if !(e.v / NENTRIES <= i < TablesUp(e.v + e.n)) {
        assert t.pages[d][i] == m.pages[d][i];
      }
    }
  }

  lemma {:induction false} MapAllCount(m: Mem, owner: map<nat, Place>, d: nat, k: nat)
    requires Owned(m, owner) && Live(owner, d) && MapsUpTo(m, d, k) && TablesUpTo(m, d, k)
    ensures var r, need := MapAll(m, d, k), TablesTaken(m.lay, 4) - TablesTaken(m.lay, k);
            && (r.NoMem? <==> |m.free| < need)
            && (r.NoMem? ==> r.mem.free == [])
            && (r.Mapped? ==> 0 <= need && r.mem.free == m.free[need..] && TablesUpTo(r.mem, d, 4))
    decreases 4 - k
  {
    hide Pte, Owned, MapRange, Kmap, MapsUpTo, TablesUpTo, TablesTaken;
    if k < 4 {
      var e := Kmap(m.lay)[k];
      var w := MapKernelRange(m, owner, d, e.v, e.n, e.frame, e.perm);
      forall y | e.v <= y < e.v + e.n ensures !Present(Pte(m, d, y)) {
        NoRemap(m, d, k, y);
      }
      RangeCount(m, owner, d, e.v, e.n, e.frame, e.perm);
      RangeTables(m, d, k);
      var r := MapRange(m, d, e.v, e.n, e.frame, e.perm);
      TakenGrows(m.lay, k + 1);
      if r.Mapped? {
        NextRange(m, r.mem, owner, d, k);
        NextTables(m, r.mem, d, k);
        MapAllCount(r.mem, w, d, k + 1);
      }
    }
  }

  lemma TakenGrows(lay: Layout, k: nat)
    requires 0x100 < lay.data < NPAGES && k <= 4
    ensures 0 <= TablesTaken(lay, k) <= TablesTaken(lay, 4)
  {
  }

  /** setupkvm never panics. It fails exactly with fewer than 65 free pages, and then keeps every
      one of them; otherwise it takes the first 65 and the new directory maps exactly the
      kernel part. */
  lemma {:induction false} SetupkvmOk(m: Mem, owner: map<nat, Place>) returns (w: map<nat, Place>)
    requires Owned(m, owner)
    ensures var r := Setupkvm(m);
            && !r.Stuck? && Owned(r.mem, w) && SameView(m, r.mem, owner) && SameData(m, r.mem, owner)
            && (r.Failed? <==> |m.free| < DIRPAGES)
            && (r.Built? ==>
                  && r.d !in owner && Adds(owner[r.d := Root(r.d)], w, r.d)
                  && r.mem.free == m.free[DIRPAGES..] && TablesUpTo(r.mem, r.d, 4)
                  && (forall y: nat | y < VPAGES :: Allowed(r.mem, r.d, y) == Grants(KernelPte(m.lay, y)))
                  && forall y: nat | y < VPAGES :: Pte(r.mem, r.d, y) == KernelPte(m.lay, y))
            && (r.Failed? ==>
                  && r.mem.free == []
                  && if m.free == [] then w == owner && r.mem == m
                     else m.free[0] !in owner && Adds(owner[m.free[0] := Root(m.free[0])], w, m.free[0]))
  {
    hide Pte, Owned, MapAll;
    w := owner;
    if m.free != [] {
      var d, g := m.free[0], Kalloc(m);
      KallocOk(m, owner);
      var u := owner[d := Held];
      NewRoot(g, u, d);
      var z := Put(g, d, ZeroPage());
      u := owner[d := Held][d := Root(d)];
      assert MapsUpTo(z, d, 0);
      assert TablesUpTo(z, d, 0);
      w := MapAllOk(z, u, d, 0);
      MapAllCount(z, u, d, 0);
      var r := MapAll(z, d, 0);
      SeenBefore(m, g, z, r.mem, owner, d);
      assert r.Mapped? ==> r.mem.free == m.free[1..][64..] == m.free[DIRPAGES..];
      hide Allowed, Grants;
      RightsOfAll(r.mem, w, d);
    }
  }

  lemma SeenBefore(m: Mem, g: Mem, z: Mem, t: Mem, owner: map<nat, Place>, d: nat)
    requires SameView(m, g, owner) && SameData(m, g, owner) && d !in owner
    requires SameView(g, z, owner[d := Held]) && SameData(g, z, owner[d := Held] - {d})
    requires var u := owner[d := Held][d := Root(d)]; OthersView(z, t, u, d) && SameData(z, t, u)
    ensures SameView(m, t, owner) && SameData(m, t, owner)
  {
    hide Pte;
    assert forall x: nat | Live(owner, x) :: Live(owner[d := Held], x) && Live(owner[d := Held][d := Root(d)], x) && x != d;
    assert owner[d := Held] - {d} == owner;
  }
}
