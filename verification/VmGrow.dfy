/** allocuvm (vm.c) on values. */
module VmGrow {
  import opened Disk
  import opened Options
  import opened VmMem
  import opened VmSteps
  import opened VmRights
  import opened VmOps
  import opened VmCount
  import opened VmUser

  function Deallocuvm(m: Mem, d: nat, oldsz: nat, newsz: nat): (r: Option<Mem>)
    requires Shape(m) && d < NPAGES && oldsz <= KERNBASE
    ensures r.Some? ==> Shape(r.value)
  {
    if newsz >= oldsz then Some(m) else DropRange(m, d, PagesUp(newsz), PagesUp(oldsz))
  }

  /** The loop ended, or ran out of memory with or without a page in hand. */
  datatype Grow = Grown(mem: Mem) | Short(mem: Mem, spare: Option<nat>) | Stuck

  function GrowRange(m: Mem, d: nat, v: nat, hi: nat): (r: Grow)
    requires Shape(m) && d < NPAGES && hi <= VPAGES
    ensures !r.Stuck? ==> Shape(r.mem)
    decreases hi - v
  {
    if v >= hi then Grown(m)
    else if m.free == [] then Short(m, None)
    else
      var p := m.free[0];
      match MapPage(Put(Kalloc(m), p, ZeroPage()), d, v, p, 6)
      case Mapped(t) => GrowRange(t, d, v + 1, hi)
      case NoMem(t) => Short(t, Some(p))
      case Panic => Stuck
  }

  datatype Alloc = Size(mem: Mem, sz: nat) | AllocPanic

  function Allocuvm(m: Mem, d: nat, oldsz: nat, newsz: nat): (r: Alloc)
    requires Shape(m) && d < NPAGES
    ensures r.Size? ==> Shape(r.mem)
  {
    if newsz >= KERNBASE then Size(m, 0)
    else if newsz < oldsz then Size(m, oldsz)
    else
      match GrowRange(m, d, PagesUp(oldsz), PagesUp(newsz))
      case Stuck => AllocPanic
      case Grown(t) => Size(t, newsz)
      case Short(t, spare) =>
        match Deallocuvm(t, d, newsz, oldsz)
        case None => AllocPanic
        case Some(u) => Returned(u, spare)
  }

  /** The failure exit: kfree the page in hand, if any. */
  function Returned(u: Mem, spare: Option<nat>): (r: Alloc)
    requires Shape(u)
    ensures r.Size? ==> Shape(r.mem)
  {
    if spare.None? then Size(u, 0)
    else if Managed(u, spare.value) then Size(Kfree(u, spare.value), 0)
    else AllocPanic
  }

  // ---- the loop ----

  ghost predicate Unmapped(m: Mem, d: nat, lo: nat, hi: nat) {
    && Shape(m) && d < NPAGES && hi <= VPAGES
    && forall y: nat | lo <= y < hi :: Pte(m, d, y) == 0
  }

  /** w is owner with tables of d, user pages of d in lo..hi, and the spare page. */
  ghost predicate Took(owner: map<nat, Place>, w: map<nat, Place>, d: nat, lo: nat, hi: nat, spare: Option<nat>) {
    && (forall p | p in owner :: p in w && w[p] == owner[p])
    && (forall p | p in w && p !in owner ::
          || (w[p].Table? && w[p].d == d)
          || (w[p].Data? && w[p].d == d && lo <= w[p].v < hi)
          || (w[p].Held? && spare == Some(p)))
    && (spare.Some? ==> spare.value in w && spare.value !in owner && w[spare.value].Held?)
  }

  /** Entries outside lo..hi of directory d are as they were. */
  ghost predicate Beside(s: Mem, t: Mem, owner: map<nat, Place>, d: nat, lo: nat, hi: nat) {
    && Shape(s) && Shape(t) && t.lay == s.lay
    && forall x: nat, y: nat | Live(owner, x) && x < NPAGES && y < VPAGES && !(x == d && lo <= y < hi) :: Pte(t, x, y) == Pte(s, x, y)
  }

  /** Page y of directory d maps, with these flags, a page that was free and now holds s. */
  ghost predicate Fresh(t: Mem, w: map<nat, Place>, owner: map<nat, Place>, d: nat, y: nat, s: Page, flags: nat) {
    && Shape(t) && d < NPAGES && y < VPAGES
    && Present(Pte(t, d, y)) && Flags(Pte(t, d, y)) == flags
    && var q := Frame(Pte(t, d, y));
       q in w && w[q] == Data(d, y) && q !in owner && q < NPAGES && t.pages[q] == s
  }

  /** One turn: a free page is filled and mapped at v. */
  lemma {:induction false} PlaceOne(m: Mem, owner: map<nat, Place>, d: nat, v: nat, s: Page, perm: nat) returns (w: map<nat, Place>)
    requires Owned(m, owner) && Live(owner, d) && d < NPAGES && v < UPAGES && Pte(m, d, v) == 0 && m.free != [] && perm < 4096
    ensures var p := m.free[0];
            var r := MapPage(Put(Kalloc(m), p, s), d, v, p, perm);
            && p !in owner && !r.Panic? && Owned(r.mem, w) && SameData(m, r.mem, owner)
            && (r.NoMem? ==> w == owner[p := Held] && SameView(m, r.mem, owner))
            && (r.Mapped? ==>
                  && Adds(owner[p := Data(d, v)], w, d) && OneEntry(m, r.mem, owner, d, v, Entry(p, WithP(perm)))
                  && r.mem.pages[p] == s)
  {
    hide Pte, Owned, MapPage;
    var p, g := m.free[0], Kalloc(m);
    KallocOk(m, owner);
    var u := owner[p := Held];
    var z := Put(g, p, s);
    PutElsewhere(g, u, p, s);
    w := MapUserPage(z, u, d, v, p, perm);
    var r := MapPage(z, d, v, p, perm);
    ViewThen(m, g, z, owner, u);
    assert !Present(Pte(z, d, v));
    if r.NoMem? {
      w := u;
    } else {
      assert u[p := Data(d, v)] == owner[p := Data(d, v)];
      MappedData(z, r.mem, u, p);
      ThenEntry(m, z, r.mem, owner, u, d, v, Entry(p, WithP(perm)));
    }
  }

  lemma MappedData(s: Mem, t: Mem, u: map<nat, Place>, p: nat)
    requires SameData(s, t, u) && p in u && u[p].Held? && p < NPAGES
    ensures t.pages[p] == s.pages[p]
  {
  }

  lemma ThenEntry(a: Mem, b: Mem, c: Mem, owner: map<nat, Place>, u: map<nat, Place>, d: nat, v: nat, e: word)
    requires SameView(a, b, owner) && OneEntry(b, c, u, d, v, e) && forall x: nat | Live(owner, x) :: Live(u, x)
    ensures OneEntry(a, c, owner, d, v, e)
  {
    hide Pte;
  }

  /** From v up to some k, fresh pages; beyond, nothing changed; k is hi exactly on success. */
  lemma {:induction false} GrowRangeOk(m: Mem, owner: map<nat, Place>, d: nat, v: nat, hi: nat) returns (w: map<nat, Place>, k: nat)
    requires Owned(m, owner) && Live(owner, d) && v <= hi <= UPAGES && Unmapped(m, d, v, hi)
    ensures var r := GrowRange(m, d, v, hi);
            && !r.Stuck? && Owned(r.mem, w) && SameData(m, r.mem, owner)
            && v <= k <= hi && (r.Grown? <==> k == hi)
            && Took(owner, w, d, v, hi, if r.Short? then r.spare else None)
            && Beside(m, r.mem, owner, d, v, k)
            && forall y: nat | v <= y < k :: Fresh(r.mem, w, owner, d, y, ZeroPage(), 7)
    decreases hi - v
  {
    hide Pte, Owned, MapPage, Fresh, Took, Adds, Beside, OneEntry, SameData, SameView, Unmapped, ZeroPage, Kalloc, Put;
    w, k := owner, v;
    NothingTaken(m, owner, d, v, hi);
    if v < hi && m.free != [] {
      UnmappedAt(m, d, v, hi);
      w := PlaceOne(m, owner, d, v, ZeroPage(), 6);
      var p := m.free[0];
      var o := MapPage(Put(Kalloc(m), p, ZeroPage()), d, v, p, 6);
      if o.Mapped? {
        var t, u := o.mem, w;
        StillUnmapped(m, t, owner, d, v, hi, Entry(p, 7));
        AddsLive(owner, u, d, v, p);
        w, k := GrowRangeOk(t, u, d, v + 1, hi);
        var r := GrowRange(m, d, v, hi);
        TookMore(owner, u, w, d, v, hi, if r.Short? then r.spare else None, p);
        PlaceThen(m, t, r.mem, owner, u, w, d, v, k, p, ZeroPage(), 6);
        forall y: nat | v <= y < k ensures Fresh(r.mem, w, owner, d, y, ZeroPage(), 7) {
          if y > v {
            FreshStill(r.mem, w, owner, u, d, y, ZeroPage(), 7);
          }
        }
      } else {
        SpareTaken(m, o.mem, owner, d, v, hi, p);
      }
    }
  }

  lemma NothingTaken(m: Mem, owner: map<nat, Place>, d: nat, v: nat, hi: nat)
    requires Shape(m)
    ensures Took(owner, owner, d, v, hi, None) && Beside(m, m, owner, d, v, v) && SameData(m, m, owner)
  {
  }

  lemma SpareTaken(m: Mem, t: Mem, owner: map<nat, Place>, d: nat, v: nat, hi: nat, p: nat)
    requires SameView(m, t, owner) && p !in owner
    ensures Took(owner, owner[p := Held], d, v, hi, Some(p)) && Beside(m, t, owner, d, v, v)
  {
    hide Pte;
  }

  lemma UnmappedAt(m: Mem, d: nat, v: nat, hi: nat)
    requires Unmapped(m, d, v, hi) && v < hi
    ensures d < NPAGES && v < VPAGES && Pte(m, d, v) == 0
  {
  }

  lemma StillUnmapped(m: Mem, t: Mem, owner: map<nat, Place>, d: nat, v: nat, hi: nat, e: word)
    requires Unmapped(m, d, v, hi) && OneEntry(m, t, owner, d, v, e) && Live(owner, d)
    ensures Unmapped(t, d, v + 1, hi)
  {
    hide Pte;
  }

  lemma AddsLive(owner: map<nat, Place>, u: map<nat, Place>, d: nat, v: nat, p: nat)
    requires p !in owner && Live(owner, d) && Adds(owner[p := Data(d, v)], u, d)
    ensures Live(u, d) && forall x | x in owner :: x in u && u[x] == owner[x]
  {
    assert forall x | x in owner :: x in owner[p := Data(d, v)];
  }

  lemma TookMore(owner: map<nat, Place>, u: map<nat, Place>, w: map<nat, Place>, d: nat, v: nat, hi: nat, spare: Option<nat>, p: nat)
    requires p !in owner && v < hi && Adds(owner[p := Data(d, v)], u, d) && Took(u, w, d, v + 1, hi, spare)
    ensures Took(owner, w, d, v, hi, spare) && p in w && w[p] == Data(d, v)
  {
    assert forall x | x in owner :: x in owner[p := Data(d, v)];
  }

  lemma FreshStill(t: Mem, w: map<nat, Place>, owner: map<nat, Place>, u: map<nat, Place>, d: nat, y: nat, s: Page, flags: nat)
    requires Fresh(t, w, u, d, y, s, flags) && forall p | p in owner :: p in u
    ensures Fresh(t, w, owner, d, y, s, flags)
  {
    hide Pte;
  }

  lemma {:induction false} PlaceThen(m: Mem, t: Mem, z: Mem, owner: map<nat, Place>, u: map<nat, Place>, w: map<nat, Place>,
                                     d: nat, v: nat, k: nat, p: nat, s: Page, perm: nat)
    requires p !in owner && p < NPAGES && d < NPAGES && v < k <= VPAGES && Live(owner, d) && perm < 4096
    requires Adds(owner[p := Data(d, v)], u, d) && p in w && w[p] == Data(d, v)
    requires OneEntry(m, t, owner, d, v, Entry(p, WithP(perm))) && Beside(t, z, u, d, v + 1, k)
    requires SameData(m, t, owner) && SameData(t, z, u) && t.pages[p] == s
    ensures Beside(m, z, owner, d, v, k) && SameData(m, z, owner) && Fresh(z, w, owner, d, v, s, WithP(perm))
  {
    hide Pte;
    var a := owner[p := Data(d, v)];
    assert forall x | x in owner :: x in a && a[x] == owner[x];
    assert p in a && u[p] == Data(d, v);
    assert forall x: nat | Live(owner, x) :: Live(u, x);
    assert Pte(z, d, v) == Pte(t, d, v) == Entry(p, WithP(perm));
  }

  // ---- how many pages it takes ----

  /** One turn takes one page, and a second one when the table is absent; with just one it fails
      in mappages. */
  lemma {:induction false} PlaceCount(m: Mem, owner: map<nat, Place>, d: nat, v: nat, s: Page, perm: nat)
    requires Owned(m, owner) && Live(owner, d) && d < NPAGES && v < UPAGES && Pte(m, d, v) == 0 && m.free != [] && perm < 4096
    ensures var r, i := MapPage(Put(Kalloc(m), m.free[0], s), d, v, m.free[0], perm), v / NENTRIES;
            && !r.Panic?
            && (r.NoMem? <==> !Present(m.pages[d][i]) && |m.free| == 1)
            && (r.NoMem? ==> r.mem.free == [])
            && (r.Mapped? ==>
                  && |r.mem.free| == |m.free| - (if Present(m.pages[d][i]) then 1 else 2)
                  && (r.mem.free != [] ==> r.mem.free[|r.mem.free| - 1] == m.free[|m.free| - 1])
                  && Present(r.mem.pages[d][i])
                  && forall k | 0 <= k < NENTRIES && k != i :: r.mem.pages[d][k] == m.pages[d][k])
  {
    hide Pte, Owned, MapPage, Present;
    var p, g := m.free[0], Kalloc(m);
    KallocOk(m, owner);
    var u := owner[p := Held];
    var z := Put(g, p, s);
    PutElsewhere(g, u, p, s);
    var w := PlaceOne(m, owner, d, v, s, perm);
    MapPageCount(z, u, d, v, p, perm);
    assert p != d && z.pages[d] == m.pages[d];
  }

  /** Pages that growing directory d over v..hi takes: the pages themselves and absent tables. */
  function GrowNeed(m: Mem, d: nat, v: nat, hi: nat): (n: nat)
    requires Shape(m) && d < NPAGES && hi <= VPAGES
  {
    if v >= hi then 0 else hi - v + Absent(m.pages[d], v / NENTRIES, TablesUp(hi))
  }

  /** The loop runs short exactly when there are fewer free pages than it needs. */
  lemma {:induction false} GrowRangeCount(m: Mem, owner: map<nat, Place>, d: nat, v: nat, hi: nat)
    requires Owned(m, owner) && Live(owner, d) && v <= hi <= UPAGES && Unmapped(m, d, v, hi) && d < NPAGES
    ensures var r, need := GrowRange(m, d, v, hi), GrowNeed(m, d, v, hi);
            && (r.Short? <==> |m.free| < need)
            && (r.Short? ==> r.mem.free == [])
            && (r.Grown? ==> |r.mem.free| == |m.free| - need)
    decreases hi - v
  {
    hide Pte, Owned, MapPage, Present, Adds, OneEntry, SameData, SameView, Unmapped, ZeroPage, Kalloc, Put, Absent;
    if v < hi && m.free != [] {
      UnmappedAt(m, d, v, hi);
      var p := m.free[0];
      PlaceCount(m, owner, d, v, ZeroPage(), 6);
      var o := MapPage(Put(Kalloc(m), p, ZeroPage()), d, v, p, 6);
      if o.Mapped? {
        var w := PlaceOne(m, owner, d, v, ZeroPage(), 6);
        StillUnmapped(m, o.mem, owner, d, v, hi, Entry(p, 7));
        AddsLive(owner, w, d, v, p);
        AbsentNext(m.pages[d], o.mem.pages[d], v, hi);
        GrowRangeCount(o.mem, w, d, v + 1, hi);
        NoMoreTables(o.mem, d, v + 1, hi);
      } else {
        SomeAbsent(m.pages[d], v / NENTRIES, TablesUp(hi));
      }
    }
  }

  lemma SomeAbsent(s: Page, i: nat, j: nat)
    requires i < j <= NENTRIES && !Present(s[i])
    ensures Absent(s, i, j) > 0
  {
  }

  lemma NoMoreTables(m: Mem, d: nat, v: nat, hi: nat)
    requires Shape(m) && d < NPAGES && 0 < v <= hi <= VPAGES && Present(m.pages[d][(v - 1) / NENTRIES])
    ensures TablesUp(hi) <= NENTRIES
    ensures GrowNeed(m, d, v, hi) == hi - v + Absent(m.pages[d], v / NENTRIES, TablesUp(hi))
  {
    if v == hi {
      var i, j := v / NENTRIES, TablesUp(v);
      assert i == j || (i + 1 == j && i == (v - 1) / NENTRIES);
    }
  }

  // ---- allocuvm ----

  lemma {:induction false} Undone(m: Mem, t: Mem, u: Mem, owner: map<nat, Place>, d: nat, lo: nat, k: nat, hi: nat)
    requires Live(owner, d) && lo <= k <= hi && Unmapped(m, d, lo, hi) && Beside(m, t, owner, d, lo, k)
    requires Shape(t) && forall y: nat | lo <= y < k :: Present(Pte(t, d, y))
    requires Cleared(t, u, owner, d, lo, hi)
    ensures SameView(m, u, owner)
  {
    hide Pte;
    forall x: nat, y: nat | Live(owner, x) && x < NPAGES && y < VPAGES ensures Pte(u, x, y) == Pte(m, x, y) {
      assert Pte(u, x, y) == if x == d && lo <= y < hi && Present(Pte(t, x, y)) then 0 else Pte(t, x, y);
      if x == d && lo <= y < hi {
        assert Pte(m, x, y) == 0;
      }
    }
  }

  lemma {:induction false} LeftAfterDrop(m: Mem, owner: map<nat, Place>, w: map<nat, Place>, d: nat, lo: nat, hi: nat, spare: Option<nat>)
    requires Owned(m, owner) && hi <= UPAGES && Unmapped(m, d, lo, hi) && Took(owner, w, d, lo, hi, spare)
    ensures var u := Without(w, d, lo, hi);
            && (spare.None? ==> Adds(owner, u, d))
            && (spare.Some? ==> spare.value in u && u[spare.value].Held? && Adds(owner, u - {spare.value}, d))
  {
    hide Pte;
    forall p | p in owner ensures !(owner[p].Data? && owner[p].d == d && lo <= owner[p].v < hi) {
      if owner[p].Data? {
        assert At(m, owner[p]) == p;
      }
    }
  }

  /** A failed growth: every user page taken is freed again and all mappings are as before;
      only page-table pages stay with the directory. */
  lemma {:induction false} ShortRestores(m: Mem, owner: map<nat, Place>, d: nat, oldsz: nat, newsz: nat) returns (w: map<nat, Place>)
    requires Owned(m, owner) && Live(owner, d) && d < NPAGES && oldsz <= newsz < KERNBASE && Unmapped(m, d, PagesUp(oldsz), PagesUp(newsz))
    requires GrowRange(m, d, PagesUp(oldsz), PagesUp(newsz)).Short?
    ensures var r := Allocuvm(m, d, oldsz, newsz);
            && r.Size? && r.sz == 0 && Owned(r.mem, w) && Adds(owner, w, d) && SameView(m, r.mem, owner) && SameData(m, r.mem, owner)
  {
    hide Pte, Owned, GrowRange, Kfree, DropRange;
    var lo, hi := PagesUp(oldsz), PagesUp(newsz);
    var u, k := GrowRangeOk(m, owner, d, lo, hi);
    var g := GrowRange(m, d, lo, hi);
    DropRangeOk(g.mem, u, d, lo, hi);
    assert newsz > oldsz;
    var t := DropRange(g.mem, d, lo, hi).value;
    var v := Without(u, d, lo, hi);
    assert forall x: nat | Live(owner, x) :: Live(u, x);
    assert Cleared(g.mem, t, owner, d, lo, hi);
    forall y: nat | lo <= y < k ensures Present(Pte(g.mem, d, y)) {
      assert Fresh(g.mem, u, owner, d, y, ZeroPage(), 7);
    }
    Undone(m, g.mem, t, owner, d, lo, k, hi);
    LeftAfterDrop(m, owner, u, d, lo, hi, g.spare);
    w := v;
    if g.spare.Some? {
      var p := g.spare.value;
      KfreeOk(t, v, p);
      w := v - {p};
      ViewThen(m, t, Kfree(t, p), owner, v);
    }
    assert Deallocuvm(g.mem, d, newsz, oldsz) == Some(t);
    SameDataChain(m, g.mem, t, Allocuvm(m, d, oldsz, newsz).mem, owner, u, v, w);
  }

  lemma SameDataChain(m: Mem, g: Mem, t: Mem, z: Mem, owner: map<nat, Place>, u: map<nat, Place>, v: map<nat, Place>, w: map<nat, Place>)
    requires SameData(m, g, owner) && SameData(g, t, v) && (z == t || SameData(t, z, w))
    requires forall p | p in owner :: p in w && w[p] == owner[p] && p in v && v[p] == owner[p]
    ensures SameData(m, z, owner)
  {
  }

  lemma {:induction false} GrownRights(t: Mem, w: map<nat, Place>, owner: map<nat, Place>, d: nat, lo: nat, hi: nat)
    requires Owned(t, w) && Live(owner, d) && Took(owner, w, d, lo, hi, None) && hi <= VPAGES && d < NPAGES
    requires forall y: nat | lo <= y < hi :: Fresh(t, w, owner, d, y, ZeroPage(), 7)
    ensures forall y: nat | lo <= y < hi :: Allowed(t, d, y) == Access(true, true)
  {
    hide Owned, Pte, Allowed, ZeroPage;
    RightsOfAll(t, w, d);
    forall y: nat | lo <= y < hi ensures Allowed(t, d, y) == Access(true, true) {
      assert Fresh(t, w, owner, d, y, ZeroPage(), 7);
    }
  }

  /** allocuvm from the process's size: it panics nowhere, and either every new page is a
      zeroed page that was free and that user mode may read and write, or it returns 0 with all mappings as before. It succeeds exactly
      when there are enough free pages for the new pages and their absent tables. */
  lemma {:induction false} AllocuvmOk(m: Mem, owner: map<nat, Place>, d: nat, oldsz: nat, newsz: nat) returns (w: map<nat, Place>)
    requires Owned(m, owner) && Live(owner, d)
    requires oldsz <= newsz < KERNBASE ==> Unmapped(m, d, PagesUp(oldsz), PagesUp(newsz))
    ensures d < NPAGES
    ensures var r, lo, hi := Allocuvm(m, d, oldsz, newsz), PagesUp(oldsz), PagesUp(newsz);
            && r.Size? && Owned(r.mem, w) && SameData(m, r.mem, owner)
            && (newsz >= KERNBASE ==> r == Size(m, 0) && w == owner)
            && (newsz < KERNBASE && newsz < oldsz ==> r == Size(m, oldsz) && w == owner)
            && (oldsz <= newsz < KERNBASE ==> (r.sz == newsz <==> GrowNeed(m, d, lo, hi) <= |m.free|))
            && (oldsz <= newsz < KERNBASE && r.sz == newsz ==>
                  && Took(owner, w, d, lo, hi, None) && Beside(m, r.mem, owner, d, lo, hi)
                  && (forall y: nat | lo <= y < hi :: Fresh(r.mem, w, owner, d, y, ZeroPage(), 7))
                  && forall y: nat | lo <= y < hi :: Allowed(r.mem, d, y) == Access(true, true))
            && (oldsz <= newsz < KERNBASE && r.sz != newsz ==>
                  r.sz == 0 && SameView(m, r.mem, owner) && Adds(owner, w, d))
  {
    hide Pte, Owned, GrowRange, GrowNeed, Kfree, DropRange, Fresh, Took, Adds;
    InMemory(m, owner, d);
    w := owner;
    if oldsz <= newsz < KERNBASE {
      var lo, hi := PagesUp(oldsz), PagesUp(newsz);
      GrowRangeCount(m, owner, d, lo, hi);
      if GrowRange(m, d, lo, hi).Short? {
        w := ShortRestores(m, owner, d, oldsz, newsz);
        assert newsz != 0 by { hide *; EmptyGrow(m, d, oldsz, newsz); }
      } else {
        var k;
        w, k := GrowRangeOk(m, owner, d, lo, hi);
        GrownRights(GrowRange(m, d, lo, hi).mem, w, owner, d, lo, hi);
      }
    }
  }

  lemma EmptyGrow(m: Mem, d: nat, oldsz: nat, newsz: nat)
    requires Shape(m) && d < NPAGES && oldsz <= newsz < KERNBASE && GrowRange(m, d, PagesUp(oldsz), PagesUp(newsz)).Short?
    ensures newsz > oldsz
  {
  }
}
