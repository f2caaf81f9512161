/** copyuvm (vm.c) on values. */
module VmCopy {
  import opened Disk
  import opened Options
  import opened VmMem
  import opened VmSteps
  import opened VmOps
  import opened VmCount
  import opened VmRights
  import opened VmKernel
  import opened VmUser
  import opened VmGrow

  /** The loop copying pages v..hi of directory d into directory c. */
  function CopyRange(m: Mem, d: nat, c: nat, v: nat, hi: nat): (r: Grow)
    requires Shape(m) && d < NPAGES && c < NPAGES && hi <= VPAGES
    ensures !r.Stuck? ==> Shape(r.mem)
    decreases hi - v
  {
    if v >= hi then Grown(m)
    else if !Present(Pte(m, d, v)) || Frame(Pte(m, d, v)) >= NPAGES then Grow.Stuck  // no table, or page not present
    else if m.free == [] then Short(m, None)
    else
      var p := m.free[0];
      match MapPage(Put(Kalloc(m), p, m.pages[Frame(Pte(m, d, v))]), c, v, p, Flags(Pte(m, d, v)))
      case Mapped(t) => CopyRange(t, d, c, v + 1, hi)
      case NoMem(t) => Short(t, Some(p))
      case Panic => Grow.Stuck
  }

  /** A copy; no directory; or out of memory part way, with the page that was in hand lost. */
  datatype Copy = Copied(mem: Mem, c: nat) | NoKvm(mem: Mem) | CopyFailed(mem: Mem, lost: Option<nat>) | CopyPanic

  function Copyuvm(m: Mem, d: nat, sz: nat): (r: Copy)
    requires Shape(m) && d < NPAGES && sz <= KERNBASE
    ensures !r.CopyPanic? ==> Shape(r.mem)
  {
    match Setupkvm(m)
    case Failed(t) => NoKvm(t)
    case Stuck => CopyPanic
    case Built(g, c) =>
      match CopyRange(g, d, c, 0, PagesUp(sz))
      case Stuck => CopyPanic
      case Grown(t) => Copied(t, c)
      case Short(t, spare) =>
        match Freevm(t, c)
        case None => CopyPanic
        case Some(u) => CopyFailed(u, spare)
  }

  /** Pages lo..hi of directory d are mapped. */
  ghost predicate AllMapped(m: Mem, d: nat, lo: nat, hi: nat) {
    && Shape(m) && d < NPAGES && hi <= VPAGES
    && forall y: nat | lo <= y < hi :: Present(Pte(m, d, y))
  }

  /** Page y of c is a private copy of page y of d: same flags, same contents, a page that was free. */
  ghost predicate CopyOf(m: Mem, t: Mem, w: map<nat, Place>, owner: map<nat, Place>, d: nat, c: nat, y: nat) {
    && Shape(m) && d < NPAGES && y < VPAGES && Frame(Pte(m, d, y)) < NPAGES
    && Fresh(t, w, owner, c, y, m.pages[Frame(Pte(m, d, y))], Flags(Pte(m, d, y)))
  }

  lemma MappedPage(m: Mem, owner: map<nat, Place>, d: nat, v: nat, hi: nat)
    requires Owned(m, owner) && Live(owner, d) && v < hi <= UPAGES && AllMapped(m, d, v, hi)
    ensures d < NPAGES && Present(Pte(m, d, v)) && Flags(Pte(m, d, v)) % 2 == 1
    ensures var q := Frame(Pte(m, d, v)); q in owner && owner[q] == Data(d, v) && q < NPAGES
  {
    hide Pte;
    OwnerOfPage(m, owner, d, v);
  }

  lemma StillMapped(m: Mem, t: Mem, owner: map<nat, Place>, d: nat, c: nat, v: nat, hi: nat, e: word)
    requires AllMapped(m, d, v, hi) && OneEntry(m, t, owner, c, v, e) && Live(owner, d) && c != d
    ensures AllMapped(t, d, v + 1, hi)
  {
    hide Pte;
  }

  /** A copy of what d maps after a step that touched only c is a copy of what d mapped before. */
  lemma {:induction false} CopyStill(m: Mem, t: Mem, z: Mem, w: map<nat, Place>, owner: map<nat, Place>, u: map<nat, Place>,
                                     d: nat, c: nat, v: nat, y: nat, e: word)
    requires CopyOf(t, z, w, u, d, c, y) && OneEntry(m, t, owner, c, v, e) && Live(owner, d) && c != d && d < NPAGES
    requires SameData(m, t, owner) && forall x | x in owner :: x in u
    requires Frame(Pte(m, d, y)) in owner && owner[Frame(Pte(m, d, y))].Data?
    ensures CopyOf(m, z, w, owner, d, c, y)
  {
    hide Pte, Fresh;
    assert Pte(t, d, y) == Pte(m, d, y);
    FreshStill(z, w, owner, u, c, y, m.pages[Frame(Pte(m, d, y))], Flags(Pte(m, d, y)));
  }

  lemma {:induction false} CopyRangeOk(m: Mem, owner: map<nat, Place>, d: nat, c: nat, v: nat, hi: nat) returns (w: map<nat, Place>, k: nat)
    requires Owned(m, owner) && Live(owner, d) && Live(owner, c) && c != d && v <= hi <= UPAGES
    requires AllMapped(m, d, v, hi) && Unmapped(m, c, v, hi)
    ensures var r := CopyRange(m, d, c, v, hi);
            && !r.Stuck? && Owned(r.mem, w) && SameData(m, r.mem, owner)
            && v <= k <= hi && (r.Grown? <==> k == hi)
            && Took(owner, w, c, v, hi, if r.Short? then r.spare else None)
            && Beside(m, r.mem, owner, c, v, k)
            && forall y: nat | v <= y < k :: CopyOf(m, r.mem, w, owner, d, c, y)
    decreases hi - v
  {
    hide Pte, Owned, MapPage, Fresh, Took, Adds, Beside, OneEntry, SameData, SameView, Unmapped, Kalloc, Put, CopyOf, AllMapped;
    w, k := owner, v;
    NothingTaken(m, owner, c, v, hi);
    Bounds(m, d, c, v, hi);
    if v < hi {
      MappedPage(m, owner, d, v, hi);
      if m.free != [] {
        UnmappedAt(m, c, v, hi);
        var s, perm, p := m.pages[Frame(Pte(m, d, v))], Flags(Pte(m, d, v)), m.free[0];
        w := PlaceOne(m, owner, c, v, s, perm);
        var o := MapPage(Put(Kalloc(m), p, s), c, v, p, perm);
        if o.Mapped? {
          var t, u, e := o.mem, w, Entry(p, WithP(perm));
          StillUnmapped(m, t, owner, c, v, hi, e);
          StillMapped(m, t, owner, d, c, v, hi, e);
          AddsLive(owner, u, c, v, p);
          w, k := CopyRangeOk(t, u, d, c, v + 1, hi);
          var r := CopyRange(m, d, c, v, hi);
          TookMore(owner, u, w, c, v, hi, if r.Short? then r.spare else None, p);
          PlaceThen(m, t, r.mem, owner, u, w, c, v, k, p, s, perm);
          assert CopyOf(m, r.mem, w, owner, d, c, v) by { CopyHere(m, r.mem, w, owner, d, c, v); }
          forall y: nat | v <= y < k ensures CopyOf(m, r.mem, w, owner, d, c, y) {
            if y > v {
              TailMapped(m, owner, d, v, y, hi);
              CopyStill(m, t, r.mem, w, owner, u, d, c, v, y, e);
            }
          }
        } else {
          SpareTaken(m, o.mem, owner, c, v, hi, p);
        }
      }
    }
  }

  lemma Bounds(m: Mem, d: nat, c: nat, v: nat, hi: nat)
    requires AllMapped(m, d, v, hi) && Unmapped(m, c, v, hi)
    ensures Shape(m) && d < NPAGES && c < NPAGES && hi <= VPAGES
  {
  }

  lemma CopyHere(m: Mem, t: Mem, w: map<nat, Place>, owner: map<nat, Place>, d: nat, c: nat, v: nat)
    requires Shape(m) && d < NPAGES && v < VPAGES && Frame(Pte(m, d, v)) < NPAGES
    requires Fresh(t, w, owner, c, v, m.pages[Frame(Pte(m, d, v))], Flags(Pte(m, d, v)))
    ensures CopyOf(m, t, w, owner, d, c, v)
  {
  }

  lemma TailMapped(m: Mem, owner: map<nat, Place>, d: nat, v: nat, y: nat, hi: nat)
    requires Owned(m, owner) && Live(owner, d) && v <= y < hi <= UPAGES && AllMapped(m, d, v, hi)
    ensures d < NPAGES
    ensures var q := Frame(Pte(m, d, y)); q in owner && owner[q].Data? && q < NPAGES
  {
    hide Pte;
    assert AllMapped(m, d, y, hi);
    MappedPage(m, owner, d, y, hi);
  }

  // ---- how many pages it takes ----

  /** Pages that v copied pages take, their tables included. */
  function CopyCost(v: nat): (n: nat) {
    v + TablesUp(v)
  }

  /** With g pages in all, the loop over n pages gets a page to copy into and no table for it. */
  predicate StopsInMap(g: int, n: nat): (b: bool)
    ensures b ==> g >= 1
  {
    g >= 1 && (g - 1) % 1025 == 0 && (g - 1) / 1025 * 1024 < n
  }

  lemma CostIs(v: nat)
    ensures CopyCost(v) == 1025 * (v / 1024) + if v % 1024 == 0 then 0 else v % 1024 + 1
  {
  }

  lemma CostGrows(v: nat, hi: nat)
    requires v < hi
    ensures CopyCost(v + 1) == CopyCost(v) + if v % 1024 == 0 then 2 else 1
    ensures CopyCost(v + 1) <= CopyCost(hi)
  {
  }

  /** With nothing left the loop does not stop in mappages; with one page left it does where a
      table starts. */
  lemma StopHere(v: nat, hi: nat)
    requires v < hi
    ensures !StopsInMap(CopyCost(v), hi)
    ensures v % 1024 == 0 ==> StopsInMap(CopyCost(v) + 1, hi)
  {
    hide CopyCost;
    CostIs(v);
    var k, r := v / 1024, v % 1024;
    if r == 0 {
      assert CopyCost(v) == 1025 * k;
      assert (1025 * k + 1 - 1) % 1025 == 0 && (1025 * k + 1 - 1) / 1025 == k;
      assert k > 0 ==> (1025 * k - 1) % 1025 == 1024;
    } else {
      assert CopyCost(v) - 1 == 1025 * k + r;
      assert (1025 * k + r) % 1025 == r;
    }
  }

  lemma NoStop(g: nat, v: nat)
    requires g >= CopyCost(v)
    ensures !StopsInMap(g, v)
  {
    if g >= 1 && (g - 1) % 1025 == 0 {
      var k := (g - 1) / 1025;
      assert g == 1025 * k + 1;
      CostIs(v);
      assert v <= 1024 * k;
    }
  }

  /** The user part of directory c has tables for pages below v only. */
  ghost predicate UserTables(m: Mem, c: nat, v: nat) {
    && Shape(m) && c < NPAGES
    && forall i | 0 <= i < 512 :: Present(m.pages[c][i]) <==> i < TablesUp(v)
  }

  lemma UserTablesNext(m: Mem, t: Mem, c: nat, v: nat)
    requires UserTables(m, c, v) && v < UPAGES && Shape(t) && Present(t.pages[c][v / NENTRIES])
    requires forall k | 0 <= k < NENTRIES && k != v / NENTRIES :: t.pages[c][k] == m.pages[c][k]
    ensures UserTables(t, c, v + 1) && (Present(m.pages[c][v / NENTRIES]) <==> v % 1024 != 0)
  {
    hide Present;
    forall i | 0 <= i < 512 ensures Present(t.pages[c][i]) <==> i < TablesUp(v + 1) {
      if i != v / NENTRIES {
        assert t.pages[c][i] == m.pages[c][i];
      }
    }
  }

  lemma UserTableAt(m: Mem, c: nat, v: nat)
    requires UserTables(m, c, v) && v < UPAGES
    ensures Present(m.pages[c][v / NENTRIES]) <==> v % 1024 != 0
  {
    hide Present;
  }

  /** The loop finishes exactly with enough pages, and ends with a page in hand exactly when the
      last free page went to a copy whose table is missing. */
  lemma {:induction false} CopyRangeCount(m: Mem, owner: map<nat, Place>, d: nat, c: nat, v: nat, hi: nat)
    requires Owned(m, owner) && Live(owner, d) && Live(owner, c) && c != d && v <= hi <= UPAGES && d < NPAGES
    requires AllMapped(m, d, v, hi) && Unmapped(m, c, v, hi) && UserTables(m, c, v)
    ensures var r, g := CopyRange(m, d, c, v, hi), |m.free| + CopyCost(v);
            && (r.Grown? <==> g >= CopyCost(hi))
            && (r.Short? && r.spare.Some? <==> StopsInMap(g, hi))
            && (r.Short? && r.spare.Some? ==> m.free != [] && r.spare.value == m.free[|m.free| - 1])
    decreases hi - v
  {
    hide Pte, Owned, MapPage, Adds, OneEntry, SameData, SameView, Unmapped, Kalloc, Put, AllMapped, UserTables, StopsInMap, CopyCost, Present;
    Bounds(m, d, c, v, hi);
    if v == hi {
      NoStop(|m.free| + CopyCost(v), v);
    } else {
      CostGrows(v, hi);
      StopHere(v, hi);
      MappedPage(m, owner, d, v, hi);
      UserTableAt(m, c, v);
      if m.free != [] {
        UnmappedAt(m, c, v, hi);
        var s, perm, p := m.pages[Frame(Pte(m, d, v))], Flags(Pte(m, d, v)), m.free[0];
        PlaceCount(m, owner, c, v, s, perm);
        var o := MapPage(Put(Kalloc(m), p, s), c, v, p, perm);
        if o.Mapped? {
          var w := PlaceOne(m, owner, c, v, s, perm);
          var t, e := o.mem, Entry(p, WithP(perm));
          StillUnmapped(m, t, owner, c, v, hi, e);
          StillMapped(m, t, owner, d, c, v, hi, e);
          AddsLive(owner, w, c, v, p);
          UserTablesNext(m, t, c, v);
          CopyRangeCount(t, w, d, c, v + 1, hi);
        }
      }
    }
  }

  // ---- copyuvm ----

  /** w is owner with pages of directory c. */
  ghost predicate AddsSpace(owner: map<nat, Place>, w: map<nat, Place>, c: nat) {
    && (forall p | p in owner :: p in w && w[p] == owner[p])
    && forall p | p in w && p !in owner :: !w[p].Held? && w[p].d == c
  }

  lemma SpaceAdded(owner: map<nat, Place>, u: map<nat, Place>, w: map<nat, Place>, c: nat, hi: nat, spare: Option<nat>)
    requires c !in owner && Adds(owner[c := Root(c)], u, c) && Took(u, w, c, 0, hi, spare)
    ensures Live(u, c) && Live(w, c) && forall p | p in owner :: p in u && u[p] == owner[p] && p in w && w[p] == owner[p]
    ensures spare.None? ==> AddsSpace(owner, w, c)
  {
    var a := owner[c := Root(c)];
    assert forall p | p in owner :: p in a && a[p] == owner[p];
    assert c in a && u[c] == Root(c);
  }

  /** Freeing the half-made copy leaves what there was, and the page in hand. */
  lemma {:induction false} SpaceGone(m: Mem, owner: map<nat, Place>, u: map<nat, Place>, w: map<nat, Place>, c: nat, hi: nat, spare: Option<nat>)
    requires Owned(m, owner) && c !in owner && Adds(owner[c := Root(c)], u, c) && Took(u, w, c, 0, hi, spare)
    ensures spare.Some? ==> spare.value !in owner
    ensures Gone(w, c) == if spare.None? then owner else owner[spare.value := Held]
  {
    hide At;
    SpaceAdded(owner, u, w, c, hi, spare);
    var a := owner[c := Root(c)];
    forall p | p in owner && !owner[p].Held? ensures owner[p].d != c {
      assert Live(owner, owner[p].d);
    }
    forall p | p in w && p !in owner ensures p in Gone(w, c) <==> spare == Some(p) {
      assert p in u ==> p in a || u[p].Table?;
    }
  }

  lemma {:induction false} CopyFrom(m: Mem, g: Mem, t: Mem, owner: map<nat, Place>, u: map<nat, Place>, w: map<nat, Place>, d: nat, c: nat, hi: nat)
    requires Owned(m, owner) && Live(owner, d) && hi <= UPAGES && AllMapped(m, d, 0, hi)
    requires SameView(m, g, owner) && SameData(m, g, owner) && forall p | p in owner :: p in u
    requires forall y: nat | y < hi :: CopyOf(g, t, w, u, d, c, y)
    ensures forall y: nat | y < hi :: CopyOf(m, t, w, owner, d, c, y)
  {
    hide Owned, Pte, Fresh;
    forall y: nat | y < hi ensures CopyOf(m, t, w, owner, d, c, y) {
      TailMapped(m, owner, d, 0, y, hi);
      assert Pte(g, d, y) == Pte(m, d, y);
      assert CopyOf(g, t, w, u, d, c, y);
      FreshStill(t, w, owner, u, c, y, m.pages[Frame(Pte(m, d, y))], Flags(Pte(m, d, y)));
    }
  }

  lemma {:induction false} NewSpace(m: Mem, g: Mem, owner: map<nat, Place>, d: nat, c: nat, hi: nat)
    requires SameView(m, g, owner) && AllMapped(m, d, 0, hi) && Live(owner, d) && hi <= UPAGES && c < NPAGES
    requires forall y: nat | y < VPAGES :: Pte(g, c, y) == KernelPte(m.lay, y)
    ensures AllMapped(g, d, 0, hi) && Unmapped(g, c, 0, hi)
  {
    hide Pte, KernelPte;
    forall y: nat | y < hi ensures Pte(g, c, y) == 0 {
      KernelPart(m.lay, y);
    }
  }

  lemma NoUserTables(g: Mem, c: nat)
    requires TablesUpTo(g, c, 4)
    ensures UserTables(g, c, 0) && CopyCost(0) == 0
  {
    hide Present;
  }

  lemma {:induction false} FailedCopy(m: Mem, owner: map<nat, Place>, g: Mem, u: map<nat, Place>, t: Mem, w: map<nat, Place>, c: nat, hi: nat, spare: Option<nat>)
    requires Owned(m, owner) && c !in owner && Adds(owner[c := Root(c)], u, c) && Took(u, w, c, 0, hi, spare)
    requires SameView(m, g, owner) && SameData(m, g, owner) && c < NPAGES
    requires Owned(t, w) && Beside(g, t, u, c, 0, hi) && SameData(g, t, u)
    ensures var r, left := Freevm(t, c), if spare.None? then owner else owner[spare.value := Held];
            && (spare.Some? ==> spare.value !in owner)
            && r.Some? && Owned(r.value, left) && SameView(m, r.value, owner) && SameData(m, r.value, owner)
  {
    hide Pte, Owned, Freevm;
    SpaceAdded(owner, u, w, c, hi, spare);
    FreevmOk(t, w, c);
    SpaceGone(m, owner, u, w, c, hi, spare);
    var z, left := Freevm(t, c).value, Gone(w, c);
    assert forall p | p in owner :: p in left && left[p] == owner[p];
    assert forall x: nat | Live(owner, x) :: Live(u, x) && Live(left, x) && x != c;
    assert SameView(g, t, owner);
    ViewThen(m, g, t, owner, owner);
    ViewThen(m, t, z, owner, left);
  }

  lemma Widen(s: Mem, t: Mem, owner: map<nat, Place>, c: nat, k: nat, hi: nat)
    requires Beside(s, t, owner, c, 0, k) && k <= hi
    ensures Beside(s, t, owner, c, 0, hi)
  {
    hide Pte;
  }

  lemma {:induction false} GoodCopy(m: Mem, g: Mem, t: Mem, owner: map<nat, Place>, u: map<nat, Place>, c: nat, hi: nat)
    requires SameView(m, g, owner) && SameData(m, g, owner) && c !in owner && c < NPAGES && Live(u, c)
    requires Beside(g, t, u, c, 0, hi) && SameData(g, t, u) && forall p | p in owner :: p in u && u[p] == owner[p]
    requires forall y: nat | y < VPAGES :: Pte(g, c, y) == KernelPte(m.lay, y)
    ensures SameView(m, t, owner) && SameData(m, t, owner)
    ensures forall y: nat | hi <= y < VPAGES :: Pte(t, c, y) == KernelPte(m.lay, y)
  {
    hide Pte, KernelPte;
    assert forall x: nat | Live(owner, x) :: Live(u, x) && x != c;
    assert SameView(g, t, owner);
    ViewThen(m, g, t, owner, owner);
    forall y: nat | hi <= y < VPAGES ensures Pte(t, c, y) == KernelPte(m.lay, y) {
      assert Pte(t, c, y) == Pte(g, c, y);
    }
  }

  lemma {:induction false} CopiedRights(m: Mem, owner: map<nat, Place>, t: Mem, w: map<nat, Place>, d: nat, c: nat, hi: nat)
    requires Owned(m, owner) && Live(owner, d) && d < NPAGES && Owned(t, w) && Live(w, c) && c < NPAGES && hi <= UPAGES
    requires forall y: nat | y < hi :: CopyOf(m, t, w, owner, d, c, y)
    ensures forall y: nat | y < hi :: Allowed(t, c, y) == Allowed(m, d, y)
  {
    hide Owned, Pte, Allowed, Grants;
    RightsOfAll(m, owner, d);
    RightsOfAll(t, w, c);
    forall y: nat | y < hi ensures Allowed(t, c, y) == Allowed(m, d, y) {
      assert CopyOf(m, t, w, owner, d, c, y);
      SameFlags(Pte(t, c, y), Pte(m, d, y));
    }
  }

  /** copyuvm panics nowhere for a process whose pages are all mapped. A copy has equal flags,
      equal rights and equal contents on pages that were free, and otherwise just the kernel part. It succeeds
      exactly with enough free pages. With fewer than 65 it keeps all of them; short of that in
      the loop it gives everything back, except that the last free page is lost when it went to
      a copy whose table is missing. No other mapping or page changes. */
  lemma {:induction false} CopyuvmOk(m: Mem, owner: map<nat, Place>, d: nat, sz: nat) returns (w: map<nat, Place>)
    requires Owned(m, owner) && Live(owner, d) && sz <= KERNBASE && AllMapped(m, d, 0, PagesUp(sz))
    ensures d < NPAGES
    ensures var r, hi := Copyuvm(m, d, sz), PagesUp(sz);
            && !r.CopyPanic? && Owned(r.mem, w) && SameView(m, r.mem, owner) && SameData(m, r.mem, owner)
            && (r.NoKvm? <==> |m.free| < DIRPAGES)
            && (r.Copied? <==> |m.free| >= DIRPAGES + CopyCost(hi))
            && (r.CopyFailed? && r.lost.Some? <==> StopsInMap(|m.free| - DIRPAGES, hi))
            && (r.Copied? ==>
                  && r.c !in owner && r.c < NPAGES && Live(w, r.c) && AddsSpace(owner, w, r.c)
                  && (forall y: nat | y < hi :: CopyOf(m, r.mem, w, owner, d, r.c, y))
                  && (forall y: nat | y < hi :: Allowed(r.mem, r.c, y) == Allowed(m, d, y))
                  && forall y: nat | hi <= y < VPAGES :: Pte(r.mem, r.c, y) == KernelPte(m.lay, y))
            && (r.CopyFailed? ==>
                  && (r.lost.Some? ==> r.lost.value !in owner && r.lost.value == m.free[|m.free| - 1])
                  && w == if r.lost.None? then owner else owner[r.lost.value := Held])
            && (r.NoKvm? ==> r.mem.free == [] &&
                             if m.free == [] then w == owner && r.mem == m
                             else m.free[0] !in owner && Adds(owner[m.free[0] := Root(m.free[0])], w, m.free[0]))
  {
    hide Pte, Owned, Setupkvm, CopyRange, Freevm, CopyOf, Took, AllMapped, KernelPte, Beside, SameData, SameView, TablesUpTo, StopsInMap, CopyCost;
    InMemory(m, owner, d);
    var hi := PagesUp(sz);
    w := SetupkvmOk(m, owner);
    var s := Setupkvm(m);
    if s.Built? {
      var g, c, u := s.mem, s.d, w;
      var a := owner[c := Root(c)];
      assert c in a && forall p | p in owner :: p in a && a[p] == owner[p];
      NewSpace(m, g, owner, d, c, hi);
      var k;
      w, k := CopyRangeOk(g, u, d, c, 0, hi);
      NoUserTables(g, c);
      CopyRangeCount(g, u, d, c, 0, hi);
      var r := CopyRange(g, d, c, 0, hi);
      var spare := if r.Short? then r.spare else None;
      Widen(g, r.mem, u, c, k, hi);
      SpaceAdded(owner, u, w, c, hi, spare);
      if r.Grown? {
        CopyFrom(m, g, r.mem, owner, u, w, d, c, hi);
        GoodCopy(m, g, r.mem, owner, u, c, hi);
        CopiedRights(m, owner, r.mem, w, d, c, hi);
      } else {
        FailedCopy(m, owner, g, u, r.mem, w, c, hi, spare);
        w := if spare.None? then owner else owner[spare.value := Held];
      }
    }
  }
}
