/** vm.c as code over physical memory. The free list is a sequence here; KallocCode threads it
    through the pages. An `ok` result of false is a panic; after it nothing is promised. */
module VmCode {
  import opened Disk
  import opened Options
  import opened VmMem
  import opened VmSteps
  import O = VmOps
  import K = VmKernel
  import U = VmUser
  import G = VmGrow
  import C = VmCopy
  import R = VmRights

  class Machine {
    const lay: Layout
    var pages: seq<Page>
    var free: seq<nat>

    function Value(): Mem
      reads this
    {
      Mem(lay, pages, free)
    }

    constructor (m: Mem)
      ensures Value() == m
    {
      lay, pages, free := m.lay, m.pages, m.free;
    }

    /** A free page, or -1. */
    method Kalloc() returns (p: int)
      requires Shape(Value())
      modifies `free
      ensures p == -1 <==> old(free) == []
      ensures p == -1 ==> Value() == old(Value())
      ensures p != -1 ==> p == old(free)[0] && 0 <= p < NPAGES && Value() == VmSteps.Kalloc(old(Value()))
    {
      p := -1;
      if |free| != 0 {
        p := free[0];
        free := free[1..];
      }
    }

    method Kfree(p: nat) returns (ok: bool)
      requires Shape(Value())
      modifies this
      ensures ok == Managed(old(Value()), p)
      ensures Value() == if ok then VmSteps.Kfree(old(Value()), p) else old(Value())
    {
      if p < lay.first || p >= NPAGES {
        return false;
      }
      var next := if |free| == 0 then 0 else KERNBASE + free[0] * 4096;
      pages, free := pages[p := Junk(next)], [p] + free;
      ok := true;
    }

    /** memset or memmove of a whole page. */
    method Fill(p: nat, s: Page)
      requires Shape(Value()) && p < NPAGES
      modifies `pages
      ensures Value() == Put(old(Value()), p, s)
    {
      pages := pages[p := s];
    }

    /** The page of the table for the address a, or -1. */
    method Walkpgdir(d: nat, a: nat, alloc: bool) returns (t: int)
      requires Shape(Value()) && d < NPAGES && a / 4096 < VPAGES
      modifies this
      ensures Shape(Value())
      ensures !alloc ==> Value() == old(Value())
      ensures !alloc && t == -1 ==> !Present(pages[d][a / 4096 / NENTRIES])
      ensures alloc ==> O.Walk(old(Value()), d, a / 4096) == if t == -1 then O.NoMem(Value()) else O.Mapped(Value())
      ensures t != -1 ==> Present(pages[d][a / 4096 / NENTRIES]) && t == Frame(pages[d][a / 4096 / NENTRIES])
      ensures alloc ==> (t == -1 <==> old(free) == [] && !Present(old(pages)[d][a / 4096 / NENTRIES]))
      ensures Present(old(pages)[d][a / 4096 / NENTRIES]) ==> Value() == old(Value())
      ensures alloc && t != -1 && !Present(old(pages)[d][a / 4096 / NENTRIES]) ==>
                && t == old(free)[0] && Flags(pages[d][a / 4096 / NENTRIES]) == 7
                && (t != d ==> O.NewTable(old(Value()), Value(), d, a / 4096 / NENTRIES))
    {
      var i := a / 0x400000;
      assert i == a / 4096 / NENTRIES;
      if Present(pages[d][i]) {
        t := Frame(pages[d][i]);
      } else {
        if !alloc {
          return -1;
        }
        t := Kalloc();
        if t == -1 {
          return -1;
        }
        Fill(t, ZeroPage());
        Fill(d, pages[d][i := Entry(t, 7)]);
      }
    }

    /** mappages: 0 or -1. */
    method Mappages(d: nat, va: nat, size: nat, pa: nat, perm: nat) returns (ok: bool, r: int)
      requires Shape(Value()) && d < NPAGES && size > 0 && va + size <= VPAGES * 4096 && perm < 4096 && pa % 4096 == 0
      requires pa / 4096 + Span(va, size) <= FRAMES
      modifies this
      ensures var spec := O.MapRange(old(Value()), d, va / 4096, Span(va, size), pa / 4096, perm);
              && ok == !spec.Panic?
              && (ok ==> spec == if r == 0 then O.Mapped(Value()) else O.NoMem(Value()))
      ensures ok ==> Shape(Value()) && (r == 0 || r == -1)
    {
      hide O.MapRange, O.MapPage;
      var a: nat, last: nat, p: nat := va / 4096 * 4096, (va + size - 1) / 4096 * 4096, pa;
      ghost var n := Span(va, size);
      while true
        invariant a % 4096 == 0 && p % 4096 == 0 && a <= last && Shape(Value())
        invariant n == (last - a) / 4096 + 1 && last % 4096 == 0 && last / 4096 < VPAGES && p / 4096 + n <= FRAMES
        invariant O.MapRange(old(Value()), d, va / 4096, Span(va, size), pa / 4096, perm) == O.MapRange(Value(), d, a / 4096, n, p / 4096, perm)
        decreases n
      {
        NextPages(a, last, p);
        MapTurn(Value(), d, a / 4096, n, p / 4096, perm);
        ok, r := MapOne(d, a, p, perm);
        if !ok || r == -1 {
          return;
        }
        if a == last {
          MapEnd(Value(), d, a / 4096 + 1, p / 4096 + 1, perm);
          return;
        }
        a, p, n := a + 4096, p + 4096, n - 1;
      }
    }

    /** The loop body of mappages. */
    method MapOne(d: nat, a: nat, p: nat, perm: nat) returns (ok: bool, r: int)
      requires Shape(Value()) && d < NPAGES && a / 4096 < VPAGES && p / 4096 < FRAMES && perm < 4096
      modifies this
      ensures var spec := O.MapPage(old(Value()), d, a / 4096, p / 4096, perm);
              && ok == !spec.Panic?
              && (ok ==> (r == 0 || r == -1) && spec == if r == 0 then O.Mapped(Value()) else O.NoMem(Value()))
      ensures ok ==> Shape(Value())
    {
      hide O.Walk;
      var t := Walkpgdir(d, a, true);
      if t == -1 {
        return true, -1;
      }
      var j := a / 4096 % NENTRIES;
      if t >= NPAGES || Present(pages[t][j]) {
        return false, -1;
      }
      Fill(t, pages[t][j := Entry(p / 4096, O.WithP(perm))]);
      return true, 0;
    }

    /** The new directory, or -1. */
    method Setupkvm() returns (ok: bool, d: int)
      requires Shape(Value())
      modifies this
      ensures ok == !K.Setupkvm(old(Value())).Stuck?
      ensures ok && d == -1 ==> K.Setupkvm(old(Value())) == K.Failed(Value())
      ensures ok && d != -1 ==> 0 <= d < NPAGES && K.Setupkvm(old(Value())) == K.Built(Value(), d)
    {
      hide O.MapRange;
      ok := true;
      d := Kalloc();
      if d == -1 {
        return;
      }
      Fill(d, ZeroPage());
      ghost var z := Value();
      var kmap, k := K.Kmap(lay), 0;
      while k < 4
        invariant 0 <= k <= 4 && Shape(Value()) && K.MapAll(z, d, 0) == K.MapAll(Value(), d, k)
      {
        var e, r := kmap[k], 0;
        SpanOf(e.v, e.n);
        ok, r := Mappages(d, e.v * 4096, e.n * 4096, e.frame * 4096, e.perm);
        if !ok {
          return false, -1;
        }
        if r < 0 {
          return true, -1;
        }
        k := k + 1;
      }
    }

    /** clearpteu of the page at address a. */
    method Clearpteu(d: nat, a: nat) returns (ok: bool)
      requires Shape(Value()) && d < NPAGES && a / 4096 < VPAGES
      modifies this
      ensures R.Clearpteu(old(Value()), d, a / 4096) == if ok then Some(Value()) else None
    {
      var t := Walkpgdir(d, a, false);
      if t == -1 || t >= NPAGES {
        return false;
      }
      var k := a / 4096 % NENTRIES;
      Fill(t, pages[t][k := R.WithoutU(pages[t][k])]);
      ok := true;
    }

    /** deallocuvm, jumping over absent tables: what the page-by-page scan does. */
    method Deallocuvm(d: nat, oldsz: nat, newsz: nat) returns (ok: bool, r: nat)
      requires Shape(Value()) && d < NPAGES && oldsz <= KERNBASE
      modifies this
      ensures G.Deallocuvm(old(Value()), d, oldsz, newsz) == if ok then Some(Value()) else None
      ensures ok ==> r == if newsz < oldsz then newsz else oldsz
    {
      if newsz >= oldsz {
        return true, oldsz;
      }
      hide U.DropRange;
      ghost var lo, hi := U.PagesUp(newsz), U.PagesUp(oldsz);
      var a: nat := (newsz + 4095) / 4096 * 4096;
      while a < oldsz
        invariant a % 4096 == 0 && Shape(Value())
        invariant U.DropRange(old(Value()), d, lo, hi) == U.DropRange(Value(), d, a / 4096, hi)
      {
        PageBelow(a, oldsz);
        ok, a := DropTurn(d, a, hi);
        if !ok {
          return false, 0;
        }
        a := a + 4096;
      }
      PageBelow(a, oldsz);
      ScanEnd(Value(), d, a / 4096, hi);
      return true, newsz;
    }

    /** The loop body of deallocuvm: b is the address after it, one page short where it jumped. */
    method DropTurn(d: nat, a: nat, ghost hi: nat) returns (ok: bool, b: nat)
      requires Shape(Value()) && d < NPAGES && a % 4096 == 0 && a / 4096 < hi <= UPAGES
      modifies this
      ensures ok ==> Shape(Value()) && b % 4096 == 0 && a <= b
      ensures U.DropRange(old(Value()), d, a / 4096, hi) == if ok then U.DropRange(Value(), d, (b + 4096) / 4096, hi) else None
    {
      hide U.DropRange, U.Drop;
      ok, b := true, a;
      var t := Walkpgdir(d, a, false);
      if t == -1 {
        U.JumpIsScan(Value(), d, a / 4096, hi);
        JumpTo(a);
        b := (a / 0x400000 + 1) * 0x400000 - 4096;
      } else {
        ScanOne(Value(), d, a / 4096, hi);
        ok := Unmap(d, a, t);
      }
    }

    /** The loop body of deallocuvm for an address whose table is t. */
    method Unmap(d: nat, a: nat, t: nat) returns (ok: bool)
      requires Shape(Value()) && d < NPAGES && a / 4096 < VPAGES
      requires Present(pages[d][a / 4096 / NENTRIES]) && t == Frame(pages[d][a / 4096 / NENTRIES])
      modifies this
      ensures U.Drop(old(Value()), d, a / 4096) == if ok then Some(Value()) else None
      ensures ok ==> Shape(Value())
    {
      hide VmSteps.Kfree;
      ok := true;
      if t < NPAGES && Present(pages[t][a / 4096 % NENTRIES]) {
        ok := Kfree(Frame(pages[t][a / 4096 % NENTRIES]));
        if ok {
          Fill(t, pages[t][a / 4096 % NENTRIES := 0]);
        }
      }
    }

    method Freevm(d: nat) returns (ok: bool)
      requires Shape(Value()) && d < NPAGES
      modifies this
      ensures U.Freevm(old(Value()), d) == if ok then Some(Value()) else None
    {
      hide U.DropRange, VmSteps.Kfree;
      var r;
      ok, r := Deallocuvm(d, KERNBASE, 0);
      if !ok {
        return;
      }
      ghost var g := Value();
      var i := 0;
      while i < NENTRIES
        invariant 0 <= i <= NENTRIES && Shape(Value()) && U.FreeTables(g, d, 0) == U.FreeTables(Value(), d, i)
      {
        if Present(pages[d][i]) {
          ok := Kfree(Frame(pages[d][i]));
          if !ok {
            return;
          }
        }
        i := i + 1;
      }
      ok := Kfree(d);
    }

    method Allocuvm(d: nat, oldsz: nat, newsz: nat) returns (ok: bool, r: nat)
      requires Shape(Value()) && d < NPAGES
      modifies this
      ensures G.Allocuvm(old(Value()), d, oldsz, newsz) == if ok then G.Size(Value(), r) else G.AllocPanic
    {
      hide O.MapRange, O.MapPage, VmSteps.Kfree, VmSteps.Kalloc, Put, ZeroPage, G.Deallocuvm, G.GrowRange;
      if newsz >= KERNBASE {
        return true, 0;
      }
      if newsz < oldsz {
        return true, oldsz;
      }
      ghost var lo, hi := U.PagesUp(oldsz), U.PagesUp(newsz);
      var a: nat := (oldsz + 4095) / 4096 * 4096;
      while a < newsz
        invariant a % 4096 == 0 && Shape(Value())
        invariant G.GrowRange(old(Value()), d, lo, hi) == G.GrowRange(Value(), d, a / 4096, hi)
      {
        PageBelow(a, newsz);
        GrowTurn(Value(), d, a / 4096, hi);
        var mem := Kalloc();
        if mem == -1 {
          ok, r := Deallocuvm(d, newsz, oldsz);
          return ok, 0;
        }
        Fill(mem, ZeroPage());
        var n;
        OnePage(Value(), d, a, mem, 6);
        ok, n := Mappages(d, a, 4096, mem * 4096, 6);
        if !ok {
          return false, 0;
        }
        if n < 0 {
          ok, r := Deallocuvm(d, newsz, oldsz);
          if ok {
            ok := Kfree(mem);
          }
          return ok, 0;
        }
        a := a + 4096;
      }
      PageBelow(a, newsz);
      GrowEnd(Value(), d, a / 4096, hi);
      return true, newsz;
    }

    /** The copy's directory, or -1. */
    method Copyuvm(d: nat, sz: nat) returns (ok: bool, c: int)
      requires Shape(Value()) && d < NPAGES && sz <= KERNBASE
      modifies this
      ensures ok == !C.Copyuvm(old(Value()), d, sz).CopyPanic?
      ensures ok ==> match C.Copyuvm(old(Value()), d, sz)
                     case Copied(t, e) => Value() == t && c == e
                     case NoKvm(t) => Value() == t && c == -1
                     case CopyFailed(t, _) => Value() == t && c == -1
                     case CopyPanic => true
    {
      hide O.MapRange, O.MapPage, VmSteps.Kfree, VmSteps.Kalloc, Put, K.Setupkvm, U.Freevm, C.CopyRange, Pte;
      ok, c := Setupkvm();
      if !ok || c == -1 {
        return;
      }
      ghost var g, hi := Value(), U.PagesUp(sz);
      var i: nat := 0;
      while i < sz
        invariant i % 4096 == 0 && Shape(Value())
        invariant C.CopyRange(g, d, c, 0, hi) == C.CopyRange(Value(), d, c, i / 4096, hi)
      {
        PageBelow(i, sz);
        CopyTurn(Value(), d, c, i / 4096, hi);
        var t := Walkpgdir(d, i, false);
        PteOf(Value(), d, i / 4096);
        if t == -1 || t >= NPAGES {
          return false, -1;
        }
        var pte := pages[t][i / 4096 % NENTRIES];
        if !Present(pte) || Frame(pte) >= NPAGES {
          return false, -1;
        }
        var mem := Kalloc();
        if mem == -1 {
          ok := Freevm(c);
          return ok, -1;
        }
        Fill(mem, pages[Frame(pte)]);
        var n;
        OnePage(Value(), c, i, mem, Flags(pte));
        ok, n := Mappages(c, i, 4096, mem * 4096, Flags(pte));
        if !ok {
          return false, -1;
        }
        if n < 0 {
          ok := Freevm(c);
          return ok, -1;
        }
        i := i + 4096;
      }
      PageBelow(i, sz);
      CopyEnd(Value(), d, c, i / 4096, hi);
      ok := true;
    }
  }

  // ---- one turn of each loop ----

  lemma PageBelow(a: nat, sz: nat)
    requires a % 4096 == 0
    ensures a < sz <==> a / 4096 < U.PagesUp(sz)
    ensures (a + 4096) / 4096 == a / 4096 + 1
    ensures sz <= KERNBASE ==> U.PagesUp(sz) <= UPAGES
  {
  }

  lemma JumpTo(a: nat)
    requires a % 4096 == 0 && a < KERNBASE
    ensures var b := (a / 0x400000 + 1) * 0x400000;
            b % 4096 == 0 && 4096 <= b <= KERNBASE && b / 4096 == (a / 4096 / NENTRIES + 1) * NENTRIES
  {
    assert a / 0x400000 == a / 4096 / NENTRIES;
  }

  lemma NextPages(a: nat, last: nat, p: nat)
    requires a % 4096 == 0 && p % 4096 == 0 && last % 4096 == 0 && a <= last
    ensures (a + 4096) / 4096 == a / 4096 + 1 && (p + 4096) / 4096 == p / 4096 + 1
    ensures a < last ==> a + 4096 <= last && (last - (a + 4096)) / 4096 == (last - a) / 4096 - 1
    ensures a / 4096 + (last - a) / 4096 == last / 4096
  {
  }

  lemma MapTurn(m: Mem, d: nat, v: nat, n: nat, frame: nat, perm: nat)
    requires Shape(m) && d < NPAGES && 0 < n && v + n <= VPAGES && frame + n <= FRAMES && perm < 4096
    ensures var r := O.MapPage(m, d, v, frame, perm);
            O.MapRange(m, d, v, n, frame, perm) == if r.Mapped? then O.MapRange(r.mem, d, v + 1, n - 1, frame + 1, perm) else r
  {
    hide O.MapPage;
  }

  lemma MapEnd(m: Mem, d: nat, v: nat, frame: nat, perm: nat)
    requires Shape(m) && d < NPAGES && v <= VPAGES && frame <= FRAMES && perm < 4096
    ensures O.MapRange(m, d, v, 0, frame, perm) == O.Mapped(m)
  {
  }

  lemma ScanOne(m: Mem, d: nat, v: nat, hi: nat)
    requires Shape(m) && d < NPAGES && v < hi <= VPAGES
    ensures U.DropRange(m, d, v, hi) == match U.Drop(m, d, v)
                                        case None => None
                                        case Some(g) => U.DropRange(g, d, v + 1, hi)
  {
    hide U.Drop;
  }

  lemma ScanEnd(m: Mem, d: nat, v: nat, hi: nat)
    requires Shape(m) && d < NPAGES && hi <= VPAGES && v >= hi
    ensures U.DropRange(m, d, v, hi) == Some(m)
  {
  }

  lemma GrowTurn(m: Mem, d: nat, v: nat, hi: nat)
    requires Shape(m) && d < NPAGES && v < hi <= VPAGES
    ensures G.GrowRange(m, d, v, hi) ==
            if m.free == [] then G.Short(m, None)
            else
              match O.MapPage(Put(VmSteps.Kalloc(m), m.free[0], ZeroPage()), d, v, m.free[0], 6)
              case Mapped(t) => G.GrowRange(t, d, v + 1, hi)
              case NoMem(t) => G.Short(t, Some(m.free[0]))
              case Panic => G.Grow.Stuck
  {
    hide O.MapPage, ZeroPage;
  }

  lemma GrowEnd(m: Mem, d: nat, v: nat, hi: nat)
    requires Shape(m) && d < NPAGES && hi <= VPAGES && v >= hi
    ensures G.GrowRange(m, d, v, hi) == G.Grown(m)
  {
  }

  lemma CopyTurn(m: Mem, d: nat, c: nat, v: nat, hi: nat)
    requires Shape(m) && d < NPAGES && c < NPAGES && v < hi <= VPAGES
    ensures var w := Pte(m, d, v);
            C.CopyRange(m, d, c, v, hi) ==
            if !Present(w) || Frame(w) >= NPAGES then G.Grow.Stuck
            else if m.free == [] then G.Short(m, None)
            else
              match O.MapPage(Put(VmSteps.Kalloc(m), m.free[0], m.pages[Frame(w)]), c, v, m.free[0], Flags(w))
              case Mapped(t) => C.CopyRange(t, d, c, v + 1, hi)
              case NoMem(t) => G.Short(t, Some(m.free[0]))
              case Panic => G.Grow.Stuck
  {
    hide O.MapPage, Pte;
  }

  lemma CopyEnd(m: Mem, d: nat, c: nat, v: nat, hi: nat)
    requires Shape(m) && d < NPAGES && c < NPAGES && hi <= VPAGES && v >= hi
    ensures C.CopyRange(m, d, c, v, hi) == G.Grown(m)
  {
  }

  lemma PteOf(m: Mem, d: nat, v: nat)
    requires Shape(m) && d < NPAGES && v < VPAGES
    ensures var e := m.pages[d][v / NENTRIES];
            Pte(m, d, v) == if Present(e) && Frame(e) < NPAGES then m.pages[Frame(e)][v % NENTRIES] else 0
  {
  }

  /** mappages of one page. */
  lemma OnePage(m: Mem, d: nat, a: nat, p: nat, perm: nat)
    requires Shape(m) && d < NPAGES && a % 4096 == 0 && a / 4096 < VPAGES && p < NPAGES && perm < 4096
    ensures Span(a, 4096) == 1 && p * 4096 / 4096 == p && p * 4096 % 4096 == 0
    ensures O.MapRange(m, d, a / 4096, 1, p, perm) == O.MapPage(m, d, a / 4096, p, perm)
  {
    hide O.MapPage;
  }

  /** How many pages the byte range touches. */
  function Span(va: nat, size: nat): (n: nat)
    requires size > 0
    ensures n > 0
  {
    (va + size - 1) / 4096 - va / 4096 + 1
  }

  lemma SpanOf(v: nat, n: nat)
    requires n > 0
    ensures Span(v * 4096, n * 4096) == n && v * 4096 / 4096 == v
  {
  }
}
