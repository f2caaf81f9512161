/** kalloc.c as code: the free list is threaded through the first words of the free pages. */
module KallocCode {
  import opened Disk
  import opened VmMem
  import opened VmSteps
  import U = VmUser

  /** The head address and the links in the pages spell out the list. */
  ghost predicate Linked(m: Mem, freelist: word) {
    && Shape(m) && freelist == Head(m.free)
    && (forall i | 0 <= i < |m.free| :: Managed(m, m.free[i]) && m.pages[m.free[i]][0] == Head(m.free[i + 1..]))
    && forall i, j | 0 <= i < j < |m.free| :: m.free[i] != m.free[j]
  }

  lemma {:induction false} PushLinked(m: Mem, freelist: word, p: nat)
    requires Linked(m, freelist) && Managed(m, p) && p !in m.free
    ensures Linked(VmSteps.Kfree(m, p), Addr(p))
  {
    var t := VmSteps.Kfree(m, p);
    assert t.free[1..] == m.free;
    assert forall i | 0 < i < |t.free| :: t.free[i] == m.free[i - 1] && t.free[i + 1..] == m.free[i..];
  }

  lemma {:induction false} PopLinked(m: Mem, freelist: word)
    requires Linked(m, freelist) && freelist != 0
    ensures m.free != [] && freelist == Addr(m.free[0])
    ensures Linked(VmSteps.Kalloc(m), m.pages[m.free[0]][0])
  {
    var t := VmSteps.Kalloc(m);
    assert forall i | 0 <= i < |t.free| :: t.free[i] == m.free[i + 1] && t.free[i + 1..] == m.free[i + 2..];
  }

  lemma FilledIsJunk(s: Page, next: word)
    requires forall i | 0 <= i < NENTRIES :: s[i] == 0x01010101
    ensures s[0 := next] == Junk(next)
  {
  }

  class Kmem {
    const end: nat           // first address after the kernel image
    const data: nat          // first page of the kernel's data
    var pages: seq<Page>
    var freelist: word
    ghost var free: seq<nat>

    ghost function Value(): Mem
      reads this
    {
      Mem(Layout(U.PagesUp(if end < KERNBASE then 0 else end - KERNBASE), data), pages, free)
    }

    ghost predicate Valid()
      reads this
    {
      KERNBASE < end && Linked(Value(), freelist)
    }

    constructor (end: nat, data: nat, pages: seq<Page>)
      requires KERNBASE < end && Shape(Mem(Layout(U.PagesUp(end - KERNBASE), data), pages, []))
      ensures Valid() && free == [] && this.end == end && this.pages == pages
    {
      this.end, this.data, this.pages := end, data, pages;
      freelist, free := 0, [];
    }

    /** kfree of an address: a panic exactly when it is unaligned or outside free memory. The
        code does not notice a page that is already free. */
    method Kfree(v: word) returns (ok: bool)
      requires Valid() && (KERNBASE <= v ==> (v - KERNBASE) / 4096 !in free)
      modifies this
      ensures ok <==> v % 4096 == 0 && KERNBASE <= v && Managed(old(Value()), (v - KERNBASE) / 4096)
      ensures Valid() && Value() == if ok then VmSteps.Kfree(old(Value()), (v - KERNBASE) / 4096) else old(Value())
      ensures ok ==>
                var p := (v - KERNBASE) / 4096;
                && free == [p] + old(free) && freelist == v && p < NPAGES == |pages| == |old(pages)|
                && pages[p][0] == old(freelist) && (forall i | 1 <= i < NENTRIES :: pages[p][i] == 0x01010101)
                && forall q | 0 <= q < NPAGES && q != p :: pages[q] == old(pages)[q]
    {
      hide Junk, Linked;
      if v % 4096 != 0 || v < end || v - KERNBASE >= NPAGES * 4096 {
        return false;
      }
      ghost var m := Value();
      var p := (v - KERNBASE) / 4096;
      assert v == Addr(p) && Managed(m, p);
      assert Shape(m) && freelist == Head(m.free) by { ShapeOf(m, freelist); }
      PushLinked(m, freelist, p);
      var filled: Page := seq(NENTRIES, (_: nat) => 0x01010101 as word);
      FilledIsJunk(filled, freelist);
      pages := pages[p := filled];
      pages := pages[p := pages[p][0 := freelist]];
      freelist, free := v, [p] + free;
      assert pages == m.pages[p := Junk(Head(m.free))];
      ok := true;
    }

    method Kalloc() returns (r: word)
      requires Valid()
      modifies this
      ensures Valid()
      ensures r == 0 <==> old(free) == []
      ensures r != 0 ==> old(free)[0] < NPAGES && r == Addr(old(free)[0]) && Value() == VmSteps.Kalloc(old(Value()))
      ensures r == 0 ==> Value() == old(Value())
    {
      r := freelist;
      if r != 0 {
        PopLinked(Value(), freelist);
        freelist := pages[(r - KERNBASE) / 4096][0];
        free := free[1..];
      }
    }

    /** freerange frees every whole page between the two addresses, once each. */
    method Freerange(vstart: nat, vend: nat) returns (ok: bool)
      requires Valid() && end <= vstart && KERNBASE <= vend <= KERNBASE + NPAGES * 4096
      requires forall p | U.PagesUp(vstart - KERNBASE) <= p < (vend - KERNBASE) / 4096 :: p !in free
      modifies this
      ensures ok && Valid()
      ensures forall p: nat :: p in free <==> p in old(free) || U.PagesUp(vstart - KERNBASE) <= p < (vend - KERNBASE) / 4096
    {
      hide Junk, Linked;
      ghost var lo := U.PagesUp(vstart - KERNBASE);
      var p := KERNBASE + (vstart - KERNBASE + 4095) / 4096 * 4096;
      ok := true;
      while p + 4096 <= vend
        invariant ok && Valid() && p % 4096 == 0 && KERNBASE <= p && lo <= (p - KERNBASE) / 4096
        invariant p <= vend || p == KERNBASE + lo * 4096
        invariant forall q: nat :: q in free <==> q in old(free) || lo <= q < (p - KERNBASE) / 4096
      {
        ghost var q, was := (p - KERNBASE) / 4096, free;
        ok := Kfree(p);
        assert free == [q] + was;
        p := p + 4096;
      }
    }
  }

  lemma ShapeOf(m: Mem, freelist: word)
    requires Linked(m, freelist)
    ensures Shape(m) && freelist == Head(m.free)
  {
  }

  /** kinit1 and kinit2 as main calls them: the first 4 megabytes, then the rest. Afterwards
      exactly the managed pages are free. */
  method Kinit(end: nat, data: nat, pages: seq<Page>) returns (k: Kmem)
    requires KERNBASE < end <= KERNBASE + 0x400000
    requires Shape(Mem(Layout(U.PagesUp(end - KERNBASE), data), pages, []))
    ensures k.Valid() && forall p: nat :: p in k.free <==> Managed(k.Value(), p)
  {
    hide Linked;
    k := new Kmem(end, data, pages);
    var ok := k.Freerange(end, KERNBASE + 0x400000);
    ok := k.Freerange(KERNBASE + 0x400000, KERNBASE + NPAGES * 4096);
  }
}
