/** How many free pages the mapping operations take: one for each absent table. */
module VmCount {
  import opened Disk
  import opened VmMem
  import opened VmSteps
  import opened VmOps

  /** The first directory entry at or after virtual page v. */
  function TablesUp(v: nat): (n: nat)
    ensures v <= n * 1024 < v + 1024
  {
    (v + 1023) / 1024
  }

  /** How many directory entries i..j are absent. */
  function Absent(s: Page, i: nat, j: nat): (n: nat)
    requires j <= NENTRIES
    decreases j - i
  {
    if i >= j then 0 else (if Present(s[i]) then 0 else 1) + Absent(s, i + 1, j)
  }

  lemma {:induction false} AbsentSame(s: Page, t: Page, i: nat, j: nat)
    requires j <= NENTRIES && forall k | i <= k < j :: Present(s[k]) == Present(t[k])
    ensures Absent(s, i, j) == Absent(t, i, j)
    decreases j - i
  {
    if i < j {
      AbsentSame(s, t, i + 1, j);
    }
  }

  /** Entries present up to b and absent from there on. */
  lemma {:induction false} AbsentFrom(s: Page, i: nat, b: nat, j: nat)
    requires i <= b <= j <= NENTRIES && (forall k | i <= k < b :: Present(s[k])) && forall k | b <= k < j :: !Present(s[k])
    ensures Absent(s, i, j) == j - b
    decreases j - i
  {
    if i < j {
      AbsentFrom(s, i + 1, if i < b then b else b + 1, j);
    }
  }

  /** The tables that pages v..hi still need, after page v has its table. */
  lemma {:induction false} AbsentNext(s: Page, t: Page, v: nat, hi: nat)
    requires v < hi <= VPAGES && Present(t[v / NENTRIES])
    requires forall k | 0 <= k < NENTRIES && k != v / NENTRIES :: t[k] == s[k]
    ensures TablesUp(hi) <= NENTRIES
    ensures Absent(s, v / NENTRIES, TablesUp(hi)) ==
            Absent(t, (v + 1) / NENTRIES, TablesUp(hi)) + if Present(s[v / NENTRIES]) then 0 else 1
  {
    var i, j := v / NENTRIES, TablesUp(hi);
    assert i < j;
    AbsentSame(s, t, i + 1, j);
    assert (v + 1) / NENTRIES == i || (v + 1) / NENTRIES == i + 1;
  }

  /** mappages of one page takes a free page exactly when the table is absent, and fails exactly
      when it then finds none. */
  lemma {:induction false} MapPageCount(m: Mem, owner: map<nat, Place>, d: nat, v: nat, frame: nat, perm: nat)
    requires Owned(m, owner) && Live(owner, d) && v < VPAGES && frame < FRAMES && perm < 4096 && d < NPAGES
    requires !MapPage(m, d, v, frame, perm).Panic?
    ensures var r, i := MapPage(m, d, v, frame, perm), v / NENTRIES;
            && (r.NoMem? <==> !Present(m.pages[d][i]) && m.free == [])
            && (r.NoMem? ==> r.mem == m)
            && (r.Mapped? ==>
                  && r.mem.free == (if Present(m.pages[d][i]) then m.free else m.free[1..])
                  && Present(r.mem.pages[d][i])
                  && forall k | 0 <= k < NENTRIES && k != i :: r.mem.pages[d][k] == m.pages[d][k])
  {
    hide Pte, Owned;
    var w := WalkOk(m, owner, d, v);
    var g := Walk(m, d, v);
    if g.Mapped? {
      TableOf(g.mem, w, d, v / NENTRIES);
      assert Live(w, d) && Frame(g.mem.pages[d][v / NENTRIES]) != d;
      if !Present(m.pages[d][v / NENTRIES]) {
        KallocOk(m, owner);
        assert m.free[0] != d;
      }
    }
  }

  /** mappages of a kernel range: it needs as many free pages as tables are absent, fails exactly
      when there are fewer, and then leaves none free. */
  lemma {:induction false} RangeCount(m: Mem, owner: map<nat, Place>, d: nat, v: nat, n: nat, frame: nat, perm: nat)
    requires Owned(m, owner) && Live(owner, d) && UPAGES <= v && v + n <= VPAGES && frame + n <= FRAMES && perm < 4096 && d < NPAGES
    requires n > 0 && !MapRange(m, d, v, n, frame, perm).Panic?
    ensures var r, need := MapRange(m, d, v, n, frame, perm), Absent(m.pages[d], v / NENTRIES, TablesUp(v + n));
            && (r.NoMem? <==> |m.free| < need)
            && (r.NoMem? ==> r.mem.free == [])
            && (r.Mapped? ==>
                  && r.mem.free == m.free[need..]
                  && (forall k | v / NENTRIES <= k < TablesUp(v + n) :: Present(r.mem.pages[d][k]))
                  && forall k | 0 <= k < NENTRIES && !(v / NENTRIES <= k < TablesUp(v + n)) :: r.mem.pages[d][k] == m.pages[d][k])
    decreases n
  {
    hide Pte, Owned, MapPage, Present;
    MapPageCount(m, owner, d, v, frame, perm);
    var k := MapPage(m, d, v, frame, perm);
    var i, j := v / NENTRIES, TablesUp(v + n);
    if k.NoMem? {
      assert Absent(m.pages[d], i, j) > 0;
    } else {
      AbsentNext(m.pages[d], k.mem.pages[d], v, v + n);
      if n > 1 {
        var u := MapKernelPage(m, owner, d, v, frame, perm);
        RangeCount(k.mem, u, d, v + 1, n - 1, frame + 1, perm);
      } else {
        assert MapRange(m, d, v, n, frame, perm) == MapRange(k.mem, d, v + 1, 0, frame + 1, perm) == Mapped(k.mem);
      }
    }
  }
}
