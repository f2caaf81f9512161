/** Physical pages, the page free list (kalloc.c) and two-level page tables (vm.c): what a
    directory maps, and who owns each page. */
module VmMem {
  import opened Disk

  const NPAGES := 0xE000      // PHYSTOP / PGSIZE
  const NENTRIES := 1024      // entries of a directory or table
  const UPAGES := 0x80000     // KERNBASE / PGSIZE
  const VPAGES := 0x100000    // pages of the address space
  const FRAMES := 0x100000    // page frames an entry can name

  type Page = s: seq<word> | |s| == 1024 witness seq(1024, (_: nat) => 0)

  function ZeroPage(): Page {
    seq(NENTRIES, (_: nat) => 0)
  }

  /** First page after the kernel image, and first page of its data. */
  datatype Layout = Layout(first: nat, data: nat)

  /** Physical memory and the free list, most recently freed page first. */
  datatype Mem = Mem(lay: Layout, pages: seq<Page>, free: seq<nat>)

  predicate Shape(m: Mem) {
    && |m.pages| == NPAGES && 0x100 < m.lay.data <= m.lay.first <= NPAGES && m.lay.data < NPAGES
    && forall i | 0 <= i < |m.free| :: m.free[i] < NPAGES
  }

  /** kfree accepts exactly these pages. */
  predicate Managed(m: Mem, p: nat) {
    m.lay.first <= p < NPAGES
  }

  predicate Present(w: word) { w % 2 == 1 }

  function Frame(w: word): nat { w / 4096 }

  function Flags(w: word): nat { w % 4096 }

  /** pa | flags for a page frame. */
  function Entry(frame: nat, flags: nat): (w: word)
    requires frame < FRAMES && flags < 4096
    ensures Frame(w) == frame && Flags(w) == flags && Present(w) == (flags % 2 == 1)
  {
    frame * 4096 + flags
  }

  /** The flat view: the page-table entry of virtual page v in directory d, 0 if it has no table. */
  function Pte(m: Mem, d: nat, v: nat): (w: word)
    requires Shape(m) && d < NPAGES && v < VPAGES
  {
    var e := m.pages[d][v / NENTRIES];
    if Present(e) && Frame(e) < NPAGES then m.pages[Frame(e)][v % NENTRIES] else 0
  }

  /** A place that holds a page: a directory, a directory entry, a user mapping, or some other
      part of the kernel. */
  datatype Place = Root(d: nat) | Table(d: nat, i: nat) | Data(d: nat, v: nat) | Held

  predicate PlaceOk(r: Place) {
    !r.Held? && r.d < NPAGES && (r.Table? ==> r.i < NENTRIES) && (r.Data? ==> r.v < UPAGES)
  }

  /** The page a place refers to; -1 means none. */
  function At(m: Mem, r: Place): (p: int)
    requires Shape(m) && PlaceOk(r)
  {
    match r
    case Root(d) => d
    case Table(d, i) => if Present(m.pages[d][i]) then Frame(m.pages[d][i]) else -1
    case Data(d, v) => if Present(Pte(m, d, v)) then Frame(Pte(m, d, v)) else -1
  }

  predicate Live(owner: map<nat, Place>, d: nat) {
    d in owner && owner[d] == Root(d)
  }

  ghost predicate FreeOk(m: Mem, owner: map<nat, Place>) {
    && (forall i | 0 <= i < |m.free| :: Managed(m, m.free[i]))
    && (forall i, j | 0 <= i < j < |m.free| :: m.free[i] != m.free[j])
    && forall p: nat :: p in owner <==> Managed(m, p) && p !in m.free
  }

  /** Present, writable and open to user mode: the flags of every page-table page. */
  const PWU := 7

  /** Directory entries restrict nothing, so a page's rights are those of its table entry. */
  ghost predicate TablesOpen(m: Mem, owner: map<nat, Place>)
    requires Shape(m)
  {
    forall d: nat, i: nat | d < NPAGES && i < NENTRIES && Live(owner, d) && Present(m.pages[d][i]) :: Flags(m.pages[d][i]) == PWU
  }

  /** Every managed page is either once on the free list or in exactly one place, and directory
      entries restrict nothing. */
  ghost predicate Owned(m: Mem, owner: map<nat, Place>): (b: bool)
    ensures b ==> Shape(m)
  {
    && Shape(m) && FreeOk(m, owner) && TablesOpen(m, owner)
    && (forall p | p in owner && !owner[p].Held? :: PlaceOk(owner[p]) && Live(owner, owner[p].d) && At(m, owner[p]) == p)
    && forall r | PlaceOk(r) && Live(owner, r.d) && At(m, r) != -1 :: At(m, r) in owner && owner[At(m, r)] == r
  }

  /** Every live directory maps what it mapped. */
  ghost predicate SameView(s: Mem, t: Mem, owner: map<nat, Place>): (b: bool)
    ensures b ==> Shape(s) && Shape(t) && t.lay == s.lay
  {
    && Shape(s) && Shape(t) && t.lay == s.lay
    && forall d: nat, v: nat | Live(owner, d) && d < NPAGES && v < VPAGES :: Pte(t, d, v) == Pte(s, d, v)
  }

  /** Only virtual page v of directory d changed, and its entry is w. */
  ghost predicate OneEntry(s: Mem, t: Mem, owner: map<nat, Place>, d: nat, v: nat, w: word) {
    && Shape(s) && Shape(t) && t.lay == s.lay
    && forall x: nat, y: nat | Live(owner, x) && x < NPAGES && y < VPAGES ::
         Pte(t, x, y) == if x == d && y == v then w else Pte(s, x, y)
  }

  /** User pages and pages held elsewhere keep their contents. */
  ghost predicate SameData(s: Mem, t: Mem, owner: map<nat, Place>) {
    && Shape(s) && Shape(t)
    && forall p | p in owner && p < NPAGES && (owner[p].Held? || owner[p].Data?) :: t.pages[p] == s.pages[p]
  }

  // ---- relinking ----

  lemma {:induction false} SameLinks(s: Mem, t: Mem, owner: map<nat, Place>)
    requires Owned(s, owner) && Shape(t) && t.lay == s.lay && t.free == s.free && TablesOpen(t, owner)
    requires forall q | PlaceOk(q) && Live(owner, q.d) :: At(t, q) == At(s, q)
    ensures Owned(t, owner)
  {
    hide At;
  }

  /** The held page p becomes the page of place r. */
  lemma {:induction false} Link(s: Mem, t: Mem, owner: map<nat, Place>, r: Place, p: nat)
    requires Owned(s, owner) && Shape(t) && t.lay == s.lay && t.free == s.free && TablesOpen(t, owner)
    requires p in owner && owner[p].Held? && PlaceOk(r) && !r.Root? && Live(owner, r.d) && At(s, r) == -1
    requires forall q | PlaceOk(q) && Live(owner, q.d) :: At(t, q) == if q == r then p else At(s, q)
    ensures Owned(t, owner[p := r])
  {
    hide At;
    var w := owner[p := r];
    assert forall d :: Live(w, d) <==> Live(owner, d);
  }

  /** Place r lets go of its page p. */
  lemma {:induction false} Unlink(s: Mem, t: Mem, owner: map<nat, Place>, r: Place, p: nat)
    requires Owned(s, owner) && Shape(t) && t.lay == s.lay && t.free == s.free && TablesOpen(t, owner)
    requires PlaceOk(r) && !r.Root? && Live(owner, r.d) && At(s, r) == p
    requires forall q | PlaceOk(q) && Live(owner, q.d) :: At(t, q) == if q == r then -1 else At(s, q)
    ensures Owned(t, owner[p := Held])
  {
    hide At;
    var w := owner[p := Held];
    assert forall d :: Live(w, d) <==> Live(owner, d);
  }

  // ---- writing one page ----

  function Put(m: Mem, p: nat, s: Page): (t: Mem)
    requires Shape(m) && p < NPAGES
    ensures Shape(t) && t.lay == m.lay && t.free == m.free
  {
    m.(pages := m.pages[p := s])
  }

  lemma {:induction false} PutAt(m: Mem, owner: map<nat, Place>, p: nat, s: Page, d: nat, v: nat)
    requires Owned(m, owner) && p < NPAGES && (p in owner ==> owner[p].Held? || owner[p].Data?) && Live(owner, d) && v < VPAGES
    ensures d < NPAGES && Pte(Put(m, p, s), d, v) == Pte(m, d, v) && Put(m, p, s).pages[d] == m.pages[d]
  {
    TableOf(m, owner, d, v / NENTRIES);
  }

  /** A page that is neither a directory nor a table can be rewritten without changing a mapping. */
  lemma {:induction false} PutElsewhere(m: Mem, owner: map<nat, Place>, p: nat, s: Page)
    requires Owned(m, owner) && p < NPAGES && (p in owner ==> owner[p].Held? || owner[p].Data?)
    ensures SameView(m, Put(m, p, s), owner)
    ensures forall q | PlaceOk(q) && Live(owner, q.d) :: At(Put(m, p, s), q) == At(m, q)
    ensures Owned(Put(m, p, s), owner)
  {
    hide Pte, Put, Live;
    var t := Put(m, p, s);
    forall d: nat, v: nat | Live(owner, d) && d < NPAGES && v < VPAGES ensures Pte(t, d, v) == Pte(m, d, v) {
      PutAt(m, owner, p, s, d, v);
    }
    forall q | PlaceOk(q) && Live(owner, q.d) ensures At(t, q) == At(m, q) {
      PutAt(m, owner, p, s, q.d, 0);
    }
    forall d: nat | d < NPAGES && Live(owner, d) ensures t.pages[d] == m.pages[d] {
      PutAt(m, owner, p, s, d, 0);
    }
    SameLinks(m, t, owner);
  }

  /** A present directory entry names a table page of its own. */
  lemma TableOf(m: Mem, owner: map<nat, Place>, d: nat, i: nat)
    requires Owned(m, owner) && Live(owner, d) && i < NENTRIES
    ensures d < NPAGES
    ensures Present(m.pages[d][i]) ==>
              var t := Frame(m.pages[d][i]);
              t in owner && owner[t] == Table(d, i) && t < NPAGES
  {
    assert PlaceOk(Root(d));
    var r := Table(d, i);
    assert PlaceOk(r);
    if Present(m.pages[d][i]) {
      assert At(m, r) != -1;
    }
  }
}
