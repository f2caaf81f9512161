/** Whole runs of address-space operations: page conservation and isolation. */
module VmRuns {
  import opened Disk
  import opened Options
  import opened VmMem
  import opened VmSteps
  import opened VmOps
  import opened VmCount
  import opened VmRights
  import opened VmKernel
  import opened VmUser
  import opened VmGrow
  import opened VmCopy

  /** spaces: each directory in use with its process size; held: pages other kernel code has
      from kalloc; lost: pages that no one will free. */
  datatype Sys = Sys(mem: Mem, spaces: map<nat, nat>, held: set<nat>, lost: set<nat>)

  datatype Op =
    | Create                              // setupkvm
    | Grow(d: nat, sz: nat)               // allocuvm
    | Shrink(d: nat, sz: nat)             // deallocuvm
    | Fork(d: nat)                        // copyuvm
    | Destroy(d: nat)                     // freevm
    | Store(d: nat, v: nat, page: Page)   // the process writes a page of its memory
    | Guard(d: nat, v: nat)               // clearpteu
    | Grab                                // kalloc
    | Release(p: nat)                     // kfree

  predicate Valid(s: Sys, op: Op) {
    match op
    case Create | Grab => true
    case Grow(d, sz) => d in s.spaces && s.spaces[d] <= sz
    case Shrink(d, sz) => d in s.spaces && sz <= s.spaces[d]
    case Fork(d) => d in s.spaces
    case Destroy(d) => d in s.spaces
    case Store(d, v, _) => d in s.spaces && v < PagesUp(s.spaces[d])
    case Guard(d, v) => d in s.spaces && v < PagesUp(s.spaces[d])
    case Release(p) => p in s.held
  }

  /** Pages a failed operation took off the free list for good. */
  function Missing(m: Mem, t: Mem): (r: set<nat>) {
    set p | p in m.free && p !in t.free
  }

  predicate SysOk(s: Sys) {
    Shape(s.mem) && forall d | d in s.spaces :: d < NPAGES && s.spaces[d] < KERNBASE
  }

  /** None is a panic. */
  function Apply(s: Sys, op: Op): (r: Option<Sys>)
    requires SysOk(s) && Valid(s, op)
  {
    match op
    case Create => ApplyCreate(s)
    case Grow(d, sz) =>
      (match Allocuvm(s.mem, d, s.spaces[d], sz)
       case AllocPanic => None
       case Size(t, n) => Some(s.(mem := t, spaces := if n == sz then s.spaces[d := sz] else s.spaces)))
    case Shrink(d, sz) =>
      (match Deallocuvm(s.mem, d, s.spaces[d], sz)
       case None => None
       case Some(t) => Some(s.(mem := t, spaces := s.spaces[d := sz])))
    case Fork(d) => ApplyFork(s, d)
    case Destroy(d) =>
      (match Freevm(s.mem, d)
       case None => None
       case Some(t) => Some(s.(mem := t, spaces := s.spaces - {d})))
    case Store(d, v, page) =>
      var q := if v < VPAGES then Frame(Pte(s.mem, d, v)) else NPAGES;
      if q < NPAGES then Some(s.(mem := Put(s.mem, q, page))) else None
    case Guard(d, v) =>
      (match if v < VPAGES then Clearpteu(s.mem, d, v) else None
       case None => None
       case Some(t) => Some(s.(mem := t)))
    case Grab =>
      if s.mem.free == [] then Some(s)
      else Some(s.(mem := Kalloc(s.mem), held := s.held + {s.mem.free[0]}))
    case Release(p) =>
      if Managed(s.mem, p) then Some(s.(mem := Kfree(s.mem, p), held := s.held - {p})) else None
  }

  function ApplyCreate(s: Sys): (r: Option<Sys>)
    requires SysOk(s)
  {
    match Setupkvm(s.mem)
    case Stuck => None
    case Failed(t) => Some(s.(mem := t, lost := s.lost + Missing(s.mem, t)))
    case Built(t, d) => Some(s.(mem := t, spaces := s.spaces[d := 0]))
  }

  function ApplyFork(s: Sys, d: nat): (r: Option<Sys>)
    requires SysOk(s) && d in s.spaces
  {
    match Copyuvm(s.mem, d, s.spaces[d])
    case CopyPanic => None
    case NoKvm(t) => Some(s.(mem := t, lost := s.lost + Missing(s.mem, t)))
    case CopyFailed(t, _) => Some(s.(mem := t, lost := s.lost + Missing(s.mem, t)))
    case Copied(t, c) => Some(s.(mem := t, spaces := s.spaces[c := s.spaces[d]]))
  }

  // ---- the invariant ----

  /** The flags of a user page: writable, and open to user mode unless it is a guard page. */
  predicate UserFlags(w: word) {
    Flags(w) == 7 || Flags(w) == 3
  }

  /** Pages below the size are mapped, above it up to KERNBASE unmapped, then the kernel part. */
  ghost predicate SpaceOk(m: Mem, d: nat, sz: nat): (b: bool)
    ensures b ==> Shape(m) && d < NPAGES && sz < KERNBASE
  {
    && Shape(m) && d < NPAGES && sz < KERNBASE
    && AllMapped(m, d, 0, PagesUp(sz)) && Unmapped(m, d, PagesUp(sz), UPAGES)
    && (forall y: nat | y < PagesUp(sz) :: UserFlags(Pte(m, d, y)))
    && forall y: nat | UPAGES <= y < VPAGES :: Pte(m, d, y) == KernelPte(m.lay, y)
  }

  /** Every page that is not free belongs to a space, is held, or is lost. */
  ghost predicate Accounted(s: Sys, owner: map<nat, Place>) {
    && (forall p | p in owner && owner[p].Held? :: p in s.held || p in s.lost)
    && (forall p | p in owner && !owner[p].Held? :: owner[p].d in s.spaces || p in s.lost)
    && (forall p | p in s.held :: p in owner && owner[p].Held? && p !in s.lost)
    && (forall p | p in s.lost :: p in owner && (owner[p].Held? || owner[p].d !in s.spaces))
    && forall d | d in s.spaces :: Live(owner, d)
  }

  ghost predicate Inv(s: Sys, owner: map<nat, Place>): (b: bool)
    ensures b ==> SysOk(s)
  {
    && Owned(s.mem, owner) && Accounted(s, owner)
    && forall d | d in s.spaces :: SpaceOk(s.mem, d, s.spaces[d])
  }

  /** The space of directory x is as it was: same mappings, same contents of its user pages. */
  ghost predicate SameSpace(m: Mem, t: Mem, x: nat) {
    && Shape(m) && Shape(t) && x < NPAGES && t.lay == m.lay
    && (forall y: nat | y < VPAGES :: Pte(t, x, y) == Pte(m, x, y))
    && forall y: nat | y < UPAGES && Present(Pte(m, x, y)) && Frame(Pte(m, x, y)) < NPAGES ::
         t.pages[Frame(Pte(m, x, y))] == m.pages[Frame(Pte(m, x, y))]
  }

  lemma SpaceStays(m: Mem, t: Mem, d: nat, sz: nat)
    requires SpaceOk(m, d, sz) && SameSpace(m, t, d)
    ensures SpaceOk(t, d, sz)
  {
    hide Pte, KernelPte;
  }

  /** What keeps a live directory's mappings and all user pages keeps its space. */
  lemma {:induction false} SpaceSame(m: Mem, t: Mem, owner: map<nat, Place>, w: map<nat, Place>, x: nat)
    requires Owned(m, owner) && Live(owner, x) && x < NPAGES && Shape(t) && t.lay == m.lay
    requires forall y: nat | y < VPAGES :: Pte(t, x, y) == Pte(m, x, y)
    requires SameData(m, t, w) && forall p | p in owner && owner[p].Data? && owner[p].d == x :: p in w && w[p] == owner[p]
    ensures SameSpace(m, t, x)
  {
    hide Pte;
    forall y: nat | y < UPAGES && Present(Pte(m, x, y)) && Frame(Pte(m, x, y)) < NPAGES
      ensures t.pages[Frame(Pte(m, x, y))] == m.pages[Frame(Pte(m, x, y))]
    {
      var r := Data(x, y);
      assert PlaceOk(r) && At(m, r) == Frame(Pte(m, x, y));
    }
  }

  /** The operation's own directory, if it changes one that exists. */
  function Subject(op: Op): (r: Option<nat>) {
    match op
    case Grow(d, _) => Some(d)
    case Shrink(d, _) => Some(d)
    case Destroy(d) => Some(d)
    case Store(d, _, _) => Some(d)
    case Guard(d, _) => Some(d)
    case Create | Fork(_) | Grab | Release(_) => None
  }

  /** All spaces but the operation's subject are as they were. */
  ghost predicate Isolated(s: Sys, t: Sys, op: Op) {
    forall x | x in s.spaces && Subject(op) != Some(x) :: x in t.spaces && t.spaces[x] == s.spaces[x] && SameSpace(s.mem, t.mem, x)
  }

  // ---- steps that change no space ----

  lemma {:induction false} QuietSpaces(m: Mem, t: Mem, owner: map<nat, Place>, x: nat)
    requires Owned(m, owner) && SameView(m, t, owner) && SameData(m, t, owner) && Live(owner, x) && x < NPAGES
    ensures SameSpace(m, t, x)
  {
    hide Pte, Owned;
    SpaceSame(m, t, owner, owner, x);
  }

  /** All spaces stay: t has at least the spaces of s, and memory changed quietly. */
  lemma {:induction false} Quiet(s: Sys, t: Sys, owner: map<nat, Place>, op: Op)
    requires Inv(s, owner) && SameView(s.mem, t.mem, owner) && SameData(s.mem, t.mem, owner)
    requires forall x | x in s.spaces :: x in t.spaces && t.spaces[x] == s.spaces[x]
    ensures forall x | x in s.spaces :: SpaceOk(t.mem, x, t.spaces[x])
    ensures Isolated(s, t, op)
  {
    hide Owned, SpaceOk, SameSpace, SameView, SameData;
    forall x | x in s.spaces ensures SpaceOk(t.mem, x, t.spaces[x]) && SameSpace(s.mem, t.mem, x) {
      InMemory(s.mem, owner, x);
      QuietSpaces(s.mem, t.mem, owner, x);
      SpaceStays(s.mem, t.mem, x, s.spaces[x]);
    }
  }

  /** A directory that is not live owns nothing. */
  lemma NoPages(m: Mem, owner: map<nat, Place>, c: nat)
    requires Owned(m, owner) && !Live(owner, c)
    ensures forall p | p in owner && !owner[p].Held? :: owner[p].d != c
  {
    hide At;
  }

  lemma {:induction false} MissingIs(m: Mem, owner: map<nat, Place>, t: Mem, w: map<nat, Place>)
    requires Owned(m, owner) && Owned(t, w) && t.lay == m.lay && forall p | p in owner :: p in w
    ensures Missing(m, t) == set p | p in w && p !in owner
  {
    hide At;
    forall p: nat | p in m.free ensures Managed(m, p) {
      var i :| 0 <= i < |m.free| && m.free[i] == p;
    }
    assert forall p: nat :: Managed(t, p) == Managed(m, p);
  }

  /** A failure that keeps only pages of a directory nobody has, or a held page. */
  lemma {:induction false} Losing(s: Sys, t: Sys, owner: map<nat, Place>, w: map<nat, Place>, op: Op)
    requires Inv(s, owner) && Owned(t.mem, w) && SameView(s.mem, t.mem, owner) && SameData(s.mem, t.mem, owner)
    requires t == s.(mem := t.mem, lost := s.lost + Missing(s.mem, t.mem))
    requires forall p | p in owner :: p in w && w[p] == owner[p]
    requires forall p | p in w && p !in owner :: w[p].Held? || w[p].d !in s.spaces
    ensures Inv(t, w) && Isolated(s, t, op)
  {
    hide Owned, SpaceOk, SameView, SameData, Isolated, Missing;
    MissingIs(s.mem, owner, t.mem, w);
    Quiet(s, t, owner, op);
  }

  /** A new space. */
  lemma {:induction false} Gaining(s: Sys, t: Sys, owner: map<nat, Place>, w: map<nat, Place>, c: nat, sz: nat, op: Op)
    requires Inv(s, owner) && Owned(t.mem, w) && SameView(s.mem, t.mem, owner) && SameData(s.mem, t.mem, owner)
    requires t == s.(mem := t.mem, spaces := s.spaces[c := sz])
    requires c !in owner && Live(w, c) && AddsSpace(owner, w, c) && SpaceOk(t.mem, c, sz)
    ensures Inv(t, w) && Isolated(s, t, op)
  {
    hide Owned, SpaceOk, SameView, SameData, Isolated;
    NoPages(s.mem, owner, c);
    Quiet(s, t, owner, op);
    GainAccounts(s, t, owner, w, c, sz);
  }

  lemma {:induction false} GainAccounts(s: Sys, t: Sys, owner: map<nat, Place>, w: map<nat, Place>, c: nat, sz: nat)
    requires Accounted(s, owner) && t == s.(mem := t.mem, spaces := s.spaces[c := sz])
    requires c !in owner && Live(w, c) && AddsSpace(owner, w, c)
    requires forall p | p in owner && !owner[p].Held? :: owner[p].d != c
    ensures Accounted(t, w)
  {
    assert c !in s.spaces;
  }

  lemma {:induction false} CreateStep(s: Sys, owner: map<nat, Place>) returns (w: map<nat, Place>)
    requires Inv(s, owner)
    ensures var r := ApplyCreate(s); r.Some? && Inv(r.value, w) && Isolated(s, r.value, Create)
  {
    hide Owned, SpaceOk, SameView, SameData, Isolated, Setupkvm, Pte, KernelPte, Missing;
    w := SetupkvmOk(s.mem, owner);
    var r := Setupkvm(s.mem);
    if r.Built? {
      var a := owner[r.d := Root(r.d)];
      assert r.d in a && forall p | p in owner :: p in a && a[p] == owner[p];
      EmptySpace(r.mem, r.d);
      Gaining(s, ApplyCreate(s).value, owner, w, r.d, 0, Create);
    } else {
      if s.mem.free != [] {
        var c := s.mem.free[0];
        var a := owner[c := Root(c)];
        assert forall p | p in owner :: p in a && a[p] == owner[p];
        assert c !in s.spaces;
      }
      Losing(s, ApplyCreate(s).value, owner, w, Create);
    }
  }

  lemma {:induction false} EmptySpace(m: Mem, d: nat)
    requires Shape(m) && d < NPAGES && forall y: nat | y < VPAGES :: Pte(m, d, y) == KernelPte(m.lay, y)
    ensures SpaceOk(m, d, 0)
  {
    hide Pte, KernelPte;
    forall y: nat | y < UPAGES ensures Pte(m, d, y) == 0 {
      KernelPart(m.lay, y);
    }
  }

  lemma {:induction false} CopiedSpace(m: Mem, t: Mem, w: map<nat, Place>, owner: map<nat, Place>, d: nat, c: nat, sz: nat)
    requires SpaceOk(m, d, sz) && Shape(t) && t.lay == m.lay && c < NPAGES
    requires forall y: nat | y < PagesUp(sz) :: CopyOf(m, t, w, owner, d, c, y)
    requires forall y: nat | PagesUp(sz) <= y < VPAGES :: Pte(t, c, y) == KernelPte(m.lay, y)
    ensures SpaceOk(t, c, sz)
  {
    hide Pte, KernelPte;
    forall y: nat | y < PagesUp(sz) ensures Present(Pte(t, c, y)) && UserFlags(Pte(t, c, y)) {
      assert CopyOf(m, t, w, owner, d, c, y) && UserFlags(Pte(m, d, y));
    }
    forall y: nat | PagesUp(sz) <= y < UPAGES ensures Pte(t, c, y) == 0 {
      KernelPart(m.lay, y);
    }
  }

  lemma {:induction false} ForkStep(s: Sys, owner: map<nat, Place>, d: nat) returns (w: map<nat, Place>)
    requires Inv(s, owner) && d in s.spaces
    ensures var r := ApplyFork(s, d); r.Some? && Inv(r.value, w) && Isolated(s, r.value, Fork(d))
  {
    hide Owned, SameView, SameData, Isolated, Copyuvm, Pte, KernelPte, Missing, CopyOf;
    w := CopyuvmOk(s.mem, owner, d, s.spaces[d]);
    var r := Copyuvm(s.mem, d, s.spaces[d]);
    hide SpaceOk;
    if r.Copied? {
      CopiedSpace(s.mem, r.mem, w, owner, d, r.c, s.spaces[d]);
      Gaining(s, ApplyFork(s, d).value, owner, w, r.c, s.spaces[d], Fork(d));
    } else {
      if r.NoKvm? && s.mem.free != [] {
        var c := s.mem.free[0];
        var a := owner[c := Root(c)];
        assert forall p | p in owner :: p in a && a[p] == owner[p];
        assert c !in s.spaces;
      }
      Losing(s, ApplyFork(s, d).value, owner, w, Fork(d));
    }
  }

  // ---- steps of one space ----

  /** The other spaces of a step that changes only directory d. */
  lemma {:induction false} Others(s: Sys, t: Sys, owner: map<nat, Place>, w: map<nat, Place>, d: nat, op: Op)
    requires Inv(s, owner) && Shape(t.mem) && OthersView(s.mem, t.mem, owner, d) && SameData(s.mem, t.mem, w)
    requires forall p | p in owner && owner[p].Data? && owner[p].d != d :: p in w && w[p] == owner[p]
    requires forall x | x in s.spaces && x != d :: x in t.spaces && t.spaces[x] == s.spaces[x]
    ensures forall x | x in s.spaces && x != d :: SpaceOk(t.mem, x, t.spaces[x])
    ensures Subject(op) == Some(d) ==> Isolated(s, t, op)
  {
    hide Owned, SpaceOk, SameSpace, Pte, SameData;
    forall x | x in s.spaces && x != d ensures SpaceOk(t.mem, x, t.spaces[x]) && SameSpace(s.mem, t.mem, x) {
      InMemory(s.mem, owner, x);
      SpaceSame(s.mem, t.mem, owner, w, x);
      SpaceStays(s.mem, t.mem, x, s.spaces[x]);
    }
  }

  lemma {:induction false} GrownSpace(m: Mem, t: Mem, owner: map<nat, Place>, w: map<nat, Place>, d: nat, oldsz: nat, newsz: nat)
    requires SpaceOk(m, d, oldsz) && Live(owner, d) && oldsz <= newsz < KERNBASE
    requires Beside(m, t, owner, d, PagesUp(oldsz), PagesUp(newsz))
    requires forall y: nat | PagesUp(oldsz) <= y < PagesUp(newsz) :: Fresh(t, w, owner, d, y, ZeroPage(), 7)
    ensures SpaceOk(t, d, newsz)
  {
    hide Pte, KernelPte, ZeroPage;
    var lo, hi := PagesUp(oldsz), PagesUp(newsz);
    forall y: nat | y < hi ensures Present(Pte(t, d, y)) && UserFlags(Pte(t, d, y)) {
      if y < lo {
        assert Pte(t, d, y) == Pte(m, d, y);
      } else {
        assert Fresh(t, w, owner, d, y, ZeroPage(), 7);
      }
    }
    forall y: nat | hi <= y < UPAGES ensures Pte(t, d, y) == 0 {
      assert Pte(t, d, y) == Pte(m, d, y);
    }
    forall y: nat | UPAGES <= y < VPAGES ensures Pte(t, d, y) == KernelPte(m.lay, y) {
      assert Pte(t, d, y) == Pte(m, d, y);
    }
  }

  lemma {:induction false} TookAccounts(s: Sys, t: Sys, owner: map<nat, Place>, w: map<nat, Place>, d: nat, lo: nat, hi: nat)
    requires Accounted(s, owner) && d in s.spaces && Took(owner, w, d, lo, hi, None)
    requires t.held == s.held && t.lost == s.lost && t.spaces.Keys == s.spaces.Keys
    ensures Accounted(t, w)
  {
    assert forall x :: x in t.spaces <==> x in s.spaces;
  }

  lemma AddsIsTook(owner: map<nat, Place>, w: map<nat, Place>, d: nat)
    requires Adds(owner, w, d)
    ensures Took(owner, w, d, 0, 0, None)
  {
  }

  lemma BesideOthers(m: Mem, t: Mem, owner: map<nat, Place>, d: nat, lo: nat, hi: nat)
    requires Beside(m, t, owner, d, lo, hi)
    ensures OthersView(m, t, owner, d)
  {
    hide Pte;
  }

  lemma {:induction false} GrowStep(s: Sys, owner: map<nat, Place>, d: nat, sz: nat) returns (w: map<nat, Place>)
    requires Inv(s, owner) && Valid(s, Grow(d, sz))
    ensures var r := Apply(s, Grow(d, sz)); r.Some? && Inv(r.value, w) && Isolated(s, r.value, Grow(d, sz))
  {
    var was, lo, hi := s.spaces[d], PagesUp(s.spaces[d]), PagesUp(sz);
    assert SpaceOk(s.mem, d, was);
    assert was <= sz < KERNBASE ==> Unmapped(s.mem, d, lo, hi);
    hide Owned, SameView, SameData, Isolated, Pte, Took, Allocuvm, Fresh, SpaceOk, Adds, Beside, Unmapped, OthersView, SysOk;
    w := AllocuvmOk(s.mem, owner, d, was, sz);
    var r := Allocuvm(s.mem, d, was, sz);
    var t := Apply(s, Grow(d, sz)).value;
    assert t.spaces.Keys == s.spaces.Keys;
    if sz < KERNBASE && r.sz == sz {
      GrownSpace(s.mem, r.mem, owner, w, d, was, sz);
      BesideOthers(s.mem, r.mem, owner, d, lo, hi);
      TookAccounts(s, t, owner, w, d, lo, hi);
      Others(s, t, owner, owner, d, Grow(d, sz));
    } else if sz < KERNBASE {
      AddsIsTook(owner, w, d);
      TookAccounts(s, t, owner, w, d, 0, 0);
      Quiet(s, t, owner, Grow(d, sz));
    } else {
      assert t == s;
      Quiet(s, t, owner, Grow(d, sz)) by { Still(s.mem, owner); }
    }
  }

  lemma Still(m: Mem, owner: map<nat, Place>)
    requires Shape(m)
    ensures SameView(m, m, owner) && SameData(m, m, owner)
  {
  }

  lemma {:induction false} ShrunkSpace(m: Mem, t: Mem, owner: map<nat, Place>, d: nat, oldsz: nat, newsz: nat)
    requires SpaceOk(m, d, oldsz) && Live(owner, d) && newsz <= oldsz
    requires Cleared(m, t, owner, d, PagesUp(newsz), PagesUp(oldsz))
    ensures SpaceOk(t, d, newsz)
  {
    hide Pte, KernelPte;
    var lo, hi := PagesUp(newsz), PagesUp(oldsz);
    forall y: nat | y < VPAGES ensures Pte(t, d, y) == if lo <= y < hi then 0 else Pte(m, d, y) {
      assert Pte(t, d, y) == if lo <= y < hi && Present(Pte(m, d, y)) then 0 else Pte(m, d, y);
    }
  }

  lemma ClearedOthers(m: Mem, t: Mem, owner: map<nat, Place>, d: nat, lo: nat, hi: nat)
    requires Cleared(m, t, owner, d, lo, hi)
    ensures OthersView(m, t, owner, d)
  {
    hide Pte;
  }

  lemma {:induction false} ShrunkAccounts(s: Sys, t: Sys, owner: map<nat, Place>, d: nat, lo: nat, hi: nat)
    requires Accounted(s, owner) && d in s.spaces
    requires t.held == s.held && t.lost == s.lost && t.spaces.Keys == s.spaces.Keys
    ensures Accounted(t, Without(owner, d, lo, hi))
  {
    assert forall x :: x in t.spaces <==> x in s.spaces;
  }

  lemma {:induction false} ShrinkStep(s: Sys, owner: map<nat, Place>, d: nat, sz: nat) returns (w: map<nat, Place>)
    requires Inv(s, owner) && Valid(s, Shrink(d, sz))
    ensures var r := Apply(s, Shrink(d, sz)); r.Some? && Inv(r.value, w) && Isolated(s, r.value, Shrink(d, sz))
  {
    hide Owned, SameView, SameData, Isolated, Pte, DropRange, SpaceOk, OthersView, Cleared, SysOk, Without;
    var was := s.spaces[d];
    var lo, hi := PagesUp(sz), PagesUp(was);
    if sz == was {
      w := owner;
      assert s.spaces[d := sz] == s.spaces;
      Quiet(s, s, owner, Shrink(d, sz)) by { Still(s.mem, owner); }
    } else {
      DropRangeOk(s.mem, owner, d, lo, hi);
      var r := DropRange(s.mem, d, lo, hi);
      var t := Apply(s, Shrink(d, sz)).value;
      w := Without(owner, d, lo, hi);
      assert t.spaces.Keys == s.spaces.Keys;
      ShrunkSpace(s.mem, r.value, owner, d, was, sz);
      ClearedOthers(s.mem, r.value, owner, d, lo, hi);
      ShrunkAccounts(s, t, owner, d, lo, hi);
      OthersKept(owner, d, lo, hi);
      Others(s, t, owner, w, d, Shrink(d, sz));
    }
  }

  lemma OthersKept(owner: map<nat, Place>, d: nat, lo: nat, hi: nat)
    ensures forall p | p in owner && owner[p].Data? && owner[p].d != d :: p in Without(owner, d, lo, hi) && Without(owner, d, lo, hi)[p] == owner[p]
    ensures forall p | p in owner && owner[p].Data? && owner[p].d != d :: p in Gone(owner, d) && Gone(owner, d)[p] == owner[p]
  {
  }

  lemma {:induction false} GoneAccounts(s: Sys, t: Sys, owner: map<nat, Place>, d: nat)
    requires Accounted(s, owner) && d in s.spaces
    requires t.held == s.held && t.lost == s.lost && t.spaces == s.spaces - {d}
    ensures Accounted(t, Gone(owner, d))
  {
  }

  lemma {:induction false} DestroyStep(s: Sys, owner: map<nat, Place>, d: nat) returns (w: map<nat, Place>)
    requires Inv(s, owner) && d in s.spaces
    ensures var r := Apply(s, Destroy(d)); r.Some? && Inv(r.value, w) && Isolated(s, r.value, Destroy(d))
  {
    hide Owned, SameData, Isolated, Pte, Freevm, SpaceOk, SysOk, Gone;
    FreevmOk(s.mem, owner, d);
    var t := Apply(s, Destroy(d)).value;
    w := Gone(owner, d);
    GoneAccounts(s, t, owner, d);
    GoneLive(owner, d);
    assert OthersView(s.mem, t.mem, owner, d);
    OthersKept(owner, d, 0, 0);
    Others(s, t, owner, w, d, Destroy(d));
  }

  lemma GoneLive(owner: map<nat, Place>, d: nat)
    ensures forall x: nat | Live(owner, x) && x != d :: Live(Gone(owner, d), x)
  {
  }

  lemma {:induction false} StoreStep(s: Sys, owner: map<nat, Place>, d: nat, v: nat, page: Page) returns (w: map<nat, Place>)
    requires Inv(s, owner) && Valid(s, Store(d, v, page))
    ensures var r := Apply(s, Store(d, v, page)); r.Some? && Inv(r.value, w) && Isolated(s, r.value, Store(d, v, page))
  {
    hide Owned, Pte, Isolated;
    assert SpaceOk(s.mem, d, s.spaces[d]);
    TailMapped(s.mem, owner, d, 0, v, PagesUp(s.spaces[d]));
    hide SpaceOk, SysOk;
    var q := Frame(Pte(s.mem, d, v));
    OwnerOfPage(s.mem, owner, d, v);
    w := owner;
    PutElsewhere(s.mem, owner, q, page);
    var t := Apply(s, Store(d, v, page)).value;
    assert OthersView(s.mem, t.mem, owner, d);
    assert SameData(s.mem, t.mem, owner - {q});
    Others(s, t, owner, owner - {q}, d, Store(d, v, page));
    StoredSpace(s.mem, t.mem, owner, d, s.spaces[d]);
  }

  lemma StoredSpace(m: Mem, t: Mem, owner: map<nat, Place>, d: nat, sz: nat)
    requires SpaceOk(m, d, sz) && SameView(m, t, owner) && Live(owner, d)
    ensures SpaceOk(t, d, sz)
  {
    hide Pte, KernelPte;
  }

  lemma {:induction false} GuardedSpace(m: Mem, t: Mem, owner: map<nat, Place>, d: nat, sz: nat, v: nat)
    requires SpaceOk(m, d, sz) && Live(owner, d) && v < PagesUp(sz) && v < VPAGES
    requires OneEntry(m, t, owner, d, v, WithoutU(Pte(m, d, v)))
    ensures SpaceOk(t, d, sz)
  {
    hide Pte, KernelPte, WithoutU;
    assert UserFlags(Pte(m, d, v));
  }

  lemma {:induction false} GuardStep(s: Sys, owner: map<nat, Place>, d: nat, v: nat) returns (w: map<nat, Place>)
    requires Inv(s, owner) && Valid(s, Guard(d, v))
    ensures var r := Apply(s, Guard(d, v)); r.Some? && Inv(r.value, w) && Isolated(s, r.value, Guard(d, v))
  {
    hide Owned, Pte, Isolated, Clearpteu, WithoutU, Allowed, SameData;
    assert SpaceOk(s.mem, d, s.spaces[d]);
    MappedHasTable(s.mem, d, v);
    ClearpteuOk(s.mem, owner, d, v);
    w := owner;
    var t := Apply(s, Guard(d, v)).value;
    GuardedSpace(s.mem, t.mem, owner, d, s.spaces[d], v);
    assert OthersView(s.mem, t.mem, owner, d);
    hide SpaceOk, SysOk;
    Others(s, t, owner, owner, d, Guard(d, v));
  }

  lemma MappedHasTable(m: Mem, d: nat, v: nat)
    requires Shape(m) && d < NPAGES && v < VPAGES && Present(Pte(m, d, v))
    ensures Present(m.pages[d][v / NENTRIES])
  {
  }

  lemma {:induction false} GrabStep(s: Sys, owner: map<nat, Place>) returns (w: map<nat, Place>)
    requires Inv(s, owner)
    ensures var r := Apply(s, Grab); r.Some? && Inv(r.value, w) && Isolated(s, r.value, Grab)
  {
    hide Owned, Pte, Isolated, SpaceOk, SameView, SameData, SysOk;
    w := owner;
    if s.mem.free == [] {
      Quiet(s, s, owner, Grab) by { Still(s.mem, owner); }
    } else {
      KallocOk(s.mem, owner);
      w := owner[s.mem.free[0] := Held];
      Quiet(s, Apply(s, Grab).value, owner, Grab);
    }
  }

  lemma {:induction false} ReleaseStep(s: Sys, owner: map<nat, Place>, p: nat) returns (w: map<nat, Place>)
    requires Inv(s, owner) && p in s.held
    ensures var r := Apply(s, Release(p)); r.Some? && Inv(r.value, w) && Isolated(s, r.value, Release(p))
  {
    hide Owned, Pte, Isolated, SpaceOk, SysOk, Kfree;
    KfreeOk(s.mem, owner, p);
    w := owner - {p};
    var t := Apply(s, Release(p)).value;
    OthersAll(s, t, owner, w, p);
  }

  lemma {:induction false} OthersAll(s: Sys, t: Sys, owner: map<nat, Place>, w: map<nat, Place>, p: nat)
    requires Inv(s, owner) && SameView(s.mem, t.mem, owner) && SameData(s.mem, t.mem, w) && t.spaces == s.spaces
    requires p in owner && owner[p].Held? && w == owner - {p}
    ensures (forall x | x in s.spaces :: SpaceOk(t.mem, x, t.spaces[x])) && Isolated(s, t, Release(p))
  {
    hide Owned, Pte, SpaceOk, SameSpace;
    forall x | x in s.spaces ensures SpaceOk(t.mem, x, t.spaces[x]) && SameSpace(s.mem, t.mem, x) {
      InMemory(s.mem, owner, x);
      SpaceSame(s.mem, t.mem, owner, w, x);
      SpaceStays(s.mem, t.mem, x, s.spaces[x]);
    }
  }

  // ---- runs ----

  /** No valid operation panics; each keeps the invariant, so every page stays accounted for,
      and changes no space but its own. */
  lemma {:induction false} StepConserves(s: Sys, owner: map<nat, Place>, op: Op) returns (w: map<nat, Place>)
    requires Inv(s, owner) && Valid(s, op)
    ensures var r := Apply(s, op); r.Some? && Inv(r.value, w) && Isolated(s, r.value, op)
  {
    hide Inv, Isolated, ApplyCreate, ApplyFork;
    match op
    case Create => w := CreateStep(s, owner);
    case Grow(d, sz) => w := GrowStep(s, owner, d, sz);
    case Shrink(d, sz) => w := ShrinkStep(s, owner, d, sz);
    case Fork(d) => w := ForkStep(s, owner, d);
    case Destroy(d) => w := DestroyStep(s, owner, d);
    case Store(d, v, page) => w := StoreStep(s, owner, d, v, page);
    case Guard(d, v) => w := GuardStep(s, owner, d, v);
    case Grab => w := GrabStep(s, owner);
    case Release(p) => w := ReleaseStep(s, owner, p);
  }

  ghost predicate Reachable(s: Sys) {
    exists owner :: Inv(s, owner)
  }

  ghost predicate Run(states: seq<Sys>, ops: seq<Op>) {
    && |states| == |ops| + 1
    && forall i | 0 <= i < |ops| :: SysOk(states[i]) && Valid(states[i], ops[i]) && Apply(states[i], ops[i]) == Some(states[i + 1])
  }

  lemma {:induction false} RunConserves(states: seq<Sys>, ops: seq<Op>)
    requires Run(states, ops) && Reachable(states[0])
    ensures forall i | 0 <= i < |states| :: Reachable(states[i])
    ensures forall i | 0 <= i < |ops| :: Isolated(states[i], states[i + 1], ops[i])
  {
    hide Inv, Isolated, Apply, Valid;
    for i := 0 to |ops|
      invariant forall k | 0 <= k <= i :: Reachable(states[k])
      invariant forall k | 0 <= k < i :: Isolated(states[k], states[k + 1], ops[k])
    {
      var owner :| Inv(states[i], owner);
      var w := StepConserves(states[i], owner, ops[i]);
    }
  }

  /** Over every run: in each space the processor lets user mode reach no page at or above the
      process size, every page below it can be written, and no kernel page is open to user mode. */
  lemma {:induction false} UserReachesOnlyItsMemory(s: Sys, d: nat, v: nat)
    requires Reachable(s) && d in s.spaces && v < VPAGES
    ensures SysOk(s)
    ensures var a := Allowed(s.mem, d, v);
            && (v < PagesUp(s.spaces[d]) <==> a.Access? && v < UPAGES)
            && (v < PagesUp(s.spaces[d]) ==> a.write)
            && (a.Access? && a.user ==> v < PagesUp(s.spaces[d]))
            && (UPAGES <= v ==> a == Grants(KernelPte(s.mem.lay, v)))
  {
    hide Owned, Pte, KernelPte, Allowed;
    var owner :| Inv(s, owner);
    assert SpaceOk(s.mem, d, s.spaces[d]);
    RightsOfEntry(s.mem, owner, d, v);
    if UPAGES <= v {
      KernelRights(s.mem.lay, v);
    } else if v < PagesUp(s.spaces[d]) {
      assert UserFlags(Pte(s.mem, d, v));
    }
  }

  /** When no space is left, the free pages are exactly the managed pages that are neither held
      nor lost, each on the list once. */
  lemma {:induction false} AllReturned(s: Sys)
    requires Reachable(s) && s.spaces == map[]
    ensures forall p: nat :: p in s.mem.free <==> Managed(s.mem, p) && p !in s.held && p !in s.lost
    ensures forall i, j | 0 <= i < j < |s.mem.free| :: s.mem.free[i] != s.mem.free[j]
  {
    hide At, SpaceOk;
    var owner :| Inv(s, owner);
    forall p: nat ensures p in s.mem.free <==> Managed(s.mem, p) && p !in s.held && p !in s.lost {
      if p in s.mem.free {
        var i :| 0 <= i < |s.mem.free| && s.mem.free[i] == p;
      }
    }
  }

  /** After boot, when freerange has freed every managed page once, runs start. */
  lemma {:induction false} BootReachable(m: Mem)
    requires Shape(m) && (forall p: nat :: p in m.free <==> Managed(m, p))
    requires forall i, j | 0 <= i < j < |m.free| :: m.free[i] != m.free[j]
    ensures Reachable(Sys(m, map[], {}, {}))
  {
    var s, owner := Sys(m, map[], {}, {}), map[];
    assert Owned(m, owner) by {
      forall i | 0 <= i < |m.free| ensures Managed(m, m.free[i]) {
        assert m.free[i] in m.free;
      }
    }
    assert Inv(s, owner);
  }

  // ---- exactly which pages are lost ----

  function Elems(free: seq<nat>): (r: set<nat>) {
    set p | p in free
  }

  lemma MissingAll(m: Mem, t: Mem)
    requires t.free == []
    ensures Missing(m, t) == Elems(m.free)
  {
  }

  lemma {:induction false} FreeNotLost(s: Sys, owner: map<nat, Place>)
    requires Inv(s, owner)
    ensures Elems(s.mem.free) !! s.lost
  {
    hide At, SpaceOk;
  }

  /** setupkvm loses pages exactly with at least one and fewer than 65 free, and then all of them. */
  lemma {:induction false} CreateLoss(s: Sys, owner: map<nat, Place>)
    requires Inv(s, owner)
    ensures var r, f := ApplyCreate(s), |s.mem.free|;
            && r.Some?
            && r.value.lost == s.lost + (if f < DIRPAGES then Elems(s.mem.free) else {})
            && (r.value.lost != s.lost <==> 0 < f < DIRPAGES)
            && (r.value.spaces != s.spaces <==> DIRPAGES <= f)
  {
    hide Owned, SameData, SameView, Pte, KernelPte, Missing, Setupkvm, SpaceOk, TablesUpTo, Adds;
    var w := SetupkvmOk(s.mem, owner);
    var r := Setupkvm(s.mem);
    FreeNotLost(s, owner);
    if r.Failed? {
      MissingAll(s.mem, r.mem);
      assert s.mem.free != [] ==> s.mem.free[0] in Elems(s.mem.free);
    } else {
      assert r.d in ApplyCreate(s).value.spaces;
    }
  }

  /** What copyuvm of an n-page space loses with this free list. */
  function ForkLosses(free: seq<nat>, n: nat): (r: set<nat>) {
    if |free| < DIRPAGES then Elems(free)
    else if StopsInMap(|free| - DIRPAGES, n) then {free[|free| - 1]}
    else {}
  }

  /** copyuvm loses every free page with fewer than 65, one page when the number of free pages is
      66 + 1025 k for some k with 1024 k below the number of pages, and else none. */
  lemma {:induction false} ForkLoss(s: Sys, owner: map<nat, Place>, d: nat)
    requires Inv(s, owner) && d in s.spaces
    ensures var r, f, n := ApplyFork(s, d), |s.mem.free|, PagesUp(s.spaces[d]);
            && r.Some?
            && r.value.lost == s.lost + ForkLosses(s.mem.free, n)
            && (r.value.lost != s.lost <==> 0 < f < DIRPAGES || StopsInMap(f - DIRPAGES, n))
            && (r.value.spaces != s.spaces <==> DIRPAGES + CopyCost(n) <= f)
  {
    hide Owned, SameData, Pte, KernelPte, Missing, CopyOf, Copyuvm, Adds, StopsInMap, CopyCost;
    assert SpaceOk(s.mem, d, s.spaces[d]);
    var w := CopyuvmOk(s.mem, owner, d, s.spaces[d]);
    var r := Copyuvm(s.mem, d, s.spaces[d]);
    FreeNotLost(s, owner);
    if r.NoKvm? {
      MissingAll(s.mem, r.mem);
      assert s.mem.free != [] ==> s.mem.free[0] in Elems(s.mem.free);
    } else if r.CopyFailed? {
      MissingIs(s.mem, owner, r.mem, w);
      assert (set p | p in w && p !in owner) == if r.lost.Some? then {r.lost.value} else {};
      assert r.lost.Some? ==> r.lost.value in Elems(s.mem.free);
    } else {
      assert r.c in ApplyFork(s, d).value.spaces;
    }
  }

  predicate AtTable(f: nat, n: nat, k: nat) {
    1024 * k < n && f == DIRPAGES + 1 + 1025 * k
  }

  /** The condition under which one page is lost, as an equation. */
  lemma {:induction false} StopsExactly(f: nat, n: nat)
    ensures StopsInMap(f - DIRPAGES, n) <==> exists k: nat :: AtTable(f, n, k)
  {
    if StopsInMap(f - DIRPAGES, n) {
      assert AtTable(f, n, (f - DIRPAGES - 1) / 1025);
    }
    forall k: nat | AtTable(f, n, k) ensures StopsInMap(f - DIRPAGES, n) {
      assert (1025 * k) % 1025 == 0 && (1025 * k) / 1025 == k;
    }
  }

  /** With one free page, setupkvm takes it for the directory, fails, and the page is gone. */
  lemma {:induction false} LastPageLost(m: Mem)
    requires Shape(m) && |m.free| == 1
    ensures Setupkvm(m).Failed? && Missing(m, Setupkvm(m).mem) == {m.free[0]}
  {
    var d := m.free[0];
    var z := Put(Kalloc(m), d, ZeroPage());
    assert z.free == [];
    var e := Kmap(z.lay)[0];
    assert !Present(z.pages[d][e.v / NENTRIES]);
    assert Walk(z, d, e.v) == NoMem(z);
    assert MapPage(z, d, e.v, e.frame, e.perm) == NoMem(z);
    assert MapRange(z, d, e.v, e.n, e.frame, e.perm) == NoMem(z);
    assert MapAll(z, d, 0) == NoMem(z);
    assert m.free == [d];
  }

  /** With 66 free pages a fork of a process that has memory loses the last of them. */
  lemma {:induction false} ForkPageLost(s: Sys, owner: map<nat, Place>, d: nat)
    requires Inv(s, owner) && d in s.spaces && s.spaces[d] > 0 && |s.mem.free| == DIRPAGES + 1
    ensures ApplyFork(s, d).Some? && ApplyFork(s, d).value.lost == s.lost + {s.mem.free[DIRPAGES]}
    ensures s.mem.free[DIRPAGES] !in s.lost
  {
    ForkLoss(s, owner, d);
    StopsExactly(|s.mem.free|, PagesUp(s.spaces[d]));
    assert AtTable(|s.mem.free|, PagesUp(s.spaces[d]), 0);
    FreeNotLost(s, owner);
    assert s.mem.free[DIRPAGES] in Elems(s.mem.free);
  }

  // ---- a run that loses a page ----

  lemma {:induction false} RunThen(states: seq<Sys>, ops: seq<Op>, op: Op, t: Sys)
    requires Run(states, ops) && SysOk(states[|ops|]) && Valid(states[|ops|], op) && Apply(states[|ops|], op) == Some(t)
    ensures Run(states + [t], ops + [op])
  {
    hide Apply, Valid, SysOk;
  }

  /** A space of one page from a fresh one; at most two pages are taken. */
  lemma {:induction false} GrowFirst(s: Sys, owner: map<nat, Place>, d: nat)
    requires Inv(s, owner) && d in s.spaces && s.spaces[d] == 0 && |s.mem.free| >= 2
    ensures var r := Apply(s, Grow(d, 1));
            && r.Some? && r.value.spaces == s.spaces[d := 1] && r.value.lost == s.lost && |r.value.mem.free| >= |s.mem.free| - 2
  {
    hide Owned, Pte, GrowRange, SpaceOk, Allocuvm;
    FirstUnmapped(s.mem, d);
    OnePageGrows(s.mem, owner, d);
    GrownIs(s.mem, d, 0, 1);
  }

  lemma FirstUnmapped(m: Mem, d: nat)
    requires SpaceOk(m, d, 0)
    ensures Unmapped(m, d, 0, 1)
  {
    hide Pte, KernelPte;
  }

  lemma {:induction false} OnePageGrows(m: Mem, owner: map<nat, Place>, d: nat)
    requires Owned(m, owner) && Live(owner, d) && d < NPAGES && Unmapped(m, d, 0, 1) && |m.free| >= 2
    ensures var r := GrowRange(m, d, 0, 1); r.Grown? && |r.mem.free| >= |m.free| - 2
  {
    hide Owned, Pte, GrowRange, Took, Beside, Fresh, SameData;
    GrowRangeCount(m, owner, d, 0, 1);
    var w, k := GrowRangeOk(m, owner, d, 0, 1);
    assert GrowNeed(m, d, 0, 1) <= 2;
  }

  lemma GrownIs(m: Mem, d: nat, oldsz: nat, newsz: nat)
    requires Shape(m) && d < NPAGES && oldsz <= newsz < KERNBASE && GrowRange(m, d, PagesUp(oldsz), PagesUp(newsz)).Grown?
    ensures Allocuvm(m, d, oldsz, newsz) == Size(GrowRange(m, d, PagesUp(oldsz), PagesUp(newsz)).mem, newsz)
  {
  }

  /** A process with one page, and no page lost so far. */
  ghost predicate Ready(s: Sys, owner: map<nat, Place>, d: nat) {
    Inv(s, owner) && d in s.spaces && s.spaces[d] == 1 && s.lost == {} && |s.mem.free| >= DIRPAGES + 1
  }

  lemma {:induction false} FirstProcess(s0: Sys, owner0: map<nat, Place>) returns (s1: Sys, s: Sys, owner: map<nat, Place>, d: nat)
    requires Inv(s0, owner0) && s0.lost == {} && |s0.mem.free| >= 133
    ensures SysOk(s0) && Valid(s0, Create) && Apply(s0, Create) == Some(s1)
    ensures SysOk(s1) && Valid(s1, Grow(d, 1)) && Apply(s1, Grow(d, 1)) == Some(s)
    ensures Ready(s, owner, d)
  {
    hide Inv, Apply, Setupkvm;
    CreateRoom(s0, owner0);
    d := Setupkvm(s0.mem).d;
    s1 := ApplyCreate(s0).value;
    var w := StepConserves(s0, owner0, Create);
    GrowFirst(s1, w, d);
    s := Apply(s1, Grow(d, 1)).value;
    owner := StepConserves(s1, w, Grow(d, 1));
  }

  /** Other kernel code takes pages until 66 are free. */
  lemma {:induction false} GrabDown(states: seq<Sys>, ops: seq<Op>, owner0: map<nat, Place>, d: nat)
    returns (states': seq<Sys>, ops': seq<Op>, owner: map<nat, Place>)
    requires Run(states, ops) && Ready(states[|ops|], owner0, d)
    ensures Run(states', ops') && states'[0] == states[0]
    ensures Ready(states'[|ops'|], owner, d) && |states'[|ops'|].mem.free| == DIRPAGES + 1
    decreases |states[|ops|].mem.free|
  {
    hide Inv, Apply, Valid, SysOk, Run;
    states', ops', owner := states, ops, owner0;
    RunLength(states, ops);
    var s := states[|ops|];
    if |s.mem.free| > DIRPAGES + 1 {
      GrabOne(s);
      var t := Apply(s, Grab).value;
      var w := StepConserves(s, owner0, Grab);
      RunThen(states, ops, Grab, t);
      states', ops', owner := GrabDown(states + [t], ops + [Grab], w, d);
    }
  }

  lemma RunLength(states: seq<Sys>, ops: seq<Op>)
    requires Run(states, ops)
    ensures |states| == |ops| + 1
  {
  }

  /** A run from boot that ends with a page lost: a process with one page forks when other
      kernel code has left 66 pages free. */
  lemma {:induction false} ForkLossRun(m: Mem) returns (states: seq<Sys>, ops: seq<Op>)
    requires Shape(m) && (forall p: nat :: p in m.free <==> Managed(m, p)) && |m.free| >= 133
    requires forall i, j | 0 <= i < j < |m.free| :: m.free[i] != m.free[j]
    ensures Run(states, ops) && states[0] == Sys(m, map[], {}, {})
    ensures |states[|ops|].lost| == 1
  {
    hide Inv, Apply, Valid, SysOk, ApplyFork;
    var s := Sys(m, map[], {}, {});
    BootReachable(m);
    var owner :| Inv(s, owner);
    var s1, s2, w, d := FirstProcess(s, owner);
    states, ops := [s, s1, s2], [Create, Grow(d, 1)];
    states, ops, w := GrabDown(states, ops, w, d);
    s := states[|ops|];
    ForkPageLost(s, w, d);
    ForkIs(s, d);
    var t := ApplyFork(s, d).value;
    RunThen(states, ops, Fork(d), t);
    states, ops := states + [t], ops + [Fork(d)];
    assert t.lost == {s.mem.free[DIRPAGES]};
  }

  lemma {:induction false} CreateRoom(s: Sys, owner: map<nat, Place>)
    requires Inv(s, owner) && |s.mem.free| >= DIRPAGES
    ensures SysOk(s) && Valid(s, Create) && Apply(s, Create) == ApplyCreate(s)
    ensures var r := Setupkvm(s.mem);
            r.Built? && ApplyCreate(s) == Some(s.(mem := r.mem, spaces := s.spaces[r.d := 0])) && |r.mem.free| == |s.mem.free| - DIRPAGES
  {
    hide Owned, Setupkvm, Pte, KernelPte, SpaceOk;
    var w := SetupkvmOk(s.mem, owner);
  }

  lemma GrabOne(s: Sys)
    requires SysOk(s) && s.mem.free != []
    ensures Valid(s, Grab)
    ensures var r := Apply(s, Grab);
            r.Some? && r.value.spaces == s.spaces && r.value.lost == s.lost && |r.value.mem.free| == |s.mem.free| - 1
  {
  }

  lemma ForkIs(s: Sys, d: nat)
    requires SysOk(s) && d in s.spaces
    ensures Valid(s, Fork(d)) && Apply(s, Fork(d)) == ApplyFork(s, d)
  {
  }
}
