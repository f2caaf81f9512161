/** What the processor allows at a virtual page: both levels of the table must be present, and
    a right holds when both levels grant it. clearpteu (vm.c) takes the user right away. */
module VmRights {
  import opened Disk
  import opened Options
  import opened VmMem
  import opened VmSteps

  datatype Rights = NoAccess | Access(write: bool, user: bool)

  predicate WriteBit(w: word) { Flags(w) / 2 % 2 == 1 }

  predicate UserBit(w: word) { Flags(w) / 4 % 2 == 1 }

  /** The rights an entry grants by itself. */
  function Grants(w: word): (r: Rights) {
    if Present(w) then Access(WriteBit(w), UserBit(w)) else NoAccess
  }

  function Allowed(m: Mem, d: nat, v: nat): (r: Rights)
    requires Shape(m) && d < NPAGES && v < VPAGES
  {
    var e := m.pages[d][v / NENTRIES];
    if !Present(e) || Frame(e) >= NPAGES then NoAccess
    else
      var w := m.pages[Frame(e)][v % NENTRIES];
      if !Present(w) then NoAccess else Access(WriteBit(e) && WriteBit(w), UserBit(e) && UserBit(w))
  }

  lemma PresentFlag(w: word)
    ensures Present(w) == (Flags(w) % 2 == 1)
  {
  }

  /** In every live directory the rights of a page are those of its table entry. */
  lemma {:induction false} RightsOfEntry(m: Mem, owner: map<nat, Place>, d: nat, v: nat)
    requires Owned(m, owner) && Live(owner, d) && v < VPAGES
    ensures d < NPAGES && Allowed(m, d, v) == Grants(Pte(m, d, v))
  {
    TableOf(m, owner, d, v / NENTRIES);
    var e := m.pages[d][v / NENTRIES];
    if Present(e) {
      assert Flags(e) == PWU;
    }
  }

  lemma {:induction false} RightsOfAll(m: Mem, owner: map<nat, Place>, d: nat)
    requires Owned(m, owner) && Live(owner, d)
    ensures d < NPAGES && forall v: nat | v < VPAGES :: Allowed(m, d, v) == Grants(Pte(m, d, v))
  {
    hide Owned, Pte, Allowed, Grants;
    RightsOfEntry(m, owner, d, 0);
    forall v: nat | v < VPAGES ensures Allowed(m, d, v) == Grants(Pte(m, d, v)) {
      RightsOfEntry(m, owner, d, v);
    }
  }

  /** Equal flags grant equal rights. */
  lemma SameFlags(w: word, x: word)
    requires Flags(w) == Flags(x)
    ensures Grants(w) == Grants(x)
  {
    PresentFlag(w);
    PresentFlag(x);
  }

  // ---- clearpteu ----

  lemma Bits(f: nat)
    requires f < 4096 && f / 4 % 2 == 1
    ensures f >= 4 && (f - 4) / 4 % 2 == 0 && (f - 4) / 2 % 2 == f / 2 % 2 && (f - 4) % 2 == f % 2
  {
  }

  /** w & ~PTE_U */
  function WithoutU(w: word): (r: word)
    ensures Frame(r) == Frame(w) && Grants(r) == (if Present(w) then Access(WriteBit(w), false) else NoAccess)
    ensures Flags(r) == if UserBit(w) then Flags(w) - 4 else Flags(w)
  {
    var f := Flags(w);
    PresentFlag(w);
    if UserBit(w) then Bits(f); Entry(Frame(w), f - 4) else w
  }

  /** clearpteu; None is its panic. */
  function Clearpteu(m: Mem, d: nat, v: nat): (r: Option<Mem>)
    requires Shape(m) && d < NPAGES && v < VPAGES
    ensures r.Some? ==> Shape(r.value)
  {
    var e := m.pages[d][v / NENTRIES];
    if !Present(e) || Frame(e) >= NPAGES then None  // no table, or no such memory
    else Some(SetPte(m, d, v, WithoutU(m.pages[Frame(e)][v % NENTRIES])))
  }

  /** clearpteu panics exactly when the page has no table. Otherwise it takes user access to that
      page away, keeps its frame and its write right, and changes no other mapping and no page. */
  lemma {:induction false} ClearpteuOk(m: Mem, owner: map<nat, Place>, d: nat, v: nat)
    requires Owned(m, owner) && Live(owner, d) && v < VPAGES
    ensures d < NPAGES && (Clearpteu(m, d, v).None? <==> !Present(m.pages[d][v / NENTRIES]))
    ensures Clearpteu(m, d, v).Some? ==>
              var t := Clearpteu(m, d, v).value;
              && Owned(t, owner) && SameData(m, t, owner) && OneEntry(m, t, owner, d, v, WithoutU(Pte(m, d, v)))
              && Allowed(t, d, v) == (if Allowed(m, d, v).Access? then Access(Allowed(m, d, v).write, false) else NoAccess)
  {
    hide SetPte;
    TableOf(m, owner, d, v / NENTRIES);
    if Present(m.pages[d][v / NENTRIES]) {
      var w := WithoutU(Pte(m, d, v));
      var t := SetPte(m, d, v, w);
      SetPteView(m, owner, d, v, w);
      SetPteData(m, owner, d, v, w);
      SetPteOpen(m, owner, d, v, w);
      hide Pte, Allowed, WithoutU;
      forall q | PlaceOk(q) && Live(owner, q.d) ensures At(t, q) == At(m, q) {
        SetPtePlaces(m, owner, d, v, w, q);
      }
      SameLinks(m, t, owner);
      RightsOfEntry(m, owner, d, v);
      RightsOfEntry(t, owner, d, v);
    }
  }
}
