/** log_write tests the log's size before taking log.lock (log.c:216-221). Two processes
    that pass the test together can both append, so in-budget operations overrun a log
    region of at most LOGSIZE blocks; with a larger region the reservation protects it. */
module LogOverflow {
  import opened Disk
  import opened LogDisk
  import opened LogSystem

  /** States some run of in-budget operations reaches. */
  ghost predicate Reaches(L: Layout, s: State) {
    exists ss: seq<State>, es: seq<Event> ::
      Run(L, ss, es) && (forall i | 0 <= i < |ss| :: Budgeted(ss[i])) && ss[|ss| - 1] == s
  }

  lemma ReachStart(L: Layout, s: State)
    requires Init(L, s)
    ensures Reaches(L, s)
  {
    assert Run(L, [s], []);
    assert [s][|[s]| - 1] == s;
  }

  lemma ReachStep(L: Layout, s: State, e: Event, t: State)
    requires Reaches(L, s) && Step(L, s, e, t) && Budgeted(t)
    ensures Reaches(L, t)
  {
    hide Step, Init, Budgeted;
    var ss: seq<State>, es: seq<Event> :|
      Run(L, ss, es) && (forall i | 0 <= i < |ss| :: Budgeted(ss[i])) && ss[|ss| - 1] == s;
    var ss', es' := ss + [t], es + [e];
    forall i | 0 <= i < |es'| ensures Step(L, ss'[i], es'[i], ss'[i + 1]) {
      if i < |es| {
        assert Step(L, ss[i], es[i], ss[i + 1]);
      }
    }
    assert Run(L, ss', es');
    assert ss'[|ss'| - 1] == t;
  }

  /** Where LOGSIZE home blocks in a row start: before the log if they fit there, else after it. */
  function First(L: Layout): nat { if L.start >= LOGSIZE then 0 else L.start + L.size }

  function Clamp(a: int, top: nat): nat { if a < 0 then 0 else if a < top then a else top }

  /** Three operations, the first allowed ten blocks and the others nine, after j appends. */
  function Ops(j: nat): map<int, Op> {
    map[0 := Op(0, Clamp(j, 10), false), 1 := Op(0, Clamp(j - 10, 9), false), 2 := Op(0, Clamp(j - 19, 9), false)]
  }

  function Turn(j: nat): int {
    if j < 10 then 0 else if j < 19 then 1 else 2
  }

  function Blocks(L: Layout, j: nat): seq<nat> {
    seq(j, (i: nat) => First(L) + i)
  }

  function Pinned(L: Layout, j: nat): map<nat, Block> {
    if j == 0 then map[] else Pinned(L, j - 1)[First(L) + j - 1 := ZeroBlock()]
  }

  function Filled(L: Layout, d: Image, j: nat, ops: map<int, Op>): State {
    State(Dev(d, Pinned(L, j)), Blocks(L, j), 3, false, ops, Up, 0, false)
  }

  predicate Room(L: Layout, d: Image) {
    && WfImage(L, d) && Head(d[L.start]) == []
    && 2 <= L.size && First(L) + LOGSIZE <= |d|
  }

  /** A checked operation appends the next block. */
  lemma {:induction false} FillStep(L: Layout, d: Image, j: nat, p: int, ops: map<int, Op>)
    requires j < LOGSIZE && Room(L, d) && p in ops && ops[p].checked && ops[p].spent < MAXOPBLOCKS
    requires Reaches(L, Filled(L, d, j, ops)) && Budgeted(Filled(L, d, j, ops))
    ensures var o := ops[p := ops[p].(checked := false, spent := ops[p].spent + 1)];
            Reaches(L, Filled(L, d, j + 1, o))
  {
    hide Head, Word, Reaches;
    var s := Filled(L, d, j, ops);
    var b := First(L) + j;
    var o := ops[p := ops[p].(checked := false, spent := ops[p].spent + 1)];
    var t := Filled(L, d, j + 1, o);
    assert Slot(s.lh, b) == |s.lh|;
    assert Absorb(s.lh, b) == t.lh;
    assert s.dev.dirty[b := ZeroBlock()] == t.dev.dirty;
    assert Step(L, s, Append(p, b, ZeroBlock()), t);
    ReachStep(L, s, Append(p, b, ZeroBlock()), t);
  }

  lemma {:induction false} CheckStep(L: Layout, d: Image, j: nat, p: int, ops: map<int, Op>)
    requires j + 1 < L.size <= LOGSIZE && Room(L, d) && p in ops && !ops[p].checked
    requires Reaches(L, Filled(L, d, j, ops)) && Budgeted(Filled(L, d, j, ops))
    ensures Reaches(L, Filled(L, d, j, ops[p := ops[p].(checked := true)]))
  {
    hide Head, Word, Reaches, Slot;
    var s := Filled(L, d, j, ops);
    var t := Filled(L, d, j, ops[p := ops[p].(checked := true)]);
    assert Step(L, s, Check(p), t);
    ReachStep(L, s, Check(p), t);
  }

  /** Boot, then admit three operations. */
  lemma {:induction false} Admit(L: Layout, d: Image) returns (d': Image)
    requires Room(L, d)
    ensures Room(L, d') && Reaches(L, Filled(L, d', 0, Ops(0)))
  {
    hide Head, Word, Reaches, RecoverRun;
    var s0 := State(Dev(d, map[]), Head(d[L.start]), 0, false, map[], Recovering(d, 0), 0, false);
    ReachStart(L, s0);
    RecoverKeepsRec(L, d, 1);
    d' := RecoverRun(L, Dev(d, map[]), [], 1).disk;
    RecoverDone(L, d);
    var dev' := RecoverRun(L, Dev(d, map[]), [], 1);
    assert dev'.dirty.Keys == {};
    var s1 := s0.(dev := dev', mode := Recovering(d, 1));
    ReachStep(L, s0, RecoverWrite, s1);
    var s2 := s1.(lh := [], mode := Up);
    ReachStep(L, s1, RecoverReturn, s2);
    var o1: map<int, Op> := map[0 := Op(0, 0, false)];
    var o2 := o1[1 := Op(0, 0, false)];
    var o3 := o2[2 := Op(0, 0, false)];
    ReachStep(L, s2, Begin(0), s2.(outstanding := 1, ops := o1));
    ReachStep(L, s2.(outstanding := 1, ops := o1), Begin(1), s2.(outstanding := 2, ops := o2));
    ReachStep(L, s2.(outstanding := 2, ops := o2), Begin(2), s2.(outstanding := 3, ops := o3));
    assert s2.(outstanding := 3, ops := o3) == Filled(L, d', 0, Ops(0)) by {
      assert dev' == Filled(L, d', 0, Ops(0)).dev;
      assert Ops(0) == o3;
    }
  }

  lemma {:induction false} Fill(L: Layout, d: Image, j: nat)
    requires Room(L, d) && j + 2 <= L.size <= LOGSIZE
    requires Reaches(L, Filled(L, d, 0, Ops(0)))
    ensures Reaches(L, Filled(L, d, j, Ops(j)))
  {
    hide Head, Word, Reaches;
    if j > 0 {
      Fill(L, d, j - 1);
      var p, o := Turn(j - 1), Ops(j - 1);
      CheckStep(L, d, j - 1, p, o);
      var c := o[p := o[p].(checked := true)];
      FillStep(L, d, j - 1, p, c);
      assert c[p := c[p].(checked := false, spent := c[p].spent + 1)] == Ops(j);
    }
  }

  /** Two operations, both within budget, both past the size test: the second append
      lands on the first block after the log region. */
  lemma {:induction false} Overflow(L: Layout, d: Image) returns (s: State)
    requires Room(L, d) && L.size <= LOGSIZE
    ensures Reaches(L, s) && |s.lh| == L.size && !RegionOk(L, s)
  {
    hide Head, Word, Reaches;
    var d' := Admit(L, d);
    var j := L.size - 2;
    Fill(L, d', j);
    var o := Ops(j);
    CheckStep(L, d', j, 1, o);
    var o1 := o[1 := o[1].(checked := true)];
    CheckStep(L, d', j, 2, o1);
    var o2 := o1[2 := o1[2].(checked := true)];
    FillStep(L, d', j, 1, o2);
    var o3 := o2[1 := o2[1].(checked := false, spent := o2[1].spent + 1)];
    FillStep(L, d', j + 1, 2, o3);
    s := Filled(L, d', j + 2, o3[2 := o3[2].(checked := false, spent := o3[2].spent + 1)]);
  }

  lemma {:induction false} RoomOnZeroDisk(L: Layout)
    requires 2 <= L.size <= LOGSIZE && L.start + L.size <= 0x1_0000_0000
    ensures exists d :: Room(L, d)
  {
    hide Word;
    var n := if L.start >= LOGSIZE then L.start + L.size else L.start + L.size + LOGSIZE;
    var d: Image := seq(n, (_: nat) => ZeroBlock());
    ZeroWord(0);
    assert Room(L, d);
  }

  /** With one block in the region every log_write panics, so nothing is ever checked. */
  lemma {:induction false} NothingChecked(L: Layout, ss: seq<State>, es: seq<Event>, i: nat)
    requires Run(L, ss, es) && i < |ss| && L.size == 1
    ensures forall p | p in ss[i].ops :: !ss[i].ops[p].checked
  {
    hide Head, Word, CommitRun, RecoverRun, CanRun, WfImage;
    if i > 0 {
      NothingChecked(L, ss, es, i - 1);
      assert Step(L, ss[i - 1], es[i - 1], ss[i]);
    }
  }

  lemma {:induction false} OneBlockSafe(L: Layout, ss: seq<State>, es: seq<Event>)
    requires Run(L, ss, es) && L.size == 1
    ensures forall i | 0 <= i < |ss| :: SoloChecks(ss[i])
  {
    hide Run;
    forall i | 0 <= i < |ss| ensures SoloChecks(ss[i]) {
      NothingChecked(L, ss, es, i);
    }
  }

  lemma {:induction false} NoDisk(L: Layout, ss: seq<State>, es: seq<Event>)
    requires Run(L, ss, es)
    ensures L.size > 0 && L.start + L.size <= 0x1_0000_0000
  {
    hide Head, Word, Step;
  }

  /** In-budget operations keep the log inside its region except when the region has 2 to
      LOGSIZE blocks; mkfs gives it LOGSIZE. (A region past the last block number has no disk,
      and with a single block every log_write panics.) */
  lemma {:induction false} RegionBoundExactly(L: Layout)
    ensures (forall s | Reaches(L, s) :: RegionOk(L, s)) <==> !(2 <= L.size <= LOGSIZE && L.start + L.size <= 0x1_0000_0000)
  {
    if 2 <= L.size <= LOGSIZE && L.start + L.size <= 0x1_0000_0000 {
      RoomOnZeroDisk(L);
      var d :| Room(L, d);
      var s := Overflow(L, d);
    } else {
      forall s | Reaches(L, s)
        ensures RegionOk(L, s)
      {
        var ss: seq<State>, es: seq<Event> :|
          Run(L, ss, es) && (forall i | 0 <= i < |ss| :: Budgeted(ss[i])) && ss[|ss| - 1] == s;
        NoDisk(L, ss, es);
        if L.size == 1 {
          OneBlockSafe(L, ss, es);
        }
        assert Disciplined(L, ss);
        RunSafe(L, ss, es, |ss| - 1);
      }
    }
  }
}
