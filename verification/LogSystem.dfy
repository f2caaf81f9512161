/** Group commit as a state machine (log.c): any number of processes between begin_op and
    end_op, commit and recovery advancing one block write at a time, a crash at any moment.
    The machine refines a store whose transactions commit atomically. */
module LogSystem {
  import opened Disk
  import opened LogDisk
  import opened Sums

  /** A process inside begin_op/end_op: the transaction it joined, how many new blocks it
      has added to the log, and whether it is inside log_write between the unlocked size
      test and the locked append. */
  datatype Op = Op(epoch: nat, spent: nat, checked: bool)

  datatype Mode = Up | Committing(from: Dev, k: nat) | Recovering(image: Image, k: nat)

  datatype State = State(
    dev: Dev,
    lh: seq<nat>,          // log.lh.block[0..n]
    outstanding: int,
    committing: bool,
    ops: map<int, Op>,
    mode: Mode,
    epoch: nat,            // counts transactions
    panicked: bool)

  datatype Event =
    | Begin(p: int)
    | Check(p: int)
    | Append(p: int, b: nat, data: Block)
    | End(p: int)
    | CommitWrite
    | CommitReturn
    | Crash
    | RecoverWrite
    | RecoverReturn

  /** The size test at the head of log_write. */
  predicate TooBig(L: Layout, s: State) {
    |s.lh| >= LOGSIZE || |s.lh| >= L.size - 1 || s.outstanding < 1
  }

  function Absorb(lh: seq<nat>, b: nat): (r: seq<nat>) {
    if Slot(lh, b) < |lh| then lh else lh + [b]
  }

  ghost predicate Step(L: Layout, s: State, e: Event, t: State) {
    match e
    case Begin(p) =>
      && !s.panicked && !s.mode.Recovering? && p !in s.ops
      && !s.committing && |s.lh| + (s.outstanding + 1) * MAXOPBLOCKS <= LOGSIZE
      && t == s.(outstanding := s.outstanding + 1, ops := s.ops[p := Op(s.epoch, 0, false)])
    case Check(p) =>
      && !s.panicked && p in s.ops && !s.ops[p].checked
      && t == if TooBig(L, s) then s.(panicked := true)
              else s.(ops := s.ops[p := s.ops[p].(checked := true)])
    case Append(p, b, data) =>
      && !s.panicked && p in s.ops && s.ops[p].checked && Home(L, b) && b < |s.dev.disk|
      && var isNew := Slot(s.lh, b) == |s.lh|;
         t == s.(dev := s.dev.(dirty := s.dev.dirty[b := data]), lh := Absorb(s.lh, b),
                 ops := s.ops[p := s.ops[p].(checked := false, spent := s.ops[p].spent + if isNew then 1 else 0)])
    case End(p) =>
      && !s.panicked && p in s.ops && !s.ops[p].checked
      && var u := s.(outstanding := s.outstanding - 1, ops := s.ops - {p});
         t == if s.committing then u.(panicked := true)
              else if u.outstanding == 0 then u.(committing := true, mode := Committing(s.dev, 0))
              else u
    case CommitWrite =>
      && !s.panicked && s.mode.Committing? && |s.lh| > 0 && CanRun(L, s.mode.from, s.lh)
      && s.mode.k < 2 * |s.lh| + 2
      && t == s.(dev := CommitRun(L, s.mode.from, s.lh, s.mode.k + 1), mode := Committing(s.mode.from, s.mode.k + 1))
    case CommitReturn =>
      && !s.panicked && s.mode.Committing? && (|s.lh| > 0 ==> s.mode.k == 2 * |s.lh| + 2)
      && t == s.(lh := [], committing := false, mode := Up, epoch := s.epoch + 1)
    case Crash =>
      && WfImage(L, s.dev.disk)
      && t == State(Dev(s.dev.disk, map[]), Head(s.dev.disk[L.start]), 0, false, map[],
                    Recovering(s.dev.disk, 0), s.epoch + 1, false)
    case RecoverWrite =>
      && !s.panicked && s.mode.Recovering? && CanRun(L, Dev(s.mode.image, map[]), s.lh) && s.mode.k <= |s.lh|
      && t == s.(dev := RecoverRun(L, Dev(s.mode.image, map[]), s.lh, s.mode.k + 1),
                 mode := Recovering(s.mode.image, s.mode.k + 1))
    case RecoverReturn =>
      && !s.panicked && s.mode.Recovering? && s.mode.k == |s.lh| + 1
      && t == s.(lh := [], mode := Up)
  }

  ghost predicate Init(L: Layout, s: State) {
    && WfImage(L, s.dev.disk)
    && s == State(Dev(s.dev.disk, map[]), Head(s.dev.disk[L.start]), 0, false, map[],
                  Recovering(s.dev.disk, 0), 0, false)
  }

  // ---- invariant ----

  /** Every logged block has its place inside the header array and the log region. */
  predicate RegionOk(L: Layout, s: State) {
    |s.lh| <= LOGSIZE && |s.lh| < L.size
  }

  ghost predicate Counts(s: State) {
    && s.outstanding == |s.ops|
    && s.committing == s.mode.Committing?
    && (!s.mode.Up? ==> s.ops == map[])
    && forall p | p in s.ops :: s.ops[p].epoch == s.epoch
  }

  ghost predicate DiskInv(L: Layout, s: State) {
    && WfImage(L, s.dev.disk)
    && match s.mode
       case Up => CommitReady(L, s.dev, s.lh)
       case Committing(from, k) =>
         && CommitReady(L, from, s.lh) && k <= (if |s.lh| == 0 then 0 else 2 * |s.lh| + 2)
         && s.dev == CommitRun(L, from, s.lh, k)
       case Recovering(image, k) =>
         && WfImage(L, image) && s.lh == Head(image[L.start]) && k <= |s.lh| + 1
         && CanRun(L, Dev(image, map[]), s.lh)
         && s.dev == RecoverRun(L, Dev(image, map[]), s.lh, k)
  }

  ghost predicate Inv(L: Layout, s: State) {
    Counts(s) && DiskInv(L, s)
  }

  lemma {:induction false} CountsStep(L: Layout, s: State, e: Event, t: State)
    requires Counts(s) && Step(L, s, e, t)
    ensures Counts(t)
  {
    hide CommitRun, RecoverRun, CanRun, WfImage, Head, Slot;
    match e
    case Begin(p) => assert t.ops.Keys == s.ops.Keys + {p};
    case Check(p) => assert t.ops.Keys == s.ops.Keys;
    case Append(p, _, _) => assert t.ops.Keys == s.ops.Keys;
    case End(p) =>
      assert t.ops.Keys == s.ops.Keys - {p};
      assert |t.ops| == |s.ops| - 1;
    case _ =>
  }

  lemma {:induction false} DiskInvStep(L: Layout, s: State, e: Event, t: State)
    requires Inv(L, s) && Step(L, s, e, t) && RegionOk(L, t)
    ensures DiskInv(L, t)
  {
    hide Head, Word, Slot, CommitRun, RecoverRun;
    match e
    case Append(p, b, data) =>
      AppendReady(L, s, e, t);
    case CommitWrite =>
      CommitCut(L, s.mode.from, s.lh, s.mode.k + 1);
    case CommitReturn =>
      if |s.lh| > 0 {
        CommitDone(L, s.mode.from, s.lh);
      } else {
        assert CommitRun(L, s.mode.from, [], 0) == s.mode.from by { EmptyCommit(L, s.mode.from); }
      }
    case Crash =>
      RecoverKeepsRec(L, s.dev.disk, 0);
      NoRecovery(L, s.dev.disk);
    case RecoverWrite =>
      RecoverKeepsRec(L, s.mode.image, s.mode.k + 1);
    case RecoverReturn =>
      RecoverDone(L, s.mode.image);
    case _ =>
      if t.mode.Committing? && s.mode.Up? {
        NoCommit(L, s.dev, s.lh);
      }
  }

  lemma EmptyCommit(L: Layout, dev: Dev)
    requires CanRun(L, dev, [])
    ensures CommitRun(L, dev, [], 0) == dev
  {
  }

  lemma NoCommit(L: Layout, dev: Dev, lh: seq<nat>)
    requires CanRun(L, dev, lh)
    ensures CommitRun(L, dev, lh, 0) == dev
  {
  }

  lemma NoRecovery(L: Layout, d: Image)
    requires WfImage(L, d) && CanRun(L, Dev(d, map[]), Head(d[L.start]))
    ensures RecoverRun(L, Dev(d, map[]), Head(d[L.start]), 0) == Dev(d, map[])
  {
  }

  lemma RecoverDone(L: Layout, d: Image)
    requires WfImage(L, d) && CanRun(L, Dev(d, map[]), Head(d[L.start]))
    ensures var r := RecoverRun(L, Dev(d, map[]), Head(d[L.start]), |Head(d[L.start])| + 1);
            CommitReady(L, r, [])
  {
    hide Word, PutHead, Slot, InstallRun;
    ClearKeepsRec(L, Dev(d, map[]), Head(d[L.start]));
  }

  lemma {:induction false} AppendReady(L: Layout, s: State, e: Event, t: State)
    requires Inv(L, s) && e.Append? && Step(L, s, e, t) && RegionOk(L, t)
    ensures CommitReady(L, t.dev, t.lh)
  {
    hide Head, Word, Slot, WfImage, CommitRun, RecoverRun;
    assert s.mode.Up?;
    assert Elems(t.lh) == Elems(s.lh) + {e.b};
    assert t.dev.dirty.Keys == s.dev.dirty.Keys + {e.b};
  }

  // ---- refinement of an atomic transactional store ----

  /** What block b holds after a crash now and a complete recovery. */
  ghost function Durable(L: Layout, s: State, b: nat): Block
    requires DiskInv(L, s) && b < |s.dev.disk|
  {
    Rec(L, s.dev.disk, b)
  }

  /** What bread shows file system code now. */
  ghost function View(L: Layout, s: State, b: nat): Block
    requires DiskInv(L, s) && b < |s.dev.disk|
  {
    match s.mode
    case Up => BRead(s.dev, b)
    case Committing(from, _) => BRead(from, b)
    case Recovering(_, _) => Rec(L, s.dev.disk, b)
  }

  lemma NothingLogged(L: Layout, dev: Dev, b: nat)
    requires CommitReady(L, dev, []) && b < |dev.disk|
    ensures BRead(dev, b) == Rec(L, dev.disk, b)
  {
    assert b !in Elems([]);
  }

  lemma {:induction false} CommitWriteRefines(L: Layout, s: State, t: State, b: nat)
    requires Inv(L, s) && Step(L, s, CommitWrite, t) && DiskInv(L, t)
    requires b < |s.dev.disk| && Home(L, b)
    ensures Durable(L, t, b) == if s.mode.k == |s.lh| then View(L, s, b) else Durable(L, s, b)
  {
    hide Head, Word, Slot, CommitRun, RecoverRun, WfImage, CommitReady, Rec, CanRun, Counts;
    var from, k := s.mode.from, s.mode.k;
    assert CommitReady(L, from, s.lh) && s.dev == CommitRun(L, from, s.lh, k);
    CommitCut(L, from, s.lh, k);
    CommitCut(L, from, s.lh, k + 1);
  }

  lemma {:induction false} CommitReturnRefines(L: Layout, s: State, t: State, b: nat)
    requires Inv(L, s) && Step(L, s, CommitReturn, t) && DiskInv(L, t)
    requires b < |s.dev.disk| && Home(L, b)
    ensures View(L, t, b) == View(L, s, b)
  {
    hide Head, Word, Slot, CommitRun, RecoverRun, Rec;
    if |s.lh| > 0 {
      CommitDone(L, s.mode.from, s.lh);
    } else {
      EmptyCommit(L, s.mode.from);
    }
  }

  /** Each step of the log is a step of a store with two copies of every home block: an
      append changes one viewed block, the header write makes the whole view durable at
      once and only while no operation is in progress, a crash resets the view to the
      durable copy, and every other step changes neither. */
  lemma {:induction false} RefinesAtomicStore(L: Layout, s: State, e: Event, t: State, b: nat)
    requires Inv(L, s) && Step(L, s, e, t) && DiskInv(L, t)
    requires b < |s.dev.disk| && Home(L, b)
    ensures |t.dev.disk| == |s.dev.disk|
    ensures Durable(L, t, b) ==
            if e.CommitWrite? && s.mode.k == |s.lh| then View(L, s, b) else Durable(L, s, b)
    ensures View(L, t, b) ==
            if e.Append? && e.b == b then e.data else if e.Crash? then Durable(L, s, b) else View(L, s, b)
    ensures e.CommitWrite? ==> s.ops == map[] && s.outstanding == 0
  {
    hide Head, Word, Slot, CommitRun, RecoverRun, WfImage, CommitReady, Rec;
    match e
    case CommitWrite => CommitWriteRefines(L, s, t, b);
    case CommitReturn => CommitReturnRefines(L, s, t, b);
    case RecoverWrite =>
      RecoverKeepsRec(L, s.mode.image, s.mode.k);
      RecoverKeepsRec(L, s.mode.image, s.mode.k + 1);
    case RecoverReturn => NothingLogged(L, s.dev, b);
    case _ =>
  }

  // ---- reservation and region bound ----

  ghost function Unspent(ops: map<int, Op>): nat {
    Sum(Lefts(ops))
  }

  function Lefts(ops: map<int, Op>): map<int, nat> {
    map p | p in ops :: Left(ops[p])
  }

  function Left(op: Op): nat {
    if op.spent <= MAXOPBLOCKS then MAXOPBLOCKS - op.spent else 0
  }

  /** No operation in progress has added more than MAXOPBLOCKS blocks. */
  ghost predicate Budgeted(s: State) {
    forall p | p in s.ops :: s.ops[p].spent <= MAXOPBLOCKS
  }

  /** The log can still hold what every admitted operation may add. */
  ghost predicate Reserved(s: State) {
    |s.lh| + Unspent(s.ops) <= LOGSIZE
  }

  lemma UnspentPut(ops: map<int, Op>, p: int, op: Op)
    ensures Unspent(ops[p := op]) == Unspent(ops - {p}) + Left(op)
  {
    var left := Lefts(ops);
    assert Lefts(ops[p := op]) == left[p := Left(op)];
    assert Lefts(ops - {p}) == left - {p};
    SumUpdate(left, p, Left(op));
  }

  lemma UnspentDrop(ops: map<int, Op>, p: int)
    requires p in ops
    ensures Unspent(ops) == Unspent(ops - {p}) + Left(ops[p])
  {
    UnspentPut(ops, p, ops[p]);
    assert ops[p := ops[p]] == ops;
  }

  lemma UnspentAtMost(ops: map<int, Op>)
    ensures Unspent(ops) <= MAXOPBLOCKS * |ops|
  {
    var left := Lefts(ops);
    assert left.Keys == ops.Keys;
    SumAtMost(left, MAXOPBLOCKS);
  }

  lemma NoneUnspent()
    ensures Unspent(map[]) == 0
  {
  }

  lemma {:induction false} ReservedStep(L: Layout, s: State, e: Event, t: State)
    requires Counts(s) && Reserved(s) && Step(L, s, e, t) && Budgeted(t)
    ensures Reserved(t)
  {
    hide Head, Word, CommitRun, RecoverRun, WfImage, CanRun, Unspent;
    NoneUnspent();
    match e
    case Begin(p) =>
      UnspentPut(s.ops, p, t.ops[p]);
      assert s.ops - {p} == s.ops;
      UnspentAtMost(s.ops);
    case Check(p) =>
      UnspentDrop(s.ops, p);
      UnspentPut(s.ops, p, s.ops[p].(checked := true));
    case Append(p, b, _) =>
      UnspentDrop(s.ops, p);
      UnspentPut(s.ops, p, t.ops[p]);
    case End(p) =>
      UnspentDrop(s.ops, p);
    case Crash => HeadLength(L, s.dev.disk);
    case _ =>
  }

  lemma HeadLength(L: Layout, d: Image)
    requires WfImage(L, d)
    ensures |Head(d[L.start])| <= LOGSIZE
  {
  }

  /** At most one process is between log_write's size test and its append. */
  ghost predicate SoloChecks(s: State) {
    forall p, q | p in s.ops && q in s.ops && s.ops[p].checked && s.ops[q].checked :: p == q
  }

  ghost predicate CheckedFits(L: Layout, s: State) {
    forall p | p in s.ops && s.ops[p].checked :: |s.lh| + 1 <= LOGSIZE && |s.lh| + 1 < L.size
  }

  lemma {:induction false} SoloStep(L: Layout, s: State, e: Event, t: State)
    requires Inv(L, s) && RegionOk(L, s) && CheckedFits(L, s) && SoloChecks(s)
    requires Step(L, s, e, t)
    ensures RegionOk(L, t) && CheckedFits(L, t)
  {
    hide Head, Word, CommitRun, RecoverRun, CanRun;
  }

  ghost predicate Run(L: Layout, ss: seq<State>, es: seq<Event>) {
    && |ss| == |es| + 1
    && Init(L, ss[0])
    && forall i | 0 <= i < |es| :: Step(L, ss[i], es[i], ss[i + 1])
  }

  /** The two ways a run keeps its log inside the region: the region is larger than the
      header array and operations stay within MAXOPBLOCKS, or log_write calls do not overlap. */
  ghost predicate Disciplined(L: Layout, ss: seq<State>) {
    || (L.size > LOGSIZE && forall i | 0 <= i < |ss| :: Budgeted(ss[i]))
    || (forall i | 0 <= i < |ss| :: SoloChecks(ss[i]))
  }

  lemma {:induction false} InitSafe(L: Layout, s: State)
    requires Init(L, s)
    ensures Inv(L, s) && RegionOk(L, s) && Reserved(s) && CheckedFits(L, s)
  {
    hide Head, Word, RecoverRun;
    RecoverKeepsRec(L, s.dev.disk, 0);
    NoRecovery(L, s.dev.disk);
    NoneUnspent();
  }

  /** Group commit is safe in every disciplined run of any number of processes with any
      number of crashes: counters agree, the committing flag means no operation is in
      progress, every operation stays in the transaction it joined, the log stays in its
      region and the disk always recovers. */
  lemma {:induction false} RunSafe(L: Layout, ss: seq<State>, es: seq<Event>, i: nat)
    requires Run(L, ss, es) && Disciplined(L, ss) && i < |ss|
    ensures Inv(L, ss[i]) && RegionOk(L, ss[i])
    ensures (forall j | 0 <= j <= i :: Budgeted(ss[j])) ==> Reserved(ss[i])
    ensures (forall j | 0 <= j < |ss| :: SoloChecks(ss[j])) ==> CheckedFits(L, ss[i])
  {
    hide Step, Inv, CheckedFits, SoloChecks, Budgeted, Reserved;
    if i == 0 {
      InitSafe(L, ss[0]);
    } else {
      RunSafe(L, ss, es, i - 1);
      var s, e, t := ss[i - 1], es[i - 1], ss[i];
      assert Step(L, s, e, t);
      assert Counts(s) by { assert Inv(L, s); InvCounts(L, s); }
      CountsStep(L, s, e, t);
      if forall j | 0 <= j <= i :: Budgeted(ss[j]) {
        ReservedStep(L, s, e, t);
      }
      if forall j | 0 <= j < |ss| :: SoloChecks(ss[j]) {
        SoloStep(L, s, e, t);
      } else {
        ReservedFits(L, t);
      }
      DiskInvStep(L, s, e, t);
      InvFrom(L, t);
    }
  }

  lemma InvCounts(L: Layout, s: State)
    requires Inv(L, s)
    ensures Counts(s)
  {
  }

  lemma InvFrom(L: Layout, s: State)
    requires Counts(s) && DiskInv(L, s)
    ensures Inv(L, s)
  {
  }

  lemma ReservedFits(L: Layout, s: State)
    requires Reserved(s) && L.size > LOGSIZE
    ensures RegionOk(L, s)
  {
  }

  /** Over a whole run, crashes included, no event but a header write changes what
      the disk recovers to. */
  lemma {:induction false} DurableUntilCommit(L: Layout, ss: seq<State>, es: seq<Event>, i: nat, j: nat, b: nat)
    requires Run(L, ss, es) && Disciplined(L, ss) && i <= j < |ss|
    requires forall k | i <= k < j :: !(es[k].CommitWrite? && ss[k].mode.Committing? && ss[k].mode.k == |ss[k].lh|)
    requires b < |ss[i].dev.disk| && Home(L, b)
    ensures Inv(L, ss[i]) && Inv(L, ss[j]) && |ss[j].dev.disk| == |ss[i].dev.disk|
    ensures Durable(L, ss[j], b) == Durable(L, ss[i], b)
    decreases j - i
  {
    hide Step, Durable, View, DiskInv, Disciplined, Counts;
    RunSafe(L, ss, es, i);
    RunSafe(L, ss, es, j);
    if i < j {
      DurableUntilCommit(L, ss, es, i, j - 1, b);
      assert Step(L, ss[j - 1], es[j - 1], ss[j]);
      CommitMode(L, ss[j - 1], es[j - 1], ss[j]);
      RefinesAtomicStore(L, ss[j - 1], es[j - 1], ss[j], b);
    }
  }

  lemma CommitMode(L: Layout, s: State, e: Event, t: State)
    requires Step(L, s, e, t)
    ensures e.CommitWrite? ==> s.mode.Committing?
  {
  }

  /** end_op's panic is unreachable, and log_write's is reached exactly when the log has
      filled its region or its header array; an operation with budget left never meets
      the second case. */
  lemma PanicExactly(L: Layout, s: State, e: Event, t: State)
    requires Inv(L, s) && Reserved(s) && Budgeted(s) && !s.panicked && Step(L, s, e, t)
    ensures t.panicked <==> e.Check? && (|s.lh| >= L.size - 1 || |s.lh| == LOGSIZE)
    ensures e.Check? && s.ops[e.p].spent < MAXOPBLOCKS ==> |s.lh| < LOGSIZE
  {
    hide CommitRun, RecoverRun, Head, Word, Slot, DiskInv, Unspent;
    if e.Check? {
      assert e.p in s.ops.Keys;
      UnspentDrop(s.ops, e.p);
    }
  }

  // ---- admission and the last operation out ----

  /** begin_op admits exactly when the log could hold what it has and the maximum of every
      operation, the new one included; the newcomer joins the current transaction with nothing
      spent, and nothing else changes. */
  lemma {:induction false} AdmitsExactly(L: Layout, s: State, p: int)
    requires Inv(L, s) && s.mode.Up? && !s.panicked && p !in s.ops
    ensures (exists t :: Step(L, s, Begin(p), t)) <==> |s.lh| + (|s.ops| + 1) * MAXOPBLOCKS <= LOGSIZE
    ensures forall t | Step(L, s, Begin(p), t) ::
              && t.ops.Keys == s.ops.Keys + {p} && t.ops[p] == Op(s.epoch, 0, false) && (forall q | q in s.ops :: t.ops[q] == s.ops[q])
              && t.outstanding == |s.ops| + 1 && t.lh == s.lh && t.dev == s.dev && t.mode == s.mode && !t.committing && !t.panicked
  {
    hide DiskInv;
    var t := s.(outstanding := s.outstanding + 1, ops := s.ops[p := Op(s.epoch, 0, false)]);
    if |s.lh| + (|s.ops| + 1) * MAXOPBLOCKS <= LOGSIZE {
      assert Step(L, s, Begin(p), t);
    }
  }

  /** Only a transaction in progress keeps blocks in the log of a running system. */
  ghost predicate IdleEmpty(s: State) {
    s.mode.Up? && s.ops == map[] ==> s.lh == []
  }

  lemma {:induction false} IdleEmptyStep(L: Layout, s: State, e: Event, t: State)
    requires Counts(s) && IdleEmpty(s) && Step(L, s, e, t)
    ensures IdleEmpty(t)
  {
    hide Head, Word, CommitRun, RecoverRun, CanRun, WfImage, Slot;
    match e
    case End(p) =>
      assert t.ops.Keys == s.ops.Keys - {p};
      assert |t.ops| == |s.ops| - 1;
    case Check(p) => assert p in s.ops;
    case Append(p, _, _) => assert p in t.ops;
    case _ =>
  }

  lemma {:induction false} CountsRun(L: Layout, ss: seq<State>, es: seq<Event>, i: nat)
    requires Run(L, ss, es) && i < |ss|
    ensures Counts(ss[i]) && IdleEmpty(ss[i])
  {
    hide Step, Head, WfImage;
    if i > 0 {
      CountsRun(L, ss, es, i - 1);
      assert Step(L, ss[i - 1], es[i - 1], ss[i]);
      CountsStep(L, ss[i - 1], es[i - 1], ss[i]);
      IdleEmptyStep(L, ss[i - 1], es[i - 1], ss[i]);
    }
  }

  /** begin_op never waits for nothing: in every run, when it is refused a commit or recovery is
      under way or some operation has still to end. */
  lemma {:induction false} RefusedMeansBusy(L: Layout, ss: seq<State>, es: seq<Event>, i: nat, p: int)
    requires Run(L, ss, es) && i < |ss| && !ss[i].panicked && p !in ss[i].ops
    requires forall t :: !Step(L, ss[i], Begin(p), t)
    ensures !ss[i].mode.Up? || ss[i].ops != map[]
  {
    hide Run, Head, WfImage, CanRun, CommitRun, RecoverRun;
    CountsRun(L, ss, es, i);
    var s := ss[i];
    var t := s.(outstanding := s.outstanding + 1, ops := s.ops[p := Op(s.epoch, 0, false)]);
    assert !Step(L, s, Begin(p), t);
  }

  /** log_write panics exactly on a full log or log region. Otherwise, once past the test, it marks
      the buffer with the new contents and notes the block number once. */
  lemma {:induction false} LogWriteExactly(L: Layout, s: State, p: int, b: nat, data: Block, t: State, u: State)
    requires Inv(L, s) && Step(L, s, Check(p), t) && Step(L, t, Append(p, b, data), u)
    ensures !t.panicked && |s.lh| < LOGSIZE && |s.lh| < L.size - 1
    ensures u.dev == s.dev.(dirty := s.dev.dirty[b := data]) && u.lh == (if b in s.lh then s.lh else s.lh + [b])
    ensures u.ops.Keys == s.ops.Keys && u.outstanding == s.outstanding && u.mode == s.mode
  {
    hide DiskInv;
    assert p in s.ops;
  }

  /** end_op of the last operation starts the commit of everything logged; of any other it only
      leaves. */
  lemma {:induction false} LastOutCommits(L: Layout, s: State, p: int, t: State)
    requires Inv(L, s) && Step(L, s, End(p), t)
    ensures t.ops == s.ops - {p} && t.outstanding == |s.ops| - 1 && t.lh == s.lh && t.dev == s.dev && !t.panicked
    ensures t.committing == t.mode.Committing? == (s.ops.Keys == {p})
    ensures t.mode.Committing? ==> t.mode == Committing(s.dev, 0)
  {
    hide DiskInv;
    assert (s.ops - {p}).Keys == s.ops.Keys - {p};
    assert |s.ops| == |s.ops.Keys - {p}| + 1;
    assert |s.ops| == 1 <==> s.ops.Keys - {p} == {};
  }
}
