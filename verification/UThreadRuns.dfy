/** What every run of the thread library keeps: the thread-table invariant, mutual
    exclusion by hand-off, and bounded bypass in the scheduler. */
module UThreadRuns {
  import opened Search
  import opened UThread

  datatype Event =
    | Tick(now: int)                    // SIGALRM: uthread_schedule
    | DoCreate
    | DoSleep(ticks: int, now: int)
    | DoJoin(tid: int)
    | DoExit
    | Alloc
    | Free(s: nat)
    | Down(s: nat)
    | Up(s: nat)

  /** inside: pairs of a semaphore and the tid of a thread between its down and its up. */
  datatype State = State(lib: Lib, inside: set<(int, int)>)

  function Current(s: State): Thread
    requires Sized(s.lib)
  {
    s.lib.table[s.lib.ct]
  }

  ghost predicate Step(s: State, e: Event, t: State)
    requires Sized(s.lib)
  {
    var l := s.lib;
    var me := l.table[l.ct];
    if e.Tick? then t == s.(lib := Schedule(l, e.now))
    else
      && me.state == RUNNING
      && match e
         case DoCreate => t == s.(lib := Create(l))
         case DoSleep(ticks, now) => t == s.(lib := Sleep(l, ticks, now))
         case DoJoin(tid) => t == s.(lib := Join(l, tid))
         case DoExit => ThreadCount(l.table) > 1 && t == s.(lib := Exit(l))
         case Alloc => t == s.(lib := BAlloc(l))
         case Free(n) => n < MAX_BSEM && t == State(BFree(l, n), set x | x in s.inside && x.0 != n)
         case Down(n) =>
           n < MAX_BSEM && t == State(BDown(l, n), if l.sems[n] == 1 then s.inside + {(n, me.tid)} else s.inside)
         case Up(n) =>
           n < MAX_BSEM
           && var w := Waiter(l, n);
              t == State(BUp(l, n),
                         if l.sems[n] == -1 then s.inside
                         else if w < MAX_UTHREADS then s.inside - {(n, me.tid)} + {(n, l.table[w].tid)}
                         else s.inside - {(n, me.tid)})
  }

  // ---- the thread table ----

  ghost predicate OneRunning(l: Lib)
    requires Sized(l)
  {
    forall i | 0 <= i < MAX_UTHREADS && i != l.ct :: l.table[i].state != RUNNING
  }

  /** Blocked exactly when waiting for one thing. */
  predicate BlockedOk(t: Thread) {
    && (t.state == BLOCKED <==> t.sem != -1 || t.join != -1)
    && (t.sem == -1 || t.join == -1)
  }

  /** A semaphore someone waits for is allocated and taken. */
  predicate WaitOk(l: Lib, t: Thread)
    requires Sized(l)
  {
    t.sem != -1 ==> 0 <= t.sem < MAX_BSEM && l.sems[t.sem] == 0
  }

  ghost predicate Alive(l: Lib, tid: int) {
    exists j | 0 <= j < |l.table| :: l.table[j].tid == tid && l.table[j].state != TERMINATED
  }

  /** A joined thread has not terminated. */
  ghost predicate JoinOk(l: Lib, t: Thread) {
    t.join != -1 ==> Alive(l, t.join)
  }

  /** Thread ids identify threads; unused slots still carry 0. */
  ghost predicate TidsOk(l: Lib) {
    && (forall i | 0 <= i < |l.table| :: 0 <= l.table[i].tid < l.nexttid)
    && (forall i | 0 <= i < |l.table| && l.table[i].tid == 0 && l.table[i].state != TERMINATED :: i == 0)
    && forall i, j | 0 <= i < j < |l.table| && l.table[i].tid == l.table[j].tid :: l.table[i].tid == 0
  }

  ghost predicate TableInv(l: Lib) {
    && Sized(l)
    && OneRunning(l)
    && (forall i | 0 <= i < MAX_UTHREADS :: BlockedOk(l.table[i]))
    && (forall i | 0 <= i < MAX_UTHREADS :: WaitOk(l, l.table[i]))
    && (forall i | 0 <= i < MAX_UTHREADS :: JoinOk(l, l.table[i]))
    && TidsOk(l)
    && forall i | 0 <= i < MAX_BSEM :: -1 <= l.sems[i] <= 1
  }

  lemma AliveKept(l: Lib, r: Lib, tid: int)
    requires Alive(l, tid) && |r.table| == |l.table|
    requires forall j | 0 <= j < |l.table| && l.table[j].tid == tid && l.table[j].state != TERMINATED ::
               r.table[j].tid == tid && r.table[j].state != TERMINATED
    ensures Alive(r, tid)
  {
    var j :| 0 <= j < |l.table| && l.table[j].tid == tid && l.table[j].state != TERMINATED;
    assert r.table[j].tid == tid;
  }

  /** Changing one live slot, keeping its tid. */
  lemma {:induction false} SlotKeeps(l: Lib, i: nat, x: Thread, ct: nat, r: Lib)
    requires TableInv(l) && i < MAX_UTHREADS && ct < MAX_UTHREADS
    requires r == l.(table := l.table[i := x], ct := ct)
    requires x.tid == l.table[i].tid && x.state != TERMINATED && l.table[i].state != TERMINATED
    requires BlockedOk(x) && WaitOk(l, x) && (x.join == l.table[i].join || x.join == -1 || Alive(l, x.join))
    requires OneRunning(r)
    ensures TableInv(r)
  {
    forall k | 0 <= k < MAX_UTHREADS ensures JoinOk(r, r.table[k]) {
      assert JoinOk(l, l.table[k]);
      if r.table[k].join != -1 {
        AliveKept(l, r, r.table[k].join);
      }
    }
  }

  lemma {:induction false} ScheduleKeeps(l: Lib, now: int)
    requires TableInv(l)
    ensures TableInv(Schedule(l, now))
  {
    hide Choose;
    var y := Yield(l);
    if l.table[l.ct].state == RUNNING {
      SlotKeeps(l, l.ct, l.table[l.ct].(state := READY), l.ct, y);
    }
    var i := Choose(y.table, y.ct, now);
    if i <= MAX_UTHREADS {
      var k := Slot(y.ct, i);
      SlotKeeps(y, k, y.table[k].(state := RUNNING), k, Schedule(l, now));
    }
  }

  lemma {:induction false} CreateKeeps(l: Lib)
    requires TableInv(l)
    ensures TableInv(Create(l))
  {
    var r := Create(l);
    forall k | 0 <= k < MAX_UTHREADS ensures JoinOk(r, r.table[k]) {
      assert JoinOk(l, l.table[k]);
      if r.table[k].join != -1 {
        AliveKept(l, r, r.table[k].join);
      }
    }
  }

  lemma {:induction false} JoinKeeps(l: Lib, tid: int)
    requires TableInv(l) && l.table[l.ct].state == RUNNING
    ensures TableInv(Join(l, tid))
  {
    var i := First(l.table, (t: Thread) => t.tid == tid);
    if i < MAX_UTHREADS && l.table[i].state != TERMINATED {
      assert Alive(l, tid);
      SlotKeeps(l, l.ct, l.table[l.ct].(join := tid, state := BLOCKED), l.ct, Join(l, tid));
    }
  }

  /** Exit's first loop: nobody is left joined on tid. */
  lemma {:induction false} UnjoinKeeps(l: Lib, tid: int, r: Lib)
    requires TableInv(l) && tid != -1 && |r.table| == MAX_UTHREADS && r == l.(table := r.table)
    requires forall k | 0 <= k < MAX_UTHREADS :: r.table[k] == Unjoined(l.table[k], tid)
    ensures TableInv(r)
  {
    forall k | 0 <= k < MAX_UTHREADS ensures JoinOk(r, r.table[k]) && BlockedOk(r.table[k]) && WaitOk(r, r.table[k]) {
      assert JoinOk(l, l.table[k]) && BlockedOk(l.table[k]) && WaitOk(l, l.table[k]);
      if r.table[k].join != -1 {
        AliveKept(l, r, r.table[k].join);
      }
    }
  }

  lemma {:induction false} TerminateKeeps(l: Lib)
    requires TableInv(l) && l.table[l.ct].state == RUNNING
    requires forall k | 0 <= k < MAX_UTHREADS :: l.table[k].join != l.table[l.ct].tid
    ensures TableInv(SetState(l, l.ct, TERMINATED))
  {
    var r := SetState(l, l.ct, TERMINATED);
    forall k | 0 <= k < MAX_UTHREADS ensures JoinOk(r, r.table[k]) {
      assert JoinOk(l, l.table[k]);
      if r.table[k].join != -1 {
        AliveKept(l, r, r.table[k].join);
      }
    }
  }

  lemma {:induction false} ExitKeeps(l: Lib)
    requires TableInv(l) && l.table[l.ct].state == RUNNING
    ensures TableInv(Exit(l))
  {
    var tid := l.table[l.ct].tid;
    var m := l.(table := seq(MAX_UTHREADS, (i: nat) requires i < MAX_UTHREADS => Unjoined(l.table[i], tid)));
    UnjoinKeeps(l, tid, m);
    assert BlockedOk(l.table[l.ct]);
    TerminateKeeps(m);
  }

  lemma {:induction false} FreeKeeps(l: Lib, s: nat)
    requires TableInv(l) && s < MAX_BSEM && l.table[l.ct].state == RUNNING
    ensures TableInv(BFree(l, s))
  {
    var r := BFree(l, s);
    assert forall k | 0 <= k < MAX_UTHREADS :: r.table[k] == Unblocked(l.table[k], s);
    forall k | 0 <= k < MAX_UTHREADS ensures JoinOk(r, r.table[k]) && BlockedOk(r.table[k]) && WaitOk(r, r.table[k]) {
      assert JoinOk(l, l.table[k]) && BlockedOk(l.table[k]) && WaitOk(l, l.table[k]);
      if r.table[k].join != -1 {
        AliveKept(l, r, r.table[k].join);
      }
    }
  }

  /** Changing only a semaphore's value. */
  lemma {:induction false} SemKeeps(l: Lib, s: nat, v: int, r: Lib)
    requires TableInv(l) && s < MAX_BSEM && -1 <= v <= 1
    requires r == l.(sems := l.sems[s := v])
    requires v == 0 || forall k | 0 <= k < MAX_UTHREADS :: l.table[k].sem != s
    ensures TableInv(r)
  {
    forall k | 0 <= k < MAX_UTHREADS ensures JoinOk(r, r.table[k]) && WaitOk(r, r.table[k]) {
      assert JoinOk(l, l.table[k]) && WaitOk(l, l.table[k]);
      if r.table[k].join != -1 {
        AliveKept(l, r, r.table[k].join);
      }
    }
  }

  lemma {:induction false} DownKeeps(l: Lib, s: nat)
    requires TableInv(l) && s < MAX_BSEM && l.table[l.ct].state == RUNNING
    ensures TableInv(BDown(l, s))
  {
    assert BlockedOk(l.table[l.ct]);
    if l.sems[s] == 0 {
      SlotKeeps(l, l.ct, l.table[l.ct].(sem := s, state := BLOCKED), l.ct, BDown(l, s));
    } else if l.sems[s] == 1 {
      SemKeeps(l, s, 0, BDown(l, s));
    }
  }

  lemma {:induction false} UpKeeps(l: Lib, s: nat)
    requires TableInv(l) && s < MAX_BSEM && l.table[l.ct].state == RUNNING
    ensures TableInv(BUp(l, s))
  {
    hide Waiter;
    var i := Waiter(l, s);
    if l.sems[s] != -1 {
      if i < MAX_UTHREADS {
        assert BlockedOk(l.table[i]);
        SlotKeeps(l, i, Unblocked(l.table[i], s), l.ct, BUp(l, s));
      } else {
        SemKeeps(l, s, 1, BUp(l, s));
      }
    }
  }

  lemma {:induction false} AllocKeeps(l: Lib)
    requires TableInv(l)
    ensures TableInv(BAlloc(l))
  {
    var i := First(l.sems, (v: int) => v == -1);
    if i < MAX_BSEM {
      assert forall k | 0 <= k < MAX_UTHREADS :: WaitOk(l, l.table[k]);
      SemKeeps(l, i, 1, BAlloc(l));
    }
  }

  lemma {:induction false} StepKeepsTable(s: State, e: Event, t: State)
    requires TableInv(s.lib) && Step(s, e, t)
    ensures TableInv(t.lib)
  {
    hide TableInv, Schedule, Create, Sleep, Join, Exit, BAlloc, BFree, BDown, BUp;
    match e
    case Tick(now) => ScheduleKeeps(s.lib, now);
    case DoCreate => CreateKeeps(s.lib);
    case DoSleep(ticks, now) => SleepKeeps(s.lib, ticks, now);
    case DoJoin(tid) => JoinKeeps(s.lib, tid);
    case DoExit => ExitKeeps(s.lib);
    case Alloc => AllocKeeps(s.lib);
    case Free(n) => FreeKeeps(s.lib, n);
    case Down(n) => DownKeeps(s.lib, n);
    case Up(n) => UpKeeps(s.lib, n);
  }

  lemma {:induction false} SleepKeeps(l: Lib, ticks: int, now: int)
    requires TableInv(l) && l.table[l.ct].state == RUNNING
    ensures TableInv(Sleep(l, ticks, now))
  {
    assert BlockedOk(l.table[l.ct]);
    SlotKeeps(l, l.ct, l.table[l.ct].(wakeUpTime := ticks + now, state := SLEEPING), l.ct, Sleep(l, ticks, now));
  }

  // ---- mutual exclusion ----

  /** Taken semaphores are exactly those with a thread inside, and never two threads. */
  ghost predicate MutexInv(s: State)
    requires Sized(s.lib)
  {
    && (forall x | x in s.inside :: 0 <= x.0 < MAX_BSEM && s.lib.sems[x.0] == 0)
    && (forall x, y | x in s.inside && y in s.inside && x.0 == y.0 :: x == y)
    && forall n | 0 <= n < MAX_BSEM && s.lib.sems[n] == 0 :: Occupied(s, n)
  }

  ghost predicate Occupied(s: State, n: int) {
    exists x | x in s.inside :: x.0 == n
  }

  /** Only a thread inside raises the semaphore. */
  ghost predicate Bracketed(s: State, e: Event)
    requires Sized(s.lib)
  {
    e.Up? && e.s < MAX_BSEM && s.lib.sems[e.s] != -1 ==> (e.s as int, Current(s).tid) in s.inside
  }

  lemma OccupiedKept(s: State, t: State, n: int)
    requires Occupied(s, n) && forall x | x in s.inside && x.0 == n :: x in t.inside
    ensures Occupied(t, n)
  {
  }

  lemma {:induction false} StepKeepsMutex(s: State, e: Event, t: State)
    requires TableInv(s.lib) && MutexInv(s) && Step(s, e, t) && Bracketed(s, e) && Sized(t.lib)
    ensures MutexInv(t)
  {
    hide Choose, First, TidsOk, Waiter, JoinOk, BlockedOk, Unblocked, Unjoined, ThreadCount;
    match e
    case Up(n) => UpKeepsMutex(s, n, t);
    case Down(n) =>
      if s.lib.sems[n] == 1 {
        assert (n, Current(s).tid) in t.inside;
      }
      forall m | 0 <= m < MAX_BSEM && t.lib.sems[m] == 0 ensures Occupied(t, m) {
        if m != n || s.lib.sems[n] == 0 { OccupiedKept(s, t, m); }
      }
    case _ =>
      forall m | 0 <= m < MAX_BSEM && t.lib.sems[m] == 0 ensures Occupied(t, m) {
        OccupiedKept(s, t, m);
      }
  }

  lemma {:induction false} UpKeepsMutex(s: State, n: nat, t: State)
    requires TableInv(s.lib) && MutexInv(s) && Step(s, Up(n), t) && Bracketed(s, Up(n)) && Sized(t.lib)
    ensures MutexInv(t)
  {
    hide Waiter, TidsOk, JoinOk, BlockedOk, Unblocked;
    var w := Waiter(s.lib, n);
    if s.lib.sems[n] != -1 {
      var me := (n as int, Current(s).tid);
      assert forall x | x in s.inside && x.0 == n :: x == me;
      forall m | 0 <= m < MAX_BSEM && t.lib.sems[m] == 0 ensures Occupied(t, m) {
        if m == n {
          assert (n as int, s.lib.table[w].tid) in t.inside;
        } else {
          OccupiedKept(s, t, m);
        }
      }
    }
  }

  // ---- join ----

  /** uthread_join blocks exactly when a live thread has that tid, and on that thread. */
  lemma {:induction false} JoinBlocksOnLive(l: Lib, tid: int)
    requires TableInv(l) && l.table[l.ct].state == RUNNING
    ensures Alive(l, tid) <==> Join(l, tid).table[l.ct].state == BLOCKED
    ensures Alive(l, tid) ==> Join(l, tid).table[l.ct].join == tid
    ensures !Alive(l, tid) ==> Join(l, tid) == l
  {
    var i := First(l.table, (t: Thread) => t.tid == tid);
    if Alive(l, tid) {
      var j :| 0 <= j < MAX_UTHREADS && l.table[j].tid == tid && l.table[j].state != TERMINATED;
      assert i <= j;
      assert i == j;
    }
  }

  // ---- bounded bypass ----

  /** How far slot k is after ct in scheduling order: 1 to MAX_UTHREADS. */
  function Distance(ct: nat, k: nat): (d: nat)
    requires ct < MAX_UTHREADS && k < MAX_UTHREADS
    ensures 1 <= d <= MAX_UTHREADS && Slot(ct, d) == k
  {
    if k > ct then k - ct else k + MAX_UTHREADS - ct
  }

  function Ticks(es: seq<Event>): nat {
    if es == [] then 0 else Ticks(es[..|es| - 1]) + if es[|es| - 1].Tick? then 1 else 0
  }

  /** A ready thread stays ready until it is dispatched, and each scheduling call that
      dispatches someone else brings the turn strictly closer to it. */
  lemma {:induction false} ReadyComesCloser(s: State, e: Event, t: State, k: nat)
    requires TableInv(s.lib) && Step(s, e, t) && k < MAX_UTHREADS
    requires s.lib.table[k].state == READY && k != s.lib.ct
    ensures Sized(t.lib)
    ensures t.lib.ct == k || t.lib.table[k].state == READY
    ensures t.lib.ct != k ==> Distance(t.lib.ct, k) + (if e.Tick? then 1 else 0) <= Distance(s.lib.ct, k)
  {
    hide ThreadCount, TidsOk, Choose;
    assert BlockedOk(s.lib.table[k]);
    if e.Tick? {
      var y := Yield(s.lib);
      var i := Choose(y.table, y.ct, e.now);
      var d := Distance(y.ct, k);
      assert y.table[Slot(y.ct, d)].state == READY;
      assert i <= d;
      CloserBy(y.ct, i, k);
    }
  }

  lemma CloserBy(ct: nat, i: nat, k: nat)
    requires ct < MAX_UTHREADS && k < MAX_UTHREADS && 1 <= i <= Distance(ct, k)
    ensures Slot(ct, i) == k <==> i == Distance(ct, k)
    ensures Slot(ct, i) != k ==> Distance(Slot(ct, i), k) == Distance(ct, k) - i
  {
  }

  // ---- whole runs ----

  ghost predicate Run(ss: seq<State>, es: seq<Event>) {
    && |ss| == |es| + 1
    && ss[0] == State(Start(), {})
    && forall i | 0 <= i < |es| :: Sized(ss[i].lib) && Step(ss[i], es[i], ss[i + 1])
  }

  lemma StartOk()
    ensures TableInv(Start()) && MutexInv(State(Start(), {}))
  {
  }

  /** The thread-table invariant holds in every state of every run. */
  lemma {:induction false} RunKeepsTable(ss: seq<State>, es: seq<Event>, i: nat)
    requires Run(ss, es) && i < |ss|
    ensures TableInv(ss[i].lib)
  {
    hide Step, TableInv;
    if i == 0 {
      StartOk();
    } else {
      RunKeepsTable(ss, es, i - 1);
      StepKeepsTable(ss[i - 1], es[i - 1], ss[i]);
    }
  }

  /** Mutual exclusion in every run whose threads bracket down and up. */
  lemma {:induction false} RunKeepsMutex(ss: seq<State>, es: seq<Event>, i: nat)
    requires Run(ss, es) && i < |ss|
    requires forall k | 0 <= k < |es| :: Sized(ss[k].lib) && Bracketed(ss[k], es[k])
    ensures TableInv(ss[i].lib) && MutexInv(ss[i])
  {
    hide Step, MutexInv, Bracketed;
    RunKeepsTable(ss, es, i);
    if i == 0 {
      StartOk();
    } else {
      RunKeepsMutex(ss, es, i - 1);
      assert Bracketed(ss[i - 1], es[i - 1]);
      StepKeepsMutex(ss[i - 1], es[i - 1], ss[i]);
    }
  }

  /** Bounded bypass: while a thread that became ready in state i has not been dispatched,
      uthread_schedule has been called fewer than MAX_UTHREADS times. */
  lemma {:induction false} BoundedBypass(ss: seq<State>, es: seq<Event>, k: nat, i: nat, j: nat)
    requires Run(ss, es) && i <= j < |ss| && k < MAX_UTHREADS
    requires forall m | i <= m <= j :: ss[m].lib.ct != k
    requires k < |ss[i].lib.table| && ss[i].lib.table[k].state == READY
    ensures TableInv(ss[j].lib) && ss[j].lib.table[k].state == READY
    ensures Ticks(es[i..j]) + Distance(ss[j].lib.ct, k) <= Distance(ss[i].lib.ct, k)
    ensures Ticks(es[i..j]) < MAX_UTHREADS
    decreases j
  {
    hide Step, OneRunning, TidsOk, BlockedOk, WaitOk, JoinOk;
    RunKeepsTable(ss, es, i);
    RunKeepsTable(ss, es, j);
    if i < j {
      BoundedBypass(ss, es, k, i, j - 1);
      ReadyComesCloser(ss[j - 1], es[j - 1], ss[j], k);
      assert es[i..j][..j - i - 1] == es[i..j - 1];
      assert es[i..j][j - i - 1] == es[j - 1];
    }
  }
}
