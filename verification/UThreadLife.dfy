/** The life of a thread: what each operation does to every slot of the table, and over whole
    runs that exit is final, that join returns only after the exit it waits for, that a sleeper
    sleeps its time, and that a semaphore waiter leaves only by up or free. */
module UThreadLife {
  import opened Search
  import opened UThread
  import opened UThreadRuns

  // ---- one operation ----

  ghost function Live(table: seq<Thread>, from: nat): set<nat>
    requires from <= |table|
  {
    set i: nat | from <= i < |table| && table[i].state != TERMINATED
  }

  /** getThreadCount counts the slots that have not terminated. */
  lemma {:induction false} CountIsLive(table: seq<Thread>, from: nat)
    requires from <= |table|
    ensures ThreadCount(table[from..]) == |Live(table, from)|
    decreases |table| - from
  {
    if from < |table| {
      CountIsLive(table, from + 1);
      assert table[from..][1..] == table[from + 1..];
      if table[from].state != TERMINATED {
        assert Live(table, from) == Live(table, from + 1) + {from};
      } else {
        assert Live(table, from) == Live(table, from + 1);
      }
    } else {
      assert Live(table, from) == {};
    }
  }

  /** A live thread is the last exactly when every other slot has terminated. */
  lemma {:induction false} LastThread(table: seq<Thread>, c: nat)
    requires c < |table| && table[c].state != TERMINATED
    ensures ThreadCount(table) == 1 <==> forall k | 0 <= k < |table| && k != c :: table[k].state == TERMINATED
  {
    CountIsLive(table, 0);
    assert table[0..] == table;
    var live := Live(table, 0);
    assert c in live;
    assert |live| == |live - {c}| + 1;
    assert live - {c} == {} <==> forall k | 0 <= k < |table| && k != c :: table[k].state == TERMINATED by {
      assert forall k | 0 <= k < |table| && k != c && table[k].state != TERMINATED :: k in live - {c};
    }
  }

  predicate Runnable(t: Thread, now: int) {
    t.state == RUNNING || t.state == READY || (t.state == SLEEPING && t.wakeUpTime <= now)
  }

  /** uthread_schedule dispatches the next runnable thread after the current one, which comes
      last itself; with none it changes nothing. No other thread's slot changes, but a current
      thread that was running becomes ready. */
  lemma {:induction false} ScheduleExactly(l: Lib, now: int)
    requires TableInv(l)
    ensures var r := Schedule(l, now);
            && Sized(r) && r.sems == l.sems && r.nexttid == l.nexttid
            && ((forall k | 0 <= k < MAX_UTHREADS :: !Runnable(l.table[k], now)) ==> r == l)
            && ((exists k | 0 <= k < MAX_UTHREADS :: Runnable(l.table[k], now)) ==>
                  && Runnable(l.table[r.ct], now) && r.table[r.ct] == l.table[r.ct].(state := RUNNING)
                  && (forall k | 0 <= k < MAX_UTHREADS && k != r.ct && Runnable(l.table[k], now) :: Distance(l.ct, r.ct) < Distance(l.ct, k))
                  && forall k | 0 <= k < MAX_UTHREADS && k != r.ct :: r.table[k] == if l.table[k].state == RUNNING then l.table[k].(state := READY) else l.table[k])
  {
    hide Choose, TidsOk, JoinOk, WaitOk, BlockedOk;
    var y := Yield(l);
    var i := Choose(y.table, y.ct, now);
    forall k | 0 <= k < MAX_UTHREADS && Runnable(l.table[k], now) ensures i <= Distance(l.ct, k) && (i == Distance(l.ct, k) <==> k == Slot(l.ct, i)) {
      assert Eligible(y.table[Slot(y.ct, Distance(l.ct, k))], now);
      CloserBy(l.ct, i, k);
    }
    if i <= MAX_UTHREADS {
      assert Runnable(l.table[Slot(l.ct, i)], now);
      assert Distance(l.ct, Slot(l.ct, i)) == i;
    }
  }

  /** uthread_create gives the lowest terminated slot a fresh id and makes it ready. */
  lemma {:induction false} CreateExactly(l: Lib)
    requires Sized(l)
    ensures var r := Create(l);
            && ((forall k | 0 <= k < MAX_UTHREADS :: l.table[k].state != TERMINATED) ==> r == l)
            && forall i | 0 <= i < MAX_UTHREADS && l.table[i].state == TERMINATED && forall j | 0 <= j < i :: l.table[j].state != TERMINATED ::
                 && r == l.(table := r.table, nexttid := l.nexttid + 1) && |r.table| == MAX_UTHREADS
                 && r.table[i].tid == l.nexttid && r.table[i].state == READY && r.table[i].join == -1 && r.table[i].sem == l.table[i].sem
                 && forall k | 0 <= k < MAX_UTHREADS && k != i :: r.table[k] == l.table[k]
  {
    hide First;
    var n := First(l.table, (t: Thread) => t.state == TERMINATED);
    assert n < MAX_UTHREADS ==> l.table[n].state == TERMINATED;
  }

  /** uthread_exit terminates the caller, readies exactly the threads joined on it, and leaves
      every other slot alone; one thread fewer is left. */
  lemma {:induction false} ExitExactly(l: Lib)
    requires TableInv(l) && l.table[l.ct].state == RUNNING
    ensures var r := Exit(l); var me := l.table[l.ct].tid;
            && r == l.(table := r.table) && |r.table| == MAX_UTHREADS
            && r.table[l.ct] == l.table[l.ct].(state := TERMINATED)
            && (forall k | 0 <= k < MAX_UTHREADS && l.table[k].join == me :: r.table[k] == l.table[k].(state := READY, join := -1))
            && (forall k | 0 <= k < MAX_UTHREADS && k != l.ct && l.table[k].join != me :: r.table[k] == l.table[k])
            && ThreadCount(r.table) == ThreadCount(l.table) - 1
  {
    var r, me := Exit(l), l.table[l.ct].tid;
    forall k | 0 <= k < MAX_UTHREADS ensures l.table[k].join == me ==> l.table[k].state == BLOCKED && k != l.ct {
      assert BlockedOk(l.table[k]) && BlockedOk(l.table[l.ct]);
    }
    CountIsLive(l.table, 0);
    CountIsLive(r.table, 0);
    assert l.table[0..] == l.table && r.table[0..] == r.table;
    assert Live(r.table, 0) == Live(l.table, 0) - {l.ct};
  }

  /** bsem_free readies every waiter and leaves the semaphore unallocated. bsem_up of an allocated
      semaphore readies the waiter in the lowest slot and keeps the semaphore taken for it, or
      raises it when nobody waits. */
  lemma {:induction false} WakeExactly(l: Lib, s: nat)
    requires Sized(l) && s < MAX_BSEM
    ensures var r := BFree(l, s);
            && r == l.(table := r.table, sems := r.sems) && |r.table| == MAX_UTHREADS && |r.sems| == MAX_BSEM
            && r.sems[s] == -1 && (forall k | 0 <= k < MAX_BSEM && k != s :: r.sems[k] == l.sems[k])
            && (forall k | 0 <= k < MAX_UTHREADS && l.table[k].sem == s :: r.table[k] == l.table[k].(state := READY, sem := -1))
            && (forall k | 0 <= k < MAX_UTHREADS && l.table[k].sem != s :: r.table[k] == l.table[k])
    ensures var r := BUp(l, s);
            && r == l.(table := r.table, sems := r.sems) && |r.table| == MAX_UTHREADS && |r.sems| == MAX_BSEM
            && (l.sems[s] == -1 ==> r == l)
            && (l.sems[s] != -1 && (forall k | 0 <= k < MAX_UTHREADS :: l.table[k].sem != s) ==>
                  r.table == l.table && r.sems[s] == 1 && forall k | 0 <= k < MAX_BSEM && k != s :: r.sems[k] == l.sems[k])
            && forall i | l.sems[s] != -1 && 0 <= i < MAX_UTHREADS && l.table[i].sem == s && forall j | 0 <= j < i :: l.table[j].sem != s ::
                 && r.sems == l.sems && r.table[i] == l.table[i].(state := READY, sem := -1)
                 && forall k | 0 <= k < MAX_UTHREADS && k != i :: r.table[k] == l.table[k]
  {
    hide Waiter;
    var w := Waiter(l, s);
  }

  // ---- whole runs ----

  ghost predicate Slots(l: Lib, r: Lib, k: nat) {
    k < |l.table| && k < |r.table|
  }

  /** Why a step may change a slot: a terminated one only by create, a sleeping one only by a
      dispatch after its wake-up time, a ready one only by a dispatch, a joined one only by the
      exit of that thread, a semaphore waiter only by up or free of that semaphore. */
  ghost predicate Caused(s: State, e: Event, t: State, k: nat)
    requires Sized(s.lib) && Slots(s.lib, t.lib, k)
  {
    var x, y := s.lib.table[k], t.lib.table[k];
    && (x.state == TERMINATED ==> e.DoCreate? && y.state == READY && y.tid == s.lib.nexttid)
    && (x.state == SLEEPING ==> e.Tick? && x.wakeUpTime <= e.now && t.lib.ct == k && y == x.(state := RUNNING))
    && (x.state == READY ==> e.Tick? && t.lib.ct == k && y == x.(state := RUNNING))
    && (x.join != -1 ==> e.DoExit? && Current(s).tid == x.join && y == x.(state := READY, join := -1))
    && (x.sem != -1 ==> (e.Up? || e.Free?) && e.s == x.sem && y == x.(state := READY, sem := -1))
  }

  lemma {:induction false} SlotCause(s: State, e: Event, t: State, k: nat)
    requires TableInv(s.lib) && Step(s, e, t) && k < MAX_UTHREADS
    ensures Slots(s.lib, t.lib, k) && t.lib.nexttid >= s.lib.nexttid
    ensures t.lib.table[k] != s.lib.table[k] ==> Caused(s, e, t, k)
    ensures t.lib.table[k].tid != s.lib.table[k].tid ==> s.lib.table[k].state == TERMINATED && e.DoCreate?
  {
    hide Schedule, Exit, Create, TidsOk, JoinOk, WaitOk, Waiter, First;
    assert BlockedOk(s.lib.table[k]) && BlockedOk(Current(s));
    match e
    case Tick(now) => ScheduleExactly(s.lib, now);
    case DoExit => ExitExactly(s.lib);
    case DoCreate => CreateCause(s.lib, k);
    case _ =>
  }

  lemma {:induction false} CreateCause(l: Lib, k: nat)
    requires Sized(l) && k < MAX_UTHREADS
    ensures var r := Create(l);
            && |r.table| == MAX_UTHREADS && r.nexttid >= l.nexttid
            && (r.table[k] != l.table[k] ==> l.table[k].state == TERMINATED && r.table[k].state == READY && r.table[k].tid == l.nexttid
                                             && r.table[k].join == -1)
  {
  }

  /** The first step of a stretch that changes slot k. */
  lemma {:induction false} FirstChange(ss: seq<State>, es: seq<Event>, k: nat, i: nat, j: nat) returns (m: nat)
    requires Run(ss, es) && i <= j < |ss| && k < MAX_UTHREADS
    requires Slots(ss[i].lib, ss[j].lib, k) && ss[i].lib.table[k] != ss[j].lib.table[k]
    ensures i <= m < j && TableInv(ss[m].lib) && ss[m].lib.table[k] == ss[i].lib.table[k]
    ensures Slots(ss[m].lib, ss[m + 1].lib, k) && Caused(ss[m], es[m], ss[m + 1], k)
    decreases j
  {
    hide Step, TidsOk, BlockedOk, WaitOk, JoinOk, OneRunning, Caused;
    RunKeepsTable(ss, es, j - 1);
    SlotCause(ss[j - 1], es[j - 1], ss[j], k);
    if ss[j - 1].lib.table[k] == ss[i].lib.table[k] {
      m := j - 1;
    } else {
      m := FirstChange(ss, es, k, i, j - 1);
    }
  }

  /** uthread_join returns only after the thread it waits for has exited. */
  lemma {:induction false} JoinReturnsAfterExit(ss: seq<State>, es: seq<Event>, k: nat, i: nat, j: nat)
    requires Run(ss, es) && i <= j < |ss| && Slots(ss[i].lib, ss[j].lib, k) && k < MAX_UTHREADS
    requires ss[i].lib.table[k].join != -1 && ss[j].lib.table[k].join != ss[i].lib.table[k].join
    ensures exists m | i <= m < j && es[m].DoExit? && Sized(ss[m].lib) :: Current(ss[m]).tid == ss[i].lib.table[k].join
  {
    var m := FirstChange(ss, es, k, i, j);
    assert es[m].DoExit? && Current(ss[m]).tid == ss[i].lib.table[k].join;
  }

  /** A thread that called uthread_sleep(ticks) at time now is asleep, and is first dispatched again
      by a scheduling call at time ticks + now or later. */
  lemma {:induction false} SleepsItsTime(ss: seq<State>, es: seq<Event>, i: nat, j: nat, k: nat)
    requires Run(ss, es) && i < j < |ss| && es[i].DoSleep? && k == ss[i].lib.ct && Slots(ss[i].lib, ss[j].lib, k) && k < MAX_UTHREADS
    ensures k < |ss[i + 1].lib.table| && ss[i + 1].lib.table[k].state == SLEEPING
    ensures ss[j].lib.table[k].state == SLEEPING || exists m | i < m < j && es[m].Tick? :: es[i].ticks + es[i].now <= es[m].now && ss[m + 1].lib.ct == k
  {
    assert Step(ss[i], es[i], ss[i + 1]);
    if ss[j].lib.table[k].state != SLEEPING {
      var m := FirstChange(ss, es, k, i + 1, j);
      assert es[m].Tick? && es[i].ticks + es[i].now <= es[m].now && ss[m + 1].lib.ct == k;
    }
  }

  /** A thread blocked on a semaphore goes on only by an up or free of that semaphore. */
  lemma {:induction false} WaiterLeavesByUp(ss: seq<State>, es: seq<Event>, k: nat, i: nat, j: nat)
    requires Run(ss, es) && i <= j < |ss| && Slots(ss[i].lib, ss[j].lib, k) && k < MAX_UTHREADS
    requires ss[i].lib.table[k].sem != -1 && ss[j].lib.table[k] != ss[i].lib.table[k]
    ensures exists m | i <= m < j && (es[m].Up? || es[m].Free?) :: es[m].s == ss[i].lib.table[k].sem
  {
    var m := FirstChange(ss, es, k, i, j);
    assert (es[m].Up? || es[m].Free?) && es[m].s == ss[i].lib.table[k].sem;
  }

  /** After uthread_exit the slot stays terminated, and so is never dispatched, until
      uthread_create reuses it. */
  lemma {:induction false} SlotStaysTerminated(ss: seq<State>, es: seq<Event>, i: nat, j: nat, k: nat)
    requires Run(ss, es) && i < j < |ss| && es[i].DoExit? && k == ss[i].lib.ct && Slots(ss[i].lib, ss[j].lib, k) && k < MAX_UTHREADS
    ensures ss[j].lib.table[k].state == TERMINATED || exists m | i < m < j && es[m].DoCreate? && k < |ss[m].lib.table| ::
              ss[m].lib.table[k].state == TERMINATED
  {
    hide Exit;
    assert Step(ss[i], es[i], ss[i + 1]);
    RunKeepsTable(ss, es, i);
    ExitExactly(ss[i].lib);
    if ss[j].lib.table[k].state != TERMINATED {
      var m := FirstChange(ss, es, k, i + 1, j);
      assert es[m].DoCreate? && ss[m].lib.table[k].state == TERMINATED;
    }
  }

  ghost predicate Dead(l: Lib, tid: int) {
    tid < l.nexttid && forall k | 0 <= k < |l.table| && l.table[k].tid == tid :: l.table[k].state == TERMINATED
  }

  /** Exit is final: no slot ever holds a live thread with the id of an exited one again. */
  lemma {:induction false} ExitIsFinal(ss: seq<State>, es: seq<Event>, i: nat, j: nat)
    requires Run(ss, es) && i < j < |ss| && es[i].DoExit? && Sized(ss[i].lib)
    ensures Dead(ss[j].lib, Current(ss[i]).tid)
    decreases j
  {
    hide Step, Exit, BlockedOk, WaitOk, JoinOk, OneRunning;
    RunKeepsTable(ss, es, j - 1);
    assert Step(ss[j - 1], es[j - 1], ss[j]);
    if j == i + 1 {
      ExitKills(ss[i], ss[j]);
    } else {
      ExitIsFinal(ss, es, i, j - 1);
      DeadStep(ss[j - 1], es[j - 1], ss[j], Current(ss[i]).tid);
    }
  }

  lemma {:induction false} ExitKills(s: State, t: State)
    requires TableInv(s.lib) && Step(s, DoExit, t)
    ensures Dead(t.lib, Current(s).tid)
  {
    hide Exit, WaitOk, JoinOk;
    ExitExactly(s.lib);
    var me := Current(s).tid;
    forall k | 0 <= k < |t.lib.table| && t.lib.table[k].tid == me ensures t.lib.table[k].state == TERMINATED {
      if k != s.lib.ct {
        assert s.lib.table[k].tid == me && BlockedOk(s.lib.table[k]);
        assert me == 0;
      }
    }
  }

  lemma {:induction false} DeadStep(s: State, e: Event, t: State, tid: int)
    requires TableInv(s.lib) && Step(s, e, t) && Dead(s.lib, tid)
    ensures Dead(t.lib, tid)
  {
    hide Step, OneRunning, BlockedOk, WaitOk, JoinOk;
    StepKeepsTable(s, e, t);
    SlotCause(s, e, t, 0);
    forall k | 0 <= k < |t.lib.table| && t.lib.table[k].tid == tid ensures t.lib.table[k].state == TERMINATED {
      SlotCause(s, e, t, k);
    }
  }
}
