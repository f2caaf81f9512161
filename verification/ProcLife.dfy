/** The life of a process: why each step may change a slot, and over whole runs when a process is
    marked killed, how sleep ends, and that a process leaves the table only by exit and wait. */
module ProcLife {
  import opened Proc
  import opened ProcRuns

  // ---- one step ----

  /** kill of the pid that slot i is the first to carry. */
  ghost predicate Hits(s: State, e: Event, i: nat)
    requires i < NPROC
  {
    e.Kill? && s.table[i].pid == e.pid && forall j | 0 <= j < i :: s.table[j].pid != e.pid
  }

  /** wait of the parent whose first zombie child is slot i. */
  ghost predicate Reaps(s: State, e: Event, i: nat)
    requires i < NPROC
  {
    && e.Wait? && s.table[i].state == ZOMBIE && s.table[i].parent == e.p
    && forall j | 0 <= j < i :: !(s.table[j].state == ZOMBIE && s.table[j].parent == e.p)
  }

  /** What ends the sleep of slot i: wakeup on its channel, a kill, or for a process in wait the
      exit of a child, or for init the exit of a process that leaves it a zombie. */
  ghost predicate Wakes(s: State, e: Event, i: nat)
    requires i < NPROC
  {
    || Hits(s, e, i)
    || (e.Wakeup? && s.table[i].chan == Other(e.id))
    || (e.Exit? && e.p < NPROC && s.table[i].chan == OnProc(i)
        && (s.table[e.p].parent == i || (i == s.init && exists k | 0 <= k < NPROC :: s.table[k].parent == e.p && s.table[k].state == ZOMBIE)))
  }

  /** exit makes the caller a zombie, gives its children to init, readies its parent if that
      sleeps in wait, and init if it sleeps in wait and inherits a zombie; nothing else changes. */
  lemma {:induction false} ExitExactly(s: State, p: nat, t: State)
    requires Inv(s) && Step(s, Exit(p), t)
    ensures t == s.(table := t.table) && t.table[p] == s.table[p].(state := ZOMBIE)
    ensures forall i | 0 <= i < NPROC && i != p ::
              && t.table[i].parent == (if s.table[i].parent == p then s.init else s.table[i].parent)
              && t.table[i].state == (if s.table[i].state == SLEEPING && Wakes(s, Exit(p), i) then RUNNABLE else s.table[i].state)
              && t.table[i].pid == s.table[i].pid && t.table[i].chan == s.table[i].chan && t.table[i].killed == s.table[i].killed
  {
    hide Step, TreeInv, PidsOk, HasKids;
    ExitHasShape(s, p, t) by { assert TreeInv(s); }
    forall i | 0 <= i < NPROC && i != p ensures s.table[i].state == SLEEPING && s.table[i].chan.OnProc? ==> s.table[i].chan == OnProc(i) {
      assert WaitOk(s, s.table[i], i);
    }
    assert HasZombie(s.table, p) <==> exists k | 0 <= k < NPROC :: s.table[k].parent == p && s.table[k].state == ZOMBIE by {
      assert forall k | 0 <= k < NPROC :: ChildOf(s.table[k], p) <==> s.table[k].parent == p;
    }
  }

  /** wait reaps when there is a zombie child; otherwise it sleeps on itself exactly when there is
      some child and it was not killed, and else returns. */
  lemma {:induction false} WaitExactly(s: State, p: nat, t: State)
    requires Sized(s) && Step(s, Wait(p), t)
    ensures var zombie := exists i | 0 <= i < NPROC :: s.table[i].parent == p && s.table[i].state == ZOMBIE;
            var child := exists i | 0 <= i < NPROC :: s.table[i].parent == p;
            && (zombie ==> exists i: nat | i < NPROC && Reaps(s, Wait(p), i) :: t.reaped == s.reaped + [s.table[i].pid])
            && (!zombie ==> t.reaped == s.reaped)
            && (!zombie && child && !s.table[p].killed ==> t.table[p].state == SLEEPING && t.table[p].chan == OnProc(p) && t.task[p].InWait?)
            && (zombie || !child || s.table[p].killed ==> t.task[p].Plain? && (zombie || t.table == s.table))
  {
    var z := ZombieChild(s.table, p);
    assert forall i | 0 <= i < NPROC :: ChildOf(s.table[i], p) <==> s.table[i].parent == p;
    if z < NPROC {
      assert s.table[z].parent == p && s.table[z].state == ZOMBIE;
      assert Reaps(s, Wait(p), z);
    } else {
      assert HasKids(s.table, p) <==> exists i | 0 <= i < NPROC :: s.table[i].parent == p;
    }
  }

  /** What the other steps do to the slot they are about. */
  lemma {:induction false} StepExactly(s: State, e: Event, t: State)
    requires Inv(s) && Step(s, e, t)
    ensures match e
            case ForkAlloc(p) =>
              (exists i | 0 <= i < NPROC :: s.table[i].state == UNUSED) ==>
                exists i: nat | i < NPROC && s.table[i].state == UNUSED ::
                  t.table[i].state == EMBRYO && t.table[i].pid == s.nextpid && t.nextpid == s.nextpid + 1 && t.task[p] == Forking(i)
            case ForkFail(p) => p < NPROC && s.task[p].child < NPROC && t.table[s.task[p].child].state == UNUSED && t.task[p].Plain?
            case ForkParent(p) => p < NPROC && s.task[p].child < NPROC && t.table[s.task[p].child].parent == p && t.task[p] == Parented(s.task[p].child)
            case ForkDone(p) =>
              p < NPROC && var c := s.task[p].child; c < NPROC && t.table[c].state == RUNNABLE && t.table[c].parent == p && t.task[p].Plain?
            case Sleep(p, id) => p < NPROC && t.table[p].state == SLEEPING && t.table[p].chan == Other(id)
            case Dispatch(p) => p < NPROC && t.table[p].state == RUNNING
            case Yield(p) => p < NPROC && t.table[p].state == RUNNABLE
            case _ => true
  {
    hide PidsOk, TreeInv, HasKids, HasZombie, Victim, ZombieChild, Exited, Inv, Wakeup1;
    TreeOf(s);
    match e
    case ForkAlloc(p) => assert FreeSlot(s.table) < NPROC ==> t.table[FreeSlot(s.table)].state == EMBRYO;
    case ForkDone(p) => assert TaskOk(s, p);
    case ForkFail(p) => assert TaskOk(s, p);
    case ForkParent(p) => assert TaskOk(s, p);
    case _ =>
  }

  /** Why the state of a slot changes, and to what. */
  ghost predicate Caused(s: State, e: Event, i: nat, was: PState, now: PState)
    requires Sized(s) && i < NPROC
  {
    match was
    case UNUSED => e.ForkAlloc? && now == EMBRYO
    case EMBRYO =>
      && (e.ForkFail? || e.ForkDone?) && e.p < NPROC && Creates(s.task[e.p]) && s.task[e.p].child == i
      && now == if e.ForkDone? then RUNNABLE else UNUSED
    case RUNNABLE => e == Dispatch(i) && now == RUNNING
    case RUNNING => (e == Yield(i) && now == RUNNABLE) || (e == Exit(i) && now == ZOMBIE) || ((e.Sleep? || e.Wait?) && e.p == i && now == SLEEPING)
    case SLEEPING => Wakes(s, e, i) && now == RUNNABLE
    case ZOMBIE => Reaps(s, e, i) && now == UNUSED
  }

  /** States change only for their cause, a sleeper wakes and a zombie goes whenever the cause is
      there, parents change only by fork, by the parent's exit and by being reaped, a pid is given
      only with the slot, and killed is set by kill and cleared by wait alone. */
  ghost predicate Change(s: State, e: Event, t: State, i: nat)
    requires Sized(s) && i < NPROC
  {
    var x, y := s.table[i], t.table[i];
    && (y.state != x.state ==> Caused(s, e, i, x.state, y.state))
    && (x.state == SLEEPING && Wakes(s, e, i) ==> y.state == RUNNABLE)
    && (Reaps(s, e, i) ==> y == Slot(UNUSED, 0, -1, x.chan, false))
    && (y.parent != x.parent ==>
          (e.ForkParent? && y.parent == e.p) || Reaps(s, e, i) || (e.Exit? && x.parent == e.p && y.parent == s.init))
    && (y.pid != x.pid ==> Reaps(s, e, i) || (e.ForkAlloc? && x.state == UNUSED && y.pid == s.nextpid))
    && (y.killed <==> Hits(s, e, i) || (x.killed && !Reaps(s, e, i)))
  }

  lemma {:induction false} SlotCause(s: State, e: Event, t: State, i: nat)
    requires Inv(s) && Step(s, e, t) && i < NPROC
    ensures Sized(s) && Change(s, e, t, i)
  {
    hide Step, Change, PidsOk, Inv;
    TreeOf(s);
    match e
    case Exit(p) => ExitCause(s, p, t, i);
    case ForkAlloc(p) => ForkCause(s, e, t, i);
    case ForkFail(p) => ForkCause(s, e, t, i);
    case ForkParent(p) => ForkCause(s, e, t, i);
    case ForkDone(p) => ForkCause(s, e, t, i);
    case Wait(p) => WaitCause(s, p, t, i);
    case _ => OtherCause(s, e, t, i);
  }

  lemma TreeOf(s: State)
    requires Inv(s)
    ensures TreeInv(s) && Sized(s) && forall p | 0 <= p < NPROC :: TaskOk(s, p)
  {
  }

  lemma {:induction false} ExitCause(s: State, p: nat, t: State, i: nat)
    requires Inv(s) && Step(s, Exit(p), t) && i < NPROC
    ensures Sized(s) && Change(s, Exit(p), t, i)
  {
    TreeOf(s);
    ExitExactly(s, p, t);
    assert s.table[p].state == RUNNING;
    hide Inv, TreeInv, Step, Wakes;
  }

  lemma {:induction false} ForkCause(s: State, e: Event, t: State, i: nat)
    requires Sized(s) && (forall p | 0 <= p < NPROC :: TaskOk(s, p)) && Step(s, e, t) && i < NPROC
    requires e.ForkAlloc? || e.ForkFail? || e.ForkParent? || e.ForkDone?
    ensures Change(s, e, t, i)
  {
    hide FreeSlot;
    assert TaskOk(s, e.p);
  }

  lemma {:induction false} OtherCause(s: State, e: Event, t: State, i: nat)
    requires Sized(s) && Step(s, e, t) && i < NPROC && IsGentle(e)
    ensures Change(s, e, t, i)
  {
    hide Victim;
    match e
    case Wakeup(id) => assert t.table[i] == Woken(s.table[i], Other(id));
    case _ =>
  }

  lemma {:induction false} WaitCause(s: State, p: nat, t: State, i: nat)
    requires Sized(s) && Step(s, Wait(p), t) && i < NPROC
    ensures Change(s, Wait(p), t, i)
  {
    hide HasKids;
    var z := ZombieChild(s.table, p);
    assert z < NPROC ==> Reaps(s, Wait(p), z);
    if Reaps(s, Wait(p), i) {
      assert ChildOf(s.table[i], p);
      assert z == i;
    }
  }

  // ---- whole runs ----

  /** A kill marked slot i at step m, and nobody reaped it before state n. */
  ghost predicate MarkedAt(ss: seq<State>, es: seq<Event>, m: nat, n: nat, i: nat)
    requires |ss| == |es| + 1 && m < n <= |es| && i < NPROC
  {
    Hits(ss[m], es[m], i) && forall j | m < j < n :: !Reaps(ss[j], es[j], i)
  }

  /** A slot carries the killed mark exactly when kill found it and it has not been reaped since. */
  lemma {:induction false} KilledExactly(ss: seq<State>, es: seq<Event>, n: nat, i: nat)
    requires Run(ss, es) && n < |ss| && i < NPROC
    ensures ss[n].table[i].killed <==> exists m: nat | m < n :: MarkedAt(ss, es, m, n, i)
  {
    hide Step, Inv, Hits, Reaps, Caused, Wakes;
    if n > 0 {
      KilledExactly(ss, es, n - 1, i);
      RunKeepsInv(ss, es, n - 1);
      assert Step(ss[n - 1], es[n - 1], ss[n]);
      SlotCause(ss[n - 1], es[n - 1], ss[n], i);
      NotBoth(ss[n - 1], es[n - 1], i);
      if Hits(ss[n - 1], es[n - 1], i) {
        assert MarkedAt(ss, es, n - 1, n, i);
      } else if ss[n - 1].table[i].killed && !Reaps(ss[n - 1], es[n - 1], i) {
        var m: nat :| m < n - 1 && MarkedAt(ss, es, m, n - 1, i);
        assert MarkedAt(ss, es, m, n, i);
      } else {
        forall m: nat | m < n ensures !MarkedAt(ss, es, m, n, i) {
          assert m < n - 1 ==> MarkedAt(ss, es, m, n, i) ==> MarkedAt(ss, es, m, n - 1, i);
        }
      }
    }
  }

  lemma NotBoth(s: State, e: Event, i: nat)
    requires i < NPROC
    ensures !(Hits(s, e, i) && Reaps(s, e, i))
  {
  }

  /** The first step of a stretch that changes the state of slot i. */
  lemma {:induction false} FirstChange(ss: seq<State>, es: seq<Event>, i: nat, a: nat, b: nat) returns (m: nat)
    requires Run(ss, es) && a <= b < |ss| && i < NPROC && ss[a].table[i].state != ss[b].table[i].state
    ensures a <= m < b && ss[m].table[i].state == ss[a].table[i].state && Sized(ss[m])
    ensures Caused(ss[m], es[m], i, ss[a].table[i].state, ss[m + 1].table[i].state)
    decreases b
  {
    hide Step, Inv, Caused, Hits, Reaps, Wakes;
    RunKeepsInv(ss, es, b - 1);
    assert Step(ss[b - 1], es[b - 1], ss[b]);
    SlotCause(ss[b - 1], es[b - 1], ss[b], i);
    if ss[b - 1].table[i].state == ss[a].table[i].state {
      m := b - 1;
    } else {
      m := FirstChange(ss, es, i, a, b - 1);
    }
  }

  /** A sleep ends only by what the sleeper waits for or by a kill. */
  lemma {:induction false} SleepEnds(ss: seq<State>, es: seq<Event>, i: nat, a: nat, b: nat)
    requires Run(ss, es) && a <= b < |ss| && i < NPROC
    requires ss[a].table[i].state == SLEEPING && ss[b].table[i].state != SLEEPING
    ensures exists m | a <= m < b :: Wakes(ss[m], es[m], i)
  {
    hide Wakes, Step;
    var m := FirstChange(ss, es, i, a, b);
    assert Wakes(ss[m], es[m], i);
  }

  /** A zombie stays until its parent's wait reaps it. */
  lemma {:induction false} ZombieStays(ss: seq<State>, es: seq<Event>, i: nat, a: nat, b: nat)
    requires Run(ss, es) && a <= b < |ss| && i < NPROC
    requires ss[a].table[i].state == ZOMBIE && ss[b].table[i].state != ZOMBIE
    ensures exists m | a <= m < b :: Reaps(ss[m], es[m], i)
  {
    hide Reaps, Step;
    var m := FirstChange(ss, es, i, a, b);
    assert Reaps(ss[m], es[m], i);
  }

  /** A process ends only by its own exit: a slot in use that is a zombie or unused later, or has
      another pid, has exited in between. */
  lemma {:induction false} EndsByExit(ss: seq<State>, es: seq<Event>, i: nat, a: nat, b: nat)
    requires Run(ss, es) && a <= b < |ss| && i < NPROC && Active(ss[a].table[i])
    requires !Active(ss[b].table[i]) || ss[b].table[i].pid != ss[a].table[i].pid
    ensures exists m | a <= m < b :: es[m] == Exit(i)
    decreases b
  {
    hide Step, Inv, Hits, Reaps, Wakes;
    if a < b {
      RunKeepsInv(ss, es, b - 1);
      assert Step(ss[b - 1], es[b - 1], ss[b]);
      SlotCause(ss[b - 1], es[b - 1], ss[b], i);
      if Active(ss[b - 1].table[i]) && ss[b - 1].table[i].pid == ss[a].table[i].pid {
        if Reaps(ss[b - 1], es[b - 1], i) { ReapedIsZombie(ss[b - 1], es[b - 1], i); }
        assert es[b - 1] == Exit(i);
      } else {
        EndsByExit(ss, es, i, a, b - 1);
      }
    }
  }

  lemma ReapedIsZombie(s: State, e: Event, i: nat)
    requires i < NPROC && Reaps(s, e, i)
    ensures s.table[i].state == ZOMBIE
  {
  }

  // ---- a process can be born killed ----

  /** A new process starts without the mark exactly when no kill has found its slot since the slot
      was last reaped; kill does not look at the state, and unused slots carry pid 0 or the pid
      of a fork that failed. */
  lemma {:induction false} BornKilledExactly(ss: seq<State>, es: seq<Event>, n: nat, i: nat)
    requires Run(ss, es) && n < |es| && i < NPROC && ss[n].table[i].state == UNUSED && ss[n + 1].table[i].state == EMBRYO
    ensures ss[n + 1].table[i].killed <==> exists m: nat | m < n :: MarkedAt(ss, es, m, n, i)
  {
    hide Inv, Hits, Reaps, MarkedAt;
    RunKeepsInv(ss, es, n);
    assert Step(ss[n], es[n], ss[n + 1]);
    SlotCause(ss[n], es[n], ss[n + 1], i);
    KilledExactly(ss, es, n, i);
    assert es[n].ForkAlloc?;
    NotFork(ss[n], es[n], i);
  }

  lemma NotFork(s: State, e: Event, i: nat)
    requires i < NPROC && e.ForkAlloc?
    ensures !Hits(s, e, i) && !Reaps(s, e, i)
  {
  }

  /** kill(0) right after boot: the first process init forks is born killed. */
  lemma {:induction false} BornKilled(s0: State) returns (ss: seq<State>, es: seq<Event>)
    requires Init(s0) && s0.init == 0
    ensures Run(ss, es) && ss[0] == s0 && es == [Kill(0), Dispatch(0), ForkAlloc(0)]
    ensures ss[3].table[1].state == EMBRYO && ss[3].table[1].pid == 2 && ss[3].table[1].killed
  {
    hide Inv, Victim, FreeSlot;
    assert Victim(s0.table, 0) == 1;
    var s1 := Set(s0, 1, Killed(s0.table[1]));
    var s2 := Set(s1, 0, s1.table[0].(state := RUNNING));
    assert s2.table[0].state == RUNNING && s2.table[1].state == UNUSED;
    assert FreeSlot(s2.table) == 1;
    var s3 := Go(Set(s2, 1, s2.table[1].(state := EMBRYO, pid := 2)), 0, Forking(1)).(nextpid := 3);
    assert Step(s0, Kill(0), s1);
    assert Step(s1, Dispatch(0), s2);
    assert Step(s2, ForkAlloc(0), s3);
    ss, es := [s0, s1, s2, s3], [Kill(0), Dispatch(0), ForkAlloc(0)];
  }
}
