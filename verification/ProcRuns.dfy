/** What every run of the process table keeps: a tree of processes rooted at init, no
    orphan, no zombie whose parent sleeps in wait, no process reaped twice. */
module ProcRuns {
  import opened Proc

  /** Where a process is in the kernel. */
  datatype Task = Plain | Forking(child: nat) | Parented(child: nat) | InWait

  datatype State = State(table: Table, task: seq<Task>, init: nat, nextpid: int, reaped: seq<int>)

  datatype Event =
    | ForkAlloc(p: nat)     // allocproc
    | ForkFail(p: nat)      // no kernel stack or no memory for the copy
    | ForkParent(p: nat)    // np->parent = proc
    | ForkDone(p: nat)      // np->state = RUNNABLE
    | Exit(p: nat)
    | Wait(p: nat)          // one scan of wait's loop
    | Sleep(p: nat, id: int)
    | Wakeup(id: int)
    | Kill(pid: int)
    | Dispatch(p: nat)      // scheduler
    | Yield(p: nat)

  predicate Sized(s: State) {
    |s.task| == NPROC && s.init < NPROC
  }

  predicate Active(x: Slot) {
    x.state == SLEEPING || x.state == RUNNABLE || x.state == RUNNING
  }

  predicate Live(x: Slot) {
    Active(x) || x.state == ZOMBIE
  }

  function Set(s: State, i: nat, x: Slot): (t: State)
    requires i < NPROC
  {
    s.(table := s.table[i := x])
  }

  function Go(s: State, p: nat, k: Task): (t: State)
    requires p < |s.task|
  {
    s.(task := s.task[p := k])
  }

  predicate Runs(s: State, p: nat) {
    p < NPROC && |s.task| == NPROC && s.table[p].state == RUNNING
  }

  ghost predicate Step(s: State, e: Event, t: State) {
    match e
    case ForkAlloc(p) =>
      && Runs(s, p) && s.task[p].Plain?
      && var i := FreeSlot(s.table);
         t == if i == NPROC then s
              else Go(Set(s, i, s.table[i].(state := EMBRYO, pid := s.nextpid)), p, Forking(i)).(nextpid := s.nextpid + 1)
    case ForkFail(p) =>
      && Runs(s, p) && s.task[p].Forking? && s.task[p].child < NPROC
      && var i := s.task[p].child; t == Go(Set(s, i, s.table[i].(state := UNUSED)), p, Plain)
    case ForkParent(p) =>
      && Runs(s, p) && s.task[p].Forking? && s.task[p].child < NPROC
      && var i := s.task[p].child; t == Go(Set(s, i, s.table[i].(parent := p)), p, Parented(i))
    case ForkDone(p) =>
      && Runs(s, p) && s.task[p].Parented? && s.task[p].child < NPROC
      && var i := s.task[p].child; t == Go(Go(Set(s, i, s.table[i].(state := RUNNABLE)), p, Plain), i, Plain)
    case Exit(p) =>
      && Runs(s, p) && s.task[p].Plain? && p != s.init
      && t == s.(table := Exited(s.table, p, s.init))
    case Wait(p) =>
      && Runs(s, p) && (s.task[p].Plain? || s.task[p].InWait?)
      && var i := ZombieChild(s.table, p);
         t == if i < NPROC then
                Go(Set(s, i, Reap(s.table[i])), p, Plain).(reaped := s.reaped + [s.table[i].pid])
              else if !HasKids(s.table, p) || s.table[p].killed then Go(s, p, Plain)
              else Go(Set(s, p, s.table[p].(state := SLEEPING, chan := OnProc(p))), p, InWait)
    case Sleep(p, id) =>
      && Runs(s, p) && s.task[p].Plain?
      && t == Set(s, p, s.table[p].(state := SLEEPING, chan := Other(id)))
    case Wakeup(id) => t == s.(table := Wakeup1(s.table, Other(id)))
    case Kill(pid) =>
      var i := Victim(s.table, pid);
      t == if i == NPROC then s else Set(s, i, Killed(s.table[i]))
    case Dispatch(p) =>
      p < NPROC && s.table[p].state == RUNNABLE && t == Set(s, p, s.table[p].(state := RUNNING))
    case Yield(p) =>
      Runs(s, p) && t == Set(s, p, s.table[p].(state := RUNNABLE))
  }

  // ---- invariant ----

  /** A live process other than init has a live parent that is not a zombie. */
  predicate ParentOk(s: State, x: Slot, i: nat) {
    Live(x) ==> if i == s.init then Active(x) && x.parent == -1
                else 0 <= x.parent < NPROC && Active(s.table[x.parent])
  }

  /** A slot that is not live has no parent, unless its creator has just set it. */
  ghost predicate BlankOk(s: State, x: Slot, i: nat)
    requires Sized(s)
  {
    !Live(x) ==> x.parent == -1 || (x.state == EMBRYO && 0 <= x.parent < NPROC && s.task[x.parent] == Parented(i))
  }

  /** A creating process owns an embryo that no other process is creating. */
  ghost predicate TaskOk(s: State, p: nat)
    requires Sized(s) && p < NPROC
  {
    match s.task[p]
    case Plain => true
    case InWait => Active(s.table[p])
    case Forking(i) => Active(s.table[p]) && p != i && i < NPROC && s.table[i].state == EMBRYO && s.table[i].parent == -1
    case Parented(i) => Active(s.table[p]) && p != i && i < NPROC && s.table[i].state == EMBRYO && s.table[i].parent == p
  }

  ghost predicate OwnersDiffer(s: State)
    requires Sized(s)
  {
    forall p, q | 0 <= p < q < NPROC && Creates(s.task[p]) && Creates(s.task[q]) :: s.task[p].child != s.task[q].child
  }

  predicate Creates(k: Task) {
    k.Forking? || k.Parented?
  }

  /** Sleeping in wait: on itself, with some child and no zombie child. */
  ghost predicate WaitOk(s: State, x: Slot, p: nat)
    requires Sized(s) && p < NPROC
  {
    x.state == SLEEPING && x.chan.OnProc? ==>
      x.chan == OnProc(p) && s.task[p].InWait? && !HasZombie(s.table, p) && HasKids(s.table, p)
  }

  ghost predicate Ranked(s: State, rank: seq<nat>) {
    |rank| == NPROC && s.init < NPROC && rank[s.init] == 0
    && forall i | 0 <= i < NPROC && Live(s.table[i]) && i != s.init && 0 <= s.table[i].parent < NPROC ::
         rank[s.table[i].parent] < rank[i]
  }

  ghost predicate PidsOk(s: State) {
    && s.nextpid > 0
    && (forall i | 0 <= i < NPROC && s.table[i].state != UNUSED :: 0 < s.table[i].pid < s.nextpid)
    && (forall i, j | 0 <= i < j < NPROC && s.table[i].state != UNUSED && s.table[j].state != UNUSED ::
          s.table[i].pid != s.table[j].pid)
    && (forall k | 0 <= k < |s.reaped| :: 0 < s.reaped[k] < s.nextpid)
    && (forall k, i | 0 <= k < |s.reaped| && 0 <= i < NPROC && s.table[i].state != UNUSED :: s.table[i].pid != s.reaped[k])
    && forall k, m | 0 <= k < m < |s.reaped| :: s.reaped[k] != s.reaped[m]
  }

  ghost predicate TreeInv(s: State) {
    && Sized(s) && Active(s.table[s.init])
    && (forall i | 0 <= i < NPROC :: ParentOk(s, s.table[i], i))
    && (forall i | 0 <= i < NPROC :: BlankOk(s, s.table[i], i))
    && (forall p | 0 <= p < NPROC :: TaskOk(s, p))
    && OwnersDiffer(s)
    && exists rank :: Ranked(s, rank)
  }

  ghost predicate Inv(s: State) {
    TreeInv(s) && PidsOk(s) && forall p | 0 <= p < NPROC :: WaitOk(s, s.table[p], p)
  }

  // ---- steps that change neither kinds nor parents ----

  predicate SameKind(x: Slot, y: Slot) {
    && y.parent == x.parent && y.pid == x.pid
    && (Active(y) <==> Active(x)) && (y.state == ZOMBIE <==> x.state == ZOMBIE)
    && (y.state == EMBRYO <==> x.state == EMBRYO)
  }

  ghost predicate Gentle(s: State, t: State) {
    && Sized(t) && t.init == s.init && t.nextpid == s.nextpid && t.reaped == s.reaped && Sized(s)
    && (forall i | 0 <= i < NPROC :: SameKind(s.table[i], t.table[i]))
    && forall i | 0 <= i < NPROC ::
         t.task[i] == s.task[i] || (!Creates(s.task[i]) && !Creates(t.task[i]) && (t.task[i].InWait? ==> Active(t.table[i])))
  }

  lemma {:induction false} GentleTree(s: State, t: State)
    requires TreeInv(s) && Gentle(s, t)
    ensures TreeInv(t)
  {
    var rank :| Ranked(s, rank);
    assert Ranked(t, rank);
    forall p | 0 <= p < NPROC ensures TaskOk(t, p) {
      assert TaskOk(s, p);
    }
    forall p | 0 <= p < NPROC ensures BlankOk(t, t.table[p], p) && ParentOk(t, t.table[p], p) {
      assert BlankOk(s, s.table[p], p) && ParentOk(s, s.table[p], p);
    }
    forall p, q | 0 <= p < q < NPROC && Creates(t.task[p]) && Creates(t.task[q])
      ensures t.task[p].child != t.task[q].child
    {
      assert s.task[p] == t.task[p] && s.task[q] == t.task[q];
    }
  }

  lemma {:induction false} GentlePids(s: State, t: State)
    requires PidsOk(s) && Gentle(s, t)
    ensures PidsOk(t)
  {
    assert forall i | 0 <= i < NPROC :: t.table[i].pid == s.table[i].pid && (t.table[i].state == UNUSED <==> s.table[i].state == UNUSED);
  }

  lemma {:induction false} GentleKids(s: State, t: State, p: int)
    requires Gentle(s, t)
    ensures HasZombie(t.table, p) == HasZombie(s.table, p) && HasKids(t.table, p) == HasKids(s.table, p)
  {
    assert forall i | 0 <= i < NPROC :: SameKind(s.table[i], t.table[i]);
  }

  /** Slot p goes to sleep in wait, sleeps on something else, or does not sleep on a process. */
  lemma {:induction false} GentleWait(s: State, t: State, p: nat)
    requires Inv(s) && Gentle(s, t) && p < NPROC
    requires t.table[p].state == SLEEPING && t.table[p].chan.OnProc? ==>
               (s.table[p].state == SLEEPING && s.table[p].chan == t.table[p].chan && t.task[p] == s.task[p])
               || (t.table[p].chan == OnProc(p) && t.task[p].InWait? && !HasZombie(s.table, p) && HasKids(s.table, p))
    ensures WaitOk(t, t.table[p], p)
  {
    assert WaitOk(s, s.table[p], p);
    GentleKids(s, t, p);
  }

  predicate IsGentle(e: Event) {
    e.Sleep? || e.Wakeup? || e.Kill? || e.Dispatch? || e.Yield?
  }

  lemma {:induction false} GentleStep(s: State, e: Event, t: State)
    requires Inv(s) && Step(s, e, t) && IsGentle(e)
    ensures Inv(t)
  {
    hide TaskOk, BlankOk, ParentOk, OwnersDiffer, Ranked, PidsOk, Victim, HasZombie, HasKids;
    assert Gentle(s, t);
    GentleTree(s, t);
    GentlePids(s, t);
    forall p | 0 <= p < NPROC ensures WaitOk(t, t.table[p], p) {
      GentleWait(s, t, p);
    }
  }

  /** wait when there is nothing to reap. */
  lemma {:induction false} WaitSleepStep(s: State, p: nat, t: State)
    requires Inv(s) && Step(s, Wait(p), t) && ZombieChild(s.table, p) == NPROC
    ensures Inv(t)
  {
    hide TaskOk, BlankOk, ParentOk, OwnersDiffer, Ranked, PidsOk;
    assert Gentle(s, t);
    GentleTree(s, t);
    GentlePids(s, t);
    assert !HasZombie(s.table, p);
    forall q | 0 <= q < NPROC ensures WaitOk(t, t.table[q], q) {
      GentleWait(s, t, q);
    }
  }

  // ---- fork ----

  /** Slot i changes and everyone else, tasks of others included, stays as it was. */
  ghost predicate OnlySlot(s: State, t: State, i: nat, p: nat) {
    && Sized(s) && Sized(t) && t.init == s.init && i < NPROC && p < NPROC
    && (forall j | 0 <= j < NPROC && j != i :: t.table[j] == s.table[j])
    && forall q | 0 <= q < NPROC && q != p && q != i :: t.task[q] == s.task[q]
  }

  lemma {:induction false} OnlySlotKids(s: State, t: State, i: nat, p: nat, q: int)
    requires OnlySlot(s, t, i, p)
    requires !ChildOf(s.table[i], q) && !ChildOf(t.table[i], q)
    ensures HasZombie(t.table, q) == HasZombie(s.table, q) && HasKids(t.table, q) == HasKids(s.table, q)
  {
    assert forall j | 0 <= j < NPROC :: t.table[j] == s.table[j] || j == i;
  }

  /** Nobody but p is creating slot i. */
  ghost predicate Unclaimed(s: State, i: nat, p: nat)
    requires Sized(s)
  {
    forall q | 0 <= q < NPROC && q != p && Creates(s.task[q]) :: s.task[q].child != i
  }

  lemma {:induction false} UnclaimedSlot(s: State, i: nat, p: nat)
    requires TreeInv(s) && i < NPROC && p < NPROC
    requires s.table[i].state != EMBRYO || (Creates(s.task[p]) && s.task[p].child == i)
    ensures Unclaimed(s, i, p)
  {
    forall q | 0 <= q < NPROC && q != p && Creates(s.task[q]) ensures s.task[q].child != i {
      assert TaskOk(s, q);
    }
  }

  lemma {:induction false} SlotParents(s: State, t: State, i: nat, p: nat)
    requires TreeInv(s) && OnlySlot(s, t, i, p) && i != s.init
    requires Active(s.table[i]) ==> Active(t.table[i])
    requires Live(t.table[i]) ==> 0 <= t.table[i].parent < NPROC && Active(t.table[t.table[i].parent])
    ensures Active(t.table[t.init]) && forall q | 0 <= q < NPROC :: ParentOk(t, t.table[q], q)
  {
    forall q | 0 <= q < NPROC ensures ParentOk(t, t.table[q], q) {
      assert ParentOk(s, s.table[q], q);
    }
  }

  lemma {:induction false} SlotBlanks(s: State, t: State, i: nat, p: nat)
    requires TreeInv(s) && OnlySlot(s, t, i, p) && BlankOk(t, t.table[i], i)
    requires s.task[p].Parented? ==> s.task[p].child == i
    requires !Creates(s.task[i]) || i == p
    ensures forall q | 0 <= q < NPROC :: BlankOk(t, t.table[q], q)
  {
    forall q | 0 <= q < NPROC ensures BlankOk(t, t.table[q], q) {
      assert BlankOk(s, s.table[q], q);
    }
  }

  lemma {:induction false} SlotTasks(s: State, t: State, i: nat, p: nat)
    requires TreeInv(s) && OnlySlot(s, t, i, p) && Unclaimed(s, i, p)
    requires TaskOk(t, p) && TaskOk(t, i) && (i != p ==> !Creates(t.task[i]))
    requires Creates(t.task[p]) ==> t.task[p].child == i
    ensures (forall q | 0 <= q < NPROC :: TaskOk(t, q)) && OwnersDiffer(t)
  {
    forall q | 0 <= q < NPROC ensures TaskOk(t, q) {
      assert TaskOk(s, q);
    }
    forall q, r | 0 <= q < r < NPROC && Creates(t.task[q]) && Creates(t.task[r])
      ensures t.task[q].child != t.task[r].child
    {
      if q != p && r != p {
        assert t.task[q] == s.task[q] && t.task[r] == s.task[r];
      }
    }
  }

  lemma {:induction false} SlotWaits(s: State, t: State, i: nat, p: nat)
    requires Inv(s) && OnlySlot(s, t, i, p) && s.table[p].state == RUNNING && i != p
    requires t.table[i].state != SLEEPING
    requires forall q | 0 <= q < NPROC && q != p :: !ChildOf(s.table[i], q) && !ChildOf(t.table[i], q)
    ensures forall q | 0 <= q < NPROC :: WaitOk(t, t.table[q], q)
  {
    forall q | 0 <= q < NPROC ensures WaitOk(t, t.table[q], q) {
      assert WaitOk(s, s.table[q], q);
      if q != p {
        OnlySlotKids(s, t, i, p, q);
      }
    }
  }

  lemma {:induction false} AllocPids(s: State, i: nat, t: State)
    requires PidsOk(s) && i < NPROC
    requires t.table == s.table[i := s.table[i].(state := EMBRYO, pid := s.nextpid)]
    requires t.nextpid == s.nextpid + 1 && t.reaped == s.reaped
    ensures PidsOk(t)
  {
  }

  lemma {:induction false} PidsSubset(s: State, t: State)
    requires PidsOk(s) && t.nextpid == s.nextpid && t.reaped == s.reaped
    requires forall i | 0 <= i < NPROC && t.table[i].state != UNUSED ::
               s.table[i].state != UNUSED && t.table[i].pid == s.table[i].pid
    ensures PidsOk(t)
  {
  }

  lemma {:induction false} ForkAllocStep(s: State, p: nat, t: State)
    requires Inv(s) && Step(s, ForkAlloc(p), t)
    ensures Inv(t)
  {
    hide HasZombie, HasKids, FreeSlot, ParentOk, OwnersDiffer, WaitOk, PidsOk;
    var i := FreeSlot(s.table);
    if i < NPROC {
      var rank :| Ranked(s, rank);
      assert Ranked(t, rank);
      assert BlankOk(s, s.table[i], i) && TaskOk(s, i);
      UnclaimedSlot(s, i, p);
      SlotParents(s, t, i, p);
      SlotBlanks(s, t, i, p);
      SlotTasks(s, t, i, p);
      SlotWaits(s, t, i, p);
      AllocPids(s, i, t);
    }
  }

  lemma {:induction false} ForkFailStep(s: State, p: nat, t: State)
    requires Inv(s) && Step(s, ForkFail(p), t)
    ensures Inv(t)
  {
    hide HasZombie, HasKids, ParentOk, OwnersDiffer, WaitOk, PidsOk;
    var i := s.task[p].child;
    assert TaskOk(s, p) && TaskOk(s, i);
    var rank :| Ranked(s, rank);
    assert Ranked(t, rank);
    UnclaimedSlot(s, i, p);
    SlotParents(s, t, i, p);
    SlotBlanks(s, t, i, p);
    SlotTasks(s, t, i, p);
    SlotWaits(s, t, i, p);
    PidsSubset(s, t);
  }

  lemma {:induction false} ForkParentStep(s: State, p: nat, t: State)
    requires Inv(s) && Step(s, ForkParent(p), t)
    ensures Inv(t)
  {
    hide HasZombie, HasKids, ParentOk, OwnersDiffer, WaitOk, PidsOk;
    var i := s.task[p].child;
    assert TaskOk(s, p) && TaskOk(s, i);
    var rank :| Ranked(s, rank);
    assert Ranked(t, rank);
    UnclaimedSlot(s, i, p);
    SlotParents(s, t, i, p);
    SlotBlanks(s, t, i, p);
    SlotTasks(s, t, i, p);
    SlotWaits(s, t, i, p);
    PidsSubset(s, t);
  }

  lemma {:induction false} ForkRank(s: State, p: nat, i: nat, t: State, rank: seq<nat>)
    requires TreeInv(s) && OnlySlot(s, t, i, p) && Ranked(s, rank) && i != s.init && i != p
    requires s.table[i].state == EMBRYO && t.table[i].parent == p
    ensures Ranked(t, rank[i := rank[p] + 1])
  {
    assert forall q | 0 <= q < NPROC :: ParentOk(s, s.table[q], q);
  }

  lemma {:induction false} ForkDoneStep(s: State, p: nat, t: State)
    requires Inv(s) && Step(s, ForkDone(p), t)
    ensures Inv(t)
  {
    hide HasZombie, HasKids, ParentOk, OwnersDiffer, WaitOk, PidsOk;
    var i := s.task[p].child;
    assert TaskOk(s, p) && TaskOk(s, i);
    var rank :| Ranked(s, rank);
    ForkRank(s, p, i, t, rank);
    UnclaimedSlot(s, i, p);
    SlotParents(s, t, i, p);
    SlotBlanks(s, t, i, p);
    SlotTasks(s, t, i, p);
    SlotWaits(s, t, i, p);
    PidsSubset(s, t);
  }

  // ---- wait reaps ----

  lemma {:induction false} ReapPids(s: State, i: nat, t: State)
    requires PidsOk(s) && i < NPROC && s.table[i].state == ZOMBIE && t.table == s.table[i := Reap(s.table[i])]
    requires t.nextpid == s.nextpid && t.reaped == s.reaped + [s.table[i].pid]
    ensures PidsOk(t)
  {
    forall k, m | 0 <= k < m < |t.reaped| ensures t.reaped[k] != t.reaped[m] {
      assert t.reaped[k] == s.reaped[k];
    }
    forall k, j | 0 <= k < |t.reaped| && 0 <= j < NPROC && t.table[j].state != UNUSED
      ensures t.table[j].pid != t.reaped[k]
    {
      assert j != i && t.table[j] == s.table[j];
      assert s.table[j].pid != s.table[i].pid;
    }
  }

  lemma {:induction false} ReapStep(s: State, p: nat, t: State)
    requires Inv(s) && Step(s, Wait(p), t) && ZombieChild(s.table, p) < NPROC
    ensures Inv(t)
  {
    hide HasZombie, HasKids, ZombieChild, OwnersDiffer, WaitOk, PidsOk;
    var i := ZombieChild(s.table, p);
    assert TaskOk(s, p) && TaskOk(s, i) && ParentOk(s, s.table[i], i);
    var rank :| Ranked(s, rank);
    assert Ranked(t, rank);
    UnclaimedSlot(s, i, p);
    SlotParents(s, t, i, p);
    SlotBlanks(s, t, i, p);
    SlotTasks(s, t, i, p);
    SlotWaits(s, t, i, p);
    ReapPids(s, i, t);
  }

  // ---- exit ----

  /** The facts about exit the proofs below need, slot by slot. */
  ghost predicate ExitShape(s: State, p: nat, t: State) {
    && Sized(s) && p < NPROC && t == s.(table := t.table) && p != s.init
    && s.table[p].state == RUNNING && s.task[p].Plain?
    && t.table[p] == s.table[p].(state := ZOMBIE)
    && forall i | 0 <= i < NPROC && i != p ::
         && t.table[i] == Adopted(s.table[i], p, s.table[p].parent, s.init, HasZombie(s.table, p))
  }

  lemma {:induction false} ExitHasShape(s: State, p: nat, t: State)
    requires TreeInv(s) && Step(s, Exit(p), t)
    ensures ExitShape(s, p, t)
  {
    hide HasZombie;
    var rank :| Ranked(s, rank);
    assert ParentOk(s, s.table[p], p);
    assert s.table[p].parent != p;
  }

  /** Exit moves p's children to init and makes p a zombie; nothing else changes kind. */
  ghost predicate Moved(s: State, p: nat, t: State) {
    && Sized(s) && p < NPROC && t == s.(table := t.table) && p != s.init
    && Active(s.table[p]) && s.task[p].Plain? && t.table[p] == s.table[p].(state := ZOMBIE)
    && forall i | 0 <= i < NPROC && i != p ::
         && SameKind(s.table[i].(parent := t.table[i].parent), t.table[i])
         && t.table[i].parent == if s.table[i].parent == p then s.init else s.table[i].parent
  }

  lemma {:induction false} ExitMoves(s: State, p: nat, t: State)
    requires ExitShape(s, p, t)
    ensures Moved(s, p, t)
  {
    hide HasZombie;
  }

  lemma {:induction false} MovedParents(s: State, p: nat, t: State, q: nat)
    requires TreeInv(s) && Moved(s, p, t) && q < NPROC
    ensures ParentOk(t, t.table[q], q)
  {
    hide BlankOk, TaskOk, OwnersDiffer;
    assert ParentOk(s, s.table[q], q) && ParentOk(s, s.table[p], p);
    var rank :| Ranked(s, rank);
  }

  lemma {:induction false} MovedRest(s: State, p: nat, t: State, q: nat)
    requires TreeInv(s) && Moved(s, p, t) && q < NPROC
    ensures BlankOk(t, t.table[q], q) && TaskOk(t, q)
  {
    hide ParentOk, OwnersDiffer, Ranked;
    assert BlankOk(s, s.table[q], q) && TaskOk(s, q);
  }

  lemma {:induction false} MovedRank(s: State, p: nat, t: State, rank: seq<nat>)
    requires TreeInv(s) && Moved(s, p, t) && Ranked(s, rank)
    ensures Ranked(t, rank)
  {
    hide BlankOk, TaskOk, OwnersDiffer;
    assert ParentOk(s, s.table[p], p);
  }

  lemma {:induction false} ExitTree(s: State, p: nat, t: State)
    requires TreeInv(s) && ExitShape(s, p, t)
    ensures TreeInv(t)
  {
    hide HasZombie, ExitShape, ParentOk, BlankOk, TaskOk, Ranked;
    ExitMoves(s, p, t);
    forall q | 0 <= q < NPROC ensures ParentOk(t, t.table[q], q) && BlankOk(t, t.table[q], q) && TaskOk(t, q) {
      MovedParents(s, p, t, q);
      MovedRest(s, p, t, q);
    }
    var rank :| Ranked(s, rank);
    MovedRank(s, p, t, rank);
  }

  lemma {:induction false} ExitPids(s: State, p: nat, t: State)
    requires PidsOk(s) && ExitShape(s, p, t)
    ensures PidsOk(t)
  {
    hide HasZombie;
    assert forall i | 0 <= i < NPROC :: t.table[i].pid == s.table[i].pid && (t.table[i].state == UNUSED <==> s.table[i].state == UNUSED);
    PidsSubset(s, t);
  }

  /** Who is still asleep in wait after an exit had no stake in it. */
  lemma {:induction false} ExitWaits(s: State, p: nat, t: State, q: nat)
    requires Inv(s) && ExitShape(s, p, t) && q < NPROC
    ensures WaitOk(t, t.table[q], q)
  {
    hide TreeInv, PidsOk;
    if q != p && t.table[q].state == SLEEPING && t.table[q].chan.OnProc? {
      assert WaitOk(s, s.table[q], q);
      assert s.table[q].state == SLEEPING && s.table[q].chan == OnProc(q);
      assert s.table[p].parent != q;
      assert q == s.init ==> !HasZombie(s.table, p);
      forall i | 0 <= i < NPROC && ChildOf(t.table[i], q) ensures t.table[i].state != ZOMBIE {
        assert i != p ==> (ChildOf(s.table[i], q) || (q == s.init && ChildOf(s.table[i], p)));
      }
      var k :| 0 <= k < NPROC && ChildOf(s.table[k], q);
      assert k != p;
      assert ChildOf(t.table[k], q);
    }
  }

  lemma {:induction false} ExitStep(s: State, p: nat, t: State)
    requires Inv(s) && Step(s, Exit(p), t)
    ensures Inv(t)
  {
    hide TreeInv, PidsOk, WaitOk, Step;
    ExitHasShape(s, p, t);
    ExitTree(s, p, t);
    ExitPids(s, p, t);
    forall q | 0 <= q < NPROC ensures WaitOk(t, t.table[q], q) {
      ExitWaits(s, p, t, q);
    }
  }

  // ---- whole runs ----

  lemma {:induction false} StepKeepsInv(s: State, e: Event, t: State)
    requires Inv(s) && Step(s, e, t)
    ensures Inv(t)
  {
    hide Inv, Step;
    match e
    case ForkAlloc(p) => ForkAllocStep(s, p, t);
    case ForkFail(p) => ForkFailStep(s, p, t);
    case ForkParent(p) => ForkParentStep(s, p, t);
    case ForkDone(p) => ForkDoneStep(s, p, t);
    case Exit(p) => ExitStep(s, p, t);
    case Wait(p) => if ZombieChild(s.table, p) < NPROC { ReapStep(s, p, t); } else { WaitSleepStep(s, p, t); }
    case _ => GentleStep(s, e, t);
  }

  /** userinit: init is the only process. */
  ghost predicate Init(s: State) {
    && Sized(s) && s.nextpid == 2 && s.reaped == []
    && s.table[s.init] == Slot(RUNNABLE, 1, -1, NoChan, false)
    && (forall i | 0 <= i < NPROC && i != s.init :: s.table[i] == Slot(UNUSED, 0, -1, NoChan, false))
    && forall i | 0 <= i < NPROC :: s.task[i].Plain?
  }

  ghost predicate Run(ss: seq<State>, es: seq<Event>) {
    && |ss| == |es| + 1
    && Init(ss[0])
    && forall i | 0 <= i < |es| :: Step(ss[i], es[i], ss[i + 1])
  }

  lemma {:induction false} InitInv(s: State)
    requires Init(s)
    ensures Inv(s)
  {
    assert Ranked(s, seq(NPROC, (_: nat) => 0));
  }

  /** Every run keeps the process tree, distinct pids, and no zombie waiting for a sleeping parent. */
  lemma {:induction false} RunKeepsInv(ss: seq<State>, es: seq<Event>, i: nat)
    requires Run(ss, es) && i < |ss|
    ensures Inv(ss[i])
  {
    hide Step, Inv;
    if i == 0 {
      InitInv(ss[0]);
    } else {
      RunKeepsInv(ss, es, i - 1);
      assert Step(ss[i - 1], es[i - 1], ss[i]);
      StepKeepsInv(ss[i - 1], es[i - 1], ss[i]);
    }
  }

  // ---- what the invariant means ----

  /** A chain of parent pointers from p, through live processes that are not zombies, to init. */
  ghost predicate Chain(s: State, path: seq<int>) {
    && |path| >= 1 && path[|path| - 1] == s.init
    && (forall k | 0 <= k < |path| :: 0 <= path[k] < NPROC)
    && (forall k | 1 <= k < |path| :: Active(s.table[path[k]]))
    && forall k | 0 <= k < |path| - 1 :: s.table[path[k]].parent == path[k + 1]
  }

  /** Every live process descends from init. */
  lemma {:induction false} DescendsFromInit(s: State, p: int) returns (path: seq<int>)
    requires TreeInv(s) && 0 <= p < NPROC && Live(s.table[p])
    ensures Chain(s, path) && path[0] == p
  {
    var rank :| Ranked(s, rank);
    path := Climb(s, p, rank);
  }

  lemma {:induction false} Climb(s: State, p: int, rank: seq<nat>) returns (path: seq<int>)
    requires TreeInv(s) && Ranked(s, rank) && 0 <= p < NPROC && Live(s.table[p])
    ensures Chain(s, path) && path[0] == p
    decreases rank[p]
  {
    if p == s.init {
      path := [p];
    } else {
      assert ParentOk(s, s.table[p], p);
      var q := s.table[p].parent;
      var rest := Climb(s, q, rank);
      path := [p] + rest;
      forall k | 0 <= k < |path| - 1 ensures s.table[path[k]].parent == path[k + 1] {
        if k > 0 { assert path[k] == rest[k - 1]; }
      }
      forall k | 1 <= k < |path| ensures Active(s.table[path[k]]) {
        if k > 1 { assert path[k] == rest[k - 1]; }
      }
    }
  }

  /** A zombie leaves the table only when its current parent's wait reaps it, and its pid is
      then recorded once. */
  lemma {:induction false} OnlyParentReaps(s: State, e: Event, t: State, i: nat)
    requires Inv(s) && Step(s, e, t) && i < NPROC && s.table[i].state == ZOMBIE
    ensures t.table[i].state == ZOMBIE || e == Wait(s.table[i].parent)
    ensures t.table[i].state != ZOMBIE ==> t.table[i].state == UNUSED && t.reaped == s.reaped + [s.table[i].pid]
    ensures t.table[i].state == ZOMBIE ==> t.table[i].pid == s.table[i].pid
  {
    hide PidsOk, WaitOk, HasZombie, HasKids, FreeSlot, Victim;
    assert TaskOk(s, i) && ParentOk(s, s.table[i], i);
    match e
    case ForkFail(p) => assert TaskOk(s, p);
    case ForkParent(p) => assert TaskOk(s, p);
    case ForkDone(p) => assert TaskOk(s, p);
    case _ =>
  }
}
