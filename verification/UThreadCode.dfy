/** uthread.c and allocSem themselves: scanning loops over the thread table and the
    semaphore array, updated in place. */
module UThreadCode {
  import opened Search
  import opened UThread
  import opened UThreadRuns
  import opened UThreadLife
  import opened Semaphore
  import opened SemAlloc

  /** No thread up to the i-th after ct is eligible. */
  ghost predicate Passed(table: seq<Thread>, ct: nat, now: int, i: nat) {
    |table| == MAX_UTHREADS && forall j | 1 <= j < i :: !Eligible(table[Slot(ct, j)], now)
  }

  lemma FirstEligible(table: seq<Thread>, ct: nat, now: int, i: nat)
    requires 1 <= i <= MAX_UTHREADS + 1 && Passed(table, ct, now, i)
    ensures i == MAX_UTHREADS + 1 || Eligible(table[Slot(ct, i)], now) ==> Choose(table, ct, now) == i
    ensures i <= MAX_UTHREADS && !Eligible(table[Slot(ct, i)], now) ==> Passed(table, ct, now, i + 1)
  {
    hide Choose, Eligible;
  }

  class ThreadLib {
    const threadTable: array<Thread>
    const semaphores: array<int>
    var ct: nat
    var nexttid: nat

    ghost predicate Valid()
      reads this, threadTable, semaphores
    {
      threadTable.Length == MAX_UTHREADS && semaphores.Length == MAX_BSEM && ct < MAX_UTHREADS
    }

    function Value(): (l: Lib)
      reads this, threadTable, semaphores
    {
      Lib(threadTable[..], ct, nexttid, semaphores[..])
    }

    /** uthread_init */
    constructor ()
      ensures Valid() && Value() == Start() && fresh(threadTable) && fresh(semaphores)
      ensures ct == 0 && threadTable[0].state == RUNNING && threadTable[0].tid == 0 && nexttid == 1
      ensures forall i | 0 < i < MAX_UTHREADS :: threadTable[i].state == TERMINATED
      ensures forall i | 0 <= i < MAX_UTHREADS :: threadTable[i].sem == threadTable[i].join == -1
      ensures forall i | 0 <= i < MAX_BSEM :: semaphores[i] == -1
    {
      threadTable := new Thread[MAX_UTHREADS](i => Thread(0, if i == 0 then RUNNING else TERMINATED, 0, -1, -1));
      semaphores := new int[MAX_BSEM](_ => -1);
      ct := 0;
      nexttid := 1;
      new;
      assert Value() == Start();
    }

    method ChooseNextThread(now: int) returns (loc: int)
      requires Valid()
      modifies threadTable
      ensures Valid()
      ensures var i := Choose(old(threadTable[..]), ct, now);
              if i <= MAX_UTHREADS then loc == Slot(ct, i) && threadTable[..] == old(threadTable[..])[loc := old(threadTable[loc]).(state := READY)]
              else loc == (if threadTable[ct].state == RUNNING then ct else -1) && threadTable[..] == old(threadTable[..])
    {
      hide Choose;
      ghost var table := threadTable[..];
      var startLoc := ct;
      var i := 1;
      while i <= MAX_UTHREADS
        invariant 1 <= i <= MAX_UTHREADS + 1
        invariant threadTable[..] == table
        invariant Passed(table, startLoc, now, i)
      {
        var currLoc := (startLoc + i) % MAX_UTHREADS;
        assert currLoc == Slot(startLoc, i) && threadTable[currLoc] == table[currLoc];
        FirstEligible(table, ct, now, i);
        if threadTable[currLoc].state == SLEEPING && threadTable[currLoc].wakeUpTime <= now {
          threadTable[currLoc] := threadTable[currLoc].(state := READY);
        }
        if threadTable[currLoc].state == READY {
          assert threadTable[..] == table[currLoc := table[currLoc].(state := READY)];
          return currLoc;
        }
        i := i + 1;
      }
      FirstEligible(table, ct, now, i);
      if threadTable[ct].state == RUNNING {
        return startLoc;
      }
      return -1;
    }

    /** One turn of uthread_schedule's busy-wait; false means nothing was eligible. */
    method UthreadSchedule(now: int) returns (switched: bool)
      requires Valid()
      modifies this`ct, threadTable
      ensures Valid() && Value() == Schedule(old(Value()), now)
      ensures switched <==> threadTable[ct].state == RUNNING
    {
      hide Choose;
      if threadTable[ct].state == RUNNING {
        threadTable[ct] := threadTable[ct].(state := READY);
      }
      ghost var y := Value();
      assert y == Yield(old(Value()));
      var next := ChooseNextThread(now);
      switched := next != -1;
      if switched {
        ct := next;
        threadTable[ct] := threadTable[ct].(state := RUNNING);
      }
    }

    method GetThreadCount() returns (n: nat)
      requires Valid()
      ensures n == ThreadCount(threadTable[..])
    {
      n := 0;
      var i := 0;
      while i < MAX_UTHREADS
        invariant 0 <= i <= MAX_UTHREADS
        invariant n + ThreadCount(threadTable[i..]) == ThreadCount(threadTable[..])
      {
        assert threadTable[i..][1..] == threadTable[i + 1..];
        if threadTable[i].state != TERMINATED {
          n := n + 1;
        }
        i := i + 1;
      }
    }

    method GetNextSpot() returns (loc: int)
      requires Valid()
      ensures var i := First(threadTable[..], (t: Thread) => t.state == TERMINATED);
              loc == if i < MAX_UTHREADS then i else -1
    {
      loc := 0;
      while loc < MAX_UTHREADS
        invariant 0 <= loc <= MAX_UTHREADS
        invariant forall j | 0 <= j < loc :: threadTable[j].state != TERMINATED
      {
        if threadTable[loc].state == TERMINATED {
          return;
        }
        loc := loc + 1;
      }
      loc := -1;
    }

    method UthreadCreate() returns (r: int)
      requires Valid()
      modifies this`nexttid, threadTable
      ensures Valid() && Value() == Create(old(Value()))
      ensures r == 0 || r == -1
      ensures r == 0 <==> exists i | 0 <= i < MAX_UTHREADS :: old(threadTable[i]).state == TERMINATED
      ensures r == -1 ==> Value() == old(Value())
      ensures r == 0 ==> nexttid == old(nexttid) + 1 && exists i | 0 <= i < MAX_UTHREADS ::
                old(threadTable[i]).state == TERMINATED && threadTable[i].tid == old(nexttid) && threadTable[i].state == READY
    {
      hide First;
      var loc := GetNextSpot();
      if loc == -1 {
        return -1;
      }
      threadTable[loc] := threadTable[loc].(tid := nexttid, join := -1, state := READY);
      nexttid := nexttid + 1;
      r := 0;
    }

    method UthreadSleep(ticks: int, now: int)
      requires Valid()
      modifies threadTable
      ensures Valid() && Value() == Sleep(old(Value()), ticks, now)
      ensures threadTable[ct] == old(threadTable[ct]).(state := SLEEPING, wakeUpTime := now + ticks)
      ensures forall k | 0 <= k < MAX_UTHREADS && k != ct :: threadTable[k] == old(threadTable[k])
    {
      threadTable[ct] := threadTable[ct].(wakeUpTime := ticks + now, state := SLEEPING);
    }

    method UthreadJoin(tid: int)
      requires Valid()
      modifies threadTable
      ensures Valid() && Value() == Join(old(Value()), tid)
    {
      var i := 0;
      while i < MAX_UTHREADS && threadTable[i].tid != tid
        invariant 0 <= i <= MAX_UTHREADS
        invariant forall j | 0 <= j < i :: threadTable[j].tid != tid
      {
        i := i + 1;
      }
      assert First(threadTable[..], (t: Thread) => t.tid == tid) == i;
      if i == MAX_UTHREADS || threadTable[i].state == TERMINATED {
        return;
      }
      threadTable[ct] := threadTable[ct].(join := threadTable[i].tid, state := BLOCKED);
    }

    /** last means uthread_exit ended the process instead of switching threads. */
    method UthreadExit() returns (last: bool)
      requires Valid()
      modifies threadTable
      ensures Valid()
      ensures last <==> ThreadCount(old(threadTable[..])) == 1
      ensures old(threadTable[ct]).state != TERMINATED ==>
                (last <==> forall k | 0 <= k < MAX_UTHREADS && k != ct :: old(threadTable[k]).state == TERMINATED)
      ensures Value() == if last then old(Value()) else Exit(old(Value()))
      ensures !last ==> threadTable[ct].state == TERMINATED && threadTable[ct].tid == old(threadTable[ct]).tid
      ensures !last ==> forall k | 0 <= k < MAX_UTHREADS && k != ct ::
                threadTable[k] == if old(threadTable[k]).join == old(threadTable[ct]).tid then old(threadTable[k]).(join := -1, state := READY)
                                  else old(threadTable[k])
    {
      if threadTable[ct].state != TERMINATED {
        LastThread(threadTable[..], ct);
      }
      var count := GetThreadCount();
      if count == 1 {
        return true;
      }
      last := false;
      var tid := threadTable[ct].tid;
      var i := 0;
      while i < MAX_UTHREADS
        invariant 0 <= i <= MAX_UTHREADS
        invariant forall j | 0 <= j < i :: threadTable[j] == Unjoined(old(threadTable[j]), tid)
        invariant forall j | i <= j < MAX_UTHREADS :: threadTable[j] == old(threadTable[j])
      {
        if threadTable[i].join == tid {
          threadTable[i] := threadTable[i].(join := -1, state := READY);
        }
        i := i + 1;
      }
      threadTable[ct] := threadTable[ct].(state := TERMINATED);
      assert threadTable[..] == Exit(old(Value())).table;
    }

    method BsemAlloc() returns (s: int)
      requires Valid()
      modifies semaphores
      ensures Valid() && Value() == BAlloc(old(Value()))
      ensures s == FreeAt(old(Value()))
      ensures s == -1 <==> forall i | 0 <= i < MAX_BSEM :: old(semaphores[i]) != -1
      ensures s != -1 ==> 0 <= s < MAX_BSEM && old(semaphores[s]) == -1 && semaphores[s] == 1
    {
      s := 0;
      while s < MAX_BSEM
        invariant 0 <= s <= MAX_BSEM
        invariant forall j | 0 <= j < s :: semaphores[j] != -1
        invariant semaphores[..] == old(semaphores[..])
      {
        if semaphores[s] == -1 {
          assert First(semaphores[..], (v: int) => v == -1) == s;
          semaphores[s] := 1;
          return;
        }
        s := s + 1;
      }
      assert First(semaphores[..], (v: int) => v == -1) == MAX_BSEM;
      s := -1;
    }

    method BsemFree(s: nat)
      requires Valid() && s < MAX_BSEM
      modifies threadTable, semaphores
      ensures Valid() && Value() == BFree(old(Value()), s)
      ensures semaphores[s] == -1 && forall i | 0 <= i < MAX_BSEM && i != s :: semaphores[i] == old(semaphores[i])
      ensures forall k | 0 <= k < MAX_UTHREADS ::
                threadTable[k] == if old(threadTable[k]).sem == s then old(threadTable[k]).(sem := -1, state := READY) else old(threadTable[k])
    {
      var i := 0;
      while i < MAX_UTHREADS
        invariant 0 <= i <= MAX_UTHREADS
        invariant forall j | 0 <= j < i :: threadTable[j] == Unblocked(old(threadTable[j]), s)
        invariant forall j | i <= j < MAX_UTHREADS :: threadTable[j] == old(threadTable[j])
        invariant semaphores[..] == old(semaphores[..])
      {
        if threadTable[i].sem == s {
          threadTable[i] := threadTable[i].(sem := -1, state := READY);
        }
        i := i + 1;
      }
      semaphores[s] := -1;
      assert threadTable[..] == BFree(old(Value()), s).table;
    }

    method BsemDown(s: nat)
      requires Valid() && s < MAX_BSEM
      modifies threadTable, semaphores
      ensures Valid() && Value() == BDown(old(Value()), s)
      ensures old(semaphores[s]) == -1 ==> Value() == old(Value())
      ensures old(semaphores[s]) == 0 ==> threadTable[ct] == old(threadTable[ct]).(sem := s, state := BLOCKED)
      ensures old(semaphores[s]) != 0 ==> threadTable[..] == old(threadTable[..])
      ensures old(semaphores[s]) != -1 ==> semaphores[..] == old(semaphores[..])[s := 0]
    {
      if semaphores[s] == -1 {
        return;
      }
      if semaphores[s] == 0 {
        threadTable[ct] := threadTable[ct].(sem := s, state := BLOCKED);
      } else {
        semaphores[s] := 0;
      }
    }

    method BsemUp(s: nat)
      requires Valid() && s < MAX_BSEM
      modifies threadTable, semaphores
      ensures Valid() && Value() == BUp(old(Value()), s)
    {
      if semaphores[s] == -1 {
        return;
      }
      var i := 0;
      while i < MAX_UTHREADS && threadTable[i].sem != s
        invariant 0 <= i <= MAX_UTHREADS
        invariant forall j | 0 <= j < i :: threadTable[j].sem != s
      {
        i := i + 1;
      }
      assert Waiter(Value(), s) == i;
      if i < MAX_UTHREADS {
        threadTable[i] := threadTable[i].(sem := -1, state := READY);
      } else {
        semaphores[s] := 1;
      }
    }

    /** allocSem: succeeds exactly when two binary semaphores are free, and sets up two that were
        as Semaphore.Init asks. Exactly one free semaphore is taken and lost. */
    method AllocSem(enterVal: int) returns (ok: bool, mutex: int, gate: int)
      requires Valid() && TableInv(Value()) && threadTable[ct].state == RUNNING
      modifies threadTable, semaphores
      ensures Valid() && TableInv(Value()) && Pair(Value(), mutex, gate) == AllocPair(old(Value()), enterVal)
      ensures -1 <= mutex < MAX_BSEM && -1 <= gate < MAX_BSEM
      ensures ok <==> exists i, j | 0 <= i < j < MAX_BSEM :: old(semaphores[i]) == -1 && old(semaphores[j]) == -1
      ensures ok <==> mutex != -1 && gate != -1
      ensures mutex == -1 <==> forall i | 0 <= i < MAX_BSEM :: old(semaphores[i]) != -1
      ensures mutex != -1 ==> old(semaphores[mutex]) == -1
      ensures gate != -1 ==> old(semaphores[gate]) == -1 && gate != mutex
      ensures !ok && mutex != -1 <==> FreeSems(old(semaphores[..])) == 1
      ensures threadTable[..] == old(threadTable[..])
      ensures ok ==> semaphores[..] == old(semaphores[..])[mutex := 1][gate := if enterVal == 0 then 0 else 1]
      ensures !ok ==> semaphores[..] == if mutex == -1 then old(semaphores[..]) else old(semaphores[..])[mutex := 1]
      ensures ok ==> AsBSem(Value(), mutex) == BSem(1, {}) && AsBSem(Value(), gate) == BSem(if enterVal == 0 then 0 else 1, {})
    {
      hide FreeSems;
      ghost var l0 := Value();
      AllocKeeps(l0);
      AllocPairExactly(l0, enterVal);
      TwoFree(l0.sems);
      mutex := BsemAlloc();
      ghost var l1 := Value();
      AllocKeeps(l1);
      gate := BsemAlloc();
      ok := mutex != -1 && gate != -1;
      if ok {
        ghost var l2 := Value();
        NoWaiters(l2, mutex);
        NoWaiters(l2, gate);
        if enterVal == 0 {
          DownKeeps(l2, gate);
          BsemDown(gate);
          assert Value() == l2.(sems := l2.sems[gate := 0]);
          assert Waiters(Value(), gate) == {} && Waiters(Value(), mutex) == {};
        }
      }
    }
  }

  /** A raised semaphore has no waiter. */
  lemma NoWaiters(l: Lib, s: int)
    requires TableInv(l) && 0 <= s < MAX_BSEM && l.sems[s] == 1
    ensures Waiters(l, s) == {}
  {
    assert forall i | 0 <= i < MAX_UTHREADS :: WaitOk(l, l.table[i]);
  }
}
