/** proc.c's table-scanning operations, in place, each running under ptable.lock. */
module ProcCode {
  import opened Search
  import opened Proc

  datatype WaitResult = Reaped(pid: int) | NoChildren | MustSleep

  class ProcTable {
    const proc: array<Slot>
    const initproc: nat
    var nextpid: int

    ghost predicate Valid()
      reads this, proc
    {
      proc.Length == NPROC && initproc < NPROC
    }

    /** userinit: init is the only process. */
    constructor ()
      ensures Valid() && fresh(proc) && nextpid == 2
      ensures proc[initproc] == Slot(RUNNABLE, 1, -1, NoChan, false)
      ensures forall i | 0 <= i < NPROC && i != initproc :: proc[i] == Slot(UNUSED, 0, -1, NoChan, false)
    {
      initproc := 0;
      nextpid := 2;
      proc := new Slot[NPROC](i => if i == 0 then Slot(RUNNABLE, 1, -1, NoChan, false) else Slot(UNUSED, 0, -1, NoChan, false));
    }

    method Wakeup1(c: Chan)
      requires Valid()
      modifies proc
      ensures Valid() && proc[..] == Proc.Wakeup1(old(proc[..]), c)
      ensures forall i | 0 <= i < NPROC ::
                proc[i] == if old(proc[i]).state == SLEEPING && old(proc[i]).chan == c then old(proc[i]).(state := RUNNABLE) else old(proc[i])
    {
      var i := 0;
      while i < NPROC
        invariant 0 <= i <= NPROC
        invariant forall j | 0 <= j < i :: proc[j] == Woken(old(proc[j]), c)
        invariant forall j | i <= j < NPROC :: proc[j] == old(proc[j])
      {
        if proc[i].state == SLEEPING && proc[i].chan == c {
          proc[i] := proc[i].(state := RUNNABLE);
        }
        i := i + 1;
      }
    }

    /** The locked part of allocproc; NPROC means no slot is free. */
    method AllocProc() returns (i: nat)
      requires Valid()
      modifies this`nextpid, proc
      ensures Valid() && i == FreeSlot(old(proc[..]))
      ensures i == NPROC ==> proc[..] == old(proc[..]) && nextpid == old(nextpid)
      ensures i < NPROC ==> nextpid == old(nextpid) + 1
      ensures i < NPROC ==> proc[..] == old(proc[..])[i := old(proc[i]).(state := EMBRYO, pid := old(nextpid))]
    {
      i := 0;
      while i < NPROC && proc[i].state != UNUSED
        invariant 0 <= i <= NPROC
        invariant forall j | 0 <= j < i :: proc[j].state != UNUSED
      {
        i := i + 1;
      }
      assert FreeSlot(proc[..]) == i;
      if i < NPROC {
        proc[i] := proc[i].(state := EMBRYO, pid := nextpid);
        nextpid := nextpid + 1;
      }
    }

    /** exit from where it takes ptable.lock; refused is the panic for init. */
    method Exit(p: nat) returns (refused: bool)
      requires Valid() && p < NPROC
      modifies proc
      ensures Valid() && refused == (p == initproc)
      ensures proc[..] == if refused then old(proc[..]) else Exited(old(proc[..]), p, initproc)
      ensures !refused ==> proc[p].state == ZOMBIE
      ensures !refused ==> forall i | 0 <= i < NPROC ::
                && proc[i].parent == (if old(proc[i]).parent == p then initproc else old(proc[i]).parent)
                && proc[i].pid == old(proc[i]).pid && proc[i].killed == old(proc[i]).killed
                && (i != p && proc[i].state != old(proc[i]).state ==>
                      old(proc[i]).state == SLEEPING && proc[i].state == RUNNABLE && old(proc[i]).chan in {OnProc(old(proc[p]).parent), OnProc(initproc)})
    {
      if p == initproc {
        return true;
      }
      refused := false;
      var parent := proc[p].parent;
      Wakeup1(OnProc(parent));
      ghost var wake := false;
      var i := 0;
      while i < NPROC
        invariant 0 <= i <= NPROC
        invariant wake <==> exists k | 0 <= k < i :: ChildOf(old(proc[k]), p) && old(proc[k]).state == ZOMBIE
        invariant forall j | 0 <= j < i :: proc[j] == Adopted(old(proc[j]), p, parent, initproc, wake)
        invariant forall j | i <= j < NPROC ::
                    proc[j] == if wake then Woken(Woken(old(proc[j]), OnProc(parent)), OnProc(initproc))
                               else Woken(old(proc[j]), OnProc(parent))
      {
        if proc[i].parent == p {
          proc[i] := proc[i].(parent := initproc);
          if proc[i].state == ZOMBIE {
            Wakeup1(OnProc(initproc));
            wake := true;
          }
        }
        i := i + 1;
      }
      assert wake == HasZombie(old(proc[..]), p);
      proc[p] := proc[p].(state := ZOMBIE);
      assert proc[..] == Exited(old(proc[..]), p, initproc);
    }

    /** One pass of wait's loop under ptable.lock. */
    method WaitScan(p: nat) returns (r: WaitResult)
      requires Valid() && p < NPROC
      modifies proc
      ensures Valid()
      ensures var i := ZombieChild(old(proc[..]), p);
              if i < NPROC then r == Reaped(old(proc[i]).pid) && proc[..] == old(proc[..])[i := Reap(old(proc[i]))]
              else if !HasKids(old(proc[..]), p) || old(proc[p]).killed then r == NoChildren && proc[..] == old(proc[..])
              else r == MustSleep && proc[..] == old(proc[..])[p := old(proc[p]).(state := SLEEPING, chan := OnProc(p))]
      ensures r.Reaped? <==> exists i | 0 <= i < NPROC :: old(proc[i]).parent == p && old(proc[i]).state == ZOMBIE
      ensures r.Reaped? ==> exists i | 0 <= i < NPROC ::
                && old(proc[i]).parent == p && old(proc[i]).state == ZOMBIE && r.pid == old(proc[i]).pid
                && proc[i] == Slot(UNUSED, 0, -1, old(proc[i]).chan, false)
    {
      var havekids := false;
      var i := 0;
      while i < NPROC
        invariant 0 <= i <= NPROC
        invariant proc[..] == old(proc[..])
        invariant havekids <==> exists j | 0 <= j < i :: ChildOf(proc[j], p)
        invariant forall j | 0 <= j < i :: !(ChildOf(proc[j], p) && proc[j].state == ZOMBIE)
      {
        if proc[i].parent == p {
          havekids := true;
          assert ChildOf(proc[i], p);
          if proc[i].state == ZOMBIE {
            assert ZombieChild(old(proc[..]), p) == i;
            r := Reaped(proc[i].pid);
            proc[i] := proc[i].(pid := 0, parent := -1, killed := false, state := UNUSED);
            return;
          }
        }
        i := i + 1;
      }
      assert ZombieChild(old(proc[..]), p) == NPROC;
      assert havekids == HasKids(old(proc[..]), p);
      if !havekids || proc[p].killed {
        return NoChildren;
      }
      proc[p] := proc[p].(chan := OnProc(p), state := SLEEPING);
      r := MustSleep;
    }

    method Kill(pid: int) returns (found: bool)
      requires Valid()
      modifies proc
      ensures Valid()
      ensures var i := Victim(old(proc[..]), pid);
              found == (i < NPROC) && proc[..] == if found then old(proc[..])[i := Killed(old(proc[i]))] else old(proc[..])
      ensures found <==> exists i | 0 <= i < NPROC :: old(proc[i]).pid == pid
      ensures forall i | 0 <= i < NPROC ::
                var was := old(proc[i]);
                proc[i] == if was.pid == pid && forall j | 0 <= j < i :: old(proc[j]).pid != pid
                           then Slot(if was.state == SLEEPING then RUNNABLE else was.state, was.pid, was.parent, was.chan, true) else was
    {
      var i := 0;
      while i < NPROC && proc[i].pid != pid
        invariant 0 <= i <= NPROC
        invariant forall j | 0 <= j < i :: proc[j].pid != pid
      {
        i := i + 1;
      }
      assert Victim(proc[..], pid) == i;
      found := i < NPROC;
      if found {
        proc[i] := proc[i].(killed := true);
        if proc[i].state == SLEEPING {
          proc[i] := proc[i].(state := RUNNABLE);
        }
      }
    }
  }
}
