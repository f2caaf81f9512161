/** The process table (proc.c) on values: allocation, fork, exit, wait, sleep, wakeup and
    kill, each as the atomic change it makes under ptable.lock. */
module Proc {
  import opened Search

  const NPROC := 64

  datatype PState = UNUSED | EMBRYO | SLEEPING | RUNNABLE | RUNNING | ZOMBIE

  /** What a process sleeps on: a process, as in wait, or anything else. */
  datatype Chan = NoChan | OnProc(slot: int) | Other(id: int)

  /** parent is a slot number, or -1 for none. */
  datatype Slot = Slot(state: PState, pid: int, parent: int, chan: Chan, killed: bool)

  type Table = t: seq<Slot> | |t| == NPROC witness seq(NPROC, (_: nat) => Slot(UNUSED, 0, -1, NoChan, false))

  function Woken(x: Slot, c: Chan): (r: Slot) {
    if x.state == SLEEPING && x.chan == c then x.(state := RUNNABLE) else x
  }

  /** wakeup1 */
  function Wakeup1(t: Table, c: Chan): (r: Table) {
    seq(NPROC, (i: nat) requires i < NPROC => Woken(t[i], c))
  }

  function FreeSlot(t: Table): (i: nat)
    ensures i <= NPROC
    ensures i < NPROC ==> t[i].state == UNUSED
    ensures forall j | 0 <= j < i :: t[j].state != UNUSED
  {
    First(t, (x: Slot) => x.state == UNUSED)
  }

  predicate ChildOf(x: Slot, p: int) {
    x.parent == p
  }

  ghost predicate HasZombie(t: Table, p: int) {
    exists i | 0 <= i < NPROC :: ChildOf(t[i], p) && t[i].state == ZOMBIE
  }

  ghost predicate HasKids(t: Table, p: int) {
    exists i | 0 <= i < NPROC :: ChildOf(t[i], p)
  }

  /** What exit of p does to slot x: wake p's parent, pass children to init, wake init for a zombie. */
  function Adopted(x: Slot, p: int, parent: int, init: int, wakeInit: bool): (r: Slot) {
    var w := Woken(x, OnProc(parent));
    var a := if ChildOf(w, p) then w.(parent := init) else w;
    if wakeInit then Woken(a, OnProc(init)) else a
  }

  ghost function Exited(t: Table, p: nat, init: int): (r: Table)
    requires p < NPROC
  {
    var wake := HasZombie(t, p);
    var u := seq(NPROC, (i: nat) requires i < NPROC => Adopted(t[i], p, t[p].parent, init, wake));
    u[p := u[p].(state := ZOMBIE)]
  }

  /** The zombie child wait reaps, or NPROC. */
  function ZombieChild(t: Table, p: int): (i: nat)
    ensures i <= NPROC
    ensures i < NPROC ==> ChildOf(t[i], p) && t[i].state == ZOMBIE
    ensures forall j | 0 <= j < i :: !(ChildOf(t[j], p) && t[j].state == ZOMBIE)
  {
    First(t, (x: Slot) => ChildOf(x, p) && x.state == ZOMBIE)
  }

  function Reap(x: Slot): (r: Slot) {
    Slot(UNUSED, 0, -1, x.chan, false)
  }

  /** kill acts on the first slot carrying the pid. */
  function Victim(t: Table, pid: int): (i: nat)
    ensures i <= NPROC
    ensures i < NPROC ==> t[i].pid == pid
    ensures forall j | 0 <= j < i :: t[j].pid != pid
  {
    First(t, (x: Slot) => x.pid == pid)
  }

  function Killed(x: Slot): (r: Slot) {
    x.(killed := true, state := if x.state == SLEEPING then RUNNABLE else x.state)
  }
}
