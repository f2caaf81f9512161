/** The user-level thread library (uthread.c) on values: the thread table, the round-robin
    choice, join, sleep, exit, and binary semaphores with direct hand-off. */
module UThread {
  import opened Search

  const MAX_UTHREADS := 64
  const MAX_BSEM := 128

  datatype TState = RUNNING | READY | SLEEPING | BLOCKED | TERMINATED

  /** sem is blockedOnSemaphore, join is joinOnTid; -1 means none. */
  datatype Thread = Thread(tid: int, state: TState, wakeUpTime: int, sem: int, join: int)

  datatype Lib = Lib(table: seq<Thread>, ct: nat, nexttid: nat, sems: seq<int>)

  predicate Sized(l: Lib) {
    |l.table| == MAX_UTHREADS && |l.sems| == MAX_BSEM && l.ct < MAX_UTHREADS
  }

  function SetState(l: Lib, i: nat, st: TState): (r: Lib)
    requires i < |l.table|
  {
    l.(table := l.table[i := l.table[i].(state := st)])
  }

  // ---- scheduling ----

  predicate Eligible(t: Thread, now: int) {
    t.state == READY || (t.state == SLEEPING && t.wakeUpTime <= now)
  }

  function Slot(ct: nat, i: nat): (k: nat)
    ensures k < MAX_UTHREADS
  {
    (ct + i) % MAX_UTHREADS
  }

  /** How many slots after ct the first eligible thread is, from `from` on; MAX_UTHREADS + 1 if none. */
  function Choose(table: seq<Thread>, ct: nat, now: int, from: nat := 1): (i: nat)
    requires |table| == MAX_UTHREADS && 1 <= from <= MAX_UTHREADS + 1
    ensures from <= i <= MAX_UTHREADS + 1
    ensures i <= MAX_UTHREADS ==> Eligible(table[Slot(ct, i)], now)
    ensures forall j | from <= j < i :: !Eligible(table[Slot(ct, j)], now)
    decreases MAX_UTHREADS + 1 - from
  {
    if from == MAX_UTHREADS + 1 || Eligible(table[Slot(ct, from)], now) then from
    else Choose(table, ct, now, from + 1)
  }

  /** The current thread gives up the processor. */
  function Yield(l: Lib): (r: Lib)
    requires Sized(l)
  {
    if l.table[l.ct].state == RUNNING then SetState(l, l.ct, READY) else l
  }

  /** One try of uthread_schedule's loop; with nothing eligible it spins. */
  function Schedule(l: Lib, now: int): (r: Lib)
    requires Sized(l)
  {
    var y := Yield(l);
    var i := Choose(y.table, y.ct, now);
    if i > MAX_UTHREADS then y
    else SetState(y, Slot(y.ct, i), RUNNING).(ct := Slot(y.ct, i))
  }

  // ---- thread operations, called by the running thread ----

  function ThreadCount(table: seq<Thread>): (n: nat) {
    if table == [] then 0 else (if table[0].state == TERMINATED then 0 else 1) + ThreadCount(table[1..])
  }

  /** uthread_create; no slot means it returns -1. */
  function Create(l: Lib): (r: Lib)
    requires Sized(l)
  {
    var i := First(l.table, (t: Thread) => t.state == TERMINATED);
    if i == MAX_UTHREADS then l
    else l.(table := l.table[i := l.table[i].(tid := l.nexttid, state := READY, join := -1)], nexttid := l.nexttid + 1)
  }

  function Sleep(l: Lib, ticks: int, now: int): (r: Lib)
    requires Sized(l)
  {
    l.(table := l.table[l.ct := l.table[l.ct].(wakeUpTime := ticks + now, state := SLEEPING)])
  }

  function Join(l: Lib, tid: int): (r: Lib)
    requires Sized(l)
  {
    var i := First(l.table, (t: Thread) => t.tid == tid);
    if i == MAX_UTHREADS || l.table[i].state == TERMINATED then l
    else l.(table := l.table[l.ct := l.table[l.ct].(join := l.table[i].tid, state := BLOCKED)])
  }

  function Unjoined(t: Thread, tid: int): (r: Thread) {
    if t.join == tid then t.(join := -1, state := READY) else t
  }

  /** uthread_exit of a thread that is not the last: release its joiners, then terminate. */
  function Exit(l: Lib): (r: Lib)
    requires Sized(l)
  {
    var tid := l.table[l.ct].tid;
    SetState(l.(table := seq(MAX_UTHREADS, (i: nat) requires i < MAX_UTHREADS => Unjoined(l.table[i], tid))),
             l.ct, TERMINATED)
  }

  // ---- binary semaphores ----

  function BAlloc(l: Lib): (r: Lib)
    requires Sized(l)
  {
    var i := First(l.sems, (v: int) => v == -1);
    if i == MAX_BSEM then l else l.(sems := l.sems[i := 1])
  }

  function Unblocked(t: Thread, s: int): (r: Thread) {
    if t.sem == s then t.(sem := -1, state := READY) else t
  }

  function BFree(l: Lib, s: nat): (r: Lib)
    requires Sized(l) && s < MAX_BSEM
  {
    l.(table := seq(MAX_UTHREADS, (i: nat) requires i < MAX_UTHREADS => Unblocked(l.table[i], s)),
       sems := l.sems[s := -1])
  }

  function BDown(l: Lib, s: nat): (r: Lib)
    requires Sized(l) && s < MAX_BSEM
  {
    if l.sems[s] == -1 then l
    else if l.sems[s] == 0 then l.(table := l.table[l.ct := l.table[l.ct].(sem := s, state := BLOCKED)])
    else l.(sems := l.sems[s := 0])
  }

  /** The thread bsem_up hands the semaphore to, or MAX_UTHREADS. */
  function Waiter(l: Lib, s: nat): (i: nat)
    requires Sized(l)
    ensures i <= MAX_UTHREADS
    ensures i < MAX_UTHREADS ==> l.table[i].sem == s
    ensures forall j | 0 <= j < i :: l.table[j].sem != s
  {
    First(l.table, (t: Thread) => t.sem == s)
  }

  function BUp(l: Lib, s: nat): (r: Lib)
    requires Sized(l) && s < MAX_BSEM
  {
    if l.sems[s] == -1 then l
    else
      var i := Waiter(l, s);
      if i < MAX_UTHREADS then l.(table := l.table[i := Unblocked(l.table[i], s)])
      else l.(sems := l.sems[s := 1])
  }

  /** uthread_init. */
  function Start(): (l: Lib) {
    Lib(seq(MAX_UTHREADS, (i: nat) => Thread(0, if i == 0 then RUNNING else TERMINATED, 0, -1, -1)),
        0, 1, seq(MAX_BSEM, (i: nat) => -1))
  }
}
