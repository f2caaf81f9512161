/** Counting semaphores built from two binary ones (usemaphore.c), run by any number of
    threads that may be preempted between any two statements. */
module Semaphore {
  import opened UThread
  import opened UThreadRuns
  import opened Sums

  /** A binary semaphore as its users see it. */
  datatype BSem = BSem(value: int, waiters: set<int>)

  /** Where a thread is in down or up; a waiting thread sits in the semaphore's waiters. */
  datatype Pc =
    | Out
    | DGate | DGateWait    // bsem_down(binSemNum2)
    | DMutex | DMutexWait  // bsem_down(binSemNum1)
    | DDec                 // value--
    | DTest                // if (value > 0)
    | DRaise               // bsem_up(binSemNum2)
    | DRelease             // bsem_up(binSemNum1)
    | UMutex | UMutexWait  // bsem_down(binSemNum1)
    | UInc                 // value++
    | UTest                // if (value == 1)
    | URaise               // bsem_up(binSemNum2)
    | URelease             // bsem_up(binSemNum1)

  datatype State = State(gate: BSem, mutex: BSem, value: int, pc: map<int, Pc>, start: int, ups: nat, downs: nat)

  datatype Event = CallDown(p: int) | CallUp(p: int) | Go(p: int, next: int)

  /** bsem_down by p: pass or join the waiters. */
  function Take(b: BSem, p: int): (r: BSem) {
    if b.value == 0 then b.(waiters := b.waiters + {p}) else b.(value := 0)
  }

  /** bsem_up: hand over to waiter w if there is one, else raise. */
  function Give(b: BSem, w: int): (r: BSem) {
    if w in b.waiters then b.(waiters := b.waiters - {w}) else b.(value := 1)
  }

  predicate MayGive(b: BSem, w: int) {
    b.waiters != {} ==> w in b.waiters
  }

  /** Where a thread continues after it is handed the semaphore it waits for. */
  function Resume(c: Pc): (r: Pc) {
    match c
    case DGateWait => DMutex
    case DMutexWait => DDec
    case UMutexWait => UInc
    case _ => c
  }

  function Wake(pc: map<int, Pc>, b: BSem, w: int): (r: map<int, Pc>) {
    if w in b.waiters && w in pc then pc[w := Resume(pc[w])] else pc
  }

  predicate Waiting(c: Pc) {
    c.DGateWait? || c.DMutexWait? || c.UMutexWait?
  }

  ghost predicate Step(s: State, e: Event, t: State) {
    match e
    case CallDown(p) => (p in s.pc ==> s.pc[p].Out?) && t == s.(pc := s.pc[p := DGate])
    case CallUp(p) => (p in s.pc ==> s.pc[p].Out?) && t == s.(pc := s.pc[p := UMutex])
    case Go(p, w) =>
      && p in s.pc
      && match s.pc[p]
         case DGate =>
           t == s.(gate := Take(s.gate, p), pc := s.pc[p := if s.gate.value == 0 then DGateWait else DMutex])
         case DMutex =>
           t == s.(mutex := Take(s.mutex, p), pc := s.pc[p := if s.mutex.value == 0 then DMutexWait else DDec])
         case DDec => t == s.(value := s.value - 1, downs := s.downs + 1, pc := s.pc[p := DTest])
         case DTest => t == s.(pc := s.pc[p := if s.value > 0 then DRaise else DRelease])
         case DRaise =>
           MayGive(s.gate, w) && t == s.(gate := Give(s.gate, w), pc := Wake(s.pc[p := DRelease], s.gate, w))
         case DRelease =>
           MayGive(s.mutex, w) && t == s.(mutex := Give(s.mutex, w), pc := Wake(s.pc[p := Out], s.mutex, w))
         case UMutex =>
           t == s.(mutex := Take(s.mutex, p), pc := s.pc[p := if s.mutex.value == 0 then UMutexWait else UInc])
         case UInc => t == s.(value := s.value + 1, ups := s.ups + 1, pc := s.pc[p := UTest])
         case UTest => t == s.(pc := s.pc[p := if s.value == 1 then URaise else URelease])
         case URaise =>
           MayGive(s.gate, w) && t == s.(gate := Give(s.gate, w), pc := Wake(s.pc[p := URelease], s.gate, w))
         case URelease =>
           MayGive(s.mutex, w) && t == s.(mutex := Give(s.mutex, w), pc := Wake(s.pc[p := Out], s.mutex, w))
         case _ => false
  }

  /** allocSem with a non-negative start value. */
  ghost predicate Init(s: State) {
    && s.start >= 0 && s.value == s.start && s.ups == 0 && s.downs == 0 && s.pc == map[]
    && s.mutex == BSem(1, {}) && s.gate == BSem(if s.start == 0 then 0 else 1, {})
  }

  // ---- invariant ----

  predicate HoldsMutex(c: Pc) {
    c.DDec? || c.DTest? || c.DRaise? || c.DRelease? || c.UInc? || c.UTest? || c.URaise? || c.URelease?
  }

  /** The thread has passed the gate without using up the permission, or is about to raise it. */
  predicate HasToken(c: Pc, value: int) {
    c.DMutex? || c.DMutexWait? || c.DDec? || c.DRaise? || c.URaise?
    || (c.DTest? && value > 0) || (c.UTest? && value == 1)
  }

  ghost function Holders(pc: map<int, Pc>): set<int> {
    set p | p in pc && HoldsMutex(pc[p])
  }

  ghost function Tokens(pc: map<int, Pc>, value: int): set<int> {
    set p | p in pc && HasToken(pc[p], value)
  }

  ghost predicate SemOk(b: BSem) {
    0 <= b.value <= 1 && (b.value == 1 ==> b.waiters == {})
  }

  ghost predicate Inv(s: State) {
    && s.start >= 0 && s.value >= 0
    && s.value == s.start + s.ups - s.downs
    && SemOk(s.gate) && SemOk(s.mutex)
    && (forall p :: p in s.gate.waiters <==> p in s.pc && s.pc[p].DGateWait?)
    && (forall p :: p in s.mutex.waiters <==> p in s.pc && (s.pc[p].DMutexWait? || s.pc[p].UMutexWait?))
    && s.mutex.value + |Holders(s.pc)| == 1
    && s.gate.value + |Tokens(s.pc, s.value)| == if s.value > 0 then 1 else 0
  }

  lemma {:induction false} HoldersMove(pc: map<int, Pc>, p: int, c: Pc)
    ensures var h := |Holders(pc)| - (if p in pc && HoldsMutex(pc[p]) then 1 else 0);
            |Holders(pc[p := c])| == h + if HoldsMutex(c) then 1 else 0
  {
    var a := Holders(pc) - {p};
    assert Holders(pc[p := c]) == if HoldsMutex(c) then a + {p} else a;
    assert p in pc && HoldsMutex(pc[p]) ==> Holders(pc) == a + {p};
    assert !(p in pc && HoldsMutex(pc[p])) ==> Holders(pc) == a;
  }

  lemma {:induction false} TokensMove(pc: map<int, Pc>, p: int, c: Pc, v: int)
    ensures var h := |Tokens(pc, v)| - (if p in pc && HasToken(pc[p], v) then 1 else 0);
            |Tokens(pc[p := c], v)| == h + if HasToken(c, v) then 1 else 0
  {
    var a := Tokens(pc, v) - {p};
    assert Tokens(pc[p := c], v) == if HasToken(c, v) then a + {p} else a;
    assert p in pc && HasToken(pc[p], v) ==> Tokens(pc, v) == a + {p};
    assert !(p in pc && HasToken(pc[p], v)) ==> Tokens(pc, v) == a;
  }

  lemma {:induction false} OneHolder(pc: map<int, Pc>, p: int, q: int)
    requires |Holders(pc)| <= 1 && p in pc && q in pc && HoldsMutex(pc[p]) && HoldsMutex(pc[q])
    ensures p == q
  {
    var h := Holders(pc);
    assert |h - {p}| == |h| - 1;
    assert h - {p} == {};
    assert q in h;
  }

  /** Changing the value moves no token but the mutex holder's. */
  lemma {:induction false} TokensRevalue(pc: map<int, Pc>, p: int, v: int, w: int)
    requires |Holders(pc)| <= 1 && p in pc && HoldsMutex(pc[p]) && !pc[p].DTest? && !pc[p].UTest?
    ensures Tokens(pc, w) == Tokens(pc, v)
  {
    forall q | q in pc ensures HasToken(pc[q], w) == HasToken(pc[q], v) {
      if pc[q].DTest? || pc[q].UTest? {
        OneHolder(pc, p, q);
      }
    }
  }

  lemma {:induction false} CallStep(s: State, e: Event, t: State)
    requires Inv(s) && Step(s, e, t) && !e.Go?
    ensures Inv(t)
  {
    hide Holders, Tokens;
    HoldersMove(s.pc, e.p, t.pc[e.p]);
    TokensMove(s.pc, e.p, t.pc[e.p], s.value);
  }

  lemma {:induction false} TakeStep(s: State, e: Event, t: State)
    requires Inv(s) && Step(s, e, t) && e.Go?
    requires s.pc[e.p].DGate? || s.pc[e.p].DMutex? || s.pc[e.p].UMutex?
    ensures Inv(t)
  {
    hide Holders, Tokens;
    HoldersMove(s.pc, e.p, t.pc[e.p]);
    TokensMove(s.pc, e.p, t.pc[e.p], s.value);
  }

  lemma {:induction false} ValueStep(s: State, e: Event, t: State)
    requires Inv(s) && Step(s, e, t) && e.Go?
    requires s.pc[e.p].DDec? || s.pc[e.p].UInc?
    ensures Inv(t)
  {
    hide Holders, Tokens;
    HoldersMove(s.pc, e.p, t.pc[e.p]);
    TokensRevalue(s.pc, e.p, s.value, t.value);
    TokensMove(s.pc, e.p, t.pc[e.p], t.value);
    if s.pc[e.p].DDec? {
      TokenMeansPositive(s, e.p);
    }
  }

  lemma {:induction false} TestStep(s: State, e: Event, t: State)
    requires Inv(s) && Step(s, e, t) && e.Go?
    requires s.pc[e.p].DTest? || s.pc[e.p].UTest?
    ensures Inv(t)
  {
    hide Holders, Tokens;
    HoldersMove(s.pc, e.p, t.pc[e.p]);
    TokensMove(s.pc, e.p, t.pc[e.p], s.value);
  }

  /** A thread that has passed the gate can count on a positive value, and the gate is down. */
  lemma {:induction false} TokenMeansPositive(s: State, p: int)
    requires Inv(s) && p in s.pc && HasToken(s.pc[p], s.value)
    ensures s.value > 0 && s.gate.value == 0
  {
    assert p in Tokens(s.pc, s.value);
    assert |Tokens(s.pc, s.value) - {p}| == |Tokens(s.pc, s.value)| - 1;
  }

  lemma {:induction false} HolderMeansTaken(s: State, p: int)
    requires Inv(s) && p in s.pc && HoldsMutex(s.pc[p])
    ensures s.mutex.value == 0
  {
    assert p in Holders(s.pc);
    assert |Holders(s.pc) - {p}| == |Holders(s.pc)| - 1;
  }

  lemma {:induction false} GiveGateStep(s: State, e: Event, t: State)
    requires Inv(s) && Step(s, e, t) && e.Go?
    requires s.pc[e.p].DRaise? || s.pc[e.p].URaise?
    ensures Inv(t)
  {
    hide Holders, Tokens;
    var c := if s.pc[e.p].DRaise? then DRelease else URelease;
    var m := s.pc[e.p := c];
    TokenMeansPositive(s, e.p);
    HoldersMove(s.pc, e.p, c);
    TokensMove(s.pc, e.p, c, s.value);
    if e.next in s.gate.waiters {
      HoldersMove(m, e.next, DMutex);
      TokensMove(m, e.next, DMutex, s.value);
    }
  }

  lemma {:induction false} GiveMutexStep(s: State, e: Event, t: State)
    requires Inv(s) && Step(s, e, t) && e.Go?
    requires s.pc[e.p].DRelease? || s.pc[e.p].URelease?
    ensures Inv(t)
  {
    hide Holders, Tokens;
    var m := s.pc[e.p := Out];
    HolderMeansTaken(s, e.p);
    HoldersMove(s.pc, e.p, Out);
    TokensMove(s.pc, e.p, Out, s.value);
    if e.next in s.mutex.waiters {
      HoldersMove(m, e.next, Resume(m[e.next]));
      TokensMove(m, e.next, Resume(m[e.next]), s.value);
    }
  }

  lemma {:induction false} StepKeepsInv(s: State, e: Event, t: State)
    requires Inv(s) && Step(s, e, t)
    ensures Inv(t)
  {
    hide Inv, Take, Give, Wake, MayGive;
    match e
    case Go(p, _) =>
      match s.pc[p] {
        case DGate => TakeStep(s, e, t);
        case DMutex => TakeStep(s, e, t);
        case UMutex => TakeStep(s, e, t);
        case DDec => ValueStep(s, e, t);
        case UInc => ValueStep(s, e, t);
        case DTest => TestStep(s, e, t);
        case UTest => TestStep(s, e, t);
        case DRaise => GiveGateStep(s, e, t);
        case URaise => GiveGateStep(s, e, t);
        case _ => GiveMutexStep(s, e, t);
      }
    case _ => CallStep(s, e, t);
  }

  ghost predicate Run(ss: seq<State>, es: seq<Event>) {
    && |ss| == |es| + 1
    && Init(ss[0])
    && forall i | 0 <= i < |es| :: Step(ss[i], es[i], ss[i + 1])
  }

  /** In every run the value is non-negative and equals start + ups - downs. */
  lemma {:induction false} RunKeepsInv(ss: seq<State>, es: seq<Event>, i: nat)
    requires Run(ss, es) && i < |ss|
    ensures Inv(ss[i])
    ensures ss[i].value >= 0 && ss[i].value == ss[i].start + ss[i].ups - ss[i].downs
  {
    hide Step;
    if i == 0 {
      assert Holders(ss[0].pc) == {} && Tokens(ss[0].pc, ss[0].value) == {};
    } else {
      RunKeepsInv(ss, es, i - 1);
      assert Step(ss[i - 1], es[i - 1], ss[i]);
      StepKeepsInv(ss[i - 1], es[i - 1], ss[i]);
    }
  }

  // ---- every call counts once ----

  /** The thread has called down (or up) and has not changed the value yet. */
  predicate Before(c: Pc, down: bool) {
    if down then c.DGate? || c.DGateWait? || c.DMutex? || c.DMutexWait? || c.DDec?
    else c.UMutex? || c.UMutexWait? || c.UInc?
  }

  predicate IsCall(e: Event, down: bool) {
    if down then e.CallDown? else e.CallUp?
  }

  function Done(s: State, down: bool): (n: nat) {
    if down then s.downs else s.ups
  }

  ghost function Pending(pc: map<int, Pc>, down: bool): set<int> {
    set p | p in pc && Before(pc[p], down)
  }

  function Calls(es: seq<Event>, down: bool): (n: nat) {
    if es == [] then 0 else Calls(es[..|es| - 1], down) + if IsCall(es[|es| - 1], down) then 1 else 0
  }

  lemma {:induction false} PendingMove(pc: map<int, Pc>, p: int, c: Pc, down: bool)
    ensures var h := |Pending(pc, down)| - (if p in pc && Before(pc[p], down) then 1 else 0);
            |Pending(pc[p := c], down)| == h + if Before(c, down) then 1 else 0
  {
    hide Before;
    var a := Pending(pc, down) - {p};
    assert Pending(pc[p := c], down) == if Before(c, down) then a + {p} else a;
    assert p in pc && Before(pc[p], down) ==> Pending(pc, down) == a + {p};
    assert !(p in pc && Before(pc[p], down)) ==> Pending(pc, down) == a;
  }

  lemma {:induction false} PendingStep(s: State, e: Event, t: State, down: bool)
    requires Step(s, e, t)
    ensures Done(t, down) + |Pending(t.pc, down)| == Done(s, down) + |Pending(s.pc, down)| + if IsCall(e, down) then 1 else 0
  {
    hide Pending, Take, Give, MayGive;
    var m := if e.Go? && (s.pc[e.p].DRaise? || s.pc[e.p].URaise? || s.pc[e.p].DRelease? || s.pc[e.p].URelease?)
             then s.pc[e.p := if s.pc[e.p].DRaise? then DRelease else if s.pc[e.p].URaise? then URelease else Out] else s.pc;
    if m != s.pc {
      PendingMove(s.pc, e.p, m[e.p], down);
      if t.pc != m {
        PendingMove(m, e.next, Resume(m[e.next]), down);
      }
    } else {
      PendingMove(s.pc, e.p, t.pc[e.p], down);
    }
  }

  /** In every run each call of down, and of up, has changed the value once or is still about to. */
  lemma {:induction false} CallsCount(ss: seq<State>, es: seq<Event>, i: nat, down: bool)
    requires Run(ss, es) && i < |ss|
    ensures Calls(es[..i], down) == Done(ss[i], down) + |Pending(ss[i].pc, down)|
  {
    hide Step, Pending, Before, IsCall;
    if i == 0 {
      PendingNone(ss[0].pc, down);
    } else {
      CallsCount(ss, es, i - 1, down);
      assert Step(ss[i - 1], es[i - 1], ss[i]);
      PendingStep(ss[i - 1], es[i - 1], ss[i], down);
      assert es[..i][..i - 1] == es[..i - 1];
    }
  }

  lemma PendingNone(pc: map<int, Pc>, down: bool)
    requires forall p | p in pc :: pc[p].Out?
    ensures Pending(pc, down) == {}
  {
    assert forall p | p in pc :: !Before(pc[p], down);
  }

  /** When no thread is inside down or up, the value is the start plus the calls of up minus the
      calls of down. */
  lemma {:induction false} QuietValue(ss: seq<State>, es: seq<Event>, i: nat)
    requires Run(ss, es) && i < |ss|
    requires forall p | p in ss[i].pc :: ss[i].pc[p].Out?
    ensures ss[i].value == ss[i].start + Calls(es[..i], false) - Calls(es[..i], true)
  {
    RunKeepsInv(ss, es, i);
    CallsCount(ss, es, i, false);
    CallsCount(ss, es, i, true);
    PendingNone(ss[i].pc, true);
    PendingNone(ss[i].pc, false);
  }

  function CallsBy(es: seq<Event>, p: int, down: bool): (n: nat) {
    if es == [] then 0 else CallsBy(es[..|es| - 1], p, down) + if IsCall(es[|es| - 1], down) && es[|es| - 1].p == p then 1 else 0
  }

  /** How many of the first i steps were p changing the value. */
  function DoneBy(ss: seq<State>, es: seq<Event>, i: nat, p: int, down: bool): (n: nat)
    requires i <= |es| && |ss| == |es| + 1
  {
    if i == 0 then 0
    else DoneBy(ss, es, i - 1, p, down) + if es[i - 1].p == p && Done(ss[i], down) == Done(ss[i - 1], down) + 1 then 1 else 0
  }

  /** Per thread: a finished down has taken exactly one from the value, and a finished up has
      added exactly one. */
  lemma {:induction false} EachCallCountsOnce(ss: seq<State>, es: seq<Event>, i: nat, p: int, down: bool)
    requires Run(ss, es) && i < |ss|
    ensures CallsBy(es[..i], p, down) == DoneBy(ss, es, i, p, down) + if p in ss[i].pc && Before(ss[i].pc[p], down) then 1 else 0
  {
    hide Step, Take, Give, MayGive;
    if i > 0 {
      EachCallCountsOnce(ss, es, i - 1, p, down);
      assert Step(ss[i - 1], es[i - 1], ss[i]);
      OneCall(ss[i - 1], es[i - 1], ss[i], p, down);
      assert es[..i][..i - 1] == es[..i - 1];
    }
  }

  lemma {:induction false} OneCall(s: State, e: Event, t: State, p: int, down: bool)
    requires Step(s, e, t)
    ensures var was := if p in s.pc && Before(s.pc[p], down) then 1 else 0;
            var now := if p in t.pc && Before(t.pc[p], down) then 1 else 0;
            was + (if IsCall(e, down) && e.p == p then 1 else 0) == now + if e.p == p && Done(t, down) == Done(s, down) + 1 then 1 else 0
  {
    hide Take, Give, MayGive;
  }

  // ---- a call ends after few steps ----

  /** How many more steps a thread can take in its call. */
  function Left(c: Pc): (n: nat) {
    match c
    case Out => 0
    case DGate => 8 case DGateWait => 7 case DMutex => 6 case DMutexWait => 5
    case DDec => 4 case DTest => 3 case DRaise => 2 case DRelease => 1
    case UMutex => 6 case UMutexWait => 5
    case UInc => 4 case UTest => 3 case URaise => 2 case URelease => 1
  }

  function LeftOf(s: State, p: int): (n: nat) {
    if p in s.pc then Left(s.pc[p]) else 0
  }

  function Moves(es: seq<Event>, p: int): (n: nat) {
    if es == [] then 0 else Moves(es[..|es| - 1], p) + if es[|es| - 1].Go? && es[|es| - 1].p == p then 1 else 0
  }

  lemma {:induction false} StepProgress(s: State, e: Event, t: State, p: int)
    requires Step(s, e, t) && (e.Go? || e.p != p)
    ensures LeftOf(t, p) + (if e.Go? && e.p == p then 1 else 0) <= LeftOf(s, p)
  {
    hide Take, Give, MayGive;
  }

  /** A thread takes at most eight steps of its own inside down and at most six inside up. */
  lemma {:induction false} CallsEnd(ss: seq<State>, es: seq<Event>, p: int, i: nat, j: nat)
    requires Run(ss, es) && i <= j < |ss| && forall k | i <= k < j :: es[k].Go? || es[k].p != p
    ensures Moves(es[i..j], p) + LeftOf(ss[j], p) <= LeftOf(ss[i], p)
    ensures LeftOf(ss[i], p) <= 8
    decreases j
  {
    hide Step, LeftOf;
    if i < j {
      CallsEnd(ss, es, p, i, j - 1);
      assert Step(ss[j - 1], es[j - 1], ss[j]);
      StepProgress(ss[j - 1], es[j - 1], ss[j], p);
      assert es[i..j][..j - i - 1] == es[i..j - 1] && es[i..j][j - i - 1] == es[j - 1];
    } else {
      assert LeftOf(ss[i], p) <= 8 by { AtMostEight(ss[i], p); }
    }
  }

  lemma AtMostEight(s: State, p: int)
    ensures LeftOf(s, p) <= 8
  {
  }

  /** down and up raise the gate only when it is down, and the mutex only when it is taken. */
  lemma NeverRaisedTwice(s: State, p: int)
    requires Inv(s) && p in s.pc
    ensures s.pc[p].DRaise? || s.pc[p].URaise? ==> s.gate.value == 0
    ensures s.pc[p].DRelease? || s.pc[p].URelease? ==> s.mutex.value == 0
  {
    if s.pc[p].DRaise? || s.pc[p].URaise? {
      TokenMeansPositive(s, p);
    }
    if s.pc[p].DRelease? || s.pc[p].URelease? {
      HolderMeansTaken(s, p);
    }
  }

  /** Only one thread at a time is between taking and releasing the inner mutex. */
  lemma ValueIsProtected(s: State, p: int, q: int)
    requires Inv(s) && p in s.pc && q in s.pc && HoldsMutex(s.pc[p]) && HoldsMutex(s.pc[q])
    ensures p == q
  {
    OneHolder(s.pc, p, q);
  }

  /** p is inside down or up and not waiting, so it has a step to take. */
  predicate CanStep(s: State, p: int) {
    p in s.pc && !s.pc[p].Out? && !Waiting(s.pc[p])
  }

  lemma StepExists(s: State, p: int) returns (w: int, t: State)
    requires CanStep(s, p)
    ensures Step(s, Go(p, w), t)
  {
    w := 0;
    if (s.pc[p].DRaise? || s.pc[p].URaise?) && s.gate.waiters != {} {
      w := Pick(s.gate.waiters);
    } else if (s.pc[p].DRelease? || s.pc[p].URelease?) && s.mutex.waiters != {} {
      w := Pick(s.mutex.waiters);
    }
    var c := s.pc[p];
    t := match c
      case DGate => s.(gate := Take(s.gate, p), pc := s.pc[p := if s.gate.value == 0 then DGateWait else DMutex])
      case DMutex => s.(mutex := Take(s.mutex, p), pc := s.pc[p := if s.mutex.value == 0 then DMutexWait else DDec])
      case DDec => s.(value := s.value - 1, downs := s.downs + 1, pc := s.pc[p := DTest])
      case DTest => s.(pc := s.pc[p := if s.value > 0 then DRaise else DRelease])
      case DRaise => s.(gate := Give(s.gate, w), pc := Wake(s.pc[p := DRelease], s.gate, w))
      case DRelease => s.(mutex := Give(s.mutex, w), pc := Wake(s.pc[p := Out], s.mutex, w))
      case UMutex => s.(mutex := Take(s.mutex, p), pc := s.pc[p := if s.mutex.value == 0 then UMutexWait else UInc])
      case UInc => s.(value := s.value + 1, ups := s.ups + 1, pc := s.pc[p := UTest])
      case UTest => s.(pc := s.pc[p := if s.value == 1 then URaise else URelease])
      case URaise => s.(gate := Give(s.gate, w), pc := Wake(s.pc[p := URelease], s.gate, w))
      case _ => s.(mutex := Give(s.mutex, w), pc := Wake(s.pc[p := Out], s.mutex, w));
  }

  /** No lost wakeup: a thread waiting on the gate of a positive semaphore, or on the mutex,
      always leaves another thread with a step to take. */
  lemma {:induction false} NoDeadlock(s: State, p: int) returns (q: int)
    requires Inv(s) && p in s.pc
    requires (s.pc[p].DGateWait? && s.value > 0) || s.pc[p].DMutexWait? || s.pc[p].UMutexWait?
    ensures CanStep(s, q)
  {
    q := p;
    if s.pc[p].DGateWait? {
      assert p in s.gate.waiters;
      assert |Tokens(s.pc, s.value)| == 1;
      q := Pick(Tokens(s.pc, s.value));
    }
    if Waiting(s.pc[q]) {
      assert q in s.mutex.waiters;
      assert |Holders(s.pc)| == 1;
      q := Pick(Holders(s.pc));
    }
  }

  // ---- uthread.c provides these binary semaphores ----

  function Waiters(l: Lib, s: int): (r: set<int>) {
    set i | 0 <= i < |l.table| && l.table[i].sem == s
  }

  function AsBSem(l: Lib, s: nat): (b: BSem)
    requires Sized(l) && s < MAX_BSEM
  {
    BSem(l.sems[s], Waiters(l, s))
  }

  /** bsem_down of an allocated semaphore is Take, and blocks the caller exactly when it waits. */
  lemma {:induction false} DownIsTake(l: Lib, s: nat)
    requires TableInv(l) && s < MAX_BSEM && l.sems[s] != -1 && l.table[l.ct].state == RUNNING
    ensures Sized(BDown(l, s))
    ensures AsBSem(BDown(l, s), s) == Take(AsBSem(l, s), l.ct)
    ensures BDown(l, s).table[l.ct].state == (if l.sems[s] == 0 then BLOCKED else RUNNING)
    ensures forall r: nat | r < MAX_BSEM && r != s :: AsBSem(BDown(l, s), r) == AsBSem(l, r)
  {
    var d := BDown(l, s);
    assert BlockedOk(l.table[l.ct]);
    assert Waiters(d, s) == if l.sems[s] == 0 then Waiters(l, s) + {l.ct as int} else Waiters(l, s);
    forall r: nat | r < MAX_BSEM && r != s ensures Waiters(d, r) == Waiters(l, r) {
    }
  }

  /** bsem_up is Give to the lowest-numbered waiter, which becomes ready. */
  lemma {:induction false} UpIsGive(l: Lib, s: nat)
    requires TableInv(l) && s < MAX_BSEM && l.sems[s] != -1
    ensures Sized(BUp(l, s))
    ensures MayGive(AsBSem(l, s), Waiter(l, s))
    ensures AsBSem(BUp(l, s), s) == Give(AsBSem(l, s), Waiter(l, s))
    ensures Waiter(l, s) in Waiters(l, s) ==> BUp(l, s).table[Waiter(l, s)].state == READY
    ensures forall r: nat | r < MAX_BSEM && r != s :: AsBSem(BUp(l, s), r) == AsBSem(l, r)
  {
    hide Waiter;
    var u := BUp(l, s);
    var w := Waiter(l, s);
    assert w == MAX_UTHREADS ==> Waiters(l, s) == {};
    assert Waiters(u, s) == Waiters(l, s) - {w as int};
    forall r: nat | r < MAX_BSEM && r != s ensures Waiters(u, r) == Waiters(l, r) {
    }
  }
}
