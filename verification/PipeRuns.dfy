/** Any number of readers and writers on one pipe, with sleep and wakeup. sleep takes
    ptable.lock before it releases the pipe's lock, so between the two a process is falling
    asleep and no wakeup or kill can run. */
module PipeRuns {
  import opened Disk
  import opened Pipe

  datatype Stat =
    | Out
    | WriteReady(buf: seq<byte>, i: nat) | WriteFall(buf: seq<byte>, i: nat) | WriteAsleep(buf: seq<byte>, i: nat)
    | ReadReady(n: int) | ReadFall(n: int) | ReadAsleep(n: int)

  datatype State = State(pipe: Pipe, stat: map<int, Stat>, killed: set<int>, written: seq<byte>, taken: seq<byte>)

  datatype Event =
    | CallWrite(p: int, buf: seq<byte>)
    | CallRead(p: int, n: int)
    | WriteTurn(p: int)
    | ReadTurn(p: int)
    | Fall(p: int)
    | Kill(p: int)
    | CloseRead
    | CloseWrite

  predicate Falling(x: Stat) { x.WriteFall? || x.ReadFall? }
  predicate WriterWaits(x: Stat) { x.WriteFall? || x.WriteAsleep? }
  predicate ReaderWaits(x: Stat) { x.ReadFall? || x.ReadAsleep? }
  predicate Writing(x: Stat) { x.WriteReady? || WriterWaits(x) }
  predicate Reading(x: Stat) { x.ReadReady? || ReaderWaits(x) }

  /** ptable.lock is free. */
  predicate NoFall(s: State) {
    forall p | p in s.stat :: !Falling(s.stat[p])
  }

  function WakeReader(x: Stat): Stat { if x.ReadAsleep? then ReadReady(x.n) else x }
  function WakeWriter(x: Stat): Stat { if x.WriteAsleep? then WriteReady(x.buf, x.i) else x }

  /** wakeup(&p->nread) and wakeup(&p->nwrite). */
  function WakeReaders(stat: map<int, Stat>): (r: map<int, Stat>) {
    map p | p in stat :: WakeReader(stat[p])
  }

  function WakeWriters(stat: map<int, Stat>): (r: map<int, Stat>) {
    map p | p in stat :: WakeWriter(stat[p])
  }

  /** pipewrite from taking the lock until it returns or sleeps. */
  ghost predicate WriteStep(s: State, p: int, t: State)
    requires |s.pipe.data| == PIPESIZE
  {
    && p in s.stat && s.stat[p].WriteReady? && s.stat[p].i <= |s.stat[p].buf|
    && var buf, i := s.stat[p].buf, s.stat[p].i;
       var (q, j) := Store(s.pipe, buf, i);
       var u := s.(pipe := q, written := s.written + buf[i..j]);
       if j == |buf| then NoFall(s) && t == u.(stat := WakeReaders(s.stat)[p := Out])
       else if !s.pipe.readopen || p in s.killed then t == u.(stat := s.stat[p := Out])
       else NoFall(s) && t == u.(stat := WakeReaders(s.stat)[p := WriteFall(buf, j)])
  }

  datatype ReadResult = Killed | Sleeps | Returns(bytes: seq<byte>)

  /** piperead from taking the lock until it returns or sleeps. */
  function ReadOutcome(pipe: Pipe, n: int, killed: bool): (r: ReadResult)
    requires |pipe.data| == PIPESIZE
  {
    if Empty(pipe) && pipe.writeopen then (if killed then Killed else Sleeps) else Returns(Fetch(pipe, n).1)
  }

  ghost predicate ReadStep(s: State, p: int, t: State)
    requires |s.pipe.data| == PIPESIZE
  {
    && p in s.stat && s.stat[p].ReadReady?
    && match ReadOutcome(s.pipe, s.stat[p].n, p in s.killed)
       case Killed => t == s.(stat := s.stat[p := Out])
       case Sleeps => NoFall(s) && t == s.(stat := s.stat[p := ReadFall(s.stat[p].n)])
       case Returns(bytes) =>
         NoFall(s) && t == s.(pipe := Fetch(s.pipe, s.stat[p].n).0, taken := s.taken + bytes, stat := WakeWriters(s.stat)[p := Out])
  }

  ghost predicate Step(s: State, e: Event, t: State)
    requires |s.pipe.data| == PIPESIZE
  {
    match e
    case CallWrite(p, buf) =>
      s.pipe.writeopen && (p in s.stat ==> s.stat[p].Out?) && t == s.(stat := s.stat[p := WriteReady(buf, 0)])
    case CallRead(p, n) =>
      s.pipe.readopen && (p in s.stat ==> s.stat[p].Out?) && t == s.(stat := s.stat[p := ReadReady(n)])
    case WriteTurn(p) => WriteStep(s, p, t)
    case ReadTurn(p) => ReadStep(s, p, t)
    case Fall(p) =>
      && p in s.stat && Falling(s.stat[p])
      && t == s.(stat := s.stat[p := if s.stat[p].ReadFall? then ReadAsleep(s.stat[p].n)
                                     else WriteAsleep(s.stat[p].buf, s.stat[p].i)])
    case Kill(p) =>
      && p in s.stat && NoFall(s)
      && t == s.(killed := s.killed + {p}, stat := s.stat[p := WakeReader(WakeWriter(s.stat[p]))])
    // A descriptor is closed only when no process is inside a call that uses it.
    case CloseRead =>
      && NoFall(s) && (forall p | p in s.stat :: !Reading(s.stat[p]))
      && t == s.(pipe := s.pipe.(readopen := false), stat := WakeWriters(s.stat))
    case CloseWrite =>
      && NoFall(s) && (forall p | p in s.stat :: !Writing(s.stat[p]))
      && t == s.(pipe := s.pipe.(writeopen := false), stat := WakeReaders(s.stat))
  }

  ghost predicate Init(s: State) {
    && |s.pipe.data| == PIPESIZE && s.pipe.nread == s.pipe.nwrite && s.pipe.readopen && s.pipe.writeopen
    && s.stat == map[] && s.killed == {} && s.written == [] && s.taken == []
  }

  // ---- invariants ----

  /** First in, first out, bounded; and whoever is inside a call has an open end. */
  ghost predicate Fifo(s: State) {
    && Ok(s.pipe)
    && s.written == s.taken + Contents(s.pipe)
    && (forall p | p in s.stat && Reading(s.stat[p]) :: s.pipe.readopen)
    && (forall p | p in s.stat && Writing(s.stat[p]) :: s.pipe.writeopen)
    && forall p | p in s.stat && s.stat[p].WriteReady? :: s.stat[p].i <= |s.stat[p].buf|
  }

  /** A waiting writer faces a full pipe with an open read end. */
  ghost predicate WritersOk(s: State) {
    forall p | p in s.stat && WriterWaits(s.stat[p]) ::
      Full(s.pipe) && s.pipe.readopen && s.stat[p].i <= |s.stat[p].buf|
  }

  /** A waiting reader faces an empty pipe with an open write end. */
  ghost predicate ReadersOk(s: State) {
    forall p | p in s.stat && ReaderWaits(s.stat[p]) :: Empty(s.pipe) && s.pipe.writeopen
  }

  ghost predicate Inv(s: State) {
    Fifo(s) && WritersOk(s)
  }

  lemma {:induction false} WriteFifo(s: State, p: int, t: State)
    requires Inv(s) && WriteStep(s, p, t)
    ensures Fifo(t)
  {
    hide Contents, Full, Count, Empty, Store, WritersOk;
    var buf, i := s.stat[p].buf, s.stat[p].i;
    StoreAppends(s.pipe, buf, i);
    var (q, j) := Store(s.pipe, buf, i);
    assert s.taken + Contents(q) == s.written + buf[i..j];
    assert forall r | r in t.stat && r != p :: Reading(t.stat[r]) == Reading(s.stat[r]) && Writing(t.stat[r]) == Writing(s.stat[r]);
    assert forall r | r in t.stat && r != p && t.stat[r].WriteReady? :: t.stat[r] == s.stat[r];
  }

  lemma {:induction false} WriteWriters(s: State, p: int, t: State)
    requires Inv(s) && WriteStep(s, p, t)
    ensures WritersOk(t)
  {
    hide Contents, Full, Count, Empty, Store;
    var buf, i := s.stat[p].buf, s.stat[p].i;
    StoreAppends(s.pipe, buf, i);
    if Full(s.pipe) {
      FullStays(s.pipe, buf, i);
    }
    assert forall r | r in t.stat && r != p && WriterWaits(t.stat[r]) :: t.stat[r] == s.stat[r];
  }

  /** A full pipe takes nothing. */
  lemma {:induction false} FullStays(p: Pipe, buf: seq<byte>, i: nat)
    requires |p.data| == PIPESIZE && i <= |buf| && Full(p)
    ensures Store(p, buf, i) == (p, i)
  {
  }

  lemma {:induction false} ReadStepKeeps(s: State, p: int, t: State)
    requires Inv(s) && ReadStep(s, p, t)
    ensures Inv(t)
  {
    hide Contents, Full, Count, Empty, Fetch;
    var n := s.stat[p].n;
    FetchTakes(s.pipe, n);
    var (q, bytes) := Fetch(s.pipe, n);
    assert s.taken + Contents(s.pipe) == s.taken + bytes + Contents(q);
    assert forall r | r in t.stat && r != p :: Reading(t.stat[r]) == Reading(s.stat[r]) && Writing(t.stat[r]) == Writing(s.stat[r]);
    assert forall r | r in t.stat && r != p && WriterWaits(t.stat[r]) :: t.stat[r] == s.stat[r];
  }

  lemma {:induction false} StepKeepsInv(s: State, e: Event, t: State)
    requires Inv(s) && Step(s, e, t)
    ensures Inv(t)
  {
    hide Contents, Full, Count, Empty, Store, Fetch;
    match e
    case WriteTurn(p) => WriteFifo(s, p, t); WriteWriters(s, p, t);
    case ReadTurn(p) => ReadStepKeeps(s, p, t);
    case CloseRead =>
      assert Contents(t.pipe) == Contents(s.pipe) && Count(t.pipe) == Count(s.pipe) by { SameBytes(s.pipe, t.pipe); }
    case CloseWrite =>
      assert Contents(t.pipe) == Contents(s.pipe) && Count(t.pipe) == Count(s.pipe) && Full(t.pipe) == Full(s.pipe) by { SameBytes(s.pipe, t.pipe); }
    case _ =>
  }

  lemma SameBytes(p: Pipe, q: Pipe)
    requires |p.data| == PIPESIZE && q.data == p.data && q.nread == p.nread && q.nwrite == p.nwrite
    ensures Contents(q) == Contents(p) && Count(q) == Count(p) && Full(q) == Full(p) && Empty(q) == Empty(p)
  {
  }

  // ---- the reader's half ----

  ghost predicate SomeReaderWaits(s: State) {
    exists p | p in s.stat :: ReaderWaits(s.stat[p])
  }

  /** A killed writer with more than a pipe-full left finds a reader waiting: it fills the
      pipe and returns -1 without waking anyone. */
  ghost predicate SilentFill(s: State, e: Event) {
    && e.WriteTurn? && e.p in s.killed && e.p in s.stat && s.stat[e.p].WriteReady?
    && |s.stat[e.p].buf| - s.stat[e.p].i > PIPESIZE
    && SomeReaderWaits(s)
  }

  lemma {:induction false} WriteReaders(s: State, p: int, t: State)
    requires Inv(s) && ReadersOk(s) && WriteStep(s, p, t)
    ensures ReadersOk(t) <==> !SilentFill(s, WriteTurn(p))
  {
    hide Contents, Full, Count, Empty, Store;
    var buf, i := s.stat[p].buf, s.stat[p].i;
    StoreAppends(s.pipe, buf, i);
    FullCount(s.pipe);
    var (q, j) := Store(s.pipe, buf, i);
    FullCount(q);
    if NoFall(s) && t.stat != s.stat[p := Out] {
      assert forall r | r in t.stat :: !ReaderWaits(t.stat[r]);
    }
    if t.stat == s.stat[p := Out] {
      assert forall r | r in s.stat && r != p :: t.stat[r] == s.stat[r];
    }
  }

  lemma {:induction false} ReadReaders(s: State, p: int, t: State)
    requires Inv(s) && ReadersOk(s) && ReadStep(s, p, t)
    ensures ReadersOk(t)
  {
    hide Contents, Full, Count, Fetch, Store;
    FetchTakes(s.pipe, s.stat[p].n);
    FullCount(s.pipe);
    if Empty(s.pipe) {
      FetchEmpty(s.pipe, s.stat[p].n);
    }
    assert forall r | r in t.stat && r != p && ReaderWaits(t.stat[r]) :: t.stat[r] == s.stat[r];
  }

  lemma FetchEmpty(p: Pipe, n: int)
    requires |p.data| == PIPESIZE && Empty(p)
    ensures Fetch(p, n) == (p, [])
  {
  }

  /** The reader's half survives a step exactly when the step is not a silent fill. */
  lemma {:induction false} ReadersOkExactly(s: State, e: Event, t: State)
    requires Inv(s) && ReadersOk(s) && Step(s, e, t)
    ensures ReadersOk(t) <==> !SilentFill(s, e)
  {
    hide Contents, Full, Count, Empty, Store, Fetch;
    match e
    case WriteTurn(p) => WriteReaders(s, p, t);
    case ReadTurn(p) => ReadReaders(s, p, t);
    case CloseRead => SameBytes(s.pipe, t.pipe);
    case _ =>
  }

  // ---- whole runs ----

  ghost predicate Run(ss: seq<State>, es: seq<Event>) {
    && |ss| == |es| + 1
    && Init(ss[0])
    && forall i | 0 <= i < |es| :: |ss[i].pipe.data| == PIPESIZE && Step(ss[i], es[i], ss[i + 1])
  }

  /** In every run the pipe is a bounded queue and no writer sleeps through a wakeup; without
      silent fills neither does a reader. */
  lemma {:induction false} RunKeepsInv(ss: seq<State>, es: seq<Event>, i: nat)
    requires Run(ss, es) && i < |ss|
    ensures Inv(ss[i])
    ensures (forall k | 0 <= k < |es| :: !SilentFill(ss[k], es[k])) ==> ReadersOk(ss[i])
  {
    hide Step, SilentFill;
    if i == 0 {
      assert Contents(ss[0].pipe) == [];
    } else {
      RunKeepsInv(ss, es, i - 1);
      assert Step(ss[i - 1], es[i - 1], ss[i]);
      StepKeepsInv(ss[i - 1], es[i - 1], ss[i]);
      if forall k | 0 <= k < |es| :: !SilentFill(ss[k], es[k]) {
        assert !SilentFill(ss[i - 1], es[i - 1]);
        ReadersOkExactly(ss[i - 1], es[i - 1], ss[i]);
      }
    }
  }

  /** A read with nothing buffered and a writer left returns -1 when killed and else sleeps; any
      other read returns the oldest bytes, as many as there are up to n. So a read of n > 0 bytes
      returns 0 exactly at end of file. */
  lemma {:induction false} ReadZeroMeansEof(pipe: Pipe, n: int, killed: bool)
    requires Ok(pipe)
    ensures var r, was := ReadOutcome(pipe, n, killed), Contents(pipe);
            && (r.Killed? <==> was == [] && pipe.writeopen && killed)
            && (r.Sleeps? <==> was == [] && pipe.writeopen && !killed)
            && (r.Returns? ==> r.bytes <= was && |r.bytes| == (if n <= 0 then 0 else if n <= |was| then n else |was|))
            && (n > 0 ==> (r == Returns([]) <==> was == [] && !pipe.writeopen))
  {
    FetchTakes(pipe, n);
    FullCount(pipe);
  }

  /** pipewrite stores what fits; it finishes exactly when all of it fits, and otherwise gives up
      exactly when nobody can read or it was killed. */
  lemma {:induction false} WriteExactly(s: State, p: int, t: State)
    requires Inv(s) && WriteStep(s, p, t)
    ensures var buf, i, room := s.stat[p].buf, s.stat[p].i, PIPESIZE - |Contents(s.pipe)|;
            && |t.written| - |s.written| == (if |buf| - i <= room then |buf| - i else room)
            && t.written == s.written + buf[i..i + |t.written| - |s.written|]
            && (t.stat[p].Out? <==> |buf| - i <= room || !s.pipe.readopen || p in s.killed)
            && (!t.stat[p].Out? ==> t.stat[p] == WriteFall(buf, i + |t.written| - |s.written|))
            && ((|buf| - i <= room || !t.stat[p].Out?) ==> forall r | r in s.stat && s.stat[r].ReadAsleep? :: t.stat[r] == ReadReady(s.stat[r].n))
  {
    hide Full, Empty, Store;
    StoreAppends(s.pipe, s.stat[p].buf, s.stat[p].i);
  }

  /** A closed end stays closed. With ReadZeroMeansEof: after the write end is closed no read
      sleeps, and once the pipe is drained every read returns 0. */
  lemma {:induction false} ClosedStays(ss: seq<State>, es: seq<Event>, k: nat, i: nat)
    requires Run(ss, es) && k < i < |ss|
    ensures es[k].CloseWrite? ==> !ss[i].pipe.writeopen
    ensures es[k].CloseRead? ==> !ss[i].pipe.readopen
    decreases i
  {
    hide Step, Inv;
    RunKeepsInv(ss, es, i - 1);
    assert Step(ss[i - 1], es[i - 1], ss[i]);
    EndsStep(ss[i - 1], es[i - 1], ss[i]);
    if k < i - 1 {
      ClosedStays(ss, es, k, i - 1);
    }
  }

  lemma {:induction false} EndsStep(s: State, e: Event, t: State)
    requires Inv(s) && Step(s, e, t)
    ensures t.pipe.writeopen == (s.pipe.writeopen && !e.CloseWrite?)
    ensures t.pipe.readopen == (s.pipe.readopen && !e.CloseRead?)
  {
    hide Store, Fetch, Full, Empty, Contents;
    match e
    case WriteTurn(p) => StoreAppends(s.pipe, s.stat[p].buf, s.stat[p].i);
    case ReadTurn(p) => FetchTakes(s.pipe, s.stat[p].n);
    case _ =>
  }

  /** A killed process is never asleep on the pipe, so it always notices. */
  ghost predicate KilledAwake(s: State) {
    forall p | p in s.stat && p in s.killed :: !WriterWaits(s.stat[p]) && !ReaderWaits(s.stat[p])
  }

  lemma {:induction false} KilledAwakeStep(s: State, e: Event, t: State)
    requires |s.pipe.data| == PIPESIZE && KilledAwake(s) && Step(s, e, t)
    ensures KilledAwake(t)
  {
    hide Store, Fetch, Full, Empty;
  }

  lemma {:induction false} KilledNeverSleeps(ss: seq<State>, es: seq<Event>, i: nat)
    requires Run(ss, es) && i < |ss|
    ensures KilledAwake(ss[i])
    ensures forall k | 0 <= k < i && es[k].Kill? :: es[k].p in ss[i].killed
  {
    hide Step, KilledAwake;
    if i == 0 {
      assert KilledAwake(ss[0]) by { NoneKilled(ss[0]); }
    } else {
      KilledNeverSleeps(ss, es, i - 1);
      assert Step(ss[i - 1], es[i - 1], ss[i]);
      KilledAwakeStep(ss[i - 1], es[i - 1], ss[i]);
      KilledGrows(ss[i - 1], es[i - 1], ss[i]);
    }
  }

  lemma NoneKilled(s: State)
    requires s.killed == {}
    ensures KilledAwake(s)
  {
  }

  lemma KilledGrows(s: State, e: Event, t: State)
    requires |s.pipe.data| == PIPESIZE && Step(s, e, t)
    ensures s.killed <= t.killed && (e.Kill? ==> e.p in t.killed)
  {
    hide Store, Fetch, Full, Empty;
  }

  /** The reader's half does fail: a reader sleeps on the empty pipe, a killed writer fills it. */
  lemma {:induction false} LostWakeup(s0: State, buf: seq<byte>) returns (ss: seq<State>, es: seq<Event>)
    requires Init(s0) && |buf| > PIPESIZE
    ensures Run(ss, es) && ss[0] == s0
    ensures var s := ss[|ss| - 1]; 1 in s.stat && s.stat[1].ReadAsleep? && Full(s.pipe)
  {
    hide Contents, Store, Full, Count;
    var s1 := s0.(stat := map[1 := ReadReady(1)]);
    var s2 := s1.(stat := map[1 := ReadFall(1)]);
    var s3 := s2.(stat := map[1 := ReadAsleep(1)]);
    var s4 := s3.(stat := map[1 := ReadAsleep(1), 2 := WriteReady(buf, 0)]);
    var s5 := s4.(killed := {2});
    assert Step(s0, CallRead(1, 1), s1);
    assert Step(s1, ReadTurn(1), s2);
    assert Step(s2, Fall(1), s3);
    assert Step(s3, CallWrite(2, buf), s4);
    assert Step(s4, Kill(2), s5);
    EmptyStart(s0);
    StoreAppends(s5.pipe, buf, 0);
    var (q, j) := Store(s5.pipe, buf, 0);
    assert j < |buf|;
    var s6 := s5.(pipe := q, written := s5.written + buf[0..j], stat := map[1 := ReadAsleep(1), 2 := Out]);
    assert Step(s5, WriteTurn(2), s6);
    ss := [s0, s1, s2, s3, s4, s5, s6];
    es := [CallRead(1, 1), ReadTurn(1), Fall(1), CallWrite(2, buf), Kill(2), WriteTurn(2)];
  }

  lemma EmptyStart(s: State)
    requires Init(s)
    ensures Ok(s.pipe) && Empty(s.pipe) && Count(s.pipe) == 0
  {
  }
}
