/** Pipes (pipe.c): a ring buffer with free-running 32-bit counters, and the processes that
    read, write, sleep and are woken on it. All accesses happen under the pipe's lock, so a
    step is what one process does from taking the lock until it releases it or sleeps. */
module Pipe {
  import opened Disk

  const PIPESIZE := 512
  const WRAP := 0x1_0000_0000

  datatype Pipe = Pipe(data: seq<byte>, nread: word, nwrite: word, readopen: bool, writeopen: bool)

  /** Bytes buffered: nwrite - nread in 32-bit arithmetic. */
  function Count(p: Pipe): (n: nat) {
    if p.nwrite >= p.nread then p.nwrite - p.nread else p.nwrite + WRAP - p.nread
  }

  predicate Ok(p: Pipe) {
    |p.data| == PIPESIZE && Count(p) <= PIPESIZE
  }

  /** The test in pipewrite's loop. */
  predicate Full(p: Pipe) {
    p.nwrite == (p.nread + PIPESIZE) % WRAP
  }

  predicate Empty(p: Pipe) {
    p.nread == p.nwrite
  }

  function Next(n: word): word {
    (n + 1) % WRAP
  }

  function Put(p: Pipe, b: byte): (r: Pipe)
    requires |p.data| == PIPESIZE
  {
    p.(data := p.data[p.nwrite % PIPESIZE := b], nwrite := Next(p.nwrite))
  }

  function Drop(p: Pipe): (r: Pipe) {
    p.(nread := Next(p.nread))
  }

  /** Where the k-th byte from counter r lies in the buffer. */
  function Pos(r: nat, k: nat): (i: nat)
    ensures i < PIPESIZE
  {
    (r + k) % PIPESIZE
  }

  /** The buffered bytes, oldest first. */
  function Contents(p: Pipe): (s: seq<byte>)
    requires |p.data| == PIPESIZE
  {
    seq(Count(p), (k: nat) => p.data[Pos(p.nread, k)])
  }

  lemma FullCount(p: Pipe)
    requires Ok(p)
    ensures Full(p) <==> Count(p) == PIPESIZE
    ensures Empty(p) <==> Count(p) == 0
  {
  }

  /** Positions agree across counter wrap-around, because PIPESIZE divides 2^32. */
  lemma WriteSlot(p: Pipe)
    ensures p.nwrite % PIPESIZE == Pos(p.nread, Count(p))
  {
  }

  lemma {:induction false} PutAppends(p: Pipe, b: byte)
    requires Ok(p) && !Full(p)
    ensures Ok(Put(p, b)) && Contents(Put(p, b)) == Contents(p) + [b] && !Empty(Put(p, b))
  {
    FullCount(p);
    WriteSlot(p);
    var q := Put(p, b);
    assert Count(q) == Count(p) + 1;
    forall k: nat | k < Count(p)
      ensures q.data[Pos(p.nread, k)] == p.data[Pos(p.nread, k)]
    {
      OtherSlot(p.nread, k, Count(p));
    }
  }

  lemma OtherSlot(r: nat, k: nat, c: nat)
    requires k < c < k + PIPESIZE
    ensures Pos(r, k) != Pos(r, c)
  {
    var d := c - k;
    assert (r + c) - (r + k) == d && 0 < d < PIPESIZE;
  }

  lemma {:induction false} DropRemoves(p: Pipe)
    requires Ok(p) && !Empty(p)
    ensures Ok(Drop(p)) && !Full(Drop(p))
    ensures Contents(p) == [p.data[p.nread % PIPESIZE]] + Contents(Drop(p)) && Count(Drop(p)) == Count(p) - 1
  {
    FullCount(p);
    var q := Drop(p);
    assert Count(q) == Count(p) - 1;
    forall k: nat | k < Count(q)
      ensures Pos(q.nread, k) == Pos(p.nread, k + 1)
    {
    }
    FullCount(q);
  }

  // ---- one hold of the lock ----

  /** pipewrite's copy loop from byte i until the buffer is used up or the pipe is full. */
  function Store(p: Pipe, buf: seq<byte>, i: nat): (r: (Pipe, nat))
    requires |p.data| == PIPESIZE && i <= |buf|
    ensures i <= r.1 <= |buf|
    decreases |buf| - i
  {
    if i == |buf| || Full(p) then (p, i) else Store(Put(p, buf[i]), buf, i + 1)
  }

  /** piperead's copy loop: at most n bytes, fewer if the pipe runs empty. */
  function Fetch(p: Pipe, n: int): (r: (Pipe, seq<byte>))
    requires |p.data| == PIPESIZE
    decreases if n < 0 then 0 else n
  {
    if n <= 0 || Empty(p) then (p, [])
    else
      var (q, s) := Fetch(Drop(p), n - 1);
      (q, [p.data[p.nread % PIPESIZE]] + s)
  }

  /** A writer stores exactly what fits, in order. */
  lemma {:induction false} StoreAppends(p: Pipe, buf: seq<byte>, i: nat)
    requires Ok(p) && i <= |buf|
    ensures var (q, j) := Store(p, buf, i);
            && Ok(q) && i <= j <= |buf| && q.readopen == p.readopen && q.writeopen == p.writeopen
            && Contents(q) == Contents(p) + buf[i..j]
            && (j < |buf| ==> Full(q))
            && j - i == (if |buf| - i <= PIPESIZE - Count(p) then |buf| - i else PIPESIZE - Count(p))
    decreases |buf| - i
  {
    FullCount(p);
    if !(i == |buf| || Full(p)) {
      PutAppends(p, buf[i]);
      StoreAppends(Put(p, buf[i]), buf, i + 1);
      var (q, j) := Store(p, buf, i);
      assert buf[i..j] == [buf[i]] + buf[i + 1..j];
      assert |Contents(Put(p, buf[i]))| == |Contents(p)| + 1;
    }
  }

  /** A reader takes the oldest bytes, in order. */
  lemma {:induction false} FetchTakes(p: Pipe, n: int)
    requires Ok(p)
    ensures var (q, s) := Fetch(p, n);
            && Ok(q) && q.readopen == p.readopen && q.writeopen == p.writeopen
            && Contents(p) == s + Contents(q)
            && |s| == (if n <= 0 then 0 else if n <= Count(p) then n else Count(p))
            && (s != [] ==> !Full(q))
    decreases if n < 0 then 0 else n
  {
    hide Contents, Full, Count, Next;
    FullCount(p);
    if !(n <= 0 || Empty(p)) {
      DropRemoves(p);
      FetchTakes(Drop(p), n - 1);
    }
  }
}
