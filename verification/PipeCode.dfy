/** pipe.c's loops in place, from taking the lock to releasing it or going to sleep. */
module PipeCode {
  import opened Disk
  import opened Pipe
  import opened PipeRuns

  datatype WriteResult = Wrote | Refused | MustSleep

  class PipeBuf {
    const data: array<byte>
    var nread: word
    var nwrite: word
    var readopen: bool
    var writeopen: bool

    ghost predicate Valid()
      reads this, data
    {
      data.Length == PIPESIZE && Ok(Value())
    }

    function Value(): (p: Pipe)
      reads this, data
    {
      Pipe(data[..], nread, nwrite, readopen, writeopen)
    }

    /** pipealloc */
    constructor ()
      ensures Valid() && fresh(data) && Contents(Value()) == [] && readopen && writeopen
    {
      data := new byte[PIPESIZE](_ => 0);
      nread, nwrite := 0, 0;
      readopen, writeopen := true, true;
      new;
      assert Contents(Value()) == [];
    }

    /** pipewrite with the lock held, resuming at byte i. Refused is the return of -1, which wakes nobody. */
    method WriteTurn(buf: seq<byte>, i0: nat, killed: bool) returns (i: nat, r: WriteResult)
      requires Valid() && i0 <= |buf|
      modifies this`nwrite, data
      ensures Valid() && (Value(), i) == Store(old(Value()), buf, i0)
      ensures Contents(Value()) == Contents(old(Value())) + buf[i0..i]
      ensures r == if i == |buf| then Wrote else if !readopen || killed then Refused else MustSleep
    {
      StoreAppends(Value(), buf, i0);
      i := i0;
      while i < |buf|
        invariant i0 <= i <= |buf| && |data[..]| == PIPESIZE && Ok(Value())
        invariant Store(Value(), buf, i) == Store(old(Value()), buf, i0)
      {
        if nwrite == (nread + PIPESIZE) % WRAP {
          r := if !readopen || killed then Refused else MustSleep;
          return;
        }
        PutAppends(Value(), buf[i]);
        ghost var p := Value();
        data[nwrite % PIPESIZE] := buf[i];
        nwrite := (nwrite + 1) % WRAP;
        assert Value() == Put(p, buf[i]);
        i := i + 1;
      }
      r := Wrote;
    }

    /** piperead with the lock held. */
    method ReadTurn(n: int, killed: bool) returns (r: ReadResult)
      requires Valid()
      modifies this`nread
      ensures Valid() && r == ReadOutcome(old(Value()), n, killed)
      ensures Value() == if r.Returns? then Fetch(old(Value()), n).0 else old(Value())
      ensures r.Returns? ==> Contents(old(Value())) == r.bytes + Contents(Value())
    {
      hide Contents, Count, Full, Fetch;
      FetchTakes(Value(), n);
      FullCount(Value());
      if nread == nwrite && writeopen {
        r := if killed then ReadResult.Killed else Sleeps;
        return;
      }
      ghost var q := Fetch(Value(), n);
      var got: seq<byte> := [];
      var i := 0;
      assert [] + q.1 == q.1;
      while i < n
        invariant i <= n || (i == 0 && n < 0)
        invariant |got| == i && |data[..]| == PIPESIZE && Ok(Value())
        invariant q.0 == Fetch(Value(), n - i).0 && q.1 == got + Fetch(Value(), n - i).1
      {
        if nread == nwrite {
          break;
        }
        FetchTurn(Value(), n - i, got);
        got := got + [data[nread % PIPESIZE]];
        Advance();
        i := i + 1;
      }
      FetchStop(Value(), n - i, got);
      r := Returns(got);
    }

    /** p->nread++ */
    method Advance()
      requires Ok(Value()) && nread != nwrite
      modifies this`nread
      ensures Value() == Drop(old(Value())) && Ok(Value())
    {
      hide Contents, Count, Full;
      DropRemoves(Value());
      nread := (nread + 1) % WRAP;
    }

    /** pipeclose of one end; dead means the pipe is freed. */
    method Close(writable: bool) returns (dead: bool)
      requires Valid()
      modifies this`readopen, this`writeopen
      ensures Valid() && Contents(Value()) == Contents(old(Value()))
      ensures writeopen == (old(writeopen) && !writable) && readopen == (old(readopen) && writable)
      ensures dead <==> !readopen && !writeopen
    {
      if writable {
        writeopen := false;
      } else {
        readopen := false;
      }
      dead := !readopen && !writeopen;
      assert Contents(Value()) == Contents(old(Value()));
    }
  }

  lemma FetchTurn(p: Pipe, n: int, got: seq<byte>)
    requires |p.data| == PIPESIZE && n > 0 && !Empty(p)
    ensures Fetch(p, n).0 == Fetch(Drop(p), n - 1).0
    ensures got + Fetch(p, n).1 == got + [p.data[p.nread % PIPESIZE]] + Fetch(Drop(p), n - 1).1
  {
  }

  lemma FetchStop(p: Pipe, n: int, got: seq<byte>)
    requires |p.data| == PIPESIZE && (n <= 0 || Empty(p))
    ensures Fetch(p, n).0 == p && got + Fetch(p, n).1 == got
  {
  }
}
