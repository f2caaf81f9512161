/** allocSem (usemaphore.c): two binary semaphores for a counting one, and what happens when
    there are not two. */
module SemAlloc {
  import opened Search
  import opened UThread
  import opened UThreadRuns

  /** How many binary semaphores are free. */
  function FreeSems(sems: seq<int>): (n: nat) {
    if sems == [] then 0 else (if sems[0] == -1 then 1 else 0) + FreeSems(sems[1..])
  }

  lemma {:induction false} FreeUpdate(sems: seq<int>, i: nat, v: int)
    requires i < |sems|
    ensures FreeSems(sems[i := v]) + (if sems[i] == -1 then 1 else 0) == FreeSems(sems) + if v == -1 then 1 else 0
  {
    if i == 0 {
      assert sems[0 := v][1..] == sems[1..];
    } else {
      assert sems[i := v][1..] == sems[1..][i - 1 := v];
      FreeUpdate(sems[1..], i - 1, v);
    }
  }

  lemma {:induction false} NoneFree(sems: seq<int>)
    ensures FreeSems(sems) == 0 <==> forall i | 0 <= i < |sems| :: sems[i] != -1
  {
    if sems != [] {
      NoneFree(sems[1..]);
      assert forall i | 0 < i < |sems| :: sems[i] == sems[1..][i - 1];
    }
  }

  lemma {:induction false} TwoFree(sems: seq<int>)
    ensures FreeSems(sems) >= 2 <==> exists i, j | 0 <= i < j < |sems| :: sems[i] == -1 && sems[j] == -1
  {
    NoneFree(sems);
    if i :| 0 <= i < |sems| && sems[i] == -1 {
      var rest := sems[i := 1];
      FreeUpdate(sems, i, 1);
      NoneFree(rest);
      if FreeSems(sems) >= 2 {
        var j :| 0 <= j < |rest| && rest[j] == -1;
        assert if i < j then sems[i] == -1 && sems[j] == -1 else j < i && sems[j] == -1 && sems[i] == -1;
      }
      forall a, b | 0 <= a < b < |sems| && sems[a] == -1 && sems[b] == -1 ensures FreeSems(sems) >= 2 {
        assert rest[if i == a then b else a] == -1;
      }
    }
  }

  /** What allocSem leaves: the library, and the semaphores it took, -1 for none. */
  datatype Pair = Pair(lib: Lib, mutex: int, gate: int)

  function FreeAt(l: Lib): (s: int)
    requires Sized(l)
    ensures s == -1 || (0 <= s < MAX_BSEM && l.sems[s] == -1)
    ensures s == -1 ==> forall i | 0 <= i < MAX_BSEM :: l.sems[i] != -1
  {
    var i := First(l.sems, (v: int) => v == -1);
    if i == MAX_BSEM then -1 else i
  }

  function AllocPair(l: Lib, enterVal: int): (r: Pair)
    requires Sized(l)
  {
    var a := BAlloc(l);
    var b := BAlloc(a);
    var mutex, gate := FreeAt(l), FreeAt(a);
    Pair(if mutex != -1 && gate != -1 && enterVal == 0 then BDown(b, gate) else b, mutex, gate)
  }

  predicate Paired(r: Pair) { r.mutex != -1 && r.gate != -1 }

  lemma {:induction false} AllocTakes(l: Lib)
    requires Sized(l)
    ensures Sized(BAlloc(l)) && BAlloc(l).table == l.table && BAlloc(l).ct == l.ct
    ensures FreeAt(l) == -1 <==> FreeSems(l.sems) == 0
    ensures FreeSems(BAlloc(l).sems) == if FreeSems(l.sems) == 0 then 0 else FreeSems(l.sems) - 1
    ensures FreeAt(l) == -1 ==> BAlloc(l) == l
    ensures FreeAt(l) != -1 ==> BAlloc(l).sems == l.sems[FreeAt(l) := 1]
  {
    hide First, FreeSems;
    NoneFree(l.sems);
    if FreeAt(l) != -1 {
      FreeUpdate(l.sems, FreeAt(l), 1);
    }
  }

  /** allocSem succeeds exactly when two semaphores are free, and takes two that were. It loses a
      semaphore exactly when one is free: that one is taken and allocSem returns 0. */
  lemma {:induction false} AllocPairExactly(l: Lib, enterVal: int)
    requires Sized(l)
    ensures var r, n := AllocPair(l, enterVal), FreeSems(l.sems);
            && (Paired(r) <==> n >= 2)
            && (!Paired(r) && r.lib != l <==> n == 1)
            && FreeSems(r.lib.sems) == (if n >= 2 then n - 2 else 0)
            && (r.mutex != -1 ==> l.sems[r.mutex] == -1)
            && (r.gate != -1 ==> l.sems[r.gate] == -1 && r.mutex != r.gate && Paired(r))
            && (Paired(r) ==> r.lib == l.(sems := l.sems[r.mutex := 1][r.gate := if enterVal == 0 then 0 else 1]))
            && (!Paired(r) ==> r.lib == l.(sems := if r.mutex == -1 then l.sems else l.sems[r.mutex := 1]))
  {
    hide First, FreeSems, FreeAt, BAlloc;
    var a := BAlloc(l);
    AllocTakes(l);
    var b := BAlloc(a);
    AllocTakes(a);
    AllocIs(l);
    AllocIs(a);
    var r := AllocPair(l, enterVal);
    if Paired(r) {
      assert b.sems[r.gate := 0] == l.sems[r.mutex := 1][r.gate := 0];
      FreeUpdate(b.sems, r.gate, 0);
    }
  }

  lemma AllocIs(l: Lib)
    requires Sized(l)
    ensures FreeAt(l) == -1 || (0 <= FreeAt(l) < MAX_BSEM && l.sems[FreeAt(l)] == -1)
    ensures BAlloc(l) == l.(sems := BAlloc(l).sems)
  {
  }

  // ---- a state in which a semaphore is lost ----

  /** k calls of bsem_alloc. */
  function Allocs(l: Lib, k: nat): (r: Lib)
    requires Sized(l)
    ensures Sized(r)
  {
    if k == 0 then l else BAlloc(Allocs(l, k - 1))
  }

  lemma {:induction false} AllocsLeave(k: nat)
    requires k <= MAX_BSEM
    ensures FreeSems(Allocs(Start(), k).sems) == MAX_BSEM - k
  {
    hide FreeSems, BAlloc;
    if k == 0 {
      AllFree(MAX_BSEM);
      assert Start().sems == seq(MAX_BSEM, (_: nat) => -1);
    } else {
      AllocsLeave(k - 1);
      AllocTakes(Allocs(Start(), k - 1));
    }
  }

  lemma {:induction false} AllFree(n: nat)
    ensures FreeSems(seq(n, (_: nat) => -1)) == n
  {
    if n > 0 {
      AllFree(n - 1);
      assert seq(n, (_: nat) => -1)[1..] == seq(n - 1, (_: nat) => -1);
    }
  }

  /** A failing state: after 127 calls of bsem_alloc one semaphore is free; allocSem takes it,
      returns 0, and none is free any more. */
  lemma {:induction false} LoneSemaphoreLost(enterVal: int)
    ensures var l := Allocs(Start(), MAX_BSEM - 1); var r := AllocPair(l, enterVal);
            && FreeSems(l.sems) == 1 && !Paired(r) && r.mutex != -1 && FreeSems(r.lib.sems) == 0
  {
    hide FreeSems, Allocs, BAlloc, FreeAt;
    AllocsLeave(MAX_BSEM - 1);
    var l := Allocs(Start(), MAX_BSEM - 1);
    AllocPairExactly(l, enterVal);
  }
}
