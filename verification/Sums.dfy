/** Sums of the values of a finite map. */
module Sums {

  ghost function Pick<T>(s: set<T>): (k: T)
    requires s != {}
    ensures k in s
  {
    var k :| k in s;
    k
  }

  ghost function Sum(m: map<int, nat>): (r: nat)
    decreases |m|
  {
    if m.Keys == {} then 0 else
      var k := Pick(m.Keys);
      assert (m - {k}).Keys == m.Keys - {k};
      m[k] + Sum(m - {k})
  }

  /** The sum does not depend on the order of removal. */
  lemma {:induction false} SumRemove(m: map<int, nat>, k: int)
    requires k in m
    ensures Sum(m) == m[k] + Sum(m - {k})
    decreases |m|
  {
    assert m.Keys != {};
    var j := Pick(m.Keys);
    if j != k {
      assert (m - {j}).Keys == m.Keys - {j};
      assert (m - {k}).Keys == m.Keys - {k};
      SumRemove(m - {j}, k);
      SumRemove(m - {k}, j);
      assert m - {j} - {k} == m - {k} - {j};
    }
  }

  lemma SumUpdate(m: map<int, nat>, k: int, v: nat)
    ensures Sum(m[k := v]) == Sum(m - {k}) + v
  {
    SumRemove(m[k := v], k);
    assert m[k := v] - {k} == m - {k};
  }

  lemma Distribute(c: nat, n: nat)
    ensures c * (n + 1) == c * n + c
  {
  }

  lemma {:induction false} SumAtMost(m: map<int, nat>, c: nat)
    requires forall k | k in m :: m[k] <= c
    ensures Sum(m) <= c * |m|
    decreases |m|
  {
    if m.Keys != {} {
      var k := Pick(m.Keys);
      assert (m - {k}).Keys == m.Keys - {k};
      SumRemove(m, k);
      SumAtMost(m - {k}, c);
      var rest := m - {k};
      assert |m| == |rest| + 1;
      Distribute(c, |rest|);
    }
  }
}
