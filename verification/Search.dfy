/** The table scan shared by the thread library and the process table. */
module Search {

  /** First index from `from` on whose element satisfies p, or |s|. */
  function First<T>(s: seq<T>, p: T -> bool, from: nat := 0): (i: nat)
    requires from <= |s|
    ensures from <= i <= |s|
    ensures i < |s| ==> p(s[i])
    ensures forall j | from <= j < i :: !p(s[j])
    decreases |s| - from
  {
    if from == |s| || p(s[from]) then from else First(s, p, from + 1)
  }
}
