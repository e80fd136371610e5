/** The rule both splitters use: take the candidate with the lowest value, and among equals the
    last one. */
module Selection {

  /** Among the first `n` values, the position of the last occurrence of the smallest. */
  function LastMin(vals: seq<int>, n: nat): (k: nat)
    requires 0 < n <= |vals|
    ensures k < n
  {
    if n == 1 then 0 else
      var k := LastMin(vals, n - 1);
      if vals[n - 1] <= vals[k] then n - 1 else k
  }

  lemma {:induction false} LastMinIsLastMinimum(vals: seq<int>, n: nat)
    requires 0 < n <= |vals|
    ensures forall i :: 0 <= i < n ==> vals[LastMin(vals, n)] <= vals[i]
    ensures forall i :: LastMin(vals, n) < i < n ==> vals[LastMin(vals, n)] < vals[i]
  {
    if n > 1 {
      LastMinIsLastMinimum(vals, n - 1);
    }
  }

  lemma LastMinStep(vals: seq<int>, n: nat, k: nat, v: int)
    requires 0 < n < |vals| && k == LastMin(vals, n) && v == vals[k]
    ensures LastMin(vals, n + 1) == if vals[n] <= v then n else k
  {
  }
}
