/** Walking a table's keys in increasing order. The store assigns keys
    1, 2, 3, ... so every key of a table lies below its next id. */
module Chaves {

  /** The keys of `ks` that lie in `[1, n)`, in increasing order. */
  function ChavesAte(ks: set<int>, n: int): (r: seq<int>)
    ensures forall i, j | 0 <= i < j < |r| :: r[i] < r[j]
    ensures forall k :: k in r <==> k in ks && 1 <= k < n
    decreases n
  {
    if n <= 1 then []
    else
      var r := ChavesAte(ks, n - 1);
      assert forall i | 0 <= i < |r| :: r[i] < n - 1 by {
        forall i | 0 <= i < |r| ensures r[i] < n - 1 { assert r[i] in r; }
      }
      if n - 1 in ks then r + [n - 1] else r
  }
}
