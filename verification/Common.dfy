/** Small notions shared by several models. */
module Common {

  datatype Option<+T> = None | Some(value: T)

  predicate Distinct(s: seq<int>) { forall i, j :: 0 <= i < j < |s| ==> s[i] != s[j] }

  /** The numbers below n. */
  function Ids(n: nat): (s: set<nat>)
    ensures forall u: nat :: u in s <==> u < n
  {
    if n == 0 then {} else Ids(n - 1) + {n - 1}
  }

  lemma Scale(q: int, x: int)
    requires q >= 0 && x >= 1
    ensures q * x >= q
  {}
}
