// Facts about sequences shared by several components.
module Sequences {
  lemma Regroup<T>(a: seq<T>, b: seq<T>, c: seq<T>)
    ensures a + b + c == a + (b + c)
  {
  }

  function Flat<T>(ss: seq<seq<T>>): seq<T> {
    if ss == [] then [] else ss[0] + Flat(ss[1..])
  }

  predicate Increasing(es: seq<nat>) { forall i, j :: 0 <= i < j < |es| ==> es[i] < es[j] }
}
