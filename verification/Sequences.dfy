/** What several modules need: optional values, maps with a default, and sequences without repetition. */
module Sequences {

  datatype Option<T> = None | Some(value: T)

  function Lookup<K, T>(m: map<K, T>, k: K, default: T): T {
    if k in m then m[k] else default
  }

  ghost predicate Distinct<T(!new)>(s: seq<T>) {
    forall i, j :: 0 <= i < j < |s| ==> s[i] != s[j]
  }

  /** Taking the first element off a queue. */
  lemma DistinctTail<T(!new)>(q: seq<T>)
    requires q != [] && Distinct(q)
    ensures q[0] in q && Distinct(q[1..])
    ensures forall t :: t in q[1..] <==> t in q && t != q[0]
  {
  }
}
