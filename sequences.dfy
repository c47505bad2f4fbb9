/** Facts about sequences that the other modules use to regroup
    concatenations step by step. */
module Sequences {

  /** Concatenation is associative. */
  lemma Assoc<T>(a: seq<T>, b: seq<T>, c: seq<T>)
    ensures (a + b) + c == a + (b + c)
  {
  }

  /** order lists the keys of m, each once: the order in which a loop over
      a HashMap's key set visits them. */
  ghost predicate Enumerates<V>(m: map<string, V>, order: seq<string>) {
    (forall i, j :: 0 <= i < j < |order| ==> order[i] != order[j]) &&
    (forall k :: k in m <==> k in order)
  }
}
