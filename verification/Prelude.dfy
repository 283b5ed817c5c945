/** Shared by all parts of the model. */
module Prelude {
  datatype Option<+T> = None | Some(value: T)

  /**
   * Whether a condition holds that many contracts carry along. Such conditions are functions to
   * `Health`, because Dafny unfolds a predicate wherever it has to be proved, and a function only
   * where its definition is needed.
   */
  datatype Health = Sound | Broken

  datatype List<T> = Nil | Cons(head: T, tail: List<T>)

  /** `parts` in front of `rest`. */
  function Onto<T>(parts: seq<T>, rest: List<T>): List<T> {
    if parts == [] then rest else Onto(parts[..|parts| - 1], Cons(parts[|parts| - 1], rest))
  }

  lemma OntoPush<T>(parts: seq<T>, x: T, rest: List<T>)
    ensures Onto(parts + [x], rest) == Onto(parts, Cons(x, rest))
  {
    assert (parts + [x])[..|parts|] == parts;
  }

  lemma {:induction false} OntoFront<T>(parts: seq<T>, rest: List<T>)
    requires |parts| > 0
    ensures Onto(parts, rest) == Cons(parts[0], Onto(parts[1..], rest))
    decreases |parts|
  {
    if |parts| > 1 {
      var n := |parts| - 1;
      OntoFront(parts[..n], Cons(parts[n], rest));
      assert parts[1..][..n - 1] == parts[..n][1..];
    }
  }

  lemma OntoSize<T>(parts: seq<T>)
    ensures parts == [] <==> Onto(parts, Nil) == Nil
    ensures |parts| > 1 ==> Onto(parts, Nil).Cons? && Onto(parts, Nil).tail.Cons?
    ensures |parts| == 1 ==> Onto(parts, Nil) == Cons(parts[0], Nil)
  {
    if |parts| > 0 { OntoFront(parts, Nil); }
    if |parts| > 1 { OntoFront(parts[1..], Nil); }
  }
}
