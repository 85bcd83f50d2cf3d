/** Small shared types. */
module Wrappers {

  datatype Option<+T> = None | Some(value: T)

  /** The state a list of successive states ends in, when it starts from `start`. */
  function Final<T>(start: T, steps: seq<T>): T {
    if steps == [] then start else steps[|steps| - 1]
  }

  lemma {:induction false} FinalConcat<T>(start: T, a: seq<T>, b: seq<T>)
    ensures Final(start, a + b) == Final(Final(start, a), b)
  {
  }
}
