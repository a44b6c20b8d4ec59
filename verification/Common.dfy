module Options {
  datatype Option<T> = None | Some(value: T)
}

module Reals {
  function AbsOf(x: real): real { if x < 0.0 then -x else x }
}

module Sequences {
  /** A sequence of sequences, end to end. */
  function Flat<T>(av: seq<seq<T>>): seq<T> {
    if |av| == 0 then [] else Flat(av[..|av| - 1]) + av[|av| - 1]
  }

  lemma {:induction false} FlatLength<T>(av: seq<seq<T>>)
    requires forall i :: 0 <= i < |av| ==> |av[i]| > 0
    ensures |Flat(av)| >= |av|
  {
    if |av| > 0 { FlatLength(av[..|av| - 1]); }
  }
}
