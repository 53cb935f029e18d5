/** Nullable values and thrown exceptions of the crawler, as values. */
module Wrappers {

  /** A C# reference or `Nullable<T>` that may be null: `None` is null. */
  datatype Option<+T> = None | Some(value: T)

  /** The exceptions the modelled code can raise. */
  datatype Fault =
    | NullValue            // `.Value` read on an empty `Nullable<T>`
    | ArgumentOutOfRange   // a cache entry option outside its allowed range
    | NotSupported         // a content type with no registered handler
    | NullReference        // a member used through a null reference

  /** A call that either returns a value or throws. */
  datatype Outcome<+T> = Returned(value: T) | Threw(error: Fault)
}

/** Small facts about sequences used throughout the model. */
module Seqs {

  /** No element occurs twice. */
  predicate Distinct<T(==)>(s: seq<T>) {
    forall i, j :: 0 <= i < j < |s| ==> s[i] != s[j]
  }

  /** The set of elements of a sequence. */
  function Elements<T>(s: seq<T>): set<T> {
    set x | x in s
  }

  lemma DistinctAppend<T>(a: seq<T>, b: seq<T>)
    requires Distinct(a) && Distinct(b)
    requires Elements(a) !! Elements(b)
    ensures Distinct(a + b)
  {
    forall i, j | 0 <= i < j < |a + b|
      ensures (a + b)[i] != (a + b)[j]
    {
      if j < |a| {
      } else if i >= |a| {
        assert (a + b)[i] == b[i - |a|] && (a + b)[j] == b[j - |a|];
      } else {
        assert (a + b)[i] in Elements(a) && (a + b)[j] in Elements(b);
      }
    }
  }
}
