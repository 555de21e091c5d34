/** Values shared by every module of the model. */
module Common {

  /** A value that may be absent: JavaScript's `null` / `undefined`. */
  datatype Option<T> = None | Some(value: T)

  /** The set of strings listed in a sequence. */
  function Elements(s: seq<string>): set<string>
  {
    set x | x in s
  }

  /** The elements of a concatenation are those of its two parts. */
  lemma ElementsAppend(a: seq<string>, b: seq<string>)
    ensures Elements(a + b) == Elements(a) + Elements(b)
  {
  }
}
