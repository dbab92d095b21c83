/**
 * Regrouping facts about sequence concatenation. The printer methods append
 * to the stream piece by piece while their specifications group the pieces
 * as the source nests its blocks; stating each regrouping once here and
 * calling it at the append keeps those method proofs small and stable.
 */
module SeqSteps {
  /** The middle part of a concatenation is recovered by slicing. */
  lemma MiddleSlice<T>(x: seq<T>, y: seq<T>, z: seq<T>)
    ensures (x + y + z)[|x|..|x| + |y|] == y
  {
  }

  lemma Assoc3<T>(w: seq<T>, x: seq<T>, y: seq<T>, z: seq<T>)
    ensures w + x + y + z == w + (x + y + z)
  {
  }

  lemma Assoc<T>(x: seq<T>, y: seq<T>, z: seq<T>)
    ensures (x + y) + z == x + (y + z)
  {
  }

  /** Splicing a wrapped block after a prefix. */
  lemma Spliced<T>(h: seq<T>, a: seq<T>, open: T, inner: seq<T>, close: T)
    ensures h + a + [open] + inner + [close] == h + (a + ([open] + inner + [close]))
  {
  }

  lemma Opened<T>(h: seq<T>, open: T, a: seq<T>, b: seq<T>, close: T)
    ensures h + ([open] + a) + b + [close] == h + ([open] + (a + b) + [close])
  {
  }

  lemma Framed<T>(h: seq<T>, first: T, a: seq<T>, b: seq<T>, last: T)
    ensures h + [first] + a + b + [last] == h + ([first] + a + b + [last])
  {
  }

  lemma Nested<T>(h: seq<T>, open: T, a: seq<T>, b: seq<T>, c: seq<T>, close: T)
    ensures h + [open] + a + b + c + [close] == h + ([open] + (a + b + c) + [close])
  {
  }
}
