/** Facts about sequence concatenation, stated once for any element type
    so that the proofs using them need not re-derive them in a context
    full of string functions. */
module Seqs {

  /** The head and tail of a concatenation whose left part is non-empty. */
  lemma ConsAppend<T>(a: seq<T>, b: seq<T>)
    requires |a| > 0
    ensures (a + b)[0] == a[0] && (a + b)[1..] == a[1..] + b
  {
  }

  lemma AppendAssoc<T>(a: seq<T>, b: seq<T>, c: seq<T>)
    ensures a + (b + c) == (a + b) + c
  {
  }

  lemma AppendEmpty<T>(a: seq<T>)
    ensures [] + a == a && a + [] == a
  {
  }

  lemma AppendIsEmpty<T>(a: seq<T>, b: seq<T>)
    ensures a + b == [] <==> a == [] && b == []
  {
    if a + b == [] {
      assert |a + b| == |a| + |b|;
    }
  }
}
