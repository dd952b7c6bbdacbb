/** Facts about sequences of any kind. */
module Sequences {

  lemma ConcatAssoc<T>(a: seq<T>, b: seq<T>, c: seq<T>)
    ensures (a + b) + c == a + (b + c)
  {
  }

  lemma CancelPrefix<T>(p: seq<T>, a: seq<T>, b: seq<T>)
    requires p + a == p + b
    ensures a == b
  {
    assert a == (p + a)[|p|..] && b == (p + b)[|p|..];
  }

  /** Four pieces appended one after the other. */
  lemma AppendFour<T>(x: seq<T>, a: seq<T>, b: seq<T>, c: seq<T>, d: seq<T>)
    ensures x + a + b + c + d == x + (a + (b + (c + d)))
  {
    ConcatAssoc(x, a, b);
    ConcatAssoc(x, a + b, c);
    ConcatAssoc(a, b, c);
    ConcatAssoc(x, a + (b + c), d);
    ConcatAssoc(a, b + c, d);
    ConcatAssoc(b, c, d);
  }
}
