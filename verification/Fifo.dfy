/** First in, first out, over sequences. */
module Fifo {
  /** What is inside before, plus what comes in, is what goes out plus what is inside after; two such
      steps make one. */
  lemma Compose<T>(a: seq<T>, put: seq<T>, out: seq<T>, b: seq<T>, ins: seq<T>, rem: seq<T>, c: seq<T>)
    requires a + put == out + b && b + ins == rem + c
    ensures a + (put + ins) == (out + rem) + c
  {
    assert a + (put + ins) == (a + put) + ins;
    assert (out + b) + ins == out + (b + ins);
    assert out + (rem + c) == (out + rem) + c;
  }
}
