/** Applying a function to every element of a sequence. */
module Sequences {
  /** f applied to each element of xs, in order. */
  function Map<A, B>(f: A -> B, xs: seq<A>): (ys: seq<B>)
    ensures |ys| == |xs|
  {
    if |xs| == 0 then [] else Map(f, xs[..|xs| - 1]) + [f(xs[|xs| - 1])]
  }

  /** Position i of the result is f of position i. */
  lemma {:induction false} MapAt<A, B>(f: A -> B, xs: seq<A>, i: nat)
    requires i < |xs|
    ensures Map(f, xs)[i] == f(xs[i])
  {
    var n := |xs| - 1;
    if i < n {
      MapAt(f, xs[..n], i);
    }
  }

  /** Mapping a concatenation maps each part. */
  lemma {:induction false} MapConcat<A, B>(f: A -> B, xs: seq<A>, ys: seq<A>)
    ensures Map(f, xs + ys) == Map(f, xs) + Map(f, ys)
  {
    if |ys| == 0 {
      assert xs + ys == xs;
    } else {
      var init := ys[..|ys| - 1];
      assert xs + ys == (xs + init) + [ys[|ys| - 1]];
      MapConcat(f, xs, init);
    }
  }
}
