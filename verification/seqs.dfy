/** Array lookups shared by the sampler and the stage. */
module Seqs {

  /** `xs.indexOf(x)`: the first position holding `x`, or -1. */
  function Position<T(==)>(xs: seq<T>, x: T): (r: int)
    ensures r == -1 <==> x !in xs
    ensures r >= 0 ==> r < |xs| && xs[r] == x && x !in xs[..r]
  {
    if |xs| == 0 then -1
    else if xs[0] == x then 0
    else
      var p := Position(xs[1..], x);
      if p < 0 then -1
      else
        assert xs[..p + 1] == [xs[0]] + xs[1..][..p];
        p + 1
  }

  /** Appending a value leaves the first positions of the values already
      present, and puts a new value at the end. */
  lemma {:induction false} PositionAppend<T>(xs: seq<T>, y: T, v: T)
    ensures Position(xs + [y], v) == if v in xs then Position(xs, v) else if v == y then |xs| else -1
    decreases |xs|
  {
    if |xs| > 0 && xs[0] != v {
      assert (xs + [y])[1..] == xs[1..] + [y];
      PositionAppend(xs[1..], y, v);
      assert v in xs <==> v in xs[1..];
    }
  }
}
