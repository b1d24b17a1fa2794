/** Finite sums of reals. */
module Sums {

  function Sum(xs: seq<real>): real {
    if xs == [] then 0.0 else Sum(xs[..|xs| - 1]) + xs[|xs| - 1]
  }

  lemma {:induction false} SumAdd(xs: seq<real>, ys: seq<real>, zs: seq<real>)
    requires |xs| == |ys| == |zs| && forall i :: 0 <= i < |xs| ==> xs[i] == ys[i] + zs[i]
    ensures Sum(xs) == Sum(ys) + Sum(zs)
  {
    if xs != [] {
      var k := |xs| - 1;
      SumAdd(xs[..k], ys[..k], zs[..k]);
    }
  }

  /** Every term times m. */
  function Scaled(m: real, xs: seq<real>): (r: seq<real>)
    ensures |r| == |xs|
  {
    if xs == [] then [] else Scaled(m, xs[..|xs| - 1]) + [m * xs[|xs| - 1]]
  }

  lemma {:induction false} ScaledAt(m: real, xs: seq<real>, i: nat)
    requires i < |xs|
    ensures Scaled(m, xs)[i] == m * xs[i]
  {
    if i < |xs| - 1 {
      ScaledAt(m, xs[..|xs| - 1], i);
    }
  }

  lemma {:induction false} SumScaled(m: real, xs: seq<real>)
    ensures Sum(Scaled(m, xs)) == m * Sum(xs)
  {
    if xs != [] {
      var k := |xs| - 1;
      SumScaled(m, xs[..k]);
      Distribute(m, Sum(xs[..k]), xs[k]);
      assert Scaled(m, xs)[..k] == Scaled(m, xs[..k]);
    }
  }

  lemma Distribute(m: real, x: real, y: real)
    ensures m * (x + y) == m * x + m * y
  {}

  lemma ScaledLe(m: real, total: real, scaled: real, bound: real)
    requires m >= 0.0 && scaled == m * total && total <= bound
    ensures scaled <= bound * m
  {
    assert m * (bound - total) >= 0.0;
    assert m * (bound - total) == m * bound - m * total;
  }

  lemma ScaledBound(m: real, xs: seq<real>, bound: real)
    requires m >= 0.0 && Sum(xs) <= bound
    ensures Sum(Scaled(m, xs)) <= bound * m
  {
    SumScaled(m, xs);
    ScaledLe(m, Sum(xs), Sum(Scaled(m, xs)), bound);
  }

  lemma {:induction false} SumLe(xs: seq<real>, ys: seq<real>)
    requires |xs| == |ys| && forall i :: 0 <= i < |xs| ==> xs[i] <= ys[i]
    ensures Sum(xs) <= Sum(ys)
  {
    if xs != [] {
      var k := |xs| - 1;
      SumLe(xs[..k], ys[..k]);
    }
  }

  /** A sum with one term that is not zero. */
  lemma {:induction false} SumOne(xs: seq<real>, i: nat)
    requires i < |xs| && forall j :: 0 <= j < |xs| && j != i ==> xs[j] == 0.0
    ensures Sum(xs) == xs[i]
  {
    var k := |xs| - 1;
    if i < k {
      SumOne(xs[..k], i);
    } else {
      SumZeroIff(xs[..k]);
    }
  }

  lemma {:induction false} SumSame(xs: seq<real>, u: real)
    requires forall i :: 0 <= i < |xs| ==> xs[i] == u
    ensures Sum(xs) == |xs| as real * u
  {
    if xs != [] {
      SumSame(xs[..|xs| - 1], u);
      assert |xs| as real * u == (|xs| - 1) as real * u + u;
    }
  }

  /** A sum of non-negative terms is zero only if every term is. */
  lemma {:induction false} SumZeroIff(xs: seq<real>)
    requires forall i :: 0 <= i < |xs| ==> xs[i] >= 0.0
    ensures Sum(xs) >= 0.0
    ensures Sum(xs) == 0.0 <==> forall i :: 0 <= i < |xs| ==> xs[i] == 0.0
  {
    if xs != [] {
      var k := |xs| - 1;
      SumZeroIff(xs[..k]);
      assert forall i :: 0 <= i < k ==> xs[..k][i] == xs[i];
    }
  }
}
