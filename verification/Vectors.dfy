/** Finite sums and dot products over vectors of reals. */
module Vectors {

  function SumTo(v: seq<real>, k: nat): real
    requires k <= |v|
  {
    if k == 0 then 0.0 else SumTo(v, k - 1) + v[k - 1]
  }

  function Sum(v: seq<real>): real {
    SumTo(v, |v|)
  }

  function DotTo(u: seq<real>, v: seq<real>, k: nat): real
    requires k <= |u| && k <= |v|
  {
    if k == 0 then 0.0 else DotTo(u, v, k - 1) + u[k - 1] * v[k - 1]
  }

  function Dot(u: seq<real>, v: seq<real>): real
    requires |u| == |v|
  {
    DotTo(u, v, |u|)
  }

  /** The largest of zero and the first k entries. */
  function MaxTo(v: seq<real>, k: nat): real
    requires k <= |v|
  {
    if k == 0 then 0.0 else if v[k - 1] > MaxTo(v, k - 1) then v[k - 1] else MaxTo(v, k - 1)
  }

  predicate NonNegative(v: seq<real>) {
    forall i :: 0 <= i < |v| ==> v[i] >= 0.0
  }

  lemma {:induction false} SumNonNegative(v: seq<real>, k: nat)
    requires k <= |v| && NonNegative(v)
    ensures SumTo(v, k) >= 0.0
    ensures forall i :: 0 <= i < k ==> v[i] <= SumTo(v, k)
  {
    if k > 0 {
      SumNonNegative(v, k - 1);
    }
  }

  lemma {:induction false} SumPositive(v: seq<real>, k: nat)
    requires 0 < k <= |v|
    requires forall i :: 0 <= i < k ==> v[i] > 0.0
    ensures SumTo(v, k) > 0.0
  {
    if k > 1 {
      SumPositive(v, k - 1);
    } else {
      assert SumTo(v, 0) == 0.0;
    }
  }

  lemma {:induction false} SumMonotone(u: seq<real>, v: seq<real>, k: nat)
    requires k <= |u| && k <= |v|
    requires forall i :: 0 <= i < k ==> u[i] <= v[i]
    ensures SumTo(u, k) <= SumTo(v, k)
  {
    if k > 0 {
      SumMonotone(u, v, k - 1);
    }
  }

  /** Entry-wise w = a*u + c gives the same relation between the sums. */
  lemma {:induction false} SumAffine(u: seq<real>, w: seq<real>, a: real, c: real, k: nat)
    requires k <= |u| && k <= |w|
    requires forall i :: 0 <= i < k ==> w[i] == a * u[i] + c
    ensures SumTo(w, k) == a * SumTo(u, k) + c * (k as real)
  {
    if k > 0 {
      SumAffine(u, w, a, c, k - 1);
      var s := SumTo(u, k - 1);
      assert a * (s + u[k - 1]) == a * s + a * u[k - 1];
      assert c * (k as real) == c * ((k - 1) as real) + c;
    }
  }

  lemma {:induction false} SumOfConstant(v: seq<real>, c: real, k: nat)
    requires k <= |v| && forall i :: 0 <= i < k ==> v[i] == c
    ensures SumTo(v, k) == (k as real) * c
  {
    if k > 0 {
      SumOfConstant(v, c, k - 1);
    }
  }

  lemma {:induction false} DotCommutes(u: seq<real>, v: seq<real>, k: nat)
    requires k <= |u| && k <= |v|
    ensures DotTo(u, v, k) == DotTo(v, u, k)
  {
    if k > 0 {
      DotCommutes(u, v, k - 1);
    }
  }

  /** x = v + c shifts the dot product by c times the sum of the other factor. */
  lemma {:induction false} DotShift(u: seq<real>, v: seq<real>, x: seq<real>, c: real, k: nat)
    requires k <= |u| && k <= |v| && k <= |x|
    requires forall i :: 0 <= i < k ==> x[i] == v[i] + c
    ensures DotTo(u, x, k) == DotTo(u, v, k) + c * SumTo(u, k)
  {
    if k > 0 {
      DotShift(u, v, x, c, k - 1);
      var (s, z) := (SumTo(u, k - 1), u[k - 1]);
      assert z * x[k - 1] == z * v[k - 1] + c * z;
      assert c * (s + z) == c * s + c * z;
    }
  }

  lemma {:induction false} DotMonotone(u: seq<real>, v: seq<real>, p: seq<real>, k: nat)
    requires k <= |u| && k <= |v| && k <= |p|
    requires forall i :: 0 <= i < k ==> u[i] <= v[i] && p[i] >= 0.0
    ensures DotTo(u, p, k) <= DotTo(v, p, k)
  {
    if k > 0 {
      DotMonotone(u, v, p, k - 1);
      MulMonotone(u[k - 1], v[k - 1], p[k - 1]);
    }
  }

  lemma MulMonotone(a: real, b: real, p: real)
    requires a <= b && p >= 0.0
    ensures a * p <= b * p
  {
  }

  lemma {:induction false} MaxBounds(v: seq<real>, k: nat)
    requires k <= |v|
    ensures MaxTo(v, k) >= 0.0
    ensures forall i :: 0 <= i < k ==> v[i] <= MaxTo(v, k)
    ensures MaxTo(v, k) == 0.0 || exists i :: 0 <= i < k && v[i] == MaxTo(v, k)
  {
    if k > 0 {
      MaxBounds(v, k - 1);
      if v[k - 1] <= MaxTo(v, k - 1) && MaxTo(v, k - 1) != 0.0 {
        var i :| 0 <= i < k - 1 && v[i] == MaxTo(v, k - 1);
        assert v[i] == MaxTo(v, k);
      }
    }
  }
}
