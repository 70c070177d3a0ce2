/** Vectors and augmented matrices over exact reals. */
module LinearAlgebra {
  import opened Basics

  type Vec = seq<real>

  /** An augmented matrix: n rows of n coefficients followed by a right-hand side. */
  type Rows = seq<Vec>

  predicate Shape(m: Rows, n: nat) {
    |m| == n && forall i :: 0 <= i < n ==> |m[i]| == n + 1
  }

  function Dot(a: Vec, b: Vec): real
    requires |a| == |b|
  {
    if |a| == 0 then 0.0
    else Dot(a[..|a| - 1], b[..|a| - 1]) + a[|a| - 1] * b[|a| - 1]
  }

  function SubScaled(a: Vec, f: real, b: Vec): (r: Vec)
    requires |a| == |b|
    ensures |r| == |a| && forall i :: 0 <= i < |a| ==> r[i] == a[i] - f * b[i]
  {
    seq(|a|, i requires 0 <= i < |a| => a[i] - f * b[i])
  }

  function AddScaled(a: Vec, f: real, b: Vec): (r: Vec)
    requires |a| == |b|
    ensures |r| == |a| && forall i :: 0 <= i < |a| ==> r[i] == a[i] + f * b[i]
  {
    seq(|a|, i requires 0 <= i < |a| => a[i] + f * b[i])
  }

  function ScaledVec(s: real, a: Vec): (r: Vec)
    ensures |r| == |a| && forall i :: 0 <= i < |a| ==> r[i] == s * a[i]
  {
    seq(|a|, i requires 0 <= i < |a| => s * a[i])
  }

  function ScaledRows(s: real, m: Rows): (r: Rows)
    ensures |r| == |m|
    ensures forall i :: 0 <= i < |m| ==> r[i] == ScaledVec(s, m[i])
  {
    seq(|m|, i requires 0 <= i < |m| => ScaledVec(s, m[i]))
  }

  /** `y` is orthogonal to every row.  With y[n] == -1 it solves the system the rows stand for;
      with y[n] == 0 it lies in the kernel of the coefficient part. */
  ghost predicate Annihilates(m: Rows, n: nat, y: Vec)
    requires Shape(m, n) && |y| == n + 1
  {
    forall i :: 0 <= i < n ==> Dot(m[i], y) == 0.0
  }

  /** One more component. */
  lemma {:induction false} DotLast(a: Vec, b: Vec, a': Vec, b': Vec)
    requires |a| == |b| == |a'| + 1 && |a'| == |b'| && a' == a[..|a'|] && b' == b[..|b'|]
    ensures Dot(a, b) == Dot(a', b') + a[|a'|] * b[|b'|]
  {
  }

  lemma {:induction false} SubScaledPrefix(a: Vec, f: real, b: Vec, k: nat)
    requires k <= |a| == |b|
    ensures SubScaled(a, f, b)[..k] == SubScaled(a[..k], f, b[..k])
  {
    var whole, part := SubScaled(a, f, b), SubScaled(a[..k], f, b[..k]);
    assert forall i :: 0 <= i < k ==> whole[i] == part[i];
  }

  lemma {:induction false} ScaledPrefix(s: real, a: Vec, k: nat)
    requires k <= |a|
    ensures ScaledVec(s, a)[..k] == ScaledVec(s, a[..k])
  {
    var whole, part := ScaledVec(s, a), ScaledVec(s, a[..k]);
    assert forall i :: 0 <= i < k ==> whole[i] == part[i];
  }

  lemma {:induction false} DotSubScaled(a: Vec, f: real, b: Vec, y: Vec)
    requires |a| == |b| == |y|
    ensures Dot(SubScaled(a, f, b), y) == Dot(a, y) - f * Dot(b, y)
  {
    if |a| > 0 {
      var k := |a| - 1;
      DotSubScaled(a[..k], f, b[..k], y[..k]);
      hide Dot;
      var whole, part := SubScaled(a, f, b), SubScaled(a[..k], f, b[..k]);
      SubScaledPrefix(a, f, b, k);
      DotLast(whole, y, part, y[..k]);
      DotLast(a, y, a[..k], y[..k]);
      DotLast(b, y, b[..k], y[..k]);
      DifferenceTerm(f, Dot(b, y), Dot(b[..k], y[..k]), a[k], b[k], y[k], whole[k]);
    }
  }

  lemma {:induction false} DifferenceTerm(f: real, dot: real, before: real, a: real, b: real, y: real, r: real)
    requires dot == before + b * y && r == a - f * b
    ensures r * y - f * before == a * y - f * dot
  {
  }

  lemma {:induction false} DotScaled(s: real, a: Vec, y: Vec)
    requires |a| == |y|
    ensures Dot(ScaledVec(s, a), y) == s * Dot(a, y)
  {
    if |a| > 0 {
      var k := |a| - 1;
      DotScaled(s, a[..k], y[..k]);
      hide Dot;
      var whole := ScaledVec(s, a);
      ScaledPrefix(s, a, k);
      DotLast(whole, y, ScaledVec(s, a[..k]), y[..k]);
      DotLast(a, y, a[..k], y[..k]);
      ScaledTerm(s, Dot(a, y), Dot(a[..k], y[..k]), a[k], y[k], whole[k]);
    }
  }

  lemma {:induction false} ScaledTerm(s: real, dot: real, before: real, a: real, y: real, r: real)
    requires dot == before + a * y && r == s * a
    ensures s * dot == s * before + r * y
  {
  }

  lemma {:induction false} DotZero(a: Vec, b: Vec)
    requires |a| == |b|
    requires forall j :: 0 <= j < |a| ==> a[j] == 0.0 || b[j] == 0.0
    ensures Dot(a, b) == 0.0
  {
    if |a| > 0 {
      DotZero(a[..|a| - 1], b[..|a| - 1]);
    }
  }

  lemma {:induction false} DotOneTerm(a: Vec, b: Vec, i: nat)
    requires i < |a| == |b|
    requires forall j :: 0 <= j < |a| && j != i ==> a[j] == 0.0 || b[j] == 0.0
    ensures Dot(a, b) == a[i] * b[i]
  {
    var k := |a| - 1;
    if i == k {
      DotZero(a[..k], b[..k]);
    } else {
      DotOneTerm(a[..k], b[..k], i);
    }
  }

  /** Only positions i and k contribute. */
  lemma {:induction false} DotTwoTerms(a: Vec, b: Vec, i: nat, k: nat)
    requires i < k < |a| == |b|
    requires forall j :: 0 <= j < |a| && j != i && j != k ==> a[j] == 0.0 || b[j] == 0.0
    ensures Dot(a, b) == a[i] * b[i] + a[k] * b[k]
  {
    var l := |a| - 1;
    if k == l {
      DotOneTerm(a[..l], b[..l], i);
    } else {
      DotTwoTerms(a[..l], b[..l], i, k);
    }
  }

  lemma {:induction false} DotSymmetric(a: Vec, b: Vec)
    requires |a| == |b|
    ensures Dot(a, b) == Dot(b, a)
  {
    if |a| > 0 {
      DotSymmetric(a[..|a| - 1], b[..|a| - 1]);
    }
  }

  lemma {:induction false} DotSquare(a: Vec)
    ensures Dot(a, a) >= 0.0
    ensures (forall i :: 0 <= i < |a| ==> a[i] == 0.0) ==> Dot(a, a) == 0.0
  {
    if |a| > 0 {
      var k := |a| - 1;
      DotSquare(a[..k]);
      SquareSign(a[k], a[k] * a[k]);
    }
  }

  lemma {:induction false} DotSquarePositive(a: Vec, i: nat)
    requires i < |a| && a[i] != 0.0
    ensures Dot(a, a) > 0.0
  {
    var k := |a| - 1;
    SquareSign(a[k], a[k] * a[k]);
    if i == k {
      DotSquare(a[..k]);
      SameSignProduct(a[k], a[k], a[k] * a[k]);
    } else {
      DotSquarePositive(a[..k], i);
    }
  }

  lemma {:induction false} SameSignProduct(x: real, y: real, q: real)
    requires q == x * y && ((x < 0.0 && y < 0.0) || (x > 0.0 && y > 0.0))
    ensures q > 0.0
  {
  }

  lemma {:induction false} SquareSign(x: real, q: real)
    requires q == x * x
    ensures q >= 0.0
    ensures x == 0.0 ==> q == 0.0
  {
  }

  lemma {:induction false} DotSum3(p: Vec, a: Vec, b: Vec, c: Vec, w: Vec)
    requires |p| == |a| == |b| == |c| == |w|
    requires forall k :: 0 <= k < |p| ==> p[k] == a[k] + b[k] + c[k]
    ensures Dot(p, w) == Dot(a, w) + Dot(b, w) + Dot(c, w)
  {
    if |p| > 0 {
      var k := |p| - 1;
      DotSum3(p[..k], a[..k], b[..k], c[..k], w[..k]);
      hide Dot;
      DotLast(p, w, p[..k], w[..k]);
      DotLast(a, w, a[..k], w[..k]);
      DotLast(b, w, b[..k], w[..k]);
      DotLast(c, w, c[..k], w[..k]);
      TermsAdd(p[k], a[k], b[k], c[k], w[k]);
    }
  }

  lemma {:induction false} TermsAdd(p: real, x: real, y: real, z: real, w: real)
    requires p == x + y + z
    ensures p * w == x * w + y * w + z * w
  {
  }

  /** A combination of three vectors has the same combination of dot products. */
  lemma {:induction false} DotCombination(p: Vec, a: Vec, b: Vec, c: Vec, u: real, v: real, z: real, w: Vec)
    requires |p| == |a| == |b| == |c| == |w|
    requires forall k :: 0 <= k < |p| ==> p[k] == u * a[k] + v * b[k] + z * c[k]
    ensures Dot(p, w) == u * Dot(a, w) + v * Dot(b, w) + z * Dot(c, w)
  {
    hide Dot;
    DotSum3(p, ScaledVec(u, a), ScaledVec(v, b), ScaledVec(z, c), w);
    DotScaled(u, a, w);
    DotScaled(v, b, w);
    DotScaled(z, c, w);
  }

  /** The squared length of a difference. */
  lemma {:induction false} DotDifference(r: Vec, s: Vec)
    requires |r| == |s|
    ensures Dot(SubScaled(r, 1.0, s), SubScaled(r, 1.0, s)) == Dot(r, r) - 2.0 * Dot(s, r) + Dot(s, s)
  {
    var d := SubScaled(r, 1.0, s);
    DotSubScaled(r, 1.0, s, d);
    DotSymmetric(r, d);
    DotSymmetric(s, d);
    DotSubScaled(r, 1.0, s, r);
    DotSubScaled(r, 1.0, s, s);
    DotSymmetric(r, s);
  }

  lemma {:induction false} Dot3(a: Vec, b: Vec)
    requires |a| == |b| == 3
    ensures Dot(a, b) == a[0] * b[0] + a[1] * b[1] + a[2] * b[2]
  {
    assert Dot(a[..2], b[..2]) == Dot(a[..2][..1], b[..2][..1]) + a[1] * b[1];
    assert Dot(a[..2][..1], b[..2][..1]) == a[0] * b[0];
  }
}
