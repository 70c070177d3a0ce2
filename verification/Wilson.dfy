/** The Wilson score interval on accuracy (bench/metrics/stats.py), over exact reals.  The square
    root enters as a number whose square is the radicand. */
module Wilson {
  import opened Basics

  function MaxReal(a: real, b: real): real {
    if a < b then b else a
  }

  function MinReal(a: real, b: real): real {
    if b < a then b else a
  }

  /** phat, and z squared over n: the two quantities the interval depends on. */
  function Phat(nCorrect: int, nScored: int): real
    requires nScored > 0
  {
    nCorrect as real / nScored as real
  }

  function Shrink(z: real, nScored: int): real
    requires nScored > 0
  {
    z * z / nScored as real
  }

  function Radicand(nCorrect: int, nScored: int, z: real): real
    requires nScored > 0
  {
    var n, phat := nScored as real, Phat(nCorrect, nScored);
    phat * (1.0 - phat) / n + z * z / (4.0 * (n * n))
  }

  /** The unclamped bounds; `root` is the square root of the radicand. */
  function RawBounds(nCorrect: int, nScored: int, z: real, root: real): (real, real)
    requires nScored > 0 && 1.0 + Shrink(z, nScored) != 0.0
  {
    var phat, a := Phat(nCorrect, nScored), Shrink(z, nScored);
    var denom, center, margin := 1.0 + a, phat + a / 2.0, z * root;
    ((center - margin) / denom, (center + margin) / denom)
  }

  function Clamped(b: (real, real)): (real, real) {
    (MaxReal(0.0, b.0), MinReal(1.0, b.1))
  }

  lemma {:induction false} ShrinkPositive(z: real, n: int)
    requires z > 0.0 && n > 0
    ensures Shrink(z, n) > 0.0
  {
    ScaleStrict(z, z, z * z);
    DivPositive(z * z, n as real);
  }

  lemma {:induction false} ScaleStrict(x: real, y: real, xy: real)
    requires x > 0.0 && y > 0.0 && xy == x * y
    ensures xy > 0.0
  {
  }

  lemma {:induction false} DivPositive(x: real, d: real)
    requires x > 0.0 && d > 0.0
    ensures x / d > 0.0
  {
    var q := x / d;
    assert d * q == x;
    MulKeepsOrder(d, 0.0, q);
  }

  // ------------------------------------------------------------ what the interval means

  /** The score test: `p` is compatible with the observed proportion at critical value z. */
  predicate Compatible(p: real, phat: real, a: real) {
    (phat - p) * (phat - p) <= a * (p * (1.0 - p))
  }

  /** Completing the square. */
  lemma {:induction false} CompatibleIsQuadratic(p: real, phat: real, a: real, margin: real)
    requires a > 0.0 && margin * margin == a * (phat * (1.0 - phat)) + a * a / 4.0
    ensures
      var t := (1.0 + a) * p - (phat + a / 2.0);
      Compatible(p, phat, a) <==> t * t <= margin * margin
  {
    var d, c := 1.0 + a, phat + a / 2.0;
    var t := d * p - c;
    var gap := a * (p * (1.0 - p)) - (phat - p) * (phat - p);
    Square(p, phat, a);
    assert margin * margin - t * t == d * gap;
    MulKeepsOrder(d, gap, 0.0);
  }

  lemma {:induction false} Square(p: real, phat: real, a: real)
    ensures
      var d, c := 1.0 + a, phat + a / 2.0;
      var t := d * p - c;
      a * (phat * (1.0 - phat)) + a * a / 4.0 - t * t == d * (a * (p * (1.0 - p)) - (phat - p) * (phat - p))
  {
  }

  lemma {:induction false} SquareOrder(t: real, m: real, tt: real, mm: real)
    requires m >= 0.0 && tt == t * t && mm == m * m
    ensures tt <= mm <==> -m <= t <= m
  {
    var u := if t < 0.0 then -t else t;
    assert tt == u * u;
    if u < m {
      SquareGrows(u, m, tt, mm);
    } else if m < u {
      SquareGrows(m, u, mm, tt);
    }
  }

  lemma {:induction false} SquareGrows(x: real, y: real, xx: real, yy: real)
    requires 0.0 <= x < y && xx == x * x && yy == y * y
    ensures xx < yy
  {
    ScaleStrict(y - x, y + x, (y - x) * (y + x));
    assert (y - x) * (y + x) == yy - xx;
  }

  lemma {:induction false} DivideBound(d: real, p: real, x: real)
    requires d > 0.0
    ensures x <= d * p <==> x / d <= p
    ensures d * p <= x <==> p <= x / d
  {
    assert d * (x / d) == x;
    MulKeepsOrder(d, x / d, p);
    MulKeepsOrder(d, p, x / d);
  }

  /** z squared times the radicand, in terms of phat and a. */
  lemma {:induction false} MarginSquared(zz: real, n: real, x: real, a: real, u: real, v: real)
    requires n > 0.0 && a * n == zz && u * n == x && v * (4.0 * (n * n)) == zz
    ensures zz * (u + v) == a * x + a * a / 4.0
  {
    assert zz * u == a * x by {
      assert a * n * u == a * (u * n);
    }
    CancelFactor(n, a, 4.0 * (v * n)) by {
      assert a * n == 4.0 * (v * n) * n by {
        assert v * (4.0 * (n * n)) == 4.0 * (v * n) * n;
      }
    }
    assert zz * v == a * a / 4.0 by {
      assert a * n * v == a * (v * n);
    }
  }

  lemma {:induction false} CancelFactor(n: real, x: real, y: real)
    requires n > 0.0 && x * n == y * n
    ensures x == y
  {
    MulKeepsOrder(n, x, y);
    MulKeepsOrder(n, y, x);
  }

  ghost predicate IsRoot(nCorrect: int, nScored: int, z: real, root: real)
    requires nScored > 0
  {
    root >= 0.0 && root * root == Radicand(nCorrect, nScored, z)
  }

  lemma {:induction false} RootMargin(nCorrect: int, nScored: int, z: real, root: real)
    requires nScored > 0 && z > 0.0 && IsRoot(nCorrect, nScored, z, root)
    ensures
      var phat, a, margin := Phat(nCorrect, nScored), Shrink(z, nScored), z * root;
      && margin >= 0.0
      && margin * margin == a * (phat * (1.0 - phat)) + a * a / 4.0
  {
    var n, phat, a, margin := nScored as real, Phat(nCorrect, nScored), Shrink(z, nScored), z * root;
    var x, zz := phat * (1.0 - phat), z * z;
    var nn := 4.0 * (n * n);
    ScaleStrict(n, n, n * n);
    var u, v := x / n, zz / nn;
    assert v * nn == zz;
    MarginSquared(zz, n, x, a, u, v);
    assert margin * margin == zz * (root * root);
    ScaleKeepsOrder(z, 0.0, root, 0.0, margin);
  }

  lemma {:induction false} InsideIffCompatible(nCorrect: int, nScored: int, z: real, root: real, p: real)
    requires nScored > 0 && z > 0.0 && IsRoot(nCorrect, nScored, z, root)
    ensures 1.0 + Shrink(z, nScored) > 0.0
    ensures RawBounds(nCorrect, nScored, z, root).0 <= p <= RawBounds(nCorrect, nScored, z, root).1 <==>
      Compatible(p, Phat(nCorrect, nScored), Shrink(z, nScored))
  {
    ShrinkPositive(z, nScored);
    RootMargin(nCorrect, nScored, z, root);
    BoundsMeaning(p, Phat(nCorrect, nScored), Shrink(z, nScored), z * root);
  }

  /** The unclamped interval is exactly the set of proportions the score test does not reject: those
      whose squared distance to the share of correct answers is at most z squared times p (1 - p) / n. */
  lemma {:induction false} IntervalInvertsScoreTest(nCorrect: int, nScored: int, z: real, root: real, p: real)
    requires nScored > 0 && z > 0.0 && IsRoot(nCorrect, nScored, z, root)
    ensures 1.0 + Shrink(z, nScored) > 0.0
    ensures
      var (low, high) := RawBounds(nCorrect, nScored, z, root);
      var share := nCorrect as real / nScored as real;
      low <= p <= high <==> (share - p) * (share - p) <= (z * z / nScored as real) * (p * (1.0 - p))
  {
    hide RawBounds, IsRoot;
    InsideIffCompatible(nCorrect, nScored, z, root, p);
    ScoreTestSpelled(nCorrect, nScored, z, p);
    hide Compatible, Phat, Shrink;
  }

  lemma {:induction false} ScoreTestSpelled(nCorrect: int, nScored: int, z: real, p: real)
    requires nScored > 0
    ensures
      var share := nCorrect as real / nScored as real;
      Compatible(p, Phat(nCorrect, nScored), Shrink(z, nScored)) <==>
        (share - p) * (share - p) <= (z * z / nScored as real) * (p * (1.0 - p))
  {
  }

  lemma {:induction false} BoundsMeaning(p: real, phat: real, a: real, margin: real)
    requires a > 0.0 && margin >= 0.0 && margin * margin == a * (phat * (1.0 - phat)) + a * a / 4.0
    ensures
      var d, c := 1.0 + a, phat + a / 2.0;
      (c - margin) / d <= p <= (c + margin) / d <==> Compatible(p, phat, a)
  {
    hide Compatible;
    var d, c := 1.0 + a, phat + a / 2.0;
    var dp := d * p;
    var t := dp - c;
    CompatibleIsQuadratic(p, phat, a, margin);
    SquareOrder(t, margin, t * t, margin * margin);
    DivideBound(d, p, c - margin);
    DivideBound(d, p, c + margin);
  }

  lemma {:induction false} CompatibleInUnit(p: real, phat: real, a: real)
    requires a > 0.0 && Compatible(p, phat, a)
    ensures 0.0 <= p <= 1.0
  {
    var q, w := (phat - p) * (phat - p), p * (1.0 - p);
    SquareNonnegative(phat - p, q);
    MulKeepsOrder(a, w, 0.0);
    SignOfProduct(p, 1.0 - p, w);
  }

  lemma {:induction false} SquareNonnegative(x: real, q: real)
    requires q == x * x
    ensures q >= 0.0
  {
  }

  lemma {:induction false} SignOfProduct(x: real, y: real, w: real)
    requires w == x * y && w >= 0.0 && x + y == 1.0
    ensures x >= 0.0 && y >= 0.0
  {
    if x < 0.0 {
      MulKeepsOrder(y, x, 0.0);
    } else if y < 0.0 {
      MulKeepsOrder(x, y, 0.0);
    }
  }

  lemma {:induction false} ObservedIsCompatible(phat: real, a: real)
    requires a > 0.0 && 0.0 <= phat <= 1.0
    ensures Compatible(phat, phat, a)
  {
    ScaleKeepsOrder(phat, 0.0, 1.0 - phat, 0.0, phat * (1.0 - phat));
    ScaleKeepsOrder(a, 0.0, phat * (1.0 - phat), 0.0, a * (phat * (1.0 - phat)));
  }

  /** For any score the bounds bracket the observed proportion inside [0, 1]; the clamps are there
      for rounding only and never change an exact value. */
  lemma {:induction false} WilsonBounds(nCorrect: int, nScored: int, z: real, root: real)
    requires 0 <= nCorrect <= nScored && nScored > 0 && z > 0.0 && IsRoot(nCorrect, nScored, z, root)
    ensures 1.0 + Shrink(z, nScored) > 0.0
    ensures
      var (low, high) := RawBounds(nCorrect, nScored, z, root);
      0.0 <= low <= nCorrect as real / nScored as real <= high <= 1.0
    ensures Clamped(RawBounds(nCorrect, nScored, z, root)) == RawBounds(nCorrect, nScored, z, root)
  {
    var phat, a := Phat(nCorrect, nScored), Shrink(z, nScored);
    assert phat == nCorrect as real / nScored as real;
    ShrinkPositive(z, nScored);
    DivKeepsOrder(0.0, nCorrect as real, nScored as real);
    DivKeepsOrder(nCorrect as real, nScored as real, nScored as real);
    var (low, high) := RawBounds(nCorrect, nScored, z, root);
    ObservedIsCompatible(phat, a);
    InsideIffCompatible(nCorrect, nScored, z, root, phat);
    InsideIffCompatible(nCorrect, nScored, z, root, low);
    InsideIffCompatible(nCorrect, nScored, z, root, high);
    CompatibleInUnit(low, phat, a);
    CompatibleInUnit(high, phat, a);
    hide Compatible, RawBounds, Shrink, Phat;
  }

  /** `root` is the square root the source takes.  The bounds returned are exactly the end points of
      the set of proportions the score test does not reject. */
  method AccuracyCi(nCorrect: int, nScored: int, z: real, root: real) returns (ci: Option<(real, real)>)
    requires z > 0.0 && (nScored > 0 ==> IsRoot(nCorrect, nScored, z, root))
    ensures ci.Some? <==> nScored > 0
    ensures ci.Some? ==> 1.0 + Shrink(z, nScored) > 0.0 && ci.value == Clamped(RawBounds(nCorrect, nScored, z, root))
    ensures ci.Some? && 0 <= nCorrect <= nScored ==>
      && 0.0 <= ci.value.0 <= nCorrect as real / nScored as real <= ci.value.1 <= 1.0
      && forall p :: ci.value.0 <= p <= ci.value.1 <==> Compatible(p, Phat(nCorrect, nScored), Shrink(z, nScored))
  {
    if nScored <= 0 {
      return None;
    }
    ShrinkPositive(z, nScored);
    var raw := RawBounds(nCorrect, nScored, z, root);
    ci := Some(Clamped(raw));
    hide RawBounds, Compatible, Shrink, Phat, Clamped;
    if 0 <= nCorrect <= nScored {
      WilsonBounds(nCorrect, nScored, z, root);
      forall p ensures raw.0 <= p <= raw.1 <==> Compatible(p, Phat(nCorrect, nScored), Shrink(z, nScored)) {
        InsideIffCompatible(nCorrect, nScored, z, root, p);
      }
    }
  }
}
