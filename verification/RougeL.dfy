/** ROUGE-L by a two-row dynamic program (bench/tasks/rouge_l.py). */
module RougeL {
  import opened Basics

  type Tokens = seq<string>

  // ------------------------------------------------------------ what it is for

  /** `at` picks out `c` from `a`, left to right. */
  ghost predicate Embeds(c: Tokens, a: Tokens, at: seq<nat>) {
    && |at| == |c|
    && (forall k :: 0 <= k < |c| ==> at[k] < |a| && a[at[k]] == c[k])
    && (forall j, k :: 0 <= j < k < |c| ==> at[j] < at[k])
  }

  ghost predicate Subsequence(c: Tokens, a: Tokens) {
    exists at: seq<nat> :: Embeds(c, a, at)
  }

  ghost predicate Common(c: Tokens, a: Tokens, b: Tokens) {
    Subsequence(c, a) && Subsequence(c, b)
  }

  // ------------------------------------------------------------ the full table

  function Lcs(a: Tokens, b: Tokens): nat
    decreases |a| + |b|
  {
    if a == [] || b == [] then 0
    else if a[|a| - 1] == b[|b| - 1] then Lcs(a[..|a| - 1], b[..|b| - 1]) + 1
    else Max(Lcs(a[..|a| - 1], b), Lcs(a, b[..|b| - 1]))
  }

  /** Two rolling rows compute the same last cell as the whole table. */
  method LcsLength(target: Tokens, prediction: Tokens) returns (length: nat)
    ensures length == Lcs(target, prediction)
  {
    if target == [] || prediction == [] {
      return 0;
    }
    var n := |prediction|;
    var previous: seq<nat> := seq(n + 1, _ => 0);
    for i := 0 to |target|
      invariant |previous| == n + 1
      invariant forall j :: 0 <= j <= n ==> previous[j] == Lcs(target[..i], prediction[..j])
    {
      var current: seq<nat> := [0];
      for j := 1 to n + 1
        invariant |current| == j
        invariant forall k :: 0 <= k < j ==> current[k] == Lcs(target[..i + 1], prediction[..k])
      {
        assert target[..i + 1][..i] == target[..i];
        assert prediction[..j][..j - 1] == prediction[..j - 1];
        if target[i] == prediction[j - 1] {
          current := current + [previous[j - 1] + 1];
        } else {
          current := current + [Max(previous[j], current[j - 1])];
        }
      }
      previous := current;
    }
    assert target[..|target|] == target && prediction[..n] == prediction;
    length := previous[n];
  }

  // ------------------------------------------------------------ the table is optimal

  lemma {:induction false} DropLast(c: Tokens, a: Tokens, at: seq<nat>)
    requires Embeds(c, a, at) && c != []
    ensures a != [] && Embeds(c[..|c| - 1], a[..|a| - 1], at[..|c| - 1])
  {
    assert at[|c| - 1] < |a|;
  }

  lemma {:induction false} SkipLast(c: Tokens, a: Tokens, at: seq<nat>)
    requires Embeds(c, a, at) && a != [] && (c == [] || at[|c| - 1] != |a| - 1)
    ensures Embeds(c, a[..|a| - 1], at)
  {
    forall k | 0 <= k < |c| ensures at[k] < |a| - 1 {
      assert k < |c| - 1 ==> at[k] < at[|c| - 1];
    }
  }

  /** No common subsequence is longer. */
  lemma {:induction false} LcsIsUpperBound(a: Tokens, b: Tokens, c: Tokens)
    requires Common(c, a, b)
    ensures |c| <= Lcs(a, b)
    decreases |a| + |b|
  {
    if c != [] {
      var p: seq<nat> :| Embeds(c, a, p);
      var q: seq<nat> :| Embeds(c, b, q);
      DropLast(c, a, p);
      DropLast(c, b, q);
      if a[|a| - 1] == b[|b| - 1] {
        LcsIsUpperBound(a[..|a| - 1], b[..|b| - 1], c[..|c| - 1]);
      } else if p[|c| - 1] != |a| - 1 {
        SkipLast(c, a, p);
        LcsIsUpperBound(a[..|a| - 1], b, c);
      } else {
        SkipLast(c, b, q);
        LcsIsUpperBound(a, b[..|b| - 1], c);
      }
    }
  }

  lemma {:induction false} Widen(c: Tokens, a: Tokens, k: nat)
    requires k <= |a| && Subsequence(c, a[..k])
    ensures Subsequence(c, a)
  {
    var at: seq<nat> :| Embeds(c, a[..k], at);
    assert Embeds(c, a, at);
  }

  lemma {:induction false} ExtendLast(c: Tokens, a: Tokens)
    requires a != [] && Subsequence(c, a[..|a| - 1])
    ensures Subsequence(c + [a[|a| - 1]], a)
  {
    var at: seq<nat> :| Embeds(c, a[..|a| - 1], at);
    assert Embeds(c + [a[|a| - 1]], a, at + [|a| - 1]);
  }

  /** Some common subsequence has exactly that length. */
  lemma {:induction false} LcsIsAttained(a: Tokens, b: Tokens) returns (c: Tokens)
    ensures Common(c, a, b) && |c| == Lcs(a, b)
    decreases |a| + |b|
  {
    if a == [] || b == [] {
      c := [];
      assert Embeds([], a, []) && Embeds([], b, []);
    } else if a[|a| - 1] == b[|b| - 1] {
      c := LcsIsAttained(a[..|a| - 1], b[..|b| - 1]);
      ExtendLast(c, a);
      ExtendLast(c, b);
      c := c + [a[|a| - 1]];
    } else if Lcs(a[..|a| - 1], b) >= Lcs(a, b[..|b| - 1]) {
      c := LcsIsAttained(a[..|a| - 1], b);
      Widen(c, a, |a| - 1);
    } else {
      c := LcsIsAttained(a, b[..|b| - 1]);
      Widen(c, b, |b| - 1);
    }
  }

  lemma {:induction false} LcsSymmetric(a: Tokens, b: Tokens)
    ensures Lcs(a, b) == Lcs(b, a)
  {
    var c := LcsIsAttained(a, b);
    LcsIsUpperBound(b, a, c);
    var d := LcsIsAttained(b, a);
    LcsIsUpperBound(a, b, d);
  }

  lemma {:induction false} PositionsGrow(c: Tokens, a: Tokens, at: seq<nat>, k: nat)
    requires Embeds(c, a, at) && k < |c|
    ensures k <= at[k] && at[k] + |c| - k <= |a|
    decreases |c| - k
  {
    if k + 1 < |c| {
      PositionsGrow(c, a, at, k + 1);
    }
    PositionsFromLeft(c, a, at, k);
  }

  lemma {:induction false} PositionsFromLeft(c: Tokens, a: Tokens, at: seq<nat>, k: nat)
    requires Embeds(c, a, at) && k < |c|
    ensures k <= at[k]
  {
    if k > 0 {
      PositionsFromLeft(c, a, at, k - 1);
    }
  }

  /** A subsequence is no longer than the list, and as long only if it is the list. */
  lemma {:induction false} SubsequenceLength(c: Tokens, a: Tokens)
    requires Subsequence(c, a)
    ensures |c| <= |a| && (|c| == |a| ==> c == a)
  {
    var at: seq<nat> :| Embeds(c, a, at);
    if c != [] {
      PositionsGrow(c, a, at, 0);
      forall k | 0 <= k < |c| && |c| == |a| ensures c[k] == a[k] {
        PositionsGrow(c, a, at, k);
      }
    }
  }

  lemma {:induction false} LcsOfSelf(a: Tokens)
    ensures Lcs(a, a) == |a|
  {
    if a != [] {
      LcsOfSelf(a[..|a| - 1]);
    }
  }

  lemma {:induction false} LcsBounds(a: Tokens, b: Tokens)
    ensures Lcs(a, b) <= |a| && Lcs(a, b) <= |b|
    ensures Lcs(a, b) == |a| == |b| <==> a == b
  {
    var c := LcsIsAttained(a, b);
    SubsequenceLength(c, a);
    SubsequenceLength(c, b);
    LcsOfSelf(a);
  }

  // ------------------------------------------------------------ the F-measure

  /** F = 2PR / (P + R), from the two lengths and that of the common subsequence. */
  function HarmonicF(lcs: nat, target: nat, prediction: nat): real
    requires target > 0 && prediction > 0
  {
    var precision, recall := lcs as real / prediction as real, lcs as real / target as real;
    if precision + recall == 0.0 then 0.0
    else 2.0 * precision * recall / (precision + recall)
  }

  function FMeasure(target: Tokens, prediction: Tokens): real {
    if target == [] || prediction == [] then 0.0
    else HarmonicF(Lcs(target, prediction), |target|, |prediction|)
  }

  method RougeLFMeasure(target: string, prediction: string, tokenize: string -> Tokens) returns (f: real)
    ensures f == FMeasure(tokenize(target), tokenize(prediction))
  {
    var t, p := tokenize(target), tokenize(prediction);
    if t == [] || p == [] {
      return 0.0;
    }
    var length := LcsLength(t, p);
    f := HarmonicF(length, |t|, |p|);
  }

  /** Over exact arithmetic the harmonic mean collapses to 2 * lcs / (m + n). */
  lemma {:induction false} HarmonicMean(l: real, m: real, n: real)
    requires l > 0.0 && m > 0.0 && n > 0.0
    ensures l / n + l / m > 0.0
    ensures 2.0 * (l / n) * (l / m) / (l / n + l / m) == 2.0 * l / (m + n)
  {
    var p, r := l / n, l / m;
    assert p * n == l && r * m == l;
    Quotient(p, n, l);
    Quotient(r, m, l);
    var f := 2.0 * l / (m + n);
    assert f * (m + n) == 2.0 * l;
    CrossMultiply(p, r, l, m, n, f);
    assert f == 2.0 * p * r / (p + r) by {
      DivideBack(f, p + r, 2.0 * p * r);
    }
  }

  lemma {:induction false} Quotient(q: real, d: real, x: real)
    requires d > 0.0 && x > 0.0 && q * d == x
    ensures q > 0.0
  {
    MulKeepsOrder(d, 0.0, q);
  }

  lemma {:induction false} CrossMultiply(p: real, r: real, l: real, m: real, n: real, f: real)
    requires p * n == l && r * m == l && f * (m + n) == 2.0 * l && m > 0.0 && n > 0.0
    ensures f * (p + r) == 2.0 * p * r
  {
    var mn := m * n;
    MulPositive(m, n, mn);
    assert p * mn == l * m by { assert p * (m * n) == (p * n) * m; }
    assert r * mn == l * n by { assert r * (m * n) == (r * m) * n; }
    assert (f * (p + r)) * mn == f * (p * mn + r * mn) == f * (l * m + l * n) == l * (f * (m + n)) == 2.0 * l * l;
    assert (2.0 * p * r) * mn == 2.0 * ((p * n) * (r * m)) == 2.0 * l * l;
    Cancel(f * (p + r), 2.0 * p * r, mn);
  }

  lemma {:induction false} MulPositive(m: real, n: real, mn: real)
    requires m > 0.0 && n > 0.0 && mn == m * n
    ensures mn > 0.0
  {
  }

  lemma {:induction false} Cancel(x: real, y: real, d: real)
    requires d > 0.0 && x * d == y * d
    ensures x == y
  {
    MulKeepsOrder(d, x, y);
    MulKeepsOrder(d, y, x);
  }

  lemma {:induction false} DivideBack(f: real, d: real, x: real)
    requires d != 0.0 && f * d == x
    ensures x / d == f
  {
  }

  /** The F-measure is the Dice coefficient of the longest common subsequence. */
  lemma {:induction false} FMeasureIsDice(t: Tokens, p: Tokens)
    requires t != [] && p != []
    ensures FMeasure(t, p) == 2.0 * Lcs(t, p) as real / (|t| + |p|) as real
  {
    var l, m, n := Lcs(t, p) as real, |t| as real, |p| as real;
    if Lcs(t, p) > 0 {
      HarmonicMean(l, m, n);
    }
  }

  /** It lies in [0, 1], does not depend on the order of its arguments, and is 1 exactly for equal
      non-empty token lists. */
  lemma {:induction false} FMeasureLaws(t: Tokens, p: Tokens)
    ensures 0.0 <= FMeasure(t, p) <= 1.0
    ensures FMeasure(t, p) == FMeasure(p, t)
    ensures FMeasure(t, p) == 1.0 <==> t != [] && t == p
    ensures FMeasure(t, p) == 0.0 <==> forall x :: x in t ==> x !in p
  {
    if t != [] && p != [] {
      FMeasureIsDice(t, p);
      FMeasureIsDice(p, t);
      LcsSymmetric(t, p);
      LcsBounds(t, p);
      SharedToken(t, p);
      var l, s := 2 * Lcs(t, p), |t| + |p|;
      RatioFacts(l, s);
      assert l as real == 2.0 * Lcs(t, p) as real;
      assert l == s <==> t == p;
    }
  }

  lemma {:induction false} RatioFacts(l: nat, s: nat)
    requires l <= s && s > 0
    ensures 0.0 <= l as real / s as real <= 1.0
    ensures l as real / s as real == 1.0 <==> l == s
    ensures l as real / s as real == 0.0 <==> l == 0
  {
    FractionOfRise(l as real, s as real, 0.0);
    assert (l as real / s as real) * s as real == l as real;
  }

  /** The lists share a token exactly when they have a common subsequence worth counting. */
  lemma {:induction false} SharedToken(t: Tokens, p: Tokens)
    ensures Lcs(t, p) == 0 <==> forall x :: x in t ==> x !in p
  {
    if x :| x in t && x in p {
      var i :| 0 <= i < |t| && t[i] == x;
      var j :| 0 <= j < |p| && p[j] == x;
      assert Embeds([x], t, [i]) && Embeds([x], p, [j]);
      LcsIsUpperBound(t, p, [x]);
    }
    var c := LcsIsAttained(t, p);
    if c != [] {
      var at: seq<nat> :| Embeds(c, t, at);
      var bt: seq<nat> :| Embeds(c, p, bt);
      assert t[at[0]] == c[0] == p[bt[0]];
      assert c[0] in t && c[0] in p;
    }
  }
}
