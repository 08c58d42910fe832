// Lagrange interpolation at zero. In characteristic 2 the weight of point i is the product of
// x_j / (x_i + x_j) over the other points.

module Interpolation {
  import opened Lists
  import opened Field
  import opened Inverses
  import opened Polynomials

  // The product of x_j over j < m, j != i.
  function Numerator(xs: seq<byte>, i: nat, m: nat): byte
    requires i < |xs| && m <= |xs|
  {
    if m == 0 then 1
    else if m - 1 == i then Numerator(xs, i, m - 1)
    else Mul(Numerator(xs, i, m - 1), xs[m - 1])
  }

  // The product of x_i + x_j over j < m, j != i.
  function Denominator(xs: seq<byte>, i: nat, m: nat): byte
    requires i < |xs| && m <= |xs|
  {
    if m == 0 then 1
    else if m - 1 == i then Denominator(xs, i, m - 1)
    else Mul(Denominator(xs, i, m - 1), Add(xs[i], xs[m - 1]))
  }

  lemma {:induction false} DenominatorNonZero(xs: seq<byte>, i: nat, m: nat)
    requires Distinct(xs) && i < |xs| && m <= |xs|
    ensures Denominator(xs, i, m) != 0
  {
    if m == 0 {
    } else {
      DenominatorNonZero(xs, i, m - 1);
      AddCancels(xs[i], xs[m - 1]);
      ProductIsZero(Denominator(xs, i, m - 1), Add(xs[i], xs[m - 1]));
    }
  }

  lemma {:induction false} NumeratorNonZero(xs: seq<byte>, i: nat, m: nat)
    requires i < |xs| && m <= |xs| && 0 !in xs
    ensures Numerator(xs, i, m) != 0
  {
    if m == 0 {
    } else {
      NumeratorNonZero(xs, i, m - 1);
      ProductIsZero(Numerator(xs, i, m - 1), xs[m - 1]);
    }
  }

  ghost function Weight(xs: seq<byte>, i: nat): byte
    requires Distinct(xs) && i < |xs|
  {
    DenominatorNonZero(xs, i, |xs|);
    Divide(Numerator(xs, i, |xs|), Denominator(xs, i, |xs|))
  }

  lemma WeightNonZero(xs: seq<byte>, i: nat)
    requires Distinct(xs) && i < |xs| && 0 !in xs
    ensures Weight(xs, i) != 0
  {
    NumeratorNonZero(xs, i, |xs|);
    DenominatorNonZero(xs, i, |xs|);
    InverseIsCorrect(Denominator(xs, i, |xs|));
    ProductIsZero(Numerator(xs, i, |xs|), Inverse(Denominator(xs, i, |xs|)));
  }

  // ---------- adding a point multiplies a weight by x / (x_i + x) ----------

  lemma {:induction false} ProductsOfPrefix(xs: seq<byte>, ps: seq<byte>, i: nat, m: nat)
    requires ps <= xs && i < |ps| && m <= |ps|
    ensures Numerator(xs, i, m) == Numerator(ps, i, m)
    ensures Denominator(xs, i, m) == Denominator(ps, i, m)
  {
    if m == 0 {
    } else {
      ProductsOfPrefix(xs, ps, i, m - 1);
    }
  }

  lemma {:induction false} ProductsOfSuffix(xs: seq<byte>, i: nat, m: nat)
    requires 0 < i < |xs| && m < |xs|
    ensures Numerator(xs, i, m + 1) == Mul(xs[0], Numerator(xs[1..], i - 1, m))
    ensures Denominator(xs, i, m + 1) == Mul(Add(xs[i], xs[0]), Denominator(xs[1..], i - 1, m))
  {
    var b, qs := xs[0], xs[1..];
    var d := Add(xs[i], b);
    if m == 0 {
      FirstProducts(xs, i);
      MulByUnit(b, Numerator(qs, i - 1, 0));
      MulByUnit(d, Denominator(qs, i - 1, 0));
    } else {
      ProductsOfSuffix(xs, i, m - 1);
      assert xs[m] == qs[m - 1] && xs[i] == qs[i - 1];
      if m != i {
        MulAssociates(b, Numerator(qs, i - 1, m - 1), xs[m]);
        MulAssociates(d, Denominator(qs, i - 1, m - 1), Add(xs[i], xs[m]));
      }
    }
  }

  lemma FirstProducts(xs: seq<byte>, i: nat)
    requires 0 < i < |xs|
    ensures Numerator(xs, i, 1) == xs[0] && Denominator(xs, i, 1) == Add(xs[i], xs[0])
  {
    OneMul(xs[0]);
    OneMul(Add(xs[i], xs[0]));
  }

  lemma WeightTimesDenominator(xs: seq<byte>, i: nat, w: byte, num: byte, den: byte)
    requires Distinct(xs) && i < |xs| && w == Weight(xs, i)
    requires num == Numerator(xs, i, |xs|) && den == Denominator(xs, i, |xs|)
    ensures Mul(w, den) == num && den != 0
  {
    DenominatorNonZero(xs, i, |xs|);
    DivideMul(num, den);
  }

  // If w == num / den and w' == (a * num) / (d * den), then w' * d == a * w.
  lemma ScaledQuotient(w: byte, num: byte, den: byte, a: byte, d: byte, w': byte)
    requires den != 0 && Mul(w, den) == num
    requires Mul(w', Mul(d, den)) == Mul(a, num)
    ensures Mul(w', d) == Mul(a, w)
  {
    MulAssociates(w', d, den);
    MulAssociates(a, w, den);
    MulCommutes(Mul(w', d), den);
    MulCommutes(Mul(a, w), den);
    MulCancels(den, Mul(w', d), Mul(a, w));
  }

  lemma ProductsDropLast(ps: seq<byte>, a: byte, i: nat) returns (num: byte, den: byte)
    requires i < |ps|
    ensures num == Numerator(ps, i, |ps|) && den == Denominator(ps, i, |ps|)
    ensures Numerator(ps + [a], i, |ps| + 1) == Mul(a, num)
    ensures Denominator(ps + [a], i, |ps| + 1) == Mul(Add(ps[i], a), den)
  {
    ProductsOfPrefix(ps + [a], ps, i, |ps|);
    num, den := Numerator(ps, i, |ps|), Denominator(ps, i, |ps|);
    MulCommutes(a, num);
    MulCommutes(Add(ps[i], a), den);
  }

  lemma WeightDropLast(ps: seq<byte>, a: byte, i: nat)
    requires Distinct(ps + [a]) && Distinct(ps) && i < |ps|
    ensures Mul(Weight(ps + [a], i), Add(ps[i], a)) == Mul(a, Weight(ps, i))
  {
    var w', w, d := Weight(ps + [a], i), Weight(ps, i), Add(ps[i], a);
    var num, den := ProductsDropLast(ps, a, i);
    WeightTimesDenominator(ps + [a], i, w', Mul(a, num), Mul(d, den));
    WeightTimesDenominator(ps, i, w, num, den);
    ScaledQuotient(w, num, den, a, d, w');
  }

  lemma WeightDropFirst(xs: seq<byte>, i: nat)
    requires Distinct(xs) && 0 < i < |xs|
    ensures Distinct(xs[1..])
    ensures Mul(Weight(xs, i), Add(xs[i], xs[0])) == Mul(xs[0], Weight(xs[1..], i - 1))
  {
    var n := |xs| - 1;
    DistinctTail(xs);
    ProductsOfSuffix(xs, i, n);
    WeightOfSuffix(xs, i, xs[1..], xs[0], Numerator(xs[1..], i - 1, n), Denominator(xs[1..], i - 1, n));
  }

  lemma DistinctTail(xs: seq<byte>)
    requires Distinct(xs) && xs != []
    ensures Distinct(xs[1..])
  {
  }

  lemma WeightOfSuffix(xs: seq<byte>, i: nat, qs: seq<byte>, b: byte, num: byte, den: byte)
    requires Distinct(xs) && Distinct(qs) && |qs| == |xs| - 1 && 0 < i < |xs|
    requires num == Numerator(qs, i - 1, |qs|) && den == Denominator(qs, i - 1, |qs|)
    requires Numerator(xs, i, |xs|) == Mul(b, num) && Denominator(xs, i, |xs|) == Mul(Add(xs[i], b), den)
    ensures Mul(Weight(xs, i), Add(xs[i], b)) == Mul(b, Weight(qs, i - 1))
  {
    var w', w, d := Weight(xs, i), Weight(qs, i - 1), Add(xs[i], b);
    WeightTimesDenominator(xs, i, w', Mul(b, num), Mul(d, den));
    WeightTimesDenominator(qs, i - 1, w, num, den);
    ScaledQuotient(w, num, den, b, d, w');
  }

  // ---------- sums ----------

  function Sum(ts: seq<byte>): byte {
    if ts == [] then 0 else Add(Sum(ts[..|ts| - 1]), ts[|ts| - 1])
  }

  lemma {:induction false} SumCombines(ts: seq<byte>, us: seq<byte>, vs: seq<byte>, a: byte, b: byte, c: byte)
    requires |ts| == |us| == |vs|
    requires forall i :: 0 <= i < |ts| ==> Mul(c, ts[i]) == Add(Mul(a, us[i]), Mul(b, vs[i]))
    ensures Mul(c, Sum(ts)) == Add(Mul(a, Sum(us)), Mul(b, Sum(vs)))
    decreases |ts|
  {
    if ts == [] {
      MulByZero(a, 0);
      MulByZero(b, 0);
      MulByZero(c, 0);
    } else {
      var n := |ts| - 1;
      SumCombines(ts[..n], us[..n], vs[..n], a, b, c);
      MulAddRight(c, Sum(ts[..n]), ts[n]);
      MulAddRight(a, Sum(us[..n]), us[n]);
      MulAddRight(b, Sum(vs[..n]), vs[n]);
      AddSwaps(Mul(a, Sum(us[..n])), Mul(b, Sum(vs[..n])), Mul(a, us[n]), Mul(b, vs[n]));
    }
  }

  lemma {:induction false} SumPadFirst(ts: seq<byte>)
    ensures Sum([0] + ts) == Sum(ts)
    decreases |ts|
  {
    if ts == [] {
      assert [0] + ts == [0];
    } else {
      var n := |ts| - 1;
      SumPadFirst(ts[..n]);
      assert ([0] + ts)[..n + 1] == [0] + ts[..n];
    }
  }

  lemma SumPadLast(ts: seq<byte>)
    ensures Sum(ts + [0]) == Sum(ts)
  {
    assert (ts + [0])[..|ts|] == ts;
  }

  // ---------- the interpolation formula ----------

  ghost function Weights(xs: seq<byte>): (ws: seq<byte>)
    requires Distinct(xs)
    ensures |ws| == |xs|
  {
    seq(|xs|, i requires 0 <= i < |xs| => Weight(xs, i))
  }

  ghost function Scaled(ys: seq<byte>, ws: seq<byte>): (ts: seq<byte>)
    requires |ys| == |ws|
    ensures |ts| == |ys|
  {
    seq(|ys|, i requires 0 <= i < |ys| => Mul(ys[i], ws[i]))
  }

  // The value at zero predicted from the points (xs[i], ys[i]).
  ghost function AtZero(xs: seq<byte>, ys: seq<byte>): byte
    requires Distinct(xs) && |xs| == |ys|
  {
    Sum(Scaled(ys, Weights(xs)))
  }

  ghost function Values(c: seq<byte>, xs: seq<byte>): (ys: seq<byte>)
    ensures |ys| == |xs|
  {
    seq(|xs|, i requires 0 <= i < |xs| => Eval(c, xs[i]))
  }

  // (a + b) w == a (pad of w without the last point) + b (pad of w without the first point)
  lemma WeightsSplit(xs: seq<byte>, i: nat)
    requires Distinct(xs) && |xs| > 1 && i < |xs|
    ensures Distinct(xs[1..])
    ensures var n := |xs| - 1;
            Mul(Add(xs[n], xs[0]), Weight(xs, i))
            == Add(Mul(xs[n], (Weights(xs[..n]) + [0])[i]), Mul(xs[0], ([0] + Weights(xs[1..]))[i]))
  {
    DistinctTail(xs);
    var n := |xs| - 1;
    var a, b, x, w := xs[n], xs[0], xs[i], Weight(xs, i);
    var p, q := (Weights(xs[..n]) + [0])[i], ([0] + Weights(xs[1..]))[i];
    WithoutLast(xs, i, w, p);
    WithoutFirst(xs, i, w, q);
    SplitFactor(w, x, a, b);
  }

  lemma WithoutLast(xs: seq<byte>, i: nat, w: byte, p: byte)
    requires Distinct(xs) && |xs| > 1 && i < |xs| && w == Weight(xs, i)
    requires p == (Weights(xs[..|xs| - 1]) + [0])[i]
    ensures Mul(w, Add(xs[i], xs[|xs| - 1])) == Mul(xs[|xs| - 1], p)
  {
    var n := |xs| - 1;
    if i < n {
      assert xs[..n] + [xs[n]] == xs;
      WeightDropLast(xs[..n], xs[n], i);
    } else {
      OwnFactor(w, xs[n], p);
    }
  }

  lemma WithoutFirst(xs: seq<byte>, i: nat, w: byte, q: byte)
    requires Distinct(xs) && |xs| > 1 && i < |xs| && w == Weight(xs, i)
    requires Distinct(xs[1..]) && q == ([0] + Weights(xs[1..]))[i]
    ensures Mul(w, Add(xs[i], xs[0])) == Mul(xs[0], q)
  {
    if i > 0 { WeightDropFirst(xs, i); } else { OwnFactor(w, xs[0], q); }
  }

  lemma OwnFactor(w: byte, a: byte, z: byte)
    requires z == 0
    ensures Mul(w, Add(a, a)) == Mul(a, z)
  {
    AddSelf(a);
    MulByZero(w, Add(a, a));
    MulByZero(a, z);
  }

  lemma SplitFactor(w: byte, x: byte, a: byte, b: byte)
    ensures Mul(Add(a, b), w) == Add(Mul(w, Add(x, a)), Mul(w, Add(x, b)))
  {
    MulAddRight(w, Add(x, a), Add(x, b));
    AddSwaps(x, a, x, b);
    AddSelf(x);
    MulCommutes(w, Add(a, b));
  }

  lemma {:induction false} WeightsSumToOne(xs: seq<byte>)
    requires Distinct(xs) && xs != []
    ensures Sum(Weights(xs)) == 1
    decreases |xs|
  {
    if |xs| == 1 {
      SingleWeight(xs);
    } else {
      var n := |xs| - 1;
      var a, b := xs[n], xs[0];
      var us, vs := Weights(xs[..n]) + [0], [0] + Weights(xs[1..]);
      WeightsSumToOne(xs[..n]);
      WeightsSumToOne(xs[1..]);
      SumPadLast(Weights(xs[..n]));
      SumPadFirst(Weights(xs[1..]));
      forall i | 0 <= i < |xs|
        ensures Mul(Add(a, b), Weights(xs)[i]) == Add(Mul(a, us[i]), Mul(b, vs[i]))
      {
        WeightsSplit(xs, i);
      }
      SumCombines(Weights(xs), us, vs, a, b, Add(a, b));
      FactorOut(a, b, Sum(us), Sum(vs), Sum(Weights(xs)));
    }
  }

  lemma FactorOut(a: byte, b: byte, u: byte, v: byte, s: byte)
    requires u == 1 && v == 1 && a != b
    requires Mul(Add(a, b), s) == Add(Mul(a, u), Mul(b, v))
    ensures s == 1
  {
    MulByUnit(a, u);
    MulByUnit(b, v);
    AddCancels(a, b);
    MulByUnit(Add(a, b), u);
    MulCancels(Add(a, b), s, u);
  }

  lemma SingleWeight(xs: seq<byte>)
    requires |xs| == 1
    ensures Distinct(xs) && Sum(Weights(xs)) == 1
  {
    var n := |xs|;
    DenominatorNonZero(xs, 0, n);
    EmptyProducts(xs, n);
    QuotientOfUnits(Numerator(xs, 0, n), Denominator(xs, 0, n));
    SumOfOne(Weights(xs));
  }

  lemma EmptyProducts(xs: seq<byte>, n: nat)
    requires |xs| == n == 1
    ensures Numerator(xs, 0, n) == 1 && Denominator(xs, 0, n) == 1
  {
    assert Numerator(xs, 0, n - 1) == 1 && Denominator(xs, 0, n - 1) == 1;
  }

  lemma QuotientOfUnits(u: byte, v: byte)
    requires u == 1 && v == 1
    ensures Divide(u, v) == 1
  {
    DivideMul(u, v);
    MulByUnit(Divide(u, v), v);
  }

  lemma SumOfOne(ts: seq<byte>)
    requires |ts| == 1
    ensures Sum(ts) == ts[0]
  {
  }

  // f(x_i) w_i == f(a) w_i + a (h(x_i) w'_i), where h is f divided by x + a and w' are the
  // weights without the last point a.
  lemma TermSplits(c: seq<byte>, xs: seq<byte>, i: nat, u: byte)
    requires Distinct(xs) && xs != [] && c != [] && i < |xs| && u == 1
    ensures var n := |xs| - 1;
            var us := Scaled(Values(Quotient(c, xs[n]), xs[..n]), Weights(xs[..n])) + [0];
            Mul(u, Mul(Eval(c, xs[i]), Weight(xs, i)))
            == Add(Mul(Eval(c, xs[n]), Weight(xs, i)), Mul(xs[n], us[i]))
  {
    var n := |xs| - 1;
    var a, x, w, h := xs[n], xs[i], Weight(xs, i), Quotient(c, xs[n]);
    var us := Scaled(Values(h, xs[..n]), Weights(xs[..n])) + [0];
    Division(c, a, x);
    SplitProduct(Eval(c, x), Eval(c, a), Mul(Add(x, a), Eval(h, x)), w, u);
    if i < n {
      assert xs[..n] + [a] == xs;
      WeightDropLast(xs[..n], a, i);
      MoveFactor(Add(x, a), Eval(h, x), w, a, Weight(xs[..n], i));
    } else {
      LastTermVanishes(a, Eval(h, x), w, us[i]);
    }
  }

  lemma LastTermVanishes(a: byte, v: byte, w: byte, z: byte)
    requires z == 0
    ensures Mul(Mul(Add(a, a), v), w) == Mul(a, z)
  {
    AddSelf(a);
    MulByZero(v, Add(a, a));
    MulByZero(w, Mul(Add(a, a), v));
    MulByZero(a, z);
  }

  lemma SplitProduct(e: byte, f: byte, g: byte, w: byte, u: byte)
    requires e == Add(f, g) && u == 1
    ensures Mul(u, Mul(e, w)) == Add(Mul(f, w), Mul(g, w))
  {
    MulAddLeft(f, g, w);
    OneMul(Mul(e, w));
  }

  lemma MoveFactor(d: byte, v: byte, w: byte, a: byte, w': byte)
    requires Mul(w, d) == Mul(a, w')
    ensures Mul(Mul(d, v), w) == Mul(a, Mul(v, w'))
  {
    MulCommutes(d, v);
    MulAssociates(v, d, w);
    MulCommutes(d, w);
    MulAssociates(v, a, w');
    MulCommutes(v, a);
    MulAssociates(a, v, w');
  }

  // A polynomial with at most as many coefficients as there are points is recovered at zero.
  lemma {:induction false} InterpolationIsExact(c: seq<byte>, xs: seq<byte>)
    requires Distinct(xs) && 0 < |c| <= |xs|
    ensures AtZero(xs, Values(c, xs)) == c[0]
    decreases |xs|, 0
  {
    var n := |xs| - 1;
    var a := xs[n];
    var ts, ws := Scaled(Values(c, xs), Weights(xs)), Weights(xs);
    var h := Quotient(c, a);
    var us := Scaled(Values(h, xs[..n]), Weights(xs[..n]));
    var u := 1;
    forall i | 0 <= i < |xs|
      ensures Mul(u, ts[i]) == Add(Mul(Eval(c, a), ws[i]), Mul(a, (us + [0])[i]))
    {
      TermSplits(c, xs, i, u);
    }
    SumCombines(ts, ws, us + [0], Eval(c, a), a, u);
    SumPadLast(us);
    WeightsSumToOne(xs);
    QuotientAtZero(h, xs[..n]);
    Division(c, a, 0);
    EvalAtZero(c, 0);
    CollectAtZero(Sum(ts), u, Eval(c, a), a, Sum(ws), Eval(h, 0), c[0]);
  }

  lemma {:induction false} QuotientAtZero(h: seq<byte>, ps: seq<byte>)
    requires Distinct(ps) && |h| <= |ps|
    ensures Sum(Scaled(Values(h, ps), Weights(ps))) == Eval(h, 0)
    decreases |ps|, 1
  {
    if h == [] {
      forall i | 0 <= i < |ps| ensures Scaled(Values(h, ps), Weights(ps))[i] == 0 {
        MulByZero(Weight(ps, i), 0);
      }
      SumOfZeros(Scaled(Values(h, ps), Weights(ps)));
    } else {
      InterpolationIsExact(h, ps);
      EvalAtZero(h, 0);
    }
  }

  lemma {:induction false} SumOfZeros(ts: seq<byte>)
    requires forall i :: 0 <= i < |ts| ==> ts[i] == 0
    ensures Sum(ts) == 0
    decreases |ts|
  {
    if ts == [] {
    } else {
      SumOfZeros(ts[..|ts| - 1]);
    }
  }

  lemma CollectAtZero(s: byte, u: byte, ca: byte, a: byte, sw: byte, h0: byte, c0: byte)
    requires u == 1 && sw == 1
    requires Mul(u, s) == Add(Mul(ca, sw), Mul(a, h0))
    requires c0 == Add(ca, Mul(Add(0, a), h0))
    ensures s == c0
  {
    OneMul(s);
    MulByUnit(ca, sw);
  }
}
