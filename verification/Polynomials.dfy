// Polynomials over the field: division by a linear factor, the root bound, and the unique
// polynomial of length n through n points.

module Polynomials {
  import opened Lists
  import opened Field
  import opened Inverses

  // c[0] + c[1] x + c[2] x^2 + ...
  function Eval(c: seq<byte>, x: byte): byte {
    if c == [] then 0 else Add(c[0], Mul(x, Eval(c[1..], x)))
  }

  lemma EvalAtZero(c: seq<byte>, z: byte)
    requires z == 0
    ensures Eval(c, z) == if c == [] then 0 else c[0]
  {
    if c != [] { MulByZero(Eval(c[1..], z), z); }
  }

  // ---------- y + (x + a) h(x) ----------

  function Compose(y: byte, a: byte, h: seq<byte>): (c: seq<byte>)
    ensures |c| == |h| + 1
    decreases |h|
  {
    if h == [] then [y] else [Add(y, Mul(a, h[0]))] + Compose(h[0], a, h[1..])
  }

  lemma {:induction false} EvalCompose(y: byte, a: byte, h: seq<byte>, x: byte)
    ensures Eval(Compose(y, a, h), x) == Add(y, Mul(Add(x, a), Eval(h, x)))
    decreases |h|
  {
    if h == [] {
      assert Eval([y], x) == Add(y, Mul(x, Eval([], x)));
      MulByZero(x, 0);
      MulByZero(Add(x, a), 0);
    } else {
      var c := Compose(h[0], a, h[1..]);
      EvalCompose(h[0], a, h[1..], x);
      assert Compose(y, a, h)[1..] == c;
      ComposeStep(y, a, x, h[0], Eval(h[1..], x));
    }
  }

  // (y + a u) + x (u + (x + a) t) == y + (x + a) (u + x t)
  lemma ComposeStep(y: byte, a: byte, x: byte, u: byte, t: byte)
    ensures Add(Add(y, Mul(a, u)), Mul(x, Add(u, Mul(Add(x, a), t))))
         == Add(y, Mul(Add(x, a), Add(u, Mul(x, t))))
  {
    var s := Add(x, a);
    MulAddRight(x, u, Mul(s, t));
    MulAddRight(s, u, Mul(x, t));
    MulAddLeft(x, a, u);
    MulAssociates(x, s, t);
    MulCommutes(x, s);
    MulAssociates(s, x, t);
    RegroupFour(y, Mul(a, u), Mul(x, u), Mul(s, Mul(x, t)));
  }

  lemma RegroupFour(p: byte, q: byte, r: byte, t: byte)
    ensures Add(Add(p, q), Add(r, t)) == Add(p, Add(Add(r, q), t))
  {
    AddAssociates(p, q, Add(r, t));
    AddAssociates(q, r, t);
    AddCommutes(q, r);
  }

  // ---------- division by x + a ----------

  function Quotient(c: seq<byte>, a: byte): (h: seq<byte>)
    ensures |h| == if c == [] then 0 else |c| - 1
    decreases |c|
  {
    if |c| <= 1 then [] else [Eval(c[1..], a)] + Quotient(c[1..], a)
  }

  // Division with remainder: c(x) == c(a) + (x + a) * quotient(x), coefficient by coefficient.
  lemma {:induction false} ComposeQuotient(c: seq<byte>, a: byte)
    requires c != []
    ensures Compose(Eval(c, a), a, Quotient(c, a)) == c
    decreases |c|
  {
    if |c| == 1 {
      EvalConstant(c, a);
    } else {
      var r := c[1..];
      ComposeQuotient(r, a);
      AddCancels(c[0], Mul(a, Eval(r, a)));
      assert Quotient(c, a)[1..] == Quotient(r, a);
      assert c == [c[0]] + r;
    }
  }

  lemma EvalConstant(c: seq<byte>, a: byte)
    requires |c| == 1
    ensures Eval(c, a) == c[0]
  {
    assert c[1..] == [];
    MulByZero(a, Eval(c[1..], a));
  }

  lemma Division(c: seq<byte>, a: byte, x: byte)
    requires c != []
    ensures Eval(c, x) == Add(Eval(c, a), Mul(Add(x, a), Eval(Quotient(c, a), x)))
  {
    ComposeQuotient(c, a);
    EvalCompose(Eval(c, a), a, Quotient(c, a), x);
  }

  // ---------- at most one polynomial of length n through n points ----------

  lemma QuotientsAgree(c: seq<byte>, d: seq<byte>, a: byte, x: byte)
    requires c != [] && d != [] && x != a
    requires Eval(c, a) == Eval(d, a) && Eval(c, x) == Eval(d, x)
    ensures Eval(Quotient(c, a), x) == Eval(Quotient(d, a), x)
  {
    Division(c, a, x);
    Division(d, a, x);
    var p, q := Mul(Add(x, a), Eval(Quotient(c, a), x)), Mul(Add(x, a), Eval(Quotient(d, a), x));
    AddLeftCancels(Eval(c, a), p, q);
    AddCancels(x, a);
    MulCancels(Add(x, a), Eval(Quotient(c, a), x), Eval(Quotient(d, a), x));
  }

  lemma AddLeftCancels(y: byte, p: byte, q: byte)
    requires Add(y, p) == Add(y, q)
    ensures p == q
  {
    AddCommutes(y, p);
    AddCommutes(y, q);
    AddCancels(p, y);
    AddCancels(q, y);
  }

  lemma {:induction false} AgreeingPolynomialsAreEqual(c: seq<byte>, d: seq<byte>, xs: seq<byte>)
    requires |c| == |d| <= |xs| && Distinct(xs)
    requires forall i :: 0 <= i < |xs| ==> Eval(c, xs[i]) == Eval(d, xs[i])
    ensures c == d
    decreases |xs|
  {
    if c == [] {
    } else {
      var n := |xs| - 1;
      var a := xs[n];
      var rest := xs[..n];
      forall i | 0 <= i < |rest| ensures Eval(Quotient(c, a), rest[i]) == Eval(Quotient(d, a), rest[i]) {
        QuotientsAgree(c, d, a, xs[i]);
      }
      AgreeingPolynomialsAreEqual(Quotient(c, a), Quotient(d, a), rest);
      ComposeQuotient(c, a);
      ComposeQuotient(d, a);
    }
  }

  // ---------- a polynomial of length n through n points ----------

  ghost function ReducedValues(xs: seq<byte>, ys: seq<byte>, a: byte, y: byte): (r: seq<byte>)
    requires |xs| == |ys| && a !in xs
    ensures |r| == |xs|
  {
    seq(|xs|, i requires 0 <= i < |xs| => ReducedValue(xs[i], ys[i], a, y))
  }

  ghost function ReducedValue(x: byte, v: byte, a: byte, y: byte): byte
    requires x != a
  {
    AddCancels(x, a);
    Divide(Add(v, y), Add(x, a))
  }

  ghost function Interpolant(xs: seq<byte>, ys: seq<byte>): (c: seq<byte>)
    requires |xs| == |ys| && Distinct(xs)
    ensures |c| == |xs|
    decreases |xs|
  {
    if xs == [] then []
    else
      var n := |xs| - 1;
      Compose(ys[n], xs[n], Interpolant(xs[..n], ReducedValues(xs[..n], ys[..n], xs[n], ys[n])))
  }

  lemma ReducedValueFits(x: byte, v: byte, a: byte, y: byte, u: byte)
    requires x != a && u == ReducedValue(x, v, a, y)
    ensures Add(y, Mul(Add(x, a), u)) == v
  {
    AddCancels(x, a);
    DivideMul(Add(v, y), Add(x, a));
    MulCommutes(Add(x, a), u);
    AddCommutes(v, y);
    AddAssociates(y, y, v);
    AddSelf(y);
  }

  lemma {:induction false} InterpolantFits(xs: seq<byte>, ys: seq<byte>, i: nat)
    requires |xs| == |ys| && Distinct(xs) && i < |xs|
    ensures Eval(Interpolant(xs, ys), xs[i]) == ys[i]
    decreases |xs|
  {
    var n := |xs| - 1;
    var a, y := xs[n], ys[n];
    var vs := ReducedValues(xs[..n], ys[..n], a, y);
    var h := Interpolant(xs[..n], vs);
    EvalCompose(y, a, h, xs[i]);
    if i < n {
      InterpolantFits(xs[..n], vs, i);
      ReducedValueFits(xs[i], ys[i], a, y, vs[i]);
    } else {
      AddSelf(a);
      MulByZero(Eval(h, a), Add(a, a));
    }
  }
}
