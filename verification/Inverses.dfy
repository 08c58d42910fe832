// Division in the field.

module Inverses {
  import opened Field
  import opened Generator

  ghost function Inverse(a: byte): (r: byte)
    requires a != 0
    ensures Mul(a, r) == 1
  {
    InverseExists(a);
    var r: byte :| Mul(a, r) == 1;
    r
  }

  ghost function Divide(a: byte, b: byte): byte
    requires b != 0
  {
    Mul(a, Inverse(b))
  }

  lemma InverseExists(a: byte)
    requires a != 0
    ensures exists r: byte :: Mul(a, r) == 1
  {
    var l := EveryByteIsAPower(a);
    PowersMultiplyToOne(l, 255 - l);
  }

  lemma PowersMultiplyToOne(l: nat, m: nat)
    requires (l + m) % 255 == 0
    ensures Mul(Power(l), Power(m)) == 1
  {
    PowersOfMultiple(l, m, l + m);
  }

  lemma PowersOfMultiple(l: nat, m: nat, n: nat)
    requires n == l + m && n % 255 == 0
    ensures Mul(Power(l), Power(m)) == 1
  {
    PowerAdds(l, m);
    GeneratorOrder(n);
  }

  lemma InverseIsCorrect(a: byte)
    requires a != 0
    ensures Mul(a, Inverse(a)) == 1
    ensures Inverse(a) != 0
  {
    MulZero(a);
  }

  lemma ZeroDivided(a: byte, b: byte)
    requires a == 0 && b != 0
    ensures Divide(a, b) == a
  {
    ProductIsZero(a, Inverse(b));
  }

  lemma DivideMul(a: byte, b: byte)
    requires b != 0
    ensures Mul(Divide(a, b), b) == a
  {
    InverseIsCorrect(b);
    MulAssociates(a, Inverse(b), b);
    MulCommutes(Inverse(b), b);
    MulByUnit(a, Mul(b, Inverse(b)));
  }

  lemma MulByUnit(a: byte, u: byte)
    requires u == 1
    ensures Mul(a, u) == a && Mul(u, a) == a
  {
    OneMul(a);
    MulCommutes(a, u);
  }

  lemma MulByZero(a: byte, z: byte)
    requires z == 0
    ensures Mul(a, z) == 0 && Mul(z, a) == 0
  {
    MulZero(a);
    MulCommutes(a, z);
  }

  // Multiplication by a non-zero element is injective.
  lemma MulCancels(a: byte, x: byte, y: byte)
    requires a != 0 && Mul(a, x) == Mul(a, y)
    ensures x == y
  {
    CancelLeft(a, x);
    CancelLeft(a, y);
  }

  lemma CancelLeft(a: byte, x: byte)
    requires a != 0
    ensures Mul(Inverse(a), Mul(a, x)) == x
  {
    InverseIsCorrect(a);
    MulAssociates(Inverse(a), a, x);
    MulCommutes(Inverse(a), a);
    MulByUnit(x, Mul(a, Inverse(a)));
  }

  lemma ProductIsZero(a: byte, b: byte)
    ensures Mul(a, b) == 0 <==> a == 0 || b == 0
  {
    if a == 0 {
      MulByZero(b, a);
    } else if b == 0 {
      MulByZero(a, b);
    } else if Mul(a, b) == 0 {
      CancelLeft(a, b);
      MulByZero(Inverse(a), Mul(a, b));
    }
  }

  lemma DivideIsUnique(a: byte, b: byte, q: byte)
    requires b != 0 && Mul(q, b) == a
    ensures q == Divide(a, b)
  {
    DivideMul(a, b);
    MulCommutes(q, b);
    MulCommutes(Divide(a, b), b);
    MulCancels(b, q, Divide(a, b));
  }

  // ---------- products and quotients from one period of powers ----------

  lemma PeriodMul(ps: seq<byte>, a: byte, b: byte, l: nat, m: nat, i: nat)
    requires OnePeriod(ps) && l < 255 && m < 255 && ps[l] == a && ps[m] == b
    requires i == (l + m) % 255
    ensures ps[i] == Mul(a, b)
  {
    PowerSeqAt(ps, l);
    PowerSeqAt(ps, m);
    PowerSeqAt(ps, i);
    PowerModSum(l, m, i);
  }

  lemma PeriodDiv(ps: seq<byte>, a: byte, b: byte, l: nat, m: nat, i: nat)
    requires OnePeriod(ps) && l < 255 && m < 255 && ps[l] == a && ps[m] == b && b != 0
    requires i == (l - m) % 255
    ensures ps[i] == Divide(a, b)
  {
    WrapsAround(l, m, i);
    PeriodMul(ps, ps[i], b, i, m, l);
    DivideIsUnique(a, b, ps[i]);
  }

  lemma WrapsAround(l: nat, m: nat, i: nat)
    requires l < 255 && m < 255 && i == (l - m) % 255
    ensures l == (i + m) % 255 && i < 255
  {
  }

  lemma PeriodInverse(ps: seq<byte>, a: byte, l: nat, i: nat)
    requires OnePeriod(ps) && l < 255 && ps[l] == a && a != 0
    requires i == (255 - l) % 255
    ensures ps[i] == Inverse(a)
  {
    PowerSeqAt(ps, l);
    PowerSeqAt(ps, i);
    InverseIndex(l, i);
    PowersMultiplyToOne(l, i);
    InverseIsCorrect(a);
    MulCancels(a, ps[i], Inverse(a));
  }

  lemma InverseIndex(l: nat, i: nat)
    requires l < 255 && i == (255 - l) % 255
    ensures (l + i) % 255 == 0 && i < 255
  {
  }
}
