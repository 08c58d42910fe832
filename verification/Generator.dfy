// The powers of the generator 3 run through every non-zero byte exactly once.

module Generator {
  import opened Field
  import opened BitLists
  import opened CyclicOrder
  import opened PowerCertificates

  // x * 3 == x * 2 + x
  function Times3(x: byte): byte { Add(Xtime(x), x) }

  function Power(i: nat): byte {
    if i == 0 then 1 else Times3(Power(i - 1))
  }

  lemma Times3Mul(x: byte, y: byte)
    ensures Mul(Times3(x), y) == Times3(Mul(x, y))
  {
    MulAddLeft(Xtime(x), x, y);
    MulXtimeLeft(x, y);
  }

  lemma PowerAdds(m: nat, n: nat)
    ensures Power(m + n) == Mul(Power(m), Power(n))
  {
    IterateAdds(m, n);
    PowerIterates(m);
    PowerIterates(n);
    PowerIterates(m + n);
  }

  lemma IterateAdds(m: nat, n: nat)
    ensures Iterate(Times3, m + n) == Mul(Iterate(Times3, m), Iterate(Times3, n))
  {
    var mul: (byte, byte) -> byte := (x: byte, y: byte) => Mul(x, y);
    forall y: byte ensures mul(1, y) == y { OneMul(y); }
    forall x: byte, y: byte ensures mul(Times3(x), y) == Times3(mul(x, y)) { Times3Mul(x, y); }
    IteratesAdd(Times3, mul, m, n);
  }

  // ---------- the powers on an addition chain to 255 ----------

  lemma CertifiedPower(m: nat, n: nat, k: nat, a: Bits, b: Bits, q: Bits, r: Bits)
    requires Power(m) == Value(a) && Power(n) == Value(b) && k == m + n && Value(r) < 256
    requires Certifies(a, b, q, r)
    ensures Power(k) == Value(r)
  {
    PowerOfSum(m, n, k);
    CertifiedProduct(a, b, q, r);
  }

  lemma PowerOfSum(m: nat, n: nat, k: nat)
    requires k == m + n
    ensures Power(k) == Mul(Power(m), Power(n))
  {
    PowerAdds(m, n);
  }

  // The exponents are written as multiples of u so that the verifier does not unfold Power.
  lemma PowersUpTo10(u: nat)
    requires u == 1
    ensures Power(1 * u) == Value(Power1()) && Power(2 * u) == Value(Power2()) && Power(5 * u) == Value(Power5())
    ensures Power(8 * u) == Value(Power8()) && Power(10 * u) == Value(Power10())
  {
    Certificate2();
    CertifiedPower(1 * u, 1 * u, 2 * u, Power1(), Power1(), Empty, Power2());
    Certificate4();
    CertifiedPower(2 * u, 2 * u, 4 * u, Power2(), Power2(), Empty, Power4());
    Certificate5();
    CertifiedPower(4 * u, 1 * u, 5 * u, Power4(), Power1(), Empty, Power5());
    Certificate8();
    CertifiedPower(4 * u, 4 * u, 8 * u, Power4(), Power4(), Empty.I(), Power8());
    Certificate10();
    CertifiedPower(5 * u, 5 * u, 10 * u, Power5(), Power5(), Empty.I().O().I(), Power10());
  }

  lemma PowersUpTo25(u: nat)
    requires u == 1
    ensures Power(1 * u) == Value(Power1()) && Power(10 * u) == Value(Power10())
    ensures Power(15 * u) == Value(Power15()) && Power(25 * u) == Value(Power25())
  {
    PowersUpTo10(u);
    Certificate15();
    CertifiedPower(5 * u, 10 * u, 15 * u, Power5(), Power10(), Empty.I().O().O().I(), Power15());
    Certificate17();
    CertifiedPower(15 * u, 2 * u, 17 * u, Power15(), Power2(), Empty, Power17());
    Certificate25();
    CertifiedPower(17 * u, 8 * u, 25 * u, Power17(), Power8(), Empty.I().O().O().O(), Power25());
  }

  lemma PowersUpTo85(u: nat)
    requires u == 1
    ensures Power(51 * u) == Value(Power51()) && Power(85 * u) == Value(Power85())
  {
    PowersUpTo25(u);
    Certificate50();
    CertifiedPower(25 * u, 25 * u, 50 * u, Power25(), Power25(), Empty, Power50());
    Certificate51();
    CertifiedPower(50 * u, 1 * u, 51 * u, Power50(), Power1(), Empty, Power51());
    Certificate75();
    CertifiedPower(50 * u, 25 * u, 75 * u, Power50(), Power25(), Empty, Power75());
    Certificate85();
    CertifiedPower(10 * u, 75 * u, 85 * u, Power10(), Power75(), Empty.I().I(), Power85());
  }

  lemma PowersUpTo255(u: nat)
    requires u == 1
    ensures Power(51 * u) == Value(Power51()) && Power(85 * u) == Value(Power85())
    ensures Power(255 * u) == Value(Power255())
  {
    PowersUpTo85(u);
    Certificate102();
    CertifiedPower(51 * u, 51 * u, 102 * u, Power51(), Power51(), Empty, Power102());
    Certificate153();
    CertifiedPower(102 * u, 51 * u, 153 * u, Power102(), Power51(), Empty.I().I(), Power153());
    Certificate204();
    CertifiedPower(153 * u, 51 * u, 204 * u, Power153(), Power51(), Empty.I().O().O(), Power204());
    Certificate255();
    CertifiedPower(204 * u, 51 * u, 255 * u, Power204(), Power51(), Empty.I().I().I(), Power255());
  }

  // ---------- the order of 3 is 255 ----------

  lemma {:induction false} PowerIterates(i: nat)
    ensures Iterate(Times3, i) == Power(i)
  {
    if i == 0 {
    } else {
      PowerIterates(i - 1);
    }
  }

  lemma PeriodIs255(n: nat, u: nat)
    requires u == 1 && n == 255 * u
    ensures Iterate(Times3, n) == 1
  {
    PowersUpTo255(u);
    Certificate255();
    PowerIterates(n);
  }

  lemma ReturnsIn3s(n: nat, d: nat, u: nat)
    requires u == 1 && n == 255 * u && Iterate(Times3, d) == 1
    ensures d % 3 == 0
  {
    if d % 3 != 0 {
      PeriodIs255(n, u);
      ReturnsAreMultiples(Times3, n, 3, 85 * u, d, InverseModulo(3, d));
      PowerIterates(85 * u);
      PowersUpTo255(u);
      Certificate85();
    }
  }

  lemma ReturnsIn5s(n: nat, d: nat, u: nat)
    requires u == 1 && n == 255 * u && Iterate(Times3, d) == 1
    ensures d % 5 == 0
  {
    if d % 5 != 0 {
      PeriodIs255(n, u);
      ReturnsAreMultiples(Times3, n, 5, 51 * u, d, InverseModulo(5, d));
      PowerIterates(51 * u);
      PowersUpTo255(u);
      Certificate51();
    }
  }

  lemma ReturnsIn17s(n: nat, d: nat, u: nat)
    requires u == 1 && n == 255 * u && Iterate(Times3, d) == 1
    ensures d % 17 == 0
  {
    if d % 17 != 0 {
      PeriodIs255(n, u);
      ReturnsAreMultiples(Times3, n, 17, 15 * u, d, InverseModulo(17, d));
      PowerIterates(15 * u);
      PowersUpTo25(u);
      Certificate15();
    }
  }

  lemma GeneratorHasOrder(n: nat, u: nat)
    requires u == 1 && n == 255 * u
    ensures HasOrder(Times3, n)
  {
    PeriodIs255(n, u);
    forall d: nat | 0 < d < n ensures Iterate(Times3, d) != 1 {
      if Iterate(Times3, d) == 1 { NoEarlyReturn(n, d, u); }
    }
  }

  lemma NoEarlyReturn(n: nat, d: nat, u: nat)
    requires u == 1 && n == 255 * u && Iterate(Times3, d) == 1
    ensures d == 0 || d >= n
  {
    ReturnsIn3s(n, d, u);
    ReturnsIn5s(n, d, u);
    ReturnsIn17s(n, d, u);
    MultipleOf255(d);
  }

  lemma MultipleOf255(d: nat)
    requires d % 3 == 0 && d % 5 == 0 && d % 17 == 0
    ensures d == 0 || d >= 255
  {
  }

  // 3^i == 1 exactly for the multiples of 255.
  lemma GeneratorOrder(i: nat)
    ensures Power(i) == 1 <==> i % 255 == 0
  {
    var u := 1;
    GeneratorHasOrder(255 * u, u);
    UnitIffMultiple(Times3, 255 * u, i);
    PowerIterates(i);
  }

  lemma PowerNonZero(i: nat)
    ensures Power(i) != 0
  {
    var u := 1;
    GeneratorHasOrder(255 * u, u);
    AvoidsFixedPoint(Times3, 255 * u, i, 0);
    PowerIterates(i);
  }

  lemma PowerModSum(l: nat, m: nat, i: nat)
    requires i == (l + m) % 255
    ensures Power(i) == Mul(Power(l), Power(m))
  {
    PowerSumAfterPeriods(1, (l + m) / 255, l, m, i);
  }

  lemma PowerSumAfterPeriods(u: nat, q: nat, l: nat, m: nat, i: nat)
    requires u == 1 && l + m == 255 * u * q + i
    ensures Power(i) == Mul(Power(l), Power(m))
  {
    PowerAfterPeriods(u, q, i, l + m);
    PowerAdds(l, m);
  }

  lemma PowerAfterPeriods(u: nat, q: nat, r: nat, i: nat)
    requires u == 1 && i == 255 * u * q + r
    ensures Power(i) == Power(r)
  {
    PeriodIs255(255 * u, u);
    AfterPeriods(Times3, 255 * u, q, r);
    PowerIterates(i);
    PowerIterates(r);
  }

  lemma PowersDiffer(i: nat, j: nat)
    requires i < j < 255
    ensures Power(i) != Power(j)
  {
    var u := 1;
    GeneratorHasOrder(255 * u, u);
    IteratesDiffer(Times3, 255 * u, i, j);
    PowerIterates(i);
    PowerIterates(j);
  }

  // ---------- discrete logarithms ----------

  // By counting: 255 distinct powers fill the 255 non-zero bytes.
  lemma EveryByteIsAPower(v: byte) returns (i: nat)
    requires v != 0
    ensures i < 255 && Power(i) == v
  {
    var u := 1;
    GeneratorHasOrder(255 * u, u);
    forall j: nat | j < 255 * u ensures 1 <= Iterate(Times3, j) <= 255 * u {
      PowerNonZero(j);
      PowerIterates(j);
    }
    i := IteratesFill(Times3, 255 * u, v);
    PowerIterates(i);
  }

  // ---------- one period of powers as a sequence ----------

  predicate IsIndex(ps: seq<byte>, i: int) { 0 <= i < |ps| }

  // The trigger makes the powers visible only at indices that a proof mentions.
  ghost predicate OnePeriod(ps: seq<byte>) {
    && |ps| == 255
    && forall i {:trigger IsIndex(ps, i)} :: IsIndex(ps, i) ==> ps[i] == Power(i)
  }

  lemma PowerSeqAt(ps: seq<byte>, i: nat)
    requires OnePeriod(ps) && i < 255
    ensures ps[i] == Power(i)
  {
    assert IsIndex(ps, i);
  }

  lemma PeriodStep(ps: seq<byte>, i: nat)
    requires OnePeriod(ps) && i < 254
    ensures ps[i + 1] == Times3(ps[i])
  {
    PowerSeqAt(ps, i);
    PowerSeqAt(ps, i + 1);
  }

  lemma PeriodCloses(ps: seq<byte>, i: nat)
    requires OnePeriod(ps) && i < 255 && (i + 1) % 255 == 0
    ensures Times3(ps[i]) == 1
  {
    PowerSeqAt(ps, i);
    GeneratorOrder(i + 1);
  }

  lemma PeriodIsInjective(ps: seq<byte>)
    requires OnePeriod(ps)
    ensures forall i, j :: 0 <= i < j < 255 ==> ps[i] != ps[j]
  {
    forall i, j | 0 <= i < j < 255 ensures ps[i] != ps[j] {
      PowersDiffer(i, j);
      PowerSeqAt(ps, i);
      PowerSeqAt(ps, j);
    }
  }

  lemma PeriodNonZero(ps: seq<byte>, i: nat)
    requires OnePeriod(ps) && i < 255
    ensures ps[i] != 0
  {
    PowerSeqAt(ps, i);
    PowerNonZero(i);
  }

  lemma PeriodHasEveryByte(ps: seq<byte>, a: byte) returns (l: nat)
    requires OnePeriod(ps) && a != 0
    ensures l < 255 && ps[l] == a
  {
    l := EveryByteIsAPower(a);
    PowerSeqAt(ps, l);
  }
}
