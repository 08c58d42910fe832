// The reference definition of multiplication in section 4.2 of FIPS 197: multiply the two
// polynomials over GF(2), divide by the modulus 0x11B, keep the remainder.

module CarrylessProduct {
  import opened Field

  const MODULUS: nat := 0x11B

  // The product of two polynomials over GF(2), given by their coefficient bits.
  function Product(a: nat, b: nat): nat
    decreases b
  {
    if b == 0 then 0 else Xor(2 * Product(a, b / 2), Term(a, b))
  }

  function Term(a: nat, b: nat): nat { if b % 2 == 1 then a else 0 }

  lemma {:induction false} ProductByStep(a: nat, b: nat)
    ensures Product(a, b) == Xor(2 * Product(a, b / 2), Term(a, b))
  {
  }

  // r is the remainder of p divided by the modulus.
  ghost predicate IsRemainder(p: nat, r: nat) {
    r < 256 && exists q: nat :: p == Xor(Product(MODULUS, q), r)
  }

  lemma {:induction false} QuotientOf(a: byte, b: byte) returns (q: nat)
    ensures Product(a, b) == Xor(Product(MODULUS, q), Mul(a, b))
    decreases b
  {
    if b == 0 {
      q := 0;
    } else {
      var h := Mul(a, b / 2);
      var q' := QuotientOf(a, b / 2);
      q := 2 * q' + (if h >= 128 then 1 else 0);
      GrownQuotient(MODULUS, q', h, q);
      QuotientStep(Product(MODULUS, q'), h, LowBit(a, b));
      MulByStep(a, b);
      ProductByStep(a, b);
    }
  }

  lemma GrownQuotient(m: nat, q: nat, h: byte, r: nat)
    requires m == MODULUS && r == 2 * q + (if h >= 128 then 1 else 0)
    ensures Product(m, r) == Xor(2 * Product(m, q), Modulus(h))
  {
    assert r / 2 == q;
    ProductByStep(m, r);
  }

  // One Horner step: double a value p + h, add the next bit, and move the overflow into p.
  lemma QuotientStep(p: nat, h: byte, low: byte)
    ensures Xor(2 * Xor(p, h), low) == Xor(Xor(2 * p, Modulus(h)), Add(Xtime(h), low))
  {
    XtimeCancelsModulus(h);
    DoublingXor(p, h);
    XorCommutes(Modulus(h), 2 * h);
    XorCancelsMiddle(2 * p, Modulus(h), 2 * h);
    XorAssociates(Xor(2 * p, Modulus(h)), Xtime(h), low);
  }

  lemma {:induction false} ProductXor(a: nat, b: nat, c: nat, d: nat)
    requires d == Xor(b, c)
    ensures Product(a, d) == Xor(Product(a, b), Product(a, c))
    decreases b + c
  {
    if b != 0 && c != 0 {
      XorBits(b, c);
      ProductXor(a, b / 2, c / 2, d / 2);
      ProductXorStep(a, b, c, d, Product(a, b / 2), Product(a, c / 2));
    }
  }

  lemma ProductXorStep(a: nat, b: nat, c: nat, d: nat, hb: nat, hc: nat)
    requires d % 2 == (b + c) % 2
    ensures Xor(2 * Xor(hb, hc), Term(a, d)) == Xor(Xor(2 * hb, Term(a, b)), Xor(2 * hc, Term(a, c)))
  {
    TermXor(a, b, c, d);
    DoublingXor(hb, hc);
    XorSwaps(2 * hb, Term(a, b), 2 * hc, Term(a, c));
  }

  lemma TermXor(a: nat, b: nat, c: nat, d: nat)
    requires d % 2 == (b + c) % 2
    ensures Term(a, d) == Xor(Term(a, b), Term(a, c))
  {
    XorSelf(a);
  }

  lemma {:induction false} XorKeepsHighPart(x: nat, y: nat, m: nat, r: nat)
    requires PowerOfTwoUpTo256(m) && y < 2 * m <= x && r == Xor(x, y)
    ensures r >= 2 * m
  {
    XorBits(x, y);
    if m > 1 { XorKeepsHighPart(x / 2, y / 2, m / 2, r / 2); }
  }

  lemma {:induction false} MultiplesAreLarge(q: nat)
    requires q > 0
    ensures Product(MODULUS, q) >= 256
  {
    if q > 1 {
      MultiplesAreLarge(q / 2);
      var p := 2 * Product(MODULUS, q / 2);
      XorKeepsHighPart(p, MODULUS, 256, Xor(p, MODULUS));
    }
  }

  lemma RemainderIsUnique(p: nat, r: nat, s: nat)
    requires IsRemainder(p, r) && IsRemainder(p, s)
    ensures r == s
  {
    var q: nat :| p == Xor(Product(MODULUS, q), r);
    var t: nat :| p == Xor(Product(MODULUS, t), s);
    var d := Xor(q, t);
    ProductXor(MODULUS, q, t, d);
    XorSelf(p);
    XorSwaps(Product(MODULUS, q), r, Product(MODULUS, t), s);
    assert Xor(Product(MODULUS, d), Xor(r, s)) == 0;
    XorIsZero(Product(MODULUS, d), Xor(r, s));
    XorBound(r, s, 256);
    if d > 0 { MultiplesAreLarge(d); }
    XorIsZero(r, s);
  }

  lemma XorIsZero(a: nat, b: nat)
    requires Xor(a, b) == 0
    ensures a == b
  {
    XorAssociates(a, b, b);
    XorSelf(b);
  }

  // The shift-and-reduce product is the remainder of the polynomial product, and nothing else is.
  lemma MulIsProductModulo(a: byte, b: byte, r: nat)
    ensures IsRemainder(Product(a, b), r) <==> r == Mul(a, b)
  {
    var q := QuotientOf(a, b);
    if IsRemainder(Product(a, b), r) { RemainderIsUnique(Product(a, b), r, Mul(a, b)); }
  }
}
