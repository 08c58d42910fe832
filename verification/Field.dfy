// The field GF(2^8) of FIPS 197, section 4.2: a byte is a polynomial over GF(2) of degree
// at most 7, addition is XOR, and multiplication is taken modulo x^8 + x^4 + x^3 + x + 1.

module Field {

  type byte = x: int | 0 <= x < 256

  // ---------- XOR of natural numbers, bit by bit ----------

  function Xor(a: nat, b: nat): nat
    decreases a + b
  {
    if a == 0 then b
    else if b == 0 then a
    else 2 * Xor(a / 2, b / 2) + (a + b) % 2
  }

  lemma {:induction false} XorBits(a: nat, b: nat)
    ensures Xor(a, b) / 2 == Xor(a / 2, b / 2)
    ensures Xor(a, b) % 2 == (a + b) % 2
  {
  }

  lemma {:induction false} XorCommutes(a: nat, b: nat)
    ensures Xor(a, b) == Xor(b, a)
    decreases a
  {
    if a == 0 {
    } else {
      XorCommutes(a / 2, b / 2);
    }
  }

  lemma {:induction false} XorAssociates(a: nat, b: nat, c: nat)
    ensures Xor(Xor(a, b), c) == Xor(a, Xor(b, c))
  {
    var ab, bc := Xor(a, b), Xor(b, c);
    XorAssociatesNamed(a, b, c, ab, bc, Xor(ab, c), Xor(a, bc));
  }

  // Naming the intermediate results keeps the nested definitions from unfolding.
  lemma {:induction false} XorAssociatesNamed(a: nat, b: nat, c: nat, ab: nat, bc: nat, l: nat, r: nat)
    requires ab == Xor(a, b) && bc == Xor(b, c)
    requires l == Xor(ab, c) && r == Xor(a, bc)
    ensures l == r
    decreases a + b + c
  {
    if a != 0 && b != 0 && c != 0 {
      XorBits(a, b);
      XorBits(b, c);
      XorBits(ab, c);
      XorBits(a, bc);
      XorAssociatesNamed(a / 2, b / 2, c / 2, ab / 2, bc / 2, l / 2, r / 2);
      ParityAssociates(a, b, c, ab, bc);
      SameHalves(l, r);
    }
  }

  lemma ParityAssociates(a: nat, b: nat, c: nat, ab: nat, bc: nat)
    requires ab % 2 == (a + b) % 2
    requires bc % 2 == (b + c) % 2
    ensures (ab + c) % 2 == (a + bc) % 2
  {
  }

  lemma SameHalves(x: nat, y: nat)
    requires x / 2 == y / 2 && x % 2 == y % 2
    ensures x == y
  {
  }

  lemma {:induction false} XorSelf(a: nat)
    ensures Xor(a, a) == 0
  {
    if a == 0 {
    } else {
      XorSelf(a / 2);
    }
  }

  predicate PowerOfTwoUpTo256(m: nat) {
    m == 1 || m == 2 || m == 4 || m == 8 || m == 16 || m == 32 || m == 64 || m == 128 || m == 256
  }

  lemma {:induction false} XorBound(a: nat, b: nat, m: nat)
    requires a < m && b < m && PowerOfTwoUpTo256(m)
    ensures Xor(a, b) < m
  {
    if a != 0 && b != 0 { XorBound(a / 2, b / 2, m / 2); }
  }

  // ---------- the additive group of bytes ----------

  function Add(a: byte, b: byte): (r: byte)
  {
    XorBound(a, b, 256);
    Xor(a, b)
  }

  lemma AddCommutes(a: byte, b: byte)
    ensures Add(a, b) == Add(b, a)
  {
    XorCommutes(a, b);
  }

  lemma AddAssociates(a: byte, b: byte, c: byte)
    ensures Add(Add(a, b), c) == Add(a, Add(b, c))
  {
    XorAssociates(a, b, c);
  }

  lemma AddSelf(a: byte)
    ensures Add(a, a) == 0
  {
    XorSelf(a);
  }

  lemma AddCancels(a: byte, b: byte)
    ensures Add(Add(a, b), b) == a
    ensures Add(a, b) == 0 <==> a == b
  {
    AddAssociates(a, b, b);
    AddSelf(b);
  }

  lemma AddSwaps(a: byte, b: byte, c: byte, d: byte)
    ensures Add(Add(a, b), Add(c, d)) == Add(Add(a, c), Add(b, d))
  {
    AddAssociates(a, b, Add(c, d));
    AddAssociates(b, c, d);
    AddCommutes(b, c);
    AddAssociates(c, b, d);
    AddAssociates(a, c, Add(b, d));
  }

  // ---------- multiplication ----------

  // Multiplication by the polynomial x: shift left, and reduce when the degree reaches 8.
  function Xtime(a: byte): (r: byte)
  {
    if a >= 128 then Add(2 * a - 256, 0x1B) else 2 * a
  }

  // Horner's rule on the bits of b.
  function Mul(a: byte, b: byte): byte
    decreases b
  {
    if b == 0 then 0
    else
      Add(Xtime(Mul(a, b / 2)), LowBit(a, b))
  }

  function LowBit(a: byte, b: nat): byte { if b % 2 == 1 then a else 0 }

  // ---------- xtime is linear ----------

  lemma DoublingXor(a: nat, b: nat)
    ensures Xor(2 * a, 2 * b) == 2 * Xor(a, b)
  {
    XorOfDoubles(a, b, 2 * a, 2 * b);
  }

  lemma XorOfDoubles(a: nat, b: nat, x: nat, y: nat)
    requires x == 2 * a && y == 2 * b
    ensures Xor(x, y) == 2 * Xor(a, b)
  {
    assert x / 2 == a && y / 2 == b && (x + y) % 2 == 0;
  }

  // Adding a power of two above every bit of v is an XOR.
  lemma {:induction false} XorTopBit(v: nat, m: nat, r: nat)
    requires PowerOfTwoUpTo256(m) && v < m && r == Xor(v, m)
    ensures r == v + m
  {
    if v == 0 {
    } else {
      XorBits(v, m);
      XorTopBit(v / 2, m / 2, r / 2);
    }
  }

  // The top bits of two numbers XOR like any other bits.
  lemma {:induction false} TopBitOfXor(a: nat, b: nat, m: nat, r: nat)
    requires PowerOfTwoUpTo256(m) && a < 2 * m && b < 2 * m && r == Xor(a, b)
    ensures r >= m <==> (a >= m) != (b >= m)
  {
    if m > 1 {
      XorBits(a, b);
      TopBitOfXor(a / 2, b / 2, m / 2, r / 2);
    }
  }

  // The whole polynomial 0x11B can be cancelled at once.
  function Modulus(a: byte): nat { if a >= 128 then 0x11B else 0 }

  lemma XtimeCancelsModulus(a: byte)
    ensures Xtime(a) == Xor(2 * a, Modulus(a))
  {
    if a >= 128 {
      ReductionCancelsModulus(2 * a - 256);
    }
  }

  lemma ReductionCancelsModulus(v: byte)
    ensures Xor(v, 0x1B) == Xor(v + 256, 0x11B)
  {
    var t := v + 256;
    var m := 0x11B;
    XorTopBit(v, 256, Xor(v, 256));
    XorTopBit(0x1B, 256, Xor(0x1B, 256));
    XorCommutes(0x1B, 256);
    XorCancelsMiddle(v, 256, 0x1B);
    assert Xor(v, 256) == t && Xor(256, 0x1B) == m;
  }

  lemma XorCancelsMiddle(a: nat, b: nat, c: nat)
    ensures Xor(a, c) == Xor(Xor(a, b), Xor(b, c))
  {
    XorAssociates(a, b, Xor(b, c));
    XorAssociates(b, b, c);
    XorSelf(b);
  }

  lemma XtimeXor(a: byte, b: byte)
    ensures Xtime(Add(a, b)) == Add(Xtime(a), Xtime(b))
  {
    XtimeCancelsModulus(a);
    XtimeCancelsModulus(b);
    XtimeCancelsModulus(Add(a, b));
    TopBitOfXor(a, b, 128, Add(a, b));
    DoublingXor(a, b);
    XorSelf(0x11B);
    XorSwaps(2 * a, 2 * b, Modulus(a), Modulus(b));
    assert Modulus(Add(a, b)) == Xor(Modulus(a), Modulus(b));
  }

  lemma XorSwaps(a: nat, b: nat, c: nat, d: nat)
    ensures Xor(Xor(a, b), Xor(c, d)) == Xor(Xor(a, c), Xor(b, d))
  {
    XorAssociates(a, b, Xor(c, d));
    XorAssociates(b, c, d);
    XorCommutes(b, c);
    XorAssociates(c, b, d);
    XorAssociates(a, c, Xor(b, d));
  }

  // ---------- multiplication is bilinear and commutes with xtime ----------

  lemma {:induction false} MulByStep(a: byte, b: byte)
    ensures Mul(a, b) == Add(Xtime(Mul(a, b / 2)), LowBit(a, b))
  {
  }

  lemma {:induction false} MulZero(b: byte)
    ensures Mul(0, b) == 0
  {
    if b == 0 {
    } else {
      MulZero(b / 2);
    }
  }

  lemma {:induction false} MulAddLeft(a: byte, b: byte, c: byte)
    ensures Mul(Add(a, b), c) == Add(Mul(a, c), Mul(b, c))
    decreases c
  {
    if c == 0 {
    } else {
      var ha, hb := Mul(a, c / 2), Mul(b, c / 2);
      MulAddLeft(a, b, c / 2);
      XtimeXor(ha, hb);
      AddSwaps(Xtime(ha), Xtime(hb), LowBit(a, c), LowBit(b, c));
    }
  }

  lemma {:induction false} MulAddRight(a: byte, b: byte, c: byte)
    ensures Mul(a, Add(b, c)) == Add(Mul(a, b), Mul(a, c))
    decreases b + c
  {
    if b != 0 && c != 0 {
      var d := Add(b, c);
      XorBits(b, c);
      MulAddRight(a, b / 2, c / 2);
      MulByStep(a, b);
      MulByStep(a, c);
      MulByStep(a, d);
      MulAddRightStep(a, b, c, d, Mul(a, b / 2), Mul(a, c / 2));
    }
  }

  lemma MulAddRightStep(a: byte, b: nat, c: nat, d: nat, hb: byte, hc: byte)
    requires d % 2 == (b + c) % 2
    ensures Add(Xtime(Add(hb, hc)), LowBit(a, d))
         == Add(Add(Xtime(hb), LowBit(a, b)), Add(Xtime(hc), LowBit(a, c)))
  {
    XtimeXor(hb, hc);
    AddSelf(a);
    AddSwaps(Xtime(hb), LowBit(a, b), Xtime(hc), LowBit(a, c));
    assert LowBit(a, d) == Add(LowBit(a, b), LowBit(a, c));
  }

  lemma {:induction false} MulXtimeLeft(a: byte, b: byte)
    ensures Mul(Xtime(a), b) == Xtime(Mul(a, b))
    decreases b
  {
    if b == 0 {
    } else {
      MulXtimeLeft(a, b / 2);
      XtimeXor(Xtime(Mul(a, b / 2)), LowBit(a, b));
    }
  }

  // Every byte is xtime of its upper bits plus its lowest bit.
  lemma SplitLowBit(a: byte)
    ensures a == Add(Xtime(a / 2), a % 2)
  {
    var h, l := a / 2, a % 2;
    XorBits(2 * h, l);
    SameHalves(a, Xor(2 * h, l));
  }

  lemma {:induction false} OneMul(b: byte)
    ensures Mul(1, b) == b
  {
    if b == 0 {
    } else {
      OneMul(b / 2);
      SplitLowBit(b);
    }
  }

  // Horner's rule on the bits of the left operand.
  lemma MulByLeftStep(a: byte, b: byte)
    ensures Mul(a, b) == Add(Xtime(Mul(a / 2, b)), LowBit(b, a))
  {
    SplitLowBit(a);
    MulAddLeft(Xtime(a / 2), a % 2, b);
    MulXtimeLeft(a / 2, b);
    MulZero(b);
    OneMul(b);
  }

  lemma {:induction false} MulCommutes(a: byte, b: byte)
    ensures Mul(a, b) == Mul(b, a)
    decreases a
  {
    MulByLeftStep(a, b);
    MulByStep(b, a);
    if a == 0 { MulZero(b); } else { MulCommutes(a / 2, b); }
  }

  lemma MulXtimeRight(a: byte, b: byte)
    ensures Mul(a, Xtime(b)) == Xtime(Mul(a, b))
  {
    MulCommutes(a, Xtime(b));
    MulXtimeLeft(b, a);
    MulCommutes(b, a);
  }

  lemma {:induction false} MulAssociates(a: byte, b: byte, c: byte)
    ensures Mul(Mul(a, b), c) == Mul(a, Mul(b, c))
    decreases c
  {
    if c == 0 {
    } else {
      var bh := Mul(b, c / 2);
      MulAssociates(a, b, c / 2);
      MulXtimeRight(a, bh);
      MulAddRight(a, Xtime(bh), LowBit(b, c));
    }
  }
}
