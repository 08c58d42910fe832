// Polynomials over GF(2) spelled out as lists of coefficient bits, so that the verifier can
// evaluate concrete products. A product of bytes is certified by its quotient and remainder.

module BitLists {
  import opened Field
  import opened CarrylessProduct

  datatype Bits = Empty | Snoc(high: Bits, low: bool) {
    // Append a bit: Empty.I().O() is binary 10.
    function I(): Bits { Snoc(this, true) }
    function O(): Bits { Snoc(this, false) }
  }

  function Bit(b: bool): nat { if b then 1 else 0 }

  function Value(p: Bits): nat {
    match p
    case Empty => 0
    case Snoc(high, low) => 2 * Value(high) + Bit(low)
  }

  function Plus(p: Bits, q: Bits): Bits {
    match (p, q)
    case (Empty, _) => q
    case (Snoc(_, _), Empty) => p
    case (Snoc(h, l), Snoc(h', l')) => Snoc(Plus(h, h'), l != l')
  }

  function Times(p: Bits, q: Bits): Bits
    decreases q
  {
    match q
    case Empty => Empty
    case Snoc(high, low) => Plus(Snoc(Times(p, high), false), if low then p else Empty)
  }

  predicate IsZero(p: Bits) {
    match p
    case Empty => true
    case Snoc(high, low) => !low && IsZero(high)
  }

  lemma {:induction false} ValuePlus(p: Bits, q: Bits)
    ensures Value(Plus(p, q)) == Xor(Value(p), Value(q))
  {
    if p.Snoc? && q.Snoc? {
      ValuePlus(p.high, q.high);
      XorAppendsBit(Value(p.high), Value(q.high), Bit(p.low), Bit(q.low), Value(p), Value(q), Xor(Value(p), Value(q)));
    }
  }

  lemma XorAppendsBit(x: nat, y: nat, s: nat, t: nat, u: nat, v: nat, w: nat)
    requires s < 2 && t < 2 && u == 2 * x + s && v == 2 * y + t && w == Xor(u, v)
    ensures w == 2 * Xor(x, y) + (if s == t then 0 else 1)
  {
    assert x == u / 2 && y == v / 2;
    XorBits(u, v);
    SumParity(x, y, s, t);
  }

  lemma SumParity(x: nat, y: nat, s: nat, t: nat)
    requires s < 2 && t < 2
    ensures (2 * x + s + (2 * y + t)) % 2 == if s == t then 0 else 1
  {
  }

  lemma {:induction false} ValueTimes(p: Bits, q: Bits)
    ensures Value(Times(p, q)) == Product(Value(p), Value(q))
  {
    if q.Snoc? {
      ValueTimes(p, q.high);
      ValuePlus(Snoc(Times(p, q.high), false), if q.low then p else Empty);
      assert Value(q) / 2 == Value(q.high) && Value(q) % 2 == Bit(q.low);
      ProductByStep(Value(p), Value(q));
      assert Value(Snoc(Times(p, q.high), false)) == 2 * Product(Value(p), Value(q) / 2);
    }
  }

  lemma {:induction false} ValueZero(p: Bits)
    requires IsZero(p)
    ensures Value(p) == 0
  {
    if p.Snoc? { ValueZero(p.high); }
  }

  function ModulusBits(): Bits { Empty.I().O().O().O().I().I().O().I().I() }

  // a * b == modulus * q + r, checked bit by bit.
  predicate Certifies(a: Bits, b: Bits, q: Bits, r: Bits) {
    IsZero(Plus(Times(a, b), Plus(Times(ModulusBits(), q), r)))
  }

  lemma CertifiedProduct(a: Bits, b: Bits, q: Bits, r: Bits)
    requires Value(a) < 256 && Value(b) < 256 && Value(r) < 256
    requires Certifies(a, b, q, r)
    ensures Mul(Value(a), Value(b)) == Value(r)
  {
    var m := Times(ModulusBits(), q);
    ValueTimes(a, b);
    ValueTimes(ModulusBits(), q);
    ValuePlus(m, r);
    ValuePlus(Times(a, b), Plus(m, r));
    ValueZero(Plus(Times(a, b), Plus(m, r)));
    XorIsZero(Value(Times(a, b)), Value(Plus(m, r)));
    assert Value(ModulusBits()) == MODULUS;
    assert IsRemainder(Product(Value(a), Value(b)), Value(r));
    MulIsProductModulo(Value(a), Value(b), Value(r));
  }
}
