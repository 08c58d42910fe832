// Iterating a step function f from 1. Keeping f and the exponents abstract keeps the verifier
// from unfolding the iteration.

module CyclicOrder {
  import opened Field

  function Iterate(f: byte -> byte, i: nat): byte {
    if i == 0 then 1 else f(Iterate(f, i - 1))
  }

  lemma {:induction false} Shift(f: byte -> byte, e: nat, g: nat, i: nat)
    requires Iterate(f, e) == Iterate(f, g)
    ensures Iterate(f, e + i) == Iterate(f, g + i)
  {
    if i == 0 {
    } else {
      Shift(f, e, g, i - 1);
    }
  }

  // If f commutes with a product whose unit is 1, exponents add.
  lemma {:induction false} IteratesAdd(f: byte -> byte, mul: (byte, byte) -> byte, m: nat, n: nat)
    requires forall y :: mul(1, y) == y
    requires forall x, y {:trigger mul(f(x), y)} :: mul(f(x), y) == f(mul(x, y))
    ensures Iterate(f, m + n) == mul(Iterate(f, m), Iterate(f, n))
  {
    if m == 0 {
    } else {
      IteratesAdd(f, mul, m - 1, n);
    }
  }

  lemma {:induction false} UnitMultiple(f: byte -> byte, e: nat, k: nat)
    requires Iterate(f, e) == 1
    ensures Iterate(f, e * k) == 1
  {
    if k == 0 {
    } else {
      var p := e * (k - 1);
      UnitMultiple(f, e, k - 1);
      Shift(f, p, 0, e);
      assert p + e == e * k;
    }
  }

  lemma AfterPeriods(f: byte -> byte, e: nat, k: nat, i: nat)
    requires Iterate(f, e) == 1
    ensures Iterate(f, e * k + i) == Iterate(f, i)
  {
    UnitMultiple(f, e, k);
    Shift(f, e * k, 0, i);
  }

  // n is the number of steps after which f first returns to 1.
  ghost predicate HasOrder(f: byte -> byte, n: nat) {
    && n > 0
    && Iterate(f, n) == 1
    && forall d: nat :: 0 < d < n ==> Iterate(f, d) != 1
  }

  lemma DivisionWithRemainder(i: nat, n: nat)
    requires n > 0
    ensures n * (i / n) + i % n == i && 0 <= i % n < n
  {
  }

  lemma UnitIffMultiple(f: byte -> byte, n: nat, i: nat)
    requires HasOrder(f, n)
    ensures Iterate(f, i) == 1 <==> i % n == 0
  {
    DivisionWithRemainder(i, n);
    AfterPeriods(f, n, i / n, i % n);
  }

  lemma IteratesDiffer(f: byte -> byte, n: nat, i: nat, j: nat)
    requires HasOrder(f, n) && i < j < n
    ensures Iterate(f, i) != Iterate(f, j)
  {
    assert j + (n - i) == n * 1 + (j - i);
    if Iterate(f, i) == Iterate(f, j) {
      Shift(f, i, j, n - i);
      AfterPeriods(f, n, 1, j - i);
    }
  }

  // A fixed point of f is never reached.
  lemma AvoidsFixedPoint(f: byte -> byte, n: nat, i: nat, z: byte)
    requires HasOrder(f, n) && n > 1 && f(z) == z
    ensures Iterate(f, i) != z
  {
    if Iterate(f, i) == z {
      assert Iterate(f, i + 1) == z;
      var d := n * (i + 1) - i;
      assert d >= 0;
      Shift(f, i, i + 1, d);
      AfterPeriods(f, n, i + 1, 0);
      AfterPeriods(f, n, i + 1, 1);
    }
  }

  // ---------- an order from its prime factors ----------

  // If n == q * c steps return to 1 but c steps do not, every return to 1 takes a multiple of
  // q steps, provided the remainder of d modulo q has an inverse s.
  lemma ReturnsAreMultiples(f: byte -> byte, n: nat, q: nat, c: nat, d: nat, s: nat)
    requires q > 0 && n == q * c && Iterate(f, n) == 1 && Iterate(f, d) == 1
    requires ((d % q) * s) % q == 1
    ensures Iterate(f, c) == 1
  {
    var k := BezoutStep(n, q, c, d, s);
    UnitMultiple(f, d, s * c);
    AfterPeriods(f, n, k, c);
  }

  // The inverse of d modulo one of the primes 3, 5 and 17.
  function InverseModulo(q: nat, d: nat): (s: nat)
    requires q == 3 || q == 5 || q == 17
    requires d % q != 0
    ensures ((d % q) * s) % q == 1
  {
    var r := d % q;
    if q == 3 then r
    else if q == 5 then (if r == 1 then 1 else if r == 2 then 3 else if r == 3 then 2 else 4)
    else InverseModulo17(r)
  }

  function InverseModulo17(r: nat): (s: nat)
    requires 0 < r < 17
    ensures (r * s) % 17 == 1
  {
    [1, 9, 6, 13, 7, 3, 5, 15, 2, 12, 14, 10, 4, 11, 8, 16][r - 1]
  }

  lemma BezoutStep(n: nat, q: nat, c: nat, d: nat, s: nat) returns (k: nat)
    requires q > 0 && n == q * c && ((d % q) * s) % q == 1
    ensures d * (s * c) == n * k + c
  {
    var a, r := d / q, d % q;
    var t := (r * s) / q;
    k := a * s + t;
    Rearrange(q, c, a, r, s, t);
    assert d == q * a + r;
  }

  lemma Rearrange(q: nat, c: nat, a: nat, r: nat, s: nat, t: nat)
    requires r * s == q * t + 1
    ensures (q * a + r) * (s * c) == q * c * (a * s + t) + c
  {
    calc {
      (q * a + r) * (s * c);
      (q * a) * (s * c) + r * (s * c);
      { assert r * (s * c) == (r * s) * c; }
      (q * a) * (s * c) + (q * t + 1) * c;
      { assert (q * a) * (s * c) == q * c * (a * s); }
      { assert (q * t + 1) * c == q * c * t + c; }
      q * c * (a * s) + q * c * t + c;
    }
  }

  // ---------- counting ----------

  lemma {:induction false} IteratesUpTo(f: byte -> byte, n: nat, m: nat) returns (s: set<nat>)
    requires HasOrder(f, n) && m <= n
    ensures |s| == m && IteratesBelow(f, m, s)
  {
    if m == 0 {
      s := {};
    } else {
      var t := IteratesUpTo(f, n, m - 1);
      var v := Iterate(f, m - 1);
      IterateIsNew(f, n, m - 1, t);
      s := t + {v};
      OneIterateMore(f, m, t, s);
    }
  }

  lemma OneIterateMore(f: byte -> byte, m: nat, t: set<nat>, s: set<nat>)
    requires m > 0 && IteratesBelow(f, m - 1, t) && s == t + {Iterate(f, m - 1)}
    ensures IteratesBelow(f, m, s)
  {
    forall v | v in s ensures exists i: nat :: i < m && Iterate(f, i) == v {
      if v in t {
        var i: nat :| i < m - 1 && Iterate(f, i) == v;
      }
    }
  }

  ghost predicate IteratesBelow(f: byte -> byte, m: nat, s: set<nat>) {
    && (forall v :: v in s ==> exists i: nat :: i < m && Iterate(f, i) == v)
    && (forall i: nat :: i < m ==> Iterate(f, i) in s)
  }

  lemma IterateIsNew(f: byte -> byte, n: nat, m: nat, s: set<nat>)
    requires HasOrder(f, n) && m < n && IteratesBelow(f, m, s)
    ensures Iterate(f, m) !in s
  {
    if Iterate(f, m) in s {
      var i: nat :| i < m && Iterate(f, i) == Iterate(f, m);
      IteratesDiffer(f, n, i, m);
    }
  }

  lemma {:induction false} SubsetIsSmaller(s: set<nat>, t: set<nat>)
    requires s <= t
    ensures |s| <= |t|
  {
    if s != {} {
      var x: nat :| x in s;
      SubsetIsSmaller(s - {x}, t - {x});
    }
  }

  lemma {:induction false} PositiveUpTo(n: nat) returns (s: set<nat>)
    ensures |s| == n
    ensures forall v: nat :: v in s <==> 1 <= v <= n
  {
    if n == 0 {
      s := {};
    } else {
      var t := PositiveUpTo(n - 1);
      s := t + {n};
    }
  }

  // n distinct iterates among the n numbers 1, ..., n leave none out.
  lemma IteratesFill(f: byte -> byte, n: nat, v: byte) returns (i: nat)
    requires HasOrder(f, n) && 1 <= v <= n
    requires forall i: nat :: i < n ==> 1 <= Iterate(f, i) <= n
    ensures i < n && Iterate(f, i) == v
  {
    var s := IteratesUpTo(f, n, n);
    var t := PositiveUpTo(n);
    if v !in s {
      forall w | w in s ensures w in t - {v as nat} {
        var i: nat :| i < n && Iterate(f, i) == w;
      }
      SubsetIsSmaller(s, t - {v as nat});
    }
    i :| i < n && Iterate(f, i) == v;
  }
}
