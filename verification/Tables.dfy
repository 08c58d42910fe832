// The exp and log tables and the arithmetic that reads them.

module Tables {
  import opened Field
  import opened Generator
  import opened Inverses

  // Division by zero raises an error.
  datatype Checked = Checked(value: byte) | DivisionByZero

  class GfTables {
    const exp: array<byte>
    const log: array<nat>
    ghost const powers: seq<byte>

    ghost predicate Valid()
      reads exp, log
    {
      && exp.Length == 512
      && log.Length == 256
      && OnePeriod(powers)
      && (forall i :: 0 <= i < 512 ==> exp[i] == powers[i % 255])
      && (forall i :: 0 <= i < 255 ==> log[powers[i]] == i)
    }

    constructor ()
      ensures Valid() && fresh(exp) && fresh(log)
    {
      exp := new byte[512](_ => 0);
      log := new nat[256](_ => 0);
      powers := seq(255, i requires 0 <= i => Power(i));
      new;
      FillOnePeriod();
      RepeatPeriod();
    }

    method FillOnePeriod()
      requires exp.Length == 512 && log.Length == 256 && OnePeriod(powers)
      modifies exp, log
      ensures forall j :: 0 <= j < 255 ==> exp[j] == powers[j]
      ensures forall j :: 0 <= j < 255 ==> log[powers[j]] == j
    {
      PeriodIsInjective(powers);
      PowerSeqAt(powers, 0);
      var x: byte := 1;
      for i := 0 to 255
        invariant x == if i < 255 then powers[i] else 1
        invariant forall j :: 0 <= j < i ==> exp[j] == powers[j]
        invariant forall j :: 0 <= j < i ==> log[powers[j]] == j
      {
        exp[i] := x;
        log[x] := i;
        if i < 254 { PeriodStep(powers, i); } else { PeriodCloses(powers, i); }
        x := NextPower(x);
      }
    }

    // x * 3 as x * 2 XOR x
    method NextPower(x: byte) returns (y: byte)
      ensures y == Times3(x)
    {
      var x2: byte := (2 * x) % 256;
      Shifted(x, x2);
      if x >= 128 {
        x2 := Add(x2, 0x1B);
      }
      y := Add(x2, x);
    }

    lemma Shifted(x: byte, x2: byte)
      requires x2 == (2 * x) % 256
      ensures x2 == if x >= 128 then 2 * x - 256 else 2 * x
    {
    }

    method RepeatPeriod()
      requires exp.Length == 512 && |powers| == 255
      requires forall j :: 0 <= j < 255 ==> exp[j] == powers[j]
      modifies exp
      ensures forall j :: 0 <= j < 512 ==> exp[j] == powers[j % 255]
    {
      for i := 255 to 512
        invariant forall j :: 0 <= j < i ==> exp[j] == powers[j % 255]
      {
        exp[i] := exp[i - 255];
      }
    }

    lemma Entry(a: byte)
      requires Valid() && a != 0
      ensures log[a] < 255 && powers[log[a]] == a
    {
      var l := PeriodHasEveryByte(powers, a);
    }

    function GfMul(a: byte, b: byte): (r: byte)
      requires Valid()
      reads exp, log
      ensures r == Mul(a, b)
    {
      if a == 0 || b == 0 then ProductIsZero(a, b); 0
      else
        MulEntry(a, b, (log[a] + log[b]) % 255);
        exp[(log[a] + log[b]) % 255]
    }

    lemma MulEntry(a: byte, b: byte, i: nat)
      requires Valid() && a != 0 && b != 0 && i == (log[a] + log[b]) % 255
      ensures exp[i] == Mul(a, b)
    {
      Entry(a);
      Entry(b);
      MulAt(a, b, log[a], log[b], i);
    }

    lemma MulAt(a: byte, b: byte, l: nat, m: nat, i: nat)
      requires Valid() && l < 255 && m < 255 && powers[l] == a && powers[m] == b && i == (l + m) % 255
      ensures exp[i] == Mul(a, b)
    {
      PeriodMul(powers, a, b, l, m, i);
    }

    // Python's % is floored, and so is Dafny's for a positive divisor.
    function GfDiv(a: byte, b: byte): (r: Checked)
      requires Valid()
      reads exp, log
      ensures r == if b == 0 then DivisionByZero else Checked(Divide(a, b))
    {
      if b == 0 then DivisionByZero
      else if a == 0 then ZeroDivided(a, b); Checked(a)
      else
        DivEntry(a, b, (log[a] as int - log[b]) % 255);
        Checked(exp[(log[a] as int - log[b]) % 255])
    }

    lemma DivEntry(a: byte, b: byte, i: nat)
      requires Valid() && a != 0 && b != 0 && i == (log[a] as int - log[b]) % 255
      ensures exp[i] == Divide(a, b)
    {
      Entry(a);
      Entry(b);
      DivAt(a, b, log[a], log[b], i);
    }

    lemma DivAt(a: byte, b: byte, l: nat, m: nat, i: nat)
      requires Valid() && l < 255 && m < 255 && powers[l] == a && powers[m] == b && b != 0 && i == (l - m) % 255
      ensures exp[i] == Divide(a, b)
    {
      PeriodDiv(powers, a, b, l, m, i);
      WrapsAround(l, m, i);
      ExpAt(i, powers[i]);
    }

    lemma ExpAt(i: nat, p: byte)
      requires Valid() && i < 255 && powers[i] == p
      ensures exp[i] == p
    {
    }

    function GfInv(a: byte): (r: Checked)
      requires Valid()
      reads exp, log
      ensures r == if a == 0 then DivisionByZero else Checked(Inverse(a))
    {
      if a == 0 then DivisionByZero
      else
        InverseEntry(a);
        Checked(exp[255 - log[a]])
    }

    lemma InverseEntry(a: byte)
      requires Valid() && a != 0
      ensures log[a] < 255 && exp[255 - log[a]] == Inverse(a)
    {
      Entry(a);
      PeriodInverse(powers, a, log[a], (255 - log[a]) % 255);
    }

    // On 1..255 and 0..254 the two tables undo each other.
    lemma TablesAreInverse(a: byte, i: nat)
      requires Valid() && a != 0 && i < 255
      ensures log[a] < 255 && exp[log[a]] == a
      ensures exp[i] != 0 && log[exp[i]] == i
    {
      Entry(a);
      PeriodNonZero(powers, i);
    }
  }
}
