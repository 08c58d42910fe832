// k-of-n secret sharing: every byte of the secret is the constant term of its own polynomial,
// and share i holds the values of all polynomials at i.

module Shamir {
  import opened Lists
  import opened Field
  import opened Polynomials
  import opened Interpolation
  import opened Tables
  import opened CyclicOrder

  datatype Share = Share(x: byte, y: seq<byte>)

  datatype Error =
    | ThresholdBelowTwo
    | TotalBelowThreshold
    | TotalAbove255
    | FewerThanTwoShares
    | LengthsDiffer
    | DuplicateIndices

  datatype Result<+T> = Ok(value: T) | Err(error: Error)

  // ---------- evaluation and interpolation ----------

  method EvalAt(t: GfTables, coeffs: seq<byte>, x: byte) returns (result: byte)
    requires t.Valid()
    ensures result == Eval(coeffs, x)
  {
    result := 0;
    var xPower: byte := 1;
    OneMul(Eval(coeffs, x));
    for i := 0 to |coeffs|
      invariant Add(result, Mul(xPower, Eval(coeffs[i..], x))) == Eval(coeffs, x)
    {
      EvalStep(result, xPower, coeffs[i..], x);
      result := Add(result, t.GfMul(coeffs[i], xPower));
      xPower := t.GfMul(xPower, x);
    }
    AddMulZero(result, xPower);
  }

  // r + p (c0 + x v) == (r + c0 p) + (p x) v
  lemma EvalStep(r: byte, p: byte, c: seq<byte>, x: byte)
    requires c != []
    ensures Add(r, Mul(p, Eval(c, x))) == Add(Add(r, Mul(c[0], p)), Mul(Mul(p, x), Eval(c[1..], x)))
  {
    var v := Eval(c[1..], x);
    MulAddRight(p, c[0], Mul(x, v));
    MulCommutes(p, c[0]);
    MulAssociates(p, x, v);
    AddAssociates(r, Mul(c[0], p), Mul(p, Mul(x, v)));
  }

  lemma AddMulZero(r: byte, p: byte)
    ensures Add(r, Mul(p, 0)) == r
  {
  }

  function Indices(points: seq<(byte, byte)>): (xs: seq<byte>)
    ensures |xs| == |points|
  {
    seq(|points|, i requires 0 <= i < |points| => points[i].0)
  }

  function Ordinates(points: seq<(byte, byte)>): (ys: seq<byte>)
    ensures |ys| == |points|
  {
    seq(|points|, i requires 0 <= i < |points| => points[i].1)
  }

  method LagrangeInterpolate(t: GfTables, points: seq<(byte, byte)>) returns (result: byte)
    requires t.Valid()
    requires Distinct(Indices(points))
    ensures result == AtZero(Indices(points), Ordinates(points))
  {
    var k := |points|;
    ghost var xs, ys := Indices(points), Ordinates(points);
    ghost var terms := Scaled(ys, Weights(xs));
    result := 0;
    for i := 0 to k
      invariant result == Sum(terms[..i])
    {
      var li := LagrangeBasis(t, points, i);
      assert terms[..i + 1][..i] == terms[..i];
      result := Add(result, t.GfMul(points[i].1, li));
    }
    assert terms[..k] == terms;
  }

  method LagrangeBasis(t: GfTables, points: seq<(byte, byte)>, i: nat) returns (li: byte)
    requires t.Valid()
    requires Distinct(Indices(points)) && i < |points|
    ensures li == Weight(Indices(points), i)
  {
    ghost var xs := Indices(points);
    var xi := points[i].0;
    var numerator: byte, denominator: byte := 1, 1;
    for j := 0 to |points|
      invariant numerator == Numerator(xs, i, j)
      invariant denominator == Denominator(xs, i, j)
    {
      if i != j {
        var xj := points[j].0;
        numerator := t.GfMul(numerator, xj);
        denominator := t.GfMul(denominator, Add(xi, xj));
      }
    }
    DenominatorNonZero(xs, i, |points|);
    li := t.GfDiv(numerator, denominator).value;
  }

  // ---------- split ----------

  // The polynomial for byte b: the secret byte followed by k - 1 random coefficients. The
  // random source is a parameter: draws(b, j) is the j-th draw for byte b.
  function Coefficients(secret: seq<byte>, k: nat, draws: (nat, nat) -> byte, b: nat): (c: seq<byte>)
    requires b < |secret| && k >= 1
    ensures |c| == k
  {
    [secret[b]] + seq(k - 1, j requires 0 <= j => draws(b, j))
  }

  function AllCoefficients(secret: seq<byte>, k: nat, draws: (nat, nat) -> byte): (cs: seq<seq<byte>>)
    requires k >= 1
    ensures |cs| == |secret|
  {
    seq(|secret|, b requires 0 <= b < |secret| => Coefficients(secret, k, draws, b))
  }

  // The share at x of a list of polynomials, one per byte.
  function ShareOf(cs: seq<seq<byte>>, x: byte): Share {
    Share(x, seq(|cs|, b requires 0 <= b < |cs| => Eval(cs[b], x)))
  }

  function SharesOf(cs: seq<seq<byte>>, n: nat): (shares: seq<Share>)
    requires n <= 255
    ensures |shares| == n
  {
    seq(n, i requires 0 <= i < n => ShareOf(cs, i + 1))
  }

  function SplitResult(secret: seq<byte>, k: int, n: int, draws: (nat, nat) -> byte): Result<seq<Share>> {
    if k < 2 then Err(ThresholdBelowTwo)
    else if n < k then Err(TotalBelowThreshold)
    else if n > 255 then Err(TotalAbove255)
    else Ok(SharesOf(AllCoefficients(secret, k, draws), n))
  }

  method Split(t: GfTables, secret: seq<byte>, k: int, n: int, draws: (nat, nat) -> byte)
    returns (r: Result<seq<Share>>)
    requires t.Valid()
    ensures r == SplitResult(secret, k, n, draws)
  {
    if k < 2 { return Err(ThresholdBelowTwo); }
    if n < k { return Err(TotalBelowThreshold); }
    if n > 255 { return Err(TotalAbove255); }

    ghost var cs := AllCoefficients(secret, k, draws);
    var sharesY := new byte[n, |secret|]((i, j) => 0);
    for b := 0 to |secret|
      invariant forall i, j :: 0 <= i < n && 0 <= j < b ==> sharesY[i, j] == Eval(cs[j], i + 1)
      invariant t.Valid()
    {
      var coeffs := [secret[b]] + seq(k - 1, j requires 0 <= j => draws(b, j));
      assert coeffs == cs[b];
      for i := 0 to n
        invariant forall i', j :: 0 <= i' < n && 0 <= j < b ==> sharesY[i', j] == Eval(cs[j], i' + 1)
        invariant forall i' :: 0 <= i' < i ==> sharesY[i', b] == Eval(cs[b], i' + 1)
        invariant t.Valid()
      {
        sharesY[i, b] := EvalAt(t, coeffs, i + 1);
      }
    }

    var shares := CollectShares(cs, sharesY, n);
    r := Ok(shares);
  }

  method CollectShares(ghost cs: seq<seq<byte>>, sharesY: array2<byte>, n: nat) returns (shares: seq<Share>)
    requires n <= 255 && sharesY.Length0 == n && sharesY.Length1 == |cs|
    requires forall i, j :: 0 <= i < n && 0 <= j < |cs| ==> sharesY[i, j] == Eval(cs[j], i + 1)
    ensures shares == SharesOf(cs, n)
  {
    ghost var all := SharesOf(cs, n);
    shares := [];
    for i := 0 to n
      invariant shares == all[..i]
    {
      var y := seq(sharesY.Length1, j requires 0 <= j < sharesY.Length1 reads sharesY => sharesY[i, j]);
      assert Share(i + 1, y) == all[i] by {
        assert y == ShareOf(cs, i + 1).y;
      }
      shares := shares + [Share(i + 1, y)];
      assert all[..i + 1] == all[..i] + [all[i]];
    }
  }

  // ---------- reconstruct ----------

  function ShareIndices(shares: seq<Share>): (xs: seq<byte>)
    ensures |xs| == |shares|
  {
    seq(|shares|, i requires 0 <= i < |shares| => shares[i].x)
  }

  predicate SameLengths(shares: seq<Share>) {
    forall i, j :: 0 <= i < |shares| && 0 <= j < |shares| ==> |shares[i].y| == |shares[j].y|
  }

  function Column(shares: seq<Share>, b: nat): (ys: seq<byte>)
    requires forall i :: 0 <= i < |shares| ==> b < |shares[i].y|
    ensures |ys| == |shares|
  {
    seq(|shares|, i requires 0 <= i < |shares| => shares[i].y[b])
  }

  ghost function InterpolatedSecret(shares: seq<Share>): (s: seq<byte>)
    requires shares != [] && SameLengths(shares) && Distinct(ShareIndices(shares))
    ensures |s| == |shares[0].y|
  {
    seq(|shares[0].y|, b requires 0 <= b < |shares[0].y| => AtZero(ShareIndices(shares), Column(shares, b)))
  }

  ghost function ReconstructResult(shares: seq<Share>): Result<seq<byte>> {
    if |shares| < 2 then Err(FewerThanTwoShares)
    else if !SameLengths(shares) then Err(LengthsDiffer)
    else if !Distinct(ShareIndices(shares)) then Err(DuplicateIndices)
    else Ok(InterpolatedSecret(shares))
  }

  method Reconstruct(t: GfTables, shares: seq<Share>) returns (r: Result<seq<byte>>)
    requires t.Valid()
    ensures r == ReconstructResult(shares)
  {
    if |shares| < 2 { return Err(FewerThanTwoShares); }

    var lengths := set s | s in shares :: |s.y|;
    LengthSet(shares, lengths);
    if |lengths| != 1 { return Err(LengthsDiffer); }

    var xValues := ShareIndices(shares);
    var xSet := set x | x in xValues;
    ElementSet(xValues, xSet);
    if |xSet| != |xValues| { return Err(DuplicateIndices); }

    var secretLength := |shares[0].y|;
    var result := new byte[secretLength](_ => 0);
    for b := 0 to secretLength
      invariant forall j :: 0 <= j < b ==> result[j] == InterpolatedSecret(shares)[j]
      invariant t.Valid()
    {
      var points := seq(|shares|, i requires 0 <= i < |shares| => (shares[i].x, shares[i].y[b]));
      assert Indices(points) == xValues;
      assert Ordinates(points) == Column(shares, b);
      result[b] := LagrangeInterpolate(t, points);
    }
    assert result[..] == InterpolatedSecret(shares);
    r := Ok(result[..]);
  }

  lemma LengthSet(shares: seq<Share>, lengths: set<nat>)
    requires shares != [] && lengths == set s | s in shares :: |s.y|
    ensures |lengths| == 1 <==> SameLengths(shares)
  {
    var l := |shares[0].y|;
    assert shares[0] in shares && l in lengths;
    if |lengths| == 1 {
      forall i | 0 <= i < |shares| ensures |shares[i].y| == l {
        assert shares[i] in shares && |shares[i].y| in lengths;
        OneElement(lengths, l, |shares[i].y|);
      }
    }
    if SameLengths(shares) {
      assert lengths == {l};
    }
  }

  lemma OneElement(s: set<nat>, a: nat, b: nat)
    requires |s| == 1 && a in s && b in s
    ensures a == b
  {
    SubsetIsSmaller({a, b}, s);
    assert a != b ==> |{a, b}| == 2;
  }

  lemma {:induction false} ElementSet(xs: seq<byte>, s: set<byte>)
    requires s == set x | x in xs
    ensures |s| <= |xs|
    ensures |s| == |xs| <==> Distinct(xs)
    decreases |xs|
  {
    if xs == [] {
    } else {
      var init, last := xs[..|xs| - 1], xs[|xs| - 1];
      var t := set x | x in init;
      ElementSet(init, t);
      LastElement(xs, init, last, s, t);
    }
  }

  lemma LastElement(xs: seq<byte>, init: seq<byte>, last: byte, s: set<byte>, t: set<byte>)
    requires xs == init + [last] && s == (set x | x in xs) && t == set x | x in init
    ensures |s| == |t| + if last in init then 0 else 1
    ensures Distinct(xs) <==> Distinct(init) && last !in init
  {
    assert s == t + {last} && (last in t <==> last in init);
    if last in init {
      assert s == t;
      var i :| 0 <= i < |init| && init[i] == last;
      assert xs[i] == xs[|init|];
    }
    if Distinct(xs) {
      forall i, j | 0 <= i < j < |init| ensures init[i] != init[j] { assert xs[i] != xs[j]; }
    }
  }

  // ---------- verify_shares ----------

  function Window(shares: seq<Share>, w: nat, k: nat): (s: seq<Share>)
    requires w + k <= |shares|
    ensures |s| == k
  {
    shares[w..w + k]
  }

  // The outcome of comparing windows i + 1, i + 2, ..., m of length k with the reference.
  ghost function CompareWindows(shares: seq<Share>, k: nat, reference: seq<byte>, i: nat, m: nat): Result<bool>
    requires i <= m && m + k <= |shares|
    decreases m - i
  {
    if i == m then Ok(true)
    else
      match ReconstructResult(Window(shares, i + 1, k))
      case Err(e) => Err(e)
      case Ok(s) => if s != reference then Ok(false) else CompareWindows(shares, k, reference, i + 1, m)
  }

  ghost function VerifyResult(shares: seq<Share>, k: nat): Result<bool> {
    if |shares| < k then Ok(false)
    else
      match ReconstructResult(Window(shares, 0, k))
      case Err(e) => Err(e)
      case Ok(reference) => CompareWindows(shares, k, reference, 0, ExtraWindows(shares, k))
  }

  function ExtraWindows(shares: seq<Share>, k: nat): nat
    requires k <= |shares|
  {
    if |shares| - k < 3 then |shares| - k else 3
  }

  method VerifyShares(t: GfTables, shares: seq<Share>, k: nat) returns (r: Result<bool>)
    requires t.Valid()
    ensures r == VerifyResult(shares, k)
  {
    if |shares| < k { return Ok(false); }
    var first := Reconstruct(t, shares[..k]);
    if first.Err? { return Err(first.error); }
    var reference := first.value;
    var m := ExtraWindows(shares, k);
    for i := 0 to m
      invariant VerifyResult(shares, k) == CompareWindows(shares, k, reference, i, m)
    {
      var subset := shares[i + 1..i + 1 + k];
      if |subset| < k { break; }
      var result := Reconstruct(t, subset);
      if result.Err? { return Err(result.error); }
      if result.value != reference { return Ok(false); }
    }
    r := Ok(true);
  }
}
