// What secret sharing promises: any k shares recover the secret, fewer tell nothing about it,
// and verification notices a single altered share among the first k + 3.

module ShamirTheorems {
  import opened Lists
  import opened Field
  import opened Inverses
  import opened Polynomials
  import opened Interpolation
  import opened Shamir

  // Every share belongs to the polynomials cs.
  ghost predicate FromPolynomials(shares: seq<Share>, cs: seq<seq<byte>>) {
    forall i :: 0 <= i < |shares| ==> shares[i] == ShareOf(cs, shares[i].x)
  }

  ghost predicate OfLength(cs: seq<seq<byte>>, k: nat) {
    forall b :: 0 <= b < |cs| ==> |cs[b]| == k
  }

  function ConstantTerms(cs: seq<seq<byte>>): (s: seq<byte>)
    requires forall b :: 0 <= b < |cs| ==> cs[b] != []
    ensures |s| == |cs|
  {
    seq(|cs|, b requires 0 <= b < |cs| => cs[b][0])
  }

  // ---------- recovery ----------

  lemma ColumnIsValues(shares: seq<Share>, cs: seq<seq<byte>>, b: nat)
    requires FromPolynomials(shares, cs) && b < |cs|
    ensures forall i :: 0 <= i < |shares| ==> b < |shares[i].y|
    ensures Column(shares, b) == Values(cs[b], ShareIndices(shares))
  {
    forall i | 0 <= i < |shares|
      ensures b < |shares[i].y| && shares[i].y[b] == Eval(cs[b], shares[i].x)
    {
      assert shares[i] == ShareOf(cs, shares[i].x);
    }
  }

  lemma EnoughSharesRecover(shares: seq<Share>, cs: seq<seq<byte>>, k: nat)
    requires FromPolynomials(shares, cs) && OfLength(cs, k)
    requires 2 <= k <= |shares| && Distinct(ShareIndices(shares))
    ensures ReconstructResult(shares) == Ok(ConstantTerms(cs))
  {
    forall i | 0 <= i < |shares| ensures |shares[i].y| == |cs| {
      assert shares[i] == ShareOf(cs, shares[i].x);
    }
    forall b | 0 <= b < |cs| ensures InterpolatedSecret(shares)[b] == cs[b][0] {
      ColumnIsValues(shares, cs, b);
      InterpolationIsExact(cs[b], ShareIndices(shares));
    }
    assert InterpolatedSecret(shares) == ConstantTerms(cs);
  }

  // Distinct shares picked from one split, in any order.
  ghost predicate PickedFromSplit(picked: seq<Share>, secret: seq<byte>, k: int, n: int, draws: (nat, nat) -> byte) {
    && SplitResult(secret, k, n, draws).Ok?
    && (forall s :: s in picked ==> s in SplitResult(secret, k, n, draws).value)
    && Distinct(ShareIndices(picked))
    && |picked| >= k
  }

  lemma PickedAreConsistent(secret: seq<byte>, k: int, n: int, draws: (nat, nat) -> byte, picked: seq<Share>)
    requires PickedFromSplit(picked, secret, k, n, draws)
    ensures Consistent(picked, AllCoefficients(secret, k, draws), k) && 0 !in ShareIndices(picked)
    ensures ConstantTerms(AllCoefficients(secret, k, draws)) == secret
  {
    var cs, shares := AllCoefficients(secret, k, draws), SplitResult(secret, k, n, draws).value;
    forall i | 0 <= i < |picked| ensures picked[i] == ShareOf(cs, picked[i].x) && picked[i].x != 0 {
      assert picked[i] in shares;
      var j :| 0 <= j < |shares| && shares[j] == picked[i];
    }
  }

  // k or more distinct shares of one split, in any order, give back the secret.
  lemma RoundTrip(secret: seq<byte>, k: int, n: int, draws: (nat, nat) -> byte, picked: seq<Share>)
    requires PickedFromSplit(picked, secret, k, n, draws)
    ensures ReconstructResult(picked) == Ok(secret)
  {
    PickedAreConsistent(secret, k, n, draws, picked);
    EnoughSharesRecover(picked, AllCoefficients(secret, k, draws), k);
  }

  // ---------- secrecy ----------

  // The coefficient vector c shares the byte s and produces the observed values.
  ghost predicate Explains(c: seq<byte>, k: nat, s: byte, xs: seq<byte>, ys: seq<byte>)
    requires |xs| == |ys|
  {
    && |c| == k > 0
    && c[0] == s
    && forall i :: 0 <= i < |xs| ==> Eval(c, xs[i]) == ys[i]
  }

  lemma WithZero(xs: seq<byte>)
    requires Distinct(xs) && 0 !in xs
    ensures Distinct([0] + xs)
  {
  }

  lemma ExplainsWithZero(c: seq<byte>, k: nat, s: byte, xs: seq<byte>, ys: seq<byte>)
    requires |xs| == |ys| && |c| == k > 0
    ensures Explains(c, k, s, xs, ys) <==>
            forall i :: 0 <= i < |xs| + 1 ==> Eval(c, ([0] + xs)[i]) == ([s] + ys)[i]
  {
    var xs', ys' := [0] + xs, [s] + ys;
    EvalAtZero(c, 0);
    if forall i :: 0 <= i < |xs| + 1 ==> Eval(c, xs'[i]) == ys'[i] {
      assert Eval(c, xs'[0]) == ys'[0];
      forall i | 0 <= i < |xs| ensures Eval(c, xs[i]) == ys[i] {
        assert Eval(c, xs'[i + 1]) == ys'[i + 1];
      }
    }
  }

  // Whatever k - 1 shares show, each candidate secret byte has exactly one explanation.
  lemma ExactlyOneExplanation(k: nat, s: byte, xs: seq<byte>, ys: seq<byte>)
    requires k > 0 && |xs| == |ys| == k - 1 && Distinct(xs) && 0 !in xs
    ensures exists c :: Explains(c, k, s, xs, ys) && forall d :: Explains(d, k, s, xs, ys) ==> d == c
  {
    var xs', ys' := [0] + xs, [s] + ys;
    WithZero(xs);
    var c := Interpolant(xs', ys');
    forall i | 0 <= i < |xs'| ensures Eval(c, xs'[i]) == ys'[i] {
      InterpolantFits(xs', ys', i);
    }
    ExplainsWithZero(c, k, s, xs, ys);
    forall d | Explains(d, k, s, xs, ys) ensures d == c {
      ExplainsWithZero(d, k, s, xs, ys);
      AgreeingPolynomialsAreEqual(d, c, xs');
    }
  }

  // The shares at k - 1 indices are consistent with every secret of the same length, each time
  // for exactly one choice of all the random coefficients.
  lemma SharesHideTheSecret(cs: seq<seq<byte>>, k: nat, xs: seq<byte>, candidate: seq<byte>)
    requires k > 0 && OfLength(cs, k) && |candidate| == |cs|
    requires |xs| == k - 1 && Distinct(xs) && 0 !in xs
    ensures exists ds :: HidesBehind(ds, cs, k, xs, candidate)
                         && forall es :: HidesBehind(es, cs, k, xs, candidate) ==> es == ds
  {
    forall b | 0 <= b < |cs|
      ensures exists c :: Explains(c, k, candidate[b], xs, Values(cs[b], xs))
                          && forall d :: Explains(d, k, candidate[b], xs, Values(cs[b], xs)) ==> d == c
    {
      ExactlyOneExplanation(k, candidate[b], xs, Values(cs[b], xs));
    }
    var ds := seq(|cs|, b requires 0 <= b < |cs| => TheExplanation(k, candidate[b], xs, Values(cs[b], xs)));
    forall b | 0 <= b < |cs| ensures Explains(ds[b], k, candidate[b], xs, Values(cs[b], xs)) {
    }
    HidesBehindByByte(ds, cs, k, xs, candidate);
    forall es | HidesBehind(es, cs, k, xs, candidate) ensures es == ds {
      HidesBehindByByte(es, cs, k, xs, candidate);
      forall b | 0 <= b < |cs| ensures es[b] == ds[b] {
        ExactlyOneExplanation(k, candidate[b], xs, Values(cs[b], xs));
      }
    }
  }

  ghost function TheExplanation(k: nat, s: byte, xs: seq<byte>, ys: seq<byte>): (c: seq<byte>)
    requires k > 0 && |xs| == |ys| == k - 1 && Distinct(xs) && 0 !in xs
    ensures Explains(c, k, s, xs, ys)
  {
    ExactlyOneExplanation(k, s, xs, ys);
    var c :| Explains(c, k, s, xs, ys);
    c
  }

  // ds shares the candidate secret and yields the same shares as cs at the indices xs.
  ghost predicate HidesBehind(ds: seq<seq<byte>>, cs: seq<seq<byte>>, k: nat, xs: seq<byte>, candidate: seq<byte>)
    requires k > 0
  {
    && |ds| == |cs|
    && OfLength(ds, k)
    && ConstantTerms(ds) == candidate
    && forall i :: 0 <= i < |xs| ==> ShareOf(ds, xs[i]) == ShareOf(cs, xs[i])
  }

  lemma HidesBehindByByte(ds: seq<seq<byte>>, cs: seq<seq<byte>>, k: nat, xs: seq<byte>, candidate: seq<byte>)
    requires k > 0 && |ds| == |cs| == |candidate|
    ensures HidesBehind(ds, cs, k, xs, candidate) <==>
            forall b :: 0 <= b < |cs| ==> Explains(ds[b], k, candidate[b], xs, Values(cs[b], xs))
  {
    if HidesBehind(ds, cs, k, xs, candidate) {
      forall b | 0 <= b < |cs| ensures Explains(ds[b], k, candidate[b], xs, Values(cs[b], xs)) {
        assert ConstantTerms(ds)[b] == candidate[b];
        forall i | 0 <= i < |xs| ensures Eval(ds[b], xs[i]) == Values(cs[b], xs)[i] {
          assert ShareOf(ds, xs[i]).y[b] == ShareOf(cs, xs[i]).y[b];
        }
      }
    }
    if forall b :: 0 <= b < |cs| ==> Explains(ds[b], k, candidate[b], xs, Values(cs[b], xs)) {
      assert ConstantTerms(ds) == candidate;
      forall i | 0 <= i < |xs| ensures ShareOf(ds, xs[i]) == ShareOf(cs, xs[i]) {
        forall b | 0 <= b < |cs| ensures Eval(ds[b], xs[i]) == Eval(cs[b], xs[i]) {
          assert Values(cs[b], xs)[i] == Eval(cs[b], xs[i]);
        }
      }
    }
  }

  // ---------- secrecy with any number of shares below k ----------

  function PlusPolynomial(c: seq<byte>, d: seq<byte>): (e: seq<byte>)
    requires |c| == |d|
    ensures |e| == |c|
  {
    seq(|c|, i requires 0 <= i < |c| => Add(c[i], d[i]))
  }

  lemma {:induction false} EvalPlus(c: seq<byte>, d: seq<byte>, x: byte)
    requires |c| == |d|
    ensures Eval(PlusPolynomial(c, d), x) == Add(Eval(c, x), Eval(d, x))
    decreases |c|
  {
    if c == [] {
    } else {
      EvalPlus(c[1..], d[1..], x);
      assert PlusPolynomial(c, d)[1..] == PlusPolynomial(c[1..], d[1..]);
      MulAddRight(x, Eval(c[1..], x), Eval(d[1..], x));
      AddSwaps(c[0], d[0], Mul(x, Eval(c[1..], x)), Mul(x, Eval(d[1..], x)));
    }
  }

  lemma PlusTwice(c: seq<byte>, d: seq<byte>)
    requires |c| == |d|
    ensures PlusPolynomial(PlusPolynomial(c, d), d) == c
  {
    forall i | 0 <= i < |c| ensures Add(Add(c[i], d[i]), d[i]) == c[i] { AddCancels(c[i], d[i]); }
  }

  function Zeros(n: nat): seq<byte> { seq(n, _ => 0) }

  lemma {:induction false} EvalZeros(n: nat, x: byte)
    ensures Eval(Zeros(n), x) == 0
  {
    if n == 0 {
    } else {
      EvalZeros(n - 1, x);
      assert Zeros(n)[1..] == Zeros(n - 1);
      MulByZero(x, Eval(Zeros(n - 1), x));
    }
  }

  lemma {:induction false} EvalPadded(c: seq<byte>, n: nat, x: byte)
    ensures Eval(c + Zeros(n), x) == Eval(c, x)
    decreases |c|
  {
    if c == [] {
      EvalZeros(n, x);
      assert c + Zeros(n) == Zeros(n);
    } else {
      EvalPadded(c[1..], n, x);
      assert (c + Zeros(n))[1..] == c[1..] + Zeros(n);
    }
  }

  // A polynomial of length k with the given constant term that vanishes on xs.
  lemma VanishingPolynomial(k: nat, s: byte, xs: seq<byte>) returns (d: seq<byte>)
    requires |xs| < k && Distinct(xs) && 0 !in xs
    ensures Explains(d, k, s, xs, Zeros(|xs|))
  {
    var xs', ys' := [0] + xs, [s] + Zeros(|xs|);
    WithZero(xs);
    var c := Interpolant(xs', ys');
    d := c + Zeros(k - |c|);
    forall i | 0 <= i < |xs'| ensures Eval(d, xs'[i]) == ys'[i] {
      InterpolantFits(xs', ys', i);
      EvalPadded(c, k - |c|, xs'[i]);
    }
    ExplainsWithZero(d, k, s, xs, Zeros(|xs|));
  }

  // Adding one fixed polynomial, which is its own inverse, carries the explanations of s to those
  // of s' and back: fewer than k shares leave all secrets equally many explanations.
  ghost predicate Translates(d: seq<byte>, k: nat, s: byte, s': byte, xs: seq<byte>, ys: seq<byte>)
    requires |xs| == |ys|
  {
    && |d| == k
    && forall c: seq<byte> {:trigger PlusPolynomial(c, d)} :: |c| == k ==>
         (Explains(c, k, s, xs, ys) <==> Explains(PlusPolynomial(c, d), k, s', xs, ys))
  }

  lemma EquallyManyExplanations(k: nat, s: byte, s': byte, xs: seq<byte>, ys: seq<byte>)
    requires |xs| == |ys| < k && Distinct(xs) && 0 !in xs
    ensures exists d :: Translates(d, k, s, s', xs, ys)
  {
    var d := VanishingPolynomial(k, Add(s, s'), xs);
    forall c: seq<byte> | |c| == k
      ensures Explains(c, k, s, xs, ys) <==> Explains(PlusPolynomial(c, d), k, s', xs, ys)
    {
      TranslatedExplanation(c, d, k, s, s', xs, ys);
    }
    assert Translates(d, k, s, s', xs, ys);
  }

  lemma TranslatedExplanation(c: seq<byte>, d: seq<byte>, k: nat, s: byte, s': byte, xs: seq<byte>, ys: seq<byte>)
    requires |xs| == |ys| && |c| == k > 0
    requires Explains(d, k, Add(s, s'), xs, Zeros(|xs|))
    ensures Explains(c, k, s, xs, ys) <==> Explains(PlusPolynomial(c, d), k, s', xs, ys)
  {
    forall i | 0 <= i < |xs| ensures Eval(PlusPolynomial(c, d), xs[i]) == Eval(c, xs[i]) {
      EvalPlus(c, d, xs[i]);
      assert Eval(d, xs[i]) == Zeros(|xs|)[i];
    }
    MoveAcross(c[0], s, s');
  }

  lemma MoveAcross(a: byte, s: byte, s': byte)
    ensures a == s <==> Add(a, Add(s, s')) == s'
  {
    AddAssociates(a, s, s');
    AddCancels(a, s);
    AddCommutes(Add(a, s), s');
    AddCancels(s', Add(a, s));
    if Add(a, Add(s, s')) == s' {
      AddLeftCancels(s', Add(a, s), 0);
    }
  }

  // ---------- detection of one altered share ----------

  lemma {:induction false} SumUpdate(ts: seq<byte>, i: nat, v: byte)
    requires i < |ts|
    ensures Sum(ts[i := v]) == Add(Sum(ts), Add(ts[i], v))
    decreases |ts|
  {
    var n := |ts| - 1;
    var s := Sum(ts[..n]);
    if i == n {
      assert ts[i := v][..n] == ts[..n];
      AddAssociates(s, ts[n], Add(ts[n], v));
      AddAssociates(ts[n], ts[n], v);
      AddSelf(ts[n]);
    } else {
      SumUpdate(ts[..n], i, v);
      assert ts[i := v][..n] == ts[..n][i := v];
      var e := Add(ts[i], v);
      AddAssociates(s, e, ts[n]);
      AddCommutes(e, ts[n]);
      AddAssociates(s, ts[n], e);
    }
  }

  // Altering one value moves the interpolated byte by the error times the weight of the point.
  lemma AtZeroUpdate(xs: seq<byte>, ys: seq<byte>, i: nat, v: byte)
    requires Distinct(xs) && |xs| == |ys| && i < |xs|
    ensures AtZero(xs, ys[i := v]) == Add(AtZero(xs, ys), Mul(Add(ys[i], v), Weight(xs, i)))
  {
    var ws := Weights(xs);
    var ts := Scaled(ys, ws);
    assert Scaled(ys[i := v], ws) == ts[i := Mul(v, ws[i])];
    SumUpdate(ts, i, Mul(v, ws[i]));
    MulAddLeft(ys[i], v, ws[i]);
  }

  // Two overlapping windows weight the same point differently.
  lemma ShiftedWeightsDiffer(b: byte, mid: seq<byte>, a: byte, p: nat)
    requires Distinct([b] + mid) && Distinct(mid + [a]) && a != b
    requires 0 !in [b] + mid && p < |mid|
    ensures Weight([b] + mid, p + 1) != Weight(mid + [a], p)
  {
    var xs := [b] + mid;
    assert xs[1..] == mid;
    WeightDropFirst(xs, p + 1);
    WeightDropLast(mid, a, p);
    WeightNonZero(xs, p + 1);
    WeightsCannotAgree(Weight(xs, p + 1), Weight(mid + [a], p), Weight(mid, p), xs[p + 1], a, b);
  }

  lemma WeightsCannotAgree(w: byte, w': byte, r: byte, x: byte, a: byte, b: byte)
    requires a != b && x != 0 && w != 0
    requires Mul(w, Add(x, b)) == Mul(b, r)
    requires Mul(w', Add(x, a)) == Mul(a, r)
    ensures w != w'
  {
    if w == w' {
      SplitFactor(w, x, a, b);
      MulAddLeft(a, b, r);
      AddCancels(a, b);
      MulCancels(Add(a, b), w, r);
      MulCommutes(a, w);
      MulAddRight(w, x, a);
      AddCancels(Mul(w, x), Mul(w, a));
      AddCommutes(Mul(w, x), Mul(w, a));
      AddLeftCancels(Mul(w, a), Mul(w, x), 0);
      ProductIsZero(w, x);
    }
  }

  // All windows reconstruct, so the comparison says whether they all give the reference.
  lemma {:induction false} CompareAllWindows(shares: seq<Share>, k: nat, reference: seq<byte>, i: nat, m: nat)
    requires i <= m && m + k <= |shares|
    requires forall w :: i < w <= m ==> ReconstructResult(Window(shares, w, k)).Ok?
    ensures CompareWindows(shares, k, reference, i, m)
         == Ok(forall w :: i < w <= m ==> ReconstructResult(Window(shares, w, k)) == Ok(reference))
    decreases m - i
  {
    if i < m {
      assert ReconstructResult(Window(shares, i + 1, k)).Ok?;
      CompareAllWindows(shares, k, reference, i + 1, m);
    }
  }

  // ---------- one window of a list with an altered share ----------

  ghost predicate Consistent(shares: seq<Share>, cs: seq<seq<byte>>, k: nat) {
    && FromPolynomials(shares, cs)
    && OfLength(cs, k)
    && Distinct(ShareIndices(shares))
    && 2 <= k <= |shares|
  }

  lemma WindowIsConsistent(shares: seq<Share>, cs: seq<seq<byte>>, k: nat, w: nat)
    requires Consistent(shares, cs, k) && w + k <= |shares|
    ensures Consistent(Window(shares, w, k), cs, k)
    ensures ReconstructResult(Window(shares, w, k)) == Ok(ConstantTerms(cs))
  {
    var v := Window(shares, w, k);
    forall i | 0 <= i < |v| ensures v[i] == ShareOf(cs, v[i].x) {
      assert shares[w + i] == ShareOf(cs, shares[w + i].x);
    }
    forall i, j | 0 <= i < j < |v| ensures ShareIndices(v)[i] != ShareIndices(v)[j] {
      assert ShareIndices(shares)[w + i] != ShareIndices(shares)[w + j];
    }
    EnoughSharesRecover(v, cs, k);
  }

  // The window with the share at position q altered.
  ghost function Altered(v: seq<Share>, q: nat, y: seq<byte>): (r: seq<Share>)
    requires q < |v|
    ensures |r| == |v|
  {
    v[q := Share(v[q].x, y)]
  }

  // Every byte of the result moves by the error in that byte times the weight of the point.
  lemma AlteredWindow(v: seq<Share>, cs: seq<seq<byte>>, k: nat, q: nat, y: seq<byte>)
    requires Consistent(v, cs, k) && |v| == k && q < k && |y| == |cs|
    ensures var r := ReconstructResult(Altered(v, q, y));
            && r.Ok? && |r.value| == |cs|
            && |v[q].y| == |cs|
            && forall b :: 0 <= b < |cs| ==>
                 r.value[b] == Add(cs[b][0], Mul(Add(v[q].y[b], y[b]), Weight(ShareIndices(v), q)))
  {
    var u := Altered(v, q, y);
    forall i | 0 <= i < |v| ensures |v[i].y| == |cs| {
      assert v[i] == ShareOf(cs, v[i].x);
    }
    assert ShareIndices(u) == ShareIndices(v);
    assert SameLengths(u);
    forall b | 0 <= b < |cs|
      ensures InterpolatedSecret(u)[b] == Add(cs[b][0], Mul(Add(v[q].y[b], y[b]), Weight(ShareIndices(v), q)))
    {
      ColumnIsValues(v, cs, b);
      InterpolationIsExact(cs[b], ShareIndices(v));
      AtZeroUpdate(ShareIndices(v), Column(v, b), q, y[b]);
      assert Column(u, b) == Column(v, b)[q := y[b]];
    }
  }

  lemma AlteredWindowIsWrong(v: seq<Share>, cs: seq<seq<byte>>, k: nat, q: nat, y: seq<byte>)
    requires Consistent(v, cs, k) && |v| == k && q < k && |y| == |cs|
    requires 0 !in ShareIndices(v) && y != v[q].y
    ensures ReconstructResult(Altered(v, q, y)).Ok?
    ensures ReconstructResult(Altered(v, q, y)) != Ok(ConstantTerms(cs))
  {
    AlteredWindow(v, cs, k, q, y);
    var r := ReconstructResult(Altered(v, q, y)).value;
    var b :| 0 <= b < |cs| && v[q].y[b] != y[b];
    ErrorIsVisible(cs[b][0], v[q].y[b], y[b], ShareIndices(v), q);
    assert ConstantTerms(cs)[b] != r[b];
  }

  lemma ErrorIsVisible(s: byte, u: byte, v: byte, xs: seq<byte>, i: nat)
    requires u != v && Distinct(xs) && 0 !in xs && i < |xs|
    ensures Add(s, Mul(Add(u, v), Weight(xs, i))) != s
  {
    var e := Mul(Add(u, v), Weight(xs, i));
    AddCancels(u, v);
    WeightNonZero(xs, i);
    ProductIsZero(Add(u, v), Weight(xs, i));
    if Add(s, e) == s { AddLeftCancels(s, e, 0); }
  }

  lemma AlteredByte(v: seq<Share>, cs: seq<seq<byte>>, k: nat, q: nat, y: seq<byte>, b: nat, e: byte) returns (r: byte)
    requires Consistent(v, cs, k) && |v| == k && q < k && |y| == |cs| && b < |cs|
    requires b < |v[q].y| && e == Add(v[q].y[b], y[b])
    ensures r == Add(cs[b][0], Mul(e, Weight(ShareIndices(v), q)))
    ensures var result := ReconstructResult(Altered(v, q, y));
            result.Ok? && |result.value| == |cs| && result.value[b] == r
  {
    AlteredWindow(v, cs, k, q, y);
    r := ReconstructResult(Altered(v, q, y)).value[b];
  }

  // Windows 0 and 1 both contain the altered share and still disagree.
  lemma OverlappingWindowsDisagree(shares: seq<Share>, cs: seq<seq<byte>>, k: nat, p: nat, y: seq<byte>)
    requires Consistent(shares, cs, k) && k < |shares| && 0 < p < k && |y| == |cs|
    requires 0 !in ShareIndices(shares) && y != shares[p].y
    ensures ReconstructResult(Altered(Window(shares, 0, k), p, y))
         != ReconstructResult(Altered(Window(shares, 1, k), p - 1, y))
  {
    WindowIsConsistent(shares, cs, k, 0);
    WindowIsConsistent(shares, cs, k, 1);
    assert shares[p] == ShareOf(cs, shares[p].x);
    var b :| 0 <= b < |cs| && shares[p].y[b] != y[b];
    var e := Add(shares[p].y[b], y[b]);
    AddCancels(shares[p].y[b], y[b]);
    var r := AlteredByte(Window(shares, 0, k), cs, k, p, y, b, e);
    var r' := AlteredByte(Window(shares, 1, k), cs, k, p - 1, y, b, e);
    WeightsOfWindows(shares, k, p, cs[b][0], e, r, r');
  }

  lemma WeightsOfWindows(shares: seq<Share>, k: nat, p: nat, s: byte, e: byte, r: byte, r': byte)
    requires 0 < p < k < |shares| && e != 0
    requires Distinct(ShareIndices(shares)) && 0 !in ShareIndices(shares)
    requires Distinct(ShareIndices(Window(shares, 0, k))) && Distinct(ShareIndices(Window(shares, 1, k)))
    requires r == Add(s, Mul(e, Weight(ShareIndices(Window(shares, 0, k)), p)))
    requires r' == Add(s, Mul(e, Weight(ShareIndices(Window(shares, 1, k)), p - 1)))
    ensures r != r'
  {
    var us, vs := ShareIndices(Window(shares, 0, k)), ShareIndices(Window(shares, 1, k));
    WindowWeightsDiffer(ShareIndices(shares), k, p, us, vs);
    ErrorsDiffer(s, e, Weight(us, p), Weight(vs, p - 1));
  }

  lemma WindowWeightsDiffer(xs: seq<byte>, k: nat, p: nat, us: seq<byte>, vs: seq<byte>)
    requires Distinct(xs) && 0 !in xs && 0 < p < k < |xs|
    requires us == xs[..k] && vs == xs[1..k + 1]
    ensures Weight(us, p) != Weight(vs, p - 1)
  {
    var mid := xs[1..k];
    assert us == [xs[0]] + mid && vs == mid + [xs[k]];
    ShiftedWeightsDiffer(xs[0], mid, xs[k], p - 1);
  }

  lemma ErrorsDiffer(s: byte, e: byte, w: byte, w': byte)
    requires w != w'
    ensures e != 0 ==> Add(s, Mul(e, w)) != Add(s, Mul(e, w'))
  {
    if e != 0 && Add(s, Mul(e, w)) == Add(s, Mul(e, w')) {
      AddLeftCancels(s, Mul(e, w), Mul(e, w'));
      MulCancels(e, w, w');
    }
  }

  // ---------- verify_shares ----------

  lemma ConsistentSharesVerify(shares: seq<Share>, cs: seq<seq<byte>>, k: nat)
    requires Consistent(shares, cs, k)
    ensures VerifyResult(shares, k) == Ok(true)
  {
    var m := ExtraWindows(shares, k);
    forall w | 0 <= w <= m ensures ReconstructResult(Window(shares, w, k)) == Ok(ConstantTerms(cs)) {
      WindowIsConsistent(shares, cs, k, w);
    }
    CompareAllWindows(shares, k, ConstantTerms(cs), 0, m);
  }

  lemma WindowOfAltered(shares: seq<Share>, k: nat, w: nat, p: nat, y: seq<byte>)
    requires w + k <= |shares| && p < |shares|
    ensures Window(Altered(shares, p, y), w, k)
         == if w <= p < w + k then Altered(Window(shares, w, k), p - w, y) else Window(shares, w, k)
  {
  }

  lemma AlteredWindowReconstructs(shares: seq<Share>, cs: seq<seq<byte>>, k: nat, w: nat, p: nat, y: seq<byte>)
    requires Consistent(shares, cs, k) && p < |shares| && |y| == |cs| && w + k <= |shares|
    requires 0 !in ShareIndices(shares) && y != shares[p].y
    ensures ReconstructResult(Window(Altered(shares, p, y), w, k)).Ok?
    ensures ReconstructResult(Window(Altered(shares, p, y), w, k)) == Ok(ConstantTerms(cs)) <==> !(w <= p < w + k)
  {
    WindowIsConsistent(shares, cs, k, w);
    WindowOfAltered(shares, k, w, p, y);
    if w <= p < w + k {
      assert 0 !in ShareIndices(Window(shares, w, k)) by {
        forall i | 0 <= i < k ensures ShareIndices(Window(shares, w, k))[i] != 0 {
          assert ShareIndices(shares)[w + i] != 0;
        }
      }
      AlteredWindowIsWrong(Window(shares, w, k), cs, k, p - w, y);
    }
  }

  // With one share altered, verification fails exactly when there is a spare share to compare
  // with and the altered one is among the first k + 3.
  lemma OneAlteredShare(shares: seq<Share>, cs: seq<seq<byte>>, k: nat, p: nat, y: seq<byte>)
    requires Consistent(shares, cs, k) && p < |shares| && |y| == |cs|
    requires 0 !in ShareIndices(shares) && y != shares[p].y
    ensures VerifyResult(Altered(shares, p, y), k) == Ok(|shares| == k || p >= k + 3)
  {
    var u := Altered(shares, p, y);
    var m := ExtraWindows(u, k);
    forall w | 0 <= w <= m
      ensures ReconstructResult(Window(u, w, k)).Ok?
      ensures ReconstructResult(Window(u, w, k)) == Ok(ConstantTerms(cs)) <==> !(w <= p < w + k)
    {
      AlteredWindowReconstructs(shares, cs, k, w, p, y);
    }
    var reference := ReconstructResult(Window(u, 0, k)).value;
    CompareAllWindows(u, k, reference, 0, m);
    if m > 0 && p < k + m {
      var w := if p < k then 1 else p - k + 1;
      assert ReconstructResult(Window(u, w, k)) != Ok(reference) by {
        if 0 < p < k {
          WindowOfAltered(shares, k, 0, p, y);
          WindowOfAltered(shares, k, 1, p, y);
          OverlappingWindowsDisagree(shares, cs, k, p, y);
        }
      }
    }
  }

  // Shares picked from one split verify; with the bytes of one share altered they verify exactly
  // if there is no spare share or the altered one comes after the first k + 3.
  lemma VerificationOfSplit(secret: seq<byte>, k: int, n: int, draws: (nat, nat) -> byte, picked: seq<Share>, p: nat,
                            y: seq<byte>)
    requires PickedFromSplit(picked, secret, k, n, draws)
    requires p < |picked| && |y| == |secret|
    ensures VerifyResult(Altered(picked, p, y), k) == Ok(y == picked[p].y || |picked| == k || p >= k + 3)
  {
    var cs := AllCoefficients(secret, k, draws);
    PickedAreConsistent(secret, k, n, draws, picked);
    if y == picked[p].y {
      assert Altered(picked, p, y) == picked;
      ConsistentSharesVerify(picked, cs, k);
    } else {
      OneAlteredShare(picked, cs, k, p, y);
    }
  }
}
