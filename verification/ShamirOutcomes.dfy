// What splitting, reconstruction and verification do on all inputs, and that the shares of a split
// hide its secret.

module ShamirOutcomes {
  import opened Lists
  import opened Field
  import opened Inverses
  import opened Polynomials
  import opened Interpolation
  import opened Shamir
  import opened ShamirTheorems
  import opened Secrecy

  // ---------- split ----------

  lemma SplitAcceptsWhen(secret: seq<byte>, k: int, n: int, draws: (nat, nat) -> byte)
    ensures var r := SplitResult(secret, k, n, draws);
            && (r.Ok? <==> 2 <= k <= n <= 255)
            && (r == Err(ThresholdBelowTwo) <==> k < 2)
            && (r == Err(TotalBelowThreshold) <==> n < k && 2 <= k)
            && (r == Err(TotalAbove255) <==> 255 < n && 2 <= k <= n)
  {
  }

  // x to the power of j.
  function Raise(x: byte, j: nat): byte {
    if j == 0 then 1 else Mul(Raise(x, j - 1), x)
  }

  lemma {:induction false} EvalAppend(c: seq<byte>, a: byte, x: byte)
    ensures Eval(c + [a], x) == Add(Eval(c, x), Mul(a, Raise(x, |c|)))
    decreases |c|
  {
    if c == [] {
      EvalSingle(a, x, 1);
    } else {
      var rest := c[1..];
      EvalAppend(rest, a, x);
      assert (c + [a])[1..] == rest + [a];
      AppendStep(c[0], x, Eval(rest, x), a, Raise(x, |rest|));
    }
  }

  lemma EvalSingle(a: byte, x: byte, u: byte)
    requires u == 1
    ensures Eval([a], x) == Mul(a, u)
  {
    assert Eval([a], x) == Add(a, Mul(x, Eval([], x)));
    MulByZero(x, Eval([], x));
    MulByUnit(a, u);
  }

  // c + x (v + a p) == (c + x v) + a (p x)
  lemma AppendStep(c: byte, x: byte, v: byte, a: byte, p: byte)
    ensures Add(c, Mul(x, Add(v, Mul(a, p)))) == Add(Add(c, Mul(x, v)), Mul(a, Mul(p, x)))
  {
    MulAddRight(x, v, Mul(a, p));
    MulCommutes(x, Mul(a, p));
    MulAssociates(a, p, x);
    AddAssociates(c, Mul(x, v), Mul(Mul(a, p), x));
  }

  // The terms that the draws for byte b contribute to the share at x.
  function DrawnTerms(draws: (nat, nat) -> byte, b: nat, m: nat, x: byte): (ts: seq<byte>)
    ensures |ts| == m
  {
    seq<byte>(m, j requires 0 <= j => Mul(draws(b, j), Raise(x, j + 1)))
  }

  lemma {:induction false} EvalOfDraws(s: byte, draws: (nat, nat) -> byte, b: nat, m: nat, x: byte, c: seq<byte>)
    requires c == [s] + seq(m, j requires 0 <= j => draws(b, j))
    ensures Eval(c, x) == Add(s, Sum(DrawnTerms(draws, b, m, x)))
    decreases m
  {
    if m == 0 {
      assert c == [s];
      EvalSingle(s, x, 1);
      MulByUnit(s, 1);
      AddZero(s);
    } else {
      var init := [s] + seq(m - 1, j requires 0 <= j => draws(b, j));
      var ts := DrawnTerms(draws, b, m, x);
      assert c == init + [draws(b, m - 1)];
      assert ts[..m - 1] == DrawnTerms(draws, b, m - 1, x);
      EvalOfDraws(s, draws, b, m - 1, x, init);
      EvalAppend(init, draws(b, m - 1), x);
      AddAssociates(s, Sum(ts[..m - 1]), ts[m - 1]);
    }
  }

  lemma AddZero(a: byte)
    ensures Add(a, 0) == a
  {
  }

  // Byte b of the share at x is the secret byte plus the sum of the draws, each multiplied by the
  // next power of x.
  lemma ShareBytes(secret: seq<byte>, k: int, n: int, draws: (nat, nat) -> byte, i: nat, b: nat)
    requires 2 <= k <= n <= 255 && i < n && b < |secret|
    ensures var r := SplitResult(secret, k, n, draws);
            && r.Ok? && |r.value| == n && r.value[i].x == i + 1 && |r.value[i].y| == |secret|
            && r.value[i].y[b] == Add(secret[b], Sum(DrawnTerms(draws, b, k - 1, i + 1)))
  {
    EvalOfDraws(secret[b], draws, b, k - 1, i + 1, Coefficients(secret, k, draws, b));
  }

  // ---------- secrecy ----------

  // Two lists of shares agree at these positions.
  ghost predicate AgreeAt(ps: seq<nat>, shares: seq<Share>, others: seq<Share>) {
    forall i :: 0 <= i < |ps| ==> ps[i] < |shares| && ps[i] < |others| && shares[ps[i]] == others[ps[i]]
  }

  // The same draws wherever a split of this size looks at them.
  ghost predicate SameDraws(d: (nat, nat) -> byte, e: (nat, nat) -> byte, length: nat, k: nat) {
    forall b, j :: 0 <= b < length && 0 <= j < k - 1 ==> d(b, j) == e(b, j)
  }

  function IndicesAt(ps: seq<nat>): (xs: seq<byte>)
    requires forall i :: 0 <= i < |ps| ==> ps[i] < 255
    ensures |xs| == |ps|
  {
    seq(|ps|, i requires 0 <= i < |ps| => ps[i] + 1)
  }

  function DrawsOf(ds: seq<seq<byte>>): (nat, nat) -> byte {
    (b: nat, j: nat) => if b < |ds| && j + 1 < |ds[b]| then ds[b][j + 1] else 0
  }

  lemma DrawsGiveCoefficients(ds: seq<seq<byte>>, k: nat)
    requires k >= 1 && OfLength(ds, k)
    ensures AllCoefficients(ConstantTerms(ds), k, DrawsOf(ds)) == ds
  {
    var s := ConstantTerms(ds);
    forall b | 0 <= b < |ds| ensures Coefficients(s, k, DrawsOf(ds), b) == ds[b] {
      assert Coefficients(s, k, DrawsOf(ds), b)[0] == ds[b][0];
    }
  }

  lemma SplitsAgreeWhen(secret: seq<byte>, candidate: seq<byte>, k: int, n: int, draws: (nat, nat) -> byte,
                        other: (nat, nat) -> byte, ps: seq<nat>)
    requires 2 <= k <= n <= 255 && |candidate| == |secret| && forall i :: 0 <= i < |ps| ==> ps[i] < n
    ensures AgreeAt(ps, SplitResult(secret, k, n, draws).value, SplitResult(candidate, k, n, other).value)
            <==> HidesBehind(AllCoefficients(candidate, k, other), AllCoefficients(secret, k, draws), k, IndicesAt(ps),
                             candidate)
  {
    var cs, ds, xs := AllCoefficients(secret, k, draws), AllCoefficients(candidate, k, other), IndicesAt(ps);
    assert ConstantTerms(ds) == candidate;
    forall i | 0 <= i < |ps|
      ensures SplitResult(secret, k, n, draws).value[ps[i]] == ShareOf(cs, xs[i])
      ensures SplitResult(candidate, k, n, other).value[ps[i]] == ShareOf(ds, xs[i])
    {
    }
  }

  lemma {:induction false} PowersArePositive(base: nat, n: nat)
    requires base > 0
    ensures PowerOf(base, n) > 0
  {
    if n == 0 {
    } else {
      PowersArePositive(base, n - 1);
    }
  }

  lemma {:induction false} Power256IsPositive(n: nat)
    ensures Power256(n) > 0
  {
    if n == 0 {
    } else {
      Power256IsPositive(n - 1);
    }
  }

  lemma IndicesDiffer(ps: seq<nat>)
    requires Distinct(ps) && forall i :: 0 <= i < |ps| ==> ps[i] < 255
    ensures Distinct(IndicesAt(ps)) && 0 !in IndicesAt(ps)
  {
  }

  // Fewer than k shares of a split could come from a split of any other secret of the same length.
  lemma SplitHidesTheSecret(secret: seq<byte>, candidate: seq<byte>, k: int, n: int, draws: (nat, nat) -> byte,
                            ps: seq<nat>)
    returns (other: (nat, nat) -> byte)
    requires 2 <= k <= n <= 255 && |candidate| == |secret|
    requires |ps| < k && Distinct(ps) && forall i :: 0 <= i < |ps| ==> ps[i] < n
    ensures AgreeAt(ps, SplitResult(secret, k, n, draws).value, SplitResult(candidate, k, n, other).value)
  {
    var cs, xs := AllCoefficients(secret, k, draws), IndicesAt(ps);
    IndicesDiffer(ps);
    var P := CountHidingCoefficients(cs, k, xs, candidate);
    Power256IsPositive(k - 1 - |xs|);
    PowersArePositive(Power256(k - 1 - |xs|), |cs|);
    var ds :| ds in P;
    other := DrawsOf(ds);
    DrawsGiveCoefficients(ds, k);
    SplitsAgreeWhen(secret, candidate, k, n, draws, other, ps);
  }

  // With k - 1 shares the other draws are determined.
  lemma SplitHidesInOneWay(secret: seq<byte>, candidate: seq<byte>, k: int, n: int, draws: (nat, nat) -> byte,
                           ps: seq<nat>, d: (nat, nat) -> byte, e: (nat, nat) -> byte)
    requires 2 <= k <= n <= 255 && |candidate| == |secret|
    requires |ps| == k - 1 && Distinct(ps) && forall i :: 0 <= i < |ps| ==> ps[i] < n
    requires AgreeAt(ps, SplitResult(secret, k, n, draws).value, SplitResult(candidate, k, n, d).value)
    requires AgreeAt(ps, SplitResult(secret, k, n, draws).value, SplitResult(candidate, k, n, e).value)
    ensures SameDraws(d, e, |secret|, k)
  {
    var cs := AllCoefficients(secret, k, draws);
    var ds, es := AllCoefficients(candidate, k, d), AllCoefficients(candidate, k, e);
    IndicesDiffer(ps);
    SplitsAgreeWhen(secret, candidate, k, n, draws, d, ps);
    SplitsAgreeWhen(secret, candidate, k, n, draws, e, ps);
    SharesHideTheSecret(cs, k, IndicesAt(ps), candidate);
    assert ds == es;
    forall b, j | 0 <= b < |secret| && 0 <= j < k - 1 ensures d(b, j) == e(b, j) {
      assert ds[b][j + 1] == d(b, j) && es[b][j + 1] == e(b, j);
    }
  }

  // ---------- reconstruct ----------

  lemma ReconstructAcceptsWhen(shares: seq<Share>)
    ensures var r := ReconstructResult(shares);
            var equal := forall s, t :: s in shares && t in shares ==> |s.y| == |t.y|;
            var twice := exists i, j :: 0 <= i < j < |shares| && shares[i].x == shares[j].x;
            && (r == Err(FewerThanTwoShares) <==> |shares| < 2)
            && (r == Err(LengthsDiffer) <==> |shares| >= 2 && !equal)
            && (r == Err(DuplicateIndices) <==> |shares| >= 2 && equal && twice)
            && (r.Ok? <==> |shares| >= 2 && equal && !twice)
  {
    assert SameLengths(shares) <==> forall s, t :: s in shares && t in shares ==> |s.y| == |t.y| by {
      if SameLengths(shares) {
        forall s, t | s in shares && t in shares ensures |s.y| == |t.y| {
          var i :| 0 <= i < |shares| && shares[i] == s;
          var j :| 0 <= j < |shares| && shares[j] == t;
        }
      } else {
        var i, j :| 0 <= i < |shares| && 0 <= j < |shares| && |shares[i].y| != |shares[j].y|;
        assert shares[i] in shares && shares[j] in shares;
      }
    }
    assert Distinct(ShareIndices(shares)) <==>
             !(exists i, j :: 0 <= i < j < |shares| && shares[i].x == shares[j].x) by {
      if exists i, j :: 0 <= i < j < |shares| && shares[i].x == shares[j].x {
        var i, j :| 0 <= i < j < |shares| && shares[i].x == shares[j].x;
        assert ShareIndices(shares)[i] == ShareIndices(shares)[j];
      }
    }
  }

  // The secret that any accepted shares give is that of the only polynomials with one coefficient a
  // share through all of them.
  lemma ReconstructsThePolynomials(shares: seq<Share>) returns (cs: seq<seq<byte>>)
    requires ReconstructResult(shares).Ok?
    ensures OfLength(cs, |shares|) && FromPolynomials(shares, cs)
    ensures ReconstructResult(shares) == Ok(ConstantTerms(cs))
  {
    var xs := ShareIndices(shares);
    cs := seq(|shares[0].y|, b requires 0 <= b < |shares[0].y| => Interpolant(xs, Column(shares, b)));
    forall i | 0 <= i < |shares| ensures shares[i] == ShareOf(cs, shares[i].x) {
      forall b | 0 <= b < |cs| ensures Eval(cs[b], shares[i].x) == shares[i].y[b] {
        InterpolantFits(xs, Column(shares, b), i);
      }
    }
    EnoughSharesRecover(shares, cs, |shares|);
  }

  // ---------- verify_shares ----------

  // The result of reconstructing from the k shares at positions w, w + 1, ...
  ghost function At(shares: seq<Share>, w: nat, k: nat): Result<seq<byte>>
    requires w + k <= |shares|
  {
    ReconstructResult(shares[w..w + k])
  }

  function LastWindow(shares: seq<Share>, k: nat): nat
    requires k <= |shares|
  {
    if |shares| >= k + 3 then 3 else |shares| - k
  }

  // Window w is the first that does not give the reference.
  ghost predicate FirstOther(shares: seq<Share>, k: nat, reference: seq<byte>, i: nat, w: nat, m: nat)
    requires m + k <= |shares|
  {
    i < w <= m && At(shares, w, k) != Ok(reference) && forall v :: i < v < w ==> At(shares, v, k) == Ok(reference)
  }

  lemma {:induction false} ComparesInOrder(shares: seq<Share>, k: nat, reference: seq<byte>, i: nat, m: nat)
    requires i <= m && m + k <= |shares|
    ensures var r := CompareWindows(shares, k, reference, i, m);
            && (r == Ok(true) <==> forall w :: i < w <= m ==> At(shares, w, k) == Ok(reference))
            && (r == Ok(false) <==> exists w :: FirstOther(shares, k, reference, i, w, m) && At(shares, w, k).Ok?)
            && (forall e :: r == Err(e) <==>
                  exists w :: FirstOther(shares, k, reference, i, w, m) && At(shares, w, k) == Err(e))
    decreases m - i
  {
    if i == m {
    } else {
      var next := At(shares, i + 1, k);
      if next == Ok(reference) {
        ComparesInOrder(shares, k, reference, i + 1, m);
        forall w ensures FirstOther(shares, k, reference, i, w, m) <==> FirstOther(shares, k, reference, i + 1, w, m)
        {
        }
      } else {
        assert FirstOther(shares, k, reference, i, i + 1, m);
        forall w | FirstOther(shares, k, reference, i, w, m) ensures w == i + 1 { }
      }
    }
  }

  // Verification accepts exactly the lists of at least k shares in which all compared windows
  // reconstruct the same secret.
  lemma VerifiesWhen(shares: seq<Share>, k: nat)
    ensures VerifyResult(shares, k) == Ok(true) <==>
              && |shares| >= k
              && exists s :: forall w :: 0 <= w <= LastWindow(shares, k) ==> At(shares, w, k) == Ok(s)
    ensures |shares| < k ==> VerifyResult(shares, k) == Ok(false)
  {
    if |shares| >= k && At(shares, 0, k).Ok? {
      var reference := At(shares, 0, k).value;
      ComparesInOrder(shares, k, reference, 0, LastWindow(shares, k));
    }
  }

  // It answers no, or raises what reconstruction raises, at the first window that fails.
  lemma VerificationFailsWhen(shares: seq<Share>, k: nat)
    requires |shares| >= k
    ensures var first, m := At(shares, 0, k), LastWindow(shares, k);
            && (VerifyResult(shares, k) == Ok(false) <==>
                  first.Ok? && exists w :: FirstOther(shares, k, first.value, 0, w, m) && At(shares, w, k).Ok?)
            && (forall e :: VerifyResult(shares, k) == Err(e) <==>
                  || first == Err(e)
                  || (first.Ok? && exists w ::
                        FirstOther(shares, k, first.value, 0, w, m) && At(shares, w, k) == Err(e)))
  {
    if At(shares, 0, k).Ok? {
      ComparesInOrder(shares, k, At(shares, 0, k).value, 0, LastWindow(shares, k));
    }
  }
}
