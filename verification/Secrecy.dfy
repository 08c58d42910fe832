// How many coefficient vectors explain fewer than k shares: the same number for every candidate
// secret, 256 to the power of the coefficients that the shares leave open.

module Secrecy {
  import opened Lists
  import opened Field
  import opened CyclicOrder
  import opened Polynomials
  import opened Interpolation
  import opened ShamirTheorems

  function Power256(n: nat): nat {
    if n == 0 then 1 else 256 * Power256(n - 1)
  }

  // ---------- one byte ----------

  lemma FreeIndex(xs: seq<byte>) returns (x: byte)
    requires |xs| < 255
    ensures x != 0 && x !in xs
  {
    var s := set v | v in xs :: v as nat;
    var all := PositiveUpTo(255);
    if forall v: byte :: v != 0 ==> v in xs {
      forall v | v in all ensures v in s { var b: byte := v; assert b in xs; }
      SubsetIsSmaller(all, s);
      FewElements(xs, s);
      assert false;
    }
    x :| x != 0 && x !in xs;
  }

  lemma {:induction false} FewElements(xs: seq<byte>, s: set<nat>)
    requires forall v :: v in s ==> exists i :: 0 <= i < |xs| && xs[i] == v
    ensures |s| <= |xs|
    decreases |xs|
  {
    if xs == [] {
      assert s == {};
    } else {
      var init, last := xs[..|xs| - 1], xs[|xs| - 1];
      forall v {:trigger v in s} | v in s && v != last as nat ensures exists i :: 0 <= i < |init| && init[i] == v {
        var i :| 0 <= i < |xs| && xs[i] == v;
        assert init[i] == v;
      }
      FewElements(init, s - {last as nat});
    }
  }

  lemma OneShareMore(c: seq<byte>, k: nat, s: byte, xs: seq<byte>, ys: seq<byte>, x: byte, y: byte)
    requires |xs| == |ys|
    ensures Explains(c, k, s, xs + [x], ys + [y]) <==> Explains(c, k, s, xs, ys) && Eval(c, x) == y
  {
    var xs', ys' := xs + [x], ys + [y];
    if Explains(c, k, s, xs', ys') {
      forall i | 0 <= i < |xs| ensures Eval(c, xs[i]) == ys[i] { assert Eval(c, xs'[i]) == ys'[i]; }
      assert Eval(c, xs'[|xs|]) == ys'[|xs|];
    }
  }

  // E is the set of all explanations.
  ghost predicate AreExplanations(E: set<seq<byte>>, k: nat, s: byte, xs: seq<byte>, ys: seq<byte>)
    requires |xs| == |ys|
  {
    forall c :: c in E <==> Explains(c, k, s, xs, ys)
  }

  // Whatever fewer than k shares show, every candidate byte has 256^(k - 1 - m) explanations.
  lemma {:induction false} CountExplanations(k: nat, s: byte, xs: seq<byte>, ys: seq<byte>) returns (E: set<seq<byte>>)
    requires |xs| == |ys| < k <= 256 && Distinct(xs) && 0 !in xs
    ensures AreExplanations(E, k, s, xs, ys) && |E| == Power256(k - 1 - |xs|)
    decreases k - |xs|, 0
  {
    if |xs| == k - 1 {
      ExactlyOneExplanation(k, s, xs, ys);
      var c :| Explains(c, k, s, xs, ys) && forall d :: Explains(d, k, s, xs, ys) ==> d == c;
      E := {c};
    } else {
      var x := FreeIndex(xs);
      E := CountBelow(k, s, xs, ys, x, 256, Power256(k - 2 - |xs|));
      forall c ensures c in E <==> Explains(c, k, s, xs, ys) { }
    }
  }

  ghost predicate AreExplanationsBelow(E: set<seq<byte>>, k: nat, s: byte, xs: seq<byte>, ys: seq<byte>, x: byte,
                                       n: nat)
    requires |xs| == |ys|
  {
    forall c :: c in E <==> Explains(c, k, s, xs, ys) && Eval(c, x) as int < n
  }

  // The explanations that take a value below n at one more index.
  lemma {:induction false} CountBelow(k: nat, s: byte, xs: seq<byte>, ys: seq<byte>, x: byte, n: nat, each: nat)
    returns (E: set<seq<byte>>)
    requires |xs| == |ys| < k - 1 <= 255 && Distinct(xs) && 0 !in xs && x != 0 && x !in xs && n <= 256
    requires each == Power256(k - 2 - |xs|)
    ensures AreExplanationsBelow(E, k, s, xs, ys, x, n) && |E| == n * each
    decreases k - 1 - |xs|, n + 1
  {
    if n == 0 {
      E := {};
    } else {
      var below := CountBelow(k, s, xs, ys, x, n - 1, each);
      var at := CountExplanations(k, s, xs + [x], ys + [n - 1]);
      E := below + at;
      OneValueMore(below, at, k, s, xs, ys, x, n);
      OneTimeMore(n, each);
    }
  }

  lemma OneValueMore(below: set<seq<byte>>, at: set<seq<byte>>, k: nat, s: byte, xs: seq<byte>, ys: seq<byte>, x: byte,
                     n: nat)
    requires |xs| == |ys| && 0 < n <= 256
    requires AreExplanationsBelow(below, k, s, xs, ys, x, n - 1)
    requires AreExplanations(at, k, s, xs + [x], ys + [n - 1])
    ensures AreExplanationsBelow(below + at, k, s, xs, ys, x, n) && |below + at| == |below| + |at|
  {
    forall c ensures c in at <==> Explains(c, k, s, xs, ys) && Eval(c, x) == n - 1 {
      OneShareMore(c, k, s, xs, ys, x, n - 1);
    }
    assert below !! at;
  }

  lemma OneTimeMore(n: nat, each: nat)
    requires n > 0
    ensures n * each == (n - 1) * each + each
  {
  }

  // ---------- whole secrets ----------

  function PowerOf(base: nat, n: nat): nat {
    if n == 0 then 1 else PowerOf(base, n - 1) * base
  }

  // Lists extended by one element, in all ways.
  ghost predicate AreExtended<T(!new)>(P: set<seq<T>>, Q: set<seq<T>>, E: set<T>) {
    forall p :: p in P <==> p != [] && p[..|p| - 1] in Q && p[|p| - 1] in E
  }

  lemma {:induction false} CountAppended<T(!new)>(Q: set<seq<T>>, e: T) returns (P: set<seq<T>>)
    ensures AreExtended(P, Q, {e}) && |P| == |Q|
    decreases |Q|
  {
    if Q == {} {
      P := {};
    } else {
      var q :| q in Q;
      var rest := CountAppended(Q - {q}, e);
      assert (q + [e])[..|q|] == q;
      P := rest + {q + [e]};
      forall p | p != [] && p[..|p| - 1] == q && p[|p| - 1] == e ensures p == q + [e] {
        assert p == p[..|p| - 1] + [p[|p| - 1]];
      }
    }
  }

  lemma {:induction false} CountExtended<T(!new)>(Q: set<seq<T>>, E: set<T>) returns (P: set<seq<T>>)
    ensures AreExtended(P, Q, E) && |P| == |Q| * |E|
    decreases |E|
  {
    if E == {} {
      P := {};
    } else {
      var e :| e in E;
      var rest := CountExtended(Q, E - {e});
      var last := CountAppended(Q, e);
      P := rest + last;
      OneElementMore(rest, last, Q, E, e);
      OneTimeMore(|E|, |Q|);
    }
  }

  lemma OneElementMore<T(!new)>(rest: set<seq<T>>, last: set<seq<T>>, Q: set<seq<T>>, E: set<T>, e: T)
    requires e in E && AreExtended(rest, Q, E - {e}) && AreExtended(last, Q, {e})
    ensures AreExtended(rest + last, Q, E) && |rest + last| == |rest| + |last|
  {
    assert rest !! last;
  }

  ghost predicate ExplainsFirst(ds: seq<seq<byte>>, cs: seq<seq<byte>>, k: nat, xs: seq<byte>, candidate: seq<byte>,
                                n: nat)
    requires n <= |cs| == |candidate|
  {
    |ds| == n && forall b :: 0 <= b < n ==> Explains(ds[b], k, candidate[b], xs, Values(cs[b], xs))
  }

  lemma {:induction false} CountFirst(cs: seq<seq<byte>>, k: nat, xs: seq<byte>, candidate: seq<byte>, n: nat,
                                      each: nat)
    returns (P: set<seq<seq<byte>>>)
    requires |xs| < k <= 256 && Distinct(xs) && 0 !in xs && n <= |cs| == |candidate|
    ensures forall ds :: ds in P <==> ExplainsFirst(ds, cs, k, xs, candidate, n)
    requires each == Power256(k - 1 - |xs|)
    ensures |P| == PowerOf(each, n)
    decreases n
  {
    if n == 0 {
      P := {[]};
    } else {
      var Q := CountFirst(cs, k, xs, candidate, n - 1, each);
      var E := CountExplanations(k, candidate[n - 1], xs, Values(cs[n - 1], xs));
      P := CountExtended(Q, E);
      AllExtended(P, Q, E, cs, k, xs, candidate, n);
    }
  }

  lemma AllExtended(P: set<seq<seq<byte>>>, Q: set<seq<seq<byte>>>, E: set<seq<byte>>, cs: seq<seq<byte>>, k: nat,
                    xs: seq<byte>, candidate: seq<byte>, n: nat)
    requires 0 < n <= |cs| == |candidate| && AreExtended(P, Q, E)
    requires forall ds :: ds in Q <==> ExplainsFirst(ds, cs, k, xs, candidate, n - 1)
    requires AreExplanations(E, k, candidate[n - 1], xs, Values(cs[n - 1], xs))
    ensures forall ds :: ds in P <==> ExplainsFirst(ds, cs, k, xs, candidate, n)
  {
    forall ds ensures ds in P <==> ExplainsFirst(ds, cs, k, xs, candidate, n) {
      OneByteMore(ds, cs, k, xs, candidate, n);
    }
  }

  lemma OneByteMore(ds: seq<seq<byte>>, cs: seq<seq<byte>>, k: nat, xs: seq<byte>, candidate: seq<byte>, n: nat)
    requires 0 < n <= |cs| == |candidate|
    ensures ExplainsFirst(ds, cs, k, xs, candidate, n) <==>
              && ds != []
              && ExplainsFirst(ds[..|ds| - 1], cs, k, xs, candidate, n - 1)
              && Explains(ds[|ds| - 1], k, candidate[n - 1], xs, Values(cs[n - 1], xs))
  {
    if ds != [] && |ds| == n {
      var init := ds[..n - 1];
      forall b | 0 <= b < n ensures ds[b] == if b < n - 1 then init[b] else ds[n - 1] { }
    }
  }

  // Fewer than k shares fit every secret of the same length, each for equally many choices of all
  // the random coefficients.
  lemma CountHidingCoefficients(cs: seq<seq<byte>>, k: nat, xs: seq<byte>, candidate: seq<byte>)
    returns (P: set<seq<seq<byte>>>)
    requires OfLength(cs, k) && |xs| < k <= 256 && Distinct(xs) && 0 !in xs && |candidate| == |cs|
    ensures forall ds :: ds in P <==> HidesBehind(ds, cs, k, xs, candidate)
    ensures |P| == PowerOf(Power256(k - 1 - |xs|), |cs|)
  {
    P := CountFirst(cs, k, xs, candidate, |cs|, Power256(k - 1 - |xs|));
    forall ds ensures ds in P <==> HidesBehind(ds, cs, k, xs, candidate) {
      if |ds| == |cs| { HidesBehindByByte(ds, cs, k, xs, candidate); }
    }
  }
}
