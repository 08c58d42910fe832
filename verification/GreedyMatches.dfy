// When the greedy match finds an exact match. It finds one whenever one exists if each denomination
// divides every larger one. 2000 does not divide 5000, so with both in a wallet it can miss one, and
// the search has to find it.

module GreedyMatches {
  import opened Coins
  import opened CoinSelection

  ghost predicate Divides(d: int, n: int) {
    exists q: int :: n == d * q
  }

  // Of two denominations the smaller divides the larger.
  ghost predicate Chain(ts: seq<MintedToken>) {
    && (forall t :: t in ts ==> t.denom > 0)
    && forall t, u :: t in ts && u in ts && t.denom <= u.denom ==> Divides(t.denom, u.denom)
  }

  lemma Difference(d: int, n: int, m: int)
    requires Divides(d, n) && Divides(d, m)
    ensures Divides(d, n - m)
  {
    var q: int :| n == d * q;
    var r: int :| m == d * r;
    assert n - m == d * (q - r);
  }

  lemma AtLeastOnce(d: int, n: int)
    requires Divides(d, n) && d > 0 && n > 0
    ensures n >= d
  {
    var q: int :| n == d * q;
    assert q >= 1;
  }

  lemma ChainOfPart(pick: seq<MintedToken>, ts: seq<MintedToken>)
    requires Chain(ts) && forall t :: t in pick ==> t in ts
    ensures Chain(pick)
  {
  }

  ghost predicate AllDivide(ts: seq<MintedToken>, n: int) {
    forall t :: t in ts ==> Divides(t.denom, n)
  }

  lemma SmallerDivide(ts: seq<MintedToken>, n: int)
    requires ts != [] && Chain(ts) && Descending(ts) && AllDivide(ts, n)
    ensures AllDivide(ts[1..], n - ts[0].denom) && Chain(ts[1..]) && Descending(ts[1..])
  {
    ChainOfPart(ts[1..], ts);
    forall t | t in ts[1..] ensures Divides(t.denom, n - ts[0].denom) {
      var i :| 0 <= i < |ts| && ts[i] == t;
      assert ts[0] in ts && t in ts;
      Difference(t.denom, n, ts[0].denom);
    }
  }

  lemma OneMoreInTotal(ts: seq<MintedToken>, m: nat)
    requires m < |ts|
    ensures Total(ts[..m + 1]) == ts[0].denom + Total(ts[1..][..m])
  {
    assert ts[..m + 1] == [ts[0]] + ts[1..][..m];
  }

  // An amount that all tokens divide and that their value covers is the value of the first few.
  lemma {:induction false} FirstFew(ts: seq<MintedToken>, need: nat) returns (n: nat)
    requires Chain(ts) && Descending(ts) && Total(ts) >= need && AllDivide(ts, need)
    ensures n <= |ts| && Total(ts[..n]) == need
    decreases |ts|
  {
    if need == 0 {
      n := 0;
    } else {
      assert ts[0] in ts;
      AtLeastOnce(ts[0].denom, need);
      SmallerDivide(ts, need);
      var m := FirstFew(ts[1..], need - ts[0].denom);
      OneMoreInTotal(ts, m);
      n := m + 1;
    }
  }

  // A choice that leaves out the largest token t can do without some of its tokens worth t.
  lemma Exchange(pick: seq<MintedToken>, ts: seq<MintedToken>) returns (rest: seq<MintedToken>)
    requires ts != [] && Chain(ts) && Descending(ts) && From(pick, ts) && ts[0] !in pick
    requires Total(pick) >= ts[0].denom
    ensures From(rest, ts[1..]) && Total(rest) == Total(pick) - ts[0].denom
  {
    var s := SortDescending(pick);
    SortIsDescending(pick);
    SameTotal(s, pick);
    PartOf(s, ts);
    ChainOfPart(s, ts);
    DividesLargest(s, ts);
    var n := FirstFew(s, ts[0].denom);
    rest := s[n..];
    WithoutHead(pick, ts);
    SplitAt(s, n, ts[1..]);
  }

  lemma DividesLargest(pick: seq<MintedToken>, ts: seq<MintedToken>)
    requires ts != [] && Chain(ts) && Descending(ts) && forall t :: t in pick ==> t in ts
    ensures AllDivide(pick, ts[0].denom)
  {
    forall t | t in pick ensures Divides(t.denom, ts[0].denom) {
      var i :| 0 <= i < |ts| && ts[i] == t;
      assert ts[0] in ts;
    }
  }

  lemma SplitAt(s: seq<MintedToken>, n: nat, supply: seq<MintedToken>)
    requires n <= |s| && From(s, supply)
    ensures From(s[n..], supply) && Total(s[n..]) == Total(s) - Total(s[..n])
  {
    assert s == s[..n] + s[n..];
    Append(s[..n], s[n..]);
  }

  lemma PartOf(pick: seq<MintedToken>, ts: seq<MintedToken>)
    requires From(pick, ts)
    ensures forall t :: t in pick ==> t in ts
  {
    forall t | t in pick ensures t in ts { assert t in multiset(pick); }
  }

  lemma SameTotal(a: seq<MintedToken>, b: seq<MintedToken>)
    requires multiset(a) == multiset(b)
    ensures Total(a) == Total(b)
  {
    FromIsSmaller(a, b);
    FromIsSmaller(b, a);
  }

  lemma TokenInTotal(pick: seq<MintedToken>, t: MintedToken)
    requires t in pick
    ensures t.denom <= Total(pick)
  {
    var rest := RemoveToken(pick, t);
  }

  lemma WithoutOne(pick: seq<MintedToken>, ts: seq<MintedToken>) returns (rest: seq<MintedToken>)
    requires ts != [] && Chain(ts) && Descending(ts) && From(pick, ts) && Total(pick) >= ts[0].denom
    ensures From(rest, ts[1..]) && Total(rest) == Total(pick) - ts[0].denom
  {
    if ts[0] in pick {
      rest := RemoveToken(pick, ts[0]);
      AfterHead(pick, rest, ts);
    } else {
      rest := Exchange(pick, ts);
    }
  }

  lemma {:induction false} GreedyFindsAny(ts: seq<MintedToken>, target: int, pick: seq<MintedToken>)
    requires Chain(ts) && Descending(ts) && target > 0 && From(pick, ts) && Total(pick) == target
    ensures Greedy(ts, target).Some?
    decreases |ts|
  {
    PartOf(pick, ts);
    assert ts != [] by { assert pick != []; assert pick[0] in ts; }
    var t := ts[0];
    ChainOfPart(ts[1..], ts);
    if t.denom > target {
      if t in pick { TokenInTotal(pick, t); }
      WithoutHead(pick, ts);
      GreedyFindsAny(ts[1..], target, pick);
    } else if t.denom < target {
      var rest := WithoutOne(pick, ts);
      GreedyFindsAny(ts[1..], target - t.denom, rest);
    }
  }

  // With valid tokens and not both of 2000 and 5000 among them, the greedy match succeeds exactly if
  // some choice meets the target.
  lemma GreedyFindsMatchWhen(available: seq<MintedToken>, target: int)
    requires AllValid(available) && target > 0
    requires Count(available, 2000) == 0 || Count(available, 5000) == 0
    ensures Greedy(SortDescending(available), target).Some? <==>
              exists pick :: From(pick, available) && Total(pick) == target
  {
    var sorted := SortDescending(available);
    SortIsDescending(available);
    if Greedy(sorted, target).Some? {
      GreedyIsExact(sorted, target);
      assert From(Greedy(sorted, target).value, available);
    }
    if pick :| From(pick, available) && Total(pick) == target {
      CountsAgree(sorted, available);
      FromIsValid(sorted, available);
      ValidChain(sorted);
      assert From(pick, sorted);
      GreedyFindsAny(sorted, target, pick);
    }
  }

  lemma CountsAgree(a: seq<MintedToken>, b: seq<MintedToken>)
    requires multiset(a) == multiset(b)
    ensures forall d :: Count(a, d) == Count(b, d)
  {
    FromIsSmaller(a, b);
    FromIsSmaller(b, a);
  }

  lemma {:induction false} CountIsPositive(ts: seq<MintedToken>, i: nat)
    requires i < |ts|
    ensures Count(ts, ts[i].denom) > 0
  {
    if i > 0 { CountIsPositive(ts[1..], i - 1); }
  }

  lemma ValidDivides(d: int, e: int)
    requires IsDenomination(d) && IsDenomination(e) && d <= e && !(d == 2000 && e == 5000)
    ensures Divides(d, e)
  {
    var q := e / d;
    assert e == d * q;
  }

  lemma ValidChain(ts: seq<MintedToken>)
    requires AllValid(ts) && (Count(ts, 2000) == 0 || Count(ts, 5000) == 0)
    ensures Chain(ts)
  {
    forall t | t in ts ensures t.denom > 0 { var i :| 0 <= i < |ts| && ts[i] == t; }
    forall t, u | t in ts && u in ts && t.denom <= u.denom ensures Divides(t.denom, u.denom) {
      var i, j :| 0 <= i < |ts| && ts[i] == t && 0 <= j < |ts| && ts[j] == u;
      CountIsPositive(ts, i);
      CountIsPositive(ts, j);
      ValidDivides(ts[i].denom, ts[j].denom);
    }
  }

  // With both it can miss a match: 5000 leaves 1000 of 6000, where three of 2000 would do.
  lemma GreedyMissesAMatch(five: MintedToken, two: MintedToken)
    requires five.denom == 5000 && two.denom == 2000
    ensures var supply := [five, two, two, two];
            && Descending(supply) && AllValid(supply) && Greedy(supply, 6000) == None
            && From([two, two, two], supply) && Total([two, two, two]) == 6000
  {
    var supply := [five, two, two, two];
    NothingSmallEnough([two, two, two], 1000);
    assert supply[1..] == [two, two, two] && supply == [five] + [two, two, two];
    assert Total([two]) == 2000 && [two, two][1..] == [two] && [two, two, two][1..] == [two, two];
  }

  lemma {:induction false} NothingSmallEnough(ts: seq<MintedToken>, remaining: int)
    requires forall i :: 0 <= i < |ts| ==> ts[i].denom > remaining
    ensures Greedy(ts, remaining) == None
  {
    if ts == [] {
    } else {
      NothingSmallEnough(ts[1..], remaining);
    }
  }
}
