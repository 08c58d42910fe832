// Token denominations and greedy coin choices. The five denominations are 500 times 1, 2, 4, 10
// and 20; 4 does not divide 10, so greedy choices are not optimal by divisibility alone.

module Coins {

  datatype Option<+T> = None | Some(value: T)

  datatype MintedToken = MintedToken(id: string, denom: nat)

  // Largest first, the order in which both greedy algorithms visit them.
  const DENOMINATIONS: seq<nat> := [10000, 5000, 2000, 1000, 500]

  predicate IsDenomination(d: int) {
    d == 500 || d == 1000 || d == 2000 || d == 5000 || d == 10000
  }

  predicate AllValid(ts: seq<MintedToken>) {
    forall i :: 0 <= i < |ts| ==> IsDenomination(ts[i].denom)
  }

  function Total(ts: seq<MintedToken>): nat {
    if ts == [] then 0 else ts[0].denom + Total(ts[1..])
  }

  function Count(ts: seq<MintedToken>, d: nat): nat {
    if ts == [] then 0 else (if ts[0].denom == d then 1 else 0) + Count(ts[1..], d)
  }

  // The value of the tokens smaller than d.
  function LowTotal(ts: seq<MintedToken>, d: nat): nat {
    if ts == [] then 0 else (if ts[0].denom < d then ts[0].denom else 0) + LowTotal(ts[1..], d)
  }

  lemma {:induction false} Append(ts: seq<MintedToken>, us: seq<MintedToken>)
    ensures Total(ts + us) == Total(ts) + Total(us)
    ensures forall d :: Count(ts + us, d) == Count(ts, d) + Count(us, d)
    ensures forall d :: LowTotal(ts + us, d) == LowTotal(ts, d) + LowTotal(us, d)
  {
    if ts == [] {
      assert ts + us == us;
    } else {
      Append(ts[1..], us);
      assert (ts + us)[1..] == ts[1..] + us;
    }
  }

  // ---------- counting by denomination ----------

  // d is the largest token value below e.
  lemma {:induction false} LowStep(ts: seq<MintedToken>, d: nat, e: nat)
    requires d < e
    requires forall i :: 0 <= i < |ts| ==> ts[i].denom <= d || ts[i].denom >= e
    ensures LowTotal(ts, e) == d * Count(ts, d) + LowTotal(ts, d)
  {
    if ts == [] {
    } else {
      LowStep(ts[1..], d, e);
      if ts[0].denom == d { assert d * Count(ts, d) == d + d * Count(ts[1..], d); }
    }
  }

  lemma {:induction false} LowTotalIsTotal(ts: seq<MintedToken>, e: nat)
    requires forall i :: 0 <= i < |ts| ==> ts[i].denom < e
    ensures LowTotal(ts, e) == Total(ts)
  {
    if ts == [] {
    } else {
      LowTotalIsTotal(ts[1..], e);
    }
  }

  lemma {:induction false} LowTotalIsZero(ts: seq<MintedToken>, e: nat)
    requires forall i :: 0 <= i < |ts| ==> ts[i].denom >= e
    ensures LowTotal(ts, e) == 0
  {
    if ts == [] {
    } else {
      LowTotalIsZero(ts[1..], e);
    }
  }

  lemma {:induction false} CountsCoverAll(ts: seq<MintedToken>)
    requires AllValid(ts)
    ensures |ts| == Count(ts, 10000) + Count(ts, 5000) + Count(ts, 2000) + Count(ts, 1000) + Count(ts, 500)
  {
    if ts == [] {
    } else {
      CountsCoverAll(ts[1..]);
    }
  }

  lemma ByDenomination(ts: seq<MintedToken>)
    requires AllValid(ts)
    ensures Total(ts) == 10000 * Count(ts, 10000) + LowTotal(ts, 10000)
    ensures LowTotal(ts, 10000) == 5000 * Count(ts, 5000) + LowTotal(ts, 5000)
    ensures LowTotal(ts, 5000) == 2000 * Count(ts, 2000) + LowTotal(ts, 2000)
    ensures LowTotal(ts, 2000) == 1000 * Count(ts, 1000) + LowTotal(ts, 1000)
    ensures LowTotal(ts, 1000) == 500 * Count(ts, 500)
  {
    LowTotalIsTotal(ts, 10001);
    LowStep(ts, 10000, 10001);
    LowStep(ts, 5000, 10000);
    LowStep(ts, 2000, 5000);
    LowStep(ts, 1000, 2000);
    LowStep(ts, 500, 1000);
    LowTotalIsZero(ts, 500);
  }

  // Below 5000 each denomination divides the next. The other choice covers 5000 f more with the
  // same supply and needs at least f more tokens.
  lemma FewestSmall(g4: nat, g2: nat, g1: nat, o4: nat, o2: nat, o1: nat, n4: nat, n2: nat, f: nat)
    requires 4 * o4 + 2 * o2 + o1 == 10 * f + 4 * g4 + 2 * g2 + g1
    requires o4 <= n4 && o2 <= n2
    requires g4 == n4 || 2 * g2 + g1 < 4
    requires g2 == n2 || g1 < 2
    ensures g4 + g2 + g1 + f <= o4 + o2 + o1
  {
  }

  // In units of 500: a greedy choice g from a supply n against any other choice o of equal value.
  lemma FewestUnits(g20: nat, g10: nat, g4: nat, g2: nat, g1: nat, o20: nat, o10: nat, o4: nat, o2: nat, o1: nat,
                    n20: nat, n10: nat, n4: nat, n2: nat)
    requires 20 * g20 + 10 * g10 + 4 * g4 + 2 * g2 + g1 == 20 * o20 + 10 * o10 + 4 * o4 + 2 * o2 + o1
    requires o20 <= n20 && o10 <= n10 && o4 <= n4 && o2 <= n2
    requires g20 == n20 || 10 * g10 + 4 * g4 + 2 * g2 + g1 < 20
    requires g10 == n10 || 4 * g4 + 2 * g2 + g1 < 10
    requires g4 == n4 || 2 * g2 + g1 < 4
    requires g2 == n2 || g1 < 2
    ensures g20 + g10 + g4 + g2 + g1 <= o20 + o10 + o4 + o2 + o1
  {
    var f := 2 * (g20 - o20) + g10 - o10;
    assert g20 >= o20;
    assert f >= 0;
    FewestSmall(g4, g2, g1, o4, o2, o1, n4, n2, f);
  }

  // At denomination d the supply ran out, or less than d was left to cover.
  predicate GreedyAt(sel: seq<MintedToken>, supply: nat, d: nat) {
    Count(sel, d) == supply || LowTotal(sel, d) < d
  }

  lemma GreedyIsFewest(sel: seq<MintedToken>, other: seq<MintedToken>, supply: nat -> nat)
    requires AllValid(sel) && AllValid(other) && Total(sel) == Total(other)
    requires forall d :: IsDenomination(d) ==> Count(other, d) <= supply(d)
    requires forall d :: IsDenomination(d) ==> GreedyAt(sel, supply(d), d)
    ensures |sel| <= |other|
  {
    ByDenomination(sel);
    ByDenomination(other);
    CountsCoverAll(sel);
    CountsCoverAll(other);
    assert IsDenomination(10000) && IsDenomination(5000) && IsDenomination(2000) && IsDenomination(1000);
    assert GreedyAt(sel, supply(10000), 10000) && GreedyAt(sel, supply(5000), 5000);
    assert GreedyAt(sel, supply(2000), 2000) && GreedyAt(sel, supply(1000), 1000);
    FewestUnits(Count(sel, 10000), Count(sel, 5000), Count(sel, 2000), Count(sel, 1000), Count(sel, 500),
                Count(other, 10000), Count(other, 5000), Count(other, 2000), Count(other, 1000), Count(other, 500),
                supply(10000), supply(5000), supply(2000), supply(1000));
  }

  // ---------- minting: unlimited supply ----------

  // Everything minted so far, with the remainder, fits below each denomination already visited.
  ghost predicate MintedDownTo(tokens: seq<MintedToken>, remaining: int, j: nat)
    requires j <= |DENOMINATIONS|
  {
    && AllValid(tokens)
    && forall i :: 0 <= i < j ==> LowTotal(tokens, DENOMINATIONS[i]) + remaining < DENOMINATIONS[i]
  }

  ghost predicate Labelled(tokens: seq<MintedToken>, freshId: nat -> string) {
    forall i :: 0 <= i < |tokens| ==> tokens[i].id == freshId(i)
  }

  ghost predicate FewestForItsTotal(tokens: seq<MintedToken>) {
    forall other :: AllValid(other) && Total(other) == Total(tokens) ==> |tokens| <= |other|
  }

  method MintTokens(total: int, freshId: nat -> string) returns (tokens: seq<MintedToken>)
    ensures AllValid(tokens) && Labelled(tokens, freshId)
    ensures Total(tokens) == if total < 0 then 0 else total - total % 500
    ensures FewestForItsTotal(tokens)
  {
    tokens := [];
    var remaining := total;
    for j := 0 to |DENOMINATIONS|
      invariant Labelled(tokens, freshId)
      invariant Total(tokens) + remaining == total && (remaining == total || remaining >= 0)
      invariant MintedDownTo(tokens, remaining, j)
      invariant forall i :: 0 <= i < |tokens| && j < |DENOMINATIONS| ==> tokens[i].denom >= DENOMINATIONS[j]
    {
      tokens, remaining := MintWhileCovered(tokens, remaining, j, freshId);
    }
    FullyMinted(tokens, total, remaining);
  }

  // The inner loop: mint tokens of denomination j while the remainder covers one.
  method MintWhileCovered(minted: seq<MintedToken>, due: int, j: nat, freshId: nat -> string)
    returns (tokens: seq<MintedToken>, remaining: int)
    requires j < |DENOMINATIONS| && MintedDownTo(minted, due, j) && Labelled(minted, freshId)
    requires forall i :: 0 <= i < |minted| ==> minted[i].denom >= DENOMINATIONS[j]
    ensures Labelled(tokens, freshId) && MintedDownTo(tokens, remaining, j + 1)
    ensures Total(tokens) + remaining == Total(minted) + due && (remaining == due || remaining >= 0)
    ensures forall i :: 0 <= i < |tokens| ==> tokens[i].denom >= DENOMINATIONS[j]
  {
    var denom := DENOMINATIONS[j];
    tokens, remaining := minted, due;
    while remaining >= denom
      invariant Labelled(tokens, freshId) && MintedDownTo(tokens, remaining, j)
      invariant Total(tokens) + remaining == Total(minted) + due && (remaining == due || remaining >= 0)
      invariant forall i :: 0 <= i < |tokens| ==> tokens[i].denom >= denom
      decreases remaining
    {
      var token := MintedToken(freshId(|tokens|), denom);
      MintOne(tokens, remaining, token, j);
      tokens := tokens + [token];
      remaining := remaining - denom;
    }
    LowTotalIsZero(tokens, denom);
  }

  lemma MintOne(tokens: seq<MintedToken>, remaining: int, token: MintedToken, j: nat)
    requires j < |DENOMINATIONS| && token.denom == DENOMINATIONS[j] && MintedDownTo(tokens, remaining, j)
    ensures MintedDownTo(tokens + [token], remaining - token.denom, j)
    ensures Total(tokens + [token]) == Total(tokens) + token.denom
  {
    Append(tokens, [token]);
    OneToken(token);
    forall i | 0 <= i < j
      ensures LowTotal(tokens + [token], DENOMINATIONS[i]) == LowTotal(tokens, DENOMINATIONS[i]) + token.denom
    {
      assert token.denom < DENOMINATIONS[i];
    }
  }

  lemma OneToken(token: MintedToken)
    ensures Total([token]) == token.denom
    ensures forall d :: LowTotal([token], d) == if token.denom < d then token.denom else 0
  {
  }

  lemma {:induction false} TotalIsMultiple(ts: seq<MintedToken>)
    requires AllValid(ts)
    ensures Total(ts) % 500 == 0
  {
    if ts == [] {
    } else {
      TotalIsMultiple(ts[1..]);
    }
  }

  lemma MintedIsFewest(tokens: seq<MintedToken>, remaining: int, other: seq<MintedToken>)
    requires MintedDownTo(tokens, remaining, |DENOMINATIONS|)
    requires remaining >= 0 || tokens == []
    requires AllValid(other) && Total(other) == Total(tokens)
    ensures |tokens| <= |other|
  {
    if tokens != [] {
      var supply := (d: nat) => Count(tokens, d) + Count(other, d);
      forall d | IsDenomination(d) ensures GreedyAt(tokens, supply(d), d) {
        var i := if d == 10000 then 0 else if d == 5000 then 1 else if d == 2000 then 2 else if d == 1000 then 3 else 4;
        assert LowTotal(tokens, DENOMINATIONS[i]) + remaining < DENOMINATIONS[i];
      }
      GreedyIsFewest(tokens, other, supply);
    }
  }

  lemma FullyMinted(tokens: seq<MintedToken>, total: int, remaining: int)
    requires MintedDownTo(tokens, remaining, |DENOMINATIONS|)
    requires Total(tokens) + remaining == total && (remaining == total || remaining >= 0)
    ensures Total(tokens) == if total < 0 then 0 else total - total % 500
    ensures FewestForItsTotal(tokens)
  {
    SmallRemainder(tokens, remaining, 4);
    TotalIsMultiple(tokens);
    RemainderBelow500(Total(tokens), remaining);
    if remaining < 0 { NothingMinted(tokens); }
    AllMintedFewest(tokens, remaining);
  }

  lemma NothingMinted(tokens: seq<MintedToken>)
    requires AllValid(tokens) && Total(tokens) == 0
    ensures tokens == []
  {
  }

  lemma SmallRemainder(tokens: seq<MintedToken>, remaining: int, j: nat)
    requires MintedDownTo(tokens, remaining, |DENOMINATIONS|) && j < |DENOMINATIONS|
    ensures remaining < DENOMINATIONS[j]
  {
  }

  lemma AllMintedFewest(tokens: seq<MintedToken>, remaining: int)
    requires MintedDownTo(tokens, remaining, |DENOMINATIONS|) && (remaining >= 0 || tokens == [])
    ensures FewestForItsTotal(tokens)
  {
    forall other | AllValid(other) && Total(other) == Total(tokens) ensures |tokens| <= |other| {
      MintedIsFewest(tokens, remaining, other);
    }
  }

  lemma RemainderBelow500(minted: nat, remaining: int)
    requires minted % 500 == 0 && remaining < 500
    ensures remaining >= 0 ==> minted == minted + remaining - (minted + remaining) % 500
  {
  }
}
