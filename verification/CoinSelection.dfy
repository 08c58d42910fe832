// Choosing tokens for a payment: a greedy exact match first, then an exhaustive search with
// pruning. Among all covering choices the result has the least total and then the fewest tokens.

module CoinSelection {
  import opened Coins
  import opened Sorting

  datatype Error = NoTokens | InsufficientFunds | NoCombination

  datatype Result = Ok(value: seq<MintedToken>) | Err(error: Error)

  // pick uses each token of the supply at most once.
  predicate From(pick: seq<MintedToken>, supply: seq<MintedToken>) {
    multiset(pick) <= multiset(supply)
  }

  // ---------- sorting, largest first ----------

  predicate Descending(ts: seq<MintedToken>) {
    forall i, j :: 0 <= i < j < |ts| ==> ts[i].denom >= ts[j].denom
  }

  // A stable sort: equal denominations keep their order.
  function SortDescending(ts: seq<MintedToken>): (r: seq<MintedToken>)
    ensures multiset(r) == multiset(ts)
  {
    SortBy(ts, (t: MintedToken) => -(t.denom as int))
  }

  lemma SortIsDescending(ts: seq<MintedToken>)
    ensures Descending(SortDescending(ts))
  {
    SortIsSorted(ts, (t: MintedToken) => -(t.denom as int));
  }

  // ---------- sub-collections ----------

  lemma RemoveToken(pick: seq<MintedToken>, t: MintedToken) returns (rest: seq<MintedToken>)
    requires t in pick
    ensures multiset(pick) == multiset(rest) + multiset{t}
    ensures Total(pick) == Total(rest) + t.denom && |pick| == |rest| + 1
    ensures forall d :: Count(pick, d) == Count(rest, d) + Count([t], d)
  {
    var i :| 0 <= i < |pick| && pick[i] == t;
    rest := pick[..i] + pick[i + 1..];
    assert pick == pick[..i] + ([t] + pick[i + 1..]);
    Append(pick[..i], [t] + pick[i + 1..]);
    Append([t], pick[i + 1..]);
    Append(pick[..i], pick[i + 1..]);
  }

  // A choice from [t] + rest either uses t, or comes from rest alone.
  lemma WithoutHead(pick: seq<MintedToken>, supply: seq<MintedToken>)
    requires supply != [] && From(pick, supply) && supply[0] !in pick
    ensures From(pick, supply[1..])
  {
    assert supply == [supply[0]] + supply[1..];
    assert multiset(pick)[supply[0]] == 0;
  }

  lemma AfterHead(pick: seq<MintedToken>, rest: seq<MintedToken>, supply: seq<MintedToken>)
    requires supply != [] && From(pick, supply)
    requires multiset(pick) == multiset(rest) + multiset{supply[0]}
    ensures From(rest, supply[1..])
  {
    assert supply == [supply[0]] + supply[1..];
    assert multiset(supply) == multiset(supply[1..]) + multiset{supply[0]};
    forall t ensures multiset(rest)[t] <= multiset(supply[1..])[t] {
      assert multiset(pick)[t] <= multiset(supply)[t];
    }
  }

  lemma {:induction false} FromIsSmaller(pick: seq<MintedToken>, supply: seq<MintedToken>)
    requires From(pick, supply)
    ensures Total(pick) <= Total(supply)
    ensures forall d :: Count(pick, d) <= Count(supply, d)
    decreases |supply|
  {
    if supply == [] {
      assert multiset(pick) == multiset{};
      assert pick == [];
    } else if supply[0] in pick {
      var rest := RemoveToken(pick, supply[0]);
      AfterHead(pick, rest, supply);
      FromIsSmaller(rest, supply[1..]);
      assert [supply[0]] + supply[1..] == supply;
      Append([supply[0]], supply[1..]);
    } else {
      WithoutHead(pick, supply);
      FromIsSmaller(pick, supply[1..]);
    }
  }

  lemma FromIsValid(pick: seq<MintedToken>, supply: seq<MintedToken>)
    requires From(pick, supply) && AllValid(supply)
    ensures AllValid(pick)
  {
    forall i | 0 <= i < |pick| ensures IsDenomination(pick[i].denom) {
      assert pick[i] in multiset(pick);
      assert pick[i] in multiset(supply);
    }
  }

  // ---------- the greedy exact match ----------

  function Prepend(t: MintedToken, r: Option<seq<MintedToken>>): Option<seq<MintedToken>> {
    if r.None? then None else Some([t] + r.value)
  }

  function Greedy(ts: seq<MintedToken>, remaining: int): Option<seq<MintedToken>> {
    if ts == [] then None
    else if ts[0].denom > remaining then Greedy(ts[1..], remaining)
    else if ts[0].denom == remaining then Some([ts[0]])
    else Prepend(ts[0], Greedy(ts[1..], remaining - ts[0].denom))
  }

  function PrependAll(ts: seq<MintedToken>, r: Option<seq<MintedToken>>): Option<seq<MintedToken>> {
    if r.None? then None else Some(ts + r.value)
  }

  lemma PrependNothing(r: Option<seq<MintedToken>>)
    ensures PrependAll([], r) == r
  {
    if r.Some? { assert [] + r.value == r.value; }
  }

  method TryExactMatch(tokens: seq<MintedToken>, target: int) returns (r: Option<seq<MintedToken>>)
    ensures r == Greedy(SortDescending(tokens), target)
  {
    var sorted := SortDescending(tokens);
    var remaining := target;
    var selected := [];
    PrependNothing(Greedy(sorted, target));
    assert sorted[0..] == sorted;
    for i := 0 to |sorted|
      invariant Greedy(sorted, target) == PrependAll(selected, Greedy(sorted[i..], remaining))
    {
      var token := sorted[i];
      if token.denom <= remaining {
        ghost var rest := Greedy(sorted[i + 1..], remaining - token.denom);
        assert rest.Some? ==> selected + ([token] + rest.value) == selected + [token] + rest.value;
        selected := selected + [token];
        remaining := remaining - token.denom;
        if remaining == 0 { return Some(selected); }
      }
    }
    r := None;
  }

  lemma {:induction false} GreedyIsExact(ts: seq<MintedToken>, remaining: int)
    requires Greedy(ts, remaining).Some?
    ensures From(Greedy(ts, remaining).value, ts)
    ensures Total(Greedy(ts, remaining).value) == remaining
  {
    var t, r := ts[0], Greedy(ts, remaining).value;
    assert ts == [t] + ts[1..];
    if t.denom > remaining {
      GreedyIsExact(ts[1..], remaining);
    } else if t.denom < remaining {
      GreedyIsExact(ts[1..], remaining - t.denom);
      assert r[1..] == Greedy(ts[1..], remaining - t.denom).value;
    }
  }

  lemma {:induction false} LowTotalBound(ts: seq<MintedToken>, d: nat)
    ensures LowTotal(ts, d) <= Total(ts)
  {
    if ts == [] {
    } else {
      LowTotalBound(ts[1..], d);
    }
  }

  lemma {:induction false} NoneThatLarge(ts: seq<MintedToken>, d: nat)
    requires forall i :: 0 <= i < |ts| ==> ts[i].denom < d
    ensures Count(ts, d) == 0
  {
    if ts == [] {
    } else {
      NoneThatLarge(ts[1..], d);
    }
  }

  // At each denomination the greedy match uses all tokens or leaves less than one to cover.
  lemma {:induction false} GreedyTakesAll(ts: seq<MintedToken>, remaining: int, d: nat)
    requires Descending(ts) && Greedy(ts, remaining).Some? && d > 0
    ensures GreedyAt(Greedy(ts, remaining).value, Count(ts, d), d)
  {
    var t, sel := ts[0], Greedy(ts, remaining).value;
    GreedyIsExact(ts, remaining);
    if t.denom < d {
      NoneThatLarge(ts, d);
      FromIsSmaller(sel, ts);
    } else if t.denom > remaining {
      LowTotalBound(sel, d);
      if t.denom != d { GreedyTakesAll(ts[1..], remaining, d); }
    } else if t.denom < remaining {
      GreedyTakesAll(ts[1..], remaining - t.denom, d);
      assert sel[1..] == Greedy(ts[1..], remaining - t.denom).value;
    }
  }

  lemma GreedyChoices(sorted: seq<MintedToken>, target: int, sel: seq<MintedToken>, supply: nat -> nat)
    requires Descending(sorted) && Greedy(sorted, target) == Some(sel)
    requires forall d :: supply(d) == Count(sorted, d)
    ensures forall d :: IsDenomination(d) ==> GreedyAt(sel, supply(d), d)
  {
    forall d | IsDenomination(d) ensures GreedyAt(sel, supply(d), d) {
      GreedyTakesAll(sorted, target, d);
    }
  }

  // With valid denominations no other exact choice from the same supply has fewer tokens.
  lemma GreedyIsOptimal(sorted: seq<MintedToken>, target: int, sel: seq<MintedToken>, other: seq<MintedToken>)
    requires AllValid(sorted) && Descending(sorted) && Greedy(sorted, target) == Some(sel)
    requires From(other, sorted) && Total(other) == target
    ensures |sel| <= |other|
  {
    var supply := (d: nat) => Count(sorted, d);
    GreedyIsExact(sorted, target);
    FromIsValid(sel, sorted);
    FromIsValid(other, sorted);
    GreedyChoices(sorted, target, sel, supply);
    OthersAreLimited(sorted, other, supply);
    GreedyIsFewest(sel, other, supply);
  }

  lemma OthersAreLimited(sorted: seq<MintedToken>, other: seq<MintedToken>, supply: nat -> nat)
    requires From(other, sorted) && forall d :: supply(d) == Count(sorted, d)
    ensures forall d :: IsDenomination(d) ==> Count(other, d) <= supply(d)
  {
    FromIsSmaller(other, sorted);
  }

  // For other coins the greedy match can use too many tokens: 10 + 1 + 1 against 6 + 6.
  lemma GreedyNeedsTheDenominations(ten: MintedToken, six: MintedToken, one: MintedToken)
    requires ten.denom == 10 && six.denom == 6 && one.denom == 1
    ensures var supply := [ten, six, six, one, one];
            && Descending(supply)
            && Greedy(supply, 12) == Some([ten, one, one])
            && From([six, six], supply) && Total([six, six]) == 12
  {
    var supply := [ten, six, six, one, one];
    SkipsSixes(six, one);
    assert supply[1..] == [six, six, one, one] && [ten] + [one, one] == [ten, one, one];
    assert supply == [ten] + [six, six] + [one, one];
    assert Total([six]) == 6;
  }

  lemma SkipsSixes(six: MintedToken, one: MintedToken)
    requires six.denom == 6 && one.denom == 1
    ensures Greedy([six, six, one, one], 2) == Some([one, one])
  {
    assert Greedy([one], 1) == Some([one]);
    assert [one, one][1..] == [one] && [one] + [one] == [one, one];
    assert Greedy([one, one], 2) == Some([one, one]);
    assert [six, one, one][1..] == [one, one];
    assert Greedy([six, one, one], 2) == Some([one, one]);
    assert [six, six, one, one][1..] == [six, one, one];
  }

  // ---------- the exhaustive search ----------

  // The best choice found so far with its total and token count.
  datatype Best = NoneYet | Best(selection: seq<MintedToken>, total: int, count: nat)

  // In lexicographic order, least total first and then fewest tokens, b is no worse.
  predicate Beats(b: Best, total: int, count: nat) {
    b.Best? && (b.total < total || (b.total == total && b.count <= count))
  }

  predicate Recorded(b: Best, tokens: seq<MintedToken>, target: int) {
    b.Best? ==>
      && b.total == Total(b.selection) >= target
      && b.count == |b.selection|
      && From(b.selection, tokens)
  }

  // b beats every way to reach the target by completing sel with tokens from the supply.
  ghost predicate Explored(b: Best, sel: seq<MintedToken>, supply: seq<MintedToken>, target: int) {
    forall pick :: From(pick, supply) && Total(sel) + Total(pick) >= target ==>
      Beats(b, Total(sel) + Total(pick), |sel| + |pick|)
  }

  predicate Improves(b: Best, b': Best) {
    b.Best? ==> Beats(b', b.total, b.count)
  }

  lemma ExploredStays(b: Best, b': Best, sel: seq<MintedToken>, supply: seq<MintedToken>, target: int)
    requires Explored(b, sel, supply, target) && Improves(b, b')
    ensures Explored(b', sel, supply, target)
  {
  }

  // Adding tokens to a covering choice cannot improve it.
  lemma CoverIsExplored(b: Best, sel: seq<MintedToken>, supply: seq<MintedToken>, target: int)
    requires Beats(b, Total(sel), |sel|)
    ensures Explored(b, sel, supply, target)
  {
  }

  lemma OutOfReach(b: Best, sel: seq<MintedToken>, supply: seq<MintedToken>, target: int)
    requires Total(sel) + Total(supply) < target
    ensures Explored(b, sel, supply, target)
  {
    forall pick | From(pick, supply) ensures Total(pick) <= Total(supply) { FromIsSmaller(pick, supply); }
  }

  lemma BothBranches(b: Best, sel: seq<MintedToken>, supply: seq<MintedToken>, target: int)
    requires supply != []
    requires Explored(b, sel + [supply[0]], supply[1..], target)
    requires Explored(b, sel, supply[1..], target)
    ensures Explored(b, sel, supply, target)
  {
    var t := supply[0];
    Append(sel, [t]);
    forall pick | From(pick, supply) && Total(sel) + Total(pick) >= target
      ensures Beats(b, Total(sel) + Total(pick), |sel| + |pick|)
    {
      if t in pick {
        var rest := RemoveToken(pick, t);
        AfterHead(pick, rest, supply);
        assert Total(sel + [t]) + Total(rest) == Total(sel) + Total(pick);
      } else {
        WithoutHead(pick, supply);
      }
    }
  }

  // First the token was included, then it was skipped, and the best choice only improved.
  lemma BothExplored(b: Best, b': Best, sel: seq<MintedToken>, tokens: seq<MintedToken>, idx: nat, target: int)
    requires idx < |tokens| && Improves(b, b')
    requires Explored(b, sel + [tokens[idx]], tokens[idx + 1..], target)
    requires Explored(b', sel, tokens[idx + 1..], target)
    ensures Explored(b', sel, tokens[idx..], target)
  {
    ExploredStays(b, b', sel + [tokens[idx]], tokens[idx + 1..], target);
    assert tokens[idx..][1..] == tokens[idx + 1..];
    BothBranches(b', sel, tokens[idx..], target);
  }

  class Search {
    const tokens: seq<MintedToken>
    const target: int
    var selected: seq<MintedToken>
    var best: Best

    constructor (tokens: seq<MintedToken>, target: int)
      ensures this.tokens == tokens && this.target == target
      ensures selected == [] && best == NoneYet
    {
      this.tokens, this.target := tokens, target;
      selected, best := [], NoneYet;
    }

    method Explore(idx: nat, currentSum: int)
      requires idx <= |tokens| && Recorded(best, tokens, target)
      requires currentSum == Total(selected) && From(selected, tokens[..idx])
      modifies this
      ensures Recorded(best, tokens, target) && selected == old(selected)
      ensures Explored(best, selected, tokens[idx..], target)
      ensures Improves(old(best), best)
      decreases |tokens| - idx, 1
    {
      if currentSum >= target {
        RecordIfBetter(idx, currentSum);
        return;
      }
      if idx >= |tokens| {
        OutOfReach(best, selected, tokens[idx..], target);
        return;
      }
      var remaining := Total(tokens[idx..]);
      if currentSum + remaining < target {
        OutOfReach(best, selected, tokens[idx..], target);
        return;
      }
      IncludeAndSkip(idx, currentSum);
    }

    method IncludeAndSkip(idx: nat, currentSum: int)
      requires idx < |tokens| && Recorded(best, tokens, target)
      requires currentSum == Total(selected) && From(selected, tokens[..idx])
      modifies this
      ensures Recorded(best, tokens, target) && selected == old(selected)
      ensures Explored(best, selected, tokens[idx..], target)
      ensures Improves(old(best), best)
      decreases |tokens| - idx, 0
    {
      var token := tokens[idx];
      ghost var base := selected;
      StillFrom(base, tokens, idx);

      // Include the token.
      selected := selected + [token];
      Explore(idx + 1, currentSum + token.denom);
      selected := selected[..|selected| - 1];
      assert selected == base;

      // Skip it.
      ghost var included := best;
      Explore(idx + 1, currentSum);
      BothExplored(included, best, base, tokens, idx, target);
    }

    method RecordIfBetter(idx: nat, currentSum: int)
      requires idx <= |tokens| && Recorded(best, tokens, target)
      requires currentSum == Total(selected) >= target && From(selected, tokens[..idx])
      modifies this`best
      ensures Recorded(best, tokens, target)
      ensures Explored(best, selected, tokens[idx..], target)
      ensures Improves(old(best), best)
    {
      var change, count := currentSum - target, |selected|;
      if best.NoneYet? || change < best.total - target || (change == best.total - target && count < best.count) {
        best := Best(selected, currentSum, count);
        assert tokens == tokens[..idx] + tokens[idx..];
      }
      CoverIsExplored(best, selected, tokens[idx..], target);
    }
  }

  lemma StillFrom(sel: seq<MintedToken>, tokens: seq<MintedToken>, idx: nat)
    requires idx < |tokens| && From(sel, tokens[..idx])
    ensures From(sel + [tokens[idx]], tokens[..idx + 1]) && From(sel, tokens[..idx + 1])
    ensures Total(sel + [tokens[idx]]) == Total(sel) + tokens[idx].denom
  {
    assert tokens[..idx + 1] == tokens[..idx] + [tokens[idx]];
    Append(sel, [tokens[idx]]);
  }

  // ---------- select_tokens ----------

  // Among all choices from the supply that cover the target, sel has the least total.
  ghost predicate LeastTotal(sel: seq<MintedToken>, supply: seq<MintedToken>, target: int) {
    && From(sel, supply)
    && Total(sel) >= target
    && forall other :: From(other, supply) && Total(other) >= target ==> Total(sel) <= Total(other)
  }

  // Among all choices with that total it has the fewest tokens.
  ghost predicate FewestTokens(sel: seq<MintedToken>, supply: seq<MintedToken>) {
    forall other :: From(other, supply) && Total(other) == Total(sel) ==> |sel| <= |other|
  }

  method SelectTokens(available: seq<MintedToken>, target: int) returns (r: Result)
    ensures available == [] ==> r == Err(NoTokens)
    ensures available != [] && Total(available) < target ==> r == Err(InsufficientFunds)
    ensures available != [] && Total(available) >= target ==> r.Ok? && LeastTotal(r.value, available, target)
    ensures r.Ok? && AllValid(available) ==> FewestTokens(r.value, available)
  {
    if available == [] { return Err(NoTokens); }
    var totalAvailable := Total(available);
    if totalAvailable < target { return Err(InsufficientFunds); }

    var exact := TryExactMatch(available, target);
    if exact.Some? {
      ExactIsBest(available, target, exact.value);
      return Ok(exact.value);
    }

    var sorted := SortDescending(available);
    var search := new Search(sorted, target);
    search.Explore(0, 0);
    SearchIsBest(search.best, available, sorted, target);
    if search.best.NoneYet? { return Err(NoCombination); }
    r := Ok(search.best.selection);
  }

  lemma ExactIsBest(available: seq<MintedToken>, target: int, sel: seq<MintedToken>)
    requires Greedy(SortDescending(available), target) == Some(sel)
    ensures LeastTotal(sel, available, target)
    ensures AllValid(available) ==> FewestTokens(sel, available)
  {
    var sorted := SortDescending(available);
    SortIsDescending(available);
    GreedyIsExact(sorted, target);
    if AllValid(available) {
      FromIsValid(sorted, available);
      forall other | From(other, available) && Total(other) == Total(sel) ensures |sel| <= |other| {
        GreedyIsOptimal(sorted, target, sel, other);
      }
    }
  }

  ghost predicate BeatsAll(b: Best, supply: seq<MintedToken>, target: int) {
    forall other :: From(other, supply) && Total(other) >= target ==> Beats(b, Total(other), |other|)
  }

  lemma SearchIsBest(b: Best, available: seq<MintedToken>, sorted: seq<MintedToken>, target: int)
    requires sorted == SortDescending(available) && Total(available) >= target
    requires Recorded(b, sorted, target) && Explored(b, [], sorted[0..], target)
    ensures b.Best?
    ensures LeastTotal(b.selection, available, target) && FewestTokens(b.selection, available)
  {
    assert sorted[0..] == sorted;
    ExploredBeatsAll(b, sorted, target);
    SameSupply(b, available, sorted, target);
    assert Beats(b, Total(available), |available|);
    BestIsOptimal(b, available, target);
  }

  lemma ExploredBeatsAll(b: Best, supply: seq<MintedToken>, target: int)
    requires Explored(b, [], supply, target)
    ensures BeatsAll(b, supply, target)
  {
    forall other | From(other, supply) && Total(other) >= target ensures Beats(b, Total(other), |other|) {
      assert Total([]) + Total(other) >= target;
    }
  }

  lemma SameSupply(b: Best, available: seq<MintedToken>, sorted: seq<MintedToken>, target: int)
    requires sorted == SortDescending(available) && BeatsAll(b, sorted, target)
    ensures From(available, available) && BeatsAll(b, available, target)
    ensures b.Best? ==> (From(b.selection, sorted) <==> From(b.selection, available))
  {
    forall other | From(other, available) ensures From(other, sorted) { }
  }

  lemma BestIsOptimal(b: Best, supply: seq<MintedToken>, target: int)
    requires b.Best? && BeatsAll(b, supply, target) && Recorded(b, supply, target)
    ensures LeastTotal(b.selection, supply, target) && FewestTokens(b.selection, supply)
  {
  }
}
