// Which keys live, which were destroyed and which have signed.

module KeyRecords {
  import opened Lists

  datatype Keys = Keys(live: set<string>, destroyed: set<string>, signed: seq<string>)

  function KeyOf(t: string): string { "token:" + t }

  // Generate the key when it is missing, sign with it and destroy it, token by token. A destroyed
  // key stops the payment; what happened to earlier tokens stays.
  function SpendKeys(keys: Keys, ids: seq<string>): (Keys, bool)
    decreases |ids|
  {
    if ids == [] then (keys, true)
    else
      var k := KeyOf(ids[0]);
      if k in keys.destroyed then (keys, false)
      else SpendKeys(Keys(keys.live - {k}, keys.destroyed + {k}, keys.signed + [k]), ids[1..])
  }

  // Live and destroyed keys are disjoint, every signing key was destroyed, none signed twice.
  ghost predicate KeysSafe(k: Keys) {
    && k.live !! k.destroyed
    && Distinct(k.signed)
    && forall i :: 0 <= i < |k.signed| ==> k.signed[i] in k.destroyed
  }

  ghost predicate KeysGrow(a: Keys, b: Keys) {
    a.destroyed <= b.destroyed && a.signed <= b.signed
  }

  // Signing never uses a destroyed key, and every key that signs ends up destroyed.
  lemma {:induction false} SpendKeysSafe(k: Keys, ids: seq<string>)
    requires KeysSafe(k)
    ensures KeysSafe(SpendKeys(k, ids).0) && KeysGrow(k, SpendKeys(k, ids).0)
    ensures SpendKeys(k, ids).1 ==>
              forall i :: 0 <= i < |ids| ==>
                  KeyOf(ids[i]) !in k.destroyed && KeyOf(ids[i]) in SpendKeys(k, ids).0.destroyed
    decreases |ids|
  {
    if ids != [] && KeyOf(ids[0]) !in k.destroyed {
      var key := KeyOf(ids[0]);
      var k' := Keys(k.live - {key}, k.destroyed + {key}, k.signed + [key]);
      assert key !in k.signed;
      SpendKeysSafe(k', ids[1..]);
      if SpendKeys(k, ids).1 {
        forall i | 0 <= i < |ids|
          ensures KeyOf(ids[i]) !in k.destroyed && KeyOf(ids[i]) in SpendKeys(k, ids).0.destroyed
        {
          if i > 0 { assert ids[i] == ids[1..][i - 1]; }
        }
      }
    }
  }

  lemma KeysDiffer(s: string, t: string)
    requires KeyOf(s) == KeyOf(t)
    ensures s == t
  {
    assert KeyOf(s)[6..] == s && KeyOf(t)[6..] == t;
  }

  // Tokens can be spent in turn exactly if no key among them was destroyed before.
  lemma {:induction false} KeysSuffice(keys: Keys, ids: seq<string>)
    requires Distinct(ids)
    ensures SpendKeys(keys, ids).1 <==> forall t :: t in ids ==> KeyOf(t) !in keys.destroyed
    decreases |ids|
  {
    if ids != [] && KeyOf(ids[0]) !in keys.destroyed {
      var k := KeyOf(ids[0]);
      var next := Keys(keys.live - {k}, keys.destroyed + {k}, keys.signed + [k]);
      assert ids == [ids[0]] + ids[1..];
      KeysSuffice(next, ids[1..]);
      forall t | t in ids[1..] ensures KeyOf(t) in next.destroyed <==> KeyOf(t) in keys.destroyed {
        var i :| 0 <= i < |ids[1..]| && ids[1..][i] == t;
        assert t == ids[i + 1];
        if KeyOf(t) == k { KeysDiffer(t, ids[0]); }
      }
    }
  }

  // The keys after the tokens were spent one by one.
  ghost function KeysUsed(keys: Keys, ids: seq<string>): Keys {
    var used := set t | t in ids :: KeyOf(t);
    Keys(keys.live - used, keys.destroyed + used, keys.signed + KeysOf(ids))
  }

  function KeysOf(ids: seq<string>): seq<string> {
    seq(|ids|, i requires 0 <= i < |ids| => KeyOf(ids[i]))
  }

  lemma KeysUsedFirst(keys: Keys, ids: seq<string>, rest: seq<string>, next: Keys)
    requires ids != [] && rest <= ids[1..] && next == KeysUsed(keys, [ids[0]])
    ensures KeysUsed(next, rest) == KeysUsed(keys, [ids[0]] + rest)
  {
    var k := KeyOf(ids[0]);
    var all := [ids[0]] + rest;
    assert (set t | t in [ids[0]] :: KeyOf(t)) == {k};
    assert (set t | t in all :: KeyOf(t)) == {k} + (set t | t in rest :: KeyOf(t));
    assert KeysOf(all) == KeysOf([ids[0]]) + KeysOf(rest);
  }

  // Token n, if there is one, is the first whose key was destroyed before.
  ghost predicate StopsAt(keys: Keys, ids: seq<string>, n: nat) {
    && n <= |ids|
    && (forall i :: 0 <= i < n ==> KeyOf(ids[i]) !in keys.destroyed)
    && (n < |ids| ==> KeyOf(ids[n]) in keys.destroyed)
  }

  lemma StopsLater(keys: Keys, ids: seq<string>, next: Keys, m: nat)
    requires Distinct(ids) && ids != [] && KeyOf(ids[0]) !in keys.destroyed
    requires next.destroyed == keys.destroyed + {KeyOf(ids[0])} && StopsAt(next, ids[1..], m)
    ensures StopsAt(keys, ids, m + 1)
  {
    forall i | 0 < i < |ids|
      ensures ids[i] == ids[1..][i - 1] && (KeyOf(ids[i]) in next.destroyed <==> KeyOf(ids[i]) in keys.destroyed)
    {
      if KeyOf(ids[i]) == KeyOf(ids[0]) { KeysDiffer(ids[i], ids[0]); }
    }
  }

  // Spending in turn uses the keys in order and stops at the first that was destroyed before.
  lemma {:induction false} SpendsInOrder(keys: Keys, ids: seq<string>) returns (n: nat)
    requires Distinct(ids)
    ensures StopsAt(keys, ids, n) && SpendKeys(keys, ids) == (KeysUsed(keys, ids[..n]), n == |ids|)
    decreases |ids|
  {
    if ids == [] || KeyOf(ids[0]) in keys.destroyed {
      n := 0;
      NothingUsed(keys);
    } else {
      var k := KeyOf(ids[0]);
      var next := Keys(keys.live - {k}, keys.destroyed + {k}, keys.signed + [k]);
      var m := SpendsInOrder(next, ids[1..]);
      n := m + 1;
      StopsLater(keys, ids, next, m);
      OneKeyUsed(keys, ids[0], next);
      KeysUsedFirst(keys, ids, ids[1..][..m], next);
      assert ids[..n] == [ids[0]] + ids[1..][..m];
    }
  }

  lemma NothingUsed(keys: Keys)
    ensures KeysUsed(keys, []) == keys
  {
  }

  lemma OneKeyUsed(keys: Keys, t: string, next: Keys)
    requires next == Keys(keys.live - {KeyOf(t)}, keys.destroyed + {KeyOf(t)}, keys.signed + [KeyOf(t)])
    ensures next == KeysUsed(keys, [t])
  {
    assert (set u | u in [t] :: KeyOf(u)) == {KeyOf(t)};
  }
}
