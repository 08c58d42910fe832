// The in-memory key store. A key can be generated, used and destroyed; a destroyed key never
// comes back. Random material, nonces and clock readings are parameters.

module SecureElement {
  import opened Coins
  import KeyRecords

  type Bytes = seq<int>

  datatype SigningKey = SigningKey(secret: Bytes, public: Bytes)

  datatype Keypair = Keypair(publicKey: Bytes, privateKey: Option<SigningKey>, keyId: string)

  // A signature records which key signed what.
  datatype Signature = Signature(key: SigningKey, data: Bytes)

  // The hash binds the destroyed key material to the nonce.
  datatype DestructionProof = DestructionProof(keyId: string, publicKey: Bytes, hashed: (SigningKey, Bytes),
                                               timestamp: int, nonce: Bytes)

  datatype SpendProof = SpendProof(tokenId: string, signature: Signature, destruction: DestructionProof, txHash: Bytes)

  datatype Error = KeyDestroyed | KeyNotFound

  datatype Result<T> = Ok(value: T) | Err(error: Error)

  class SoftwareSecureElement {
    var keys: map<string, SigningKey>
    var publicKeys: map<string, Bytes>
    var destroyed: map<string, DestructionProof>
    // The key of every signature made so far.
    ghost var signed: seq<string>

    ghost predicate Valid()
      reads this
    {
      && keys.Keys !! destroyed.Keys
      && keys.Keys + destroyed.Keys <= publicKeys.Keys
      && (forall id :: id in keys ==> publicKeys[id] == keys[id].public)
      && (forall id :: id in destroyed ==> destroyed[id].keyId == id && destroyed[id].publicKey == publicKeys[id])
    }

    ghost function View(): KeyRecords.Keys
      reads this
    {
      KeyRecords.Keys(keys.Keys, destroyed.Keys, signed)
    }

    constructor ()
      ensures Valid() && View() == KeyRecords.Keys({}, {}, [])
    {
      keys, publicKeys, destroyed, signed := map[], map[], map[], [];
    }

    // A new key replaces a live one of the same name, but never a destroyed one.
    method GenerateKeypair(id: string, drawn: SigningKey, extractable: bool) returns (r: Result<Keypair>)
      requires Valid()
      modifies this
      ensures Valid() && destroyed == old(destroyed) && signed == old(signed)
      ensures id in old(destroyed) ==> r == Err(KeyDestroyed) && keys == old(keys) && publicKeys == old(publicKeys)
      ensures id !in old(destroyed) ==>
                && r == Ok(Keypair(drawn.public, if extractable then Some(drawn) else None, id))
                && keys == old(keys)[id := drawn] && publicKeys == old(publicKeys)[id := drawn.public]
    {
      if id in destroyed { return Err(KeyDestroyed); }
      keys := keys[id := drawn];
      publicKeys := publicKeys[id := drawn.public];
      r := Ok(Keypair(drawn.public, if extractable then Some(drawn) else None, id));
    }

    method Sign(id: string, data: Bytes) returns (r: Result<Signature>)
      requires Valid()
      modifies this`signed
      ensures Valid()
      ensures id in destroyed ==> r == Err(KeyDestroyed)
      ensures id !in destroyed && id !in keys ==> r == Err(KeyNotFound)
      ensures id in keys ==> r == Ok(Signature(keys[id], data))
      ensures signed == if id in keys then old(signed) + [id] else old(signed)
    {
      if id in destroyed { return Err(KeyDestroyed); }
      if id !in keys { return Err(KeyNotFound); }
      signed := signed + [id];
      r := Ok(Signature(keys[id], data));
    }

    // Destroying a destroyed key changes nothing and returns the first proof again.
    method DestroyKey(id: string, nonce: Bytes, now: int) returns (r: Result<DestructionProof>)
      requires Valid()
      modifies this`keys, this`destroyed
      ensures Valid()
      ensures id in old(destroyed) ==> r == Ok(old(destroyed)[id])
      ensures id !in old(destroyed) && id !in old(keys) ==> r == Err(KeyNotFound)
      ensures id !in old(keys) ==> keys == old(keys) && destroyed == old(destroyed)
      ensures id in old(keys) ==>
                && r == Ok(DestructionProof(id, old(keys)[id].public, (old(keys)[id], nonce), now, nonce))
                && keys == old(keys) - {id} && destroyed == old(destroyed)[id := r.value]
    {
      if id in destroyed { return Ok(destroyed[id]); }
      if id !in keys { return Err(KeyNotFound); }
      var signingKey := keys[id];
      var proof := DestructionProof(id, publicKeys[id], (signingKey, nonce), now, nonce);
      keys := keys - {id};
      destroyed := destroyed[id := proof];
      r := Ok(proof);
    }

    method HasKey(id: string) returns (r: bool)
      requires Valid()
      ensures r == (id in keys)
    {
      r := id in keys && id !in destroyed;
    }

    method GetPublicKey(id: string) returns (r: Result<Bytes>)
      requires Valid()
      ensures id in keys ==> r == Ok(keys[id].public)
      ensures id in destroyed ==> r == Ok(destroyed[id].publicKey)
      ensures r.Err? ==> r == Err(KeyNotFound) && id !in keys && id !in destroyed
    {
      if id !in publicKeys { return Err(KeyNotFound); }
      r := Ok(publicKeys[id]);
    }
  }

  class TokenManager {
    const se: SoftwareSecureElement

    constructor (se: SoftwareSecureElement)
      ensures this.se == se
    {
      this.se := se;
    }

    // Sign the payment with the token's key and destroy the key. While every signature so far was
    // followed by destruction, no key signs twice.
    method SpendToken(token: MintedToken, txHash: Bytes, nonce: Bytes, now: int) returns (r: Result<SpendProof>)
      requires se.Valid()
      modifies se
      ensures se.Valid()
      ensures old(KeyRecords.KeysSafe(se.View())) ==> KeyRecords.KeysSafe(se.View())
      ensures var k, v := KeyRecords.KeyOf(token.id), old(se.View());
              if k in v.live then
                && k in se.destroyed
                && r == Ok(SpendProof(token.id, Signature(old(se.keys)[k], txHash), se.destroyed[k], txHash))
                && se.View() == KeyRecords.Keys(v.live - {k}, v.destroyed + {k}, v.signed + [k])
              else
                && r == Err(if k in v.destroyed then KeyDestroyed else KeyNotFound)
                && se.View() == v
    {
      var keyId := KeyRecords.KeyOf(token.id);
      var signature := se.Sign(keyId, txHash);
      if signature.Err? { return Err(signature.error); }
      var destruction := se.DestroyKey(keyId, nonce, now);
      r := Ok(SpendProof(token.id, signature.value, destruction.value, txHash));
    }
  }
}
