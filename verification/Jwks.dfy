/** The JWKS and discovery caches of the token validator. */
module Jwks {
  import opened Prelude
  import opened Base64Url

  datatype JWK = JWK(kid: string, kty: string, alg: string, use: string, n: string, e: string)

  datatype PublicKey = PublicKey(modulus: nat, exponent: int)

  const TWO_63: nat := 0x8000_0000_0000_0000
  const TWO_64: nat := 0x1_0000_0000_0000_0000

  /** big.Int.Int64: the low 64 bits, read as a signed integer. */
  function Int64(x: nat): int {
    if x % TWO_64 < TWO_63 then x % TWO_64 else x % TWO_64 - TWO_64
  }

  predicate Usable(j: JWK) {
    j.kid != "" && j.kty == "RSA" && (j.use == "" || j.use == "sig") && (j.alg == "" || j.alg == "RS256")
  }

  function RsaPublicKey(j: JWK): Option<PublicKey> {
    if !Usable(j) then None
    else
      match (Decode(j.n), Decode(j.e))
      case (Some(modulus), Some(exponent)) =>
        var e := Int64(SetBytes(exponent));
        if e <= 0 then None else Some(PublicKey(SetBytes(modulus), e))
      case _ => None
  }

  /** A usable JWK that spells (N, E) as RFC 7518 says. */
  predicate Spells(j: JWK, modulus: nat, exponent: nat) {
    Usable(j) && j.n == Base64urlUInt(modulus) && j.e == Base64urlUInt(exponent)
  }

  lemma Int64Exactly(x: nat)
    ensures x < TWO_63 <==> Int64(x) == x
  {
  }

  lemma SpelledKeyReads(j: JWK, modulus: nat, exponent: nat)
    requires Spells(j, modulus, exponent)
    ensures RsaPublicKey(j) == if Int64(exponent) <= 0 then None else Some(PublicKey(modulus, Int64(exponent)))
  {
    UIntRoundTrips(modulus);
    UIntRoundTrips(exponent);
  }

  /** The published key is read back exactly when its exponent is positive and fits an int64. */
  lemma KeyRoundTripsExactly(j: JWK, modulus: nat, exponent: nat)
    requires Spells(j, modulus, exponent)
    ensures RsaPublicKey(j) == Some(PublicKey(modulus, exponent)) <==> 1 <= exponent < TWO_63
  {
    SpelledKeyReads(j, modulus, exponent);
    Int64Exactly(exponent);
  }

  /** Beyond that the low 64 bits decide: 2^64 + 65537 is read as 65537. */
  lemma WideExponentIsTruncated(j: JWK, modulus: nat)
    requires Spells(j, modulus, TWO_64 + 65537)
    ensures RsaPublicKey(j) == Some(PublicKey(modulus, 65537))
  {
    SpelledKeyReads(j, modulus, TWO_64 + 65537);
    Int64Wraps(65537);
  }

  /** Of every exponent only the low 64 bits count: as a signed number they are the exponent read, or it is refused. */
  lemma ExponentIsRefusedExactly(j: JWK, modulus: nat, exponent: nat)
    requires Spells(j, modulus, exponent)
    ensures RsaPublicKey(j).None? <==> Int64(exponent) <= 0
    ensures RsaPublicKey(j).Some? ==> RsaPublicKey(j).value == PublicKey(modulus, Int64(exponent))
  {
    SpelledKeyReads(j, modulus, exponent);
  }

  lemma Int64Wraps(x: nat)
    requires x < TWO_63
    ensures Int64(TWO_64 + x) == x
  {
  }

  // ----- A key set -----

  /** The last usable key published under a kid, whatever else the document holds. */
  ghost predicate LastValid(doc: seq<JWK>, kid: string, key: PublicKey) {
    exists i :: 0 <= i < |doc| && doc[i].kid == kid && RsaPublicKey(doc[i]) == Some(key)
                && forall j :: i < j < |doc| && doc[j].kid == kid ==> RsaPublicKey(doc[j]).None?
  }

  ghost predicate Lists(doc: seq<JWK>, kid: string) {
    exists i :: 0 <= i < |doc| && doc[i].kid == kid && RsaPublicKey(doc[i]).Some?
  }

  ghost predicate KeysOf(doc: seq<JWK>, keys: map<string, PublicKey>) {
    && (forall kid :: kid in keys <==> Lists(doc, kid))
    && (forall kid :: kid in keys ==> LastValid(doc, kid, keys[kid]))
  }

  /** Each usable JWK in turn overwrites what its kid had. */
  function KeyMap(doc: seq<JWK>): map<string, PublicKey>
    decreases |doc|
  {
    if doc == [] then map[]
    else
      var init, j := doc[..|doc| - 1], doc[|doc| - 1];
      match RsaPublicKey(j)
      case None => KeyMap(init)
      case Some(key) => KeyMap(init)[j.kid := key]
  }

  /** The loop of refresh over the decoded document. */
  method CollectKeys(doc: seq<JWK>) returns (keys: map<string, PublicKey>)
    ensures keys == KeyMap(doc)
  {
    keys := map[];
    for n := 0 to |doc|
      invariant keys == KeyMap(doc[..n])
    {
      assert doc[..n + 1][..n] == doc[..n];
      var key := RsaPublicKey(doc[n]);
      if key.None? {
        continue;
      }
      keys := keys[doc[n].kid := key.value];
    }
    assert doc[..|doc|] == doc;
  }

  lemma ListsMore(doc: seq<JWK>, j: JWK, kid: string)
    ensures Lists(doc + [j], kid) <==> Lists(doc, kid) || (j.kid == kid && RsaPublicKey(j).Some?)
  {
    var more := doc + [j];
    if Lists(doc, kid) {
      var i :| 0 <= i < |doc| && doc[i].kid == kid && RsaPublicKey(doc[i]).Some?;
      assert more[i] == doc[i];
    }
    if j.kid == kid && RsaPublicKey(j).Some? {
      assert more[|doc|] == j;
    }
  }

  lemma StaysLast(doc: seq<JWK>, j: JWK, kid: string, key: PublicKey)
    requires LastValid(doc, kid, key) && (j.kid != kid || RsaPublicKey(j).None?)
    ensures LastValid(doc + [j], kid, key)
  {
    var more := doc + [j];
    var i :| 0 <= i < |doc| && doc[i].kid == kid && RsaPublicKey(doc[i]) == Some(key)
             && forall k :: i < k < |doc| && doc[k].kid == kid ==> RsaPublicKey(doc[k]).None?;
    assert more[i] == doc[i];
    assert forall k :: i < k < |more| && more[k].kid == kid ==> RsaPublicKey(more[k]).None?;
  }

  lemma SkipInvalid(doc: seq<JWK>, j: JWK, keys: map<string, PublicKey>)
    requires KeysOf(doc, keys) && RsaPublicKey(j).None?
    ensures KeysOf(doc + [j], keys)
  {
    forall kid ensures kid in keys <==> Lists(doc + [j], kid) { ListsMore(doc, j, kid); }
    forall kid | kid in keys ensures LastValid(doc + [j], kid, keys[kid]) { StaysLast(doc, j, kid, keys[kid]); }
  }

  lemma AddValid(doc: seq<JWK>, j: JWK, keys: map<string, PublicKey>)
    requires KeysOf(doc, keys) && RsaPublicKey(j).Some?
    ensures KeysOf(doc + [j], keys[j.kid := RsaPublicKey(j).value])
  {
    var after := keys[j.kid := RsaPublicKey(j).value];
    forall kid ensures kid in after <==> Lists(doc + [j], kid) { ListsMore(doc, j, kid); }
    forall kid | kid in after ensures LastValid(doc + [j], kid, after[kid]) {
      if kid == j.kid {
        assert (doc + [j])[|doc|] == j;
      } else {
        StaysLast(doc, j, kid, keys[kid]);
      }
    }
  }

  /** Only named RSA keys for RS256 signatures are ever taken from a document. */
  lemma OnlySigningKeysAreTaken(doc: seq<JWK>, kid: string)
    requires kid in KeyMap(doc)
    ensures kid != "" && exists j :: j in doc && j.kid == kid && j.kty == "RSA" && j.use in {"", "sig"}
                                     && j.alg in {"", "RS256"} && RsaPublicKey(j) == Some(KeyMap(doc)[kid])
  {
    KeyMapIsLastValid(doc);
    assert LastValid(doc, kid, KeyMap(doc)[kid]);
  }

  /** A JWK is refused exactly if it is of another kind, does not decode, or has no positive exponent. */
  lemma RefusedExactly(j: JWK)
    ensures RsaPublicKey(j).None?
       <==> || j.kid == "" || j.kty != "RSA" || j.use !in {"", "sig"} || j.alg !in {"", "RS256"}
            || Decode(j.n).None? || Decode(j.e).None?
            || Int64(SetBytes(Decode(j.e).value)) <= 0
  {
  }

  /** The map refresh builds: per kid the last usable key, whatever unusable entries are mixed in. */
  lemma {:induction false} KeyMapIsLastValid(doc: seq<JWK>)
    ensures KeysOf(doc, KeyMap(doc))
    decreases |doc|
  {
    if doc != [] {
      var init, j := doc[..|doc| - 1], doc[|doc| - 1];
      KeyMapIsLastValid(init);
      assert doc == init + [j];
      if RsaPublicKey(j).None? { SkipInvalid(init, j, KeyMap(init)); } else { AddValid(init, j, KeyMap(init)); }
    }
  }
}
