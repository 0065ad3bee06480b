/** What a valid verification means, for every artifact, key list and sort. */
module Acceptance {
  import opened Wrappers
  import opened Bytes
  import opened Cbor
  import opened Credentials
  import opened Decoder
  import opened Writers
  import opened Codec
  import opened Canonical
  import opened LowS
  import opened Verifier
  import opened Samples

  /**
   * `artifact` is the canonical envelope `e` around the canonical payload of
   * `c`, `c` is valid, and a trusted key signed exactly this envelope.
   */
  ghost predicate Accepts(artifact: seq<byte>, keys: seq<TrustedKey>, verify: Verify, e: Envelope, c: Credential) {
    && EnvelopeOk(e) && artifact == Enc(EnvelopeTree(e))
    && e.artifactKind == 1 && e.envelopeVersion == 1 && e.algorithmId == ALGORITHM
    && Decodable(c) && e.payload == Enc(PayloadTree(c))
    && c.schemaMajor == 1 && SemanticallyValid(c)
    && ValidLowS(e.signature)
    && FindKey(keys, e.keyId).Some? && verify(SigningBytes(e), e.signature, FindKey(keys, e.keyId).value.xy)
  }

  /** The found key is the first in the list with its identifier. */
  lemma {:induction false} FindKeyIsFirst(keys: seq<TrustedKey>, keyId: seq<byte>)
    ensures match FindKey(keys, keyId)
            case None => forall i | 0 <= i < |keys| :: keys[i].keyId != keyId
            case Some(key) =>
              exists i | 0 <= i < |keys| ::
                keys[i] == key && key.keyId == keyId && forall j | 0 <= j < i :: keys[j].keyId != keyId
  {
    if keys != [] && keys[0].keyId != keyId {
      FindKeyIsFirst(keys[1..], keyId);
      var r := FindKey(keys[1..], keyId);
      if r.Some? {
        var i :| 0 <= i < |keys[1..]| && keys[1..][i] == r.value
                 && forall j | 0 <= j < i :: keys[1..][j].keyId != keyId;
        assert keys[i + 1] == r.value;
        assert forall j | 0 < j < i + 1 :: keys[j] == keys[1..][j - 1];
      } else {
        assert forall j | 0 < j < |keys| :: keys[j] == keys[1..][j - 1];
      }
    }
  }

  /** The signing input of an envelope with a 64-byte signature always fits. */
  lemma SigningInputFits(e: Envelope)
    requires |Enc(EnvelopeTree(e))| <= MAX_ARTIFACT && |e.signature| == 64
    ensures |SigningBytes(e)| <= MAX_ARTIFACT
  {
    EnvelopeLength(e);
    SigningLength(e);
    hide Enc, EncAll, Head;
    assert |DOMAIN| == 20;
  }

  lemma EnvelopeLength(e: Envelope)
    ensures |Enc(EnvelopeTree(e))| >= 6 + |Enc(Text(e.algorithmId))| + |Enc(Text(e.keyId))| + |Enc(Bytes(e.payload))|
                                      + |e.signature|
  {
    hide Head;
    var one := Field(1, UInt(e.artifactKind));
    var two := one + Field(2, UInt(e.envelopeVersion));
    var three := two + Field(3, Text(e.algorithmId));
    var four := three + Field(4, Text(e.keyId));
    var five := four + Field(5, Bytes(e.payload));
    hide Enc, EncAll;
    EncAllConcat(five, Field(6, Bytes(e.signature)));
    EncAllConcat(four, Field(5, Bytes(e.payload)));
    EncAllConcat(three, Field(4, Text(e.keyId)));
    EncAllConcat(two, Field(3, Text(e.algorithmId)));
    EncField(3, Text(e.algorithmId));
    EncField(4, Text(e.keyId));
    EncField(5, Bytes(e.payload));
    EncField(6, Bytes(e.signature));
    StringLength(e.signature);
    MapLength(EnvelopeTree(e).items);
  }

  lemma MapLength(items: seq<Item>)
    ensures |Enc(Map(true, items))| >= |EncAll(items)|
  {
  }

  lemma StringLength(s: seq<byte>)
    ensures |Enc(Bytes(s))| >= |s|
  {
  }

  lemma SigningLength(e: Envelope)
    ensures |SigningBytes(e)| == 23 + |Enc(Text(e.algorithmId))| + |Enc(Text(e.keyId))| + |Enc(Bytes(e.payload))|
  {
    var a, k, p := Text(e.algorithmId), Text(e.keyId), Bytes(e.payload);
    var items := [Text(DOMAIN), UInt(1), a, k, p];
    ConstantsLength();
    assert Enc(SigningTree(e.algorithmId, e.keyId, e.payload)) == Head(4, 5) + EncAll(items);
    hide Enc, Head;
    EncAllCons(p, []);
    EncAllCons(k, [p]);
    EncAllCons(a, [k, p]);
    EncAllCons(UInt(1), [a, k, p]);
    EncAllCons(Text(DOMAIN), [UInt(1), a, k, p]);
    assert [p] + [] == [p] && [k] + [p] == [k, p] && [a] + [k, p] == [a, k, p];
    assert [UInt(1)] + [a, k, p] == [UInt(1), a, k, p] && [Text(DOMAIN)] + [UInt(1), a, k, p] == items;
  }

  lemma ConstantsLength()
    ensures |Head(4, 5)| == 1 && |Enc(UInt(1))| == 1 && |Enc(Text(DOMAIN))| == 21
  {
  }

  /** Verification succeeds exactly for accepted artifacts, whatever the sort does. */
  lemma ValidExactly(artifact: seq<byte>, keys: seq<TrustedKey>, verify: Verify, es: seq<Entitlement>)
    requires PossibleSort(artifact, es)
    ensures var r := Verified(artifact, keys, verify, es);
            (r.status.Valid? <==> exists e, c :: Accepts(artifact, keys, verify, e, c))
            && (r.status.Valid? <==> r.credential.Some?)
            && (r.status.Valid? ==>
                  Accepts(artifact, keys, verify, DecodedEnvelope(artifact).value, r.credential.value))
  {
    hide Enc, EnvelopeTree, PayloadTree, SemanticallyValid, ValidLowS, DecodedEnvelope, DecodedPayload, Decodable;
    var r := Verified(artifact, keys, verify, es);
    if r.status.Valid? {
      var e := DecodedEnvelope(artifact).value;
      EnvelopeGateIsExact(artifact);
      PayloadGateIsSound(e.payload, es);
      assert Accepts(artifact, keys, verify, e, DecodedPayload(e.payload).value);
    }
    if e, c :| Accepts(artifact, keys, verify, e, c) {
      AcceptedIsVerified(artifact, keys, verify, es, e, c);
    }
  }

  /** Artifacts are accepted with any number of entitlements up to 71, if their signature verifies. */
  lemma SomeArtifactIsAccepted(n: nat, verify: Verify)
    requires n <= 71
    requires var e := SampleEnvelope(Sample(1, SampleEntitlements(n)));
             verify(SigningBytes(e), e.signature, SAMPLE_KEYS[0].xy)
    ensures var c := Sample(1, SampleEntitlements(n));
            Accepts(Enc(EnvelopeTree(SampleEnvelope(c))), SAMPLE_KEYS, verify, SampleEnvelope(c), c)
            && |c.entitlements| == n
  {
    hide Enc, EnvelopeTree, PayloadTree, SemanticallyValid, ValidLowS, SigningBytes, Small, EntitlementOk, Decodable,
         SampleEntitlement;
    var es := SampleEntitlements(n);
    SamplesAreValid(n);
    SampleIsShort(1, es);
    SampleReadsBack(1, es);
    SampleEnvelopeIsCanonical(Sample(1, es));
  }

  lemma AcceptedIsVerified(
      artifact: seq<byte>, keys: seq<TrustedKey>, verify: Verify, es: seq<Entitlement>, e: Envelope, c: Credential)
    requires PossibleSort(artifact, es) && Accepts(artifact, keys, verify, e, c)
    ensures Verified(artifact, keys, verify, es) == Verification(Valid, Some(c))
  {
    hide Enc, EnvelopeTree, PayloadTree, SemanticallyValid, ValidLowS, DecodedEnvelope, DecodedPayload, Decodable,
         SigningBytes, FindKey, IsSortOf;
    AcceptedPassesGates(artifact, keys, verify, es, e, c);
  }

  lemma AcceptedPassesGates(
      artifact: seq<byte>, keys: seq<TrustedKey>, verify: Verify, es: seq<Entitlement>, e: Envelope, c: Credential)
    requires PossibleSort(artifact, es) && Accepts(artifact, keys, verify, e, c)
    ensures artifact != [] && |artifact| <= MAX_ARTIFACT
    ensures PassesEnvelopeGate(artifact) && DecodedEnvelope(artifact) == Ok(e)
    ensures PassesPayloadGate(e.payload, es) && DecodedPayload(e.payload) == Ok(c)
    ensures Fit(SigningBytes(e), MAX_ARTIFACT) == Ok(SigningBytes(e))
  {
    SignatureLength(e.signature);
    hide Enc, EnvelopeTree, PayloadTree, ValidLowS, DecodedEnvelope, DecodedPayload, SigningBytes, FindKey,
         EntitlementValid, IsSortOf, Ordered, DistinctIds, StrictlyOrdered;
    EnvelopeRoundTrip(e);
    PayloadRoundTrip(c);
    StrictIsOrderedAndDistinct(c.entitlements);
    PayloadGateIsComplete(e.payload, c, es);
    SigningInputFits(e);
  }

  lemma SignatureLength(signature: seq<byte>)
    ensures ValidLowS(signature) ==> |signature| == 64
  {
  }

  /**
   * Accepted artifacts are not malleable: equal envelope headers, signatures
   * and credentials, up to the order of entitlements, mean equal bytes.
   */
  lemma AcceptedIsUnique(
      a1: seq<byte>, a2: seq<byte>, keys: seq<TrustedKey>, verify: Verify,
      e1: Envelope, e2: Envelope, c1: Credential, c2: Credential)
    requires Accepts(a1, keys, verify, e1, c1) && Accepts(a2, keys, verify, e2, c2)
    requires e1.keyId == e2.keyId && e1.signature == e2.signature
    requires multiset(c1.entitlements) == multiset(c2.entitlements) && c1 == c2.(entitlements := c1.entitlements)
    ensures a1 == a2
  {
    StrictIsOrderedAndDistinct(c1.entitlements);
    StrictIsOrderedAndDistinct(c2.entitlements);
    SortIsUnique(c1.entitlements, c2.entitlements);
    assert e1.payload == e2.payload;
  }

  /** The signed message alone determines algorithm, key, payload and credential. */
  lemma SignedMessageDetermines(
      a1: seq<byte>, a2: seq<byte>, keys: seq<TrustedKey>, verify: Verify,
      e1: Envelope, e2: Envelope, c1: Credential, c2: Credential)
    requires Accepts(a1, keys, verify, e1, c1) && Accepts(a2, keys, verify, e2, c2)
    requires SigningBytes(e1) == SigningBytes(e2)
    ensures e1.algorithmId == e2.algorithmId && e1.keyId == e2.keyId && e1.payload == e2.payload && c1 == c2
  {
    SignatureLength(e1.signature);
    SignatureLength(e2.signature);
    hide ValidLowS, SemanticallyValid, EnvelopeTree, FindKey, Head;
    SigningInputFits(e1);
    SigningInputFits(e2);
    hide Enc, PayloadTree;
    SigningInputIsInjective(e1.algorithmId, e1.keyId, e1.payload, e2.algorithmId, e2.keyId, e2.payload, [], []);
    PayloadTreeIsInjective(c1, c2);
  }

  /** Every accepted artifact and its payload are deterministically encoded. */
  lemma AcceptedIsDeterministic(artifact: seq<byte>, keys: seq<TrustedKey>, verify: Verify, e: Envelope, c: Credential)
    requires Accepts(artifact, keys, verify, e, c)
    ensures CoreDeterministic(artifact) && CoreDeterministic(e.payload)
  {
    EnvelopeFacts(e);
    RootOfEnc(EnvelopeTree(e));
    PayloadFacts(c);
    RootOfEnc(PayloadTree(c));
  }
}
