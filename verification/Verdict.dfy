/**
 * The verdict on an artifact in octets, numbers and dates: what makes it valid,
 * what makes it unsupported, and that everything else is invalid.
 */
module Verdict {
  import opened Wrappers
  import opened Bytes
  import opened Cbor
  import opened Credentials
  import opened Decoder
  import opened Writers
  import opened Codec
  import opened Canonical
  import opened LowS
  import opened Verifier
  import opened Acceptance
  import opened WireFormat
  import opened Meaning

  //
  // Valid credentials
  //

  /** One to 128 characters out of a to z, 0 to 9, full stop, underscore and hyphen. */
  predicate IsIdentifier(s: seq<byte>) {
    1 <= |s| <= 128
    && forall i | 0 <= i < |s| :: 97 <= s[i] <= 122 || 48 <= s[i] <= 57 || s[i] == 46 || s[i] == 95 || s[i] == 45
  }

  /** Kind 1 has no end; kind 2 has one, after its beginning if it has a beginning. */
  predicate IsGoodValidity(v: Validity) {
    (v.kind == 1 && v.notAfter.None?)
    || (v.kind == 2 && v.notAfter.Some? && (v.notBefore.Some? ==> v.notBefore.value < v.notAfter.value))
  }

  /** Semantics 1 has no maximum; semantics 2 has one, and it is not zero. */
  predicate IsGoodGrant(e: Entitlement) {
    (e.grantSemantics == 1 && e.maxU64.None?)
    || (e.grantSemantics == 2 && e.maxU64.Some? && e.maxU64.value > 0)
  }

  /** The identifier is that of the product, a full stop, and more or nothing. */
  predicate IsGoodEntitlement(e: Entitlement) {
    IsIdentifier(e.productId) && IsIdentifier(e.id)
    && |e.id| > |e.productId| && e.id[..|e.productId|] == e.productId && e.id[|e.productId|] == 46
    && IsGoodValidity(e.validity) && IsGoodGrant(e)
  }

  /** Every identifier comes before every later one. */
  ghost predicate Ascending(es: seq<Entitlement>) {
    forall i, j | 0 <= i < j < |es| :: Precedes(es[i].id, es[j].id)
  }

  ghost predicate IsGoodCredential(c: Credential) {
    |c.credentialId| > 0 && |c.licenseGrantId| > 0 && |c.bindingId| > 0 && |c.deviceId| > 0
    && c.authorityRevision > 0 && c.credentialGeneration > 0
    && Ascending(c.entitlements) && forall i | 0 <= i < |c.entitlements| :: IsGoodEntitlement(c.entitlements[i])
  }

  lemma EntitlementSpelledOut(e: Entitlement)
    ensures EntitlementValid(e) <==> IsGoodEntitlement(e)
  {
    var prefix := e.productId + Ascii(".");
    assert Ascii(".") == [46];
    if |e.id| > |e.productId| && e.id[..|e.productId|] == e.productId && e.id[|e.productId|] == 46 {
      assert e.id[..|prefix|] == prefix;
    }
    if prefix <= e.id {
      assert e.id[..|prefix|] == prefix;
      assert e.id[..|e.productId|] == prefix[..|e.productId|];
    }
    IdentifierSpelledOut(e.id);
    IdentifierSpelledOut(e.productId);
    hide LowercaseIdentifier, IsIdentifier;
  }

  lemma IdentifierSpelledOut(s: seq<byte>)
    ensures LowercaseIdentifier(s) <==> IsIdentifier(s)
  {
  }

  lemma OrderSpelledOut(es: seq<Entitlement>)
    ensures StrictlyOrdered(es) <==> Ascending(es)
  {
    hide LexLess, Precedes;
    forall i, j | 0 <= i < j < |es| ensures LexLess(es[i].id, es[j].id) <==> Precedes(es[i].id, es[j].id)
    {
      LexLessByFirstDifference(es[i].id, es[j].id);
    }
  }

  /** What semantic validity means, octet by octet. */
  lemma SemanticsSpelledOut(c: Credential)
    ensures SemanticallyValid(c) <==> IsGoodCredential(c)
  {
    OrderSpelledOut(c.entitlements);
    forall i | 0 <= i < |c.entitlements|
      ensures EntitlementValid(c.entitlements[i]) <==> IsGoodEntitlement(c.entitlements[i])
    {
      EntitlementSpelledOut(c.entitlements[i]);
    }
    hide StrictlyOrdered, Ascending, EntitlementValid, IsGoodEntitlement;
  }

  //
  // Genuine artifacts
  //

  /** The text "axl-ecdsa-p256-sha256-v1". */
  function AlgorithmOctets(): seq<byte> {
    [0x61, 0x78, 0x6c, 0x2d, 0x65, 0x63, 0x64, 0x73, 0x61, 0x2d, 0x70, 0x32,
     0x35, 0x36, 0x2d, 0x73, 0x68, 0x61, 0x32, 0x35, 0x36, 0x2d, 0x76, 0x31]
  }

  lemma AlgorithmIsThese()
    ensures ALGORITHM == AlgorithmOctets()
  {
  }

  /** The bytes mean the envelope, and they are its only canonical ones. */
  ghost predicate IsCanonicalEnvelope(b: seq<byte>, e: Envelope) {
    WellFormed(b) && IsEnvelope(Root(b), e) && b == EnvelopeOctets(e)
  }

  ghost predicate IsCanonicalOf(b: seq<byte>, c: Credential) {
    WellFormed(b) && IsPayload(Root(b), c) && b == PayloadOctets(c)
  }

  /** Kind, version, algorithm or key are not known here. */
  predicate IsForeign(e: Envelope, keys: seq<TrustedKey>) {
    e.artifactKind != 1 || e.envelopeVersion != 1 || e.algorithmId != AlgorithmOctets()
    || forall i | 0 <= i < |keys| :: keys[i].keyId != e.keyId
  }

  /** r lies in 1..n-1 and s in 1..n/2, for the group order n of P-256. */
  predicate IsInRange(signature: seq<byte>) {
    |signature| == 64
    && 1 <= Value(signature[..32]) < 0xffffffff_00000000_ffffffff_ffffffff_bce6faad_a7179e84_f3b9cac2_fc632551
    && 1 <= Value(signature[32..]) <= 0xffffffff_00000000_ffffffff_ffffffff_bce6faad_a7179e84_f3b9cac2_fc632551 / 2
  }

  /** The first key of that name verifies the signature over the signing input. */
  predicate IsSigned(e: Envelope, keys: seq<TrustedKey>, verify: Verify) {
    exists i | 0 <= i < |keys| ::
      keys[i].keyId == e.keyId && (forall j | 0 <= j < i :: keys[j].keyId != e.keyId)
      && verify(SigningOctets(e.algorithmId, e.keyId, e.payload), e.signature, keys[i].xy)
  }

  ghost predicate IsGenuine(artifact: seq<byte>, keys: seq<TrustedKey>, verify: Verify, e: Envelope, c: Credential) {
    IsCanonicalEnvelope(artifact, e) && !IsForeign(e, keys)
    && IsCanonicalOf(e.payload, c) && Ascending(c.entitlements)
    && IsInRange(e.signature) && IsSigned(e, keys, verify)
    && c.schemaMajor == 1 && IsGoodCredential(c)
  }

  lemma CanonicalEnvelopeIsEncoded(b: seq<byte>, e: Envelope)
    ensures IsCanonicalEnvelope(b, e) <==> EnvelopeOk(e) && b == Enc(EnvelopeTree(e))
    ensures IsCanonicalEnvelope(b, e) ==> DecodedEnvelope(b) == Ok(e)
  {
    EnvelopeHasOctets(e);
    EnvelopeRoundTrip(e);
    DecodedEnvelopeMeans(b, e);
    hide Enc, EnvelopeTree, EnvelopeOctets, WellFormed, IsEnvelope, DecodedEnvelope, EnvelopeOk;
  }

  lemma CanonicalPayloadIsEncoded(b: seq<byte>, c: Credential)
    ensures IsCanonicalOf(b, c) <==> Decodable(c) && b == Enc(PayloadTree(c))
    ensures IsCanonicalOf(b, c) ==> DecodedPayload(b) == Ok(c)
  {
    PayloadHasOctets(c);
    PayloadRoundTrip(c);
    DecodedPayloadMeans(b, c);
    hide Enc, PayloadTree, PayloadOctets, WellFormed, IsPayload, DecodedPayload, Decodable;
  }

  lemma RangeSpelledOut(signature: seq<byte>)
    ensures ValidLowS(signature) <==> IsInRange(signature)
  {
    ValidLowSIsArithmetic(signature);
    hide ValidLowS, Value;
  }

  lemma KeySpelledOut(e: Envelope, keys: seq<TrustedKey>, verify: Verify)
    ensures FindKey(keys, e.keyId).None? <==> forall i | 0 <= i < |keys| :: keys[i].keyId != e.keyId
    ensures IsSigned(e, keys, verify) <==>
            FindKey(keys, e.keyId).Some? && verify(SigningBytes(e), e.signature, FindKey(keys, e.keyId).value.xy)
  {
    FindKeyIsFirst(keys, e.keyId);
    SigningHasOctets(e.algorithmId, e.keyId, e.payload);
    hide SigningOctets, Enc, SigningTree, FindKey;
  }

  lemma GenuineIsAccepted(artifact: seq<byte>, keys: seq<TrustedKey>, verify: Verify, e: Envelope, c: Credential)
    ensures IsGenuine(artifact, keys, verify, e, c) <==> Accepts(artifact, keys, verify, e, c)
  {
    CanonicalEnvelopeIsEncoded(artifact, e);
    CanonicalPayloadIsEncoded(e.payload, c);
    RangeSpelledOut(e.signature);
    KeySpelledOut(e, keys, verify);
    SemanticsSpelledOut(c);
    AlgorithmIsThese();
    hide IsCanonicalEnvelope, IsCanonicalOf, IsInRange, IsSigned, ValidLowS, FindKey, SigningBytes, SemanticallyValid,
         EnvelopeOk, Decodable, Enc, EnvelopeTree, PayloadTree, Ascending, AlgorithmOctets, ALGORITHM, DecodedEnvelope,
         DecodedPayload;
  }

  //
  // The three verdicts
  //

  /** Verification succeeds exactly for genuine artifacts, whatever the sort does, and returns their credential. */
  lemma ValidExactlyIfGenuine(artifact: seq<byte>, keys: seq<TrustedKey>, verify: Verify, es: seq<Entitlement>)
    requires PossibleSort(artifact, es)
    ensures var r := Verified(artifact, keys, verify, es);
            (r.status.Valid? <==> exists e, c :: IsGenuine(artifact, keys, verify, e, c))
            && (forall e, c | IsGenuine(artifact, keys, verify, e, c) :: r.credential == Some(c))
            && (!r.status.Valid? ==> r.credential.None?)
  {
    hide Verified, PossibleSort, IsGenuine, Accepts;
    ValidExactly(artifact, keys, verify, es);
    forall e, c ensures IsGenuine(artifact, keys, verify, e, c) <==> Accepts(artifact, keys, verify, e, c) {
      GenuineIsAccepted(artifact, keys, verify, e, c);
    }
    forall e, c | IsGenuine(artifact, keys, verify, e, c)
      ensures Verified(artifact, keys, verify, es).credential == Some(c)
    {
      AcceptedIsVerified(artifact, keys, verify, es, e, c);
    }
  }

  /** Everything but the schema is in order; the sort leaves the entitlements as they are. */
  ghost predicate IsOfOtherSchema(e: Envelope, keys: seq<TrustedKey>, verify: Verify, es: seq<Entitlement>) {
    IsInRange(e.signature) && IsSigned(e, keys, verify)
    && exists c :: IsCanonicalOf(e.payload, c) && c.entitlements == es && c.schemaMajor != 1
  }

  /**
   * An artifact is unsupported exactly if it is a canonical envelope of another
   * kind, version or algorithm or of an unknown key, or a signed and canonical
   * one of another schema; every other artifact that is not genuine is invalid.
   */
  lemma UnsupportedExactly(artifact: seq<byte>, keys: seq<TrustedKey>, verify: Verify, es: seq<Entitlement>)
    requires PossibleSort(artifact, es)
    ensures Verified(artifact, keys, verify, es).status.Unsupported? <==>
            exists e :: IsCanonicalEnvelope(artifact, e) && (IsForeign(e, keys) || IsOfOtherSchema(e, keys, verify, es))
  {
    hide IsCanonicalEnvelope, IsForeign, IsOfOtherSchema, PossibleSort, Verified, Enc, EnvelopeTree;
    GateSpelledOut(artifact);
    if PassesEnvelopeGate(artifact) {
      var e := DecodedEnvelope(artifact).value;
      CanonicalEnvelopeIsEncoded(artifact, e);
      UnsupportedEnvelope(artifact, keys, verify, es, e);
    } else {
      NoEnvelopeIsInvalid(artifact, keys, verify, es);
    }
    forall e | IsCanonicalEnvelope(artifact, e)
      ensures DecodedEnvelope(artifact) == Ok(e) && PassesEnvelopeGate(artifact)
    {
      CanonicalEnvelopeIsEncoded(artifact, e);
      assert EnvelopeOk(e) && artifact == Enc(EnvelopeTree(e));
    }
  }

  lemma GateSpelledOut(artifact: seq<byte>)
    ensures PassesEnvelopeGate(artifact) ==>
              DecodedEnvelope(artifact).Ok? && IsCanonicalEnvelope(artifact, DecodedEnvelope(artifact).value)
    ensures (exists e :: EnvelopeOk(e) && artifact == Enc(EnvelopeTree(e))) ==> PassesEnvelopeGate(artifact)
  {
    EnvelopeGateIsExact(artifact);
    if PassesEnvelopeGate(artifact) {
      CanonicalEnvelopeIsEncoded(artifact, DecodedEnvelope(artifact).value);
    }
    hide Enc, EnvelopeTree, IsCanonicalEnvelope;
  }

  lemma NoEnvelopeIsInvalid(artifact: seq<byte>, keys: seq<TrustedKey>, verify: Verify, es: seq<Entitlement>)
    requires !PassesEnvelopeGate(artifact)
    ensures Verified(artifact, keys, verify, es) == INVALID
  {
    hide PassesEnvelopeGate, DecodedEnvelope, DecodedPayload, PassesPayloadGate, FindKey, SigningBytes;
  }

  /** The payload gate, spelled out. */
  lemma PayloadGateSpelledOut(b: seq<byte>, es: seq<Entitlement>)
    requires DecodedPayload(b).Ok? ==> IsSortOf(es, DecodedPayload(b).value.entitlements)
    ensures PassesPayloadGate(b, es) <==> exists c :: IsCanonicalOf(b, c) && c.entitlements == es
    ensures forall c | IsCanonicalOf(b, c) :: DecodedPayload(b) == Ok(c)
  {
    hide Enc, PayloadTree, DecodedPayload, Decodable, IsCanonicalOf;
    PayloadGateIsExact(b, es);
    forall c ensures IsCanonicalOf(b, c) <==> Decodable(c) && b == Enc(PayloadTree(c))
             ensures IsCanonicalOf(b, c) ==> DecodedPayload(b) == Ok(c)
    {
      CanonicalPayloadIsEncoded(b, c);
    }
    hide PassesPayloadGate;
  }

  /** What the staged verification answers for a canonical envelope, by its stages. */
  lemma UnsupportedByStage(
      artifact: seq<byte>, keys: seq<TrustedKey>, verify: Verify, es: seq<Entitlement>, e: Envelope)
    requires artifact != [] && |artifact| <= MAX_ARTIFACT && PassesEnvelopeGate(artifact)
    requires DecodedEnvelope(artifact) == Ok(e) && (ValidLowS(e.signature) ==> Fit(SigningBytes(e), MAX_ARTIFACT).Ok?)
    requires PassesPayloadGate(e.payload, es) ==> DecodedPayload(e.payload).Ok?
    ensures var foreign := e.artifactKind != 1 || e.envelopeVersion != 1 || e.algorithmId != ALGORITHM
                           || FindKey(keys, e.keyId).None?;
            Verified(artifact, keys, verify, es).status.Unsupported? <==>
            foreign
            || (ValidLowS(e.signature) && verify(SigningBytes(e), e.signature, FindKey(keys, e.keyId).value.xy)
                && PassesPayloadGate(e.payload, es) && DecodedPayload(e.payload).value.schemaMajor != 1)
  {
    hide PassesEnvelopeGate, DecodedEnvelope, DecodedPayload, PassesPayloadGate, FindKey, SigningBytes, ValidLowS,
         SemanticallyValid, ALGORITHM;
  }

  /** The verdict on a canonical envelope. */
  lemma UnsupportedEnvelope(
      artifact: seq<byte>, keys: seq<TrustedKey>, verify: Verify, es: seq<Entitlement>, e: Envelope)
    requires PassesEnvelopeGate(artifact) && DecodedEnvelope(artifact) == Ok(e) && PossibleSort(artifact, es)
    ensures Verified(artifact, keys, verify, es).status.Unsupported? <==>
            IsForeign(e, keys) || IsOfOtherSchema(e, keys, verify, es)
  {
    GateFits(artifact, e);
    GateDecodes(e.payload, es);
    SortOfPayload(artifact, es, e);
    AlgorithmIsThese();
    KeySpelledOut(e, keys, verify);
    RangeSpelledOut(e.signature);
    PayloadGateSpelledOut(e.payload, es);
    UnsupportedByStage(artifact, keys, verify, es, e);
    hide PassesEnvelopeGate, DecodedEnvelope, DecodedPayload, PassesPayloadGate, FindKey, SigningBytes, ValidLowS,
         IsInRange, IsSigned, IsCanonicalOf, SemanticallyValid, ALGORITHM, AlgorithmOctets, Verified, PossibleSort, Fit;
  }

  lemma GateFits(artifact: seq<byte>, e: Envelope)
    requires PassesEnvelopeGate(artifact) && DecodedEnvelope(artifact) == Ok(e)
    ensures artifact != [] && |artifact| <= MAX_ARTIFACT
    ensures ValidLowS(e.signature) ==> Fit(SigningBytes(e), MAX_ARTIFACT).Ok?
  {
    EnvelopeGateIsExact(artifact);
    SignatureLength(e.signature);
    hide Enc, EnvelopeTree, DecodedEnvelope, ValidLowS, SigningBytes;
    if ValidLowS(e.signature) {
      SigningInputFits(e);
    }
  }

  lemma GateDecodes(b: seq<byte>, es: seq<Entitlement>)
    ensures PassesPayloadGate(b, es) ==> DecodedPayload(b).Ok?
  {
  }

  lemma SortOfPayload(artifact: seq<byte>, es: seq<Entitlement>, e: Envelope)
    requires PossibleSort(artifact, es) && DecodedEnvelope(artifact) == Ok(e)
    ensures DecodedPayload(e.payload).Ok? ==> IsSortOf(es, DecodedPayload(e.payload).value.entitlements)
  {
    hide DecodedEnvelope, DecodedPayload;
  }
}
