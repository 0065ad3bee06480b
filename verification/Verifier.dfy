/** Credential verification: canonical form, signature range, signature and semantics. */
module Verifier {
  import opened Wrappers
  import opened Bytes
  import opened Cbor
  import opened Credentials
  import opened Decoder
  import opened Writers
  import opened Canonical
  import opened LowS
  import Encoder
  import WireFormat

  //
  // Semantic validity
  //

  predicate IdCharacter(x: byte) {
    'a' as int <= x <= 'z' as int || '0' as int <= x <= '9' as int
    || x == '.' as int || x == '_' as int || x == '-' as int
  }

  predicate LowercaseIdentifier(s: seq<byte>) {
    1 <= |s| <= 128 && forall i | 0 <= i < |s| :: IdCharacter(s[i])
  }

  predicate ValidityValid(v: Validity) {
    if v.kind == PERPETUAL then v.notAfter.None?
    else v.kind == BOUNDED && v.notAfter.Some? && (v.notBefore.Some? ==> v.notBefore.value < v.notAfter.value)
  }

  predicate GrantValid(e: Entitlement) {
    if e.grantSemantics == PRESENCE then e.maxU64.None?
    else e.grantSemantics == BOUNDED_U64 && e.maxU64.Some? && e.maxU64.value != 0
  }

  predicate EntitlementValid(e: Entitlement) {
    LowercaseIdentifier(e.productId) && LowercaseIdentifier(e.id) && e.productId + Ascii(".") <= e.id
    && ValidityValid(e.validity) && GrantValid(e)
  }

  /** Identifiers in strictly ascending order: globally, not only side by side. */
  predicate StrictlyOrdered(es: seq<Entitlement>) {
    forall i, j | 0 <= i < j < |es| :: LexLess(es[i].id, es[j].id)
  }

  predicate HeaderValid(c: Credential) {
    c.credentialId != [] && c.licenseGrantId != [] && c.bindingId != [] && c.deviceId != []
    && c.authorityRevision != 0 && c.credentialGeneration != 0
  }

  predicate SemanticallyValid(c: Credential) {
    HeaderValid(c) && StrictlyOrdered(c.entitlements)
    && forall i | 0 <= i < |c.entitlements| :: EntitlementValid(c.entitlements[i])
  }

  /** One pass that compares each identifier with the previous one only. */
  method ValidSemantics(c: Credential) returns (valid: bool)
    ensures valid <==> SemanticallyValid(c)
  {
    hide LexLess, LowercaseIdentifier, HeaderValid, StrictlyOrdered, Ascii;
    EmptyIsOrdered(c.entitlements);
    if !HeaderValid(c) {
      return false;
    }
    var previousId: seq<byte> := [];
    for i := 0 to |c.entitlements|
      invariant previousId == if i == 0 then [] else c.entitlements[i - 1].id
      invariant StrictlyOrdered(c.entitlements[..i])
      invariant forall j | 0 <= j < i :: EntitlementValid(c.entitlements[j])
    {
      var e := c.entitlements[i];
      if i > 0 {
        ValidHasId(c.entitlements[i - 1]);
        NeighboursAreOrdered(c.entitlements, i);
      }
      if !LowercaseIdentifier(e.productId) || !LowercaseIdentifier(e.id) || !(e.productId + Ascii(".") <= e.id)
         || (previousId != [] && !LexLess(previousId, e.id)) {
        return false;
      }
      ExtendOrder(c.entitlements, i);
      previousId := e.id;
      if e.validity.kind == PERPETUAL {
        if e.validity.notAfter.Some? {
          return false;
        }
      } else if e.validity.kind == BOUNDED {
        if e.validity.notAfter.None?
           || (e.validity.notBefore.Some? && e.validity.notBefore.value >= e.validity.notAfter.value) {
          return false;
        }
      } else {
        return false;
      }
      if e.grantSemantics == PRESENCE {
        if e.maxU64.Some? {
          return false;
        }
      } else if e.grantSemantics == BOUNDED_U64 {
        if e.maxU64.None? || e.maxU64.value == 0 {
          return false;
        }
      } else {
        return false;
      }
    }
    assert c.entitlements[..|c.entitlements|] == c.entitlements;
    return true;
  }

  lemma EmptyIsOrdered(es: seq<Entitlement>)
    ensures StrictlyOrdered(es[..0])
  {
  }

  lemma ValidHasId(e: Entitlement)
    requires EntitlementValid(e)
    ensures e.id != []
  {
  }

  lemma NeighboursAreOrdered(es: seq<Entitlement>, i: nat)
    requires 0 < i < |es|
    ensures StrictlyOrdered(es) ==> LexLess(es[i - 1].id, es[i].id)
  {
  }

  lemma ExtendOrder(es: seq<Entitlement>, n: nat)
    requires n < |es| && StrictlyOrdered(es[..n])
    requires n > 0 ==> LexLess(es[n - 1].id, es[n].id)
    ensures StrictlyOrdered(es[..n + 1])
  {
    forall i, j | 0 <= i < j < n + 1 ensures LexLess(es[i].id, es[j].id) {
      if j < n {
        assert es[..n][i] == es[i] && es[..n][j] == es[j];
      } else if i < n - 1 {
        assert es[..n][i] == es[i] && es[..n][n - 1] == es[n - 1];
        LexTransitive(es[i].id, es[n - 1].id, es[n].id);
      }
    }
  }

  lemma StrictIsOrderedAndDistinct(es: seq<Entitlement>)
    requires StrictlyOrdered(es)
    ensures Ordered(es) && DistinctIds(es)
  {
    forall i, j | 0 <= i < j < |es| ensures !LexLess(es[j].id, es[i].id) && es[i].id != es[j].id {
      LexAsymmetric(es[i].id, es[j].id);
    }
  }

  //
  // Verification
  //

  const ALGORITHM := Ascii("axl-ecdsa-p256-sha256-v1")

  datatype TrustedKey = TrustedKey(keyId: seq<byte>, xy: seq<byte>)

  datatype Status = Valid | Invalid | Unsupported

  datatype Verification = Verification(status: Status, credential: Option<Credential>)

  const INVALID := Verification(Invalid, None)
  const UNSUPPORTED := Verification(Unsupported, None)

  /** The first key with an identifier, as `std::find_if` finds it. */
  function FindKey(keys: seq<TrustedKey>, keyId: seq<byte>): Option<TrustedKey> {
    if keys == [] then None
    else if keys[0].keyId == keyId then Some(keys[0])
    else FindKey(keys[1..], keyId)
  }

  /** The platform's signature check: message, signature and public key. */
  type Verify = (seq<byte>, seq<byte>, seq<byte>) -> bool

  function SigningBytes(e: Envelope): seq<byte> {
    Enc(SigningTree(e.algorithmId, e.keyId, e.payload))
  }

  /**
   * Every stage and its status, in order. `es` is what the sort inside the
   * payload encoder made of the decoded entitlements.
   */
  ghost function Verified(
      artifact: seq<byte>, keys: seq<TrustedKey>, verify: Verify, es: seq<Entitlement>): Verification
  {
    if artifact == [] || |artifact| > MAX_ARTIFACT || !PassesEnvelopeGate(artifact) then INVALID
    else
      var e := DecodedEnvelope(artifact).value;
      if e.artifactKind != 1 || e.envelopeVersion != 1 || e.algorithmId != ALGORITHM then UNSUPPORTED
      else
        var key := FindKey(keys, e.keyId);
        if key.None? then UNSUPPORTED
        else if !PassesPayloadGate(e.payload, es) || !ValidLowS(e.signature) then INVALID
        else
          var c := DecodedPayload(e.payload).value;
          if Fit(SigningBytes(e), MAX_ARTIFACT).CodecError? || !verify(SigningBytes(e), e.signature, key.value.xy)
          then INVALID
          else if c.schemaMajor != 1 then UNSUPPORTED
          else if !SemanticallyValid(c) then INVALID
          else Verification(Valid, Some(c))
  }

  /** `es` is a possible outcome of the sort inside the payload encoder. */
  ghost predicate PossibleSort(artifact: seq<byte>, es: seq<Entitlement>) {
    var d := DecodedEnvelope(artifact);
    d.Ok? && DecodedPayload(d.value.payload).Ok? ==>
      IsSortOf(es, DecodedPayload(d.value.payload).value.entitlements)
  }

  method VerifyCredential(artifact: seq<byte>, keys: seq<TrustedKey>, verify: Verify) returns (r: Verification)
    ensures exists es :: PossibleSort(artifact, es) && r == Verified(artifact, keys, verify, es)
  {
    hide DecodedEnvelope, DecodedPayload, Enc, PayloadTree, EnvelopeTree, SemanticallyValid, ValidLowS, FindKey,
         WireFormat.PayloadOctets, WireFormat.EnvelopeOctets, WireFormat.SigningOctets, WireFormat.Within64K, Sorted,
         ReferencePayload, DistinctIds, SigningTree;
    ghost var any := AnySort(artifact);
    if artifact == [] || |artifact| > MAX_ARTIFACT {
      return INVALID;
    }
    var envelope := Decoder.DecodeEnvelope(artifact);
    if envelope.CodecError? {
      return INVALID;
    }
    var e := envelope.value;
    var reencoded := Encoder.EncodeEnvelope(e);
    if reencoded != Ok(artifact) {
      return INVALID;
    }
    if e.artifactKind != 1 || e.envelopeVersion != 1 || e.algorithmId != ALGORITHM {
      return UNSUPPORTED;
    }
    var key := FindKey(keys, e.keyId);
    if key.None? {
      return UNSUPPORTED;
    }
    var payload := Decoder.DecodePayload(e.payload);
    if payload.CodecError? {
      return INVALID;
    }
    var c := payload.value;
    var repayload := Encoder.EncodePayload(c);
    ghost var es :| IsSortOf(es, c.entitlements) &&
                    repayload == Fit(Enc(PayloadTree(c.(entitlements := es))), MAX_ARTIFACT);
    assert PossibleSort(artifact, es);
    if repayload != Ok(e.payload) || !ValidLowS(e.signature) {
      return INVALID;
    }
    var message := Encoder.EncodeSigningInput(e.algorithmId, e.keyId, e.payload);
    if message.CodecError? || !verify(message.value, e.signature, key.value.xy) {
      return INVALID;
    }
    if c.schemaMajor != 1 {
      return UNSUPPORTED;
    }
    var valid := ValidSemantics(c);
    if !valid {
      return INVALID;
    }
    return Verification(Valid, Some(c));
  }

  lemma AnySort(artifact: seq<byte>) returns (es: seq<Entitlement>)
    ensures PossibleSort(artifact, es)
  {
    var d := DecodedEnvelope(artifact);
    if d.Ok? && DecodedPayload(d.value.payload).Ok? {
      es := Sorted(DecodedPayload(d.value.payload).value.entitlements);
      SortedIsASort(DecodedPayload(d.value.payload).value.entitlements);
    } else {
      es := [];
    }
  }
}
