/** When the unspecified order of equal identifiers inside the library sort decides a verdict. */
module SortVerdict {
  import opened Wrappers
  import opened Bytes
  import opened Cbor
  import opened Credentials
  import opened Decoder
  import opened Codec
  import opened Canonical
  import opened LowS
  import opened Verifier
  import opened Acceptance
  import opened Samples
  import opened Writers

  /**
   * The artifact is canonical and properly signed, its schema is unsupported,
   * and two different entitlements share an identifier.
   */
  ghost predicate SortDecides(artifact: seq<byte>, keys: seq<TrustedKey>, verify: Verify) {
    PassesEnvelopeGate(artifact) &&
    var e := DecodedEnvelope(artifact).value;
    e.artifactKind == 1 && e.envelopeVersion == 1 && e.algorithmId == ALGORITHM
    && FindKey(keys, e.keyId).Some? && ValidLowS(e.signature)
    && verify(SigningBytes(e), e.signature, FindKey(keys, e.keyId).value.xy)
    && DecodedPayload(e.payload).Ok? &&
    var c := DecodedPayload(e.payload).value;
    IsCanonicalPayload(e.payload, c) && c.schemaMajor != 1 && !IdsDecide(c.entitlements)
  }

  lemma GateMeansSorted(b: seq<byte>, es: seq<Entitlement>)
    requires PassesPayloadGate(b, es)
    ensures DecodedPayload(b).Ok? && IsCanonicalPayload(b, DecodedPayload(b).value)
    ensures es == DecodedPayload(b).value.entitlements
  {
    PayloadGateIsSound(b, es);
  }

  lemma GateHasEnvelope(artifact: seq<byte>)
    ensures PassesEnvelopeGate(artifact) ==> DecodedEnvelope(artifact).Ok?
  {
  }

  lemma ValidMeansIdsDecide(c: Credential)
    requires SemanticallyValid(c)
    ensures IdsDecide(c.entitlements)
  {
    StrictIsOrderedAndDistinct(c.entitlements);
  }

  /** If one sort passes the payload gate and another does not, only `SortDecides` makes a difference. */
  lemma OneGateFails(
      artifact: seq<byte>, keys: seq<TrustedKey>, verify: Verify, es: seq<Entitlement>, other: seq<Entitlement>)
    requires PassesEnvelopeGate(artifact) && PossibleSort(artifact, es) && PossibleSort(artifact, other)
    requires PassesPayloadGate(DecodedEnvelope(artifact).value.payload, es)
    requires !PassesPayloadGate(DecodedEnvelope(artifact).value.payload, other)
    requires Verified(artifact, keys, verify, es) != Verified(artifact, keys, verify, other)
    ensures SortDecides(artifact, keys, verify)
  {
    GateHasEnvelope(artifact);
    hide Enc, DecodedEnvelope, DecodedPayload, PassesEnvelopeGate, PassesPayloadGate, ValidLowS, FindKey, SigningBytes,
         SemanticallyValid, IdsDecide, IsCanonicalPayload, Ordered;
    var b := DecodedEnvelope(artifact).value.payload;
    GateMeansSorted(b, es);
    var c := DecodedPayload(b).value;
    assert IsSortOf(es, c.entitlements) && IsSortOf(other, c.entitlements);
    if IdsDecide(c.entitlements) {
      SortIsUniqueWhenIdsDecide(es, other);
    }
    if SemanticallyValid(c) {
      ValidMeansIdsDecide(c);
    }
  }

  lemma DifferenceNeedsRepeats(
      artifact: seq<byte>, keys: seq<TrustedKey>, verify: Verify, es1: seq<Entitlement>, es2: seq<Entitlement>)
    requires PossibleSort(artifact, es1) && PossibleSort(artifact, es2)
    requires Verified(artifact, keys, verify, es1) != Verified(artifact, keys, verify, es2)
    ensures SortDecides(artifact, keys, verify)
  {
    GateHasEnvelope(artifact);
    hide Enc, DecodedEnvelope, DecodedPayload, PassesEnvelopeGate, PassesPayloadGate, ValidLowS, FindKey, SigningBytes,
         SemanticallyValid, SortDecides, PossibleSort;
    assert PassesEnvelopeGate(artifact);
    var b := DecodedEnvelope(artifact).value.payload;
    if PassesPayloadGate(b, es1) && !PassesPayloadGate(b, es2) {
      OneGateFails(artifact, keys, verify, es1, es2);
    } else if PassesPayloadGate(b, es2) && !PassesPayloadGate(b, es1) {
      OneGateFails(artifact, keys, verify, es2, es1);
    }
  }

  /** Entitlements with one identifier may change places in any sort. */
  lemma SwapKeepsSort(es: seq<Entitlement>, i: nat, j: nat)
    requires Ordered(es) && i < j < |es| && es[i].id == es[j].id
    ensures IsSortOf(es[i := es[j]][j := es[i]], es)
  {
    var swapped := es[i := es[j]][j := es[i]];
    assert forall k | 0 <= k < |es| :: swapped[k].id == es[k].id;
    assert multiset(swapped) == multiset(es);
  }

  /** Two possible sorts, of which one makes the artifact unsupported and the other invalid. */
  lemma RepeatsGiveBoth(artifact: seq<byte>, keys: seq<TrustedKey>, verify: Verify)
    returns (es1: seq<Entitlement>, es2: seq<Entitlement>)
    requires SortDecides(artifact, keys, verify)
    ensures PossibleSort(artifact, es1) && PossibleSort(artifact, es2)
    ensures Verified(artifact, keys, verify, es1) == UNSUPPORTED && Verified(artifact, keys, verify, es2) == INVALID
  {
    GateHasEnvelope(artifact);
    hide Enc, DecodedEnvelope, DecodedPayload, PassesEnvelopeGate, PassesPayloadGate, ValidLowS, FindKey, SigningBytes,
         SemanticallyValid, IsCanonicalPayload, IdsDecide, IsSortOf;
    var e := DecodedEnvelope(artifact).value;
    var c := DecodedPayload(e.payload).value;
    CanonicalIsOrdered(e.payload, c);
    es1 := c.entitlements;
    es2 := OtherSort(es1);
    SortsPartGates(artifact, e, c, es2);
  }

  lemma CanonicalIsOrdered(b: seq<byte>, c: Credential)
    requires IsCanonicalPayload(b, c)
    ensures IsSortOf(c.entitlements, c.entitlements)
  {
  }

  /** Where identifiers repeat for different entitlements, a second sort exists. */
  lemma OtherSort(es: seq<Entitlement>) returns (other: seq<Entitlement>)
    requires IsSortOf(es, es) && !IdsDecide(es)
    ensures IsSortOf(other, es) && other != es
  {
    var i, j :| 0 <= i < |es| && 0 <= j < |es| && es[i].id == es[j].id && es[i] != es[j];
    var low, high := if i < j then i else j, if i < j then j else i;
    other := es[low := es[high]][high := es[low]];
    SwapKeepsSort(es, low, high);
    assert other[low] != es[low];
  }

  /** Only the order that is in the payload passes the gate; every stage before it passes. */
  lemma SortsPartGates(artifact: seq<byte>, e: Envelope, c: Credential, other: seq<Entitlement>)
    requires PassesEnvelopeGate(artifact) && DecodedEnvelope(artifact) == Ok(e) && ValidLowS(e.signature)
    requires DecodedPayload(e.payload) == Ok(c) && IsCanonicalPayload(e.payload, c) && other != c.entitlements
    ensures artifact != [] && |artifact| <= MAX_ARTIFACT
    ensures PassesPayloadGate(e.payload, c.entitlements) && !PassesPayloadGate(e.payload, other)
    ensures Fit(SigningBytes(e), MAX_ARTIFACT).Ok?
  {
    SignatureLength(e.signature);
    EnvelopeGateIsExact(artifact);
    hide Enc, EnvelopeTree, PayloadTree, ValidLowS, DecodedEnvelope, DecodedPayload, SigningBytes;
    SigningInputFits(e);
    assert c.(entitlements := c.entitlements) == c;
    if PassesPayloadGate(e.payload, other) {
      GateMeansSorted(e.payload, other);
    }
  }

  /**
   * The verdict depends on what the sort does with equal identifiers if and
   * only if everything up to the signature is in order, the schema is
   * unsupported, and two different entitlements share an identifier.
   */
  lemma VerdictDependsOnSortExactly(artifact: seq<byte>, keys: seq<TrustedKey>, verify: Verify)
    ensures (exists es1, es2 ::
               PossibleSort(artifact, es1) && PossibleSort(artifact, es2)
               && Verified(artifact, keys, verify, es1) != Verified(artifact, keys, verify, es2))
            <==> SortDecides(artifact, keys, verify)
  {
    hide PossibleSort, Verified, SortDecides;
    if SortDecides(artifact, keys, verify) {
      var es1, es2 := RepeatsGiveBoth(artifact, keys, verify);
      assert Verified(artifact, keys, verify, es1) != Verified(artifact, keys, verify, es2);
    }
    if es1, es2 :| PossibleSort(artifact, es1) && PossibleSort(artifact, es2)
                   && Verified(artifact, keys, verify, es1) != Verified(artifact, keys, verify, es2)
    {
      DifferenceNeedsRepeats(artifact, keys, verify, es1, es2);
    }
  }

  //
  // Such an artifact
  //

  /** Schema 2, and two entitlements p.aa that differ in the kind of right. */
  const REPEATED: Credential := Sample(2, [SampleEntitlement(0), SampleEntitlement(0).(rightKind := 2)])

  const ENVELOPE: Envelope := SampleEnvelope(REPEATED)

  lemma RepeatedIsCanonical()
    ensures IsCanonicalPayload(ENVELOPE.payload, REPEATED) && DecodedPayload(ENVELOPE.payload) == Ok(REPEATED)
    ensures !IdsDecide(REPEATED.entitlements) && REPEATED.schemaMajor == 2 && |ENVELOPE.payload| <= 400
  {
    var es := REPEATED.entitlements;
    SampleEntitlementIsGood(0);
    assert es[0].id == es[1].id && es[0] != es[1];
    LexAsymmetric(es[0].id, es[1].id);
    assert Ordered(es);
    hide Enc, PayloadTree, DecodedPayload, SampleEntitlement;
    SampleIsShort(2, es);
    SampleReadsBack(2, es);
    PayloadRoundTrip(REPEATED);
  }

  /** A concrete artifact whose verdict is left to the sort, when its signature verifies. */
  lemma SomeVerdictDependsOnSort()
    ensures SortDecides(Enc(EnvelopeTree(ENVELOPE)), SAMPLE_KEYS, (message, signature, xy) => true)
  {
    RepeatedIsCanonical();
    SampleEnvelopeIsCanonical(REPEATED);
    hide Enc, EnvelopeTree, PayloadTree, DecodedEnvelope, DecodedPayload, ValidLowS, SigningBytes, TextOk, IdsDecide,
         IsCanonicalPayload;
    EnvelopeRoundTrip(ENVELOPE);
    EnvelopeGateIsExact(Enc(EnvelopeTree(ENVELOPE)));
  }
}
