/** The streaming encoders of the wire codec, against the reference data model. */
module Encoder {
  import opened Wrappers
  import opened Bytes
  import opened Cbor
  import opened Writers
  import opened Credentials
  import opened WireFormat

  method EncodeValidity(w: Writer, v: Validity)
    requires w.Valid() && WantsLabel(Kinds(w.stack), w.open)
    modifies w
    ensures w.Valid() && w.open == Grow(old(w.open), Field(5, ValidityTree(v)))
    ensures Kinds(w.stack) == Kinds(old(w.stack))
  {
    hide Framed, Buffered, Kinds, Enc, EncAll, Head, Flat;
    w.OpenInMapN(5, true);
    w.AddUInt64ToMapN(1, v.kind);
    if v.notBefore.Some? {
      w.AddInt64ToMapN(2, v.notBefore.value);
    }
    if v.notAfter.Some? {
      w.AddInt64ToMapN(3, v.notAfter.value);
    }
    assert Inner(w.open) == ValidityTree(v).items;
    w.Close(true);
    AddTwo(old(w.open), UInt(5), ValidityTree(v));
  }

  method EncodeEntitlement(w: Writer, e: Entitlement)
    requires w.Valid() && WantsItem(Kinds(w.stack), w.open)
    modifies w
    ensures w.Valid() && w.open == Add(old(w.open), EntitlementTree(e))
    ensures Kinds(w.stack) == Kinds(old(w.stack))
  {
    hide Framed, Buffered, Kinds, Enc, EncAll, Head, Flat, ValidityTree;
    w.Open(true);
    w.AddTextToMapN(1, e.id);
    w.AddTextToMapN(2, e.productId);
    w.AddUInt64ToMapN(3, e.rightKind);
    w.AddUInt64ToMapN(4, e.grantSemantics);
    EncodeValidity(w, e.validity);
    if e.maxU64.Some? {
      EncodeConstraint(w, e.maxU64.value);
    }
    assert Inner(w.open) == EntitlementTree(e).items;
    w.Close(true);
  }

  method EncodeConstraint(w: Writer, max: u64)
    requires w.Valid() && WantsLabel(Kinds(w.stack), w.open)
    modifies w
    ensures w.Valid() && w.open == Grow(old(w.open), Field(6, ConstraintTree(max)))
    ensures Kinds(w.stack) == Kinds(old(w.stack))
  {
    hide Framed, Buffered, Kinds, Enc, EncAll, Head, Flat;
    w.OpenInMapN(6, true);
    w.AddUInt64ToMapN(1, 1);
    w.AddUInt64ToMapN(2, max);
    assert Inner(w.open) == ConstraintTree(max).items;
    w.Close(true);
    AddTwo(old(w.open), UInt(6), ConstraintTree(max));
  }

  method EncodeVersion(w: Writer, major: u16, minor: u16)
    requires w.Valid() && WantsLabel(Kinds(w.stack), w.open)
    modifies w
    ensures w.Valid() && w.open == Grow(old(w.open), Field(1, Array(true, [UInt(major), UInt(minor)])))
    ensures Kinds(w.stack) == Kinds(old(w.stack))
  {
    hide Framed, Buffered, Kinds, Enc, EncAll, Head, Flat;
    w.OpenInMapN(1, false);
    w.AddUInt64(major);
    w.AddUInt64(minor);
    assert Inner(w.open) == [UInt(major), UInt(minor)];
    w.Close(false);
    AddTwo(old(w.open), UInt(1), Array(true, [UInt(major), UInt(minor)]));
  }

  method EncodePayloadHead(w: Writer, c: Credential)
    requires w.Valid() && WantsLabel(Kinds(w.stack), w.open) && Inner(w.open) == []
    modifies w
    ensures w.Valid() && w.open == Grow(old(w.open), PayloadHead(c) + PayloadSupersedes(c))
    ensures Kinds(w.stack) == Kinds(old(w.stack))
  {
    hide Framed, Buffered, Kinds, Enc, EncAll, Head, Flat;
    EncodeVersion(w, c.schemaMajor, c.schemaMinor);
    assert Inner(w.open) == Field(1, Array(true, [UInt(c.schemaMajor), UInt(c.schemaMinor)]));
    w.AddTextToMapN(2, c.credentialId);
    w.AddTextToMapN(3, c.licenseGrantId);
    w.AddUInt64ToMapN(4, c.authorityRevision);
    ghost var four := Field(1, Array(true, [UInt(c.schemaMajor), UInt(c.schemaMinor)])) + Field(2, Text(c.credentialId))
                      + Field(3, Text(c.licenseGrantId)) + Field(4, UInt(c.authorityRevision));
    assert Inner(w.open) == four;
    w.AddTextToMapN(5, c.bindingId);
    w.AddTextToMapN(6, c.deviceId);
    w.AddUInt64ToMapN(7, c.credentialGeneration);
    ghost var seven := four + Field(5, Text(c.bindingId)) + Field(6, Text(c.deviceId))
                       + Field(7, UInt(c.credentialGeneration));
    assert Inner(w.open) == seven;
    w.AddInt64ToMapN(8, c.issuedAt);
    assert Inner(w.open) == PayloadHead(c);
    if c.supersedes.Some? {
      w.AddTextToMapN(9, c.supersedes.value);
    }
    assert [] + (PayloadHead(c) + PayloadSupersedes(c)) == Inner(w.open);
    assert w.open == Outer(w.open) + [Inner(w.open)];
  }

  method EncodeEntitlements(w: Writer, ordered: array<Entitlement>)
    requires w.Valid() && WantsLabel(Kinds(w.stack), w.open)
    modifies w
    ensures w.Valid() && w.open == Grow(old(w.open), Field(10, Array(true, EntitlementTrees(ordered[..]))))
    ensures Kinds(w.stack) == Kinds(old(w.stack))
  {
    hide Framed, Buffered, Kinds, Enc, EncAll, Head, Flat, EntitlementTree;
    w.OpenInMapN(10, false);
    ghost var outer := Outer(w.open);
    for i := 0 to ordered.Length
      invariant w.Valid() && |w.open| == |outer| + 1 == |w.stack| + 1 && Outer(w.open) == outer
      invariant Kinds(w.stack) == Kinds(old(w.stack)) + [false]
      invariant Inner(w.open) == EntitlementTrees(ordered[..i])
    {
      EncodeEntitlement(w, ordered[i]);
      EntitlementTreesSnoc(ordered[..i], ordered[i]);
      assert ordered[..i + 1] == ordered[..i] + [ordered[i]];
    }
    assert ordered[..ordered.Length] == ordered[..];
    w.Close(false);
    AddTwo(old(w.open), UInt(10), Array(true, EntitlementTrees(ordered[..])));
  }

  lemma {:induction false} EntitlementTreesSnoc(es: seq<Entitlement>, e: Entitlement)
    ensures EntitlementTrees(es + [e]) == EntitlementTrees(es) + [EntitlementTree(e)]
  {
    if es != [] {
      assert (es + [e])[1..] == es[1..] + [e];
      EntitlementTreesSnoc(es[1..], e);
    }
  }

  lemma PayloadTreeOf(c: Credential, es: seq<Entitlement>)
    ensures |PayloadHead(c) + PayloadSupersedes(c)| % 2 == 0
    ensures PayloadTree(c.(entitlements := es))
         == Map(true, PayloadHead(c) + PayloadSupersedes(c) + Field(10, Array(true, EntitlementTrees(es))))
  {
  }

  /** The bytes are the reference bytes for some order a sort may give, or none at all. */
  method EncodePayload(c: Credential) returns (r: Result<seq<byte>>)
    ensures exists es :: IsSortOf(es, c.entitlements) &&
              r == Fit(Enc(PayloadTree(c.(entitlements := es))), MAX_ARTIFACT)
    ensures DistinctIds(c.entitlements) ==> r == Fit(ReferencePayload(c), MAX_ARTIFACT)
    ensures exists es :: IsSortOf(es, c.entitlements) && r == Within64K(PayloadOctets(c.(entitlements := es)))
    ensures DistinctIds(c.entitlements) ==> r == Within64K(PayloadOctets(c.(entitlements := Sorted(c.entitlements))))
  {
    hide Framed, Buffered, Kinds, Enc, EncAll, Head, Flat, Sorted, DistinctIds, Ordered, EntitlementTrees,
         PayloadTree, PayloadHead, PayloadSupersedes;
    var ordered := new Entitlement[|c.entitlements|](i requires 0 <= i < |c.entitlements| => c.entitlements[i]);
    assert ordered[..] == c.entitlements;
    SortInPlace(ordered);
    ghost var es := ordered[..];
    PayloadTreeOf(c, es);
    var w := new Writer(MAX_ARTIFACT);
    w.Open(true);
    EncodePayloadHead(w, c);
    EncodeEntitlements(w, ordered);
    ghost var sorted := c.(entitlements := es);
    assert Inner(w.open) == PayloadTree(sorted).items;
    w.Close(true);
    assert w.open[0] == [PayloadTree(sorted)];
    r := w.Finish();
    PayloadHasOctets(sorted);
    hide PayloadOctets;
    if DistinctIds(c.entitlements) {
      SortedIsASort(c.entitlements);
      PermutationKeepsDistinct(c.entitlements, es);
      SortIsUnique(es, Sorted(c.entitlements));
    }
  }

  method EncodeEnvelope(e: Envelope) returns (r: Result<seq<byte>>)
    ensures r == Fit(Enc(EnvelopeTree(e)), MAX_ARTIFACT)
    ensures r == Within64K(EnvelopeOctets(e))
  {
    EnvelopeHasOctets(e);
    hide EnvelopeOctets;
    hide Framed, Buffered, Kinds, Enc, EncAll, Head, Flat;
    var w := new Writer(MAX_ARTIFACT);
    w.Open(true);
    w.AddUInt64ToMapN(1, e.artifactKind);
    w.AddUInt64ToMapN(2, e.envelopeVersion);
    w.AddTextToMapN(3, e.algorithmId);
    ghost var three := Field(1, UInt(e.artifactKind)) + Field(2, UInt(e.envelopeVersion))
                       + Field(3, Text(e.algorithmId));
    assert Inner(w.open) == three;
    w.AddTextToMapN(4, e.keyId);
    w.AddBytesToMapN(5, e.payload);
    assert Inner(w.open) == three + Field(4, Text(e.keyId)) + Field(5, Bytes(e.payload));
    w.AddBytesToMapN(6, e.signature);
    assert Inner(w.open) == EnvelopeTree(e).items;
    w.Close(true);
    assert w.open[0] == [EnvelopeTree(e)];
    r := w.Finish();
  }

  method EncodeSigningInput(algorithmId: seq<byte>, keyId: seq<byte>, payload: seq<byte>)
    returns (r: Result<seq<byte>>)
    ensures r == Fit(Enc(SigningTree(algorithmId, keyId, payload)), MAX_ARTIFACT)
    ensures r == Within64K(SigningOctets(algorithmId, keyId, payload))
  {
    SigningHasOctets(algorithmId, keyId, payload);
    hide SigningOctets;
    hide Framed, Buffered, Kinds, Enc, EncAll, Head, Flat;
    var w := new Writer(MAX_ARTIFACT);
    w.Open(false);
    w.AddText(DOMAIN);
    w.AddUInt64(1);
    w.AddText(algorithmId);
    w.AddText(keyId);
    w.AddBytes(payload);
    assert Inner(w.open) == SigningTree(algorithmId, keyId, payload).items;
    w.Close(false);
    assert w.open[0] == [SigningTree(algorithmId, keyId, payload)];
    r := w.Finish();
  }
}
