/** Credentials with as many entitlements as wanted: the structural bounds are reached, and exceeded. */
module Samples {
  import opened Wrappers
  import opened Bytes
  import opened Cbor
  import opened Credentials
  import opened Decoder
  import opened Codec
  import opened Verifier
  import opened Writers
  import LowS
  import Utf8

  //
  // Lengths of encodings
  //

  lemma HeadIsShort(major: nat, v: nat)
    requires major < 8
    ensures |Head(major, v)| <= 9 && (v < 24 ==> |Head(major, v)| == 1)
  {
  }

  lemma LeavesAreShort(s: seq<byte>, v: nat)
    ensures |Enc(Text(s))| <= 9 + |s| && |Enc(Bytes(s))| <= 9 + |s| && |Enc(UInt(v))| <= 9
  {
    HeadIsShort(3, |s|);
    HeadIsShort(2, |s|);
    HeadIsShort(0, v);
  }

  /** One more field adds its label and its value. */
  lemma FieldAdds(items: seq<Item>, key: nat, value: Item, n: nat)
    requires key < 24 && |EncAll(items)| <= n
    ensures |EncAll(items + Field(key, value))| <= n + 1 + |Enc(value)|
  {
    hide EncAll;
    EncAllConcat(items, Field(key, value));
    EncField(key, value);
    HeadIsShort(0, key);
  }

  lemma NothingIsEmpty()
    ensures EncAll([]) == []
  {
  }

  lemma ContainerIsShort(items: seq<Item>)
    ensures |Enc(Map(true, items))| <= 9 + |EncAll(items)| && |Enc(Array(true, items))| <= 9 + |EncAll(items)|
  {
    HeadIsShort(4, |items|);
    HeadIsShort(5, |items| / 2);
  }

  /** Short identifiers and no optional field. */
  predicate Small(e: Entitlement) {
    |e.id| <= 4 && |e.productId| <= 4 && e.validity == Validity(PERPETUAL, None, None) && e.maxU64.None?
  }

  lemma SmallEntitlementIsShort(e: Entitlement)
    requires Small(e)
    ensures |Enc(EntitlementTree(e))| <= 100
  {
    hide Enc, EncAll;
    NothingIsEmpty();
    LeavesAreShort(e.id, e.rightKind);
    LeavesAreShort(e.productId, e.grantSemantics);
    LeavesAreShort([], e.validity.kind);
    var kind := Field(1, UInt(e.validity.kind));
    assert [] + kind == kind && ValidityTree(e.validity) == Map(true, kind);
    FieldAdds([], 1, UInt(e.validity.kind), 0);
    ContainerIsShort(kind);
    var one := Field(1, Text(e.id));
    assert [] + one == one;
    FieldAdds([], 1, Text(e.id), 0);
    var two := one + Field(2, Text(e.productId));
    FieldAdds(one, 2, Text(e.productId), 14);
    var three := two + Field(3, UInt(e.rightKind));
    FieldAdds(two, 3, UInt(e.rightKind), 28);
    var four := three + Field(4, UInt(e.grantSemantics));
    FieldAdds(three, 4, UInt(e.grantSemantics), 38);
    var five := four + Field(5, ValidityTree(e.validity));
    FieldAdds(four, 5, ValidityTree(e.validity), 48);
    assert EntitlementTree(e) == Map(true, five + []) && five + [] == five;
    ContainerIsShort(five);
  }

  lemma {:induction false} SmallEntitlementsAreShort(es: seq<Entitlement>)
    requires forall e | e in es :: Small(e)
    ensures |EncAll(EntitlementTrees(es))| <= 100 * |es|
  {
    hide Enc, EntitlementTree, Small;
    if es != [] {
      SmallEntitlementIsShort(es[0]);
      SmallEntitlementsAreShort(es[1..]);
      EncAllCons(EntitlementTree(es[0]), EntitlementTrees(es[1..]));
    }
  }

  //
  // Sample credentials
  //

  /** One-letter names, and the given schema and entitlements. */
  function Sample(schemaMajor: u16, es: seq<Entitlement>): Credential {
    Credential(schemaMajor, 0, ['c' as int], ['g' as int], 1, ['b' as int], ['d' as int], 1, 0, None, es)
  }

  lemma SampleIsShort(schemaMajor: u16, es: seq<Entitlement>)
    requires forall e | e in es :: Small(e)
    ensures |Enc(PayloadTree(Sample(schemaMajor, es)))| <= 200 + 100 * |es|
  {
    hide Enc, EncAll, EntitlementTrees, Small;
    var c := Sample(schemaMajor, es);
    SmallEntitlementsAreShort(es);
    SampleHeadIsShort(c);
    var list := Array(true, EntitlementTrees(es));
    ContainerIsShort(EntitlementTrees(es));
    FieldAdds(PayloadHead(c), 10, list, 150);
    assert PayloadHead(c) + [] == PayloadHead(c);
    ContainerIsShort(PayloadHead(c) + Field(10, list));
  }

  lemma SampleHeadIsShort(c: Credential)
    requires |c.credentialId| == 1 && |c.licenseGrantId| == 1 && |c.bindingId| == 1 && |c.deviceId| == 1
    requires c.issuedAt == 0
    ensures |EncAll(PayloadHead(c))| <= 150
  {
    hide Enc, EncAll;
    NothingIsEmpty();
    LeavesAreShort(c.credentialId, c.authorityRevision);
    LeavesAreShort(c.licenseGrantId, c.credentialGeneration);
    LeavesAreShort(c.bindingId, c.schemaMajor);
    LeavesAreShort(c.deviceId, c.schemaMinor);
    LeavesAreShort([], 0);
    var pair := [UInt(c.schemaMajor), UInt(c.schemaMinor)];
    EncAllCons(UInt(c.schemaMinor), []);
    EncAllCons(UInt(c.schemaMajor), [UInt(c.schemaMinor)]);
    assert [UInt(c.schemaMinor)] + [] == [UInt(c.schemaMinor)] && [UInt(c.schemaMajor)] + [UInt(c.schemaMinor)] == pair;
    ContainerIsShort(pair);
    var version := Array(true, pair);
    var one := Field(1, version);
    assert [] + one == one;
    FieldAdds([], 1, version, 0);
    var two := one + Field(2, Text(c.credentialId));
    FieldAdds(one, 2, Text(c.credentialId), 28);
    var three := two + Field(3, Text(c.licenseGrantId));
    FieldAdds(two, 3, Text(c.licenseGrantId), 39);
    var four := three + Field(4, UInt(c.authorityRevision));
    FieldAdds(three, 4, UInt(c.authorityRevision), 50);
    var five := four + Field(5, Text(c.bindingId));
    FieldAdds(four, 5, Text(c.bindingId), 60);
    var six := five + Field(6, Text(c.deviceId));
    FieldAdds(five, 6, Text(c.deviceId), 71);
    var seven := six + Field(7, UInt(c.credentialGeneration));
    FieldAdds(six, 7, UInt(c.credentialGeneration), 82);
    FieldAdds(seven, 8, UInt(0), 92);
    assert IntItem(c.issuedAt) == UInt(0);
  }

  /** Texts of ASCII octets are UTF-8. */
  lemma {:induction false} AsciiIsUtf8(s: seq<byte>)
    requires forall i | 0 <= i < |s| :: s[i] < 0x80
    ensures Utf8.IsUtf8(s)
  {
    if s == [] {
      Utf8.EmptyIsUtf8();
    } else {
      AsciiIsUtf8(s[1..]);
      assert Utf8.Starts(s, s[0]);
      Utf8.DropOne(s, s[0]);
    }
  }

  lemma {:induction false} SmallItems(es: seq<Entitlement>)
    requires forall e | e in es :: Small(e)
    ensures EntitlementsItems(es) == 7 * |es|
  {
    if es != [] {
      assert Small(es[0]);
      SmallItems(es[1..]);
    }
  }

  /** A sample with small entitlements reads back exactly when it has at most 71 of them. */
  lemma SampleReadsBack(schemaMajor: u16, es: seq<Entitlement>)
    requires |es| <= MAX_ENTITLEMENTS && forall e | e in es :: Small(e) && EntitlementOk(e)
    ensures Decodable(Sample(schemaMajor, es)) <==> |es| <= 71
  {
    hide PayloadTree, EntitlementOk, Small;
    var c := Sample(schemaMajor, es);
    AsciiIsUtf8(c.credentialId);
    AsciiIsUtf8(c.licenseGrantId);
    AsciiIsUtf8(c.bindingId);
    AsciiIsUtf8(c.deviceId);
    SampleIsShort(schemaMajor, es);
    SmallItems(es);
  }

  //
  // Entitlements p.aa, p.ab, and so on
  //

  const LETTERS: nat := 26

  function SampleId(k: nat): seq<byte>
    requires k < LETTERS * LETTERS
  {
    ['p' as int, '.' as int, 'a' as int + k / LETTERS, 'a' as int + k % LETTERS]
  }

  function SampleEntitlement(k: nat): Entitlement
    requires k < LETTERS * LETTERS
  {
    Entitlement(SampleId(k), ['p' as int], 1, PRESENCE, Validity(PERPETUAL, None, None), None)
  }

  function SampleEntitlements(n: nat): (es: seq<Entitlement>)
    requires n <= LETTERS * LETTERS
    ensures |es| == n
  {
    seq(n, i requires 0 <= i < n => SampleEntitlement(i))
  }

  lemma SampleIdsAscend(j: nat, k: nat)
    requires j < k < LETTERS * LETTERS
    ensures LexLess(SampleId(j), SampleId(k))
  {
    var a, b := SampleId(j), SampleId(k);
    FourValue(a);
    FourValue(b);
    LexIsNumeric(a, b);
  }

  lemma FourValue(s: seq<byte>)
    requires |s| == 4
    ensures Value(s) == LowS.Word(s, 0)
  {
    LowS.ValueOfNothing();
    assert s[..0] == [] && s[..4] == s;
    LowS.FourMore(s, 0, 0, LowS.Word(s, 0));
  }

  lemma SampleEntitlementIsGood(k: nat)
    requires k < LETTERS * LETTERS
    ensures Small(SampleEntitlement(k)) && EntitlementOk(SampleEntitlement(k)) && EntitlementValid(SampleEntitlement(k))
  {
    var e := SampleEntitlement(k);
    AsciiIsUtf8(e.id);
    AsciiIsUtf8(e.productId);
    assert e.productId + Ascii(".") == ['p' as int, '.' as int];
  }

  lemma SamplesAreValid(n: nat)
    requires n <= LETTERS * LETTERS
    ensures var es := SampleEntitlements(n);
            (forall e | e in es :: Small(e) && EntitlementOk(e)) && StrictlyOrdered(es)
            && SemanticallyValid(Sample(1, es)) && Sample(1, es).entitlements == es
  {
    hide EntitlementValid, EntitlementOk, Small;
    var es := SampleEntitlements(n);
    forall e | e in es ensures Small(e) && EntitlementOk(e) && EntitlementValid(e) {
      var k :| 0 <= k < n && es[k] == e;
      SampleEntitlementIsGood(k);
    }
    forall i, j | 0 <= i < j < n ensures LexLess(es[i].id, es[j].id) {
      SampleIdsAscend(i, j);
    }
    hide LexLess, SampleId;
  }

  /**
   * The bound is reached and exceeded: for every number of entitlements up to
   * 128 there is a semantically valid credential that is encoded; it reads back
   * exactly up to 71.
   */
  lemma ValidCredentialsDecodeUpTo71(n: nat)
    requires n <= MAX_ENTITLEMENTS
    ensures var c := Sample(1, SampleEntitlements(n));
            SemanticallyValid(c) && |c.entitlements| == n
            && Fit(ReferencePayload(c), MAX_ARTIFACT) == Ok(ReferencePayload(c))
            && DecodedPayload(ReferencePayload(c)) == if n <= 71 then Ok(c) else CodecError
  {
    hide EntitlementValid, EntitlementOk, Small, PayloadTree, Enc, LexLess, SampleId, SampleEntitlement, HeaderValid,
         StrictlyOrdered, SemanticallyValid, DecodedPayload, Decodable, Sorted, Ordered, DistinctIds;
    var es := SampleEntitlements(n);
    var c := Sample(1, es);
    SamplesAreValid(n);
    StrictIsOrderedAndDistinct(es);
    SortedIsASort(es);
    SortIsUnique(es, Sorted(es));
    assert c.(entitlements := Sorted(es)) == c;
    SampleIsShort(1, es);
    SampleReadsBack(1, es);
    PayloadRoundTrip(c);
  }

  //
  // Sample artifacts
  //

  /** An envelope around a payload; r and s of its signature are 1. */
  function SampleEnvelope(c: Credential): Envelope {
    Envelope(1, 1, ALGORITHM, ['k' as int], Enc(PayloadTree(c)), LowS.Signature(1, 1))
  }

  const SAMPLE_KEYS: seq<TrustedKey> := [TrustedKey(['k' as int], seq(64, _ => 0))]

  lemma AlgorithmIsText()
    ensures TextOk(ALGORITHM)
  {
    AsciiIsUtf8(ALGORITHM);
  }

  lemma EnvelopeIsShort(e: Envelope)
    requires |e.signature| == 64 && |e.algorithmId| <= 100 && |e.keyId| <= 100
    ensures |Enc(EnvelopeTree(e))| <= 400 + |e.payload|
  {
    hide Enc, EncAll;
    var n := |e.payload|;
    NothingIsEmpty();
    LeavesAreShort(e.algorithmId, e.artifactKind);
    LeavesAreShort(e.keyId, e.envelopeVersion);
    LeavesAreShort(e.payload, 0);
    LeavesAreShort(e.signature, 0);
    var one := Field(1, UInt(e.artifactKind));
    assert [] + one == one;
    FieldAdds([], 1, UInt(e.artifactKind), 0);
    var two := one + Field(2, UInt(e.envelopeVersion));
    FieldAdds(one, 2, UInt(e.envelopeVersion), 10);
    var three := two + Field(3, Text(e.algorithmId));
    FieldAdds(two, 3, Text(e.algorithmId), 20);
    var four := three + Field(4, Text(e.keyId));
    FieldAdds(three, 4, Text(e.keyId), 130);
    var five := four + Field(5, Bytes(e.payload));
    FieldAdds(four, 5, Bytes(e.payload), 240);
    FieldAdds(five, 6, Bytes(e.signature), 250 + n);
    ContainerIsShort(five + Field(6, Bytes(e.signature)));
  }

  lemma SampleEnvelopeIsCanonical(c: Credential)
    requires |Enc(PayloadTree(c))| <= 60000
    ensures EnvelopeOk(SampleEnvelope(c)) && LowS.ValidLowS(SampleEnvelope(c).signature)
  {
    AlgorithmIsText();
    AsciiIsUtf8(['k' as int]);
    LowS.ExactlyOneComplementIsLow(1, 1);
    hide PayloadTree, EnvelopeTree, Enc, TextOk;
    EnvelopeIsShort(SampleEnvelope(c));
  }
}
