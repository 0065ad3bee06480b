/**
 * What an input means, as a relation on its fields with every label and limit
 * written out; the decoders succeed for exactly what is so related.
 */
module Meaning {
  import opened Wrappers
  import opened Bytes
  import opened Cbor
  import opened Credentials
  import opened Decoder
  import Limits
  import Utf8

  ghost predicate IsText(items: seq<Item>, key: nat, s: seq<byte>) {
    Lookup(items, key) == One(Text(s)) && |s| <= 1024 && Utf8.IsUtf8(s)
  }

  predicate IsBytes(items: seq<Item>, key: nat, s: seq<byte>) {
    Lookup(items, key) == One(Bytes(s)) && |s| <= 65536
  }

  predicate IsUnsigned(items: seq<Item>, key: nat, v: nat) { Lookup(items, key) == One(UInt(v)) }

  predicate IsSigned(items: seq<Item>, key: nat, x: int) {
    Lookup(items, key) == One(if x >= 0 then UInt(x) else NInt(-1 - x))
  }

  predicate IsTime(items: seq<Item>, key: nat, x: Option<i64>) {
    if x.Some? then IsSigned(items, key, x.value) else Lookup(items, key).Missing?
  }

  /** Field 5 is a map of one to three entries with the kind and the bounds. */
  predicate IsValidity(items: seq<Item>, v: Validity) {
    Lookup(items, 5).One? && Lookup(items, 5).item.Map? && Lookup(items, 5).item.definite &&
    var fields := Lookup(items, 5).item.items;
    1 <= |fields| / 2 <= 3 && IsUnsigned(fields, 1, v.kind) && (v.kind == 1 || v.kind == 2)
    && IsTime(fields, 2, v.notBefore) && IsTime(fields, 3, v.notAfter)
  }

  /** Field 6 is a map of two entries: the constraint of kind 1 and its maximum. */
  predicate IsMaximum(items: seq<Item>, max: u64) {
    Lookup(items, 6).One? && Lookup(items, 6).item.Map? && Lookup(items, 6).item.definite
    && |Lookup(items, 6).item.items| / 2 == 2
    && IsUnsigned(Lookup(items, 6).item.items, 1, 1) && IsUnsigned(Lookup(items, 6).item.items, 2, max)
  }

  /** A map of six entries with a maximum, or of five without. */
  ghost predicate IsEntitlement(t: Item, e: Entitlement) {
    t.Map? && t.definite
    && |t.items| / 2 == (if e.maxU64.Some? then 6 else 5)
    && IsText(t.items, 1, e.id) && IsText(t.items, 2, e.productId)
    && IsUnsigned(t.items, 3, e.rightKind) && (e.rightKind == 1 || e.rightKind == 2 || e.rightKind == 3)
    && IsUnsigned(t.items, 4, e.grantSemantics) && (e.grantSemantics == 1 || e.grantSemantics == 2)
    && IsValidity(t.items, e.validity)
    && (e.maxU64.Some? ==> IsMaximum(t.items, e.maxU64.value))
  }

  /** Field 10 is an array of at most 128 entitlements. */
  ghost predicate AreEntitlements(items: seq<Item>, es: seq<Entitlement>) {
    Lookup(items, 10).One? && Lookup(items, 10).item.Array? && Lookup(items, 10).item.definite &&
    var ts := Lookup(items, 10).item.items;
    |ts| == |es| && |ts| <= 128 && forall i | 0 <= i < |ts| :: IsEntitlement(ts[i], es[i])
  }

  /** Field 1 is an array of the two version numbers. */
  predicate IsVersion(items: seq<Item>, major: u16, minor: u16) {
    Lookup(items, 1) == One(Array(true, [UInt(major), UInt(minor)]))
  }

  ghost predicate IsPayload(t: Item, c: Credential) {
    t.Map? && t.definite && (|t.items| / 2 == 9 || |t.items| / 2 == 10)
    && IsVersion(t.items, c.schemaMajor, c.schemaMinor)
    && IsText(t.items, 2, c.credentialId) && IsText(t.items, 3, c.licenseGrantId)
    && IsUnsigned(t.items, 4, c.authorityRevision)
    && IsText(t.items, 5, c.bindingId) && IsText(t.items, 6, c.deviceId)
    && IsUnsigned(t.items, 7, c.credentialGeneration) && IsSigned(t.items, 8, c.issuedAt)
    && (if c.supersedes.Some? then IsText(t.items, 9, c.supersedes.value) else Lookup(t.items, 9).Missing?)
    && AreEntitlements(t.items, c.entitlements)
  }

  ghost predicate IsEnvelope(t: Item, e: Envelope) {
    t.Map? && t.definite && |t.items| / 2 == 6
    && IsUnsigned(t.items, 1, e.artifactKind) && IsUnsigned(t.items, 2, e.envelopeVersion)
    && IsText(t.items, 3, e.algorithmId) && IsText(t.items, 4, e.keyId)
    && IsBytes(t.items, 5, e.payload) && IsBytes(t.items, 6, e.signature)
  }

  /** The input is one item, in at most 64 KiB, 512 reported items and 8 levels of nesting. */
  predicate WellFormed(b: seq<byte>) {
    1 <= |b| <= 65536 && ParseSequence(b).Some? && |ParseSequence(b).value| == 1
    && |Walk(Root(b), 0)| <= 512 && forall i | 0 <= i < |Walk(Root(b), 0)| :: Walk(Root(b), 0)[i] <= 8
  }

  /** The item an input consists of. */
  function Root(b: seq<byte>): Item
    requires ParseSequence(b).Some? && |ParseSequence(b).value| == 1
  {
    ParseSequence(b).value[0]
  }

  //
  // The decoders succeed exactly for these
  //

  lemma TextMeans(items: seq<Item>, key: nat, s: seq<byte>)
    ensures RequiredText(items, key) == Ok(s) <==> IsText(items, key, s)
    ensures FoundText(items, key) == Ok(Some(s)) <==> IsText(items, key, s)
    ensures FoundText(items, key) == Ok(None) <==> Lookup(items, key).Missing?
  {
  }

  lemma NumberMeans(items: seq<Item>, key: nat, v: u64, x: i64)
    ensures RequiredUInt(items, key) == Ok(v) <==> IsUnsigned(items, key, v)
    ensures RequiredInt(items, key) == Ok(x) <==> IsSigned(items, key, x)
    ensures FoundInt(items, key) == Ok(Some(x)) <==> IsTime(items, key, Some(x))
    ensures FoundInt(items, key) == Ok(None) <==> IsTime(items, key, None)
  {
  }

  lemma BytesMean(items: seq<Item>, key: nat, s: seq<byte>)
    ensures RequiredBytes(items, key) == Ok(s) <==> IsBytes(items, key, s)
  {
  }

  lemma ValidityMeans(items: seq<Item>, v: Validity)
    ensures ValidityOf(items) == Ok(v) <==> IsValidity(items, v)
  {
    var found := Lookup(items, 5);
    if found.One? && found.item.Map? && found.item.definite {
      var fields := found.item.items;
      NumberMeans(fields, 1, v.kind, 0);
      TimeMeans(fields, 2, v.notBefore);
      TimeMeans(fields, 3, v.notAfter);
      hide RequiredUInt, FoundInt, IsUnsigned, IsTime;
    }
  }

  lemma TimeMeans(items: seq<Item>, key: nat, x: Option<i64>)
    ensures FoundInt(items, key) == Ok(x) <==> IsTime(items, key, x)
  {
    if x.Some? {
      NumberMeans(items, key, 0, x.value);
    } else {
      NumberMeans(items, key, 0, 0);
    }
    hide FoundInt, IsTime;
  }

  lemma MaximumMeans(items: seq<Item>, max: u64)
    ensures ConstraintOf(items) == Ok(max) <==> IsMaximum(items, max)
  {
    var found := Lookup(items, 6);
    if found.One? && found.item.Map? && found.item.definite {
      NumberMeans(found.item.items, 1, 1, 0);
      NumberMeans(found.item.items, 2, max, 0);
      hide RequiredUInt, IsUnsigned;
    }
  }

  lemma EntitlementMeans(t: Item, e: Entitlement)
    ensures EntitlementOf(t) == Ok(e) <==> IsEntitlement(t, e)
  {
    if t.Map? && t.definite {
      TextMeans(t.items, 1, e.id);
      TextMeans(t.items, 2, e.productId);
      NumberMeans(t.items, 3, e.rightKind, 0);
      NumberMeans(t.items, 4, e.grantSemantics, 0);
      ValidityMeans(t.items, e.validity);
      if e.maxU64.Some? {
        MaximumMeans(t.items, e.maxU64.value);
      }
      hide RequiredText, RequiredUInt, ValidityOf, ConstraintOf, IsText, IsUnsigned, IsValidity, IsMaximum;
    }
  }

  lemma {:induction false} EntitlementsMean(ts: seq<Item>, es: seq<Entitlement>)
    ensures EntitlementsOf(ts) == Ok(es) <==>
            |ts| == |es| && forall i | 0 <= i < |ts| :: IsEntitlement(ts[i], es[i])
  {
    hide EntitlementOf, IsEntitlement;
    if ts != [] {
      var n := |ts| - 1;
      if es == [] {
        Limits.EntitlementsKeepLength(ts);
      } else {
        var m := |es| - 1;
        EntitlementsMean(ts[..n], es[..m]);
        EntitlementMeans(ts[n], es[m]);
        assert es == es[..m] + [es[m]];
        if EntitlementsOf(ts) == Ok(es) {
          assert EntitlementsOf(ts[..n]).value == es[..m];
        }
        assert forall i | 0 <= i < n :: ts[..n][i] == ts[i];
        assert forall i | 0 <= i < m :: es[..m][i] == es[i];
      }
    }
  }

  lemma VersionMeans(items: seq<Item>, major: u16, minor: u16)
    ensures VersionOf(items) == Ok((major, minor)) <==> IsVersion(items, major, minor)
  {
    var found := Lookup(items, 1);
    if found.One? && found.item.Array? && |found.item.items| == 2 {
      var parts := found.item.items;
      assert parts == [parts[0], parts[1]];
    }
  }

  lemma ListMeans(items: seq<Item>, es: seq<Entitlement>)
    ensures AreEntitlements(items, es) <==>
            RequiredContainer(items, 10, false).Ok? && |RequiredContainer(items, 10, false).value| <= 128
            && EntitlementsOf(RequiredContainer(items, 10, false).value) == Ok(es)
  {
    hide EntitlementsOf, IsEntitlement;
    var found := Lookup(items, 10);
    if found.One? && found.item.Array? && found.item.definite {
      EntitlementsMean(found.item.items, es);
    }
  }

  lemma SupersedesMeans(items: seq<Item>, s: Option<seq<byte>>)
    ensures FoundText(items, 9) == Ok(s) <==>
            if s.Some? then IsText(items, 9, s.value) else Lookup(items, 9).Missing?
  {
    TextMeans(items, 9, if s.Some? then s.value else []);
    hide FoundText, IsText;
  }

  lemma PayloadMeans(t: Item, c: Credential)
    ensures PayloadOf(t) == Ok(c) <==> IsPayload(t, c)
  {
    if t.Map? && t.definite {
      VersionMeans(t.items, c.schemaMajor, c.schemaMinor);
      TextMeans(t.items, 2, c.credentialId);
      TextMeans(t.items, 3, c.licenseGrantId);
      NumberMeans(t.items, 4, c.authorityRevision, 0);
      TextMeans(t.items, 5, c.bindingId);
      TextMeans(t.items, 6, c.deviceId);
      NumberMeans(t.items, 7, c.credentialGeneration, 0);
      NumberMeans(t.items, 8, 0, c.issuedAt);
      SupersedesMeans(t.items, c.supersedes);
      ListMeans(t.items, c.entitlements);
      hide VersionOf, RequiredText, RequiredUInt, RequiredInt, FoundText, RequiredContainer, EntitlementsOf, IsText,
           IsUnsigned, IsSigned, IsVersion, AreEntitlements;
    }
  }

  lemma EnvelopeMeans(t: Item, e: Envelope)
    ensures EnvelopeOf(t) == Ok(e) <==> IsEnvelope(t, e)
  {
    if t.Map? && t.definite {
      NumberMeans(t.items, 1, e.artifactKind, 0);
      NumberMeans(t.items, 2, e.envelopeVersion, 0);
      TextMeans(t.items, 3, e.algorithmId);
      TextMeans(t.items, 4, e.keyId);
      BytesMean(t.items, 5, e.payload);
      BytesMean(t.items, 6, e.signature);
      hide RequiredText, RequiredUInt, RequiredBytes, IsText, IsUnsigned, IsBytes;
    }
  }

  lemma RootMeans(b: seq<byte>)
    ensures RootOf(b).Ok? <==> WellFormed(b)
    ensures WellFormed(b) ==> RootOf(b) == Ok(Root(b))
  {
    hide Walk, ParseItem;
    if ParseSequence(b).Some? && |ParseSequence(b).value| == 1 {
      var ts := ParseSequence(b).value;
      assert ts == [ts[0]] && ts[1..] == [];
      assert WalkAll(ts, 0) == Walk(ts[0], 0) + WalkAll([], 0);
      assert WalkAll(ts, 0) == Walk(ts[0], 0);
    }
  }

  /** A payload decodes to a credential exactly if that is what its fields mean. */
  lemma DecodedPayloadMeans(b: seq<byte>, c: Credential)
    ensures DecodedPayload(b) == Ok(c) <==> WellFormed(b) && IsPayload(Root(b), c)
  {
    RootMeans(b);
    if WellFormed(b) {
      PayloadMeans(Root(b), c);
    }
    hide RootOf, WellFormed, PayloadOf, IsPayload;
  }

  /** An envelope decodes exactly to what its fields mean. */
  lemma DecodedEnvelopeMeans(b: seq<byte>, e: Envelope)
    ensures DecodedEnvelope(b) == Ok(e) <==> WellFormed(b) && IsEnvelope(Root(b), e)
  {
    RootMeans(b);
    if WellFormed(b) {
      EnvelopeMeans(Root(b), e);
    }
    hide RootOf, WellFormed, EnvelopeOf, IsEnvelope;
  }

  //
  // Lookup by label
  //

  /** The entry at `i`, and no other, has the label. */
  predicate OnlyAt(items: seq<Item>, key: nat, i: int) {
    0 <= i < |items| - 1 && i % 2 == 0 && items[i] == UInt(key)
    && forall j | 0 <= j < |items| && j % 2 == 0 && j != i :: items[j] != UInt(key)
  }

  /** A label is missing exactly if no entry has it, and it is found exactly if one has it, with that one's value. */
  lemma LookupMeans(items: seq<Item>, key: nat, value: Item)
    requires |items| % 2 == 0
    ensures Lookup(items, key).Missing? <==> forall i | 0 <= i < |items| && i % 2 == 0 :: items[i] != UInt(key)
    ensures Lookup(items, key) == One(value) <==> exists i :: OnlyAt(items, key, i) && items[i + 1] == value
  {
    if Lookup(items, key).Missing? {
      LookupNone(items, key);
    } else if Lookup(items, key).One? {
      var at := LookupIndex(items, key);
      assert OnlyAt(items, key, at);
    } else {
      var at, again := LookupTwo(items, key);
    }
    if forall i | 0 <= i < |items| && i % 2 == 0 :: items[i] != UInt(key) {
      LookupMissing(items, key);
    }
    if at :| OnlyAt(items, key, at) && items[at + 1] == value {
      LookupOne(items, key, at);
    }
  }

  lemma {:induction false} LookupNone(items: seq<Item>, key: nat)
    requires |items| % 2 == 0 && Lookup(items, key).Missing?
    ensures forall i | 0 <= i < |items| && i % 2 == 0 :: items[i] != UInt(key)
  {
    if items != [] {
      LookupNone(items[2..], key);
      forall i | 0 <= i < |items| && i % 2 == 0 ensures items[i] != UInt(key) {
        if i >= 2 {
          assert items[i] == items[2..][i - 2];
        }
      }
    }
  }

  lemma {:induction false} LookupIndex(items: seq<Item>, key: nat) returns (i: nat)
    requires |items| % 2 == 0 && Lookup(items, key).One?
    ensures i < |items| - 1 && i % 2 == 0 && items[i] == UInt(key) && items[i + 1] == Lookup(items, key).item
    ensures forall j | 0 <= j < |items| && j % 2 == 0 && j != i :: items[j] != UInt(key)
  {
    var others := items[2..];
    assert forall j | 2 <= j < |items| :: items[j] == others[j - 2];
    if items[0] == UInt(key) {
      LookupNone(others, key);
      i := 0;
    } else {
      i := LookupIndex(others, key);
      i := i + 2;
    }
  }

  lemma {:induction false} LookupTwo(items: seq<Item>, key: nat) returns (i: nat, j: nat)
    requires |items| % 2 == 0 && Lookup(items, key).Duplicate?
    ensures i < j < |items| && i % 2 == 0 && j % 2 == 0 && items[i] == UInt(key) && items[j] == UInt(key)
  {
    var others := items[2..];
    assert forall j | 2 <= j < |items| :: items[j] == others[j - 2];
    if items[0] == UInt(key) {
      i := 0;
      if Lookup(others, key).One? {
        j := LookupIndex(others, key);
        j := j + 2;
      } else {
        var _, k := LookupTwo(others, key);
        j := k + 2;
      }
    } else {
      i, j := LookupTwo(others, key);
      i, j := i + 2, j + 2;
    }
  }
}
