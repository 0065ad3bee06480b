/**
 * The bytes of every artifact, octet by octet: heads, labels and the fixed
 * parts are written out, with no data model in between.
 */
module WireFormat {
  import opened Wrappers
  import opened Bytes
  import opened Cbor
  import opened Credentials

  /** A head with its argument in the fewest octets (section 3 of RFC 8949). */
  function HeadOctets(major: nat, v: nat): seq<byte>
    requires major < 8
  {
    if v < 24 then [32 * major + v]
    else if v < 0x100 then [32 * major + 24, v]
    else if v < 0x1_0000 then [32 * major + 25, v / 0x100, v % 0x100]
    else if v < 0x1_0000_0000 then
      [32 * major + 26, v / 0x100_0000 % 0x100, v / 0x1_0000 % 0x100, v / 0x100 % 0x100, v % 0x100]
    else
      [32 * major + 27, v / 0x100_0000_0000_0000 % 0x100, v / 0x1_0000_0000_0000 % 0x100,
       v / 0x100_0000_0000 % 0x100, v / 0x1_0000_0000 % 0x100,
       v / 0x100_0000 % 0x100, v / 0x1_0000 % 0x100, v / 0x100 % 0x100, v % 0x100]
  }

  function Unsigned(v: nat): seq<byte> { HeadOctets(0, v) }

  function Signed(x: int): seq<byte> { if x >= 0 then HeadOctets(0, x) else HeadOctets(1, -1 - x) }

  function ByteString(s: seq<byte>): seq<byte> { HeadOctets(2, |s|) + s }

  function TextString(s: seq<byte>): seq<byte> { HeadOctets(3, |s|) + s }

  function OptionalTime(key: byte, x: Option<i64>): seq<byte> {
    if x.Some? then [key] + Signed(x.value) else []
  }

  /** Label 1 is the kind; labels 2 and 3 are the bounds that there are. */
  function ValidityOctets(v: Validity): seq<byte> {
    var entries := if v.notBefore.None? && v.notAfter.None? then 1
                   else if v.notBefore.Some? && v.notAfter.Some? then 3 else 2;
    [0xa0 + entries, 0x01] + Unsigned(v.kind) + OptionalTime(0x02, v.notBefore) + OptionalTime(0x03, v.notAfter)
  }

  /** Labels 1 to 5, and label 6 with a constraint of kind 1 if there is a maximum. */
  function EntitlementOctets(e: Entitlement): seq<byte> {
    [if e.maxU64.Some? then 0xa6 else 0xa5]
    + ([0x01] + TextString(e.id) + [0x02] + TextString(e.productId)
       + [0x03] + Unsigned(e.rightKind) + [0x04] + Unsigned(e.grantSemantics)
       + [0x05] + ValidityOctets(e.validity)
       + if e.maxU64.Some? then [0x06] + ([0xa2, 0x01, 0x01, 0x02] + Unsigned(e.maxU64.value)) else [])
  }

  function EntitlementsOctets(es: seq<Entitlement>): seq<byte> {
    if es == [] then [] else EntitlementOctets(es[0]) + EntitlementsOctets(es[1..])
  }

  /** The payload of a credential, with its entitlements in the order they have. */
  function PayloadOctets(c: Credential): seq<byte> {
    [if c.supersedes.Some? then 0xaa else 0xa9]
    + (HeaderOctets(c)
       + (if c.supersedes.Some? then [0x09] + TextString(c.supersedes.value) else [])
       + [0x0a] + (HeadOctets(4, |c.entitlements|) + EntitlementsOctets(c.entitlements)))
  }

  /** Labels 1 to 8 of a payload; the version is an array of two. */
  function HeaderOctets(c: Credential): seq<byte> {
    [0x01, 0x82] + Unsigned(c.schemaMajor) + Unsigned(c.schemaMinor)
    + [0x02] + TextString(c.credentialId) + [0x03] + TextString(c.licenseGrantId)
    + [0x04] + Unsigned(c.authorityRevision)
    + [0x05] + TextString(c.bindingId) + [0x06] + TextString(c.deviceId)
    + [0x07] + Unsigned(c.credentialGeneration) + [0x08] + Signed(c.issuedAt)
  }

  function EnvelopeOctets(e: Envelope): seq<byte> {
    [0xa6] + [0x01] + Unsigned(e.artifactKind) + [0x02] + Unsigned(e.envelopeVersion)
    + [0x03] + TextString(e.algorithmId) + [0x04] + TextString(e.keyId)
    + [0x05] + ByteString(e.payload) + [0x06] + ByteString(e.signature)
  }

  /** The text "axlicense.credential". */
  function DomainOctets(): seq<byte> {
    [0x74, 0x61, 0x78, 0x6c, 0x69, 0x63, 0x65, 0x6e, 0x73, 0x65, 0x2e,
     0x63, 0x72, 0x65, 0x64, 0x65, 0x6e, 0x74, 0x69, 0x61, 0x6c]
  }

  /** An array of five: the text "axlicense.credential", 1, the algorithm, the key and the payload. */
  function SigningOctets(algorithmId: seq<byte>, keyId: seq<byte>, payload: seq<byte>): seq<byte> {
    [0x85] + DomainOctets() + [0x01] + TextString(algorithmId) + TextString(keyId) + ByteString(payload)
  }

  /** The bytes if there are at most 64 KiB of them, and a failure otherwise. */
  function Within64K(b: seq<byte>): Result<seq<byte>> { if |b| <= 65536 then Ok(b) else CodecError }

  //
  // The data model has these bytes
  //

  lemma HeadHasOctets(major: nat, v: nat)
    requires major < 8
    ensures Head(major, v) == HeadOctets(major, v)
  {
    if v >= 0x1_0000_0000 {
      EightBytes(v);
    } else if v >= 0x1_0000 {
      FourBytes(v);
    } else if v >= 0x100 {
      TwoBytes(v);
    } else if v >= 24 {
      OneByte(v);
    }
    hide BigEndian;
  }

  lemma OneByte(v: nat)
    requires v < 0x100
    ensures BigEndian(v, 1) == [v]
  {
  }

  lemma TwoBytes(v: nat)
    ensures BigEndian(v, 2) == [v / 0x100 % 0x100, v % 0x100]
  {
    assert BigEndian(v / 0x100, 1) == BigEndian(v / 0x1_0000, 0) + [v / 0x100 % 0x100];
  }

  lemma FourBytes(v: nat)
    ensures BigEndian(v, 4) == [v / 0x100_0000 % 0x100, v / 0x1_0000 % 0x100, v / 0x100 % 0x100, v % 0x100]
  {
    TwoBytes(v / 0x1_0000);
    hide BigEndian;
    LastTwo(v, 4);
    assert v / 0x1_0000 / 0x100 == v / 0x100_0000;
  }

  lemma LastTwo(v: nat, width: nat)
    requires width >= 2
    ensures BigEndian(v, width) == BigEndian(v / 0x1_0000, width - 2) + [v / 0x100 % 0x100, v % 0x100]
  {
    assert v / 0x100 / 0x100 == v / 0x1_0000;
    assert BigEndian(v / 0x100, width - 1) == BigEndian(v / 0x1_0000, width - 2) + [v / 0x100 % 0x100];
  }

  lemma EightBytes(v: nat)
    ensures BigEndian(v, 8)
         == [v / 0x100_0000_0000_0000 % 0x100, v / 0x1_0000_0000_0000 % 0x100,
             v / 0x100_0000_0000 % 0x100, v / 0x1_0000_0000 % 0x100,
             v / 0x100_0000 % 0x100, v / 0x1_0000 % 0x100, v / 0x100 % 0x100, v % 0x100]
  {
    hide BigEndian;
    var high := v / 0x1_0000_0000;
    FourBytes(high);
    LastTwo(v, 8);
    LastTwo(v / 0x1_0000, 6);
    Quotients(v);
  }

  lemma Quotients(v: nat)
    ensures v / 0x1_0000 / 0x1_0000 == v / 0x1_0000_0000 && v / 0x1_0000 / 0x100 == v / 0x100_0000
    ensures var high := v / 0x1_0000_0000;
            high / 0x100 == v / 0x100_0000_0000 && high / 0x1_0000 == v / 0x1_0000_0000_0000
            && high / 0x100_0000 == v / 0x100_0000_0000_0000
  {
  }

  lemma LeavesHaveOctets(v: nat, x: int, s: seq<byte>)
    ensures Enc(UInt(v)) == Unsigned(v) && Enc(IntItem(x)) == Signed(x)
    ensures Enc(Text(s)) == TextString(s) && Enc(Bytes(s)) == ByteString(s)
  {
    HeadHasOctets(0, v);
    HeadHasOctets(2, |s|);
    HeadHasOctets(3, |s|);
    if x >= 0 {
      HeadHasOctets(0, x);
    } else {
      HeadHasOctets(1, -1 - x);
    }
  }

  /** One more field adds the octet of its label and the octets of its value. */
  lemma FieldHasOctets(items: seq<Item>, key: nat, value: Item)
    requires key < 24
    ensures EncAll(items + Field(key, value)) == EncAll(items) + [key] + Enc(value)
  {
    hide Enc, EncAll, Head;
    EncAllConcat(items, Field(key, value));
    EncAllCons(UInt(key), [value]);
    EncAllCons(value, []);
    assert [UInt(key)] + [value] == Field(key, value) && [value] + [] == [value];
    EncNothing();
    SmallHead(key);
  }

  lemma EncNothing()
    ensures EncAll([]) == []
  {
  }

  lemma SmallHead(v: nat)
    requires v < 24
    ensures Enc(UInt(v)) == [v] && Head(5, v) == [0xa0 + v] && Head(4, v) == [0x80 + v]
  {
  }

  lemma MapHasOctets(items: seq<Item>)
    requires |items| % 2 == 0 && |items| < 48
    ensures Enc(Map(true, items)) == [0xa0 + |items| / 2] + EncAll(items)
  {
    SmallHead(|items| / 2);
    hide Head;
  }

  lemma OptionalHasOctets(items: seq<Item>, key: nat, x: Option<i64>)
    requires key < 24
    ensures EncAll(items + OptionalInt(key, x)) == EncAll(items) + OptionalTime(key, x)
  {
    if x.Some? {
      FieldHasOctets(items, key, IntItem(x.value));
      LeavesHaveOctets(0, x.value, []);
    } else {
      assert items + [] == items;
    }
    hide Enc, EncAll;
  }

  lemma FirstField(key: nat, value: Item)
    requires key < 24
    ensures EncAll(Field(key, value)) == [key] + Enc(value)
  {
    hide Enc, EncAll;
    FieldHasOctets([], key, value);
    EncNothing();
    assert [] + Field(key, value) == Field(key, value);
  }

  lemma ValidityHasOctets(v: Validity)
    ensures Enc(ValidityTree(v)) == ValidityOctets(v)
  {
    hide Enc, EncAll, HeadOctets;
    var one := Field(1, UInt(v.kind));
    FirstField(1, UInt(v.kind));
    LeavesHaveOctets(v.kind, 0, []);
    var two := one + OptionalInt(2, v.notBefore);
    OptionalHasOctets(one, 2, v.notBefore);
    OptionalHasOctets(two, 3, v.notAfter);
    MapHasOctets(two + OptionalInt(3, v.notAfter));
    hide OptionalTime;
  }

  lemma ConstraintHasOctets(max: u64)
    ensures Enc(ConstraintTree(max)) == [0xa2, 0x01, 0x01, 0x02] + Unsigned(max)
  {
    hide Enc, EncAll, HeadOctets;
    var one := Field(1, UInt(1));
    FirstField(1, UInt(1));
    SmallHead(1);
    FieldHasOctets(one, 2, UInt(max));
    LeavesHaveOctets(max, 0, []);
    MapHasOctets(one + Field(2, UInt(max)));
  }

  lemma EntitlementHasOctets(e: Entitlement)
    ensures Enc(EntitlementTree(e)) == EntitlementOctets(e)
  {
    hide Enc, EncAll, HeadOctets, ValidityOctets, ValidityTree, ConstraintTree;
    LeavesHaveOctets(e.rightKind, 0, e.id);
    LeavesHaveOctets(e.grantSemantics, 0, e.productId);
    ValidityHasOctets(e.validity);
    hide TextString, Unsigned;
    var one := Field(1, Text(e.id));
    FirstField(1, Text(e.id));
    var two := one + Field(2, Text(e.productId));
    FieldHasOctets(one, 2, Text(e.productId));
    var three := two + Field(3, UInt(e.rightKind));
    FieldHasOctets(two, 3, UInt(e.rightKind));
    var four := three + Field(4, UInt(e.grantSemantics));
    FieldHasOctets(three, 4, UInt(e.grantSemantics));
    var five := four + Field(5, ValidityTree(e.validity));
    FieldHasOctets(four, 5, ValidityTree(e.validity));
    if e.maxU64.Some? {
      ConstraintHasOctets(e.maxU64.value);
      FieldHasOctets(five, 6, ConstraintTree(e.maxU64.value));
      MapHasOctets(five + Field(6, ConstraintTree(e.maxU64.value)));
      Reassociate(EncAll(five), [0x06], [0xa2, 0x01, 0x01, 0x02] + Unsigned(e.maxU64.value));
    } else {
      assert five + [] == five;
      assert EncAll(five) + [] == EncAll(five);
      MapHasOctets(five);
    }
  }

  lemma Reassociate(a: seq<byte>, b: seq<byte>, c: seq<byte>)
    ensures a + b + c == a + (b + c)
  {
  }

  lemma {:induction false} EntitlementsHaveOctets(es: seq<Entitlement>)
    ensures EncAll(EntitlementTrees(es)) == EntitlementsOctets(es)
  {
    hide Enc, EntitlementTree, EntitlementOctets;
    if es != [] {
      EntitlementHasOctets(es[0]);
      EntitlementsHaveOctets(es[1..]);
      EncAllCons(EntitlementTree(es[0]), EntitlementTrees(es[1..]));
    }
  }

  lemma VersionHasOctets(major: u16, minor: u16)
    ensures Enc(Array(true, [UInt(major), UInt(minor)])) == [0x82] + Unsigned(major) + Unsigned(minor)
  {
    var pair := [UInt(major), UInt(minor)];
    assert Enc(Array(true, pair)) == Head(4, 2) + EncAll(pair);
    SmallHead(2);
    LeavesHaveOctets(major, 0, []);
    LeavesHaveOctets(minor, 0, []);
    hide Enc, EncAll, Head, Unsigned;
    EncAllCons(UInt(minor), []);
    EncAllCons(UInt(major), [UInt(minor)]);
    EncNothing();
    assert [UInt(minor)] + [] == [UInt(minor)] && [UInt(major)] + [UInt(minor)] == pair;
  }

  lemma HeadFieldsHaveOctets(c: Credential)
    ensures EncAll(PayloadHead(c)) == HeaderOctets(c)
  {
    hide Enc, EncAll, HeadOctets;
    VersionHasOctets(c.schemaMajor, c.schemaMinor);
    LeavesHaveOctets(c.authorityRevision, c.issuedAt, c.credentialId);
    LeavesHaveOctets(c.credentialGeneration, 0, c.licenseGrantId);
    LeavesHaveOctets(0, 0, c.bindingId);
    LeavesHaveOctets(0, 0, c.deviceId);
    hide TextString, Unsigned, Signed;
    var version := Array(true, [UInt(c.schemaMajor), UInt(c.schemaMinor)]);
    var one := Field(1, version);
    FirstField(1, version);
    var two := one + Field(2, Text(c.credentialId));
    FieldHasOctets(one, 2, Text(c.credentialId));
    var three := two + Field(3, Text(c.licenseGrantId));
    FieldHasOctets(two, 3, Text(c.licenseGrantId));
    var four := three + Field(4, UInt(c.authorityRevision));
    FieldHasOctets(three, 4, UInt(c.authorityRevision));
    var five := four + Field(5, Text(c.bindingId));
    FieldHasOctets(four, 5, Text(c.bindingId));
    var six := five + Field(6, Text(c.deviceId));
    FieldHasOctets(five, 6, Text(c.deviceId));
    var seven := six + Field(7, UInt(c.credentialGeneration));
    FieldHasOctets(six, 7, UInt(c.credentialGeneration));
    FieldHasOctets(seven, 8, IntItem(c.issuedAt));
    assert PayloadHead(c) == seven + Field(8, IntItem(c.issuedAt));
  }

  /** The reference payload has the octets written out above. */
  lemma PayloadHasOctets(c: Credential)
    ensures Enc(PayloadTree(c)) == PayloadOctets(c)
  {
    HeadFieldsHaveOctets(c);
    EntitlementsHaveOctets(c.entitlements);
    ListHasOctets(c.entitlements);
    hide Enc, EncAll, HeadOctets, EntitlementsOctets, EntitlementTrees, HeaderOctets, PayloadHead;
    var nine := PayloadHead(c) + PayloadSupersedes(c);
    if c.supersedes.Some? {
      FieldHasOctets(PayloadHead(c), 9, Text(c.supersedes.value));
      LeavesHaveOctets(0, 0, c.supersedes.value);
      hide TextString;
      Reassociate(EncAll(PayloadHead(c)), [0x09], TextString(c.supersedes.value));
    } else {
      assert nine == PayloadHead(c);
      assert HeaderOctets(c) + [] == HeaderOctets(c);
    }
    hide TextString;
    var list := Array(true, EntitlementTrees(c.entitlements));
    FieldHasOctets(nine, 10, list);
    MapHasOctets(nine + Field(10, list));
  }

  lemma ListHasOctets(es: seq<Entitlement>)
    ensures Enc(Array(true, EntitlementTrees(es))) == HeadOctets(4, |es|) + EncAll(EntitlementTrees(es))
  {
    HeadHasOctets(4, |es|);
    hide Head, HeadOctets;
  }

  lemma EnvelopeHasOctets(e: Envelope)
    ensures Enc(EnvelopeTree(e)) == EnvelopeOctets(e)
  {
    hide Enc, EncAll, HeadOctets;
    LeavesHaveOctets(e.artifactKind, 0, e.algorithmId);
    LeavesHaveOctets(e.envelopeVersion, 0, e.keyId);
    LeavesHaveOctets(0, 0, e.payload);
    LeavesHaveOctets(0, 0, e.signature);
    hide TextString, Unsigned, ByteString;
    var one := Field(1, UInt(e.artifactKind));
    FirstField(1, UInt(e.artifactKind));
    var two := one + Field(2, UInt(e.envelopeVersion));
    FieldHasOctets(one, 2, UInt(e.envelopeVersion));
    var three := two + Field(3, Text(e.algorithmId));
    FieldHasOctets(two, 3, Text(e.algorithmId));
    var four := three + Field(4, Text(e.keyId));
    FieldHasOctets(three, 4, Text(e.keyId));
    var five := four + Field(5, Bytes(e.payload));
    FieldHasOctets(four, 5, Bytes(e.payload));
    FieldHasOctets(five, 6, Bytes(e.signature));
    MapHasOctets(five + Field(6, Bytes(e.signature)));
  }

  lemma DomainHasOctets()
    ensures Enc(Text(DOMAIN)) == DomainOctets()
  {
    assert DOMAIN == [0x61, 0x78, 0x6c, 0x69, 0x63, 0x65, 0x6e, 0x73, 0x65, 0x2e,
                      0x63, 0x72, 0x65, 0x64, 0x65, 0x6e, 0x74, 0x69, 0x61, 0x6c];
    assert Head(3, 20) == [0x74];
  }

  lemma SigningHasOctets(algorithmId: seq<byte>, keyId: seq<byte>, payload: seq<byte>)
    ensures Enc(SigningTree(algorithmId, keyId, payload)) == SigningOctets(algorithmId, keyId, payload)
  {
    var a, k, p := Text(algorithmId), Text(keyId), Bytes(payload);
    var items := [Text(DOMAIN), UInt(1), a, k, p];
    assert Enc(SigningTree(algorithmId, keyId, payload)) == Head(4, 5) + EncAll(items);
    SmallHead(5);
    SmallHead(1);
    DomainHasOctets();
    LeavesHaveOctets(0, 0, algorithmId);
    LeavesHaveOctets(0, 0, keyId);
    LeavesHaveOctets(0, 0, payload);
    hide Enc, EncAll, Head, TextString, ByteString, DOMAIN, DomainOctets;
    FiveItems(Text(DOMAIN), UInt(1), a, k, p);
    SixParts(Head(4, 5), Enc(Text(DOMAIN)), Enc(UInt(1)), Enc(a), Enc(k), Enc(p));
  }

  lemma FiveItems(a: Item, b: Item, c: Item, d: Item, e: Item)
    ensures EncAll([a, b, c, d, e]) == Enc(a) + (Enc(b) + (Enc(c) + (Enc(d) + Enc(e))))
  {
    hide Enc, EncAll;
    EncNothing();
    EncAllCons(e, []);
    EncAllCons(d, [e]);
    EncAllCons(c, [d, e]);
    EncAllCons(b, [c, d, e]);
    EncAllCons(a, [b, c, d, e]);
    assert [e] + [] == [e] && [d] + [e] == [d, e] && [c] + [d, e] == [c, d, e];
    assert [b] + [c, d, e] == [b, c, d, e] && [a] + [b, c, d, e] == [a, b, c, d, e];
    assert Enc(e) + [] == Enc(e);
  }

  lemma SixParts(a: seq<byte>, b: seq<byte>, c: seq<byte>, d: seq<byte>, e: seq<byte>, f: seq<byte>)
    ensures a + (b + (c + (d + (e + f)))) == a + b + c + d + e + f
  {
    Reassociate(a + b + c + d, e, f);
    Reassociate(a + b + c, d, e + f);
    Reassociate(a + b, c, d + (e + f));
    Reassociate(a, b, c + (d + (e + f)));
  }
}
