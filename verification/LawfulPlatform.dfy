/**
 * The laws asked of the platform can be met: a platform that writes the two
 * kinds of document as compact JSON with sorted names, as the library does.
 */
module LawfulPlatforms {
  import opened Wrappers
  import opened Bytes
  import opened Identity
  import opened MachineState

  const CARRIER_HEAD :=
    "{\"env" + "elope_version\":1,\"format\":\"axlicense-machine-state\",\"protected_blob_hex\":\""
  const CARRIER_TAIL := "\"}"

  const RECORD_HEAD := "{\"ide" + "ntity\":{\"identity_epoch\":1,\"identity_value\":\""
  const RECORD_MIDDLE := "\",\"key_name\":\""
  const RECORD_TAIL := "\"},\"schema_version\":{\"major\":1,\"minor\":0},\"state_generation\":1}"

  function CarrierText(b: seq<byte>): string { CARRIER_HEAD + Hex(b) + CARRIER_TAIL }

  function KindText(kind: Kind): string {
    "\",\"provider_kind\":\"" + (if kind.Tpm? then "tpm" else "software")
    + "\",\"provider_name\":\"" + ProviderName(kind) + "\",\"scheme_id\":\"" + SchemeId(kind)
  }

  function RecordText(r: Record): string {
    RECORD_HEAD + r.value + (RECORD_MIDDLE + r.keyName + (KindText(r.kind) + RECORD_TAIL))
  }

  ghost function Dump(j: Json): string {
    if exists b :: j == Carrier(b) then
      var b :| j == Carrier(b);
      CarrierText(b)
    else if exists r :: ValidRecord(r) && j == Document(r) then
      var r :| ValidRecord(r) && j == Document(r);
      RecordText(r)
    else ""
  }

  ghost function Parse(text: string): Option<Json> {
    if exists b :: text == CarrierText(b) then
      var b :| text == CarrierText(b);
      Some(Carrier(b))
    else if exists r :: ValidRecord(r) && text == RecordText(r) then
      var r :| ValidRecord(r) && text == RecordText(r);
      Some(Document(r))
    else None
  }

  /** One of the three octets of a character. */
  function Octet(c: char, i: nat): byte {
    var high := c as int / 0x100;
    if i == 0 then high / 0x100 else if i == 1 then high % 0x100 else c as int % 0x100
  }

  /** A stand-in for protection: the text itself, marked, three octets to a character. */
  function Protect(text: string): (b: seq<byte>)
    ensures |b| == 1 + 3 * |text|
  {
    seq(1 + 3 * |text|, k requires 0 <= k < 1 + 3 * |text| =>
      if k == 0 then 0 else Octet(text[(k - 1) / 3], (k - 1) % 3))
  }

  ghost function Unprotect(b: seq<byte>): Option<string> {
    if exists text :: Protect(text) == b then
      var text :| Protect(text) == b;
      Some(text)
    else None
  }

  lemma SamePrefix(a: string, b: string, x: string, y: string)
    requires |a| == |b| && a + x == b + y
    ensures a == b && x == y
  {
    assert a == (a + x)[..|a|] && b == (b + y)[..|b|];
    assert x == (a + x)[|a|..] && y == (b + y)[|b|..];
  }

  /** The third characters of the two heads. */
  lemma HeadsDiffer()
    ensures |CARRIER_HEAD| > 2 && |RECORD_HEAD| > 2 && CARRIER_HEAD[2] == 'e' && RECORD_HEAD[2] == 'i'
  {
  }

  lemma HeadIsKept(head: string, rest: string)
    requires |head| > 2
    ensures (head + rest)[2] == head[2]
  {
  }

  lemma CarrierTextIsInjective(a: seq<byte>, b: seq<byte>)
    requires Hex(a) == Hex(b) || CarrierText(a) == CarrierText(b)
    ensures a == b
  {
    if Hex(a) != Hex(b) {
      SamePrefix(CARRIER_HEAD + Hex(a), CARRIER_HEAD + Hex(b), CARRIER_TAIL, CARRIER_TAIL);
      SamePrefix(CARRIER_HEAD, CARRIER_HEAD, Hex(a), Hex(b));
    }
    HexIsInverse(a);
    HexIsInverse(b);
  }

  lemma RecordTextIsInjective(r: Record, s: Record)
    requires ValidRecord(r) && ValidRecord(s) && RecordText(r) == RecordText(s)
    ensures r == s
  {
    var x, y := KindText(r.kind) + RECORD_TAIL, KindText(s.kind) + RECORD_TAIL;
    SamePrefix(RECORD_HEAD + r.value, RECORD_HEAD + s.value,
               RECORD_MIDDLE + r.keyName + x, RECORD_MIDDLE + s.keyName + y);
    SamePrefix(RECORD_HEAD, RECORD_HEAD, r.value, s.value);
    SamePrefix(RECORD_MIDDLE + r.keyName, RECORD_MIDDLE + s.keyName, x, y);
    SamePrefix(RECORD_MIDDLE, RECORD_MIDDLE, r.keyName, s.keyName);
    assert (KindText(Tpm) + RECORD_TAIL)[19] == 't' && (KindText(Software) + RECORD_TAIL)[19] == 's';
  }

  lemma TextsDiffer(b: seq<byte>, r: Record)
    ensures CarrierText(b) != RecordText(r)
  {
    HeadsDiffer();
    hide KindText, Hex;
    HeadIsKept(CARRIER_HEAD, Hex(b) + CARRIER_TAIL);
    assert CarrierText(b) == CARRIER_HEAD + (Hex(b) + CARRIER_TAIL);
    HeadIsKept(RECORD_HEAD, r.value + (RECORD_MIDDLE + r.keyName + (KindText(r.kind) + RECORD_TAIL)));
  }

  lemma DocumentsDiffer(b: seq<byte>, r: Record)
    ensures Carrier(b) != Document(r)
  {
    assert "format" in Carrier(b).fields && "format" !in Document(r).fields;
  }

  lemma DocumentIsInjective(r: Record, s: Record)
    requires ValidRecord(r) && ValidRecord(s) && Document(r) == Document(s)
    ensures r == s
  {
    DocumentRoundTrip(r);
    DocumentRoundTrip(s);
  }

  lemma CarrierReadsBack(b: seq<byte>)
    ensures Dump(Carrier(b)) == CarrierText(b) && Parse(CarrierText(b)) == Some(Carrier(b))
  {
    forall a | Carrier(a) == Carrier(b) ensures a == b {
      CarrierFields(a);
      CarrierFields(b);
      CarrierTextIsInjective(a, b);
    }
    assert Dump(Carrier(b)) == CarrierText(b);
    forall a | CarrierText(a) == CarrierText(b) ensures a == b {
      CarrierTextIsInjective(a, b);
    }
  }

  lemma RecordReadsBack(r: Record)
    requires ValidRecord(r)
    ensures Dump(Document(r)) == RecordText(r) && Parse(RecordText(r)) == Some(Document(r))
  {
    hide ValidRecord, Document, RecordText, CarrierText, Carrier;
    forall b ensures Carrier(b) != Document(r) && CarrierText(b) != RecordText(r) {
      DocumentsDiffer(b, r);
      TextsDiffer(b, r);
    }
    forall s | ValidRecord(s) && Document(s) == Document(r) ensures s == r {
      DocumentIsInjective(s, r);
    }
    assert Dump(Document(r)) == RecordText(r);
    forall s | ValidRecord(s) && RecordText(s) == RecordText(r) ensures s == r {
      RecordTextIsInjective(s, r);
    }
  }

  lemma EmptyIsNoDocument()
    ensures Parse("").None?
  {
    hide Hex, KindText;
    HeadsDiffer();
  }

  lemma ProtectionIsInjective(a: string, b: string)
    requires Protect(a) == Protect(b)
    ensures a == b
  {
    assert |a| == |b|;
    forall i | 0 <= i < |a| ensures a[i] == b[i] {
      OctetsOf(a, i);
      OctetsOf(b, i);
      OctetsDecide(a[i], b[i]);
    }
  }

  lemma OctetsOf(text: string, i: nat)
    requires i < |text|
    ensures Protect(text)[1 + 3 * i] == Octet(text[i], 0) && Protect(text)[2 + 3 * i] == Octet(text[i], 1)
            && Protect(text)[3 + 3 * i] == Octet(text[i], 2)
  {
  }

  lemma OctetsDecide(c: char, d: char)
    requires Octet(c, 0) == Octet(d, 0) && Octet(c, 1) == Octet(d, 1) && Octet(c, 2) == Octet(d, 2)
    ensures c == d
  {
    assert c as int == d as int;
  }

  lemma ProtectionReadsBack(text: string)
    ensures Unprotect(Protect(text)) == Some(text) && Protect(text) != []
  {
    forall other | Protect(other) == Protect(text) ensures other == text {
      ProtectionIsInjective(other, text);
    }
  }

  lemma TextsAreShort(r: Record, b: seq<byte>)
    requires ValidRecord(r)
    ensures 0 < |RecordText(r)| <= 1000 && |CarrierText(b)| <= 200 + 2 * |b|
  {
    HexIsInverse(b);
    HeadsDiffer();
    assert |KindText(r.kind)| <= 200;
  }

  /** With such a platform every valid record is stored. */
  lemma ValidRecordsAreStored(p: Platform, nonce: nat, r: Record)
    requires ValidRecord(r) && p.dump(Document(r)) == RecordText(r)
    requires p.protect(nonce, RecordText(r)) == Some(Protect(RecordText(r)))
    requires forall b :: p.dump(Carrier(b)) == CarrierText(b)
    ensures Encode(p, nonce, r).outcome.StoreOk?
  {
    hide ValidRecord, Document, Carrier, CarrierText, RecordText;
    TextsAreShort(r, Protect(RecordText(r)));
  }

  /**
   * The assumptions on the platform are consistent: a platform that writes the
   * texts the library writes is lawful, and it stores every valid record.
   */
  lemma SomePlatformIsLawful()
    ensures exists p ::
              Lawful(p) && (forall b :: p.dump(Carrier(b)) == CarrierText(b))
              && (forall r | ValidRecord(r) :: p.dump(Document(r)) == RecordText(r))
              && forall nonce, r | ValidRecord(r) :: Encode(p, nonce, r).outcome.StoreOk?
  {
    hide Dump, Parse, ValidRecord, Document, Carrier, CarrierText, RecordText, Protect, Unprotect, Encode;
    EmptyIsNoDocument();
    var p := Platform(j => Dump(j), text => Parse(text), (nonce, text) => Some(Protect(text)), b => Unprotect(b));
    forall b ensures p.parse(p.dump(Carrier(b))) == Some(Carrier(b)) && p.dump(Carrier(b)) == CarrierText(b) {
      CarrierReadsBack(b);
    }
    forall r | ValidRecord(r)
      ensures p.parse(p.dump(Document(r))) == Some(Document(r)) && p.dump(Document(r)) == RecordText(r)
    {
      RecordReadsBack(r);
    }
    forall nonce, text
      ensures p.protect(nonce, text) == Some(Protect(text)) && Protect(text) != []
              && p.unprotect(Protect(text)) == Some(text)
    {
      ProtectionReadsBack(text);
    }
    forall nonce, r | ValidRecord(r) ensures Encode(p, nonce, r).outcome.StoreOk? {
      ValidRecordsAreStored(p, nonce, r);
    }
    assert Lawful(p);
  }
}
