/** What the state file holds, name by name, and which files are records, unsupported or damaged. */
module StateFormat {
  import opened Wrappers
  import opened Bytes
  import opened Identity
  import opened MachineState

  predicate IsHexText(s: string, length: nat) {
    |s| == length && forall i | 0 <= i < |s| :: '0' <= s[i] <= '9' || 'a' <= s[i] <= 'f'
  }

  /** The scheme and the provider are those of the kind, and the name is one that the key generator gives. */
  predicate IsRecord(r: Record) {
    r.schemeId == (if r.kind.Tpm? then "axl-win-cng-tpm-p256-v1" else "axl-win-cng-software-p256-v1")
    && r.providerName == (if r.kind.Tpm? then "Microsoft Platform Crypto Provider"
                          else "Microsoft Software Key Storage Provider")
    && r.epoch == 1 && IsHexText(r.value, 128)
    && |r.keyName| == 68 && r.keyName[..36] == "Auditoryworks.AxLicense.Identity.v1."
    && IsHexText(r.keyName[36..], 32)
  }

  lemma RecordSpelledOut(r: Record)
    ensures ValidRecord(r) <==> IsRecord(r)
  {
    PrefixLength();
    if ValidRecord(r) {
      assert r.keyName[..36] == KEY_PREFIX;
    }
    if IsRecord(r) {
      assert KEY_PREFIX <= r.keyName;
    }
  }

  lemma PrefixLength()
    ensures |KEY_PREFIX| == 36
  {
  }

  //
  // What is written
  //

  /** The text of a field of an object. */
  predicate HasText(j: Json, key: string, s: string) { j.JObject? && key in j.fields && j.fields[key] == JString(s) }

  predicate HasNumber(j: Json, key: string, n: nat) {
    j.JObject? && key in j.fields && j.fields[key].JUnsigned? && j.fields[key].n == n
  }

  predicate HasObject(j: Json, key: string) { j.JObject? && key in j.fields && j.fields[key].JObject? }

  predicate IsIdentity(j: Json, r: Record) {
    HasText(j, "provider_kind", if r.kind.Tpm? then "tpm" else "software")
    && HasText(j, "scheme_id", r.schemeId) && HasText(j, "identity_value", r.value)
    && HasText(j, "provider_name", r.providerName) && HasText(j, "key_name", r.keyName)
  }

  predicate IsDocument(j: Json, r: Record) {
    HasObject(j, "schema_version")
    && HasNumber(j.fields["schema_version"], "major", 1) && HasNumber(j.fields["schema_version"], "minor", 0)
    && HasNumber(j, "state_generation", 1)
    && HasObject(j, "identity") && IsIdentity(j.fields["identity"], r)
    && HasNumber(j.fields["identity"], "identity_epoch", r.epoch)
  }

  /** A record is written under these names. */
  lemma DocumentSpelledOut(r: Record)
    ensures IsDocument(Document(r), r)
  {
  }

  lemma CarrierSpelledOut(b: seq<byte>)
    ensures HasText(Carrier(b), "format", "axlicense-machine-state") && HasNumber(Carrier(b), "envelope_version", 1)
    ensures HasText(Carrier(b), "protected_blob_hex", Hex(b))
  {
  }

  //
  // What is read
  //

  /** An integer of 64 bits, however it is written. */
  predicate HasInteger(j: Json, key: string) {
    j.JObject? && key in j.fields && (j.fields[key].JUnsigned? || j.fields[key].JNegative?)
  }

  /** One, or what the conversion to 32 bits makes one of. */
  predicate HasOneIn32Bits(j: Json, key: string) {
    j.JObject? && key in j.fields
    && match j.fields[key]
       case JUnsigned(n) => n % 0x1_0000_0000 == 1
       case JNegative(m) => m % 0x1_0000_0000 == 1
       case JBool(b) => b
       case _ => false
  }

  /** The carrier is a JSON object of this format, in 1 byte to 1 MiB. */
  predicate IsCarrier(p: Platform, carrier: string) {
    1 <= |carrier| <= 1048576 && p.parse(carrier).Some?
    && HasText(p.parse(carrier).value, "format", "axlicense-machine-state")
  }

  /** Envelope version 1, with a protected blob in lower-case digits. */
  predicate HasBlob(p: Platform, carrier: string) {
    IsCarrier(p, carrier) && HasNumber(p.parse(carrier).value, "envelope_version", 1)
    && "protected_blob_hex" in p.parse(carrier).value.fields
    && p.parse(carrier).value.fields["protected_blob_hex"].JString?
    && IsLowerHex(p.parse(carrier).value.fields["protected_blob_hex"].s, 0)
    && p.parse(carrier).value.fields["protected_blob_hex"].s != ""
  }

  /** The document that the blob protects. */
  function Unwrapped(p: Platform, carrier: string): Option<Json>
    requires HasBlob(p, carrier)
  {
    var text := p.unprotect(Unhex(p.parse(carrier).value.fields["protected_blob_hex"].s));
    if text.Some? then p.parse(text.value) else None
  }

  /** The document is of version 1.0 and generation 1 and holds the record. */
  predicate IsState(j: Json, r: Record) {
    HasObject(j, "schema_version")
    && HasNumber(j.fields["schema_version"], "major", 1) && HasNumber(j.fields["schema_version"], "minor", 0)
    && HasNumber(j, "state_generation", 1)
    && HasObject(j, "identity") && IsIdentity(j.fields["identity"], r)
    && HasOneIn32Bits(j.fields["identity"], "identity_epoch") && IsRecord(r)
  }

  /** The document has a version, and it is another one. */
  predicate IsOfOtherVersion(j: Json) {
    HasObject(j, "schema_version")
    && HasInteger(j.fields["schema_version"], "major") && HasInteger(j.fields["schema_version"], "minor")
    && !(HasNumber(j.fields["schema_version"], "major", 1) && HasNumber(j.fields["schema_version"], "minor", 0))
  }

  lemma IntegersRead(j: Json, key: string, n: nat)
    requires n <= 1
    ensures GetU64(j, key) == Some(n) <==> HasNumber(j, key, n)
    ensures GetU64(j, key).Some? <==> HasInteger(j, key)
    ensures GetU32(j, key) == Some(1) <==> HasOneIn32Bits(j, key)
  {
  }

  lemma IdentityRead(j: Json, r: Record)
    requires ValidRecord(r)
    ensures DecodeIdentity(j) == Some(r) <==> IsIdentity(j, r) && HasOneIn32Bits(j, "identity_epoch")
  {
    RecordEpoch(r);
    IntegersRead(j, "identity_epoch", 1);
    TextRead(j, "provider_kind");
    TextRead(j, "scheme_id");
    TextRead(j, "identity_value");
    TextRead(j, "provider_name");
    TextRead(j, "key_name");
    hide ValidRecord, GetU32, HasOneIn32Bits, GetString, HasText;
  }

  lemma TextRead(j: Json, key: string)
    ensures forall s :: GetString(j, key) == Some(s) <==> HasText(j, key, s)
  {
  }

  lemma DocumentRead(j: Json, r: Record)
    ensures DecodeDocument(j) == CodecResult(StoreOk, Some(r), "") <==> IsState(j, r)
    ensures DecodeDocument(j).outcome.StoreUnsupported? <==> IsOfOtherVersion(j)
  {
    RecordSpelledOut(r);
    if HasObject(j, "schema_version") {
      IntegersRead(j.fields["schema_version"], "major", 1);
      IntegersRead(j.fields["schema_version"], "minor", 0);
    }
    IntegersRead(j, "state_generation", 1);
    if HasObject(j, "identity") && ValidRecord(r) {
      IdentityRead(j.fields["identity"], r);
    }
    hide ValidRecord, IsRecord, DecodeIdentity, IsIdentity, HasOneIn32Bits, GetU64, HasNumber, HasInteger;
  }

  /** A file is read as a record exactly if this is what it holds. */
  lemma RecordReadExactly(p: Platform, carrier: string, r: Record)
    ensures Decode(p, carrier) == CodecResult(StoreOk, Some(r), "") <==>
            HasBlob(p, carrier) && Unwrapped(p, carrier).Some? && IsState(Unwrapped(p, carrier).value, r)
  {
    DecodeByBlob(p, carrier);
    if HasBlob(p, carrier) && Unwrapped(p, carrier).Some? {
      DocumentRead(Unwrapped(p, carrier).value, r);
    }
    hide Decode, HasBlob, Unwrapped, DecodeDocument, IsState;
  }

  lemma DecodeByBlob(p: Platform, carrier: string)
    ensures !HasBlob(p, carrier) ==> !Decode(p, carrier).outcome.StoreOk?
    ensures HasBlob(p, carrier) ==>
              Decode(p, carrier) == if Unwrapped(p, carrier).Some? then DecodeDocument(Unwrapped(p, carrier).value)
                                    else Failed(StoreCorrupt)
  {
    hide DecodeDocument, IsLowerHex, Unhex;
  }

  /** It is unsupported exactly if its envelope or its document is of another version; all else is damage. */
  lemma UnsupportedReadExactly(p: Platform, carrier: string)
    ensures Decode(p, carrier).outcome.StoreUnsupported? <==>
            (IsCarrier(p, carrier) && "envelope_version" in p.parse(carrier).value.fields
             && p.parse(carrier).value.fields["envelope_version"].JUnsigned?
             && p.parse(carrier).value.fields["envelope_version"].n != 1)
            || (HasBlob(p, carrier) && Unwrapped(p, carrier).Some? && IsOfOtherVersion(Unwrapped(p, carrier).value))
    ensures !Decode(p, carrier).outcome.StoreOk? && !Decode(p, carrier).outcome.StoreUnsupported? ==>
              Decode(p, carrier).outcome.StoreCorrupt?
  {
    if HasBlob(p, carrier) && Unwrapped(p, carrier).Some? {
      DocumentRead(Unwrapped(p, carrier).value, Record("", 1, "", Tpm, "", ""));
      DocumentOutcomes(Unwrapped(p, carrier).value);
    }
    hide DecodeDocument, IsOfOtherVersion, IsLowerHex, Unhex;
  }

  lemma DocumentOutcomes(j: Json)
    ensures var outcome := DecodeDocument(j).outcome;
            outcome.StoreOk? || outcome.StoreCorrupt? || outcome.StoreUnsupported?
  {
  }
}
