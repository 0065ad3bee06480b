/** The machine-state codec: a JSON document, protected, in a JSON carrier. */
module MachineState {
  import opened Wrappers
  import opened Bytes
  import opened Identity

  //
  // Lower-case Base16 (section 8 of RFC 4648)
  //

  const DIGITS := "0123456789abcdef"

  predicate IsLowerHexDigit(c: char) { '0' <= c <= '9' || 'a' <= c <= 'f' }

  /** `exactLength` zero means any even length. */
  predicate IsLowerHex(s: string, exactLength: nat) {
    (exactLength == 0 || |s| == exactLength) && |s| % 2 == 0 && forall i | 0 <= i < |s| :: IsLowerHexDigit(s[i])
  }

  function Digit(n: nat): char
    requires n < 0x10
  {
    DIGITS[n]
  }

  function High(b: byte): (n: nat)
    ensures n < 0x10
  {
    b / 0x10
  }

  function Low(b: byte): (n: nat)
    ensures n < 0x10
  {
    b % 0x10
  }

  function Join(high: nat, low: nat): byte
    requires high < 0x10 && low < 0x10
  {
    high * 0x10 + low
  }

  lemma JoinSplits(b: byte, high: nat, low: nat)
    requires high < 0x10 && low < 0x10
    ensures High(Join(high, low)) == high && Low(Join(high, low)) == low && Join(High(b), Low(b)) == b
  {
  }

  function Pair(b: byte): string { [Digit(High(b)), Digit(Low(b))] }

  function Hex(bytes: seq<byte>): string {
    if bytes == [] then "" else Hex(bytes[..|bytes| - 1]) + Pair(bytes[|bytes| - 1])
  }

  lemma HexSnoc(bytes: seq<byte>, b: byte)
    ensures Hex(bytes + [b]) == Hex(bytes) + Pair(b)
  {
    assert (bytes + [b])[..|bytes|] == bytes;
  }

  function Nibble(c: char): (n: nat)
    requires IsLowerHexDigit(c)
    ensures n < 0x10
  {
    if c <= '9' then c as int - '0' as int else c as int - 'a' as int + 10
  }

  /** The digit 0 to 9 or a to f of a number below 16. */
  predicate IsDigitOf(c: char, n: int) {
    if n < 10 then c as int == '0' as int + n else c as int == 'a' as int + (n - 10)
  }

  /** Two digits to an octet, the high one first. */
  lemma {:induction false} HexDigits(bytes: seq<byte>, i: nat)
    requires i < |bytes|
    ensures |Hex(bytes)| == 2 * |bytes|
    ensures IsDigitOf(Hex(bytes)[2 * i], bytes[i] / 16) && IsDigitOf(Hex(bytes)[2 * i + 1], bytes[i] % 16)
  {
    hide IsDigitOf;
    var n := |bytes| - 1;
    HexLength(bytes);
    HexLength(bytes[..n]);
    if i < n {
      HexDigits(bytes[..n], i);
    } else {
      DigitsOf(bytes[n]);
    }
  }

  lemma {:induction false} HexLength(bytes: seq<byte>)
    ensures |Hex(bytes)| == 2 * |bytes|
  {
    if bytes != [] {
      HexLength(bytes[..|bytes| - 1]);
    }
  }

  lemma DigitsOf(b: byte)
    ensures IsDigitOf(Pair(b)[0], b / 16) && IsDigitOf(Pair(b)[1], b % 16)
  {
  }

  method EncodeHex(bytes: seq<byte>) returns (s: string)
    ensures s == Hex(bytes)
  {
    s := "";
    for i := 0 to |bytes|
      invariant s == Hex(bytes[..i])
    {
      assert bytes[..i + 1][..i] == bytes[..i];
      s := s + [Digit(High(bytes[i]))];
      s := s + [Digit(Low(bytes[i]))];
    }
    assert bytes[..|bytes|] == bytes;
  }

  lemma DigitOfNibble(c: char)
    requires IsLowerHexDigit(c)
    ensures Digit(Nibble(c)) == c
  {
  }

  lemma NibbleOfDigit(n: nat)
    requires n < 0x10
    ensures IsLowerHexDigit(Digit(n)) && Nibble(Digit(n)) == n
  {
  }

  lemma PairOfNibbles(high: char, low: char)
    requires IsLowerHexDigit(high) && IsLowerHexDigit(low)
    ensures Pair(Join(Nibble(high), Nibble(low))) == [high, low]
  {
    hide Nibble, Digit, High, Low, Join, IsLowerHexDigit;
    DigitOfNibble(high);
    DigitOfNibble(low);
    JoinSplits(0, Nibble(high), Nibble(low));
  }

  /** Decoding is the inverse of encoding on every even-length lower-case string. */
  method DecodeHex(s: string) returns (bytes: seq<byte>)
    requires IsLowerHex(s, 0)
    ensures Hex(bytes) == s
  {
    hide Nibble, Digit, High, Low, Join, IsLowerHexDigit, Pair;
    bytes := [];
    var index := 0;
    while index < |s|
      invariant index <= |s| && index % 2 == 0
      invariant Hex(bytes) == s[..index]
    {
      var b := Join(Nibble(s[index]), Nibble(s[index + 1]));
      PairOfNibbles(s[index], s[index + 1]);
      HexSnoc(bytes, b);
      assert s[..index + 2] == s[..index] + [s[index], s[index + 1]];
      bytes := bytes + [b];
      index := index + 2;
    }
    assert s[..|s|] == s;
  }

  /** The bytes of an even-length lower-case string. */
  function Unhex(s: string): seq<byte>
    requires IsLowerHex(s, 0)
  {
    if s == "" then []
    else Unhex(s[..|s| - 2]) + [Join(Nibble(s[|s| - 2]), Nibble(s[|s| - 1]))]
  }

  /** The codec is a bijection between byte strings and even-length lower-case strings. */
  lemma {:induction false} HexIsInverse(bytes: seq<byte>)
    ensures IsLowerHex(Hex(bytes), 0) && |Hex(bytes)| == 2 * |bytes| && Unhex(Hex(bytes)) == bytes
  {
    hide IsLowerHex, Pair;
    if bytes == [] {
      NothingIsHex();
    } else {
      var n := |bytes| - 1;
      HexIsInverse(bytes[..n]);
      AppendPair(Hex(bytes[..n]), bytes[n]);
      assert bytes == bytes[..n] + [bytes[n]];
    }
  }

  lemma NothingIsHex()
    ensures IsLowerHex("", 0) && Unhex("") == []
  {
  }

  /** Two more digits are one more byte. */
  lemma AppendPair(s: string, b: byte)
    requires IsLowerHex(s, 0)
    ensures IsLowerHex(s + Pair(b), 0) && |Pair(b)| == 2 && Unhex(s + Pair(b)) == Unhex(s) + [b]
  {
    hide Nibble, Digit, High, Low, Join, IsLowerHexDigit;
    NibbleOfDigit(High(b));
    NibbleOfDigit(Low(b));
    JoinSplits(b, 0, 0);
    var t := s + Pair(b);
    assert t[..|t| - 2] == s;
    assert t[|t| - 2] == Digit(High(b)) && t[|t| - 1] == Digit(Low(b));
  }

  lemma {:induction false} UnhexIsInverse(s: string)
    requires IsLowerHex(s, 0)
    ensures Hex(Unhex(s)) == s
  {
    hide Nibble, Digit, High, Low, Join, IsLowerHexDigit, Pair;
    if s != "" {
      var n := |s| - 2;
      UnhexIsInverse(s[..n]);
      PairOfNibbles(s[n], s[n + 1]);
      HexSnoc(Unhex(s[..n]), Join(Nibble(s[n]), Nibble(s[n + 1])));
      assert s == s[..n] + [s[n], s[n + 1]];
    }
  }

  //
  // Valid records
  //

  const KEY_PREFIX := "Auditoryworks.AxLicense.Identity.v1."

  predicate ValidKeyName(s: string) {
    KEY_PREFIX <= s && |s| == |KEY_PREFIX| + 32 && IsLowerHex(s[|KEY_PREFIX|..], 32)
  }

  predicate ValidRecord(r: Record) {
    r.schemeId == SchemeId(r.kind) && r.providerName == ProviderName(r.kind) && r.epoch == 1
    && IsLowerHex(r.value, 128) && ValidKeyName(r.keyName)
  }

  //
  // JSON and protection
  //

  type Negative = m: int | -0x8000_0000_0000_0000 <= m < 0 witness -1

  /** As a parser gives it: an integer without a sign is unsigned. */
  datatype Json =
    | JNull | JBool(b: bool) | JUnsigned(n: u64) | JNegative(m: Negative) | JString(s: string)
    | JArray(items: seq<Json>) | JObject(fields: map<string, Json>)

  /** The parts the codec is built on: JSON text and data protection with fresh randomness. */
  datatype Platform = Platform(
    dump: Json -> string, parse: string -> Option<Json>,
    protect: (nat, string) -> Option<seq<byte>>, unprotect: seq<byte> -> Option<string>)

  /**
   * No document is empty; parsing inverts dumping on the two kinds of document
   * that are written; unprotecting inverts protecting, whose output is never empty.
   */
  ghost predicate Lawful(p: Platform) {
    p.parse("").None?
    && (forall r | ValidRecord(r) :: p.parse(p.dump(Document(r))) == Some(Document(r)))
    && (forall b :: p.parse(p.dump(Carrier(b))) == Some(Carrier(b)))
    && (forall nonce, text :: p.protect(nonce, text).Some? ==>
          p.protect(nonce, text).value != [] && p.unprotect(p.protect(nonce, text).value) == Some(text))
  }

  const MAX_CARRIER: nat := 1024 * 1024

  /** `at(...)` on something that is not an object, or has no such field, throws. */
  function Get(j: Json, key: string): Option<Json> {
    if j.JObject? && key in j.fields then Some(j.fields[key]) else None
  }

  function GetString(j: Json, key: string): Option<string> {
    var v :- Get(j, key);
    if v.JString? then Some(v.s) else None
  }

  /** Conversion to 64 bits: any integer, reduced to the width. */
  function GetU64(j: Json, key: string): Option<u64> {
    var v :- Get(j, key);
    if v.JUnsigned? then Some(v.n)
    else if v.JNegative? then Some(v.m % 0x1_0000_0000_0000_0000)
    else None
  }

  /** Conversion to 32 bits: any integer or boolean, reduced to the width. */
  function GetU32(j: Json, key: string): Option<u32> {
    var v :- Get(j, key);
    if v.JUnsigned? then Some(v.n % 0x1_0000_0000)
    else if v.JNegative? then Some(v.m % 0x1_0000_0000)
    else if v.JBool? then Some(if v.b then 1 else 0)
    else None
  }

  datatype CodecResult = CodecResult(outcome: StoreOutcome, identity: Option<Record>, carrier: string)

  function Failed(outcome: StoreOutcome): CodecResult { CodecResult(outcome, None, "") }

  function Document(r: Record): Json {
    JObject(map[
      "schema_version" := JObject(map["major" := JUnsigned(1), "minor" := JUnsigned(0)]),
      "state_generation" := JUnsigned(1),
      "identity" := JObject(map[
        "scheme_id" := JString(r.schemeId),
        "identity_epoch" := JUnsigned(r.epoch),
        "identity_value" := JString(r.value),
        "provider_kind" := JString(if r.kind.Tpm? then "tpm" else "software"),
        "provider_name" := JString(r.providerName),
        "key_name" := JString(r.keyName)])])
  }

  function Carrier(protectedBytes: seq<byte>): Json {
    JObject(map[
      "format" := JString("axlicense-machine-state"),
      "envelope_version" := JUnsigned(1),
      "protected_blob_hex" := JString(Hex(protectedBytes))])
  }

  function Encode(p: Platform, nonce: nat, r: Record): CodecResult {
    if !ValidRecord(r) then Failed(StoreFailure)
    else
      var text := p.dump(Document(r));
      var protectedBytes := if text == "" then None else p.protect(nonce, text);
      if protectedBytes.None? then Failed(StoreFailure)
      else
        var carrier := p.dump(Carrier(protectedBytes.value));
        if |carrier| > MAX_CARRIER then Failed(StoreFailure) else CodecResult(StoreOk, Some(r), carrier)
  }

  /** The identity object of a document; `None` is an exception or an unknown kind. */
  function DecodeIdentity(source: Json): Option<Record> {
    var kind :- GetString(source, "provider_kind");
    if kind != "tpm" && kind != "software" then None
    else
      var schemeId :- GetString(source, "scheme_id");
      var epoch :- GetU32(source, "identity_epoch");
      var value :- GetString(source, "identity_value");
      var providerName :- GetString(source, "provider_name");
      var keyName :- GetString(source, "key_name");
      Some(Record(schemeId, epoch, value, if kind == "tpm" then Tpm else Software, providerName, keyName))
  }

  function DecodeDocument(document: Json): CodecResult {
    var version := Get(document, "schema_version");
    if version.None? then Failed(StoreCorrupt)
    else
      var major, minor := GetU64(version.value, "major"), GetU64(version.value, "minor");
      if major.None? || minor.None? then Failed(StoreCorrupt)
      else if major != Some(1) || minor != Some(0) then Failed(StoreUnsupported)
      else if GetU64(document, "state_generation") != Some(1) then Failed(StoreCorrupt)
      else
        var source := Get(document, "identity");
        if source.None? then Failed(StoreCorrupt)
        else
          var identity := DecodeIdentity(source.value);
          if identity.None? || !ValidRecord(identity.value) then Failed(StoreCorrupt)
          else CodecResult(StoreOk, identity, "")
  }

  function Decode(p: Platform, carrier: string): CodecResult {
    if carrier == "" || |carrier| > MAX_CARRIER then Failed(StoreCorrupt)
    else
      var envelope := p.parse(carrier);
      if envelope.None? || GetString(envelope.value, "format") != Some("axlicense-machine-state")
      then Failed(StoreCorrupt)
      else
        var version := Get(envelope.value, "envelope_version");
        if version.None? || !version.value.JUnsigned? then Failed(StoreCorrupt)
        else if version.value.n != 1 then Failed(StoreUnsupported)
        else
          var hex := GetString(envelope.value, "protected_blob_hex");
          if hex.None? || !IsLowerHex(hex.value, 0) || hex.value == "" then Failed(StoreCorrupt)
          else
            var text := p.unprotect(Unhex(hex.value));
            if text.None? then Failed(StoreCorrupt)
            else
              var document := p.parse(text.value);
              if document.None? then Failed(StoreCorrupt) else DecodeDocument(document.value)
  }

  //
  // The code
  //

  method EncodeRecord(p: Platform, nonce: nat, r: Record) returns (result: CodecResult)
    ensures result == Encode(p, nonce, r)
  {
    hide ValidRecord, Document, Hex;
    if !ValidRecord(r) {
      return Failed(StoreFailure);
    }
    var text := p.dump(Document(r));
    if text == "" {
      return Failed(StoreFailure);
    }
    var protectedBytes := p.protect(nonce, text);
    if protectedBytes.None? {
      return Failed(StoreFailure);
    }
    var hex := EncodeHex(protectedBytes.value);
    var carrier := p.dump(JObject(map[
      "format" := JString("axlicense-machine-state"),
      "envelope_version" := JUnsigned(1),
      "protected_blob_hex" := JString(hex)]));
    if |carrier| > MAX_CARRIER {
      return Failed(StoreFailure);
    }
    return CodecResult(StoreOk, Some(r), carrier);
  }

  /** `Decode`, stage by stage; every exception of the JSON library means damage. */
  method DecodeCarrier(p: Platform, carrier: string) returns (result: CodecResult)
    ensures result == Decode(p, carrier)
  {
    hide DecodeDocument, Hex, Unhex, Get, GetString;
    if carrier == "" || |carrier| > MAX_CARRIER {
      return Failed(StoreCorrupt);
    }
    var envelope := p.parse(carrier);
    if envelope.None? || GetString(envelope.value, "format") != Some("axlicense-machine-state") {
      return Failed(StoreCorrupt);
    }
    var version := Get(envelope.value, "envelope_version");
    if version.None? || !version.value.JUnsigned? {
      return Failed(StoreCorrupt);
    }
    if version.value.n != 1 {
      return Failed(StoreUnsupported);
    }
    var hex := GetString(envelope.value, "protected_blob_hex");
    if hex.None? || !IsLowerHex(hex.value, 0) || hex.value == "" {
      return Failed(StoreCorrupt);
    }
    var protectedBytes := DecodeHex(hex.value);
    HexIsInverse(protectedBytes);
    var text := p.unprotect(protectedBytes);
    if text.None? {
      return Failed(StoreCorrupt);
    }
    var document := p.parse(text.value);
    if document.None? {
      return Failed(StoreCorrupt);
    }
    return DecodeDocument(document.value);
  }

  /** A valid record survives the document. */
  lemma DocumentRoundTrip(r: Record)
    requires ValidRecord(r)
    ensures DecodeDocument(Document(r)) == CodecResult(StoreOk, Some(r), "")
  {
    hide ValidRecord, ValidKeyName;
    assert r.epoch == 1 by { RecordEpoch(r); }
    var source := Get(Document(r), "identity").value;
    assert DecodeIdentity(source) == Some(r);
  }

  lemma RecordEpoch(r: Record)
    requires ValidRecord(r)
    ensures r.epoch == 1
  {
  }

  lemma CarrierFields(b: seq<byte>)
    ensures GetString(Carrier(b), "format") == Some("axlicense-machine-state")
    ensures Get(Carrier(b), "envelope_version") == Some(JUnsigned(1))
    ensures GetString(Carrier(b), "protected_blob_hex") == Some(Hex(b))
  {
  }

  /** What was encoded decodes to the identical record. */
  lemma StateRoundTrip(p: Platform, nonce: nat, r: Record)
    requires Lawful(p) && Encode(p, nonce, r).outcome.StoreOk?
    ensures Decode(p, Encode(p, nonce, r).carrier) == CodecResult(StoreOk, Some(r), "")
  {
    hide ValidRecord, DecodeDocument, Document, Carrier, Get, GetString, Hex, Unhex;
    var text := p.dump(Document(r));
    var protectedBytes := p.protect(nonce, text).value;
    var carrier := Carrier(protectedBytes);
    assert p.parse(p.dump(carrier)) == Some(carrier);
    assert p.parse(text) == Some(Document(r));
    assert |p.dump(carrier)| <= MAX_CARRIER && p.dump(carrier) != "";
    HexIsInverse(protectedBytes);
    DocumentRoundTrip(r);
    CarrierFields(protectedBytes);
  }

  /** What decodes is a record that encoding accepts, and fails to store only by platform or size. */
  lemma DecodedIsValid(p: Platform, carrier: string)
    ensures var d := Decode(p, carrier);
            d.outcome.StoreOk? <==> d.identity.Some?
    ensures var d := Decode(p, carrier);
            d.outcome.StoreOk? ==> ValidRecord(d.identity.value)
  {
  }

  /** Encoding succeeds exactly for valid records that the platform protects within the size limit. */
  lemma EncodeSucceedsExactly(p: Platform, nonce: nat, r: Record)
    requires Lawful(p)
    ensures var blob := p.protect(nonce, p.dump(Document(r)));
            Encode(p, nonce, r).outcome.StoreOk? <==>
            ValidRecord(r) && blob.Some? && |p.dump(Carrier(blob.value))| <= MAX_CARRIER
  {
    assert ValidRecord(r) ==> p.parse(p.dump(Document(r))) == Some(Document(r));
  }
}
