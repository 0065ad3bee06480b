/**
 * The decoders of the wire codec: first what they accept, as functions of the
 * parsed items, then the calls on a decoding context that compute it.
 */
module Decoder {
  import opened Wrappers
  import opened Bytes
  import opened Cbor
  import opened Credentials
  import Utf8

  //
  // Lookup by label
  //

  datatype Found = Missing | One(item: Item) | Duplicate

  /** The value of an integer label, in any position; a repeated label is an error. */
  function Lookup(items: seq<Item>, key: nat): Found {
    if |items| < 2 then Missing
    else
      var others := Lookup(items[2..], key);
      if items[0] != UInt(key) then others
      else if others.Missing? then One(items[1])
      else Duplicate
  }

  lemma {:induction false} LookupMissing(items: seq<Item>, key: nat)
    requires forall i | 0 <= i < |items| && i % 2 == 0 :: items[i] != UInt(key)
    ensures Lookup(items, key).Missing?
  {
    if |items| >= 2 {
      forall i | 0 <= i < |items[2..]| && i % 2 == 0 ensures items[2..][i] != UInt(key) {
        assert items[2..][i] == items[i + 2];
      }
      LookupMissing(items[2..], key);
    }
  }

  /** A label that occurs once is found with its value. */
  lemma {:induction false} LookupOne(items: seq<Item>, key: nat, at: nat)
    requires at + 1 < |items| && at % 2 == 0 && items[at] == UInt(key)
    requires forall i | 0 <= i < |items| && i % 2 == 0 && i != at :: items[i] != UInt(key)
    ensures Lookup(items, key) == One(items[at + 1])
  {
    var others := items[2..];
    assert forall i | 0 <= i < |others| :: others[i] == items[i + 2];
    if at == 0 {
      LookupMissing(others, key);
    } else {
      LookupOne(others, key, at - 2);
    }
  }

  //
  // What the decoders accept
  //

  function UIntOf(t: Item): Result<u64> {
    if t.UInt? && t.v < 0x1_0000_0000_0000_0000 then Ok(t.v) else CodecError
  }

  function IntOf(t: Item): Result<i64> {
    if t.UInt? && t.v < MAX_NEGATIVE then Ok(t.v)
    else if t.NInt? && t.v < MAX_NEGATIVE then Ok(-1 - t.v)
    else CodecError
  }

  ghost function TextOf(t: Item): Result<seq<byte>> {
    if t.Text? && |t.s| <= MAX_TEXT && Utf8.IsUtf8(t.s) then Ok(t.s) else CodecError
  }

  function BytesOf(t: Item): Result<seq<byte>> {
    if t.Bytes? && |t.s| <= MAX_ARTIFACT then Ok(t.s) else CodecError
  }

  function RequiredItem(items: seq<Item>, key: nat): Result<Item> {
    var found := Lookup(items, key);
    if found.One? then Ok(found.item) else CodecError
  }

  function RequiredUInt(items: seq<Item>, key: nat): Result<u64> {
    var t :- RequiredItem(items, key);
    UIntOf(t)
  }

  function RequiredInt(items: seq<Item>, key: nat): Result<i64> {
    var t :- RequiredItem(items, key);
    IntOf(t)
  }

  ghost function RequiredText(items: seq<Item>, key: nat): Result<seq<byte>> {
    var t :- RequiredItem(items, key);
    TextOf(t)
  }

  function RequiredBytes(items: seq<Item>, key: nat): Result<seq<byte>> {
    var t :- RequiredItem(items, key);
    BytesOf(t)
  }

  function FoundInt(items: seq<Item>, key: nat): Result<Option<i64>> {
    match Lookup(items, key)
    case Missing => Ok(None)
    case One(t) =>
      var v :- IntOf(t);
      Ok(Some(v))
    case Duplicate => CodecError
  }

  ghost function FoundText(items: seq<Item>, key: nat): Result<Option<seq<byte>>> {
    match Lookup(items, key)
    case Missing => Ok(None)
    case One(t) =>
      var s :- TextOf(t);
      Ok(Some(s))
    case Duplicate => CodecError
  }

  /** The items of a definite-length container of the expected type. */
  function ItemsOf(t: Item, isMap: bool): Result<seq<Item>> {
    if isMap && t.Map? && t.definite then Ok(t.items)
    else if !isMap && t.Array? && t.definite then Ok(t.items)
    else CodecError
  }

  function RequiredContainer(items: seq<Item>, key: nat, isMap: bool): Result<seq<Item>> {
    var t :- RequiredItem(items, key);
    ItemsOf(t, isMap)
  }

  ghost function ValidityOf(items: seq<Item>): Result<Validity> {
    var fields :- RequiredContainer(items, 5, true);
    :- Need(1 <= |fields| / 2 <= 3);
    var kind :- RequiredUInt(fields, 1);
    :- Need(1 <= kind <= 2);
    var notBefore :- FoundInt(fields, 2);
    var notAfter :- FoundInt(fields, 3);
    Ok(Validity(kind, notBefore, notAfter))
  }

  ghost function ConstraintOf(items: seq<Item>): Result<u64> {
    var fields :- RequiredContainer(items, 6, true);
    :- Need(|fields| / 2 == 2);
    var kind :- RequiredUInt(fields, 1);
    :- Need(kind == 1);
    RequiredUInt(fields, 2)
  }

  ghost function EntitlementOf(t: Item): Result<Entitlement> {
    var fields :- ItemsOf(t, true);
    :- Need(|fields| / 2 == 5 || |fields| / 2 == 6);
    var id :- RequiredText(fields, 1);
    var productId :- RequiredText(fields, 2);
    var rightKind :- RequiredUInt(fields, 3);
    :- Need(1 <= rightKind <= 3);
    var grantSemantics :- RequiredUInt(fields, 4);
    :- Need(1 <= grantSemantics <= 2);
    var validity :- ValidityOf(fields);
    if |fields| / 2 == 6 then
      var max :- ConstraintOf(fields);
      Ok(Entitlement(id, productId, rightKind, grantSemantics, validity, Some(max)))
    else
      Ok(Entitlement(id, productId, rightKind, grantSemantics, validity, None))
  }

  ghost function EntitlementsOf(ts: seq<Item>): Result<seq<Entitlement>> {
    if ts == [] then Ok([])
    else
      var n := |ts| - 1;
      var es :- EntitlementsOf(ts[..n]);
      var e :- EntitlementOf(ts[n]);
      Ok(es + [e])
  }

  ghost function VersionOf(items: seq<Item>): Result<(u16, u16)> {
    var parts :- RequiredContainer(items, 1, false);
    :- Need(|parts| == 2);
    var major :- UIntOf(parts[0]);
    var minor :- UIntOf(parts[1]);
    :- Need(major <= 0xffff && minor <= 0xffff);
    Ok((major, minor))
  }

  ghost function PayloadOf(t: Item): Result<Credential> { PayloadUpTo(t, MAX_ENTITLEMENTS) }

  /** What a payload means when at most `limit` entitlements are allowed. */
  ghost function PayloadUpTo(t: Item, limit: nat): Result<Credential> {
    var fields :- ItemsOf(t, true);
    :- Need(|fields| / 2 == 9 || |fields| / 2 == 10);
    var version :- VersionOf(fields);
    var credentialId :- RequiredText(fields, 2);
    var licenseGrantId :- RequiredText(fields, 3);
    var authorityRevision :- RequiredUInt(fields, 4);
    var bindingId :- RequiredText(fields, 5);
    var deviceId :- RequiredText(fields, 6);
    var credentialGeneration :- RequiredUInt(fields, 7);
    var issuedAt :- RequiredInt(fields, 8);
    var supersedes :- FoundText(fields, 9);
    var ts :- RequiredContainer(fields, 10, false);
    :- Need(|ts| <= limit);
    var es :- EntitlementsOf(ts);
    Ok(Credential(version.0, version.1, credentialId, licenseGrantId, authorityRevision, bindingId, deviceId,
                  credentialGeneration, issuedAt, supersedes, es))
  }

  ghost function EnvelopeOf(t: Item): Result<Envelope> {
    var fields :- ItemsOf(t, true);
    :- Need(|fields| / 2 == 6);
    var artifactKind :- RequiredUInt(fields, 1);
    var envelopeVersion :- RequiredUInt(fields, 2);
    var algorithmId :- RequiredText(fields, 3);
    var keyId :- RequiredText(fields, 4);
    var payload :- RequiredBytes(fields, 5);
    var signature :- RequiredBytes(fields, 6);
    Ok(Envelope(artifactKind, envelopeVersion, algorithmId, keyId, payload, signature))
  }

  /** At most 512 reported items, none nested more than 8 deep. */
  predicate WithinBounds(ts: seq<Item>) {
    var levels := WalkAll(ts, 0);
    |levels| <= MAX_ITEMS && forall i | 0 <= i < |levels| :: levels[i] <= MAX_DEPTH
  }

  /** The single item of a well-formed input within the structural bounds. */
  function RootOf(bytes: seq<byte>): Result<Item> {
    if bytes == [] || |bytes| > MAX_ARTIFACT then CodecError
    else
      var parsed := ParseSequence(bytes);
      if parsed.Some? && WithinBounds(parsed.value) && |parsed.value| == 1 then Ok(parsed.value[0]) else CodecError
  }

  ghost function DecodedPayload(bytes: seq<byte>): Result<Credential> {
    var t :- RootOf(bytes);
    PayloadOf(t)
  }

  ghost function DecodedEnvelope(bytes: seq<byte>): Result<Envelope> {
    var t :- RootOf(bytes);
    EnvelopeOf(t)
  }

  //
  // The traversal that enforces the structural bounds
  //

  datatype Next = NoMoreItems | Malformed | Reported(level: nat)

  /** A traversal reports every item in order; malformed input ends in an error. */
  class Traversal {
    const levels: seq<nat>
    const wellFormed: bool
    var next: nat

    constructor (bytes: seq<byte>)
      ensures next == 0 && wellFormed == ParseSequence(bytes).Some?
      ensures wellFormed ==> levels == WalkAll(ParseSequence(bytes).value, 0)
    {
      var parsed := ParseSequence(bytes);
      wellFormed := parsed.Some?;
      levels := if parsed.Some? then WalkAll(parsed.value, 0) else [];
      next := 0;
    }

    method GetNext() returns (r: Next)
      requires next <= |levels|
      modifies this`next
      ensures r == if old(next) < |levels| then Reported(levels[old(next)])
                   else if wellFormed then NoMoreItems else Malformed
      ensures next == if old(next) < |levels| then old(next) + 1 else old(next)
    {
      if next < |levels| {
        r := Reported(levels[next]);
        next := next + 1;
      } else {
        r := if wellFormed then NoMoreItems else Malformed;
      }
    }
  }

  method ValidateStructuralBounds(bytes: seq<byte>) returns (r: Outcome)
    ensures r.Pass? <==> ParseSequence(bytes).Some? && WithinBounds(ParseSequence(bytes).value)
  {
    var context := new Traversal(bytes);
    var itemCount := 0;
    while true
      invariant context.next == itemCount <= |context.levels| && itemCount <= MAX_ITEMS
      invariant forall i | 0 <= i < itemCount :: context.levels[i] <= MAX_DEPTH
      decreases |context.levels| - itemCount
    {
      var item := context.GetNext();
      if item.NoMoreItems? {
        break;
      }
      if item.Malformed? {
        return Throw;
      }
      itemCount := itemCount + 1;
      if itemCount > MAX_ITEMS || item.level > MAX_DEPTH {
        return Throw;
      }
    }
    return Pass;
  }

  //
  // The decoding context
  //

  /** An entered container and the position of its next sequential item. */
  datatype Cursor = Cursor(items: seq<Item>, next: nat)

  /** The items of the map that comes next. */
  function NextContainer(top: Cursor): Result<seq<Item>> {
    if top.next < |top.items| then ItemsOf(top.items[top.next], true) else CodecError
  }

  class DecodeContext {
    var stack: seq<Cursor>

    constructor (bytes: seq<byte>)
      requires ParseSequence(bytes).Some?
      ensures stack == [Cursor(ParseSequence(bytes).value, 0)]
    {
      stack := [Cursor(ParseSequence(bytes).value, 0)];
    }

    function Top(): Cursor
      requires stack != []
      reads this
    {
      stack[|stack| - 1]
    }

    /** The position after the next sequential item. */
    ghost function Advanced(): seq<Cursor>
      requires stack != []
      reads this
    {
      stack[..|stack| - 1] + [Top().(next := Top().next + 1)]
    }

    /** The next sequential item of the innermost container. */
    method GetNext() returns (r: Result<Item>)
      requires stack != []
      modifies this
      ensures r == if old(Top()).next < |old(Top()).items| then Ok(old(Top()).items[old(Top()).next]) else CodecError
      ensures r.Ok? ==> stack == old(Advanced())
    {
      var top := Top();
      if top.next >= |top.items| {
        return CodecError;
      }
      r := Ok(top.items[top.next]);
      stack := stack[..|stack| - 1] + [top.(next := top.next + 1)];
    }

    method GetUInt64() returns (r: Result<u64>)
      requires stack != []
      modifies this
      ensures r == if old(Top()).next < |old(Top()).items| then UIntOf(old(Top()).items[old(Top()).next])
                   else CodecError
      ensures r.Ok? ==> stack == old(Advanced())
    {
      var t :- GetNext();
      r := UIntOf(t);
    }

    /** Enters the next sequential item and reports its number of entries. */
    method EnterMap() returns (r: Result<nat>)
      requires stack != []
      modifies this
      ensures var inner := NextContainer(old(Top()));
              r.Ok? == inner.Ok? &&
              (r.Ok? ==> r.value == |inner.value| / 2 && stack == old(Advanced()) + [Cursor(inner.value, 0)])
    {
      var inner :- NextContainer(Top());
      stack := stack[..|stack| - 1] + [Top().(next := Top().next + 1), Cursor(inner, 0)];
      r := Ok(|inner| / 2);
    }

    method ContainerCount(key: nat, isMap: bool) returns (r: Result<nat>)
      requires stack != []
      ensures var inner := RequiredContainer(Top().items, key, isMap);
              r.Ok? == inner.Ok? && (r.Ok? ==> r.value == if isMap then |inner.value| / 2 else |inner.value|)
    {
      var inner :- RequiredContainer(Top().items, key, isMap);
      r := Ok(if isMap then |inner| / 2 else |inner|);
    }

    method EnterFromMapN(key: nat, isMap: bool) returns (r: Outcome)
      requires stack != []
      modifies this
      ensures var inner := RequiredContainer(old(Top()).items, key, isMap);
              r.Pass? == inner.Ok? && (r.Pass? ==> stack == old(stack) + [Cursor(inner.value, 0)])
    {
      var inner := RequiredContainer(Top().items, key, isMap);
      if inner.CodecError? {
        return Throw;
      }
      stack := stack + [Cursor(inner.value, 0)];
      r := Pass;
    }

    method Exit()
      requires |stack| > 1
      modifies this
      ensures stack == old(stack)[..|old(stack)| - 1]
    {
      stack := stack[..|stack| - 1];
    }

    /** Nothing may follow the items that were consumed. */
    method Finish() returns (r: Outcome)
      requires |stack| == 1
      ensures r.Pass? <==> Top().next == |Top().items|
    {
      r := Need(Top().next == |Top().items|);
    }
  }

  method CopyText(t: Item) returns (r: Result<seq<byte>>)
    ensures r == TextOf(t)
  {
    if !t.Text? || |t.s| > MAX_TEXT {
      return CodecError;
    }
    if t.s == [] {
      Utf8.EmptyIsUtf8();
      return Ok([]);
    }
    var valid := Utf8.ValidUtf8(t.s);
    return if valid then Ok(t.s) else CodecError;
  }

  method GetText(context: DecodeContext, key: nat) returns (r: Result<seq<byte>>)
    requires context.stack != []
    ensures r == RequiredText(context.Top().items, key)
  {
    var t :- RequiredItem(context.Top().items, key);
    r := CopyText(t);
  }

  method GetOptionalText(context: DecodeContext, key: nat) returns (r: Result<Option<seq<byte>>>)
    requires context.stack != []
    ensures r == FoundText(context.Top().items, key)
  {
    var found := Lookup(context.Top().items, key);
    if found.Missing? {
      return Ok(None);
    }
    if found.Duplicate? {
      return CodecError;
    }
    var s :- CopyText(found.item);
    r := Ok(Some(s));
  }

  method DecodeValidity(context: DecodeContext) returns (r: Result<Validity>)
    requires context.stack != []
    modifies context
    ensures r == ValidityOf(old(context.Top()).items)
    ensures r.Ok? ==> context.stack == old(context.stack)
  {
    var fieldCount :- context.ContainerCount(5, true);
    if fieldCount < 1 || fieldCount > 3 {
      return CodecError;
    }
    var entered := context.EnterFromMapN(5, true);
    assert entered.Pass?;
    var kind :- RequiredUInt(context.Top().items, 1);
    if kind < 1 || kind > 2 {
      return CodecError;
    }
    var notBefore :- FoundInt(context.Top().items, 2);
    var notAfter :- FoundInt(context.Top().items, 3);
    context.Exit();
    r := Ok(Validity(kind, notBefore, notAfter));
  }

  method DecodeEntitlement(context: DecodeContext) returns (r: Result<Entitlement>)
    requires context.stack != [] && context.Top().next < |context.Top().items|
    modifies context
    ensures r == EntitlementOf(old(context.Top()).items[old(context.Top()).next])
    ensures r.Ok? ==> context.stack == old(context.Advanced())
  {
    var count :- context.EnterMap();
    if count != 5 && count != 6 {
      return CodecError;
    }
    var id :- GetText(context, 1);
    var productId :- GetText(context, 2);
    var rightKind :- RequiredUInt(context.Top().items, 3);
    if rightKind < 1 || rightKind > 3 {
      return CodecError;
    }
    var grantSemantics :- RequiredUInt(context.Top().items, 4);
    if grantSemantics < 1 || grantSemantics > 2 {
      return CodecError;
    }
    var validity :- DecodeValidity(context);
    var maxU64: Option<u64> := None;
    if count == 6 {
      var constraintCount :- context.ContainerCount(6, true);
      if constraintCount != 2 {
        return CodecError;
      }
      var entered := context.EnterFromMapN(6, true);
      assert entered.Pass?;
      var kind :- RequiredUInt(context.Top().items, 1);
      if kind != 1 {
        return CodecError;
      }
      var max :- RequiredUInt(context.Top().items, 2);
      maxU64 := Some(max);
      context.Exit();
    }
    context.Exit();
    r := Ok(Entitlement(id, productId, rightKind, grantSemantics, validity, maxU64));
  }

  method DecodeEntitlements(context: DecodeContext, count: nat) returns (r: Result<seq<Entitlement>>)
    requires context.stack != [] && context.Top().next == 0 && |context.Top().items| == count
    modifies context
    ensures r == EntitlementsOf(old(context.Top()).items)
    ensures r.Ok? ==> |context.stack| == |old(context.stack)|
                      && context.stack[..|context.stack| - 1] == old(context.stack)[..|context.stack| - 1]
  {
    ghost var outer, items := context.stack[..|context.stack| - 1], context.Top().items;
    var es: seq<Entitlement> := [];
    for index := 0 to count
      invariant context.stack == outer + [Cursor(items, index)]
      invariant EntitlementsOf(items[..index]) == Ok(es)
    {
      assert items[..index + 1][..index] == items[..index];
      var e := DecodeEntitlement(context);
      if e.CodecError? {
        ErrorStays(items, index + 1);
        return CodecError;
      }
      es := es + [e.value];
    }
    assert items[..count] == items;
    r := Ok(es);
  }

  lemma {:induction false} ErrorStays(ts: seq<Item>, n: nat)
    requires n <= |ts| && EntitlementsOf(ts[..n]).CodecError?
    ensures EntitlementsOf(ts).CodecError?
    decreases |ts|
  {
    if n == |ts| {
      assert ts[..n] == ts;
    } else {
      assert ts[..|ts| - 1][..n] == ts[..n];
      ErrorStays(ts[..|ts| - 1], n);
    }
  }

  method DecodePayload(bytes: seq<byte>) returns (r: Result<Credential>)
    ensures r == DecodedPayload(bytes)
  {
    if bytes == [] || |bytes| > MAX_ARTIFACT {
      return CodecError;
    }
    :- ValidateStructuralBounds(bytes);
    var context := new DecodeContext(bytes);
    r := DecodeRoot(context);
  }

  method DecodeVersion(context: DecodeContext) returns (r: Result<(u16, u16)>)
    requires context.stack != []
    modifies context
    ensures r == VersionOf(old(context.Top()).items)
    ensures r.Ok? ==> context.stack == old(context.stack)
  {
    hide Lookup;
    var versionCount :- context.ContainerCount(1, false);
    if versionCount != 2 {
      return CodecError;
    }
    var entered := context.EnterFromMapN(1, false);
    assert entered.Pass?;
    var major :- context.GetUInt64();
    var minor :- context.GetUInt64();
    context.Exit();
    if major > 0xffff || minor > 0xffff {
      return CodecError;
    }
    r := Ok((major, minor));
  }

  method DecodeRoot(context: DecodeContext) returns (r: Result<Credential>)
    requires |context.stack| == 1 && context.Top().next == 0
    modifies context
    ensures r == if |old(context.Top()).items| == 1 then PayloadOf(old(context.Top()).items[0]) else CodecError
  {
    hide RequiredUInt, RequiredInt, RequiredText, FoundText, RequiredContainer, VersionOf, EntitlementsOf;
    var count :- context.EnterMap();
    if count != 9 && count != 10 {
      return CodecError;
    }
    var version :- DecodeVersion(context);
    var credentialId :- GetText(context, 2);
    var licenseGrantId :- GetText(context, 3);
    var authorityRevision :- RequiredUInt(context.Top().items, 4);
    var bindingId :- GetText(context, 5);
    var deviceId :- GetText(context, 6);
    var credentialGeneration :- RequiredUInt(context.Top().items, 7);
    var issuedAt :- RequiredInt(context.Top().items, 8);
    var supersedes :- GetOptionalText(context, 9);
    var entitlementCount :- context.ContainerCount(10, false);
    if entitlementCount > MAX_ENTITLEMENTS {
      return CodecError;
    }
    var entered := context.EnterFromMapN(10, false);
    assert entered.Pass?;
    var es :- DecodeEntitlements(context, entitlementCount);
    context.Exit();
    context.Exit();
    :- context.Finish();
    r := Ok(Credential(version.0, version.1, credentialId, licenseGrantId, authorityRevision, bindingId, deviceId,
                       credentialGeneration, issuedAt, supersedes, es));
  }

  method DecodeEnvelope(bytes: seq<byte>) returns (r: Result<Envelope>)
    ensures r == DecodedEnvelope(bytes)
  {
    if bytes == [] || |bytes| > MAX_ARTIFACT {
      return CodecError;
    }
    :- ValidateStructuralBounds(bytes);
    hide RequiredUInt, RequiredText, RequiredBytes, WithinBounds;
    var context := new DecodeContext(bytes);
    var count :- context.EnterMap();
    if count != 6 {
      return CodecError;
    }
    var artifactKind :- RequiredUInt(context.Top().items, 1);
    var envelopeVersion :- RequiredUInt(context.Top().items, 2);
    var algorithmId :- GetText(context, 3);
    var keyId :- GetText(context, 4);
    var payload :- RequiredBytes(context.Top().items, 5);
    var signature :- RequiredBytes(context.Top().items, 6);
    context.Exit();
    :- context.Finish();
    r := Ok(Envelope(artifactKind, envelopeVersion, algorithmId, keyId, payload, signature));
  }
}
