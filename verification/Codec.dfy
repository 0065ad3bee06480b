/**
 * What the encoders and decoders are to each other: exact round trips, the
 * canonical form that the re-encoding gates accept, and exact item counts.
 */
module Codec {
  import opened Wrappers
  import opened Bytes
  import opened Cbor
  import opened Credentials
  import opened Decoder
  import Encoder

  //
  // Maps built one field at a time
  //

  /** Integer labels in strictly ascending order, all below `bound`. */
  predicate Labelled(items: seq<Item>, bound: nat) {
    |items| % 2 == 0 &&
    (forall i | 0 <= i < |items| && i % 2 == 0 :: items[i].UInt? && items[i].v < bound) &&
    (forall i, j | 0 <= i < j < |items| && i % 2 == 0 && j % 2 == 0 :: items[i].v < items[j].v)
  }

  lemma {:induction false} LookupOfAppend(items: seq<Item>, key: nat, value: Item, other: nat)
    requires |items| % 2 == 0 && Lookup(items, key).Missing?
    ensures Lookup(items + Field(key, value), other) == if other == key then One(value) else Lookup(items, other)
  {
    if items == [] {
      assert items + Field(key, value) == Field(key, value);
      assert Field(key, value)[2..] == [];
    } else {
      assert (items + Field(key, value))[2..] == items[2..] + Field(key, value);
      LookupOfAppend(items[2..], key, value, other);
    }
  }

  lemma {:induction false} WalkEntriesConcat(xs: seq<Item>, ys: seq<Item>, level: nat)
    requires |xs| % 2 == 0
    ensures WalkEntries(xs + ys, level) == WalkEntries(xs, level) + WalkEntries(ys, level)
  {
    if xs == [] {
      assert xs + ys == ys;
    } else {
      assert (xs + ys)[2..] == xs[2..] + ys;
      WalkEntriesConcat(xs[2..], ys, level);
    }
  }

  lemma WalkOfField(items: seq<Item>, key: nat, value: Item, level: nat)
    requires |items| % 2 == 0
    ensures WalkEntries(items + Field(key, value), level) == WalkEntries(items, level) + Walk(value, level)
  {
    WalkEntriesConcat(items, Field(key, value), level);
    assert Field(key, value)[2..] == [];
    assert WalkEntries(Field(key, value), level) == Walk(value, level) + [];
  }

  //
  // Which trees read back
  //

  /** Definite lengths, 64-bit numbers and legal labels; string lengths are free. */
  predicate Shaped(t: Item)
    decreases t
  {
    match t
    case UInt(v) => v < 0x1_0000_0000_0000_0000
    case NInt(v) => v < MAX_NEGATIVE
    case Bytes(_) => true
    case Text(_) => true
    case Array(definite, items) => definite && ShapedAll(items)
    case Map(definite, items) => definite && LabelsOk(items) && ShapedAll(items)
    case Other => false
  }

  predicate ShapedAll(ts: seq<Item>)
    decreases ts
  {
    ts == [] || (Shaped(ts[0]) && ShapedAll(ts[1..]))
  }

  /** Nothing in a short encoding is long. */
  lemma {:induction false} ShortIsPlain(t: Item)
    requires Shaped(t) && |Enc(t)| <= MAX_ARTIFACT
    ensures Plain(t)
    decreases t
  {
    match t
    case Array(_, items) =>
      EncAllLength(items);
      ShortAllPlain(items);
    case Map(_, items) =>
      EncAllLength(items);
      ShortAllPlain(items);
    case _ =>
  }

  lemma {:induction false} ShortAllPlain(ts: seq<Item>)
    requires ShapedAll(ts) && |EncAll(ts)| <= MAX_ARTIFACT
    ensures PlainAll(ts)
    decreases ts
  {
    if ts != [] {
      ShortIsPlain(ts[0]);
      ShortAllPlain(ts[1..]);
    }
  }

  lemma {:induction false} ShapedConcat(xs: seq<Item>, ys: seq<Item>)
    ensures ShapedAll(xs + ys) <==> ShapedAll(xs) && ShapedAll(ys)
    ensures KeysSortedAll(xs + ys) <==> KeysSortedAll(xs) && KeysSortedAll(ys)
  {
    if xs == [] {
      assert xs + ys == ys;
    } else {
      assert (xs + ys)[1..] == xs[1..] + ys;
      ShapedConcat(xs[1..], ys);
    }
  }

  lemma SmallLabelsAscend(j: nat, k: nat)
    requires j < k < 24
    ensures LexLess(Enc(UInt(j)), Enc(UInt(k)))
  {
  }

  /** Fields with small ascending labels and regular values. */
  predicate Fields(items: seq<Item>, bound: nat) {
    bound <= 24 && Labelled(items, bound) && ShapedAll(items) && KeysSortedAll(items)
  }

  predicate Regular(t: Item) { Shaped(t) && KeysSorted(t) }

  lemma FieldsAreRegular(items: seq<Item>, bound: nat)
    requires Fields(items, bound)
    ensures Regular(Map(true, items))
  {
    forall i, j | 0 <= i < j < |items| && i % 2 == 0 && j % 2 == 0 ensures LexLess(Enc(items[i]), Enc(items[j])) {
      SmallLabelsAscend(items[i].v, items[j].v);
    }
  }

  /** One more field with a larger label. */
  lemma AppendField(items: seq<Item>, key: nat, value: Item)
    requires Fields(items, key) && key < 24 && Regular(value)
    ensures Fields(items + Field(key, value), key + 1)
    ensures forall other :: Lookup(items + Field(key, value), other)
                         == if other == key then One(value) else Lookup(items, other)
  {
    LookupMissing(items, key);
    forall other
      ensures Lookup(items + Field(key, value), other) == if other == key then One(value) else Lookup(items, other)
    {
      LookupOfAppend(items, key, value, other);
    }
    ShapedConcat(items, Field(key, value));
    FieldIsShaped(key, value);
  }

  lemma FieldIsShaped(key: nat, value: Item)
    requires key < 24 && Regular(value)
    ensures ShapedAll(Field(key, value)) && KeysSortedAll(Field(key, value))
  {
    var f := Field(key, value);
    assert f[1..] == [value] && [value][1..] == [];
    assert ShapedAll([]) && KeysSortedAll([]);
    assert ShapedAll([value]) && KeysSortedAll([value]);
    assert Shaped(f[0]) && KeysSorted(f[0]);
  }

  lemma NoFields(bound: nat)
    requires bound <= 24
    ensures Fields([], bound)
  {
  }

  lemma IntItemFacts(x: i64)
    ensures Regular(IntItem(x)) && IntOf(IntItem(x)) == Ok(x)
    ensures forall level: nat :: Walk(IntItem(x), level) == [level]
  {
  }

  //
  // The parts of a payload
  //

  predicate AtMost(levels: seq<nat>, limit: nat) {
    forall i | 0 <= i < |levels| :: levels[i] <= limit
  }

  function Bit(b: bool): nat { if b then 1 else 0 }

  lemma AppendOptionalInt(items: seq<Item>, key: nat, x: Option<i64>)
    requires Fields(items, key) && key < 24
    ensures Fields(items + OptionalInt(key, x), key + 1)
    ensures forall other :: Lookup(items + OptionalInt(key, x), other)
                         == if other == key && x.Some? then One(IntItem(x.value)) else Lookup(items, other)
    ensures FoundInt(items + OptionalInt(key, x), key) == Ok(x)
  {
    if x.Some? {
      IntItemFacts(x.value);
      AppendField(items, key, IntItem(x.value));
    } else {
      assert items + [] == items;
      LookupMissing(items, key);
    }
  }

  lemma ValidityFacts(v: Validity)
    ensures Regular(ValidityTree(v)) && ValidityTree(v).Map? && ValidityTree(v).definite
    ensures var items := ValidityTree(v).items;
            |items| == 2 * (1 + Bit(v.notBefore.Some?) + Bit(v.notAfter.Some?))
            && RequiredUInt(items, 1) == Ok(v.kind)
            && FoundInt(items, 2) == Ok(v.notBefore) && FoundInt(items, 3) == Ok(v.notAfter)
  {
    var one := Field(1, UInt(v.kind));
    assert [] + one == one;
    NoFields(1);
    AppendField([], 1, UInt(v.kind));
    var two := one + OptionalInt(2, v.notBefore);
    AppendOptionalInt(one, 2, v.notBefore);
    AppendOptionalInt(two, 3, v.notAfter);
    FieldsAreRegular(two + OptionalInt(3, v.notAfter), 4);
  }

  lemma ConstraintFacts(max: u64)
    ensures Regular(ConstraintTree(max)) && ConstraintTree(max).Map? && ConstraintTree(max).definite
    ensures var items := ConstraintTree(max).items;
            |items| == 4 && RequiredUInt(items, 1) == Ok(1) && RequiredUInt(items, 2) == Ok(max)
  {
    var one := Field(1, UInt(1));
    assert [] + one == one;
    NoFields(1);
    AppendField([], 1, UInt(1));
    AppendField(one, 2, UInt(max));
    FieldsAreRegular(one + Field(2, UInt(max)), 3);
  }

  ghost predicate TextOk(s: seq<byte>) { |s| <= MAX_TEXT && Utf8.IsUtf8(s) }

  /** Valid text and known enumeration values. */
  ghost predicate EntitlementOk(e: Entitlement) {
    TextOk(e.id) && TextOk(e.productId) && 1 <= e.rightKind <= 3 && 1 <= e.grantSemantics <= 2
    && 1 <= e.validity.kind <= 2
  }

  function FirstFive(e: Entitlement): seq<Item> {
    Field(1, Text(e.id)) + Field(2, Text(e.productId)) + Field(3, UInt(e.rightKind))
    + Field(4, UInt(e.grantSemantics)) + Field(5, ValidityTree(e.validity))
  }

  lemma FirstFiveFacts(e: Entitlement)
    ensures Fields(FirstFive(e), 6) && |FirstFive(e)| == 10
    ensures var items := FirstFive(e);
            Lookup(items, 1) == One(Text(e.id)) && Lookup(items, 2) == One(Text(e.productId))
            && Lookup(items, 3) == One(UInt(e.rightKind)) && Lookup(items, 4) == One(UInt(e.grantSemantics))
            && Lookup(items, 5) == One(ValidityTree(e.validity)) && Lookup(items, 6).Missing?
  {
    hide Fields, Lookup, ValidityTree, Regular;
    var one := Field(1, Text(e.id));
    assert [] + one == one;
    NoFields(1);
    LeavesAreRegular(e.id, e.rightKind);
    LeavesAreRegular(e.productId, e.grantSemantics);
    AppendField([], 1, Text(e.id));
    var two := one + Field(2, Text(e.productId));
    AppendField(one, 2, Text(e.productId));
    var three := two + Field(3, UInt(e.rightKind));
    AppendField(two, 3, UInt(e.rightKind));
    var four := three + Field(4, UInt(e.grantSemantics));
    AppendField(three, 4, UInt(e.grantSemantics));
    ValidityFacts(e.validity);
    AppendField(four, 5, ValidityTree(e.validity));
    FieldsLookBeyond(FirstFive(e), 6);
  }

  lemma LeavesAreRegular(s: seq<byte>, v: u64)
    ensures Regular(Text(s)) && Regular(Bytes(s)) && Regular(UInt(v))
  {
  }

  lemma FieldsLookBeyond(items: seq<Item>, key: nat)
    requires Fields(items, key)
    ensures Lookup(items, key).Missing?
  {
    LookupMissing(items, key);
  }

  /** An entitlement reads back exactly when its text and enumerations are legal. */
  lemma EntitlementFacts(e: Entitlement)
    ensures Regular(EntitlementTree(e))
    ensures EntitlementOf(EntitlementTree(e)) == if EntitlementOk(e) then Ok(e) else CodecError
  {
    hide Fields, Lookup, ValidityTree, ConstraintTree;
    FirstFiveFacts(e);
    var items := EntitlementTree(e).items;
    if e.maxU64.Some? {
      ConstraintFacts(e.maxU64.value);
      AppendField(FirstFive(e), 6, ConstraintTree(e.maxU64.value));
      FieldsAreRegular(items, 7);
    } else {
      assert items == FirstFive(e);
      FieldsAreRegular(items, 6);
    }
    ValidityFacts(e.validity);
    assert ValidityOf(items) == if 1 <= e.validity.kind <= 2 then Ok(e.validity) else CodecError;
    assert e.maxU64.Some? ==> ConstraintOf(items) == Ok(e.maxU64.value);
  }

  lemma {:induction false} EntitlementsFacts(es: seq<Entitlement>)
    ensures ShapedAll(EntitlementTrees(es)) && KeysSortedAll(EntitlementTrees(es))
    ensures EntitlementsOf(EntitlementTrees(es))
         == if forall i | 0 <= i < |es| :: EntitlementOk(es[i]) then Ok(es) else CodecError
  {
    hide EntitlementTree, EntitlementOf, EntitlementOk, Shaped, KeysSorted, Enc, Walk;
    if es != [] {
      var n := |es| - 1;
      EntitlementsFacts(es[..n]);
      assert es == es[..n] + [es[n]];
      Encoder.EntitlementTreesSnoc(es[..n], es[n]);
      EntitlementFacts(es[n]);
      var ts := EntitlementTrees(es[..n]);
      assert EntitlementTrees(es)[..n] == ts;
      ShapedConcat(ts, [EntitlementTree(es[n])]);
      assert forall i | 0 <= i < n :: es[i] == es[..n][i];
    }
  }

  lemma PairIsRegular(x: u64, y: u64)
    ensures Regular(Array(true, [UInt(x), UInt(y)]))
  {
    assert [UInt(x), UInt(y)] == [UInt(x)] + [UInt(y)];
    ShapedConcat([UInt(x)], [UInt(y)]);
    assert forall t: Item :: [t][1..] == [];
  }

  function FirstFour(c: Credential): seq<Item> {
    Field(1, Array(true, [UInt(c.schemaMajor), UInt(c.schemaMinor)]))
    + Field(2, Text(c.credentialId)) + Field(3, Text(c.licenseGrantId)) + Field(4, UInt(c.authorityRevision))
  }

  lemma FirstFourFacts(c: Credential)
    ensures Fields(FirstFour(c), 5)
    ensures var items := FirstFour(c);
            Lookup(items, 1) == One(Array(true, [UInt(c.schemaMajor), UInt(c.schemaMinor)]))
            && Lookup(items, 2) == One(Text(c.credentialId)) && Lookup(items, 3) == One(Text(c.licenseGrantId))
            && Lookup(items, 4) == One(UInt(c.authorityRevision))
  {
    hide Fields, Lookup;
    var version := Array(true, [UInt(c.schemaMajor), UInt(c.schemaMinor)]);
    PairIsRegular(c.schemaMajor, c.schemaMinor);
    LeavesAreRegular(c.credentialId, c.authorityRevision);
    LeavesAreRegular(c.licenseGrantId, 0);
    hide Regular;
    var one := Field(1, version);
    assert [] + one == one;
    NoFields(1);
    AppendField([], 1, version);
    var two := one + Field(2, Text(c.credentialId));
    AppendField(one, 2, Text(c.credentialId));
    var three := two + Field(3, Text(c.licenseGrantId));
    AppendField(two, 3, Text(c.licenseGrantId));
    AppendField(three, 4, UInt(c.authorityRevision));
  }

  lemma HeadFacts(c: Credential)
    ensures Fields(PayloadHead(c), 9)
    ensures var items := PayloadHead(c);
            Lookup(items, 1) == One(Array(true, [UInt(c.schemaMajor), UInt(c.schemaMinor)]))
            && Lookup(items, 2) == One(Text(c.credentialId)) && Lookup(items, 3) == One(Text(c.licenseGrantId))
            && Lookup(items, 4) == One(UInt(c.authorityRevision)) && Lookup(items, 5) == One(Text(c.bindingId))
            && Lookup(items, 6) == One(Text(c.deviceId)) && Lookup(items, 7) == One(UInt(c.credentialGeneration))
            && Lookup(items, 8) == One(IntItem(c.issuedAt)) && Lookup(items, 9).Missing?
  {
    hide Fields, Lookup;
    FirstFourFacts(c);
    LeavesAreRegular(c.bindingId, c.credentialGeneration);
    LeavesAreRegular(c.deviceId, 0);
    IntItemFacts(c.issuedAt);
    hide Regular;
    var five := FirstFour(c) + Field(5, Text(c.bindingId));
    AppendField(FirstFour(c), 5, Text(c.bindingId));
    var six := five + Field(6, Text(c.deviceId));
    AppendField(five, 6, Text(c.deviceId));
    var seven := six + Field(7, UInt(c.credentialGeneration));
    AppendField(six, 7, UInt(c.credentialGeneration));
    AppendField(seven, 8, IntItem(c.issuedAt));
    assert PayloadHead(c) == seven + Field(8, IntItem(c.issuedAt));
    FieldsLookBeyond(PayloadHead(c), 9);
  }

  /** Valid text and legal enumerations throughout, and not too many entitlements. */
  ghost predicate FieldsOk(c: Credential) {
    TextOk(c.credentialId) && TextOk(c.licenseGrantId) && TextOk(c.bindingId) && TextOk(c.deviceId)
    && (c.supersedes.Some? ==> TextOk(c.supersedes.value))
    && |c.entitlements| <= MAX_ENTITLEMENTS
    && forall i | 0 <= i < |c.entitlements| :: EntitlementOk(c.entitlements[i])
  }

  lemma PayloadItems(c: Credential)
    ensures var items := PayloadTree(c).items;
            Fields(items, 11) && |items| == 18 + 2 * Bit(c.supersedes.Some?)
            && (forall key | 1 <= key <= 8 :: Lookup(items, key) == Lookup(PayloadHead(c), key))
            && Lookup(items, 9) == (if c.supersedes.Some? then One(Text(c.supersedes.value)) else Missing)
            && Lookup(items, 10) == One(Array(true, EntitlementTrees(c.entitlements)))
  {
    hide Lookup, PayloadHead, EntitlementTrees;
    HeadFacts(c);
    EntitlementsFacts(c.entitlements);
    var nine := PayloadHead(c) + PayloadSupersedes(c);
    if c.supersedes.Some? {
      LeavesAreRegular(c.supersedes.value, 0);
      AppendField(PayloadHead(c), 9, Text(c.supersedes.value));
    } else {
      assert nine == PayloadHead(c);
    }
    assert Fields(nine, 10);
    AppendField(nine, 10, Array(true, EntitlementTrees(c.entitlements)));
  }

  /** A payload reads back exactly when its text and enumerations are legal. */
  lemma PayloadFacts(c: Credential)
    ensures Regular(PayloadTree(c))
    ensures PayloadOf(PayloadTree(c)) == if FieldsOk(c) then Ok(c) else CodecError
  {
    hide Lookup, Fields, Regular, EntitlementOk, PayloadHead, EntitlementTrees, EntitlementsOf, TextOf;
    PayloadItems(c);
    HeadFacts(c);
    var items := PayloadTree(c).items;
    FieldsAreRegular(items, 11);
    EntitlementsFacts(c.entitlements);
    IntItemFacts(c.issuedAt);
    assert VersionOf(items) == Ok((c.schemaMajor, c.schemaMinor));
    TextReadsBack(items, 2, c.credentialId);
    TextReadsBack(items, 3, c.licenseGrantId);
    TextReadsBack(items, 5, c.bindingId);
    TextReadsBack(items, 6, c.deviceId);
    assert FoundText(items, 9)
        == if c.supersedes.None? then Ok(None)
           else if TextOk(c.supersedes.value) then Ok(Some(c.supersedes.value)) else CodecError by {
      if c.supersedes.Some? { TextReadsBack(items, 9, c.supersedes.value); }
    }
  }

  lemma TextReadsBack(items: seq<Item>, key: nat, s: seq<byte>)
    requires Lookup(items, key) == One(Text(s))
    ensures TextOf(Text(s)) == if TextOk(s) then Ok(s) else CodecError
    ensures RequiredText(items, key) == if TextOk(s) then Ok(s) else CodecError
  {
  }

  //
  // Exact item counts
  //

  /** The number of items a traversal reports for one entitlement. */
  function EntitlementItems(e: Entitlement): nat {
    7 + Bit(e.validity.notBefore.Some?) + Bit(e.validity.notAfter.Some?) + 3 * Bit(e.maxU64.Some?)
  }

  function EntitlementsItems(es: seq<Entitlement>): nat {
    if es == [] then 0 else EntitlementItems(es[0]) + EntitlementsItems(es[1..])
  }

  /** The number of items a traversal reports for a payload. */
  function PayloadItemCount(c: Credential): nat {
    12 + Bit(c.supersedes.Some?) + EntitlementsItems(c.entitlements)
  }

  lemma WalkOfOptionalInt(items: seq<Item>, key: nat, x: Option<i64>, level: nat)
    requires |items| % 2 == 0
    ensures WalkEntries(items + OptionalInt(key, x), level)
         == WalkEntries(items, level) + if x.Some? then [level] else []
  {
    if x.Some? {
      WalkOfField(items, key, IntItem(x.value), level);
    } else {
      assert items + [] == items;
    }
  }

  lemma ValidityWalk(v: Validity, level: nat)
    ensures var w := Walk(ValidityTree(v), level);
            |w| == 2 + Bit(v.notBefore.Some?) + Bit(v.notAfter.Some?) && AtMost(w, level + 1)
  {
    var one := Field(1, UInt(v.kind));
    assert [] + one == one;
    WalkOfField([], 1, UInt(v.kind), level + 1);
    WalkOfOptionalInt(one, 2, v.notBefore, level + 1);
    WalkOfOptionalInt(one + OptionalInt(2, v.notBefore), 3, v.notAfter, level + 1);
  }

  /** The entries report `n` items, none nested deeper than `limit`. */
  predicate Walks(items: seq<Item>, level: nat, n: nat, limit: nat) {
    |items| % 2 == 0 && |WalkEntries(items, level)| == n && AtMost(WalkEntries(items, level), limit)
  }

  lemma FieldWalks(items: seq<Item>, key: nat, value: Item, level: nat, n: nat, limit: nat)
    requires Walks(items, level, n, limit) && AtMost(Walk(value, level), limit)
    ensures Walks(items + Field(key, value), level, n + |Walk(value, level)|, limit)
  {
    WalkOfField(items, key, value, level);
    hide Walk, WalkEntries;
  }

  lemma LeafWalks(items: seq<Item>, key: nat, value: Item, level: nat, n: nat, limit: nat)
    requires Walks(items, level, n, limit) && !value.Array? && !value.Map? && level <= limit
    ensures Walks(items + Field(key, value), level, n + 1, limit)
  {
    FieldWalks(items, key, value, level, n, limit);
  }

  lemma NothingWalks(level: nat, limit: nat)
    ensures Walks([], level, 0, limit)
  {
  }

  lemma MapWalks(items: seq<Item>, level: nat, n: nat, limit: nat)
    requires Walks(items, level + 1, n, limit) && level <= limit
    ensures |Walk(Map(true, items), level)| == n + 1 && AtMost(Walk(Map(true, items), level), limit)
  {
    assert Walk(Map(true, items), level) == [level] + WalkEntries(items, level + 1);
  }

  lemma EntitlementWalk(e: Entitlement, level: nat)
    ensures var w := Walk(EntitlementTree(e), level);
            |w| == EntitlementItems(e) && AtMost(w, level + 2)
  {
    hide Walk, Walks, ValidityTree, ConstraintTree, AtMost;
    var inner, limit := level + 1, level + 2;
    NothingWalks(inner, limit);
    var one := Field(1, Text(e.id));
    assert [] + one == one;
    LeafWalks([], 1, Text(e.id), inner, 0, limit);
    var two := one + Field(2, Text(e.productId));
    LeafWalks(one, 2, Text(e.productId), inner, 1, limit);
    var three := two + Field(3, UInt(e.rightKind));
    LeafWalks(two, 3, UInt(e.rightKind), inner, 2, limit);
    var four := three + Field(4, UInt(e.grantSemantics));
    LeafWalks(three, 4, UInt(e.grantSemantics), inner, 3, limit);
    ValidityWalk(e.validity, inner);
    var five := four + Field(5, ValidityTree(e.validity));
    FieldWalks(four, 5, ValidityTree(e.validity), inner, 4, limit);
    var n := 4 + |Walk(ValidityTree(e.validity), inner)|;
    if e.maxU64.Some? {
      ConstraintWalk(e.maxU64.value, inner);
      FieldWalks(five, 6, ConstraintTree(e.maxU64.value), inner, n, limit);
      MapWalks(five + Field(6, ConstraintTree(e.maxU64.value)), level, n + 3, limit);
    } else {
      assert five + [] == five;
      MapWalks(five, level, n, limit);
    }
  }

  lemma ConstraintWalk(max: u64, level: nat)
    ensures Walk(ConstraintTree(max), level) == [level, level + 1, level + 1]
    ensures AtMost(Walk(ConstraintTree(max), level), level + 1)
  {
    var one := Field(1, UInt(1));
    assert [] + one == one;
    WalkOfField([], 1, UInt(1), level + 1);
    WalkOfField(one, 2, UInt(max), level + 1);
  }

  lemma {:induction false} EntitlementsWalk(es: seq<Entitlement>, level: nat)
    ensures var w := WalkAll(EntitlementTrees(es), level);
            |w| == EntitlementsItems(es) && AtMost(w, level + 2)
  {
    hide EntitlementTree;
    if es != [] {
      EntitlementWalk(es[0], level);
      EntitlementsWalk(es[1..], level);
      assert EntitlementTrees(es)[1..] == EntitlementTrees(es[1..]);
    }
  }

  lemma PairWalk(x: u64, y: u64, level: nat)
    ensures Walk(Array(true, [UInt(x), UInt(y)]), level) == [level, level + 1, level + 1]
    ensures AtMost(Walk(Array(true, [UInt(x), UInt(y)]), level), level + 2)
  {
    var items := [UInt(x), UInt(y)];
    assert items[1..] == [UInt(y)] && [UInt(y)][1..] == [];
    assert WalkAll([UInt(y)], level + 1) == [level + 1] + WalkAll([], level + 1);
    assert WalkAll(items, level + 1) == [level + 1] + WalkAll([UInt(y)], level + 1);
  }

  lemma HeadWalk(c: Credential, level: nat)
    ensures Walks(PayloadHead(c), level, 10, level + 2)
  {
    hide Walk, Walks, AtMost;
    var limit := level + 2;
    NothingWalks(level, limit);
    var version := Array(true, [UInt(c.schemaMajor), UInt(c.schemaMinor)]);
    PairWalk(c.schemaMajor, c.schemaMinor, level);
    var one := Field(1, version);
    assert [] + one == one;
    FieldWalks([], 1, version, level, 0, limit);
    var two := one + Field(2, Text(c.credentialId));
    LeafWalks(one, 2, Text(c.credentialId), level, 3, limit);
    var three := two + Field(3, Text(c.licenseGrantId));
    LeafWalks(two, 3, Text(c.licenseGrantId), level, 4, limit);
    var four := three + Field(4, UInt(c.authorityRevision));
    LeafWalks(three, 4, UInt(c.authorityRevision), level, 5, limit);
    var five := four + Field(5, Text(c.bindingId));
    LeafWalks(four, 5, Text(c.bindingId), level, 6, limit);
    var six := five + Field(6, Text(c.deviceId));
    LeafWalks(five, 6, Text(c.deviceId), level, 7, limit);
    var seven := six + Field(7, UInt(c.credentialGeneration));
    LeafWalks(six, 7, UInt(c.credentialGeneration), level, 8, limit);
    LeafWalks(seven, 8, IntItem(c.issuedAt), level, 9, limit);
    assert PayloadHead(c) == seven + Field(8, IntItem(c.issuedAt));
  }

  /** The exact number of items of a payload; nesting stays below the limit. */
  lemma PayloadWalk(c: Credential)
    ensures var w := Walk(PayloadTree(c), 0);
            |w| == PayloadItemCount(c) && AtMost(w, 4)
  {
    hide PayloadHead, EntitlementTrees, Enc, EncAll, EntitlementsItems, Walk, WalkAll, Walks, AtMost;
    HeadWalk(c, 1);
    WiderWalks(PayloadHead(c), 1, 10, 3, 4);
    var nine := PayloadHead(c) + PayloadSupersedes(c);
    var n := 10 + Bit(c.supersedes.Some?);
    if c.supersedes.Some? {
      LeafWalks(PayloadHead(c), 9, Text(c.supersedes.value), 1, 10, 4);
    } else {
      assert nine == PayloadHead(c);
    }
    var list := Array(true, EntitlementTrees(c.entitlements));
    EntitlementsWalk(c.entitlements, 2);
    ListWalks(EntitlementTrees(c.entitlements), EntitlementsItems(c.entitlements));
    FieldWalks(nine, 10, list, 1, n, 4);
    MapWalks(nine + Field(10, list), 0, n + 1 + EntitlementsItems(c.entitlements), 4);
  }

  lemma WiderWalks(items: seq<Item>, level: nat, n: nat, limit: nat, wider: nat)
    requires Walks(items, level, n, limit) && limit <= wider
    ensures Walks(items, level, n, wider)
  {
  }

  lemma ListWalks(ts: seq<Item>, n: nat)
    requires |WalkAll(ts, 2)| == n && AtMost(WalkAll(ts, 2), 4)
    ensures |Walk(Array(true, ts), 1)| == n + 1 && AtMost(Walk(Array(true, ts), 1), 4)
  {
    assert Walk(Array(true, ts), 1) == [1] + WalkAll(ts, 2);
  }

  //
  // Round trips
  //

  /** A regular tree is encoded deterministically and reads back within the bounds. */
  lemma RootOfEnc(t: Item)
    requires Regular(t)
    ensures RootOf(Enc(t))
         == if |Enc(t)| <= MAX_ARTIFACT && |Walk(t, 0)| <= MAX_ITEMS && AtMost(Walk(t, 0), MAX_DEPTH)
            then Ok(t) else CodecError
    ensures |Enc(t)| <= MAX_ARTIFACT ==> Plain(t) && CoreDeterministic(Enc(t))
  {
    hide Enc;
    RootOfShaped(t);
    if |Enc(t)| <= MAX_ARTIFACT {
      ShortIsPlain(t);
    }
  }

  /** What reads a tree back, whatever the order of its labels: its size and its items decide. */
  lemma RootOfShaped(t: Item)
    requires Shaped(t)
    ensures RootOf(Enc(t))
         == if |Enc(t)| <= MAX_ARTIFACT && |Walk(t, 0)| <= MAX_ITEMS && AtMost(Walk(t, 0), MAX_DEPTH)
            then Ok(t) else CodecError
  {
    hide Enc;
    if |Enc(t)| <= MAX_ARTIFACT {
      ShortIsPlain(t);
      ParseSequenceOfEnc(t);
      assert WalkAll([t], 0) == Walk(t, 0) by {
        assert [t][1..] == [];
      }
    }
  }

  /** The credentials whose payload the decoder accepts. */
  ghost predicate Decodable(c: Credential) {
    FieldsOk(c) && PayloadItemCount(c) <= MAX_ITEMS && |Enc(PayloadTree(c))| <= MAX_ARTIFACT
  }

  /** Decoding inverts encoding exactly for the credentials within the bounds. */
  lemma PayloadRoundTrip(c: Credential)
    ensures DecodedPayload(Enc(PayloadTree(c))) == if Decodable(c) then Ok(c) else CodecError
  {
    hide PayloadTree, Regular;
    PayloadFacts(c);
    PayloadWalk(c);
    RootOfEnc(PayloadTree(c));
  }

  lemma EnvelopeFacts(e: Envelope)
    ensures Regular(EnvelopeTree(e))
    ensures Walk(EnvelopeTree(e), 0) == [0] + seq(6, _ => 1)
    ensures EnvelopeOf(EnvelopeTree(e))
         == if TextOk(e.algorithmId) && TextOk(e.keyId) && |e.payload| <= MAX_ARTIFACT && |e.signature| <= MAX_ARTIFACT
            then Ok(e) else CodecError
  {
    hide Fields, Lookup, Regular;
    var items := EnvelopeTree(e).items;
    EnvelopeItems(e);
    EnvelopeWalk(e);
    FieldsAreRegular(items, 7);
  }

  function FirstThree(e: Envelope): seq<Item> {
    Field(1, UInt(e.artifactKind)) + Field(2, UInt(e.envelopeVersion)) + Field(3, Text(e.algorithmId))
  }

  lemma FirstThreeFacts(e: Envelope)
    ensures Fields(FirstThree(e), 4)
    ensures var items := FirstThree(e);
            Lookup(items, 1) == One(UInt(e.artifactKind)) && Lookup(items, 2) == One(UInt(e.envelopeVersion))
            && Lookup(items, 3) == One(Text(e.algorithmId))
  {
    LeavesAreRegular(e.algorithmId, e.artifactKind);
    LeavesAreRegular([], e.envelopeVersion);
    hide Fields, Lookup, Regular;
    var one := Field(1, UInt(e.artifactKind));
    assert [] + one == one;
    NoFields(1);
    AppendField([], 1, UInt(e.artifactKind));
    AppendField(one, 2, UInt(e.envelopeVersion));
    AppendField(one + Field(2, UInt(e.envelopeVersion)), 3, Text(e.algorithmId));
  }

  lemma EnvelopeItems(e: Envelope)
    ensures var items := EnvelopeTree(e).items;
            Fields(items, 7) && |items| == 12
            && Lookup(items, 1) == One(UInt(e.artifactKind)) && Lookup(items, 2) == One(UInt(e.envelopeVersion))
            && Lookup(items, 3) == One(Text(e.algorithmId)) && Lookup(items, 4) == One(Text(e.keyId))
            && Lookup(items, 5) == One(Bytes(e.payload)) && Lookup(items, 6) == One(Bytes(e.signature))
  {
    LeavesAreRegular(e.keyId, 0);
    LeavesAreRegular(e.payload, 0);
    LeavesAreRegular(e.signature, 0);
    hide Fields, Lookup, Regular;
    FirstThreeFacts(e);
    var four := FirstThree(e) + Field(4, Text(e.keyId));
    AppendField(FirstThree(e), 4, Text(e.keyId));
    var five := four + Field(5, Bytes(e.payload));
    AppendField(four, 5, Bytes(e.payload));
    AppendField(five, 6, Bytes(e.signature));
  }

  lemma EnvelopeWalk(e: Envelope)
    ensures WalkEntries(EnvelopeTree(e).items, 1) == seq(6, _ => 1)
  {
    var one := Field(1, UInt(e.artifactKind));
    assert [] + one == one;
    var two := one + Field(2, UInt(e.envelopeVersion));
    var three := two + Field(3, Text(e.algorithmId));
    var four := three + Field(4, Text(e.keyId));
    var five := four + Field(5, Bytes(e.payload));
    WalkOfField([], 1, UInt(e.artifactKind), 1);
    WalkOfField(one, 2, UInt(e.envelopeVersion), 1);
    WalkOfField(two, 3, Text(e.algorithmId), 1);
    WalkOfField(three, 4, Text(e.keyId), 1);
    WalkOfField(four, 5, Bytes(e.payload), 1);
    WalkOfField(five, 6, Bytes(e.signature), 1);
  }

  /** The envelopes the decoder accepts. */
  ghost predicate EnvelopeOk(e: Envelope) {
    TextOk(e.algorithmId) && TextOk(e.keyId) && |Enc(EnvelopeTree(e))| <= MAX_ARTIFACT
  }

  lemma EnvelopeRoundTrip(e: Envelope)
    ensures DecodedEnvelope(Enc(EnvelopeTree(e))) == if EnvelopeOk(e) then Ok(e) else CodecError
  {
    EnvelopeFacts(e);
    EnvelopeHoldsStrings(e);
    hide EnvelopeTree, Regular, EnvelopeOf;
    RootOfEnc(EnvelopeTree(e));
  }

  lemma EnvelopeHoldsStrings(e: Envelope)
    ensures |e.payload| <= |Enc(EnvelopeTree(e))| && |e.signature| <= |Enc(EnvelopeTree(e))|
  {
    var four := Field(1, UInt(e.artifactKind)) + Field(2, UInt(e.envelopeVersion)) + Field(3, Text(e.algorithmId))
                + Field(4, Text(e.keyId));
    var five := four + Field(5, Bytes(e.payload));
    hide Head;
    EncAllConcat(five, Field(6, Bytes(e.signature)));
    EncAllConcat(four, Field(5, Bytes(e.payload)));
    EncField(5, Bytes(e.payload));
    EncField(6, Bytes(e.signature));
  }

  lemma EncField(key: nat, value: Item)
    ensures EncAll(Field(key, value)) == Enc(UInt(key)) + Enc(value)
  {
    hide Enc;
    EncAllCons(UInt(key), [value]);
    EncAllCons(value, []);
    assert [UInt(key)] + [value] == Field(key, value) && [value] + [] == [value];
    assert EncAll([]) == [];
  }
}
