/**
 * The canonical form: which byte strings pass the decode, re-encode and
 * compare gates, and why an accepted one is the only one of its meaning.
 */
module Canonical {
  import opened Wrappers
  import opened Bytes
  import opened Cbor
  import opened Credentials
  import opened Decoder
  import opened Writers
  import opened Codec

  //
  // The payload gate
  //

  /** `b` decodes, and encoding the result with the sort `es` gives `b` back. */
  ghost predicate PassesPayloadGate(b: seq<byte>, es: seq<Entitlement>) {
    var d := DecodedPayload(b);
    d.Ok? && IsSortOf(es, d.value.entitlements)
    && Fit(Enc(PayloadTree(d.value.(entitlements := es))), MAX_ARTIFACT) == Ok(b)
  }

  /** The canonical encoding of an in-bounds credential with its entitlements in order. */
  ghost predicate IsCanonicalPayload(b: seq<byte>, c: Credential) {
    Decodable(c) && Ordered(c.entitlements) && b == Enc(PayloadTree(c))
  }

  /** Equal payload bytes describe equal credentials. */
  lemma PayloadTreeIsInjective(c: Credential, d: Credential)
    requires Decodable(d) && Enc(PayloadTree(c)) == Enc(PayloadTree(d))
    ensures c == d
  {
    PayloadRoundTrip(c);
    PayloadRoundTrip(d);
  }

  /**
   * The gate passes canonical encodings only, whatever the sort does with equal
   * identifiers; what passes is deterministically encoded CBOR.
   */
  lemma PayloadGateIsSound(b: seq<byte>, es: seq<Entitlement>)
    requires PassesPayloadGate(b, es)
    ensures IsCanonicalPayload(b, DecodedPayload(b).value)
    ensures es == DecodedPayload(b).value.entitlements && CoreDeterministic(b)
  {
    var c := DecodedPayload(b).value;
    var d := c.(entitlements := es);
    PayloadRoundTrip(d);
    assert d == c;
    PayloadFacts(c);
    RootOfEnc(PayloadTree(c));
  }

  /** It passes every canonical encoding with distinct identifiers, with any sort. */
  lemma PayloadGateIsComplete(b: seq<byte>, c: Credential, es: seq<Entitlement>)
    requires IsCanonicalPayload(b, c) && DistinctIds(c.entitlements) && IsSortOf(es, c.entitlements)
    ensures DecodedPayload(b) == Ok(c) && PassesPayloadGate(b, es)
  {
    PayloadRoundTrip(c);
    SortIsUnique(c.entitlements, es);
  }

  /**
   * With any sort, repeated identifiers or not, the gate passes exactly the
   * canonical encodings whose entitlements the sort leaves as they are.
   */
  lemma PayloadGateIsExact(b: seq<byte>, es: seq<Entitlement>)
    ensures PassesPayloadGate(b, es) <==> exists c :: IsCanonicalPayload(b, c) && es == c.entitlements
  {
    hide PayloadTree, Enc, Decodable, Ordered, DecodedPayload;
    if PassesPayloadGate(b, es) {
      PayloadGateIsSound(b, es);
    }
    if c :| IsCanonicalPayload(b, c) && es == c.entitlements {
      OwnOrderPasses(b, c);
    }
  }

  lemma OwnOrderPasses(b: seq<byte>, c: Credential)
    requires IsCanonicalPayload(b, c)
    ensures PassesPayloadGate(b, c.entitlements)
  {
    hide PayloadTree, Enc, DecodedPayload;
    PayloadRoundTrip(c);
    assert c.(entitlements := c.entitlements) == c;
  }

  /**
   * Two byte strings that pass the gate never mean the same: even equality up
   * to the order of the entitlements makes them equal.
   */
  lemma PayloadIsNotMalleable(b1: seq<byte>, b2: seq<byte>, es1: seq<Entitlement>, es2: seq<Entitlement>)
    requires PassesPayloadGate(b1, es1) && PassesPayloadGate(b2, es2)
    requires var c1, c2 := DecodedPayload(b1).value, DecodedPayload(b2).value;
             DistinctIds(c1.entitlements) && multiset(c1.entitlements) == multiset(c2.entitlements)
             && c1 == c2.(entitlements := c1.entitlements)
    ensures b1 == b2
  {
    PayloadGateIsSound(b1, es1);
    PayloadGateIsSound(b2, es2);
    SortIsUnique(DecodedPayload(b1).value.entitlements, DecodedPayload(b2).value.entitlements);
  }

  //
  // The envelope gate
  //

  ghost predicate PassesEnvelopeGate(b: seq<byte>) {
    var d := DecodedEnvelope(b);
    d.Ok? && Fit(Enc(EnvelopeTree(d.value)), MAX_ARTIFACT) == Ok(b)
  }

  /** The gate passes exactly the canonical encodings of in-bounds envelopes. */
  lemma EnvelopeGateIsExact(b: seq<byte>)
    ensures PassesEnvelopeGate(b) <==> exists e :: EnvelopeOk(e) && b == Enc(EnvelopeTree(e))
    ensures PassesEnvelopeGate(b) ==> CoreDeterministic(b) && EnvelopeOk(DecodedEnvelope(b).value)
  {
    if PassesEnvelopeGate(b) {
      var e := DecodedEnvelope(b).value;
      EnvelopeRoundTrip(e);
      EnvelopeFacts(e);
      RootOfEnc(EnvelopeTree(e));
      assert EnvelopeOk(e) && b == Enc(EnvelopeTree(e));
    }
    if e :| EnvelopeOk(e) && b == Enc(EnvelopeTree(e)) {
      EnvelopeRoundTrip(e);
    }
  }

  /** The same envelope with a needlessly long map head. */
  function LongHead(e: Envelope): seq<byte> {
    [0xb8, 6] + EncAll(EnvelopeTree(e).items)
  }

  /**
   * The decoder alone is not enough: it reads every in-bounds envelope from a
   * second byte string too, and only the gate refuses that one.
   */
  lemma DecoderAloneIsMalleable(e: Envelope)
    requires EnvelopeOk(e) && |LongHead(e)| <= MAX_ARTIFACT
    ensures LongHead(e) != Enc(EnvelopeTree(e))
    ensures DecodedEnvelope(LongHead(e)) == Ok(e) && !PassesEnvelopeGate(LongHead(e))
  {
    EnvelopeFacts(e);
    hide Head, Fields, Lookup, ParseItem, EncAll, Regular, EnvelopeOf;
    var t := EnvelopeTree(e);
    RootOfEnc(t);
    EnvelopeRoundTrip(e);
    LongHeadReads(e);
    assert Enc(t) == Head(5, 6) + EncAll(t.items);
    SixHead();
  }

  lemma LongHeadReads(e: Envelope)
    requires EnvelopeOk(e)
    ensures ParseSequence(LongHead(e)) == Some([EnvelopeTree(e)])
  {
    EnvelopeFacts(e);
    RootOfEnc(EnvelopeTree(e));
    hide Enc, EncAll, Regular, ParseItem, Lookup, Walk;
    SixEntriesRead(EnvelopeTree(e).items);
  }

  /** Six plain entries are read behind the longer head. */
  lemma SixEntriesRead(items: seq<Item>)
    requires PlainAll(items) && LabelsOk(items) && |items| == 12
    ensures ParseSequence([0xb8, 6] + EncAll(items)) == Some([Map(true, items)])
  {
    var content := EncAll(items);
    ParseOfEncAll(items, []);
    assert content + [] == content;
    LongHeadParses(content);
    hide EncAll, PlainAll, ParseHead, ParseN;
    assert ParseItem([0xb8, 6] + content) == Some(Parsed(Map(true, items), []));
    assert [Map(true, items)] + [] == [Map(true, items)] && ParseSequence([]) == Some([]);
  }

  lemma SixHead()
    ensures Head(5, 6) == [0xa6]
  {
  }

  lemma LongHeadParses(content: seq<byte>)
    ensures ParseHead([0xb8, 6] + content) == Some(HeadInfo(5, Some(6), content))
  {
    var b := [0xb8, 6] + content;
    assert b[1..2] == [6] && b[2..] == content;
    assert [6][..0] == [];
    assert Value([6]) == 6;
  }

  //
  // Reordered envelopes
  //

  /** The value of one field of the envelope. */
  function EnvelopeField(e: Envelope, key: nat): Item
    requires 1 <= key <= 6
  {
    if key == 1 then UInt(e.artifactKind) else if key == 2 then UInt(e.envelopeVersion)
    else if key == 3 then Text(e.algorithmId) else if key == 4 then Text(e.keyId)
    else if key == 5 then Bytes(e.payload) else Bytes(e.signature)
  }

  predicate AreKeys(order: seq<nat>) {
    forall i | 0 <= i < |order| :: 1 <= order[i] <= 6
  }

  /** The envelope with its fields in any order, as the reference writes it on request. */
  function InOrder(e: Envelope, order: seq<nat>): (items: seq<Item>)
    requires AreKeys(order)
    ensures |items| == 2 * |order|
  {
    if order == [] then [] else Field(order[0], EnvelopeField(e, order[0])) + InOrder(e, order[1..])
  }

  lemma {:induction false} InOrderIsShaped(e: Envelope, order: seq<nat>, level: nat)
    requires AreKeys(order)
    ensures ShapedAll(InOrder(e, order)) && LabelsOk(InOrder(e, order))
    ensures WalkEntries(InOrder(e, order), level) == seq(|order|, _ => level)
  {
    if order != [] {
      var value := EnvelopeField(e, order[0]);
      InOrderIsShaped(e, order[1..], level);
      LeavesAreRegular(e.algorithmId, e.artifactKind);
      FieldIsShaped(order[0], value);
      ShapedConcat(Field(order[0], value), InOrder(e, order[1..]));
      assert InOrder(e, order)[2..] == InOrder(e, order[1..]);
    }
  }

  /** Lookup does not depend on positions: a field that occurs once is found wherever it is. */
  lemma {:induction false} InOrderLookup(e: Envelope, order: seq<nat>, key: nat)
    requires AreKeys(order) && 1 <= key <= 6
    ensures multiset(order)[key] == 0 ==> Lookup(InOrder(e, order), key).Missing?
    ensures multiset(order)[key] == 1 ==> Lookup(InOrder(e, order), key) == One(EnvelopeField(e, key))
  {
    if order != [] {
      InOrderLookup(e, order[1..], key);
      assert order == [order[0]] + order[1..];
      assert InOrder(e, order)[2..] == InOrder(e, order[1..]);
    }
  }

  const STANDARD_ORDER: seq<nat> := [1, 2, 3, 4, 5, 6]

  lemma StandardOrderIsTheTree(e: Envelope)
    ensures Map(true, InOrder(e, STANDARD_ORDER)) == EnvelopeTree(e)
  {
    assert InOrder(e, []) == [];
    assert InOrder(e, [6]) == Field(6, Bytes(e.signature));
    assert InOrder(e, [5, 6]) == Field(5, Bytes(e.payload)) + InOrder(e, [6]);
    assert InOrder(e, [4, 5, 6]) == Field(4, Text(e.keyId)) + InOrder(e, [5, 6]);
    assert InOrder(e, [3, 4, 5, 6]) == Field(3, Text(e.algorithmId)) + InOrder(e, [4, 5, 6]);
    assert InOrder(e, [2, 3, 4, 5, 6]) == Field(2, UInt(e.envelopeVersion)) + InOrder(e, [3, 4, 5, 6]);
  }

  lemma {:induction false} InOrderIsInjective(e: Envelope, s: seq<nat>, t: seq<nat>)
    requires AreKeys(s) && AreKeys(t) && InOrder(e, s) == InOrder(e, t)
    ensures s == t
  {
    if s != [] && t != [] {
      assert InOrder(e, s)[0] == UInt(s[0]) && InOrder(e, t)[0] == UInt(t[0]);
      assert InOrder(e, s)[2..] == InOrder(e, s[1..]) && InOrder(e, t)[2..] == InOrder(e, t[1..]);
      InOrderIsInjective(e, s[1..], t[1..]);
      assert s == [s[0]] + s[1..] && t == [t[0]] + t[1..];
    }
  }

  /**
   * The decoder reads an envelope with its fields in any order alike; the gate
   * passes it in the ascending order only.
   */
  lemma ReorderedEnvelope(e: Envelope, order: seq<nat>)
    requires AreKeys(order) && multiset(order) == multiset(STANDARD_ORDER)
    ensures var b := Enc(Map(true, InOrder(e, order)));
            var ok := |b| <= MAX_ARTIFACT && TextOk(e.algorithmId) && TextOk(e.keyId)
                      && |e.payload| <= MAX_ARTIFACT && |e.signature| <= MAX_ARTIFACT;
            DecodedEnvelope(b) == (if ok then Ok(e) else CodecError)
            && (PassesEnvelopeGate(b) <==> ok && order == STANDARD_ORDER)
  {
    hide Enc, DecodedEnvelope, EnvelopeTree, InOrder, TextOk;
    assert |order| == |multiset(order)| == 6;
    ReorderedReads(e, order);
    StandardOrderIsTheTree(e);
    var t := Map(true, InOrder(e, order));
    if DecodedEnvelope(Enc(t)).Ok? && Enc(EnvelopeTree(e)) == Enc(t) {
      OrderIsEncoded(e, order, STANDARD_ORDER);
    }
  }

  /** Different orders give different bytes. */
  lemma OrderIsEncoded(e: Envelope, s: seq<nat>, t: seq<nat>)
    requires AreKeys(s) && AreKeys(t) && Enc(Map(true, InOrder(e, s))) == Enc(Map(true, InOrder(e, t)))
    requires |Enc(Map(true, InOrder(e, s)))| <= MAX_ARTIFACT
    ensures s == t
  {
    hide Enc, Plain, Shaped, InOrder;
    var x, y := Map(true, InOrder(e, s)), Map(true, InOrder(e, t));
    InOrderIsShaped(e, s, 1);
    InOrderIsShaped(e, t, 1);
    ShapedMap(x.items);
    ShapedMap(y.items);
    ShortIsPlain(x);
    ShortIsPlain(y);
    EncIsPrefixFree(x, y, [], []);
    InOrderIsInjective(e, s, t);
  }

  lemma ShapedMap(items: seq<Item>)
    requires ShapedAll(items) && LabelsOk(items)
    ensures Shaped(Map(true, items))
  {
  }

  lemma ReorderedReads(e: Envelope, order: seq<nat>)
    requires AreKeys(order) && multiset(order) == multiset(STANDARD_ORDER) && |order| == 6
    ensures Shaped(Map(true, InOrder(e, order)))
    ensures var b := Enc(Map(true, InOrder(e, order)));
            DecodedEnvelope(b) ==
            if |b| <= MAX_ARTIFACT && TextOk(e.algorithmId) && TextOk(e.keyId)
               && |e.payload| <= MAX_ARTIFACT && |e.signature| <= MAX_ARTIFACT
            then Ok(e) else CodecError
  {
    hide Enc, Lookup, InOrder, Shaped;
    var items := InOrder(e, order);
    var t := Map(true, items);
    InOrderIsShaped(e, order, 1);
    ShapedMap(items);
    assert Walk(t, 0) == [0] + seq(6, _ => 1);
    RootOfShaped(t);
    InOrderLookup(e, order, 1);
    InOrderLookup(e, order, 2);
    InOrderLookup(e, order, 3);
    InOrderLookup(e, order, 4);
    InOrderLookup(e, order, 5);
    InOrderLookup(e, order, 6);
    assert EnvelopeOf(t) == if TextOk(e.algorithmId) && TextOk(e.keyId) && |e.payload| <= MAX_ARTIFACT
                               && |e.signature| <= MAX_ARTIFACT
                            then Ok(e) else CodecError;
  }

  //
  // The signing input
  //

  /** Signing inputs are injective and prefix-free in all three parts. */
  lemma SigningInputIsInjective(
      a1: seq<byte>, k1: seq<byte>, p1: seq<byte>, a2: seq<byte>, k2: seq<byte>, p2: seq<byte>,
      x: seq<byte>, y: seq<byte>)
    requires Fit(Enc(SigningTree(a1, k1, p1)), MAX_ARTIFACT).Ok? && Fit(Enc(SigningTree(a2, k2, p2)), MAX_ARTIFACT).Ok?
    requires Enc(SigningTree(a1, k1, p1)) + x == Enc(SigningTree(a2, k2, p2)) + y
    ensures a1 == a2 && k1 == k2 && p1 == p2 && x == y
  {
    SigningTreeIsPlain(a1, k1, p1);
    SigningTreeIsPlain(a2, k2, p2);
    EncIsPrefixFree(SigningTree(a1, k1, p1), SigningTree(a2, k2, p2), x, y);
  }

  lemma LeafIsShaped(t: Item)
    requires Shaped(t)
    ensures ShapedAll([t])
  {
    assert [t][1..] == [] && ShapedAll([]);
  }

  lemma SigningTreeIsPlain(a: seq<byte>, k: seq<byte>, p: seq<byte>)
    requires |Enc(SigningTree(a, k, p))| <= MAX_ARTIFACT
    ensures Plain(SigningTree(a, k, p))
  {
    hide Enc;
    LeafIsShaped(Text(DOMAIN));
    LeafIsShaped(UInt(1));
    LeafIsShaped(Text(a));
    LeafIsShaped(Text(k));
    LeafIsShaped(Bytes(p));
    var items := [Text(DOMAIN)] + [UInt(1)] + [Text(a)] + [Text(k)] + [Bytes(p)];
    ShapedConcat([Text(DOMAIN)], [UInt(1)]);
    ShapedConcat([Text(DOMAIN)] + [UInt(1)], [Text(a)]);
    ShapedConcat([Text(DOMAIN)] + [UInt(1)] + [Text(a)], [Text(k)]);
    ShapedConcat([Text(DOMAIN)] + [UInt(1)] + [Text(a)] + [Text(k)], [Bytes(p)]);
    assert SigningTree(a, k, p).items == items;
    ShortIsPlain(SigningTree(a, k, p));
  }
}
