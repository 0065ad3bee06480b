/** Credentials come back with their entitlements in order, whatever the order they were given in. */
module InputOrder {
  import opened Wrappers
  import opened Bytes
  import opened Cbor
  import opened Credentials
  import opened Decoder
  import opened Codec

  /** The bytes that entitlements take. */
  function Size(es: seq<Entitlement>): nat { |EncAll(EntitlementTrees(es))| }

  lemma SizeOfCons(es: seq<Entitlement>)
    requires es != []
    ensures Size(es) == |Enc(EntitlementTree(es[0]))| + Size(es[1..])
  {
    hide Enc, EntitlementTree;
    EncAllCons(EntitlementTree(es[0]), EntitlementTrees(es[1..]));
  }

  /** Inserting adds one entitlement's bytes and items, wherever it goes. */
  lemma {:induction false} InsertAdds(e: Entitlement, es: seq<Entitlement>)
    ensures Size(Insert(e, es)) == |Enc(EntitlementTree(e))| + Size(es)
    ensures EntitlementsItems(Insert(e, es)) == EntitlementItems(e) + EntitlementsItems(es)
    ensures |Insert(e, es)| == |es| + 1
  {
    hide Size, EntitlementItems, LexLess, Enc, EntitlementTree;
    var r := Insert(e, es);
    if es == [] || LexLess(e.id, es[0].id) {
      assert r[1..] == es;
    } else {
      InsertAdds(e, es[1..]);
      assert r[1..] == Insert(e, es[1..]);
      SizeOfCons(es);
    }
    SizeOfCons(r);
  }

  lemma {:induction false} SnocAdds(es: seq<Entitlement>, e: Entitlement)
    ensures Size(es + [e]) == Size(es) + |Enc(EntitlementTree(e))|
    ensures EntitlementsItems(es + [e]) == EntitlementsItems(es) + EntitlementItems(e)
  {
    hide Size, EntitlementItems, Enc, EntitlementTree;
    SizeOfCons(es + [e]);
    if es == [] {
      assert ([] + [e])[1..] == [] && Size([]) == 0 by { NothingHasNoSize(); }
    } else {
      assert (es + [e])[1..] == es[1..] + [e];
      SnocAdds(es[1..], e);
      SizeOfCons(es);
    }
  }

  lemma NothingHasNoSize()
    ensures Size([]) == 0
  {
  }

  /** Sorting changes neither the bytes nor the items nor the number of entitlements. */
  lemma {:induction false} SortedKeepsSize(es: seq<Entitlement>)
    ensures Size(Sorted(es)) == Size(es) && EntitlementsItems(Sorted(es)) == EntitlementsItems(es)
    ensures |Sorted(es)| == |es|
  {
    hide Size, EntitlementItems, EntitlementsItems, Insert, Enc, EntitlementTree;
    if es != [] {
      var n := |es| - 1;
      SortedKeepsSize(es[..n]);
      InsertAdds(es[n], Sorted(es[..n]));
      SnocAdds(es[..n], es[n]);
      assert es == es[..n] + [es[n]];
    }
  }

  /** The length of a payload depends on its entitlements by their number and their bytes alone. */
  lemma PayloadLength(c: Credential, es: seq<Entitlement>)
    requires |es| == |c.entitlements| && Size(es) == Size(c.entitlements)
    ensures |Enc(PayloadTree(c.(entitlements := es)))| == |Enc(PayloadTree(c))|
  {
    var d := c.(entitlements := es);
    var nine := PayloadHead(c) + PayloadSupersedes(c);
    assert PayloadHead(d) + PayloadSupersedes(d) == nine;
    ListLength(c.entitlements);
    ListLength(es);
    hide Enc, EncAll, Head, EntitlementTrees, Size, PayloadHead, PayloadSupersedes;
    LastField(nine, Array(true, EntitlementTrees(c.entitlements)));
    LastField(nine, Array(true, EntitlementTrees(es)));
  }

  lemma ListLength(es: seq<Entitlement>)
    ensures |Enc(Array(true, EntitlementTrees(es)))| == |Head(4, |es|)| + Size(es)
  {
  }

  lemma LastField(items: seq<Item>, value: Item)
    ensures |Enc(Map(true, items + Field(10, value)))|
         == |Head(5, (|items| + 2) / 2)| + |EncAll(items)| + |Enc(UInt(10))| + |Enc(value)|
  {
    var all := items + Field(10, value);
    assert Enc(Map(true, all)) == Head(5, |all| / 2) + EncAll(all);
    hide Enc, EncAll, Head;
    EncAllConcat(items, Field(10, value));
    EncField(10, value);
  }

  /** Whether a credential fits the bounds does not depend on the order of its entitlements. */
  lemma SortedKeepsDecodable(c: Credential)
    ensures Decodable(c.(entitlements := Sorted(c.entitlements))) <==> Decodable(c)
  {
    hide Enc, PayloadTree, TextOk, EntitlementOk, EntitlementsItems, Size, Sorted;
    var es := Sorted(c.entitlements);
    SortedKeepsSize(c.entitlements);
    SortedIsASort(c.entitlements);
    SameElements(es, c.entitlements);
    PayloadLength(c, es);
    SameEntitlementsOk(es, c.entitlements);
    SameEntitlementsOk(c.entitlements, es);
    hide Ordered;
  }

  lemma SameEntitlementsOk(s: seq<Entitlement>, t: seq<Entitlement>)
    requires forall e | e in t :: e in s
    ensures (forall i | 0 <= i < |s| :: EntitlementOk(s[i])) ==> forall i | 0 <= i < |t| :: EntitlementOk(t[i])
  {
    hide EntitlementOk;
    if forall i | 0 <= i < |s| :: EntitlementOk(s[i]) {
      forall i | 0 <= i < |t| ensures EntitlementOk(t[i]) {
        assert t[i] in s;
      }
    }
  }

  /**
   * The whole way: for every credential in any order, what the reference bytes
   * decode to is that credential with its entitlements sorted, if it is within
   * the bounds, and nothing otherwise.
   */
  lemma ReferenceRoundTrip(c: Credential)
    ensures DecodedPayload(ReferencePayload(c))
         == if Decodable(c) then Ok(c.(entitlements := Sorted(c.entitlements))) else CodecError
  {
    hide Decodable, DecodedPayload;
    SortedKeepsDecodable(c);
    PayloadRoundTrip(c.(entitlements := Sorted(c.entitlements)));
  }
}
