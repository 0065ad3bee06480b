/** What the structural bounds leave of the limit on entitlements, for every byte string. */
module Limits {
  import opened Bytes
  import opened Cbor
  import opened Credentials
  import opened Decoder

  //
  // Items that must be there
  //

  lemma {:induction false} EntriesAreWalked(items: seq<Item>, level: nat)
    ensures |WalkEntries(items, level)| >= |items| / 2
  {
    if |items| >= 2 {
      EntriesAreWalked(items[2..], level);
    }
  }

  /** A traversal reports the whole value of a label that is found, and every other entry. */
  lemma {:induction false} FoundIsWalked(items: seq<Item>, key: nat, level: nat)
    requires Lookup(items, key).One?
    ensures |WalkEntries(items, level)| >= |items| / 2 - 1 + |Walk(Lookup(items, key).item, level)|
  {
    hide Walk;
    WalksAtLeastOne(items[1], level);
    if items[0] == UInt(key) {
      EntriesAreWalked(items[2..], level);
    } else {
      FoundIsWalked(items[2..], key, level);
    }
  }

  lemma WalksAtLeastOne(t: Item, level: nat)
    ensures |Walk(t, level)| >= 1
  {
  }

  /** The same for two labels. */
  lemma {:induction false} BothAreWalked(items: seq<Item>, j: nat, k: nat, level: nat)
    requires j != k && Lookup(items, j).One? && Lookup(items, k).One?
    ensures |WalkEntries(items, level)|
         >= |items| / 2 - 2 + |Walk(Lookup(items, j).item, level)| + |Walk(Lookup(items, k).item, level)|
  {
    hide Walk;
    WalksAtLeastOne(items[1], level);
    if items[0] == UInt(j) {
      FoundIsWalked(items[2..], k, level);
    } else if items[0] == UInt(k) {
      FoundIsWalked(items[2..], j, level);
    } else {
      BothAreWalked(items[2..], j, k, level);
    }
  }

  /** Whatever decodes to an entitlement has at least 7 items. */
  lemma EntitlementWalksSeven(t: Item, level: nat)
    requires EntitlementOf(t).Ok?
    ensures |Walk(t, level)| >= 7
  {
    hide Lookup, WalkEntries;
    var validity := Lookup(t.items, 5);
    FoundIsWalked(t.items, 5, level + 1);
    EntriesAreWalked(validity.item.items, level + 2);
  }

  lemma {:induction false} EntitlementsWalkSevenEach(ts: seq<Item>, level: nat)
    requires EntitlementsOf(ts).Ok?
    ensures |WalkAll(ts, level)| >= 7 * |ts|
  {
    hide Walk, EntitlementOf;
    if ts != [] {
      var n := |ts| - 1;
      EntitlementsWalkSevenEach(ts[..n], level);
      EntitlementWalksSeven(ts[n], level);
      WalkAllSnoc(ts[..n], ts[n], level);
      assert ts == ts[..n] + [ts[n]];
    }
  }

  lemma {:induction false} WalkAllSnoc(ts: seq<Item>, t: Item, level: nat)
    ensures WalkAll(ts + [t], level) == WalkAll(ts, level) + Walk(t, level)
  {
    hide Walk;
    if ts == [] {
      assert [] + [t] == [t] && [t][1..] == [];
      assert WalkAll([t], level) == Walk(t, level) + WalkAll([], level);
    } else {
      assert (ts + [t])[1..] == ts[1..] + [t];
      WalkAllSnoc(ts[1..], t, level);
    }
  }

  /** Whatever decodes to a payload of n entitlements, under any limit, has at least 12 + 7n items. */
  lemma PayloadWalksSevenEach(t: Item, limit: nat)
    requires PayloadUpTo(t, limit).Ok?
    ensures |Walk(t, 0)| >= 12 + 7 * |PayloadUpTo(t, limit).value.entitlements|
  {
    hide Lookup, WalkEntries, WalkAll, EntitlementsOf, RequiredText, RequiredUInt, RequiredInt, FoundText;
    var version, list := Lookup(t.items, 1).item, Lookup(t.items, 10).item;
    BothAreWalked(t.items, 1, 10, 1);
    ElementsAreWalked(version.items, 2);
    EntitlementsWalkSevenEach(list.items, 2);
    EntitlementsKeepLength(list.items);
  }

  lemma {:induction false} ElementsAreWalked(ts: seq<Item>, level: nat)
    ensures |WalkAll(ts, level)| >= |ts|
  {
    if ts != [] {
      WalksAtLeastOne(ts[0], level);
      ElementsAreWalked(ts[1..], level);
    }
  }

  lemma {:induction false} EntitlementsKeepLength(ts: seq<Item>)
    ensures EntitlementsOf(ts).Ok? ==> |EntitlementsOf(ts).value| == |ts|
  {
    if ts != [] {
      EntitlementsKeepLength(ts[..|ts| - 1]);
    }
  }

  /**
   * No byte string that decodes, canonical or not, holds more than 71
   * entitlements, and the limit of 128 never refuses what passes all other
   * tests: with any limit from 71 on the decoder gives the same answer.
   */
  lemma AtMost71Entitlements(b: seq<byte>, limit: nat)
    ensures DecodedPayload(b).Ok? ==> |DecodedPayload(b).value.entitlements| <= 71
    ensures limit >= 71 && RootOf(b).Ok? ==> PayloadUpTo(RootOf(b).value, limit) == DecodedPayload(b)
  {
    hide RootOf;
    if RootOf(b).Ok? {
      var t := RootOf(b).value;
      RootWalk(b);
      if PayloadOf(t).Ok? {
        PayloadWalksSevenEach(t, MAX_ENTITLEMENTS);
        if limit >= 71 { LimitAlone(t, MAX_ENTITLEMENTS, limit); }
      }
      if PayloadUpTo(t, limit).Ok? {
        PayloadWalksSevenEach(t, limit);
        LimitAlone(t, limit, MAX_ENTITLEMENTS);
      }
      hide PayloadUpTo;
    }
  }

  lemma RootWalk(b: seq<byte>)
    requires RootOf(b).Ok?
    ensures |Walk(RootOf(b).value, 0)| <= MAX_ITEMS
  {
    var ts := ParseSequence(b).value;
    assert ts == [ts[0]] && ts[1..] == [];
    assert WalkAll(ts, 0) == Walk(ts[0], 0) + WalkAll([], 0);
  }

  /** Only the number of entitlements tells two limits apart. */
  lemma LimitAlone(t: Item, low: nat, high: nat)
    requires PayloadUpTo(t, low).Ok? && |PayloadUpTo(t, low).value.entitlements| <= high
    ensures PayloadUpTo(t, high) == PayloadUpTo(t, low)
  {
    hide Lookup, EntitlementsOf, RequiredText, RequiredUInt, RequiredInt, FoundText, VersionOf;
    EntitlementsKeepLength(Lookup(t.items, 10).item.items);
  }
}
