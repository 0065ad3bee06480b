/** What the parser accepts beyond the canonical form, as the library behind the decoder does. */
module Tolerance {
  import opened Wrappers
  import opened Bytes
  import opened Cbor

  /** A tag is dropped, whatever its number and the width of its head. */
  lemma TagsAreDropped(b: seq<byte>, rest: seq<byte>, tag: nat)
    requires ParseHead(b) == Some(HeadInfo(6, Some(tag), rest))
    ensures ParseItem(b) == ParseItem(rest)
  {
  }

  /** An integer or a string may have a head of any width. */
  lemma WideHeadsAreRead(low: nat, arg: seq<byte>, s: seq<byte>, rest: seq<byte>)
    requires 24 <= low < 28 && |arg| == Width(low)
    ensures ParseItem([low] + arg + rest) == Some(Parsed(UInt(Value(arg)), rest))
    ensures Value(arg) == |s| ==>
              ParseItem([64 + low] + arg + (s + rest)) == Some(Parsed(Bytes(s), rest))
              && ParseItem([96 + low] + arg + (s + rest)) == Some(Parsed(Text(s), rest))
  {
    ParseOfWideHead(0, low, arg, rest);
    ParseOfWideHead(2, low, arg, s + rest);
    ParseOfWideHead(3, low, arg, s + rest);
    assert (s + rest)[..|s|] == s && (s + rest)[|s|..] == rest;
    hide Value, Width, ParseHead;
  }

  /** Simple values and floating-point numbers are items of no use to any field. */
  lemma SimpleValuesAreOther(b: seq<byte>, v: nat, rest: seq<byte>)
    requires ParseHead(b) == Some(HeadInfo(7, Some(v), rest))
    ensures ParseItem(b) == Some(Parsed(Other, rest))
  {
  }

  lemma NoBreakAtFirst(t: Item)
    requires Plain(t)
    ensures Enc(t)[0] != 0xff
  {
  }

  lemma {:induction false} ItemsUpToBreak(ts: seq<Item>, rest: seq<byte>)
    requires PlainAll(ts)
    ensures ParseUntilBreak(EncAll(ts) + ([0xff] + rest)) == Some(ParsedAll(ts, rest))
  {
    hide ParseItem, Enc, Plain;
    if ts == [] {
      assert EncAll(ts) + ([0xff] + rest) == [0xff] + rest && ([0xff] + rest)[1..] == rest;
    } else {
      var others := EncAll(ts[1..]) + ([0xff] + rest);
      ParseOfEnc(ts[0], others);
      NoBreakAtFirst(ts[0]);
      assert EncAll(ts) + ([0xff] + rest) == Enc(ts[0]) + others;
      ItemsUpToBreak(ts[1..], rest);
      assert [ts[0]] + ts[1..] == ts;
    }
  }

  /** Arrays and maps may have an indefinite length; the decoders refuse them later, by that mark. */
  lemma IndefiniteLengthsAreRead(ts: seq<Item>, rest: seq<byte>)
    requires PlainAll(ts)
    ensures ParseItem([0x9f] + (EncAll(ts) + ([0xff] + rest))) == Some(Parsed(Array(false, ts), rest))
    ensures LabelsOk(ts) ==>
              ParseItem([0xbf] + (EncAll(ts) + ([0xff] + rest))) == Some(Parsed(Map(false, ts), rest))
  {
    ItemsUpToBreak(ts, rest);
    var content := EncAll(ts) + ([0xff] + rest);
    assert ([0x9f] + content)[1..] == content && ([0xbf] + content)[1..] == content;
    hide EncAll, ParseUntilBreak, LabelsOk, PlainAll;
  }
}
