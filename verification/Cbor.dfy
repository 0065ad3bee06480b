/**
 * The CBOR wire format of RFC 8949: a bottom-up encoder that always takes the
 * shortest head, and a parser as tolerant as the library behind the codec.
 */
module Cbor {
  import opened Wrappers
  import opened Bytes

  /**
   * One data item as the decoder hands it to its caller. `items` of a map
   * holds labels and values alternately. Tags are dropped by the parser, and
   * `Other` stands for every simple value and floating-point number.
   */
  datatype Item =
    | UInt(v: nat)
    | NInt(v: nat)
    | Bytes(s: seq<byte>)
    | Text(s: seq<byte>)
    | Array(definite: bool, items: seq<Item>)
    | Map(definite: bool, items: seq<Item>)
    | Other

  /** The item of a signed integer (section 3.1 of RFC 8949). */
  function IntItem(x: int): Item {
    if x >= 0 then UInt(x) else NInt(-1 - x)
  }

  //
  // Encoding
  //

  /** The low five bits of the shortest head for `v`, when it needs more bytes. */
  function Low(v: nat): (low: nat)
    ensures 24 <= low < 28
  {
    if v <= 0xff then 24 else if v <= 0xffff then 25 else if v <= 0xffff_ffff then 26 else 27
  }

  /** The number of argument bytes that the low five bits announce. */
  function Width(low: nat): nat
    requires 24 <= low < 28
  {
    if low == 24 then 1 else if low == 25 then 2 else if low == 26 then 4 else 8
  }

  function Head(major: nat, v: nat): (h: seq<byte>)
    requires major < 8
    ensures h != []
  {
    if v < 24 then [major * 32 + v] else [major * 32 + Low(v)] + BigEndian(v, Width(Low(v)))
  }

  function Enc(t: Item): (b: seq<byte>)
    ensures b != []
    decreases t
  {
    match t
    case UInt(v) => Head(0, v)
    case NInt(v) => Head(1, v)
    case Bytes(s) => Head(2, |s|) + s
    case Text(s) => Head(3, |s|) + s
    case Array(_, items) => Head(4, |items|) + EncAll(items)
    case Map(_, items) => Head(5, |items| / 2) + EncAll(items)
    case Other => [0xf6]
  }

  function EncAll(ts: seq<Item>): seq<byte>
    decreases ts
  {
    if ts == [] then [] else Enc(ts[0]) + EncAll(ts[1..])
  }

  lemma EncAllCons(t: Item, ts: seq<Item>)
    ensures EncAll([t] + ts) == Enc(t) + EncAll(ts)
  {
    assert ([t] + ts)[1..] == ts;
  }

  lemma {:induction false} EncAllConcat(xs: seq<Item>, ys: seq<Item>)
    ensures EncAll(xs + ys) == EncAll(xs) + EncAll(ys)
  {
    hide Enc;
    if xs == [] {
      assert xs + ys == ys;
    } else {
      EncAllConcat(xs[1..], ys);
      EncAllCons(xs[0], xs[1..] + ys);
      assert xs + ys == [xs[0]] + (xs[1..] + ys);
    }
  }

  /** Every item takes at least one byte. */
  lemma {:induction false} EncAllLength(ts: seq<Item>)
    ensures |ts| <= |EncAll(ts)|
  {
    if ts != [] {
      EncAllLength(ts[1..]);
    }
  }

  //
  // Parsing
  //

  /** A head: `arg` is `None` for an indefinite length or a break. */
  datatype HeadInfo = HeadInfo(major: nat, arg: Option<nat>, rest: seq<byte>)

  /** Reads one head. The argument may be wider than it needs to be. */
  function ParseHead(b: seq<byte>): (r: Option<HeadInfo>)
    ensures r.Some? ==> |r.value.rest| < |b| && r.value.major < 8
  {
    if b == [] then None
    else
      var major, low := b[0] / 32, b[0] % 32;
      if low < 24 then Some(HeadInfo(major, Some(low), b[1..]))
      else if low < 28 then
        var end := 1 + Width(low);
        if |b| < end then None else Some(HeadInfo(major, Some(Value(b[1..end])), b[end..]))
      else if low == 31 then Some(HeadInfo(major, None, b[1..]))
      else None
  }

  datatype Parsed = Parsed(item: Item, rest: seq<byte>)
  datatype ParsedAll = ParsedAll(items: seq<Item>, rest: seq<byte>)

  const MAX_NEGATIVE: nat := 0x8000_0000_0000_0000

  /** Map labels are integers or strings, and every label has a value. */
  predicate LabelsOk(items: seq<Item>) {
    |items| % 2 == 0 &&
    forall i | 0 <= i < |items| && i % 2 == 0 ::
      items[i].UInt? || items[i].NInt? || items[i].Text? || items[i].Bytes?
  }

  function MapOf(definite: bool, r: Option<ParsedAll>): Option<Parsed> {
    var p :- r;
    if LabelsOk(p.items) then Some(Parsed(Map(definite, p.items), p.rest)) else None
  }

  function ParseItem(b: seq<byte>): (r: Option<Parsed>)
    ensures r.Some? ==> |r.value.rest| < |b|
    decreases |b|, 0
  {
    var h :- ParseHead(b);
    match h.arg
    case None =>
      if h.major == 4 then
        var p :- ParseUntilBreak(h.rest);
        Some(Parsed(Array(false, p.items), p.rest))
      else if h.major == 5 then MapOf(false, ParseUntilBreak(h.rest))
      else None
    case Some(v) =>
      if h.major == 0 then Some(Parsed(UInt(v), h.rest))
      else if h.major == 1 then if v < MAX_NEGATIVE then Some(Parsed(NInt(v), h.rest)) else None
      else if h.major == 2 then
        if v <= |h.rest| then Some(Parsed(Bytes(h.rest[..v]), h.rest[v..])) else None
      else if h.major == 3 then
        if v <= |h.rest| then Some(Parsed(Text(h.rest[..v]), h.rest[v..])) else None
      else if h.major == 4 then
        var p :- ParseN(h.rest, v);
        Some(Parsed(Array(true, p.items), p.rest))
      else if h.major == 5 then MapOf(true, ParseN(h.rest, 2 * v))
      else if h.major == 6 then ParseItem(h.rest)
      else Some(Parsed(Other, h.rest))
  }

  function ParseN(b: seq<byte>, n: nat): (r: Option<ParsedAll>)
    ensures r.Some? ==> |r.value.rest| <= |b| && |r.value.items| == n
    decreases |b|, 1
  {
    if n == 0 then Some(ParsedAll([], b))
    else
      var first :- ParseItem(b);
      var others :- ParseN(first.rest, n - 1);
      Some(ParsedAll([first.item] + others.items, others.rest))
  }

  function ParseUntilBreak(b: seq<byte>): (r: Option<ParsedAll>)
    ensures r.Some? ==> |r.value.rest| <= |b|
    decreases |b|, 1
  {
    if b != [] && b[0] == 0xff then Some(ParsedAll([], b[1..]))
    else
      var first :- ParseItem(b);
      var others :- ParseUntilBreak(first.rest);
      Some(ParsedAll([first.item] + others.items, others.rest))
  }

  /** All top-level items of an input, up to its end. */
  function ParseSequence(b: seq<byte>): Option<seq<Item>>
    decreases |b|
  {
    if b == [] then Some([])
    else
      var first :- ParseItem(b);
      var others :- ParseSequence(first.rest);
      Some([first.item] + others)
  }

  //
  // Parsing inverts encoding
  //

  /** The items whose encoding reads back: definite lengths, 64-bit arguments. */
  predicate Plain(t: Item)
    decreases t
  {
    match t
    case UInt(v) => v < 0x1_0000_0000_0000_0000
    case NInt(v) => v < MAX_NEGATIVE
    case Bytes(s) => |s| < 0x1_0000_0000_0000_0000
    case Text(s) => |s| < 0x1_0000_0000_0000_0000
    case Array(definite, items) => definite && |items| < 0x1_0000_0000_0000_0000 && PlainAll(items)
    case Map(definite, items) =>
      definite && |items| < 0x1_0000_0000_0000_0000 && LabelsOk(items) && PlainAll(items)
    case Other => false
  }

  predicate PlainAll(ts: seq<Item>)
    decreases ts
  {
    ts == [] || (Plain(ts[0]) && PlainAll(ts[1..]))
  }

  lemma WidthHolds(low: nat)
    requires 24 <= low < 28
    ensures Pow256(Width(low)) == if low == 24 then 0x100 else if low == 25 then 0x1_0000
                             else if low == 26 then 0x1_0000_0000 else 0x1_0000_0000_0000_0000
  {
    assert Pow256(2) == 0x1_0000;
    assert Pow256(4) == 0x1_0000 * Pow256(2);
    assert Pow256(6) == 0x1_0000 * Pow256(4);
  }

  lemma ParseOfWideHead(major: nat, low: nat, arg: seq<byte>, rest: seq<byte>)
    requires major < 8 && 24 <= low < 28 && |arg| == Width(low)
    ensures ParseHead([major * 32 + low] + arg + rest) == Some(HeadInfo(major, Some(Value(arg)), rest))
  {
    hide Value, Width;
    var b := [major * 32 + low] + arg + rest;
    HeadByte(major, low);
    assert b[0] == major * 32 + low;
    assert b[1..1 + |arg|] == arg && b[1 + |arg|..] == rest;
  }

  lemma HeadByte(major: nat, low: nat)
    requires low < 32
    ensures (major * 32 + low) / 32 == major && (major * 32 + low) % 32 == low
  {
  }

  lemma ParseOfHead(major: nat, v: nat, rest: seq<byte>)
    requires major < 8 && v < 0x1_0000_0000_0000_0000
    ensures ParseHead(Head(major, v) + rest) == Some(HeadInfo(major, Some(v), rest))
  {
    if v < 24 {
      assert ([major * 32 + v] + rest)[1..] == rest;
    } else {
      var low := Low(v);
      ParseOfWideHead(major, low, BigEndian(v, Width(low)), rest);
      WidthHolds(low);
      ValueOfBigEndian(v, Width(low));
    }
  }

  /**
   * No head the parser accepts for the same type and argument is shorter:
   * `Head` is the preferred serialization of section 4.1 of RFC 8949.
   */
  lemma HeadIsShortest(b: seq<byte>)
    requires ParseHead(b).Some? && ParseHead(b).value.arg.Some?
    ensures var h := ParseHead(b).value; |Head(h.major, h.arg.value)| <= |b| - |h.rest|
  {
    var low := b[0] % 32;
    if low >= 24 {
      var arg := b[1..1 + Width(low)];
      ValueBound(arg);
      WidthHolds(low);
    }
  }

  lemma {:induction false} ParseOfEnc(t: Item, rest: seq<byte>)
    requires Plain(t)
    ensures ParseItem(Enc(t) + rest) == Some(Parsed(t, rest))
    decreases t
  {
    match t
    case UInt(v) => ParseOfHead(0, v, rest);
    case NInt(v) => ParseOfHead(1, v, rest);
    case Bytes(s) => ParseOfString(2, s, rest);
    case Text(s) => ParseOfString(3, s, rest);
    case Array(_, items) =>
      ParseOfEncAll(items, rest);
      ParseOfContainer(4, |items|, EncAll(items), rest);
    case Map(_, items) =>
      ParseOfEncAll(items, rest);
      ParseOfContainer(5, |items| / 2, EncAll(items), rest);
  }

  function ContainerOf(major: nat, r: Option<ParsedAll>): Option<Parsed> {
    if major == 5 then MapOf(true, r)
    else
      var p :- r;
      Some(Parsed(Array(true, p.items), p.rest))
  }

  lemma ParseOfContainer(major: nat, count: nat, content: seq<byte>, rest: seq<byte>)
    requires 4 <= major <= 5 && count < 0x1_0000_0000_0000_0000
    ensures ParseItem(Head(major, count) + content + rest)
         == ContainerOf(major, ParseN(content + rest, if major == 4 then count else 2 * count))
  {
    ParseOfHead(major, count, content + rest);
    assert Head(major, count) + content + rest == Head(major, count) + (content + rest);
  }

  lemma ParseOfString(major: nat, s: seq<byte>, rest: seq<byte>)
    requires 2 <= major <= 3 && |s| < 0x1_0000_0000_0000_0000
    ensures ParseItem(Head(major, |s|) + s + rest)
         == Some(Parsed(if major == 2 then Bytes(s) else Text(s), rest))
  {
    ParseOfHead(major, |s|, s + rest);
    assert Head(major, |s|) + s + rest == Head(major, |s|) + (s + rest);
    assert (s + rest)[..|s|] == s && (s + rest)[|s|..] == rest;
  }

  lemma {:induction false} ParseOfEncAll(ts: seq<Item>, rest: seq<byte>)
    requires PlainAll(ts)
    ensures ParseN(EncAll(ts) + rest, |ts|) == Some(ParsedAll(ts, rest))
    decreases ts
  {
    hide ParseItem, Enc, Plain;
    if ts == [] {
      assert EncAll(ts) + rest == rest;
    } else {
      var others := EncAll(ts[1..]) + rest;
      ParseOfEnc(ts[0], others);
      assert EncAll(ts) + rest == Enc(ts[0]) + others;
      ParseOfEncAll(ts[1..], rest);
      assert [ts[0]] + ts[1..] == ts;
      assert ParseN(Enc(ts[0]) + others, |ts|) == Some(ParsedAll([ts[0]] + ts[1..], rest));
    }
  }

  /** Encodings are injective, and none is a proper prefix of another. */
  lemma EncIsPrefixFree(s: Item, t: Item, x: seq<byte>, y: seq<byte>)
    requires Plain(s) && Plain(t)
    requires Enc(s) + x == Enc(t) + y
    ensures s == t && x == y
  {
    ParseOfEnc(s, x);
    ParseOfEnc(t, y);
  }

  lemma ParseSequenceOfEnc(t: Item)
    requires Plain(t)
    ensures ParseSequence(Enc(t)) == Some([t])
  {
    ParseOfEnc(t, []);
    assert Enc(t) + [] == Enc(t);
    assert [t] + [] == [t] && ParseSequence([]) == Some([]);
  }

  //
  // Core deterministic encoding (section 4.2.1 of RFC 8949)
  //

  /** The labels of every map are in strict bytewise order of their encodings. */
  predicate KeysSorted(t: Item)
    decreases t
  {
    match t
    case Array(_, items) => KeysSortedAll(items)
    case Map(_, items) => LabelsAscend(items) && KeysSortedAll(items)
    case _ => true
  }

  predicate KeysSortedAll(ts: seq<Item>)
    decreases ts
  {
    ts == [] || (KeysSorted(ts[0]) && KeysSortedAll(ts[1..]))
  }

  predicate LabelsAscend(items: seq<Item>) {
    forall i, j | 0 <= i < j < |items| && i % 2 == 0 && j % 2 == 0 ::
      LexLess(Enc(items[i]), Enc(items[j]))
  }

  /** Shortest heads, definite lengths and sorted labels throughout. */
  ghost predicate CoreDeterministic(b: seq<byte>) {
    exists t :: Plain(t) && KeysSorted(t) && Enc(t) == b
  }

  //
  // The traversal that counts items
  //

  /**
   * The nesting level of every item a full traversal reports. A map entry is
   * reported once, label and value together.
   */
  function Walk(t: Item, level: nat): seq<nat>
    decreases t
  {
    match t
    case Array(_, items) => [level] + WalkAll(items, level + 1)
    case Map(_, items) => [level] + WalkEntries(items, level + 1)
    case _ => [level]
  }

  function WalkAll(ts: seq<Item>, level: nat): seq<nat>
    decreases ts
  {
    if ts == [] then [] else Walk(ts[0], level) + WalkAll(ts[1..], level)
  }

  function WalkEntries(items: seq<Item>, level: nat): seq<nat>
    decreases items
  {
    if |items| < 2 then [] else Walk(items[1], level) + WalkEntries(items[2..], level)
  }
}
