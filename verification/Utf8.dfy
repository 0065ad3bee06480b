/** The hand-written UTF-8 validator against the encoding of RFC 3629. */
module Utf8 {
  import opened Bytes

  /** A Unicode scalar value: a code point that is not a surrogate. */
  type Scalar = c: int | 0 <= c <= 0x10ffff && !(0xd800 <= c <= 0xdfff)

  /** `c >> 6` and `c & 0x3f`. */
  function Shift(c: nat): nat { c / 0x40 }

  function Sextet(c: nat): (r: nat)
    ensures r < 0x40
  {
    c % 0x40
  }

  /** The octets of one scalar value (section 3 of RFC 3629). */
  function Encode(c: Scalar): seq<byte> {
    var b := Shift(c);
    var a := Shift(b);
    if c < 0x80 then [c]
    else if c < 0x800 then [0xc0 + b, 0x80 + Sextet(c)]
    else if c < 0x1_0000 then [0xe0 + a, 0x80 + Sextet(b), 0x80 + Sextet(c)]
    else [0xf0 + Shift(a), 0x80 + Sextet(a), 0x80 + Sextet(b), 0x80 + Sextet(c)]
  }

  function EncodeAll(cs: seq<Scalar>): seq<byte> {
    if cs == [] then [] else Encode(cs[0]) + EncodeAll(cs[1..])
  }

  /** A byte string is UTF-8 when it encodes some sequence of scalar values. */
  ghost predicate IsUtf8(s: seq<byte>) {
    exists cs :: EncodeAll(cs) == s
  }

  //
  // One encoded scalar value, read from its first octet
  //

  /** The number of octets that must follow `first`; 4 for an illegal one. */
  function Continuations(first: byte): nat {
    if first < 0x80 then 0
    else if first / 0x20 == 6 then 1
    else if first / 0x10 == 0xe then 2
    else if first / 8 == 0x1e then 3
    else 4
  }

  /** The payload bits of a first octet followed by `count` others. */
  function LeadBits(first: byte, count: nat): nat {
    if count == 1 then first % 0x20 else if count == 2 then first % 0x10 else first % 8
  }

  predicate IsContinuation(x: byte) { x / 0x40 == 2 }

  function Assemble(lead: nat, tail: seq<byte>): nat {
    if tail == [] then lead else Assemble(lead, tail[..|tail| - 1]) * 0x40 + Sextet(tail[|tail| - 1])
  }

  predicate Overlong(count: nat, c: nat) {
    (count == 1 && c < 0x80) || (count == 2 && c < 0x800) || (count == 3 && c < 0x1_0000)
  }

  predicate IsScalar(c: nat) { c <= 0x10ffff && !(0xd800 <= c <= 0xdfff) }

  /** `s` starts with one complete, shortest encoding; `c` is its value. */
  predicate Starts(s: seq<byte>, c: nat) {
    s != [] &&
    var count := Continuations(s[0]);
    count < 4 && count < |s| &&
    (count == 0 ==> c == s[0]) &&
    (count > 0 ==>
       (forall i | 1 <= i <= count :: IsContinuation(s[i])) &&
       c == Assemble(LeadBits(s[0], count), s[1..1 + count]) && !Overlong(count, c) && IsScalar(c))
  }

  lemma AssembleUpTo3(lead: nat, tail: seq<byte>)
    requires 1 <= |tail| <= 3
    ensures var a := lead * 0x40 + Sextet(tail[0]);
            if |tail| == 1 then Assemble(lead, tail) == a
            else
              var b := a * 0x40 + Sextet(tail[1]);
              if |tail| == 2 then Assemble(lead, tail) == b
              else Assemble(lead, tail) == b * 0x40 + Sextet(tail[2])
  {
    var t := tail[..|tail| - 1];
    assert Assemble(lead, []) == lead;
    if |t| > 0 {
      AssembleUpTo3(lead, t);
    }
  }

  lemma AssembleNone(lead: nat, s: seq<byte>)
    requires s != []
    ensures Assemble(lead, s[1..1]) == lead
  {
    assert s[1..1] == [];
  }

  lemma AssembleOneMore(lead: nat, s: seq<byte>, n: nat)
    requires n + 1 < |s|
    ensures Assemble(lead, s[1..2 + n]) == Assemble(lead, s[1..1 + n]) * 0x40 + Sextet(s[n + 1])
  {
    assert s[1..2 + n][..n] == s[1..1 + n];
  }

  lemma ShiftBack(q: nat, r: nat)
    requires r < 0x40
    ensures Shift(q * 0x40 + r) == q && Sextet(q * 0x40 + r) == r
  {
  }

  lemma ContinuationByte(x: byte)
    ensures IsContinuation(x) <==> x == 0x80 + Sextet(x)
  {
  }

  lemma SextetOfContinuation(x: nat)
    requires x < 0x40
    ensures Sextet(0x80 + x) == x
  {
  }

  /** The encoding of a number given by its first digit and up to three sextets. */
  lemma EncodeOfSextets(lead: nat, x: nat, y: nat, z: nat)
    requires x < 0x40 && y < 0x40 && z < 0x40
    ensures var c := lead * 0x40 + x;
            lead < 0x20 && 0x80 <= c ==> Encode(c) == [0xc0 + lead, 0x80 + x]
    ensures var c := (lead * 0x40 + x) * 0x40 + y;
            lead < 0x10 && IsScalar(c) && 0x800 <= c ==> Encode(c) == [0xe0 + lead, 0x80 + x, 0x80 + y]
    ensures var c := ((lead * 0x40 + x) * 0x40 + y) * 0x40 + z;
            lead < 8 && IsScalar(c) && 0x1_0000 <= c ==> Encode(c) == [0xf0 + lead, 0x80 + x, 0x80 + y, 0x80 + z]
  {
    var a := lead * 0x40 + x;
    var b := a * 0x40 + y;
    ShiftBack(lead, x);
    ShiftBack(a, y);
    ShiftBack(b, z);
    hide Shift, Sextet;
  }

  lemma EncodeOfDigits(lead: nat, tail: seq<byte>)
    requires 1 <= |tail| <= 3 && forall i | 0 <= i < |tail| :: IsContinuation(tail[i])
    requires lead < if |tail| == 1 then 0x20 else if |tail| == 2 then 0x10 else 8
    requires var c := Assemble(lead, tail); IsScalar(c) && !Overlong(|tail|, c)
    ensures Encode(Assemble(lead, tail))
         == [(if |tail| == 1 then 0xc0 else if |tail| == 2 then 0xe0 else 0xf0) + lead] + tail
  {
    AssembleUpTo3(lead, tail);
    forall i | 0 <= i < |tail| ensures tail[i] == 0x80 + Sextet(tail[i]) {
      ContinuationByte(tail[i]);
    }
    hide Shift, Sextet, Encode, Assemble, IsContinuation;
    if |tail| == 1 {
      EncodeOfSextets(lead, Sextet(tail[0]), 0, 0);
    } else if |tail| == 2 {
      EncodeOfSextets(lead, Sextet(tail[0]), Sextet(tail[1]), 0);
    } else {
      EncodeOfSextets(lead, Sextet(tail[0]), Sextet(tail[1]), Sextet(tail[2]));
    }
  }

  /** What the checks accept at a position is the encoding of one scalar value. */
  lemma StartsIsEncode(s: seq<byte>, c: nat)
    requires Starts(s, c)
    ensures IsScalar(c) && Encode(c) == s[..1 + Continuations(s[0])]
  {
    var count := Continuations(s[0]);
    if count > 0 {
      var tail := s[1..1 + count];
      assert s[..1 + count] == [s[0]] + tail;
      forall i | 0 <= i < count ensures IsContinuation(tail[i]) {
        assert tail[i] == s[i + 1];
      }
      EncodeOfDigits(LeadBits(s[0], count), tail);
    }
  }

  lemma DigitsOfEncode(c: Scalar)
    requires c >= 0x80
    ensures var e := Encode(c);
            Continuations(e[0]) == |e| - 1 && Assemble(LeadBits(e[0], |e| - 1), e[1..]) == c
  {
    var e := Encode(c);
    AssembleUpTo3(LeadBits(e[0], |e| - 1), e[1..]);
    SextetOfContinuation(Sextet(c));
    if c >= 0x800 {
      SextetOfContinuation(Sextet(Shift(c)));
    }
    if c >= 0x1_0000 {
      SextetOfContinuation(Sextet(Shift(Shift(c))));
    }
  }

  lemma EncodeContinues(c: Scalar, i: nat)
    requires 1 <= i < |Encode(c)|
    ensures IsContinuation(Encode(c)[i])
  {
  }

  /** The encoding of a scalar value passes the checks, whatever follows it. */
  lemma EncodeStarts(c: Scalar, rest: seq<byte>)
    ensures Starts(Encode(c) + rest, c)
    ensures Continuations(Encode(c)[0]) == |Encode(c)| - 1
  {
    var e := Encode(c);
    var s := e + rest;
    assert s[0] == e[0];
    if c >= 0x80 {
      DigitsOfEncode(c);
      forall i | 1 <= i < |e| ensures IsContinuation(s[i]) {
        EncodeContinues(c, i);
      }
      assert s[1..|e|] == e[1..];
    }
  }

  /** A byte string starts with the encoding of at most one scalar value. */
  lemma EncodeIsPrefixFree(c: Scalar, d: Scalar, x: seq<byte>, y: seq<byte>)
    requires Encode(c) + x == Encode(d) + y
    ensures c == d && x == y
  {
    EncodeStarts(c, x);
    EncodeStarts(d, y);
    var s := Encode(c) + x;
    assert x == s[|Encode(c)|..] && y == s[|Encode(d)|..];
  }

  /** The sequence of scalar values a UTF-8 string encodes is unique. */
  lemma {:induction false} EncodeAllIsInjective(cs: seq<Scalar>, ds: seq<Scalar>)
    requires EncodeAll(cs) == EncodeAll(ds)
    ensures cs == ds
  {
    if cs != [] && ds != [] {
      EncodeIsPrefixFree(cs[0], ds[0], EncodeAll(cs[1..]), EncodeAll(ds[1..]));
      EncodeAllIsInjective(cs[1..], ds[1..]);
      assert cs == [cs[0]] + cs[1..] && ds == [ds[0]] + ds[1..];
    } else {
      assert forall c: Scalar :: Encode(c) != [];
    }
  }

  lemma EmptyIsUtf8()
    ensures IsUtf8([])
  {
    assert EncodeAll([]) == [];
  }

  /** Dropping one encoded scalar value changes nothing. */
  lemma DropOne(s: seq<byte>, c: nat)
    requires Starts(s, c)
    ensures IsUtf8(s) <==> IsUtf8(s[1 + Continuations(s[0])..])
  {
    StartsIsEncode(s, c);
    var n := 1 + Continuations(s[0]);
    assert s == Encode(c) + s[n..];
    if IsUtf8(s) {
      var cs: seq<Scalar> :| EncodeAll(cs) == s;
      EncodeIsPrefixFree(c, cs[0], s[n..], EncodeAll(cs[1..]));
      assert EncodeAll(cs[1..]) == s[n..];
    }
    if IsUtf8(s[n..]) {
      var cs: seq<Scalar> :| EncodeAll(cs) == s[n..];
      assert ([c] + cs)[1..] == cs;
      assert EncodeAll([c] + cs) == s;
    }
  }

  /** Text that is UTF-8 passes the checks at its first octet. */
  lemma Utf8Starts(s: seq<byte>) returns (c: nat)
    requires s != [] && IsUtf8(s)
    ensures Starts(s, c)
  {
    var cs: seq<Scalar> :| EncodeAll(cs) == s;
    EncodeStarts(cs[0], EncodeAll(cs[1..]));
    c := cs[0];
  }

  /** `valid_utf8`: one pass with an index, an octet count and a code point. */
  method ValidUtf8(value: seq<byte>) returns (valid: bool)
    ensures valid <==> IsUtf8(value)
  {
    hide IsUtf8, Encode, EncodeAll, Assemble, Sextet;
    var index := 0;
    assert value[0..] == value;
    while index < |value|
      invariant index <= |value|
      invariant IsUtf8(value) <==> IsUtf8(value[index..])
    {
      ghost var s := value[index..];
      var first := value[index];
      index := index + 1;
      if first <= 0x7f {
        DropOne(s, first);
        continue;
      }
      var count, codePoint := 0, 0;
      if first / 0x20 == 6 {
        count, codePoint := 1, first % 0x20;
      } else if first / 0x10 == 0xe {
        count, codePoint := 2, first % 0x10;
      } else if first / 8 == 0x1e {
        count, codePoint := 3, first % 8;
      } else {
        if IsUtf8(s) { var c := Utf8Starts(s); }
        return false;
      }
      if index + count > |value| {
        if IsUtf8(s) { var c := Utf8Starts(s); }
        return false;
      }
      ghost var lead := codePoint;
      AssembleNone(lead, s);
      for done := 0 to count
        invariant index + count - done <= |value|
        invariant index == |value| - |s| + 1 + done
        invariant forall i | 1 <= i <= done :: IsContinuation(s[i])
        invariant codePoint == Assemble(lead, s[1..1 + done])
      {
        var next := value[index];
        assert next == s[1 + done];
        index := index + 1;
        if next / 0x40 != 2 {
          if IsUtf8(s) { var c := Utf8Starts(s); }
          return false;
        }
        AssembleOneMore(lead, s, done);
        codePoint := codePoint * 0x40 + Sextet(next);
      }
      var overlong := (count == 1 && codePoint < 0x80) || (count == 2 && codePoint < 0x800) ||
                      (count == 3 && codePoint < 0x1_0000);
      if overlong || codePoint > 0x10ffff || 0xd800 <= codePoint <= 0xdfff {
        if IsUtf8(s) { var c := Utf8Starts(s); }
        return false;
      }
      assert Starts(s, codePoint);
      DropOne(s, codePoint);
      assert value[index..] == s[1 + count..];
    }
    assert value[index..] == [];
    EmptyIsUtf8();
    return true;
  }

  //
  // The grammar of RFC 3629
  //

  predicate In(x: byte, low: byte, high: byte) { low <= x <= high }

  /** One character in the grammar of section 4 of RFC 3629. */
  predicate IsCharacter(u: seq<byte>) {
    (|u| == 1 && In(u[0], 0x00, 0x7f))
    || (|u| == 2 && In(u[0], 0xc2, 0xdf) && In(u[1], 0x80, 0xbf))
    || (|u| == 3 && In(u[2], 0x80, 0xbf)
        && ((u[0] == 0xe0 && In(u[1], 0xa0, 0xbf)) || (In(u[0], 0xe1, 0xec) && In(u[1], 0x80, 0xbf))
            || (u[0] == 0xed && In(u[1], 0x80, 0x9f)) || (In(u[0], 0xee, 0xef) && In(u[1], 0x80, 0xbf))))
    || (|u| == 4 && In(u[2], 0x80, 0xbf) && In(u[3], 0x80, 0xbf)
        && ((u[0] == 0xf0 && In(u[1], 0x90, 0xbf)) || (In(u[0], 0xf1, 0xf3) && In(u[1], 0x80, 0xbf))
            || (u[0] == 0xf4 && In(u[1], 0x80, 0x8f))))
  }

  /** A sequence of such characters. */
  predicate InGrammar(s: seq<byte>)
    decreases |s|
  {
    s == [] || exists n | 1 <= n <= 4 && n <= |s| :: IsCharacter(s[..n]) && InGrammar(s[n..])
  }

  /** The number that an encoded character stands for. */
  function Number(u: seq<byte>): nat
    requires IsCharacter(u)
  {
    if |u| == 1 then u[0]
    else if |u| == 2 then (u[0] as int - 0xc0) * 0x40 + (u[1] as int - 0x80)
    else if |u| == 3 then ((u[0] as int - 0xe0) * 0x40 + (u[1] as int - 0x80)) * 0x40 + (u[2] as int - 0x80)
    else (((u[0] as int - 0xf0) * 0x40 + (u[1] as int - 0x80)) * 0x40 + (u[2] as int - 0x80)) * 0x40
         + (u[3] as int - 0x80)
  }

  lemma CharacterIsEncoded(u: seq<byte>)
    requires IsCharacter(u)
    ensures IsScalar(Number(u)) && Encode(Number(u)) == u
  {
    if |u| == 2 {
      EncodeOfSextets(u[0] as int - 0xc0, u[1] as int - 0x80, 0, 0);
    } else if |u| == 3 {
      EncodeOfSextets(u[0] as int - 0xe0, u[1] as int - 0x80, u[2] as int - 0x80, 0);
    } else if |u| == 4 {
      EncodeOfSextets(u[0] as int - 0xf0, u[1] as int - 0x80, u[2] as int - 0x80, u[3] as int - 0x80);
    }
    hide Encode;
  }

  lemma EncodedIsCharacter(c: Scalar)
    ensures IsCharacter(Encode(c))
  {
    var b := c / 0x40;
    var a := b / 0x40;
    assert c == b * 0x40 + c % 0x40 && b == a * 0x40 + b % 0x40;
    assert a == a / 0x40 * 0x40 + a % 0x40;
  }

  /** Text is valid exactly if it is in the grammar. */
  lemma {:induction false} Utf8IsTheGrammar(s: seq<byte>)
    ensures IsUtf8(s) <==> InGrammar(s)
    decreases |s|
  {
    hide IsCharacter, Encode;
    if s == [] {
      EmptyIsUtf8();
    } else {
      if IsUtf8(s) {
        var cs: seq<Scalar> :| EncodeAll(cs) == s;
        var u := Encode(cs[0]);
        EncodedIsCharacter(cs[0]);
        EncodeStarts(cs[0], []);
        EncodeSize(cs[0]);
        assert s[..|u|] == u && s[|u|..] == EncodeAll(cs[1..]);
        Utf8IsTheGrammar(s[|u|..]);
      }
      if InGrammar(s) {
        var n :| 1 <= n <= 4 && n <= |s| && IsCharacter(s[..n]) && InGrammar(s[n..]);
        Utf8IsTheGrammar(s[n..]);
        CharacterIsEncoded(s[..n]);
        var cs: seq<Scalar> :| EncodeAll(cs) == s[n..];
        var c: Scalar := Number(s[..n]);
        assert ([c] + cs)[1..] == cs && s == s[..n] + s[n..];
        assert EncodeAll([c] + cs) == s;
      }
    }
  }

  lemma EncodeSize(c: Scalar)
    ensures 1 <= |Encode(c)| <= 4
  {
  }
}
