/**
 * The signature range check, done on byte arrays, against the integers of the
 * P-256 group order (section 2.4.2 of SEC 2 version 2.0).
 */
module LowS {
  import opened Bytes

  const ORDER: seq<byte> := [
    0xff, 0xff, 0xff, 0xff, 0x00, 0x00, 0x00, 0x00, 0xff, 0xff, 0xff, 0xff, 0xff, 0xff, 0xff, 0xff,
    0xbc, 0xe6, 0xfa, 0xad, 0xa7, 0x17, 0x9e, 0x84, 0xf3, 0xb9, 0xca, 0xc2, 0xfc, 0x63, 0x25, 0x51]

  const HALF_ORDER: seq<byte> := [
    0x7f, 0xff, 0xff, 0xff, 0x80, 0x00, 0x00, 0x00, 0x7f, 0xff, 0xff, 0xff, 0xff, 0xff, 0xff, 0xff,
    0xde, 0x73, 0x7d, 0x56, 0xd3, 0x8b, 0xcf, 0x42, 0x79, 0xdc, 0xe5, 0x61, 0x7e, 0x31, 0x92, 0xa8]

  /** The group order, as an integer. */
  const N: nat := 0xffffffff_00000000_ffffffff_ffffffff_bce6faad_a7179e84_f3b9cac2_fc632551

  /** Half of it, rounded down. */
  const HALF: nat := 0x7fffffff_80000000_7fffffff_ffffffff_de737d56_d38bcf42_79dce561_7e3192a8

  function CompareBigEndian(left: seq<byte>, right: seq<byte>): int {
    if LexLess(left, right) then -1 else if LexLess(right, left) then 1 else 0
  }

  predicate AllZero(s: seq<byte>) {
    forall i | 0 <= i < |s| :: s[i] == 0
  }

  predicate ValidLowS(signature: seq<byte>) {
    |signature| == 64 &&
    var r, s := signature[..32], signature[32..];
    !AllZero(r) && !AllZero(s) && CompareBigEndian(r, ORDER) < 0 && CompareBigEndian(s, ORDER) < 0
    && CompareBigEndian(s, HALF_ORDER) <= 0
  }

  /** Comparing equally long arrays is comparing the numbers they denote. */
  lemma CompareIsNumeric(left: seq<byte>, right: seq<byte>)
    requires |left| == |right|
    ensures CompareBigEndian(left, right) == if Value(left) < Value(right) then -1
                                             else if Value(left) > Value(right) then 1 else 0
  {
    LexIsNumeric(left, right);
    LexIsNumeric(right, left);
  }

  lemma {:induction false} AllZeroIsZero(s: seq<byte>)
    ensures AllZero(s) <==> Value(s) == 0
  {
    if s != [] {
      AllZeroIsZero(s[..|s| - 1]);
      assert AllZero(s) <==> AllZero(s[..|s| - 1]) && s[|s| - 1] == 0;
    }
  }

  function Word(s: seq<byte>, k: nat): int
    requires k + 4 <= |s|
  {
    ((s[k] as int * 0x100 + s[k + 1] as int) * 0x100 + s[k + 2] as int) * 0x100 + s[k + 3] as int
  }

  /** Four more bytes multiply the value by 2^32 and add one word. */
  lemma FourMore(s: seq<byte>, k: nat, before: nat, word: nat)
    requires k + 4 <= |s| && Value(s[..k]) == before && Word(s, k) == word
    ensures Value(s[..k + 4]) == before * 0x1_0000_0000 + word
  {
    OneMore(s, k);
    OneMore(s, k + 1);
    OneMore(s, k + 2);
    OneMore(s, k + 3);
    hide Value;
  }

  lemma OneMore(s: seq<byte>, k: nat)
    requires k < |s|
    ensures Value(s[..k + 1]) == Value(s[..k]) * 0x100 + s[k] as int
  {
    assert s[..k + 1][..k] == s[..k];
  }

  // The constant arrays are the group order and half of it, rounded down.

  lemma OrderValueHigh()
    ensures Value(ORDER[..16]) == 0xffffffff00000000ffffffffffffffff
  {
    hide Value;
    ValueOfNothing();
    assert ORDER[..0] == [];
    FourMore(ORDER, 0, 0x0, 0xffffffff);
    FourMore(ORDER, 4, 0xffffffff, 0x0);
    FourMore(ORDER, 8, 0xffffffff00000000, 0xffffffff);
    FourMore(ORDER, 12, 0xffffffff00000000ffffffff, 0xffffffff);
  }

  lemma OrderValue()
    ensures Value(ORDER) == N
  {
    hide Value;
    OrderValueHigh();
    assert ORDER[..32] == ORDER;
    FourMore(ORDER, 16, 0xffffffff00000000ffffffffffffffff, 0xbce6faad);
    FourMore(ORDER, 20, 0xffffffff00000000ffffffffffffffffbce6faad, 0xa7179e84);
    FourMore(ORDER, 24, 0xffffffff00000000ffffffffffffffffbce6faada7179e84, 0xf3b9cac2);
    FourMore(ORDER, 28, 0xffffffff00000000ffffffffffffffffbce6faada7179e84f3b9cac2, 0xfc632551);
  }

  lemma HalfOrderValueHigh()
    ensures Value(HALF_ORDER[..16]) == 0x7fffffff800000007fffffffffffffff
  {
    hide Value;
    ValueOfNothing();
    assert HALF_ORDER[..0] == [];
    FourMore(HALF_ORDER, 0, 0x0, 0x7fffffff);
    FourMore(HALF_ORDER, 4, 0x7fffffff, 0x80000000);
    FourMore(HALF_ORDER, 8, 0x7fffffff80000000, 0x7fffffff);
    FourMore(HALF_ORDER, 12, 0x7fffffff800000007fffffff, 0xffffffff);
  }

  lemma HalfOrderValue()
    ensures Value(HALF_ORDER) == HALF
  {
    hide Value;
    HalfOrderValueHigh();
    assert HALF_ORDER[..32] == HALF_ORDER;
    FourMore(HALF_ORDER, 16, 0x7fffffff800000007fffffffffffffff, 0xde737d56);
    FourMore(HALF_ORDER, 20, 0x7fffffff800000007fffffffffffffffde737d56, 0xd38bcf42);
    FourMore(HALF_ORDER, 24, 0x7fffffff800000007fffffffffffffffde737d56d38bcf42, 0x79dce561);
    FourMore(HALF_ORDER, 28, 0x7fffffff800000007fffffffffffffffde737d56d38bcf4279dce561, 0x7e3192a8);
  }

  lemma HalfIsHalf()
    ensures HALF == N / 2 && N % 2 == 1
  {
  }

  lemma ValueOfNothing()
    ensures Value([]) == 0
  {
  }

  /** The check on bytes is the range check on the two integers. */
  lemma ValidLowSIsArithmetic(signature: seq<byte>)
    ensures ValidLowS(signature) <==>
            |signature| == 64 && 1 <= Value(signature[..32]) < N && 1 <= Value(signature[32..]) <= N / 2
  {
    if |signature| == 64 {
      var r, s := signature[..32], signature[32..];
      AllZeroIsZero(r);
      AllZeroIsZero(s);
      OrderValue();
      HalfOrderValue();
      HalfIsHalf();
      CompareIsNumeric(r, ORDER);
      CompareIsNumeric(s, ORDER);
      CompareIsNumeric(s, HALF_ORDER);
    }
  }

  /** The fixed-width form of a signature. */
  function Signature(r: nat, s: nat): (b: seq<byte>)
    ensures |b| == 64
  {
    BigEndian(r, 32) + BigEndian(s, 32)
  }

  lemma OrderFits()
    ensures N < Pow256(32)
  {
    hide Pow256;
    FourBytes();
    PowerSum(4, 4);
    PowerSum(8, 8);
    PowerSum(16, 16);
  }

  lemma FourBytes()
    ensures Pow256(4) == 0x1_0000_0000
  {
    assert Pow256(2) == 0x1_0000;
  }

  lemma {:induction false} PowerSum(m: nat, n: nat)
    ensures Pow256(m + n) == Pow256(m) * Pow256(n)
  {
    if m > 0 {
      PowerSum(m - 1, n);
      assert Pow256(m + n) == 0x100 * (Pow256(m - 1) * Pow256(n));
    }
  }

  /** Of `s` and its complement exactly one passes: the smaller, as the reference signer picks it. */
  lemma ExactlyOneComplementIsLow(r: nat, s: nat)
    requires 1 <= r < N && 1 <= s < N
    ensures ValidLowS(Signature(r, s)) <==> s <= N - s
    ensures ValidLowS(Signature(r, s)) <==> !ValidLowS(Signature(r, N - s))
    ensures ValidLowS(Signature(r, if s < N - s then s else N - s))
  {
    LowIsSmall(r, s);
    LowIsSmall(r, N - s);
    HalfIsHalf();
  }

  lemma LowIsSmall(r: nat, s: nat)
    requires 1 <= r < N && 1 <= s < N
    ensures ValidLowS(Signature(r, s)) <==> s <= N / 2
  {
    OrderFits();
    ValueOfBigEndian(r, 32);
    ValueOfBigEndian(s, 32);
    var signature := Signature(r, s);
    assert signature[..32] == BigEndian(r, 32) && signature[32..] == BigEndian(s, 32);
    ValidLowSIsArithmetic(signature);
  }
}
