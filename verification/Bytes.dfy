/** Byte strings, their lexicographic order and their big-endian values. */
module Bytes {

  type byte = x: int | 0 <= x < 0x100
  type u16 = x: int | 0 <= x < 0x1_0000
  type u32 = x: int | 0 <= x < 0x1_0000_0000
  type u64 = x: int | 0 <= x < 0x1_0000_0000_0000_0000
  type i64 = x: int | -0x8000_0000_0000_0000 <= x < 0x8000_0000_0000_0000

  /** `std::lexicographical_compare` on bytes; also `operator<` of `std::string`. */
  predicate LexLess(a: seq<byte>, b: seq<byte>) {
    b != [] && (a == [] || a[0] < b[0] || (a[0] == b[0] && LexLess(a[1..], b[1..])))
  }

  /** `a` and `b` agree up to `k`, where `a` ends before `b` or has the smaller octet. */
  predicate DiffersAt(a: seq<byte>, b: seq<byte>, k: nat) {
    k <= |a| && k < |b| && a[..k] == b[..k] && (k == |a| || a[k] < b[k])
  }

  /** `a` comes before `b`: somewhere they differ for the first time. */
  ghost predicate Precedes(a: seq<byte>, b: seq<byte>) { exists k: nat :: DiffersAt(a, b, k) }

  /** The order is decided where the strings first differ. */
  lemma {:induction false} LexLessByFirstDifference(a: seq<byte>, b: seq<byte>)
    ensures LexLess(a, b) <==> Precedes(a, b)
  {
    if b == [] {
    } else if a == [] || a[0] != b[0] {
      assert a == [] || a[0] < b[0] ==> DiffersAt(a, b, 0);
      assert forall k: nat | DiffersAt(a, b, k) && k > 0 :: a[..k][0] == b[..k][0];
    } else {
      var x, y := a[1..], b[1..];
      LexLessByFirstDifference(x, y);
      if k: nat :| DiffersAt(x, y, k) {
        assert a[..k + 1] == [a[0]] + x[..k] && b[..k + 1] == [b[0]] + y[..k];
        assert DiffersAt(a, b, k + 1);
      }
      if k: nat :| DiffersAt(a, b, k) {
        assert k > 0;
        assert x[..k - 1] == a[..k][1..] && y[..k - 1] == b[..k][1..];
        assert DiffersAt(x, y, k - 1);
      }
    }
  }

  lemma {:induction false} LexAsymmetric(a: seq<byte>, b: seq<byte>)
    ensures !(LexLess(a, b) && LexLess(b, a))
    ensures !LexLess(a, a)
    decreases |a| + |b|
  {
    if a != [] {
      LexAsymmetric(a[1..], if b == [] then b else b[1..]);
    }
  }

  lemma {:induction false} LexTransitive(a: seq<byte>, b: seq<byte>, c: seq<byte>)
    requires LexLess(a, b) && LexLess(b, c)
    ensures LexLess(a, c)
  {
    if a != [] && a[0] == b[0] == c[0] {
      LexTransitive(a[1..], b[1..], c[1..]);
    }
  }

  lemma {:induction false} LexTotal(a: seq<byte>, b: seq<byte>)
    requires a != b
    ensures LexLess(a, b) || LexLess(b, a)
  {
    if a != [] && b != [] && a[0] == b[0] {
      assert a == [a[0]] + a[1..] && b == [b[0]] + b[1..];
      LexTotal(a[1..], b[1..]);
    }
  }

  /** The number a byte string denotes, most significant byte first. */
  function Value(s: seq<byte>): nat {
    if s == [] then 0 else Value(s[..|s| - 1]) * 0x100 + s[|s| - 1]
  }

  /** The `width` low bytes of `v`, most significant first. */
  function BigEndian(v: nat, width: nat): (s: seq<byte>)
    ensures |s| == width
  {
    if width == 0 then [] else BigEndian(v / 0x100, width - 1) + [v % 0x100]
  }

  function Pow256(n: nat): nat {
    if n == 0 then 1 else 0x100 * Pow256(n - 1)
  }

  lemma {:induction false} ValueBound(s: seq<byte>)
    ensures Value(s) < Pow256(|s|)
  {
    if s != [] {
      ValueBound(s[..|s| - 1]);
    }
  }

  /** Reading back a fixed-width number gives it back when it fits. */
  lemma {:induction false} ValueOfBigEndian(v: nat, width: nat)
    requires v < Pow256(width)
    ensures Value(BigEndian(v, width)) == v
  {
    if width > 0 {
      ValueOfBigEndian(v / 0x100, width - 1);
      assert BigEndian(v, width)[..width - 1] == BigEndian(v / 0x100, width - 1);
    }
  }

  /** Lexicographic order of equally long strings is the order of their values. */
  lemma {:induction false} LexIsNumeric(a: seq<byte>, b: seq<byte>)
    requires |a| == |b|
    ensures LexLess(a, b) <==> Value(a) < Value(b)
    ensures a == b <==> Value(a) == Value(b)
  {
    if a != [] {
      var n := |a| - 1;
      LexIsNumeric(a[..n], b[..n]);
      LexSnoc(a[..n], b[..n], a[n], b[n]);
      assert a == a[..n] + [a[n]] && b == b[..n] + [b[n]];
    }
  }

  lemma {:induction false} LexSnoc(a: seq<byte>, b: seq<byte>, x: byte, y: byte)
    requires |a| == |b|
    ensures LexLess(a + [x], b + [y]) <==> LexLess(a, b) || (a == b && x < y)
  {
    if a != [] {
      LexSnoc(a[1..], b[1..], x, y);
      assert (a + [x])[1..] == a[1..] + [x] && (b + [y])[1..] == b[1..] + [y];
      assert a == [a[0]] + a[1..] && b == [b[0]] + b[1..];
    }
  }
}
