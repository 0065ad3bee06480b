/** The credential, its CBOR data model, and the order of its entitlements. */
module Credentials {
  import opened Wrappers
  import opened Bytes
  import opened Cbor

  // The enumerations are raw octets: a C++ enumeration can hold any of them,
  // and only the decoder and the semantic checks restrict the value.
  const PRESENCE: byte := 1
  const BOUNDED_U64: byte := 2
  const PERPETUAL: byte := 1
  const BOUNDED: byte := 2

  datatype Validity = Validity(kind: byte, notBefore: Option<i64>, notAfter: Option<i64>)

  datatype Entitlement = Entitlement(
    id: seq<byte>, productId: seq<byte>, rightKind: byte, grantSemantics: byte,
    validity: Validity, maxU64: Option<u64>)

  datatype Credential = Credential(
    schemaMajor: u16, schemaMinor: u16, credentialId: seq<byte>, licenseGrantId: seq<byte>,
    authorityRevision: u64, bindingId: seq<byte>, deviceId: seq<byte>, credentialGeneration: u64,
    issuedAt: i64, supersedes: Option<seq<byte>>, entitlements: seq<Entitlement>)

  datatype Envelope = Envelope(
    artifactKind: u64, envelopeVersion: u64, algorithmId: seq<byte>, keyId: seq<byte>,
    payload: seq<byte>, signature: seq<byte>)

  const MAX_ARTIFACT: nat := 64 * 1024
  const MAX_TEXT: nat := 1024
  const MAX_ITEMS: nat := 512
  const MAX_DEPTH: nat := 8
  const MAX_ENTITLEMENTS: nat := 128

  /** The octets of an ASCII literal. */
  function Ascii(s: string): (b: seq<byte>)
    ensures |b| == |s|
  {
    seq(|s|, i requires 0 <= i < |s| => s[i] as int % 0x100)
  }

  const DOMAIN := Ascii("axlicense.credential")

  //
  // The data model of the reference encoder
  //

  function Field(key: nat, value: Item): seq<Item> { [UInt(key), value] }

  function OptionalInt(key: nat, value: Option<i64>): seq<Item> {
    if value.Some? then Field(key, IntItem(value.value)) else []
  }

  function ValidityTree(v: Validity): Item {
    Map(true, Field(1, UInt(v.kind)) + OptionalInt(2, v.notBefore) + OptionalInt(3, v.notAfter))
  }

  function ConstraintTree(max: u64): Item {
    Map(true, Field(1, UInt(1)) + Field(2, UInt(max)))
  }

  function EntitlementTree(e: Entitlement): Item {
    Map(true, Field(1, Text(e.id)) + Field(2, Text(e.productId)) + Field(3, UInt(e.rightKind))
              + Field(4, UInt(e.grantSemantics)) + Field(5, ValidityTree(e.validity))
              + if e.maxU64.Some? then Field(6, ConstraintTree(e.maxU64.value)) else [])
  }

  function EntitlementTrees(es: seq<Entitlement>): (ts: seq<Item>)
    ensures |ts| == |es|
  {
    if es == [] then [] else [EntitlementTree(es[0])] + EntitlementTrees(es[1..])
  }

  /** The payload of a credential whose entitlements are already in order. */
  function PayloadTree(c: Credential): Item {
    Map(true, PayloadHead(c) + PayloadSupersedes(c) + Field(10, Array(true, EntitlementTrees(c.entitlements))))
  }

  function PayloadHead(c: Credential): (items: seq<Item>)
    ensures |items| == 16
  {
    Field(1, Array(true, [UInt(c.schemaMajor), UInt(c.schemaMinor)]))
    + Field(2, Text(c.credentialId)) + Field(3, Text(c.licenseGrantId)) + Field(4, UInt(c.authorityRevision))
    + Field(5, Text(c.bindingId)) + Field(6, Text(c.deviceId)) + Field(7, UInt(c.credentialGeneration))
    + Field(8, IntItem(c.issuedAt))
  }

  function PayloadSupersedes(c: Credential): seq<Item> {
    if c.supersedes.Some? then Field(9, Text(c.supersedes.value)) else []
  }

  function EnvelopeTree(e: Envelope): Item {
    Map(true, Field(1, UInt(e.artifactKind)) + Field(2, UInt(e.envelopeVersion)) + Field(3, Text(e.algorithmId))
              + Field(4, Text(e.keyId)) + Field(5, Bytes(e.payload)) + Field(6, Bytes(e.signature)))
  }

  function SigningTree(algorithmId: seq<byte>, keyId: seq<byte>, payload: seq<byte>): Item {
    Array(true, [Text(DOMAIN), UInt(1), Text(algorithmId), Text(keyId), Bytes(payload)])
  }

  //
  // The order of entitlements
  //

  /** No entitlement is followed by one with a smaller identifier. */
  predicate Ordered(es: seq<Entitlement>) {
    forall i, j | 0 <= i < j < |es| :: !LexLess(es[j].id, es[i].id)
  }

  predicate DistinctIds(es: seq<Entitlement>) {
    forall i, j | 0 <= i < j < |es| :: es[i].id != es[j].id
  }

  /** What any sorting algorithm guarantees, stable or not. */
  predicate IsSortOf(sorted: seq<Entitlement>, es: seq<Entitlement>) {
    multiset(sorted) == multiset(es) && Ordered(sorted)
  }

  function Insert(e: Entitlement, es: seq<Entitlement>): seq<Entitlement> {
    if es == [] || LexLess(e.id, es[0].id) then [e] + es else [es[0]] + Insert(e, es[1..])
  }

  /** The stable sort of the reference encoder. */
  function Sorted(es: seq<Entitlement>): seq<Entitlement> {
    if es == [] then [] else Insert(es[|es| - 1], Sorted(es[..|es| - 1]))
  }

  lemma {:induction false} InsertKeepsOrder(e: Entitlement, es: seq<Entitlement>)
    requires Ordered(es)
    ensures Ordered(Insert(e, es)) && multiset(Insert(e, es)) == multiset(es) + multiset{e}
  {
    if es == [] || LexLess(e.id, es[0].id) {
      forall i | 0 <= i < |es| ensures !LexLess(es[i].id, e.id) {
        if LexLess(es[i].id, e.id) {
          LexTransitive(es[i].id, e.id, es[0].id);
          LexAsymmetric(es[0].id, es[0].id);
        }
      }
    } else {
      InsertKeepsOrder(e, es[1..]);
      assert es == [es[0]] + es[1..];
      var r := Insert(e, es[1..]);
      forall i | 0 <= i < |r| ensures !LexLess(r[i].id, es[0].id) {
        assert r[i] in multiset(r);
        assert r[i] == e || r[i] in es[1..];
      }
    }
  }

  lemma {:induction false} SortedIsASort(es: seq<Entitlement>)
    ensures IsSortOf(Sorted(es), es)
  {
    if es != [] {
      var n := |es| - 1;
      SortedIsASort(es[..n]);
      InsertKeepsOrder(es[n], Sorted(es[..n]));
      assert es == es[..n] + [es[n]];
    }
  }

  lemma SameElements(s: seq<Entitlement>, t: seq<Entitlement>)
    requires multiset(s) == multiset(t)
    ensures forall x :: x in s <==> x in t
  {
    assert forall x :: (x in s <==> x in multiset(s)) && (x in t <==> x in multiset(t));
  }

  lemma PermutationKeepsDistinct(s: seq<Entitlement>, t: seq<Entitlement>)
    requires multiset(s) == multiset(t) && DistinctIds(s)
    ensures DistinctIds(t)
  {
    forall i, j | 0 <= i < j < |t| ensures t[i].id != t[j].id {
      if t[i].id == t[j].id {
        SameElements(s, t);
        assert t[i] in s && t[j] in s;
        assert t[i] == t[j];
        TwiceInMultiset(t, i, j);
        DistinctCountsOnce(s, t[i]);
      }
    }
  }

  lemma TwiceInMultiset(t: seq<Entitlement>, i: nat, j: nat)
    requires i < j < |t| && t[i] == t[j]
    ensures multiset(t)[t[i]] >= 2
  {
    assert t == t[..i] + [t[i]] + t[i + 1..];
    assert t[i + 1..][j - i - 1] == t[j];
  }

  lemma {:induction false} DistinctCountsOnce(s: seq<Entitlement>, x: Entitlement)
    requires DistinctIds(s)
    ensures multiset(s)[x] <= 1
  {
    if s != [] {
      DistinctCountsOnce(s[1..], x);
      assert s == [s[0]] + s[1..];
      if s[0] == x {
        assert x !in s[1..];
      }
    }
  }

  /** An identifier stands for one entitlement only, however often it occurs. */
  predicate IdsDecide(es: seq<Entitlement>) {
    forall i, j | 0 <= i < |es| && 0 <= j < |es| && es[i].id == es[j].id :: es[i] == es[j]
  }

  lemma SortsStartAlike(s: seq<Entitlement>, t: seq<Entitlement>)
    requires s != [] && t != [] && multiset(s) == multiset(t) && Ordered(s) && Ordered(t) && IdsDecide(s)
    ensures s[0] == t[0]
  {
    SameElements(s, t);
    assert t[0] in s && s[0] in t;
    LexAsymmetric(s[0].id, t[0].id);
    if s[0].id != t[0].id {
      LexTotal(s[0].id, t[0].id);
    }
  }

  /** If identifiers decide, every sort gives the same sequence. */
  lemma {:induction false} SortIsUniqueWhenIdsDecide(s: seq<Entitlement>, t: seq<Entitlement>)
    requires multiset(s) == multiset(t) && IdsDecide(s) && Ordered(s) && Ordered(t)
    ensures s == t
  {
    assert |multiset(s)| == |s| && |multiset(t)| == |t|;
    if s != [] {
      SortsStartAlike(s, t);
      hide LexLess;
      assert s == [s[0]] + s[1..] && t == [t[0]] + t[1..];
      SortIsUniqueTail(s, t);
      SortIsUniqueWhenIdsDecide(s[1..], t[1..]);
    }
  }

  /** With distinct identifiers every sort gives the same sequence. */
  lemma SortIsUnique(s: seq<Entitlement>, t: seq<Entitlement>)
    requires multiset(s) == multiset(t) && DistinctIds(s) && Ordered(s) && Ordered(t)
    ensures s == t
  {
    SortIsUniqueWhenIdsDecide(s, t);
  }

  lemma SortIsUniqueTail(s: seq<Entitlement>, t: seq<Entitlement>)
    requires s != [] && t != [] && s[0] == t[0] && multiset(s) == multiset(t)
    ensures multiset(s[1..]) == multiset(t[1..])
  {
    assert s == [s[0]] + s[1..] && t == [t[0]] + t[1..];
    assert multiset(s[1..]) == multiset(s) - multiset{s[0]};
    assert multiset(t[1..]) == multiset(t) - multiset{t[0]};
  }

  /** The bytes every conforming encoder gives a credential with distinct identifiers. */
  function ReferencePayload(c: Credential): seq<byte> {
    Enc(PayloadTree(c.(entitlements := Sorted(c.entitlements))))
  }

  /** The reference bytes do not depend on the order of the entitlements. */
  lemma PayloadIgnoresInputOrder(c: Credential, es: seq<Entitlement>)
    requires DistinctIds(c.entitlements) && multiset(es) == multiset(c.entitlements)
    ensures ReferencePayload(c.(entitlements := es)) == ReferencePayload(c)
  {
    SortedIsASort(es);
    SortedIsASort(c.entitlements);
    PermutationKeepsDistinct(c.entitlements, Sorted(c.entitlements));
    SortIsUnique(Sorted(c.entitlements), Sorted(es));
  }

  //
  // Sorting in place
  //

  method Swap(a: array<Entitlement>, i: nat)
    requires i + 1 < a.Length
    modifies a
    ensures a[..] == old(a[..])[i := old(a[i + 1])][i + 1 := old(a[i])]
    ensures multiset(a[..]) == multiset(old(a[..]))
  {
    a[i], a[i + 1] := a[i + 1], a[i];
  }

  /** Every pair of the first `n` is in order, except those that end at `hole`. */
  predicate OrderedExcept(s: seq<Entitlement>, n: nat, hole: nat)
    requires n <= |s|
  {
    forall i, j | 0 <= i < j < n && j != hole :: !LexLess(s[j].id, s[i].id)
  }

  lemma MoveDown(s: seq<Entitlement>, n: nat, k: nat)
    requires 0 < k < n <= |s|
    requires OrderedExcept(s, n, k) && LexLess(s[k].id, s[k - 1].id)
    ensures OrderedExcept(s[k - 1 := s[k]][k := s[k - 1]], n, k - 1)
  {
    LexAsymmetric(s[k].id, s[k - 1].id);
  }

  lemma SettleHole(s: seq<Entitlement>, n: nat, k: nat)
    requires k < n <= |s| && OrderedExcept(s, n, k)
    requires k == 0 || !LexLess(s[k].id, s[k - 1].id)
    ensures Ordered(s[..n])
  {
    forall i | 0 <= i < k ensures !LexLess(s[k].id, s[i].id) {
      if i < k - 1 && LexLess(s[k].id, s[i].id) {
        NotLessTransitive(s[i].id, s[k - 1].id, s[k].id);
      }
    }
  }

  lemma NotLessTransitive(a: seq<byte>, b: seq<byte>, c: seq<byte>)
    requires !LexLess(b, a) && !LexLess(c, b)
    ensures !LexLess(c, a)
  {
    if LexLess(c, a) && a != b {
      LexTotal(a, b);
      LexTransitive(c, a, b);
    }
  }

  /** Stands for the library sort; callers rely on its contract only. */
  method SortInPlace(a: array<Entitlement>)
    modifies a
    ensures IsSortOf(a[..], old(a[..]))
  {
    for n := 0 to a.Length
      invariant Ordered(a[..n])
      invariant multiset(a[..]) == multiset(old(a[..]))
    {
      var k := n;
      assert forall i | 0 <= i < n :: a[..n][i] == a[..][i];
      while k > 0 && LexLess(a[k].id, a[k - 1].id)
        invariant k <= n
        invariant OrderedExcept(a[..], n + 1, k)
        invariant multiset(a[..]) == multiset(old(a[..]))
      {
        MoveDown(a[..], n + 1, k);
        Swap(a, k - 1);
        k := k - 1;
      }
      SettleHole(a[..], n + 1, k);
      assert a[..][..n + 1] == a[..n + 1];
    }
    assert a[..a.Length] == a[..];
  }
}
