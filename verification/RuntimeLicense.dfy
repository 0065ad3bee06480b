/** Runtime entitlement decisions over a verified credential. */
module RuntimeLicenses {
  import opened Wrappers
  import opened Bytes
  import opened Credentials
  import opened Verifier
  import opened Acceptance
  import opened Verdict

  datatype CredentialState = StateValid | StateAbsent | StateInvalid | StateUnsupported

  datatype StatusView = StatusView(
    state: CredentialState, authorityRevision: Option<u64>, credentialGeneration: Option<u64>)

  datatype EntitlementView = EntitlementView(granted: bool, value: Option<u64>)

  const DENIED := EntitlementView(false, None)

  /** `now` lies in the half-open validity interval. */
  predicate Covers(v: Validity, now: i64) {
    (v.notBefore.Some? ==> v.notBefore.value <= now)
    && (v.kind == BOUNDED ==> v.notAfter.Some? && now < v.notAfter.value)
  }

  /** The decision for the first entitlement with the identifier. */
  function FirstMatch(es: seq<Entitlement>, id: seq<byte>, now: i64): EntitlementView {
    if es == [] then DENIED
    else if es[0].id != id then FirstMatch(es[1..], id, now)
    else if Covers(es[0].validity, now) then EntitlementView(true, es[0].maxU64)
    else DENIED
  }

  function Decision(r: Verification, id: seq<byte>, now: i64): EntitlementView {
    if r.status.Valid? && r.credential.Some? then FirstMatch(r.credential.value.entitlements, id, now) else DENIED
  }

  lemma {:induction false} FirstMatchSkips(es: seq<Entitlement>, n: nat, id: seq<byte>, now: i64)
    requires n <= |es| && forall i | 0 <= i < n :: es[i].id != id
    ensures FirstMatch(es, id, now) == FirstMatch(es[n..], id, now)
  {
    if n > 0 {
      assert es[1..][n - 1..] == es[n..];
      FirstMatchSkips(es[1..], n - 1, id, now);
    }
  }

  /** Not before the beginning, if there is one, and before the end, if the kind is bounded; the end is excluded. */
  predicate InForce(v: Validity, now: int) {
    (v.notBefore.Some? ==> v.notBefore.value <= now)
    && (v.kind == 2 ==> v.notAfter.Some? && now < v.notAfter.value)
  }

  /**
   * For a semantically valid credential the first match is the only one:
   * an identifier is granted exactly when it is present and covered, with a
   * value exactly when the grant is bounded.
   */
  lemma GrantedExactly(c: Credential, id: seq<byte>, now: i64)
    requires SemanticallyValid(c)
    ensures var view := FirstMatch(c.entitlements, id, now);
            (view.granted <==> exists e :: e in c.entitlements && e.id == id && InForce(e.validity, now))
            && (forall e | e in c.entitlements && e.id == id && view.granted ::
                  view.value == e.maxU64 && (view.value.Some? <==> e.grantSemantics == 2))
            && (!view.granted ==> view.value.None?)
  {
    var es := c.entitlements;
    StrictIsOrderedAndDistinct(es);
    forall e | e in es ensures Covers(e.validity, now) <==> InForce(e.validity, now) {
    }
    if i :| 0 <= i < |es| && es[i].id == id {
      FirstMatchSkips(es, i, id, now);
      assert forall e | e in es && e.id == id :: e == es[i];
    } else {
      FirstMatchSkips(es, |es|, id, now);
    }
  }

  /** Nothing is granted unless verification accepted the artifact, at any time. */
  lemma OnlyAcceptedGrants(artifact: seq<byte>, keys: seq<TrustedKey>, verify: Verify, es: seq<Entitlement>,
                           id: seq<byte>, now: i64)
    requires PossibleSort(artifact, es)
    ensures var view := Decision(Verified(artifact, keys, verify, es), id, now);
            view.granted <==>
            exists e, c, x :: IsGenuine(artifact, keys, verify, e, c) && x in c.entitlements && x.id == id
                              && InForce(x.validity, now)
  {
    ValidExactlyIfGenuine(artifact, keys, verify, es);
    hide IsGenuine, Verified, PossibleSort, SemanticallyValid;
    var r := Verified(artifact, keys, verify, es);
    forall e, c | IsGenuine(artifact, keys, verify, e, c) ensures SemanticallyValid(c) {
      GenuineIsValid(artifact, keys, verify, e, c);
    }
    if r.status.Valid? {
      GrantedExactly(r.credential.value, id, now);
    }
  }

  lemma GenuineIsValid(artifact: seq<byte>, keys: seq<TrustedKey>, verify: Verify, e: Envelope, c: Credential)
    requires IsGenuine(artifact, keys, verify, e, c)
    ensures SemanticallyValid(c)
  {
    SemanticsSpelledOut(c);
    hide SemanticallyValid, IsGoodCredential;
  }

  class RuntimeLicense {
    var state: CredentialState
    var credential: Option<Credential>

    /** No credential at all. */
    constructor Absent()
      ensures state == StateAbsent && credential == None
    {
      state, credential := StateAbsent, None;
    }

    constructor FromVerification(r: Verification)
      ensures state == (match r.status
                        case Valid => if r.credential.Some? then StateValid else StateInvalid
                        case Invalid => StateInvalid
                        case Unsupported => StateUnsupported)
      ensures credential == if state.StateValid? then r.credential else None
      ensures forall id, now :: this.Answer(id, now) == Decision(r, id, now)
    {
      state, credential := StateAbsent, None;
      match r.status {
        case Valid =>
          if r.credential.Some? {
            state, credential := StateValid, r.credential;
          } else {
            state := StateInvalid;
          }
        case Invalid => state := StateInvalid;
        case Unsupported => state := StateUnsupported;
      }
    }

    ghost function Answer(id: seq<byte>, now: i64): EntitlementView
      reads this
    {
      if state.StateValid? && credential.Some? then FirstMatch(credential.value.entitlements, id, now) else DENIED
    }

    method Status() returns (view: StatusView)
      ensures view.state == state
      ensures state.StateValid? && credential.Some? ==>
                view.authorityRevision == Some(credential.value.authorityRevision)
                && view.credentialGeneration == Some(credential.value.credentialGeneration)
      ensures !state.StateValid? || credential.None? ==>
                view.authorityRevision.None? && view.credentialGeneration.None?
    {
      view := StatusView(state, None, None);
      if state.StateValid? && credential.Some? {
        view := view.(authorityRevision := Some(credential.value.authorityRevision),
                      credentialGeneration := Some(credential.value.credentialGeneration));
      }
    }

    method Entitled(id: seq<byte>, now: i64) returns (view: EntitlementView)
      ensures view == Answer(id, now)
    {
      if !state.StateValid? || credential.None? {
        return DENIED;
      }
      var es := credential.value.entitlements;
      for i := 0 to |es|
        invariant FirstMatch(es, id, now) == FirstMatch(es[i..], id, now)
      {
        var e := es[i];
        if e.id != id {
          continue;
        }
        if e.validity.notBefore.Some? && now < e.validity.notBefore.value {
          return DENIED;
        }
        if e.validity.kind == BOUNDED && (e.validity.notAfter.None? || now >= e.validity.notAfter.value) {
          return DENIED;
        }
        return EntitlementView(true, e.maxU64);
      }
      return DENIED;
    }
  }
}
