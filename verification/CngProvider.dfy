/** The key lifecycle of the identity provider: what each call leaves in the key store. */
module CngProvider {
  import opened Wrappers
  import opened Bytes
  import opened Identity
  import Establishment
  import MachineState

  /** The key store of one provider, as the whole system sees it. */
  ghost predicate Mirrors(w: Establishment.World, kind: Kind, keys: set<string>) {
    forall name :: (kind, name) in w.keys <==> name in keys
  }

  /** Every establishment is a step that the whole system allows, with the same effect on the keys. */
  lemma EstablishIsPossible(
      observer: bool, w: Establishment.World, pid: nat, kind: Kind, name: string, r: ProviderResponse,
      before: set<string>, after: set<string>)
    requires Mirrors(w, kind, before)
    requires if r.outcome.Usable? then name !in before && after == before + {name} else after == before
    ensures Establishment.Possible(observer, w, Establish(kind, name), Responded(r), false)
    ensures Mirrors(Establishment.Effect(w, pid, Establish(kind, name), Responded(r), false), kind, after)
  {
  }

  /**
   * What the platform answers to the calls of one establishment. Creating a
   * key under an existing name fails, whatever `created` says.
   */
  datatype Answers = Answers(
    provider: ProviderOutcome, created: ProviderOutcome, finalized: ProviderOutcome,
    publicKey: Option<seq<byte>>, qualifies: bool)

  class CngIdentityProvider {
    const kind: Kind
    /** The persisted machine keys of this provider, by name. */
    var keys: set<string>

    constructor (kind: Kind, keys: set<string>)
      ensures this.kind == kind && this.keys == keys
    {
      this.kind, this.keys := kind, keys;
    }

    /** Reports a key only if its public part has 64 bytes and it signs and stays private. */
    method ResponseFromKey(name: string, publicKey: Option<seq<byte>>, qualifies: bool) returns (r: ProviderResponse)
      ensures r.outcome.Usable? <==> publicKey.Some? && |publicKey.value| == 64 && qualifies
      ensures r.outcome.Usable? ==>
                r.identity.Some? && Matches(r.identity.value, kind, name)
                && MachineState.IsLowerHex(r.identity.value.value, 128)
                && r.identity.value.value == MachineState.Hex(publicKey.value)
      ensures !r.outcome.Usable? ==> r == ProviderResponse(ProviderFailure, None)
    {
      if publicKey.None? || |publicKey.value| != 64 || !qualifies {
        return ProviderResponse(ProviderFailure, None);
      }
      var value := MachineState.EncodeHex(publicKey.value);
      MachineState.HexIsInverse(publicKey.value);
      return ProviderResponse(Usable, Some(Record(SchemeId(kind), 1, value, kind, ProviderName(kind), name)));
    }

    /**
     * A usable response created exactly the named key, which did not exist, and
     * comes with a matching identity; every other response leaves no key behind.
     */
    method Establish(name: string, a: Answers) returns (r: ProviderResponse)
      modifies this
      ensures r.outcome.Usable? <==> name !in old(keys) && name in keys
      ensures keys == if r.outcome.Usable? then old(keys) + {name} else old(keys)
      ensures r.outcome.Usable? ==> r.identity.Some? && Matches(r.identity.value, kind, name)
                                    && MachineState.IsLowerHex(r.identity.value.value, 128)
                                    && a.publicKey.Some?
                                    && r.identity.value.value == MachineState.Hex(a.publicKey.value)
      ensures r.outcome == if !a.provider.Usable? then a.provider else if !a.created.Usable? then a.created
                           else if name in old(keys) then ProviderFailure
                           else if !a.finalized.Usable? then a.finalized
                           else if r.outcome.Usable? then Usable else ProviderFailure
      ensures !r.outcome.Usable? ==> r.identity.None?
      ensures r.outcome.Usable? <==> a.provider.Usable? && a.created.Usable? && name !in old(keys)
                                     && a.finalized.Usable? && a.publicKey.Some?
                                     && |a.publicKey.value| == 64 && a.qualifies
      ensures r.outcome.AbsentOrUnusable? ==>
                a.provider.AbsentOrUnusable? || a.created.AbsentOrUnusable? || a.finalized.AbsentOrUnusable?
    {
      if !a.provider.Usable? {
        return ProviderResponse(a.provider, None);
      }
      if !a.created.Usable? {
        return ProviderResponse(a.created, None);
      }
      if name in keys {
        return ProviderResponse(ProviderFailure, None);
      }
      keys := keys + {name};
      if !a.finalized.Usable? {
        keys := keys - {name};
        return ProviderResponse(a.finalized, None);
      }
      r := ResponseFromKey(name, a.publicKey, a.qualifies);
      if !r.outcome.Usable? {
        keys := keys - {name};
      }
    }

    /** Loading never changes the keys, and finds only keys that exist. */
    method LoadKey(
        name: string, provider: ProviderOutcome, opening: ProviderOutcome, missing: ProviderOutcome,
        publicKey: Option<seq<byte>>, qualifies: bool)
      returns (r: ProviderResponse)
      requires !missing.Usable?
      ensures r.outcome.Usable? ==> name in keys && r.identity.Some? && Matches(r.identity.value, kind, name)
                                    && publicKey.Some? && r.identity.value.value == MachineState.Hex(publicKey.value)
      ensures r.outcome.Usable? <==>
              provider.Usable? && name in keys && opening.Usable?
              && publicKey.Some? && |publicKey.value| == 64 && qualifies
      ensures r.outcome == if !provider.Usable? then provider else if name !in keys then missing
                           else if !opening.Usable? then opening else if r.outcome.Usable? then Usable
                           else ProviderFailure
    {
      if !provider.Usable? {
        return ProviderResponse(provider, None);
      }
      if name !in keys {
        return ProviderResponse(missing, None);
      }
      if !opening.Usable? {
        return ProviderResponse(opening, None);
      }
      r := ResponseFromKey(name, publicKey, qualifies);
    }

    /** Removal touches at most the named key. */
    method RemoveKey(name: string, available: bool)
      modifies this
      ensures keys == if available then old(keys) - {name} else old(keys)
      ensures forall w: Establishment.World, pid: nat | available && Mirrors(w, kind, old(keys)) ::
                Mirrors(Establishment.Effect(w, pid, Remove(kind, name), Done, false), kind, keys)
    {
      if !available {
        return;
      }
      if name in keys {
        keys := keys - {name};
      }
    }
  }

  /**
   * A key is known by its public part: whatever is established and later loaded
   * with the same public key is the identical record, and the committed load of
   * a run succeeds with it.
   */
  lemma LoadedIsEstablished(established: Record, loaded: Record, kind: Kind, name: string, publicKey: seq<byte>)
    requires Matches(established, kind, name) && established.value == MachineState.Hex(publicKey)
    requires Matches(loaded, kind, name) && loaded.value == MachineState.Hex(publicKey)
    ensures loaded == established
    ensures LoadResult(ProviderResponse(Usable, Some(loaded)), established)
         == IdentityResult(IdentityOk, false, Some(established))
  {
  }

  /** And another public key is another identity. */
  lemma OtherKeyIsNotLoaded(established: Record, loaded: Record, publicKey: seq<byte>, other: seq<byte>)
    requires established.value == MachineState.Hex(publicKey) && loaded.value == MachineState.Hex(other)
    requires publicKey != other
    ensures LoadResult(ProviderResponse(Usable, Some(loaded)), established)
         == IdentityResult(RecoveryRequired, false, None)
  {
    MachineState.HexIsInverse(publicKey);
    MachineState.HexIsInverse(other);
  }

  /** A key that was established is loaded as the identical record. */
  method EstablishThenLoad(provider: CngIdentityProvider, name: string, a: Answers)
    returns (established: ProviderResponse, loaded: ProviderResponse)
    modifies provider
    ensures established.outcome.Usable? ==> loaded == established
  {
    established := provider.Establish(name, a);
    loaded := provider.LoadKey(name, Usable, Usable, KeyNotFoundOrCorrupt, a.publicKey, a.qualifies);
    if established.outcome.Usable? {
      LoadedIsEstablished(established.identity.value, loaded.identity.value, provider.kind, name, a.publicKey.value);
    }
  }

  /** An established identity under a generated name is one the state codec stores. */
  lemma EstablishedIsStorable(r: Record, kind: Kind, name: string)
    requires Matches(r, kind, name) && MachineState.IsLowerHex(r.value, 128) && MachineState.ValidKeyName(name)
    ensures MachineState.ValidRecord(r)
  {
  }
}
