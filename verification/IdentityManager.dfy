/** The code of first establishment: it makes the calls of the automaton and obeys its laws. */
module IdentityManagers {
  import opened Wrappers
  import opened Identity
  import opened Conduct

  /** The lock, the store and the providers, and the calls made on them so far. */
  class Environment {
    const answer: Answers
    var log: Log

    constructor (answer: Answers)
      ensures this.answer == answer && log == []
    {
      this.answer := answer;
      log := [];
    }

    method Ask(call: Call) returns (reply: Reply)
      modifies this`log
      ensures reply == answer(|old(log)|, call) && Fits(call, reply)
      ensures log == old(log) + [(call, reply)]
    {
      reply := answer(|log|, call);
      log := log + [(call, reply)];
    }
  }

  class IdentityManager {
    const env: Environment
    const allowSoftwareFallback: bool

    constructor (env: Environment, allow: bool)
      ensures this.env == env && allowSoftwareFallback == allow
    {
      this.env := env;
      allowSoftwareFallback := allow;
    }

    ghost function From(pc: Pc): (IdentityResult, Log)
      reads env
    {
      Play(allowSoftwareFallback, pc, env.answer, env.log)
    }

    /** One call; `pc` is where the automaton stands. */
    method Do(call: Call, ghost pc: Pc) returns (reply: Reply)
      requires !pc.Finished? && Request(pc) == call
      modifies env`log
      ensures Fits(call, reply) && old(From(pc)) == From(Next(allowSoftwareFallback, pc, reply))
    {
      reply := env.Ask(call);
    }

    method LoadCommitted(committed: Record, ghost locked: bool) returns (r: IdentityResult)
      modifies env`log
      ensures old(From(Loading(committed, locked))) == From(if locked then Releasing(r) else Finished(r))
    {
      var reply := Do(Load(committed.kind, committed.keyName), Loading(committed, locked));
      var loaded := reply.response;
      match loaded.outcome {
        case Usable =>
          if loaded.identity.Some? && loaded.identity.value == committed {
            return IdentityResult(IdentityOk, false, loaded.identity);
          }
          return Failure(RecoveryRequired, false);
        case TemporarilyUnavailable => return Failure(ProviderUnavailable, true);
        case KeyNotFoundOrCorrupt => return Failure(RecoveryRequired, false);
        case _ => return Failure(ProviderUnavailable, false);
      }
    }

    method EstablishWith(kind: Kind) returns (r: IdentityResult)
      modifies env`log
      ensures old(From(Naming(kind))) == From(Concluded(allowSoftwareFallback, kind, r))
    {
      hide Play, ProviderName, SchemeId;
      var named := Do(NewName, Naming(kind));
      var name := named.name;
      var reply := Do(Establish(kind, name), Establishing(kind, name));
      var established := reply.response;
      if !established.outcome.Usable? || established.identity.None? {
        if established.outcome.TemporarilyUnavailable? {
          return Failure(ProviderUnavailable, true);
        }
        if established.outcome.AbsentOrUnusable? {
          return Failure(ProviderUnsupported, false);
        }
        return Failure(ProviderUnavailable, false);
      }
      var identity := established.identity.value;
      if identity.keyName != name || identity.kind != kind || identity.providerName != ProviderName(kind)
         || identity.schemeId != SchemeId(kind) || identity.epoch != 1 || |identity.value| != 128 {
        r := Failure(InternalError, false);
        var _ := Do(Remove(kind, name), Removing(kind, name, r));
        return;
      }
      var written := Do(WriteState(identity), Writing(kind, name, identity));
      if !written.store.StoreOk? {
        r := StateFailure(written.store);
        var _ := Do(Remove(kind, name), Removing(kind, name, r));
        return;
      }
      return IdentityResult(IdentityOk, false, Some(identity));
    }

    /** The part that runs while the lock is held. */
    method EnsureLocked() returns (r: IdentityResult)
      modifies env`log
      ensures old(From(ReadAgain)) == From(Releasing(r))
    {
      hide Play;
      var read := Do(ReadState, ReadAgain);
      var current := read.read;
      if current.outcome.StoreOk? {
        if current.identity.None? {
          return Failure(StateCorrupt, false);
        }
        r := LoadCommitted(current.identity.value, true);
        return;
      }
      if !current.outcome.StoreAbsent? {
        return StateFailure(current.outcome);
      }
      var prepared := Do(PrepareStore, Preparing);
      if !prepared.store.StoreOk? {
        return StateFailure(prepared.store);
      }
      var probed := Do(Probe(Tpm), ProbeTpm);
      var tpm := probed.probe;
      if tpm.Usable? {
        var tpmResult := EstablishWith(Tpm);
        if tpmResult.code.IdentityOk? {
          return tpmResult;
        }
        if !tpmResult.code.ProviderUnsupported? {
          return tpmResult;
        }
      }
      if tpm.TemporarilyUnavailable? {
        return Failure(ProviderUnavailable, true);
      }
      if !tpm.Usable? && !tpm.AbsentOrUnusable? {
        return Failure(ProviderUnavailable, false);
      }
      if !allowSoftwareFallback {
        return Failure(ProviderUnsupported, false);
      }
      var software := Do(Probe(Software), ProbeSoftware);
      if software.probe.Usable? {
        r := EstablishWith(Software);
        return;
      }
      if software.probe.TemporarilyUnavailable? {
        return Failure(ProviderUnavailable, true);
      }
      return Failure(ProviderUnsupported, false);
    }

    /** The calls, in order, and the result are those of the automaton. */
    method EnsureIdentity() returns (r: IdentityResult)
      modifies env`log
      ensures (r, env.log) == Play(allowSoftwareFallback, Start, env.answer, old(env.log))
      ensures old(env.log) <= env.log && Obeys(allowSoftwareFallback, env.log[|old(env.log)|..], r)
    {
      PlayObeys(allowSoftwareFallback, env.answer, env.log);
      var read := Do(ReadState, Start);
      var initial := read.read;
      if initial.outcome.StoreOk? {
        if initial.identity.None? {
          return Failure(StateCorrupt, false);
        }
        r := LoadCommitted(initial.identity.value, false);
        return;
      }
      if !initial.outcome.StoreAbsent? {
        return StateFailure(initial.outcome);
      }
      var locked := Do(AcquireLock, WantLock);
      if locked.lock.Busy? {
        return Failure(StateBusy, true);
      }
      if locked.lock.LockDenied? {
        return Failure(WritePrivilegeRequired, false);
      }
      if !locked.lock.Acquired? {
        return Failure(InternalError, false);
      }
      r := EnsureLocked();
      var _ := Do(ReleaseLock, Releasing(r));
    }
  }
}
