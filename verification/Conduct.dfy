/**
 * What a run does and returns, call by call: laws on its log and its result
 * that speak of calls, replies and codes alone, not of the automaton.
 */
module Conduct {
  import opened Wrappers
  import opened Identity

  /** Call `i` is made, and it is `call`. */
  predicate Calls(log: Log, i: nat, call: Call) { i < |log| && log[i].0 == call }

  /** Nothing but the release of the lock, if it is held, follows call `i`, and the result is `result`. */
  predicate EndsAfter(log: Log, i: nat, r: IdentityResult, result: IdentityResult) {
    r == result && if i < 2 then |log| == i + 1 else |log| == i + 2 && log[i + 1].0 == ReleaseLock
  }

  predicate FailsAfter(log: Log, i: nat, r: IdentityResult, code: Code, retryable: bool) {
    EndsAfter(log, i, r, IdentityResult(code, retryable, None))
  }

  /** What a state outcome other than success means for the caller. */
  predicate StateFailsAfter(log: Log, i: nat, r: IdentityResult, outcome: StoreOutcome) {
    (outcome.StoreCorrupt? ==> FailsAfter(log, i, r, StateCorrupt, false))
    && (outcome.StoreUnsupported? ==> FailsAfter(log, i, r, StateUnsupported, false))
    && (outcome.PrivilegeRequired? ==> FailsAfter(log, i, r, WritePrivilegeRequired, false))
    && (outcome.StoreFailure? || outcome.StoreAbsent? ==> FailsAfter(log, i, r, InternalError, false))
  }

  /** The first read is call 0; the second, under the lock, is call 2. */
  predicate ReadLaw(log: Log, i: nat, r: IdentityResult, read: StateRead) {
    (i == 0 || i == 2)
    && (read.outcome.StoreAbsent? ==> Calls(log, i + 1, if i == 0 then AcquireLock else PrepareStore))
    && (read.outcome.StoreOk? && read.identity.None? ==> FailsAfter(log, i, r, StateCorrupt, false))
    && (read.outcome.StoreOk? && read.identity.Some? ==>
          Calls(log, i + 1, Load(read.identity.value.kind, read.identity.value.keyName))
          && log[i + 1].1.Responded? && LoadLaw(log, i + 1, r, log[i + 1].1.response, read.identity.value))
    && (!read.outcome.StoreOk? && !read.outcome.StoreAbsent? ==> StateFailsAfter(log, i, r, read.outcome))
  }

  /** A load succeeds only with the committed record itself. */
  predicate LoadLaw(log: Log, i: nat, r: IdentityResult, loaded: ProviderResponse, committed: Record) {
    match loaded.outcome
    case Usable =>
      if loaded.identity == Some(committed)
      then EndsAfter(log, i, r, IdentityResult(IdentityOk, false, Some(committed)))
      else FailsAfter(log, i, r, RecoveryRequired, false)
    case TemporarilyUnavailable => FailsAfter(log, i, r, ProviderUnavailable, true)
    case KeyNotFoundOrCorrupt => FailsAfter(log, i, r, RecoveryRequired, false)
    case AbsentOrUnusable => FailsAfter(log, i, r, ProviderUnavailable, false)
    case ProviderDenied => FailsAfter(log, i, r, ProviderUnavailable, false)
    case ProviderFailure => FailsAfter(log, i, r, ProviderUnavailable, false)
  }

  predicate LockLaw(log: Log, i: nat, r: IdentityResult, lock: LockOutcome) {
    i == 1
    && match lock
       case Acquired => Calls(log, 2, ReadState)
       case Busy => FailsAfter(log, i, r, StateBusy, true)
       case LockDenied => FailsAfter(log, i, r, WritePrivilegeRequired, false)
       case LockFailure => FailsAfter(log, i, r, InternalError, false)
  }

  predicate PrepareLaw(log: Log, i: nat, r: IdentityResult, outcome: StoreOutcome) {
    i == 3 && if outcome.StoreOk? then Calls(log, 4, Probe(Tpm)) else StateFailsAfter(log, i, r, outcome)
  }

  /** The TPM is out of the question: software comes next if it is allowed, and the end if it is not. */
  predicate FallsBack(allow: bool, log: Log, i: nat, r: IdentityResult) {
    if allow then Calls(log, i + 1, Probe(Software)) else FailsAfter(log, i, r, ProviderUnsupported, false)
  }

  /** A usable provider is asked for a key under a new name. */
  predicate Establishes(log: Log, i: nat, kind: Kind) {
    Calls(log, i + 1, NewName) && log[i + 1].1.Named? && Calls(log, i + 2, Establish(kind, log[i + 1].1.name))
  }

  predicate ProbeLaw(allow: bool, log: Log, i: nat, r: IdentityResult, kind: Kind, probe: ProviderOutcome) {
    (if kind.Tpm? then i == 4 else i >= 5)
    && (probe.Usable? ==> Establishes(log, i, kind))
    && (probe.TemporarilyUnavailable? ==> FailsAfter(log, i, r, ProviderUnavailable, true))
    && (kind.Tpm? && probe.AbsentOrUnusable? ==> FallsBack(allow, log, i, r))
    && (kind.Tpm? && (probe.KeyNotFoundOrCorrupt? || probe.ProviderDenied? || probe.ProviderFailure?) ==>
          FailsAfter(log, i, r, ProviderUnavailable, false))
    && (kind.Software? && !probe.Usable? && !probe.TemporarilyUnavailable? ==>
          FailsAfter(log, i, r, ProviderUnsupported, false))
  }

  /** The identity that a provider must report for a new key. */
  predicate IsFor(identity: Record, kind: Kind, name: string) {
    identity.keyName == name && identity.kind == kind && identity.epoch == 1 && |identity.value| == 128
    && identity.providerName == (if kind.Tpm? then "Microsoft Platform Crypto Provider"
                                 else "Microsoft Software Key Storage Provider")
    && identity.schemeId == if kind.Tpm? then "axl-win-cng-tpm-p256-v1" else "axl-win-cng-software-p256-v1"
  }

  predicate EstablishLaw(
      allow: bool, log: Log, i: nat, r: IdentityResult, kind: Kind, name: string, response: ProviderResponse)
  {
    i >= 5 &&
    if response.outcome.Usable? && response.identity.Some? then
      var identity := response.identity.value;
      if IsFor(identity, kind, name) then
        Calls(log, i + 1, WriteState(identity)) && log[i + 1].1.Stored?
        && WriteLaw(log, i + 1, r, kind, name, identity, log[i + 1].1.store)
      else Calls(log, i + 1, Remove(kind, name)) && FailsAfter(log, i + 1, r, InternalError, false)
    else
      (response.outcome.TemporarilyUnavailable? ==> FailsAfter(log, i, r, ProviderUnavailable, true))
      && (response.outcome.AbsentOrUnusable? ==>
            if kind.Tpm? then FallsBack(allow, log, i, r) else FailsAfter(log, i, r, ProviderUnsupported, false))
      && (!response.outcome.TemporarilyUnavailable? && !response.outcome.AbsentOrUnusable? ==>
            FailsAfter(log, i, r, ProviderUnavailable, false))
  }

  /** A written identity is the result; one that was not written loses its key. */
  predicate WriteLaw(
      log: Log, i: nat, r: IdentityResult, kind: Kind, name: string, identity: Record, outcome: StoreOutcome)
  {
    if outcome.StoreOk? then EndsAfter(log, i, r, IdentityResult(IdentityOk, false, Some(identity)))
    else Calls(log, i + 1, Remove(kind, name)) && StateFailsAfter(log, i + 1, r, outcome)
  }

  predicate Law(allow: bool, log: Log, i: nat, r: IdentityResult)
    requires i < |log|
  {
    var call, reply := log[i].0, log[i].1;
    Fits(call, reply) &&
    match call
    case ReadState => ReadLaw(log, i, r, reply.read)
    case AcquireLock => LockLaw(log, i, r, reply.lock)
    case PrepareStore => PrepareLaw(log, i, r, reply.store)
    case Probe(kind) => ProbeLaw(allow, log, i, r, kind, reply.probe)
    case Establish(kind, name) => EstablishLaw(allow, log, i, r, kind, name, reply.response)
    case ReleaseLock => i + 1 == |log|
    case _ => true
  }

  /** The run begins with a read, and every call keeps its law. */
  predicate Obeys(allow: bool, log: Log, r: IdentityResult) {
    Calls(log, 0, ReadState) && forall i | 0 <= i < |log| :: Law(allow, log, i, r)
  }

  //
  // The automaton obeys
  //

  /** `pcs` are the places of a run from `Start`. */
  predicate Traced(allow: bool, pcs: seq<Pc>, log: Log, r: IdentityResult) {
    |pcs| == |log| + 1 && pcs[0] == Start && pcs[|log|] == Finished(r)
    && forall i | 0 <= i < |log| :: Moves(allow, pcs[i], log[i], pcs[i + 1])
  }

  predicate Moves(allow: bool, pc: Pc, entry: (Call, Reply), next: Pc) {
    !pc.Finished? && entry.0 == Request(pc) && Fits(entry.0, entry.1) && next == Next(allow, pc, entry.1)
  }

  lemma {:induction false} PlayLeavesTrace(allow: bool, pc: Pc, answer: Answers, log: Log) returns (pcs: seq<Pc>)
    ensures var (r, full) := Play(allow, pc, answer, log);
            log <= full && |pcs| == |full| - |log| + 1 && pcs[0] == pc && pcs[|pcs| - 1] == Finished(r)
            && forall i | 0 <= i < |pcs| - 1 :: Moves(allow, pcs[i], full[|log| + i], pcs[i + 1])
    decreases Rank(pc)
  {
    hide Next, Rank;
    if pc.Finished? {
      pcs := [pc];
    } else {
      var call := Request(pc);
      var reply := answer(|log|, call);
      NextDecreases(allow, pc, reply);
      var longer := log + [(call, reply)];
      var others := PlayLeavesTrace(allow, Next(allow, pc, reply), answer, longer);
      pcs := [pc] + others;
      assert Play(allow, pc, answer, log) == Play(allow, Next(allow, pc, reply), answer, longer);
      var full := Play(allow, pc, answer, log).1;
      assert longer <= full;
      forall i | 0 <= i < |pcs| - 1 ensures Moves(allow, pcs[i], full[|log| + i], pcs[i + 1]) {
        if i == 0 {
          assert full[|log|] == longer[|log|];
        } else {
          assert pcs[i] == others[i - 1] && full[|log| + i] == full[|longer| + (i - 1)];
        }
      }
    }
  }

  /** Where in a run each place can be. */
  predicate Placed(pc: Pc, i: nat) {
    match pc
    case Start => i == 0
    case WantLock => i == 1
    case ReadAgain => i == 2
    case Preparing => i == 3
    case ProbeTpm => i == 4
    case Loading(_, locked) => i == if locked then 3 else 1
    case Releasing(_) => i >= 3
    case Finished(_) => true
    case _ => i >= 5
  }

  lemma {:induction false} PlacesHold(allow: bool, pcs: seq<Pc>, log: Log, r: IdentityResult, i: nat)
    requires Traced(allow, pcs, log, r) && i < |pcs|
    ensures Placed(pcs[i], i)
  {
    if i > 0 {
      PlacesHold(allow, pcs, log, r, i - 1);
      assert Moves(allow, pcs[i - 1], log[i - 1], pcs[i - 1 + 1]);
      StepPlaces(allow, pcs[i - 1], log[i - 1].1, i - 1);
    }
  }

  lemma StepPlaces(allow: bool, pc: Pc, reply: Reply, i: nat)
    requires !pc.Finished? && Fits(Request(pc), reply) && Placed(pc, i)
    ensures Placed(Next(allow, pc, reply), i + 1)
  {
  }

  /** What the place after call `i` says about the rest of the run. */
  lemma PlaceTells(allow: bool, pcs: seq<Pc>, log: Log, r: IdentityResult, i: nat)
    requires Traced(allow, pcs, log, r) && i < |log|
    ensures Placed(pcs[i], i) && Moves(allow, pcs[i], log[i], pcs[i + 1])
    ensures pcs[i + 1].Finished? ==> |log| == i + 1 && r == pcs[i + 1].outcome
    ensures !pcs[i + 1].Finished? ==>
              Calls(log, i + 1, Request(pcs[i + 1])) && Moves(allow, pcs[i + 1], log[i + 1], pcs[i + 2])
    ensures pcs[i + 1].Releasing? ==> i >= 2 && EndsAfter(log, i, r, pcs[i + 1].outcome)
  {
    hide Next;
    PlacesHold(allow, pcs, log, r, i);
    PlacesHold(allow, pcs, log, r, i + 1);
    EndIsLast(allow, pcs, log, r, i + 1);
    if !pcs[i + 1].Finished? {
      assert Moves(allow, pcs[i + 1], log[i + 1], pcs[i + 1 + 1]);
      if pcs[i + 1].Releasing? {
        ReleaseFinishes(allow, pcs[i + 1], log[i + 1].1);
        EndIsLast(allow, pcs, log, r, i + 2);
      }
    }
  }

  lemma ReleaseFinishes(allow: bool, pc: Pc, reply: Reply)
    requires pc.Releasing? && Fits(Request(pc), reply)
    ensures Next(allow, pc, reply) == Finished(pc.outcome)
  {
  }

  lemma EndIsLast(allow: bool, pcs: seq<Pc>, log: Log, r: IdentityResult, i: nat)
    requires Traced(allow, pcs, log, r) && i < |pcs|
    ensures pcs[i].Finished? <==> i == |log|
  {
    if i < |log| {
      assert Moves(allow, pcs[i], log[i], pcs[i + 1]);
    }
  }

  lemma EarlyCallObeys(allow: bool, pcs: seq<Pc>, log: Log, r: IdentityResult, i: nat)
    requires Traced(allow, pcs, log, r) && i < |log|
    requires log[i].0.ReadState? || log[i].0.AcquireLock? || log[i].0.PrepareStore?
    ensures Law(allow, log, i, r)
  {
    PlaceTells(allow, pcs, log, r, i);
    if pcs[i + 1].Loading? {
      PlaceTells(allow, pcs, log, r, i + 1);
    }
    hide Traced, Matches;
  }

  lemma ProbeObeys(allow: bool, pcs: seq<Pc>, log: Log, r: IdentityResult, i: nat)
    requires Traced(allow, pcs, log, r) && i < |log| && log[i].0.Probe?
    ensures Law(allow, log, i, r)
  {
    PlaceTells(allow, pcs, log, r, i);
    if pcs[i + 1].Naming? {
      PlaceTells(allow, pcs, log, r, i + 1);
    }
    hide Traced, Matches;
  }

  lemma MatchingIsFor(identity: Record, kind: Kind, name: string)
    ensures IsFor(identity, kind, name) <==> Matches(identity, kind, name)
  {
  }

  /** A removal is followed by the release, and what remains is the reason for it. */
  lemma RemovalEnds(allow: bool, pcs: seq<Pc>, log: Log, r: IdentityResult, i: nat)
    requires Traced(allow, pcs, log, r) && i < |log| && pcs[i].Removing?
    requires !pcs[i].outcome.code.ProviderUnsupported?
    ensures i >= 5 && EndsAfter(log, i, r, pcs[i].outcome)
  {
    PlaceTells(allow, pcs, log, r, i);
    hide Traced;
  }

  lemma WriteObeys(allow: bool, pcs: seq<Pc>, log: Log, r: IdentityResult, i: nat)
    requires Traced(allow, pcs, log, r) && i < |log| && pcs[i].Writing?
    ensures log[i].1.Stored?
    ensures WriteLaw(log, i, r, pcs[i].kind, pcs[i].name, pcs[i].identity, log[i].1.store)
  {
    PlaceTells(allow, pcs, log, r, i);
    if pcs[i + 1].Removing? {
      RemovalEnds(allow, pcs, log, r, i + 1);
    }
    hide Traced;
  }

  /** What follows an establishment, in terms of places. */
  lemma AfterEstablishing(allow: bool, pc: Pc, response: ProviderResponse)
    requires pc.Establishing?
    ensures var next := Next(allow, pc, Responded(response));
            if response.outcome.Usable? && response.identity.Some? then
              if IsFor(response.identity.value, pc.kind, pc.name)
              then next == Writing(pc.kind, pc.name, response.identity.value)
              else next == Removing(pc.kind, pc.name, IdentityResult(InternalError, false, None))
            else
              (response.outcome.TemporarilyUnavailable? ==>
                 next == Releasing(IdentityResult(ProviderUnavailable, true, None)))
              && (response.outcome.AbsentOrUnusable? ==>
                    next == if pc.kind.Tpm? && allow then ProbeSoftware
                            else Releasing(IdentityResult(ProviderUnsupported, false, None)))
              && (!response.outcome.TemporarilyUnavailable? && !response.outcome.AbsentOrUnusable? ==>
                    next == Releasing(IdentityResult(ProviderUnavailable, false, None)))
  {
    if response.identity.Some? {
      MatchingIsFor(response.identity.value, pc.kind, pc.name);
    }
    hide Matches, IsFor;
  }

  lemma EstablishObeys(allow: bool, pcs: seq<Pc>, log: Log, r: IdentityResult, i: nat)
    requires Traced(allow, pcs, log, r) && i < |log| && log[i].0.Establish?
    ensures Law(allow, log, i, r)
  {
    hide Next, IsFor, WriteLaw, Matches;
    PlaceTells(allow, pcs, log, r, i);
    AfterEstablishing(allow, pcs[i], log[i].1.response);
    if pcs[i + 1].Writing? {
      WriteObeys(allow, pcs, log, r, i + 1);
    } else if pcs[i + 1].Removing? {
      RemovalEnds(allow, pcs, log, r, i + 1);
    }
    hide Traced;
  }

  lemma CallObeys(allow: bool, pcs: seq<Pc>, log: Log, r: IdentityResult, i: nat)
    requires Traced(allow, pcs, log, r) && i < |log|
    ensures Law(allow, log, i, r)
  {
    match log[i].0
    case ReadState => EarlyCallObeys(allow, pcs, log, r, i);
    case AcquireLock => EarlyCallObeys(allow, pcs, log, r, i);
    case PrepareStore => EarlyCallObeys(allow, pcs, log, r, i);
    case Probe(_) => ProbeObeys(allow, pcs, log, r, i);
    case Establish(_, _) => EstablishObeys(allow, pcs, log, r, i);
    case _ => PlaceTells(allow, pcs, log, r, i);
  }

  /** Whatever the environment answers, a run obeys the laws. */
  lemma PlayObeys(allow: bool, answer: Answers, log: Log)
    ensures var (r, full) := Play(allow, Start, answer, log);
            log <= full && Obeys(allow, full[|log|..], r)
  {
    var pcs := PlayLeavesTrace(allow, Start, answer, log);
    var (r, full) := Play(allow, Start, answer, log);
    hide Play, Law, Moves;
    var own := full[|log|..];
    assert forall i | 0 <= i < |own| :: own[i] == full[|log| + i];
    assert Traced(allow, pcs, own, r);
    forall i | 0 <= i < |own| ensures Law(allow, own, i, r) {
      CallObeys(allow, pcs, own, r, i);
    }
    FirstCallReads(allow, pcs, own, r);
  }

  lemma FirstCallReads(allow: bool, pcs: seq<Pc>, log: Log, r: IdentityResult)
    requires Traced(allow, pcs, log, r)
    ensures Calls(log, 0, ReadState)
  {
    assert log != [];
    assert Moves(allow, pcs[0], log[0], pcs[1]);
  }

  //
  // Whole runs
  //

  /** The state is absent, the lock free, the store ready, and what is written is written. */
  predicate Smooth(log: Log) {
    forall i | 0 <= i < |log| ::
      (log[i].0.ReadState? ==> log[i].1 == Read(StateRead(StoreAbsent, None)))
      && (log[i].0.AcquireLock? ==> log[i].1 == Locked(Acquired))
      && (log[i].0.PrepareStore? ==> log[i].1 == Stored(StoreOk))
      && (log[i].0.WriteState? ==> log[i].1 == Stored(StoreOk))
  }

  /** A provider that is usable and reports matching identities. */
  predicate Serves(log: Log, kind: Kind) {
    forall i | 0 <= i < |log| ::
      (log[i].0 == Probe(kind) ==> log[i].1 == Probed(Usable))
      && (log[i].0.Establish? && log[i].0.kind == kind ==>
            log[i].1.Responded? && log[i].1.response.outcome.Usable? && log[i].1.response.identity.Some?
            && IsFor(log[i].1.response.identity.value, kind, log[i].0.name))
  }

  /** The result and the calls from a probe, at position `i`, to the end. */
  predicate Succeeds(log: Log, i: nat, r: IdentityResult, kind: Kind) {
    |log| == i + 5 && r.identity.Some?
    && log[i].0 == Probe(kind) && log[i + 1].0 == NewName && log[i + 2].0 == Establish(kind, r.identity.value.keyName)
    && log[i + 2].1.Responded? && log[i + 2].1.response.identity == r.identity
    && log[i + 3].0 == WriteState(r.identity.value) && log[i + 4].0 == ReleaseLock
    && r == IdentityResult(IdentityOk, false, r.identity)
  }

  lemma Begins(allow: bool, log: Log, r: IdentityResult)
    requires Obeys(allow, log, r) && Smooth(log)
    ensures |log| > 4 && log[0].0 == ReadState && log[1].0 == AcquireLock && log[2].0 == ReadState
            && log[3].0 == PrepareStore && log[4].0 == Probe(Tpm)
  {
    assert Law(allow, log, 0, r);
    assert Law(allow, log, 1, r);
    assert Law(allow, log, 2, r);
    assert Law(allow, log, 3, r);
  }

  lemma ProviderSucceeds(allow: bool, log: Log, i: nat, r: IdentityResult, kind: Kind)
    requires Obeys(allow, log, r) && Smooth(log) && Serves(log, kind) && 4 <= i && Calls(log, i, Probe(kind))
    ensures Succeeds(log, i, r, kind)
  {
    assert Law(allow, log, i, r);
    assert Law(allow, log, i + 2, r);
  }

  /** With a usable TPM the run commits the TPM identity and returns it. */
  lemma UsableTpmSucceeds(allow: bool, log: Log, r: IdentityResult)
    requires Obeys(allow, log, r) && Smooth(log) && Serves(log, Tpm)
    ensures |log| == 9 && Succeeds(log, 4, r, Tpm)
  {
    Begins(allow, log, r);
    ProviderSucceeds(allow, log, 4, r, Tpm);
  }

  /** Without a TPM the run commits a software identity and returns it, if that is allowed. */
  lemma AbsentTpmFallsBack(allow: bool, log: Log, r: IdentityResult)
    requires Obeys(allow, log, r) && Smooth(log) && Serves(log, Software)
    requires forall i | 0 <= i < |log| :: log[i].0 == Probe(Tpm) ==> log[i].1 == Probed(AbsentOrUnusable)
    ensures allow ==> |log| == 10 && Succeeds(log, 5, r, Software)
    ensures !allow ==> |log| == 6 && r == IdentityResult(ProviderUnsupported, false, None)
  {
    Begins(allow, log, r);
    assert Law(allow, log, 4, r);
    if allow {
      ProviderSucceeds(allow, log, 5, r, Software);
    }
  }

  /** Wherever the TPM refuses for good, software comes next exactly if it is allowed. */
  lemma RefusalFallsBack(allow: bool, log: Log, i: nat, r: IdentityResult)
    requires Obeys(allow, log, r) && i < |log|
    requires log[i] == (Probe(Tpm), Probed(AbsentOrUnusable))
             || (log[i].0.Establish? && log[i].0.kind.Tpm? && log[i].1.Responded?
                 && log[i].1.response.outcome.AbsentOrUnusable?)
    ensures if allow then Calls(log, i + 1, Probe(Software))
            else Calls(log, i + 1, ReleaseLock) && |log| == i + 2
                 && r == IdentityResult(ProviderUnsupported, false, None)
  {
    assert Law(allow, log, i, r);
  }
}
