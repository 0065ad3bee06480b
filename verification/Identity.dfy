/**
 * First establishment of the device identity by one process, as an automaton
 * whose steps are the calls on the lock, the store and the providers.
 */
module Identity {
  import opened Wrappers
  import opened Bytes

  datatype Kind = Tpm | Software

  datatype ProviderOutcome =
    | Usable | AbsentOrUnusable | TemporarilyUnavailable | KeyNotFoundOrCorrupt | ProviderDenied | ProviderFailure

  datatype StoreOutcome = StoreOk | StoreAbsent | StoreCorrupt | StoreUnsupported | PrivilegeRequired | StoreFailure

  datatype LockOutcome = Acquired | Busy | LockDenied | LockFailure

  datatype Record = Record(
    schemeId: string, epoch: u32, value: string, kind: Kind, providerName: string, keyName: string)

  datatype ProviderResponse = ProviderResponse(outcome: ProviderOutcome, identity: Option<Record>)

  datatype StateRead = StateRead(outcome: StoreOutcome, identity: Option<Record>)

  datatype Code =
    | IdentityOk | WritePrivilegeRequired | StateBusy | StateCorrupt | StateUnsupported
    | ProviderUnavailable | ProviderUnsupported | RecoveryRequired | InternalError

  datatype IdentityResult = IdentityResult(code: Code, retryable: bool, identity: Option<Record>)

  function Failure(code: Code, retryable: bool): IdentityResult { IdentityResult(code, retryable, None) }

  function ProviderName(kind: Kind): string {
    if kind.Tpm? then "Microsoft Platform Crypto Provider" else "Microsoft Software Key Storage Provider"
  }

  function SchemeId(kind: Kind): string {
    if kind.Tpm? then "axl-win-cng-tpm-p256-v1" else "axl-win-cng-software-p256-v1"
  }

  function StateFailure(outcome: StoreOutcome): IdentityResult {
    match outcome
    case StoreCorrupt => Failure(StateCorrupt, false)
    case StoreUnsupported => Failure(StateUnsupported, false)
    case PrivilegeRequired => Failure(WritePrivilegeRequired, false)
    case _ => Failure(InternalError, false)
  }

  /** What a load of the committed key means for the caller. */
  function LoadResult(loaded: ProviderResponse, committed: Record): IdentityResult {
    match loaded.outcome
    case Usable =>
      if loaded.identity == Some(committed) then IdentityResult(IdentityOk, false, loaded.identity)
      else Failure(RecoveryRequired, false)
    case TemporarilyUnavailable => Failure(ProviderUnavailable, true)
    case KeyNotFoundOrCorrupt => Failure(RecoveryRequired, false)
    case _ => Failure(ProviderUnavailable, false)
  }

  /** The identity a provider must return for a new key. */
  predicate Matches(identity: Record, kind: Kind, name: string) {
    identity.keyName == name && identity.kind == kind && identity.providerName == ProviderName(kind)
    && identity.schemeId == SchemeId(kind) && identity.epoch == 1 && |identity.value| == 128
  }

  //
  // The automaton
  //

  datatype Call =
    | ReadState | AcquireLock | PrepareStore | Probe(kind: Kind) | NewName
    | Establish(kind: Kind, name: string) | Remove(kind: Kind, name: string) | WriteState(record: Record)
    | Load(kind: Kind, name: string) | ReleaseLock

  datatype Reply =
    | Read(read: StateRead) | Locked(lock: LockOutcome) | Stored(store: StoreOutcome) | Probed(probe: ProviderOutcome)
    | Named(name: string) | Responded(response: ProviderResponse) | Done

  type Log = seq<(Call, Reply)>

  predicate Fits(call: Call, reply: Reply) {
    match call
    case ReadState => reply.Read?
    case AcquireLock => reply.Locked?
    case PrepareStore => reply.Stored?
    case Probe(_) => reply.Probed?
    case NewName => reply.Named?
    case Establish(_, _) => reply.Responded?
    case Remove(_, _) => reply.Done?
    case WriteState(_) => reply.Stored?
    case Load(_, _) => reply.Responded?
    case ReleaseLock => reply.Done?
  }

  /** Where a run stands: the call it makes next, with what it remembers. */
  datatype Pc =
    | Start | WantLock | ReadAgain | Preparing | ProbeTpm | Naming(kind: Kind)
    | Establishing(kind: Kind, name: string) | Removing(kind: Kind, name: string, outcome: IdentityResult)
    | Writing(kind: Kind, name: string, identity: Record) | ProbeSoftware
    | Loading(committed: Record, locked: bool) | Releasing(outcome: IdentityResult)
    | Finished(outcome: IdentityResult)

  function Request(pc: Pc): Call
    requires !pc.Finished?
  {
    match pc
    case Start => ReadState
    case WantLock => AcquireLock
    case ReadAgain => ReadState
    case Preparing => PrepareStore
    case ProbeTpm => Probe(Tpm)
    case Naming(_) => NewName
    case Establishing(kind, name) => Establish(kind, name)
    case Removing(kind, name, _) => Remove(kind, name)
    case Writing(_, _, identity) => WriteState(identity)
    case ProbeSoftware => Probe(Software)
    case Loading(committed, _) => Load(committed.kind, committed.keyName)
    case Releasing(_) => ReleaseLock
  }

  /** What follows once the TPM cannot be used at all. */
  function Fallback(allow: bool): Pc {
    if allow then ProbeSoftware else Releasing(Failure(ProviderUnsupported, false))
  }

  /** What follows an establishment with one provider. */
  function Concluded(allow: bool, kind: Kind, result: IdentityResult): Pc {
    if kind.Tpm? && result.code.ProviderUnsupported? then Fallback(allow) else Releasing(result)
  }

  /** What follows a read of the state; `absent` continues when there is none. */
  function AfterRead(read: StateRead, locked: bool, absent: Pc): Pc {
    var finish := (r: IdentityResult) => if locked then Releasing(r) else Finished(r);
    if read.outcome.StoreOk? then
      if read.identity.Some? then Loading(read.identity.value, locked) else finish(Failure(StateCorrupt, false))
    else if read.outcome.StoreAbsent? then absent
    else finish(StateFailure(read.outcome))
  }

  function AfterEstablish(allow: bool, kind: Kind, name: string, r: ProviderResponse): Pc {
    if r.outcome.Usable? && r.identity.Some? then
      if Matches(r.identity.value, kind, name) then Writing(kind, name, r.identity.value)
      else Removing(kind, name, Failure(InternalError, false))
    else if r.outcome.TemporarilyUnavailable? then Concluded(allow, kind, Failure(ProviderUnavailable, true))
    else if r.outcome.AbsentOrUnusable? then Concluded(allow, kind, Failure(ProviderUnsupported, false))
    else Concluded(allow, kind, Failure(ProviderUnavailable, false))
  }

  function Next(allow: bool, pc: Pc, reply: Reply): Pc
    requires !pc.Finished? && Fits(Request(pc), reply)
  {
    match pc
    case Start => AfterRead(reply.read, false, WantLock)
    case WantLock =>
      (match reply.lock
       case Acquired => ReadAgain
       case Busy => Finished(Failure(StateBusy, true))
       case LockDenied => Finished(Failure(WritePrivilegeRequired, false))
       case LockFailure => Finished(Failure(InternalError, false)))
    case ReadAgain => AfterRead(reply.read, true, Preparing)
    case Preparing => if reply.store.StoreOk? then ProbeTpm else Releasing(StateFailure(reply.store))
    case ProbeTpm =>
      if reply.probe.Usable? then Naming(Tpm)
      else if reply.probe.AbsentOrUnusable? then Fallback(allow)
      else Releasing(Failure(ProviderUnavailable, reply.probe.TemporarilyUnavailable?))
    case Naming(kind) => Establishing(kind, reply.name)
    case Establishing(kind, name) => AfterEstablish(allow, kind, name, reply.response)
    case Removing(kind, _, outcome) => Concluded(allow, kind, outcome)
    case Writing(kind, name, identity) =>
      if reply.store.StoreOk? then Concluded(allow, kind, IdentityResult(IdentityOk, false, Some(identity)))
      else Removing(kind, name, StateFailure(reply.store))
    case ProbeSoftware =>
      if reply.probe.Usable? then Naming(Software)
      else if reply.probe.TemporarilyUnavailable? then Releasing(Failure(ProviderUnavailable, true))
      else Releasing(Failure(ProviderUnsupported, false))
    case Loading(committed, locked) =>
      var r := LoadResult(reply.response, committed);
      if locked then Releasing(r) else Finished(r)
    case Releasing(outcome) => Finished(outcome)
  }

  /** The number of calls a run can still make, at most. */
  function Rank(pc: Pc): nat {
    match pc
    case Start => 13
    case WantLock => 12
    case ReadAgain => 11
    case Preparing => 10
    case ProbeTpm => 9
    case Naming(kind) => if kind.Tpm? then 8 else 5
    case Establishing(kind, _) => if kind.Tpm? then 7 else 4
    case ProbeSoftware => 6
    case Writing(_, _, _) => 3
    // The code never removes a key because the TPM is unsupported.
    case Removing(kind, _, outcome) => if kind.Tpm? && outcome.code.ProviderUnsupported? then 7 else 2
    case Loading(_, _) => 2
    case Releasing(_) => 1
    case Finished(_) => 0
  }

  /** Every call brings a run closer to its end. */
  lemma NextDecreases(allow: bool, pc: Pc, reply: Reply)
    requires !pc.Finished? && Fits(Request(pc), reply)
    ensures Rank(Next(allow, pc, reply)) < Rank(pc)
  {
  }

  /** How an environment answers that has nothing and can do nothing. */
  function Refusal(call: Call): (reply: Reply)
    ensures Fits(call, reply)
  {
    match call
    case ReadState => Read(StateRead(StoreAbsent, None))
    case AcquireLock => Locked(Busy)
    case PrepareStore => Stored(StoreFailure)
    case Probe(_) => Probed(ProviderFailure)
    case NewName => Named("")
    case Establish(_, _) => Responded(ProviderResponse(ProviderFailure, None))
    case Remove(_, _) => Done
    case WriteState(_) => Stored(StoreFailure)
    case Load(_, _) => Responded(ProviderResponse(ProviderFailure, None))
    case ReleaseLock => Done
  }

  /** The replies of an environment, which may depend on everything that was called before. */
  type Answers = f: (nat, Call) -> Reply | forall n, c :: Fits(c, f(n, c)) witness (n, c) => Refusal(c)

  /** The result and the calls of a run from `pc` when the environment answers `answer`. */
  function Play(allow: bool, pc: Pc, answer: Answers, log: Log): (IdentityResult, Log)
    decreases Rank(pc)
  {
    if pc.Finished? then (pc.outcome, log)
    else
      var call := Request(pc);
      var reply := answer(|log|, call);
      NextDecreases(allow, pc, reply);
      Play(allow, Next(allow, pc, reply), answer, log + [(call, reply)])
  }

  /** A run ends by itself: from the start it makes at most 13 calls, and it only adds to its log. */
  lemma {:induction false} PlayIsShort(allow: bool, pc: Pc, answer: Answers, log: Log)
    ensures log <= Play(allow, pc, answer, log).1 && |Play(allow, pc, answer, log).1| <= |log| + Rank(pc)
    ensures pc.Start? ==> |Play(allow, pc, answer, log).1| <= |log| + 13
    decreases Rank(pc)
  {
    if !pc.Finished? {
      var call := Request(pc);
      var reply := answer(|log|, call);
      NextDecreases(allow, pc, reply);
      PlayIsShort(allow, Next(allow, pc, reply), answer, log + [(call, reply)]);
    }
  }

  /** An identity that a provider may return for a new key: 128 times one digit. */
  function Identified(kind: Kind, name: string, digit: char): (r: Record)
    ensures Matches(r, kind, name)
  {
    Record(SchemeId(kind), 1, seq(128, _ => digit), kind, ProviderName(kind), name)
  }

  /** Replies of an environment with a TPM that refuses late and a store that fails to write. */
  function Stubborn(call: Call): (reply: Reply)
    ensures Fits(call, reply)
  {
    match call
    case ReadState => Read(StateRead(StoreAbsent, None))
    case AcquireLock => Locked(Acquired)
    case PrepareStore => Stored(StoreOk)
    case Probe(_) => Probed(Usable)
    case NewName => Named("")
    case Establish(kind, name) =>
      Responded(if kind.Tpm? then ProviderResponse(AbsentOrUnusable, None)
                else ProviderResponse(Usable, Some(Identified(kind, name, '0'))))
    case Remove(_, _) => Done
    case WriteState(_) => Stored(StoreFailure)
    case Load(_, _) => Responded(ProviderResponse(ProviderFailure, None))
    case ReleaseLock => Done
  }

  /** From `pc` a run with these replies makes exactly `n` calls. */
  ghost predicate Takes(pc: Pc, answer: Answers, n: nat) {
    forall log :: |Play(true, pc, answer, log).1| == |log| + n
  }

  lemma OneCallMore(pc: Pc, answer: Answers, n: nat)
    requires forall k, c :: answer(k, c) == Stubborn(c)
    requires !pc.Finished? && Takes(Next(true, pc, Stubborn(Request(pc))), answer, n)
    ensures Takes(pc, answer, n + 1)
  {
    hide Next, Stubborn;
    var call := Request(pc);
    forall log ensures |Play(true, pc, answer, log).1| == |log| + n + 1 {
      var reply := answer(|log|, call);
      NextDecreases(true, pc, reply);
      assert Play(true, pc, answer, log) == Play(true, Next(true, pc, reply), answer, log + [(call, reply)]);
    }
  }

  lemma NothingAfterTheEnd(outcome: IdentityResult, answer: Answers)
    ensures Takes(Finished(outcome), answer, 0)
  {
  }

  /** A failed write is undone and the lock released. */
  lemma FailedWriteTakesThree(kind: Kind, name: string, identity: Record, answer: Answers)
    requires forall k, c :: answer(k, c) == Stubborn(c)
    ensures kind.Software? ==> Takes(Writing(kind, name, identity), answer, 3)
  {
    hide Takes, Play;
    var failed := Failure(InternalError, false);
    NothingAfterTheEnd(failed, answer);
    OneCallMore(Releasing(failed), answer, 0);
    if kind.Software? {
      OneCallMore(Removing(kind, name, failed), answer, 1);
      OneCallMore(Writing(kind, name, identity), answer, 2);
    }
  }

  lemma FallbackTakesSix(answer: Answers)
    requires forall k, c :: answer(k, c) == Stubborn(c)
    ensures Takes(ProbeSoftware, answer, 6)
  {
    hide Takes, Play, Matches, Identified;
    var identity := Identified(Software, "", '0');
    FailedWriteTakesThree(Software, "", identity, answer);
    OneCallMore(Establishing(Software, ""), answer, 3);
    OneCallMore(Naming(Software), answer, 4);
    OneCallMore(ProbeSoftware, answer, 5);
  }

  /** The bound is reached, by a run that falls back and then fails to write. */
  lemma ThirteenCallsHappen()
    ensures exists answer: Answers :: |Play(true, Start, answer, []).1| == 13
  {
    hide Takes, Play, Matches;
    var answer: Answers := (n, call) => Stubborn(call);
    FallbackTakesSix(answer);
    OneCallMore(Establishing(Tpm, ""), answer, 6);
    OneCallMore(Naming(Tpm), answer, 7);
    OneCallMore(ProbeTpm, answer, 8);
    OneCallMore(Preparing, answer, 9);
    OneCallMore(ReadAgain, answer, 10);
    OneCallMore(WantLock, answer, 11);
    OneCallMore(Start, answer, 12);
    TakesFromNothing(answer, 13);
  }

  lemma TakesFromNothing(answer: Answers, n: nat)
    requires Takes(Start, answer, n)
    ensures |Play(true, Start, answer, []).1| == n
  {
  }
}
