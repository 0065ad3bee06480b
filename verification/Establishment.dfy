/**
 * Any number of runs, in any number of processes, over one state file, one
 * mutation lock and the key stores of both providers. A run may crash at any
 * step; a crash frees the lock, because an abandoned mutex counts as acquired.
 */
module Establishment {
  import opened Wrappers
  import opened Identity

  /** The state file as a register; `Damaged` is corrupt, unsupported or unreadable. */
  datatype FileState = NoFile | Holds(record: Record) | Damaged

  type Key = (Kind, string)

  function KeyOf(r: Record): Key { (r.kind, r.keyName) }

  /** One run: `born` is the file when it began, `log` its calls and their replies. */
  datatype Proc = Proc(pc: Pc, crashed: bool, allow: bool, born: FileState, log: Log)

  datatype World = World(
    file: FileState, owner: Option<nat>, keys: set<Key>, procs: map<nat, Proc>,
    // History: the initial file and keys, the run that committed, the keys that
    // crashed owners left, and those a provider created without an identity.
    initial: FileState, base: set<Key>, committer: Option<nat>, orphans: set<Key>, unclaimed: set<Key>)

  datatype Action =
    | Begin(pid: nat, allow: bool)
    | Act(pid: nat, reply: Reply, committed: bool)
    | Crash(pid: nat)

  predicate Init(w: World) {
    w.owner.None? && w.procs == map[] && w.initial == w.file && w.base == w.keys
    && w.committer.None? && w.orphans == {} && w.unclaimed == {}
  }

  predicate Live(w: World, pid: nat) {
    pid in w.procs && !w.procs[pid].crashed && !w.procs[pid].pc.Finished?
  }

  /**
   * Which replies the environment may give. Reads report the register or fail;
   * the lock is exclusive; a key is created only under a new name; a write
   * reports success only after its commit. With an observer, a write may
   * commit and still report failure.
   */
  predicate Possible(observer: bool, w: World, call: Call, reply: Reply, committed: bool) {
    Fits(call, reply) &&
    match call
    case ReadState =>
      !committed && (reply.read.outcome.StoreAbsent? ==> w.file.NoFile?)
      && (reply.read.outcome.StoreOk? ==>
            if reply.read.identity.Some? then w.file == Holds(reply.read.identity.value) else !w.file.NoFile?)
    case AcquireLock => !committed && (reply.lock.Acquired? ==> w.owner.None?)
    case Establish(kind, name) => !committed && (reply.response.outcome.Usable? ==> (kind, name) !in w.keys)
    case WriteState(_) =>
      (reply.store.StoreOk? ==> committed)
      && (committed && !reply.store.StoreOk? ==> observer && reply.store.StoreFailure?)
    case _ => !committed
  }

  predicate Enabled(observer: bool, w: World, a: Action) {
    match a
    case Begin(pid, _) => pid !in w.procs
    case Act(pid, reply, committed) =>
      Live(w, pid) && Possible(observer, w, Request(w.procs[pid].pc), reply, committed)
    case Crash(pid) => Live(w, pid)
  }

  /** The effect of one call on the file, the lock and the keys. */
  function Effect(w: World, pid: nat, call: Call, reply: Reply, committed: bool): World
    requires Fits(call, reply)
  {
    match call
    case AcquireLock => if reply.lock.Acquired? then w.(owner := Some(pid)) else w
    case ReleaseLock => w.(owner := None)
    case Establish(kind, name) =>
      if !reply.response.outcome.Usable? then w
      else if reply.response.identity.Some? then w.(keys := w.keys + {(kind, name)})
      else w.(keys := w.keys + {(kind, name)}, unclaimed := w.unclaimed + {(kind, name)})
    case Remove(kind, name) => w.(keys := w.keys - {(kind, name)})
    case WriteState(r) => if committed then w.(file := Holds(r), committer := Some(pid)) else w
    case _ => w
  }

  /** The key a run is responsible for. */
  function Held(pc: Pc): set<Key> {
    match pc
    case Writing(kind, name, _) => {(kind, name)}
    case Removing(kind, name, _) => {(kind, name)}
    case _ => {}
  }

  function Apply(observer: bool, w: World, a: Action): World
    requires Enabled(observer, w, a)
  {
    match a
    case Begin(pid, allow) => w.(procs := w.procs[pid := Proc(Start, false, allow, w.file, [])])
    case Act(pid, reply, committed) =>
      var p := w.procs[pid];
      var call := Request(p.pc);
      Effect(w, pid, call, reply, committed)
        .(procs := w.procs[pid := p.(pc := Next(p.allow, p.pc, reply), log := p.log + [(call, reply)])])
    case Crash(pid) =>
      var p := w.procs[pid];
      var crashed := w.(procs := w.procs[pid := p.(crashed := true)]);
      if w.owner == Some(pid) then crashed.(owner := None, orphans := w.orphans + Held(p.pc)) else crashed
  }

  /** `ws` is a run of the whole system under `acts`. */
  predicate Execution(observer: bool, ws: seq<World>, acts: seq<Action>) {
    |ws| == |acts| + 1 && Init(ws[0]) &&
    forall i | 0 <= i < |acts| :: Enabled(observer, ws[i], acts[i]) && ws[i + 1] == Apply(observer, ws[i], acts[i])
  }

  //
  // The invariant of single runs
  //

  /** The run holds the lock. */
  predicate Inside(pc: Pc) {
    match pc
    case Start => false
    case WantLock => false
    case Loading(_, locked) => locked
    case Finished(_) => false
    case _ => true
  }

  /** The run has seen, under the lock, that there is no file. */
  predicate Mutating(pc: Pc) {
    pc.Preparing? || pc.ProbeTpm? || pc.Naming? || pc.Establishing? || pc.Writing? || pc.ProbeSoftware?
  }

  predicate Promises(file: FileState, outcome: IdentityResult) {
    outcome.code.IdentityOk? ==> outcome.identity.Some? && file == Holds(outcome.identity.value)
  }

  /** Step `i` of a log is the TPM saying that it is absent or permanently unusable. */
  predicate RefusedAt(log: Log, i: nat)
    requires i < |log|
  {
    log[i] == (Probe(Tpm), Probed(AbsentOrUnusable))
    || (log[i].0.Establish? && log[i].0.kind.Tpm? && log[i].1.Responded? && log[i].1.response.outcome.AbsentOrUnusable?)
  }

  predicate TpmRefused(log: Log) {
    exists i | 0 <= i < |log| :: RefusedAt(log, i)
  }

  /** The run is using the software provider to create an identity. */
  predicate Fallen(pc: Pc) {
    pc.ProbeSoftware? || ((pc.Naming? || pc.Establishing? || pc.Writing?) && pc.kind.Software?)
  }

  /** A run that began with a file calls nothing but the read and the pinned load. */
  predicate OnlyPinned(p: Proc) {
    forall i | 0 <= i < |p.log| ::
      p.log[i].0 == ReadState || (p.born.Holds? && p.log[i].0 == Load(p.born.record.kind, p.born.record.keyName))
  }

  predicate KnowsFile(file: FileState, p: Proc) {
    && (!p.crashed && Mutating(p.pc) ==> file.NoFile?)
    && (p.pc.Loading? ==> file == Holds(p.pc.committed))
    && (p.pc.Releasing? || p.pc.Finished? ==> Promises(file, p.pc.outcome))
    && (p.pc.Removing? ==> !p.pc.outcome.code.IdentityOk? && !p.pc.outcome.code.ProviderUnsupported?)
    && (p.pc.Writing? ==> Matches(p.pc.identity, p.pc.kind, p.pc.name))
  }

  predicate FellFairly(p: Proc) {
    Fallen(p.pc) ==> p.allow && TpmRefused(p.log)
  }

  predicate BornLate(file: FileState, p: Proc) {
    !p.born.NoFile? ==>
      p.born == file && OnlyPinned(p)
      && (p.pc.Start? || p.pc.Finished? || (p.pc.Loading? && !p.pc.locked))
  }

  predicate ProcOk(w: World, pid: nat)
    requires pid in w.procs
  {
    var p := w.procs[pid];
    (w.owner == Some(pid) <==> Inside(p.pc) && !p.crashed)
    && KnowsFile(w.file, p) && FellFairly(p) && BornLate(w.file, p)
  }

  /** The commit of `r` in a log, after a refusal if `r` is a software identity. */
  predicate CommitAt(p: Proc, r: Record, i: nat)
    requires i < |p.log|
  {
    p.log[i].0 == WriteState(r) && (r.kind.Software? ==> p.allow && TpmRefused(p.log[..i]))
  }

  predicate HasCommitted(p: Proc, r: Record) {
    exists i | 0 <= i < |p.log| :: CommitAt(p, r, i)
  }

  predicate CommitOk(w: World) {
    if w.committer.None? then w.file == w.initial
    else w.initial.NoFile? && w.file.Holds? && w.committer.value in w.procs
         && HasCommitted(w.procs[w.committer.value], w.file.record)
  }

  predicate Inv(w: World) {
    (w.owner.Some? ==> w.owner.value in w.procs)
    && (forall pid | pid in w.procs :: ProcOk(w, pid))
    && CommitOk(w)
  }

  lemma RefusalStays(log: Log, entry: (Call, Reply))
    ensures TpmRefused(log) ==> TpmRefused(log + [entry])
    ensures RefusedAt(log + [entry], |log|) ==> TpmRefused(log + [entry])
  {
    if i :| 0 <= i < |log| && RefusedAt(log, i) {
      assert RefusedAt(log + [entry], i);
    }
  }

  lemma PinStays(p: Proc, pc: Pc, entry: (Call, Reply))
    requires OnlyPinned(p)
    requires entry.0 == ReadState || (p.born.Holds? && entry.0 == Load(p.born.record.kind, p.born.record.keyName))
    ensures OnlyPinned(p.(pc := pc, log := p.log + [entry]))
  {
  }

  function Entry(p: Proc, reply: Reply): (Call, Reply)
    requires !p.pc.Finished?
  {
    (Request(p.pc), reply)
  }

  /** The run after one call. */
  function Moved(p: Proc, reply: Reply): Proc
    requires !p.pc.Finished? && Fits(Request(p.pc), reply)
  {
    p.(pc := Next(p.allow, p.pc, reply), log := p.log + [Entry(p, reply)])
  }

  lemma StaysFair(p: Proc, reply: Reply)
    requires !p.pc.Finished? && Fits(Request(p.pc), reply) && FellFairly(p)
    requires p.pc.Removing? ==> !p.pc.outcome.code.ProviderUnsupported?
    ensures FellFairly(Moved(p, reply))
  {
    RefusalStays(p.log, Entry(p, reply));
    assert RefusedAt(p.log + [Entry(p, reply)], |p.log|) <==>
           (p.pc.ProbeTpm? && reply.probe.AbsentOrUnusable?)
           || (p.pc.Establishing? && p.pc.kind.Tpm? && reply.response.outcome.AbsentOrUnusable?);
    hide TpmRefused, RefusedAt, Matches;
  }

  lemma StaysPinned(observer: bool, w: World, p: Proc, reply: Reply, committed: bool)
    requires !p.pc.Finished? && Possible(observer, w, Request(p.pc), reply, committed)
    requires KnowsFile(w.file, p) && BornLate(w.file, p)
    ensures BornLate(w.file, Moved(p, reply))
  {
    if !p.born.NoFile? {
      PinStays(p, Moved(p, reply).pc, Entry(p, reply));
      hide OnlyPinned, Matches;
    }
  }

  lemma StaysInformed(observer: bool, w: World, pid: nat, p: Proc, reply: Reply, committed: bool)
    requires !p.pc.Finished? && Possible(observer, w, Request(p.pc), reply, committed) && KnowsFile(w.file, p)
    requires !p.crashed
    ensures KnowsFile(Effect(w, pid, Request(p.pc), reply, committed).file, Moved(p, reply))
  {
    hide Matches, TpmRefused;
  }

  lemma StaysInside(observer: bool, w: World, pid: nat, p: Proc, reply: Reply, committed: bool)
    requires !p.pc.Finished? && Possible(observer, w, Request(p.pc), reply, committed) && !p.crashed
    requires w.owner == Some(pid) <==> Inside(p.pc)
    ensures Effect(w, pid, Request(p.pc), reply, committed).owner == Some(pid) <==> Inside(Moved(p, reply).pc)
  {
  }

  /** What a run itself knows after one of its calls. */
  lemma CallerStaysOk(observer: bool, w: World, pid: nat, reply: Reply, committed: bool)
    requires Inv(w) && Enabled(observer, w, Act(pid, reply, committed))
    ensures ProcOk(Apply(observer, w, Act(pid, reply, committed)), pid)
  {
    var p := w.procs[pid];
    assert ProcOk(w, pid);
    StaysInside(observer, w, pid, p, reply, committed);
    StaysInformed(observer, w, pid, p, reply, committed);
    StaysFair(p, reply);
    StaysPinned(observer, w, p, reply, committed);
    assert p.pc.Writing? ==> p.born.NoFile?;
    hide KnowsFile, FellFairly, BornLate, Next, Inside;
  }

  /** The calls of one run leave the knowledge of every other run true. */
  lemma OthersStayOk(observer: bool, w: World, pid: nat, reply: Reply, committed: bool, other: nat)
    requires Inv(w) && Enabled(observer, w, Act(pid, reply, committed))
    requires other in w.procs && other != pid
    ensures ProcOk(Apply(observer, w, Act(pid, reply, committed)), other)
  {
    assert ProcOk(w, pid) && ProcOk(w, other);
    hide TpmRefused, OnlyPinned, Matches, Next;
  }

  lemma CommitIsRemembered(p: Proc, reply: Reply, r: Record)
    requires !p.pc.Finished? && Fits(Request(p.pc), reply)
    ensures HasCommitted(p, r) ==> HasCommitted(Moved(p, reply), r)
    ensures p.pc.Writing? && p.pc.identity == r && FellFairly(p) && Matches(r, p.pc.kind, p.pc.name) ==>
              HasCommitted(Moved(p, reply), r)
  {
    var q := Moved(p, reply);
    assert q.log[..|p.log|] == p.log;
    if i :| 0 <= i < |p.log| && CommitAt(p, r, i) {
      assert q.log[..i] == p.log[..i];
      assert CommitAt(q, r, i);
    }
    if p.pc.Writing? && p.pc.identity == r && FellFairly(p) && Matches(r, p.pc.kind, p.pc.name) {
      assert CommitAt(q, r, |p.log|);
    }
  }

  lemma CommitStaysOk(observer: bool, w: World, pid: nat, reply: Reply, committed: bool)
    requires Inv(w) && Enabled(observer, w, Act(pid, reply, committed))
    ensures CommitOk(Apply(observer, w, Act(pid, reply, committed)))
  {
    hide Next, HasCommitted, FellFairly, BornLate, Matches, Promises, Fits, Inside;
    var p := w.procs[pid];
    assert ProcOk(w, pid);
    assert Apply(observer, w, Act(pid, reply, committed)).procs[pid] == Moved(p, reply);
    if p.pc.Writing? && committed {
      CommitIsRemembered(p, reply, p.pc.identity);
    } else if w.committer == Some(pid) {
      CommitIsRemembered(p, reply, w.file.record);
    }
  }

  /** A crash leaves the knowledge of every run true. */
  lemma CrashKeepsInv(observer: bool, w: World, pid: nat)
    requires Inv(w) && Enabled(observer, w, Crash(pid))
    ensures Inv(Apply(observer, w, Crash(pid)))
  {
    var after := Apply(observer, w, Crash(pid));
    forall other | other in after.procs ensures ProcOk(after, other) {
      assert ProcOk(w, other) && ProcOk(w, pid);
    }
    if w.committer == Some(pid) {
      var i :| 0 <= i < |w.procs[pid].log| && CommitAt(w.procs[pid], w.file.record, i);
      assert CommitAt(after.procs[pid], w.file.record, i);
    }
  }

  lemma BeginKeepsInv(observer: bool, w: World, pid: nat, allow: bool)
    requires Inv(w) && Enabled(observer, w, Begin(pid, allow))
    ensures Inv(Apply(observer, w, Begin(pid, allow)))
  {
    var after := Apply(observer, w, Begin(pid, allow));
    forall other | other in after.procs ensures ProcOk(after, other) {
      if other != pid { assert ProcOk(w, other); }
    }
  }

  /** Every step of every run keeps the invariant. */
  lemma StepKeepsInv(observer: bool, w: World, a: Action)
    requires Inv(w) && Enabled(observer, w, a)
    ensures Inv(Apply(observer, w, a))
  {
    match a
    case Begin(pid, allow) => BeginKeepsInv(observer, w, pid, allow);
    case Crash(pid) => CrashKeepsInv(observer, w, pid);
    case Act(pid, reply, committed) =>
      hide ProcOk, CommitOk, Next, Possible;
      var after := Apply(observer, w, a);
      forall other | other in after.procs ensures ProcOk(after, other) {
        if other == pid {
          CallerStaysOk(observer, w, pid, reply, committed);
        } else {
          OthersStayOk(observer, w, pid, reply, committed, other);
        }
      }
      CommitStaysOk(observer, w, pid, reply, committed);
  }
}
