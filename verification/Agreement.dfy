/** Safety of first establishment, over every execution of the whole system. */
module Agreement {
  import opened Wrappers
  import opened Identity
  import opened Establishment
  import MachineState

  lemma {:induction false} ExecutionKeepsInv(observer: bool, ws: seq<World>, acts: seq<Action>, i: nat)
    requires Execution(observer, ws, acts) && i < |ws|
    ensures Inv(ws[i])
  {
    hide Apply, Enabled, ProcOk, HasCommitted;
    if i > 0 {
      ExecutionKeepsInv(observer, ws, acts, i - 1);
      StepKeepsInv(observer, ws[i - 1], acts[i - 1]);
    }
  }

  lemma StepWritesOnce(observer: bool, w: World, a: Action)
    requires Inv(w) && Enabled(observer, w, a)
    ensures var after := Apply(observer, w, a).file;
            after == w.file || (w.file.NoFile? && after.Holds?)
  {
    if a.Act? {
      assert ProcOk(w, a.pid);
    }
  }

  /**
   * Write once: the file goes from absent to one record at most once, and no
   * step of any run changes a file that exists, valid or not, although the
   * replace that commits it could.
   */
  lemma {:induction false} FileIsWrittenOnce(observer: bool, ws: seq<World>, acts: seq<Action>, i: nat, j: nat)
    requires Execution(observer, ws, acts) && i <= j < |ws|
    ensures !ws[i].file.NoFile? ==> ws[j].file == ws[i].file
    ensures ws[i].file.NoFile? ==> !ws[j].file.Damaged?
    decreases j
  {
    hide Apply, Enabled, Inv;
    if i < j {
      FileIsWrittenOnce(observer, ws, acts, i, j - 1);
      ExecutionKeepsInv(observer, ws, acts, j - 1);
      StepWritesOnce(observer, ws[j - 1], acts[j - 1]);
    }
  }

  /** Run `pid` has returned success with identity `r`. */
  predicate Returned(w: World, pid: nat, r: Record) {
    pid in w.procs && w.procs[pid].pc.Finished? && w.procs[pid].pc.outcome.code.IdentityOk?
    && w.procs[pid].pc.outcome.identity == Some(r)
  }

  /**
   * Agreement: all runs that ever return success return the same identity,
   * the committed one, whatever the providers answer.
   */
  lemma SuccessfulRunsAgree(
      observer: bool, ws: seq<World>, acts: seq<Action>, i: nat, j: nat, p: nat, q: nat, r: Record, s: Record)
    requires Execution(observer, ws, acts) && i <= j < |ws|
    requires Returned(ws[i], p, r) && Returned(ws[j], q, s)
    ensures r == s && ws[j].file == Holds(r)
  {
    ExecutionKeepsInv(observer, ws, acts, i);
    ExecutionKeepsInv(observer, ws, acts, j);
    assert ProcOk(ws[i], p) && ProcOk(ws[j], q);
    FileIsWrittenOnce(observer, ws, acts, i, j);
  }

  /** A run that returns success always returns an identity. */
  lemma SuccessHasIdentity(observer: bool, ws: seq<World>, acts: seq<Action>, i: nat, p: nat)
    requires Execution(observer, ws, acts) && i < |ws| && p in ws[i].procs
    requires ws[i].procs[p].pc.Finished? && ws[i].procs[p].pc.outcome.code.IdentityOk?
    ensures ws[i].procs[p].pc.outcome.identity.Some?
  {
    ExecutionKeepsInv(observer, ws, acts, i);
    assert ProcOk(ws[i], p);
  }

  /** At most one run is inside the locked region. */
  lemma LockIsExclusive(observer: bool, ws: seq<World>, acts: seq<Action>, i: nat, p: nat, q: nat)
    requires Execution(observer, ws, acts) && i < |ws| && p in ws[i].procs && q in ws[i].procs
    requires Inside(ws[i].procs[p].pc) && !ws[i].procs[p].crashed
    requires Inside(ws[i].procs[q].pc) && !ws[i].procs[q].crashed
    ensures p == q
  {
    ExecutionKeepsInv(observer, ws, acts, i);
    assert ProcOk(ws[i], p) && ProcOk(ws[i], q);
  }

  /** A run that has ended, by itself or by a crash, no longer holds the lock. */
  lemma EndedRunsHoldNothing(observer: bool, ws: seq<World>, acts: seq<Action>, i: nat, p: nat)
    requires Execution(observer, ws, acts) && i < |ws| && p in ws[i].procs
    requires ws[i].procs[p].crashed || ws[i].procs[p].pc.Finished?
    ensures ws[i].owner != Some(p)
  {
    ExecutionKeepsInv(observer, ws, acts, i);
    assert ProcOk(ws[i], p);
  }

  /**
   * No silent downgrade: if the system committed a software identity, the run
   * that did so was allowed to fall back and, before its commit, was told by
   * the TPM that it is absent or permanently unusable.
   */
  lemma SoftwareNeedsRefusal(observer: bool, ws: seq<World>, acts: seq<Action>, i: nat)
    requires Execution(observer, ws, acts) && i < |ws| && ws[i].file != ws[i].initial
    ensures ws[i].initial.NoFile? && ws[i].file.Holds? && ws[i].committer.Some?
    ensures var r, pid := ws[i].file.record, ws[i].committer.value;
            pid in ws[i].procs &&
            var p := ws[i].procs[pid];
            exists k | 0 <= k < |p.log| ::
              p.log[k].0 == WriteState(r)
              && (r.kind.Software? ==> p.allow && exists l | 0 <= l < k :: RefusedAt(p.log, l))
  {
    ExecutionKeepsInv(observer, ws, acts, i);
    var r, p := ws[i].file.record, ws[i].procs[ws[i].committer.value];
    var k :| 0 <= k < |p.log| && CommitAt(p, r, k);
    if r.kind.Software? {
      var l :| 0 <= l < k && RefusedAt(p.log[..k], l);
      assert RefusedAt(p.log, l);
    }
  }

  /**
   * A run that begins once a file exists never takes the lock, probes, creates
   * or writes: it reads, and loads the pinned key of the pinned provider.
   */
  lemma LateRunsOnlyLoad(observer: bool, ws: seq<World>, acts: seq<Action>, i: nat, pid: nat, k: nat)
    requires Execution(observer, ws, acts) && i < |ws| && pid in ws[i].procs
    requires !ws[i].procs[pid].born.NoFile? && k < |ws[i].procs[pid].log|
    ensures var call := ws[i].procs[pid].log[k].0;
            call == ReadState
            || (ws[i].file.Holds? && call == Load(ws[i].file.record.kind, ws[i].file.record.keyName))
  {
    ExecutionKeepsInv(observer, ws, acts, i);
    assert ProcOk(ws[i], pid);
  }

  //
  // Key accounting, for a store without an observer
  //

  /** The key of the identity that the system itself committed. */
  function CommittedKeys(w: World): set<Key> {
    if w.committer.Some? && w.file.Holds? then {KeyOf(w.file.record)} else {}
  }

  /** The key the current lock owner is responsible for. */
  function HeldKeys(w: World): set<Key> {
    if w.owner.Some? && w.owner.value in w.procs then Held(w.procs[w.owner.value].pc) else {}
  }

  predicate Partitioned(
      keys: set<Key>, base: set<Key>, committed: set<Key>, held: set<Key>, orphans: set<Key>, unclaimed: set<Key>)
  {
    keys == base + committed + held + orphans + unclaimed && base !! committed !! held !! orphans !! unclaimed
  }

  /**
   * Every key is one that was there before, the committed one, the one held by
   * the lock owner, one a crashed owner left, or one a provider reported as
   * usable without an identity; and it is only one of these.
   */
  predicate KeysAccounted(w: World) {
    Partitioned(w.keys, w.base, CommittedKeys(w), HeldKeys(w), w.orphans, w.unclaimed)
  }

  predicate RemovesOnlyBeforeCommit(w: World) {
    forall pid | pid in w.procs && w.procs[pid].pc.Removing? && !w.procs[pid].crashed :: w.file.NoFile?
  }

  lemma StepKeepsAccounts(w: World, a: Action)
    requires Inv(w) && KeysAccounted(w) && RemovesOnlyBeforeCommit(w) && Enabled(false, w, a)
    ensures KeysAccounted(Apply(false, w, a)) && RemovesOnlyBeforeCommit(Apply(false, w, a))
    ensures !w.file.NoFile? ==> Apply(false, w, a).keys == w.keys
  {
    match a
    case Begin(_, _) =>
    case Crash(pid) => assert ProcOk(w, pid);
    case Act(pid, reply, committed) =>
      CallKeepsAccounts(w, pid, reply, committed);
      CallRemovesOnlyBeforeCommit(w, pid, reply, committed);
  }

  /** Removals happen before any commit: nothing else runs, and writes tell the truth. */
  lemma CallRemovesOnlyBeforeCommit(w: World, pid: nat, reply: Reply, committed: bool)
    requires Inv(w) && RemovesOnlyBeforeCommit(w) && Enabled(false, w, Act(pid, reply, committed))
    ensures RemovesOnlyBeforeCommit(Apply(false, w, Act(pid, reply, committed)))
  {
    var after := Apply(false, w, Act(pid, reply, committed));
    assert ProcOk(w, pid);
    forall other | other in after.procs && after.procs[other].pc.Removing? && !after.procs[other].crashed
      ensures after.file.NoFile?
    {
      if other == pid {
        hide Matches, FellFairly, BornLate;
      } else {
        assert ProcOk(w, other);
        hide Matches, FellFairly, BornLate, Next;
      }
    }
  }

  /** What one call of `p` does to the keys and to the key it holds. */
  lemma CallMovesKeys(w: World, pid: nat, p: Proc, reply: Reply, committed: bool)
    requires !p.pc.Finished? && Possible(false, w, Request(p.pc), reply, committed) && KnowsFile(w.file, p)
    ensures var after := Effect(w, pid, Request(p.pc), reply, committed);
            var held := Held(Next(p.allow, p.pc, reply));
            if p.pc.Establishing? && reply.response.outcome.Usable? then
              (p.pc.kind, p.pc.name) !in w.keys && after.keys == w.keys + {(p.pc.kind, p.pc.name)}
              && held == (if reply.response.identity.Some? then {(p.pc.kind, p.pc.name)} else {})
            else if p.pc.Removing? then after.keys == w.keys - Held(p.pc) && held == {}
            else if p.pc.Writing? then
              after.keys == w.keys && held == (if committed then {} else Held(p.pc))
              && KeyOf(p.pc.identity) == (p.pc.kind, p.pc.name)
            else after.keys == w.keys && held == {} && Held(p.pc) == {}
  {
  }

  /** The held key after one call. */
  lemma CallMovesHeld(w: World, pid: nat, reply: Reply, committed: bool)
    requires Inv(w) && Enabled(false, w, Act(pid, reply, committed))
    ensures var p := w.procs[pid];
            var after := HeldKeys(Apply(false, w, Act(pid, reply, committed)));
            if Inside(p.pc) then HeldKeys(w) == Held(p.pc) && after == Held(Next(p.allow, p.pc, reply))
            else after == HeldKeys(w)
  {
    hide Matches;
    var p := w.procs[pid];
    assert ProcOk(w, pid);
    StaysInside(false, w, pid, p, reply, committed);
    assert !Inside(Next(p.allow, p.pc, reply)) ==> Held(Next(p.allow, p.pc, reply)) == {};
    assert !Inside(p.pc) ==> Held(Next(p.allow, p.pc, reply)) == {};
    hide KnowsFile, FellFairly, BornLate, Next, Held, Inside;
  }

  /** The committed key after one call. */
  lemma CallMovesCommitted(w: World, pid: nat, reply: Reply, committed: bool)
    requires Inv(w) && Enabled(false, w, Act(pid, reply, committed))
    ensures var p := w.procs[pid];
            var after := CommittedKeys(Apply(false, w, Act(pid, reply, committed)));
            (if committed then CommittedKeys(w) == {} && after == {KeyOf(p.pc.identity)} else after == CommittedKeys(w))
            && (p.pc.Establishing? || p.pc.Writing? ==> w.file.NoFile?)
  {
    assert ProcOk(w, pid);
    hide FellFairly, BornLate, Next, Matches;
  }

  lemma CallKeepsAccounts(w: World, pid: nat, reply: Reply, committed: bool)
    requires Inv(w) && KeysAccounted(w) && RemovesOnlyBeforeCommit(w) && Enabled(false, w, Act(pid, reply, committed))
    ensures KeysAccounted(Apply(false, w, Act(pid, reply, committed)))
    ensures !w.file.NoFile? ==> Apply(false, w, Act(pid, reply, committed)).keys == w.keys
  {
    var p := w.procs[pid];
    var after := Apply(false, w, Act(pid, reply, committed));
    assert ProcOk(w, pid);
    CallMovesKeys(w, pid, p, reply, committed);
    CallMovesHeld(w, pid, reply, committed);
    CallMovesCommitted(w, pid, reply, committed);
    CallMovesUnclaimed(w, pid, p, reply, committed);
    EffectOnKeys(w, pid, reply, committed);
    assert p.pc.Removing? ==> w.file.NoFile?;
    assert committed ==> p.pc.Writing?;
    assert p.pc.Establishing? || p.pc.Writing? || p.pc.Removing? ==> Inside(p.pc);
    hide KnowsFile, FellFairly, BornLate, Next, Held, HeldKeys, CommittedKeys, Possible, Apply, Effect, Partitioned,
         ProcOk, Inv, Enabled, Inside;
    if p.pc.Establishing? && reply.response.outcome.Usable? {
      KeyArrives(w.keys, w.base, CommittedKeys(w), HeldKeys(w), w.orphans, w.unclaimed, (p.pc.kind, p.pc.name));
    } else if p.pc.Removing? {
      HeldKeyGoes(w.keys, w.base, CommittedKeys(w), HeldKeys(w), w.orphans, w.unclaimed);
    } else if p.pc.Writing? && committed {
      HeldKeyIsCommitted(w.keys, w.base, HeldKeys(w), w.orphans, w.unclaimed);
    }
  }

  /** What one call of `p` does to the keys that no run is responsible for. */
  lemma CallMovesUnclaimed(w: World, pid: nat, p: Proc, reply: Reply, committed: bool)
    requires !p.pc.Finished? && Fits(Request(p.pc), reply)
    ensures var after := Effect(w, pid, Request(p.pc), reply, committed);
            after.base == w.base && after.orphans == w.orphans
            && after.unclaimed == if p.pc.Establishing? && reply.response.outcome.Usable?
                                     && reply.response.identity.None?
                                  then w.unclaimed + {(p.pc.kind, p.pc.name)} else w.unclaimed
  {
  }

  lemma EffectOnKeys(w: World, pid: nat, reply: Reply, committed: bool)
    requires Enabled(false, w, Act(pid, reply, committed))
    ensures var after, effect := Apply(false, w, Act(pid, reply, committed)),
                                 Effect(w, pid, Request(w.procs[pid].pc), reply, committed);
            after.keys == effect.keys && after.base == effect.base && after.orphans == effect.orphans
            && after.unclaimed == effect.unclaimed
  {
  }

  /** A new key is held, or unclaimed. */
  lemma KeyArrives(keys: set<Key>, base: set<Key>, committed: set<Key>, held: set<Key>, orphans: set<Key>,
                   unclaimed: set<Key>, key: Key)
    requires Partitioned(keys, base, committed, held, orphans, unclaimed) && key !in keys && held == {}
    ensures Partitioned(keys + {key}, base, committed, {key}, orphans, unclaimed)
    ensures Partitioned(keys + {key}, base, committed, {}, orphans, unclaimed + {key})
  {
  }

  lemma HeldKeyGoes(keys: set<Key>, base: set<Key>, committed: set<Key>, held: set<Key>, orphans: set<Key>,
                    unclaimed: set<Key>)
    requires Partitioned(keys, base, committed, held, orphans, unclaimed)
    ensures Partitioned(keys - held, base, committed, {}, orphans, unclaimed)
  {
  }

  lemma HeldKeyIsCommitted(keys: set<Key>, base: set<Key>, held: set<Key>, orphans: set<Key>, unclaimed: set<Key>)
    requires Partitioned(keys, base, {}, held, orphans, unclaimed)
    ensures Partitioned(keys, base, held, {}, orphans, unclaimed)
  {
  }

  lemma {:induction false} ExecutionKeepsAccounts(ws: seq<World>, acts: seq<Action>, i: nat)
    requires Execution(false, ws, acts) && i < |ws|
    ensures KeysAccounted(ws[i]) && RemovesOnlyBeforeCommit(ws[i])
  {
    hide Apply, Enabled, Inv;
    if i > 0 {
      ExecutionKeepsAccounts(ws, acts, i - 1);
      ExecutionKeepsInv(false, ws, acts, i - 1);
      StepKeepsAccounts(ws[i - 1], acts[i - 1]);
    }
  }

  /**
   * Without an observer the committed key always exists, and when nothing is
   * held, crashed or unclaimed the system has added exactly that one key.
   */
  lemma CommittedKeyExists(ws: seq<World>, acts: seq<Action>, i: nat)
    requires Execution(false, ws, acts) && i < |ws|
    ensures ws[i].committer.Some? ==> ws[i].file.Holds? && KeyOf(ws[i].file.record) in ws[i].keys
    ensures ws[i].owner.None? && ws[i].orphans == {} && ws[i].unclaimed == {} ==>
              ws[i].keys == ws[i].base + CommittedKeys(ws[i])
  {
    ExecutionKeepsInv(false, ws, acts, i);
    ExecutionKeepsAccounts(ws, acts, i);
  }

  /** Once a file exists, no run ever creates or removes a key. */
  lemma {:induction false} KeysAreFrozen(ws: seq<World>, acts: seq<Action>, i: nat, j: nat)
    requires Execution(false, ws, acts) && i <= j < |ws| && !ws[i].file.NoFile?
    ensures ws[j].keys == ws[i].keys
    decreases j
  {
    hide Apply, Enabled, Inv, KeysAccounted, RemovesOnlyBeforeCommit;
    if i < j {
      KeysAreFrozen(ws, acts, i, j - 1);
      FileIsWrittenOnce(false, ws, acts, i, j - 1);
      ExecutionKeepsInv(false, ws, acts, j - 1);
      ExecutionKeepsAccounts(ws, acts, j - 1);
      StepKeepsAccounts(ws[j - 1], acts[j - 1]);
    }
  }

  /**
   * Once a file exists, every further call of every run is a read, the lock or
   * its release, or a load of the pinned key of the pinned provider.
   */
  lemma AfterCommitOnlyPinnedCalls(ws: seq<World>, acts: seq<Action>, i: nat)
    requires Execution(false, ws, acts) && i < |acts| && acts[i].Act? && !ws[i].file.NoFile?
    ensures acts[i].pid in ws[i].procs && !ws[i].procs[acts[i].pid].pc.Finished?
    ensures var call := Request(ws[i].procs[acts[i].pid].pc);
            call == ReadState || call == AcquireLock || call == ReleaseLock
            || (ws[i].file.Holds? && call == Load(ws[i].file.record.kind, ws[i].file.record.keyName))
  {
    ExecutionKeepsInv(false, ws, acts, i);
    ExecutionKeepsAccounts(ws, acts, i);
    assert Enabled(false, ws[i], acts[i]) && ProcOk(ws[i], acts[i].pid);
  }

  //
  // What an observer changes
  //

  /** In every execution, a record that the system committed has its key. */
  ghost predicate CommittedKeysAlwaysExist(observer: bool) {
    forall ws: seq<World>, acts: seq<Action>, i: int
      | Execution(observer, ws, acts) && 0 <= i < |ws| && ws[i].committer.Some? && ws[i].file.Holds? ::
      KeyOf(ws[i].file.record) in ws[i].keys
  }

  /** The same for the records that the state codec stores. */
  ghost predicate StoredKeysAlwaysExist(observer: bool) {
    forall ws: seq<World>, acts: seq<Action>, i: int
      | Execution(observer, ws, acts) && 0 <= i < |ws| && ws[i].committer.Some? && ws[i].file.Holds?
        && MachineState.ValidRecord(ws[i].file.record) ::
      KeyOf(ws[i].file.record) in ws[i].keys
  }

  /** Such an identity under a generated name is one that the state codec stores. */
  lemma IdentifiedIsStorable(name: string, digit: char)
    requires MachineState.ValidKeyName(name) && '0' <= digit <= '9'
    ensures MachineState.ValidRecord(Identified(Tpm, name, digit))
  {
    hide MachineState.ValidKeyName;
  }

  const SAMPLE_NAME: string := MachineState.KEY_PREFIX + seq(32, _ => '0')

  const SAMPLE: Record := Identified(Tpm, SAMPLE_NAME, '0')

  lemma SampleNameIsValid()
    ensures MachineState.ValidKeyName(SAMPLE_NAME)
  {
  }

  lemma SampleIsStorable()
    ensures MachineState.ValidRecord(SAMPLE)
  {
    SampleNameIsValid();
    IdentifiedIsStorable(SAMPLE_NAME, '0');
  }

  /** Run 0, alone in its world, stands at `pc`. */
  predicate Alone(w: World, pc: Pc, file: FileState, keys: set<Key>) {
    w.procs.Keys == {0} && !w.procs[0].crashed && w.procs[0].allow && w.procs[0].pc == pc && w.file == file
    && w.keys == keys && (w.owner.Some? <==> Inside(pc)) && (file.Holds? <==> w.committer == Some(0))
    && (!file.Holds? ==> w.committer.None?)
  }

  predicate NoCommits(ws: seq<World>) {
    forall i | 0 <= i < |ws| :: ws[i].committer.None?
  }

  /** One more step of the whole system. */
  lemma Extend(observer: bool, ws: seq<World>, acts: seq<Action>, a: Action)
    returns (longer: seq<World>, more: seq<Action>)
    requires Execution(observer, ws, acts) && Enabled(observer, ws[|acts|], a)
    ensures Execution(observer, longer, more)
    ensures longer == ws + [Apply(observer, ws[|acts|], a)] && more == acts + [a]
  {
    longer, more := ws + [Apply(observer, ws[|acts|], a)], acts + [a];
  }

  lemma ReachLocked(observer: bool, keys: set<Key>) returns (ws: seq<World>, acts: seq<Action>)
    ensures Execution(observer, ws, acts) && NoCommits(ws) && Alone(ws[|acts|], ReadAgain, NoFile, keys)
    ensures ws[0].file.NoFile? && ws[0].keys == keys
  {
    var w := World(NoFile, None, keys, map[], NoFile, keys, None, {}, {});
    ws, acts := [w], [];
    ws, acts := Extend(observer, ws, acts, Begin(0, true));
    ws, acts := Extend(observer, ws, acts, Act(0, Read(StateRead(StoreAbsent, None)), false));
    ws, acts := Extend(observer, ws, acts, Act(0, Locked(Acquired), false));
  }

  lemma ReachProbe(observer: bool, keys: set<Key>) returns (ws: seq<World>, acts: seq<Action>)
    ensures Execution(observer, ws, acts) && NoCommits(ws) && Alone(ws[|acts|], ProbeTpm, NoFile, keys)
    ensures ws[0].file.NoFile? && ws[0].keys == keys
  {
    ws, acts := ReachLocked(observer, keys);
    ws, acts := Extend(observer, ws, acts, Act(0, Read(StateRead(StoreAbsent, None)), false));
    ws, acts := Extend(observer, ws, acts, Act(0, Stored(StoreOk), false));
  }

  lemma ReachEstablishing(observer: bool, keys: set<Key>, name: string) returns (ws: seq<World>, acts: seq<Action>)
    ensures Execution(observer, ws, acts) && NoCommits(ws) && Alone(ws[|acts|], Establishing(Tpm, name), NoFile, keys)
    ensures ws[0].file.NoFile? && ws[0].keys == keys
  {
    ws, acts := ReachProbe(observer, keys);
    ws, acts := Extend(observer, ws, acts, Act(0, Probed(Usable), false));
    ws, acts := Extend(observer, ws, acts, Act(0, Named(name), false));
  }

  /** From any keys, a run may reach its write with any matching identity under a new name. */
  lemma ReachWriting(observer: bool, keys: set<Key>, r: Record) returns (ws: seq<World>, acts: seq<Action>)
    requires Matches(r, Tpm, r.keyName) && KeyOf(r) !in keys
    ensures Execution(observer, ws, acts) && NoCommits(ws)
    ensures Alone(ws[|acts|], Writing(Tpm, r.keyName, r), NoFile, keys + {KeyOf(r)})
    ensures ws[0].file.NoFile? && ws[0].keys == keys
  {
    ws, acts := ReachEstablishing(observer, keys, r.keyName);
    assert r.kind.Tpm?;
    hide Matches;
    ws, acts := Extend(observer, ws, acts, Act(0, Responded(ProviderResponse(Usable, Some(r))), false));
  }

  /**
   * A write that commits but reports failure makes its run remove the committed
   * key; the record is one that the state codec stores.
   */
  lemma ObserverLosesKey() returns (ws: seq<World>, acts: seq<Action>)
    ensures Execution(true, ws, acts) && MachineState.ValidRecord(SAMPLE)
    ensures var w := ws[|acts|]; w.committer.Some? && w.file == Holds(SAMPLE) && KeyOf(SAMPLE) !in w.keys
    ensures |acts| >= 2 && acts[|acts| - 2] == Act(0, Stored(StoreFailure), true)
    ensures 0 in ws[|acts| - 2].procs && ws[|acts| - 2].procs[0].pc == Writing(Tpm, SAMPLE_NAME, SAMPLE)
  {
    SampleIsStorable();
    ws, acts := ReachWriting(true, {}, SAMPLE);
    ws, acts := Extend(true, ws, acts, Act(0, Stored(StoreFailure), true));
    ws, acts := Extend(true, ws, acts, Act(0, Done, false));
  }

  /**
   * Committed records keep their keys in every execution exactly when there is
   * no observer, and so do those alone that the state codec stores.
   */
  lemma KeysSafeExactlyWithoutObserver(observer: bool)
    ensures CommittedKeysAlwaysExist(observer) <==> !observer
    ensures StoredKeysAlwaysExist(observer) <==> !observer
  {
    hide MachineState.ValidRecord;
    if observer {
      var ws, acts := ObserverLosesKey();
      assert ws[|acts|].committer.Some?;
    } else {
      forall ws: seq<World>, acts: seq<Action>, i: int
        | Execution(observer, ws, acts) && 0 <= i < |ws| && ws[i].committer.Some? && ws[i].file.Holds?
        ensures KeyOf(ws[i].file.record) in ws[i].keys
      {
        CommittedKeyExists(ws, acts, i);
      }
    }
  }
}
