/**
 * First establishment across power losses. An epoch is a run of the whole
 * system between two of them: a loss ends every process, frees the lock, and
 * may take the commit of the epoch back as long as it is not durable. A write
 * returns only once its commit is durable.
 */
module Outages {
  import opened Wrappers
  import opened Identity
  import opened Establishment
  import opened Agreement
  import opened StoreSpec
  import CrashSafety
  import FileSystem
  import MachineState

  /** `durable` is the step from which the commit of the epoch is durable, if it ever is. */
  datatype Epoch = Epoch(ws: seq<World>, acts: seq<Action>, durable: Option<nat>)

  /** The committing run makes no further call before its write has returned. */
  predicate ValidEpoch(observer: bool, e: Epoch) {
    Execution(observer, e.ws, e.acts)
    && (e.durable.Some? ==> e.durable.value <= |e.acts| && e.ws[e.durable.value].committer.Some?)
    && forall i | 0 <= i < |e.acts| ::
         e.acts[i].Act? && e.ws[i].committer == Some(e.acts[i].pid) ==> e.durable.Some? && e.durable.value <= i
  }

  function Last(observer: bool, e: Epoch): World
    requires ValidEpoch(observer, e)
  {
    e.ws[|e.acts|]
  }

  /** What the epoch leaves is durable. */
  predicate Survives(observer: bool, e: Epoch)
    requires ValidEpoch(observer, e)
  {
    Last(observer, e).committer.Some? ==> e.durable.Some?
  }

  /** `f` is an epoch that may come after a power loss at the end of `e`; keys are kept. */
  predicate Follows(observer: bool, e: Epoch, f: Epoch) {
    ValidEpoch(observer, e) && ValidEpoch(observer, f) && f.ws[0].keys == Last(observer, e).keys
    && (f.ws[0].file == Last(observer, e).file || (!Survives(observer, e) && f.ws[0].file == e.ws[0].file))
  }

  predicate History(observer: bool, es: seq<Epoch>) {
    (forall k | 0 <= k < |es| :: ValidEpoch(observer, es[k]))
    && forall k | 0 < k < |es| :: Follows(observer, es[k - 1], es[k])
  }

  lemma {:induction false} InitialStays(observer: bool, ws: seq<World>, acts: seq<Action>, i: nat)
    requires Execution(observer, ws, acts) && i < |ws|
    ensures ws[i].initial == ws[0].file
  {
    if i > 0 {
      InitialStays(observer, ws, acts, i - 1);
      StepKeepsInitial(observer, ws[i - 1], acts[i - 1]);
      hide Apply, Enabled;
      assert ws[i - 1 + 1] == Apply(observer, ws[i - 1], acts[i - 1]);
    }
  }

  lemma StepKeepsInitial(observer: bool, w: World, a: Action)
    requires Enabled(observer, w, a)
    ensures Apply(observer, w, a).initial == w.initial
  {
  }

  /** An epoch changes the file only by the commit of a record where there was none. */
  lemma EpochFile(observer: bool, e: Epoch)
    requires ValidEpoch(observer, e)
    ensures var w := Last(observer, e);
            if w.committer.Some? then e.ws[0].file.NoFile? && w.file.Holds? else w.file == e.ws[0].file
  {
    hide Enabled, Apply, ProcOk, HasCommitted;
    ExecutionKeepsInv(observer, e.ws, e.acts, |e.acts|);
    InitialStays(observer, e.ws, e.acts, |e.acts|);
  }

  lemma ReturnedIsFile(observer: bool, e: Epoch, p: nat, r: Record)
    requires ValidEpoch(observer, e) && Returned(Last(observer, e), p, r)
    ensures Last(observer, e).file == Holds(r)
  {
    ExecutionKeepsInv(observer, e.ws, e.acts, |e.acts|);
    assert ProcOk(Last(observer, e), p);
  }

  /** A record that survived one power loss survives all of them. */
  lemma {:induction false} RecordStays(observer: bool, es: seq<Epoch>, k: nat, l: nat, r: Record)
    requires History(observer, es) && k <= l < |es|
    requires Last(observer, es[k]).file == Holds(r) && Survives(observer, es[k])
    ensures Last(observer, es[l]).file == Holds(r) && Survives(observer, es[l])
  {
    hide ValidEpoch, Execution;
    if k < l {
      RecordStays(observer, es, k, l - 1, r);
      assert Follows(observer, es[l - 1], es[l]);
      EpochFile(observer, es[l]);
    }
  }

  /**
   * Agreement across any number of power losses: once the commit of an epoch is
   * durable, every later run that returns success returns the same record.
   */
  lemma DurableCommitsAgree(observer: bool, es: seq<Epoch>, k: nat, l: nat, p: nat, q: nat, r: Record, s: Record)
    requires History(observer, es) && k <= l < |es| && Survives(observer, es[k])
    requires Returned(Last(observer, es[k]), p, r) && Returned(Last(observer, es[l]), q, s)
    ensures r == s
  {
    hide Execution, Returned;
    ReturnedIsFile(observer, es[k], p, r);
    ReturnedIsFile(observer, es[l], q, s);
    RecordStays(observer, es, k, l, r);
  }

  //
  // What a power loss leaves of the state file
  //

  /**
   * `was` is the file system when an epoch begins, durable as a power loss left
   * it, and `now` that of its end; its file is replaced once if it commits, and
   * durably so if its commit is durable.
   */
  ghost predicate Holding(
      p: MachineState.Platform, observer: bool, e: Epoch, was: FileSystem.Fs, now: FileSystem.Fs,
      data: FileSystem.Data)
    requires ValidEpoch(observer, e)
  {
    was.firm + 1 == |was.history|
    && e.ws[0].file == FileOf(p, CrashSafety.Visible(was))
    && Last(observer, e).file == FileOf(p, CrashSafety.Visible(now))
    && if Last(observer, e).committer.None? then Unreplaced(was, now)
       else ReplacedBy(was, now, data) && (now.firm == |was.history| <==> Survives(observer, e))
  }

  /** Whatever a power loss leaves of that file system, the next epoch is one that follows. */
  lemma LossIsFollowed(
      p: MachineState.Platform, observer: bool, e: Epoch, f: Epoch, was: FileSystem.Fs, now: FileSystem.Fs,
      data: FileSystem.Data, lost: FileSystem.Fs)
    requires ValidEpoch(observer, e) && ValidEpoch(observer, f) && f.ws[0].keys == Last(observer, e).keys
    requires Holding(p, observer, e, was, now, data) && FileSystem.MayLose(now, lost)
    requires f.ws[0].file == FileOf(p, CrashSafety.Visible(lost))
    ensures Follows(observer, e, f)
  {
    hide FileOf, Execution, Extends;
    UnreplacedShowsTheSame(was, now);
    LossIsOldOrNew(was, now, data, lost);
  }

  lemma UnreplacedShowsTheSame(was: FileSystem.Fs, now: FileSystem.Fs)
    requires was.firm < |was.history|
    ensures Unreplaced(was, now) ==> CrashSafety.Visible(now) == CrashSafety.Visible(was)
    ensures FileSystem.State(was) == was.history[|was.history| - 1]
  {
  }

  /** And every epoch that follows begins with what some power loss leaves. */
  lemma FollowersAreLosses(
      p: MachineState.Platform, observer: bool, e: Epoch, f: Epoch, was: FileSystem.Fs, now: FileSystem.Fs,
      data: FileSystem.Data)
    requires Follows(observer, e, f) && Holding(p, observer, e, was, now, data)
    ensures exists lost :: FileSystem.MayLose(now, lost) && f.ws[0].file == FileOf(p, CrashSafety.Visible(lost))
  {
    hide FileOf, Enabled, Apply;
    if f.ws[0].file == Last(observer, e).file {
      var lost := LossMayKeep(now);
    } else {
      var lost := LossMayUndo(was, now, data);
    }
  }

  //
  // Where agreement ends
  //

  /** Before the last state nothing is committed; in it run 0 has committed `r`. */
  predicate JustCommitted(ws: seq<World>, keys: set<Key>, r: Record) {
    ws != [] && (forall i | 0 <= i < |ws| - 1 :: ws[i].committer.None?)
    && ws[0].file.NoFile? && ws[0].keys == keys
    && Alone(ws[|ws| - 1], Releasing(IdentityResult(IdentityOk, false, Some(r))), Holds(r), keys + {KeyOf(r)})
  }

  lemma ReachCommitted(observer: bool, keys: set<Key>, r: Record) returns (ws: seq<World>, acts: seq<Action>)
    requires Matches(r, Tpm, r.keyName) && KeyOf(r) !in keys
    ensures Execution(observer, ws, acts) && JustCommitted(ws, keys, r)
  {
    ws, acts := ReachWriting(observer, keys, r);
    hide Matches, Execution;
    ws, acts := Extend(observer, ws, acts, Act(0, Stored(StoreOk), true));
  }

  /** From any keys and no file, an epoch in which a run commits `r` durably and returns it. */
  lemma EpochThatReturns(observer: bool, keys: set<Key>, r: Record) returns (e: Epoch)
    requires Matches(r, Tpm, r.keyName) && KeyOf(r) !in keys
    ensures ValidEpoch(observer, e) && e.ws[0].file.NoFile? && e.ws[0].keys == keys
    ensures Returned(Last(observer, e), 0, r)
  {
    var ws, acts := ReachCommitted(observer, keys, r);
    var n := |acts|;
    hide Matches, Execution;
    ExecutionLength(observer, ws, acts);
    ws, acts := Extend(observer, ws, acts, Act(0, Done, false));
    ExecutionLength(observer, ws, acts);
    e := Epoch(ws, acts, Some(n));
  }

  lemma ExecutionLength(observer: bool, ws: seq<World>, acts: seq<Action>)
    requires Execution(observer, ws, acts)
    ensures |ws| == |acts| + 1
  {
  }

  /** Some later epoch has a run that returns another record than `r`, one that the state codec stores. */
  ghost predicate CanDiffer(observer: bool, e: Epoch, r: Record) {
    exists f, q, s ::
      Follows(observer, e, f) && Returned(Last(observer, f), q, s) && s != r && MachineState.ValidRecord(s)
  }

  /** The committing run has made another call after its commit: its write has returned. */
  predicate WriteReturned(ws: seq<World>, acts: seq<Action>)
    requires |ws| == |acts| + 1
  {
    exists i | 0 <= i < |acts| :: acts[i].Act? && ws[i].committer == Some(acts[i].pid)
  }

  lemma NewIdentity(keys: set<Key>, name: string, r: Record) returns (s: Record)
    requires MachineState.ValidKeyName(name) && (Tpm, name) !in keys
    ensures s != r && MachineState.ValidRecord(s) && Matches(s, Tpm, s.keyName) && KeyOf(s) !in keys
  {
    s := Identified(Tpm, name, if r == Identified(Tpm, name, '0') then '1' else '0');
    assert Identified(Tpm, name, '0').value[0] != Identified(Tpm, name, '1').value[0];
    IdentifiedIsStorable(name, s.value[0]);
  }

  /**
   * Let a run have returned `r`, and some valid key name be free. A power loss
   * at this moment can be followed by a run that returns another record if and
   * only if the record was committed by the system and the run that committed
   * it has made no call since: its write has not returned.
   */
  lemma AgreementEndsExactlyBeforeReturn(
      observer: bool, ws: seq<World>, acts: seq<Action>, p: nat, r: Record, name: string)
    requires Execution(observer, ws, acts) && Returned(ws[|acts|], p, r)
    requires MachineState.ValidKeyName(name) && (Tpm, name) !in ws[|acts|].keys
    ensures (exists d :: ValidEpoch(observer, Epoch(ws, acts, d)) && CanDiffer(observer, Epoch(ws, acts, d), r))
            <==> ws[|acts|].committer.Some? && !WriteReturned(ws, acts)
  {
    hide Enabled, Apply, Returned, MachineState.ValidRecord, MachineState.ValidKeyName;
    if ws[|acts|].committer.Some? && !WriteReturned(ws, acts) {
      var e := Epoch(ws, acts, None);
      assert ValidEpoch(observer, e);
      EpochFile(observer, e);
      var s := NewIdentity(ws[|acts|].keys, name, r);
      var f := EpochThatReturns(observer, ws[|acts|].keys, s);
      assert Follows(observer, e, f) && Returned(Last(observer, f), 0, s);
      assert CanDiffer(observer, e, r);
    }
    if d :| ValidEpoch(observer, Epoch(ws, acts, d)) && CanDiffer(observer, Epoch(ws, acts, d), r) {
      var e := Epoch(ws, acts, d);
      var f, q, s :| Follows(observer, e, f) && Returned(Last(observer, f), q, s) && s != r;
      if Survives(observer, e) {
        TwoEpochsAgree(observer, e, f, p, q, r, s);
      }
    }
  }

  lemma TwoEpochsAgree(observer: bool, e: Epoch, f: Epoch, p: nat, q: nat, r: Record, s: Record)
    requires Follows(observer, e, f) && Survives(observer, e)
    requires Returned(Last(observer, e), p, r) && Returned(Last(observer, f), q, s)
    ensures r == s
  {
    hide Execution, Returned, ValidEpoch;
    assert History(observer, [e, f]);
    DurableCommitsAgree(observer, [e, f], 0, 1, p, q, r, s);
  }

  //
  // The committing run itself
  //

  /** Where a run stands right after its write. */
  predicate JustWrote(pc: Pc) { pc.Releasing? || pc.Removing? || pc.ProbeSoftware? }

  lemma CommitStep(observer: bool, w: World, a: Action)
    requires Inv(w) && Enabled(observer, w, a)
    ensures var after := Apply(observer, w, a);
            after.committer != w.committer ==>
              w.committer.None? && a.Act? && after.committer == Some(a.pid)
              && a.pid in after.procs && JustWrote(after.procs[a.pid].pc)
    ensures var after := Apply(observer, w, a);
            forall pid | pid in w.procs && !(a.Act? && a.pid == pid) ::
              pid in after.procs && after.procs[pid].pc == w.procs[pid].pc
  {
    if a.Act? {
      assert ProcOk(w, a.pid);
      if w.committer.Some? { assert w.file.Holds?; }
    }
    hide Matches, FellFairly, BornLate;
  }

  /** Until it makes another call, the committing run stands where its write left it. */
  lemma {:induction false} CommitterWaits(observer: bool, ws: seq<World>, acts: seq<Action>, j: nat)
    requires Execution(observer, ws, acts) && j < |ws| && ws[j].committer.Some?
    requires forall i | 0 <= i < j :: !(acts[i].Act? && ws[i].committer == Some(acts[i].pid))
    ensures ws[j].committer.value in ws[j].procs && JustWrote(ws[j].procs[ws[j].committer.value].pc)
  {
    hide Inv, Enabled, Apply, JustWrote;
    if j > 0 {
      ExecutionKeepsInv(observer, ws, acts, j - 1);
      assert ws[j - 1 + 1] == Apply(observer, ws[j - 1], acts[j - 1]);
      CommitStep(observer, ws[j - 1], acts[j - 1]);
      if ws[j - 1].committer == ws[j].committer {
        CommitterWaits(observer, ws, acts, j - 1);
      }
    }
  }

  /** What the committing run itself has returned is never contradicted. */
  lemma CommitterIsNeverContradicted(
      observer: bool, ws: seq<World>, acts: seq<Action>, d: Option<nat>, r: Record)
    requires ValidEpoch(observer, Epoch(ws, acts, d)) && ws[|acts|].committer.Some?
    requires Returned(ws[|acts|], ws[|acts|].committer.value, r)
    ensures WriteReturned(ws, acts) && !CanDiffer(observer, Epoch(ws, acts, d), r)
  {
    hide Enabled, Apply, Inv, MachineState.ValidRecord;
    var e, p := Epoch(ws, acts, d), ws[|acts|].committer.value;
    if !WriteReturned(ws, acts) {
      CommitterWaits(observer, ws, acts, |acts|);
    }
    if f, q, s :| Follows(observer, e, f) && Returned(Last(observer, f), q, s) && s != r {
      TwoEpochsAgree(observer, e, f, p, q, r, s);
    }
  }

  /** A second run begins and reads the record. */
  lemma SecondRunReads(observer: bool, ws: seq<World>, acts: seq<Action>, r: Record)
    returns (longer: seq<World>, more: seq<Action>)
    requires Execution(observer, ws, acts) && JustCommitted(ws, {}, r)
    ensures Execution(observer, longer, more) && ws <= longer && acts <= more && |more| == |acts| + 2
    ensures more[|acts|..] == [Begin(1, true), Act(1, Read(StateRead(StoreOk, Some(r))), false)]
    ensures forall i | |acts| <= i < |longer| :: longer[i].committer == Some(0)
    ensures var w := longer[|more|];
            1 in w.procs && w.procs[1] == Proc(Loading(r, false), false, true, Holds(r), w.procs[1].log)
            && w.file == Holds(r) && w.keys == {KeyOf(r)}
  {
    hide Execution;
    ExecutionLength(observer, ws, acts);
    longer, more := Extend(observer, ws, acts, Begin(1, true));
    longer, more := Extend(observer, longer, more, Act(1, Read(StateRead(StoreOk, Some(r))), false));
    ExecutionLength(observer, longer, more);
  }

  /** It loads the key and returns; the first run makes no further call meanwhile. */
  lemma SecondRunReturns(observer: bool, ws: seq<World>, acts: seq<Action>, r: Record)
    returns (longer: seq<World>, more: seq<Action>)
    requires Execution(observer, ws, acts) && JustCommitted(ws, {}, r)
    ensures Execution(observer, longer, more) && ws <= longer && acts <= more && |more| > |acts|
    ensures forall i | |acts| <= i < |longer| :: longer[i].committer == Some(0)
    ensures forall i | |acts| <= i < |more| :: more[i].Act? ==> more[i].pid == 1
    ensures Returned(longer[|more|], 1, r) && longer[|more|].keys == {KeyOf(r)}
  {
    hide Execution, JustCommitted;
    ExecutionLength(observer, ws, acts);
    longer, more := SecondRunReads(observer, ws, acts, r);
    ExecutionLength(observer, longer, more);
    longer, more := Extend(observer, longer, more, Act(1, Responded(ProviderResponse(Usable, Some(r))), false));
    ExecutionLength(observer, longer, more);
  }

  /**
   * Such a run exists: a second run returns a record that the codec stores before
   * the first one's write has returned, and a power loss lets another one follow.
   */
  lemma SomeOutageEndsAgreement(observer: bool) returns (ws: seq<World>, acts: seq<Action>, d: Option<nat>)
    ensures Execution(observer, ws, acts) && Returned(ws[|acts|], 1, SAMPLE) && MachineState.ValidRecord(SAMPLE)
    ensures ValidEpoch(observer, Epoch(ws, acts, d)) && CanDiffer(observer, Epoch(ws, acts, d), SAMPLE)
  {
    SampleIsStorable();
    OtherNameIsValid();
    ws, acts := ReachCommitted(observer, {}, SAMPLE);
    hide Matches, Execution, MachineState.ValidRecord, MachineState.ValidKeyName;
    var n := |acts|;
    ExecutionLength(observer, ws, acts);
    ghost var before := ws;
    ws, acts := SecondRunReturns(observer, ws, acts, SAMPLE);
    ExecutionLength(observer, ws, acts);
    WaitsSoFar(before, ws, acts, n);
    AgreementEndsExactlyBeforeReturn(observer, ws, acts, 1, SAMPLE, OTHER_NAME);
    d :| ValidEpoch(observer, Epoch(ws, acts, d)) && CanDiffer(observer, Epoch(ws, acts, d), SAMPLE);
  }

  lemma WaitsSoFar(before: seq<World>, ws: seq<World>, acts: seq<Action>, n: nat)
    requires |ws| == |acts| + 1 && n < |acts| && |before| == n + 1 && before <= ws
    requires forall i | 0 <= i < n :: before[i].committer.None?
    requires forall i | n <= i < |ws| :: ws[i].committer == Some(0)
    requires forall i | n <= i < |acts| :: acts[i].Act? ==> acts[i].pid == 1
    ensures ws[|acts|].committer.Some? && !WriteReturned(ws, acts)
  {
  }

  const OTHER_NAME: string := MachineState.KEY_PREFIX + seq(32, _ => '1')

  lemma OtherNameIsValid()
    ensures MachineState.ValidKeyName(OTHER_NAME) && OTHER_NAME != SAMPLE_NAME
  {
    assert OTHER_NAME[|MachineState.KEY_PREFIX|] == '1' && SAMPLE_NAME[|MachineState.KEY_PREFIX|] == '0';
  }
}
