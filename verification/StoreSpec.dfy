/** What the state store promises: when a write takes effect, what it leaves, and what it reports. */
module StoreSpec {
  import opened Wrappers
  import opened Identity
  import opened MachineState
  import opened FileSystem
  import opened CrashSafety
  import opened Durability
  import Establishment

  datatype CommitPoint = BeforeTempWrite | AfterTempWrite | AfterTempFlush | BeforeReplace | AfterReplace

  datatype Win32Error = AccessDenied | SharingViolation | OtherError

  /**
   * What the operating system and the commit observer do during one write.
   * `failure` is the error of the call that fails, if one does; `deletion` is
   * that of deleting the temporary file once its handle is closed.
   */
  datatype WriteEnv = WriteEnv(
    nonce: nat, name: Option<nat>, id: nat, created: bool, arrived: nat, written: bool, flushed: bool, moved: bool,
    failure: Win32Error, deletion: Option<Win32Error>, throwsAt: Option<CommitPoint>)

  datatype ReadEnv = ReadEnv(opens: bool, failure: bool, sized: bool, complete: bool)

  datatype PrepareEnv = PrepareEnv(
    secured: StoreOutcome, name: Option<nat>, id: nat, created: bool, failure: Win32Error, deletion: Option<Win32Error>)

  /** Everything the state name stood for is complete and durable. */
  predicate Sound(fs: Fs) {
    fs.firm < |fs.history|
    && forall k | 0 <= k < |fs.history| && fs.history[k].Some? ::
         fs.history[k].value in fs.files
         && fs.files[fs.history[k].value].durable == Some(fs.files[fs.history[k].value].cached)
  }

  /** Earlier bindings stand and keep their contents. */
  predicate Extends(was: Fs, now: Fs) {
    Sound(was) && Sound(now) && was.firm <= now.firm && was.history <= now.history
    && forall k | 0 <= k < |was.history| :: Contents(now, was.history[k]) == Contents(was, was.history[k])
  }

  /** The state name is as it was. */
  predicate Unreplaced(was: Fs, now: Fs) {
    Extends(was, now) && now.history == was.history && now.firm == was.firm
  }

  /** One rename happened: the state name stands for `data`. */
  predicate ReplacedBy(was: Fs, now: Fs, data: Data) {
    Extends(was, now) && |now.history| == |was.history| + 1 && Visible(now) == Some(data)
  }

  predicate Between(was: Fs, now: Fs, data: Data) { Unreplaced(was, now) || ReplacedBy(was, now, data) }

  predicate AllBetween(was: Fs, runs: seq<System>, data: Data) {
    forall k | 0 <= k < |runs| :: Between(was, runs[k].fs, data)
  }

  /** Every state of a run is sound. */
  lemma ExecutionIsSound(ws: seq<System>, acts: seq<Action>, i: nat)
    requires Execution(ws, acts) && i < |ws|
    ensures Sound(ws[i].fs)
  {
    ExecutionKeepsInv(ws, acts, i);
  }

  lemma StepExtends(s: System, a: Action)
    requires Inv(s) && Enabled(s, a) && !a.PowerLoss?
    ensures Extends(s.fs, Apply(s, a).fs)
  {
    StepKeepsInv(s, a);
    var t := Apply(s, a);
    forall k | 0 <= k < |s.fs.history| ensures Contents(t.fs, s.fs.history[k]) == Contents(s.fs, s.fs.history[k]) {
      if s.fs.history[k].Some? {
        SettledNeverChanges(s, a, s.fs.history[k].value);
      }
    }
  }

  /** Between two power losses everything that was readable under an open handle stays so. */
  lemma {:induction false} ExecutionExtends(ws: seq<System>, acts: seq<Action>, i: nat, j: nat)
    requires Execution(ws, acts) && i <= j < |ws| && forall k | i <= k < j :: !acts[k].PowerLoss?
    ensures Extends(ws[i].fs, ws[j].fs)
    decreases j
  {
    hide Inv, Enabled, Apply;
    ExecutionIsSound(ws, acts, i);
    if i < j {
      ExecutionExtends(ws, acts, i, j - 1);
      ExecutionKeepsInv(ws, acts, j - 1);
      assert ws[j - 1 + 1] == Apply(ws[j - 1], acts[j - 1]);
      StepExtends(ws[j - 1], acts[j - 1]);
      ExtendsIsTransitive(ws[i].fs, ws[j - 1].fs, ws[j].fs);
    }
  }

  lemma ExtendsIsTransitive(a: Fs, b: Fs, c: Fs)
    requires Extends(a, b) && Extends(b, c)
    ensures Extends(a, c)
  {
  }

  /**
   * Power loss at any moment of a write: the old state as it could have been
   * lost before, or the new one; the old if the rename was not reached, the
   * new if it is durable.
   */
  lemma LossIsOldOrNew(was: Fs, now: Fs, data: Data, lost: Fs)
    requires Between(was, now, data) && MayLose(now, lost)
    ensures (exists k | was.firm <= k < |was.history| ::
               lost.history == was.history[..k + 1] && Visible(lost) == Contents(was, was.history[k]))
            || (ReplacedBy(was, now, data) && Visible(lost) == Some(data))
    ensures ReplacedBy(was, now, data) && now.firm == |was.history| ==> Visible(lost) == Some(data)
  {
    var k := |lost.history| - 1;
    assert State(lost) == now.history[k];
    assert Visible(lost) == Contents(now, now.history[k]);
    if k < |was.history| {
      assert lost.history == was.history[..k + 1];
      assert now.history[k] == was.history[k];
    }
  }

  /** A power loss may keep everything that is named. */
  lemma LossMayKeep(now: Fs) returns (lost: Fs)
    requires Sound(now)
    ensures MayLose(now, lost) && Visible(lost) == Visible(now)
  {
    lost := CutBack(now, |now.history|);
    assert lost.history == now.history;
  }

  /** Until a replacement is durable, a power loss may leave exactly what was there before. */
  lemma LossMayUndo(was: Fs, now: Fs, data: Data) returns (lost: Fs)
    requires ReplacedBy(was, now, data) && now.firm < |was.history|
    ensures MayLose(now, lost) && Visible(lost) == Visible(was)
  {
    lost := CutBack(now, |was.history|);
    assert lost.history == was.history;
  }

  lemma Untouched(fs: Fs, data: Data)
    requires Sound(fs)
    ensures Unreplaced(fs, fs) && AllBetween(fs, [], data)
  {
  }

  /** Work on a temporary file leaves the state name alone. */
  lemma TempsAreApart(was: Fs, name: nat, id: nat, data: Data)
    requires Sound(was) && id !in was.files
    ensures var created := CreateTemp(was, name, id);
            var filled := Fill(created, id, data);
            Unreplaced(was, created) && Unreplaced(was, filled) && id in filled.files
            && Unreplaced(was, Flush(filled, id)) && id in Flush(filled, id).files
            && Flush(filled, id).files[id] == File(data, Some(data))
            && filled.temps == created.temps == Flush(filled, id).temps == was.temps[name := id]
  {
  }

  lemma DropsTemp(temps: map<nat, nat>, name: nat, id: nat)
    ensures temps[name := id] - {name} == temps - {name}
    ensures name !in temps ==> temps - {name} == temps
  {
  }

  lemma DeletingIsApart(was: Fs, now: Fs, name: nat)
    ensures Unreplaced(was, now) ==> Unreplaced(was, DeleteTemp(now, name))
    ensures DeleteTemp(now, name).temps == now.temps - {name}
  {
  }

  /** No writer works under a name that is free. */
  lemma NoWriterUses(ws: seq<System>, acts: seq<Action>, name: nat)
    requires Execution(ws, acts) && name !in ws[|acts|].fs.temps
    ensures !InUse(ws[|acts|], name)
  {
    ExecutionKeepsInv(ws, acts, |acts|);
    var s := ws[|acts|];
    forall w | w in s.writers && HasTemp(s.writers[w].pc) ensures s.writers[w].pc.name != name {
      assert WriterOk(s, s.writers[w]);
    }
  }

  lemma FailureIsPlain(p: Platform, nonce: nat, r: Record)
    ensures var encoded := Encode(p, nonce, r);
            encoded.outcome.StoreOk? || encoded.outcome.StoreFailure?
  {
  }

  lemma RenameCommits(was: Fs, now: Fs, name: nat, id: nat, data: Data)
    requires Unreplaced(was, now) && name in now.temps && now.temps[name] == id
    requires id in now.files && now.files[id] == File(data, Some(data))
    ensures ReplacedBy(was, Replace(now, name), data)
    ensures var done := Sync(Replace(now, name), |was.history|);
            ReplacedBy(was, done, data) && done.firm == |was.history|
            && |Replace(now, name).history| == |was.history| + 1 && done.temps == now.temps - {name}
  {
  }

  /** Decoding reports success, damage or an unsupported version, and only success has an identity. */
  lemma DecodeOutcomes(p: Platform, carrier: string)
    ensures var d := Decode(p, carrier);
            (d.outcome.StoreOk? || d.outcome.StoreCorrupt? || d.outcome.StoreUnsupported?)
            && (d.outcome.StoreOk? <==> d.identity.Some?)
            && (carrier == "" || |carrier| > MAX_CARRIER ==> d.outcome.StoreCorrupt?)
  {
  }

  /** The register that first establishment works on. */
  function FileOf(p: Platform, visible: Option<Data>): Establishment.FileState {
    if visible.None? then Establishment.NoFile
    else
      var d := Decode(p, visible.value);
      if d.identity.Some? then Establishment.Holds(d.identity.value) else Establishment.Damaged
  }

  function WriteFailure(error: Win32Error): StoreOutcome {
    if error.AccessDenied? then PrivilegeRequired else StoreFailure
  }

  /** The temporary file comes into being. */
  predicate Created(env: WriteEnv, fs: Fs) {
    env.name.Some? && env.throwsAt != Some(BeforeTempWrite) && env.created && env.name.value !in fs.temps
  }

  /** All of the data reaches the file. */
  predicate Complete(env: WriteEnv, carrier: string) { env.written && env.arrived >= |carrier| }

  /** A call on the open temporary file fails. */
  predicate BreaksOpen(env: WriteEnv, carrier: string) {
    !Complete(env, carrier) || (env.throwsAt != Some(AfterTempWrite) && !env.flushed)
  }

  /** Neither a call on the open temporary file nor the observer ends the write. */
  predicate StaysOpen(env: WriteEnv, carrier: string) {
    Complete(env, carrier) && env.flushed
    && env.throwsAt != Some(AfterTempWrite) && env.throwsAt != Some(AfterTempFlush)
  }

  /** A call fails while the handle of the temporary file is open. */
  predicate FailsOpen(env: WriteEnv, fs: Fs, carrier: string) { Created(env, fs) && BreaksOpen(env, carrier) }

  /** The temporary file is created, complete and flushed. */
  predicate TempWritten(env: WriteEnv, fs: Fs, carrier: string) {
    Created(env, fs) && StaysOpen(env, carrier)
  }

  /** The state name changes in this write. */
  predicate Commits(env: WriteEnv, fs: Fs, carrier: string) {
    TempWritten(env, fs, carrier) && env.moved && env.throwsAt != Some(BeforeReplace)
  }

  /** The write leaves its temporary file behind: always if a call failed while the file was open. */
  predicate LeavesTemp(env: WriteEnv, fs: Fs, carrier: string) {
    Created(env, fs) && !Commits(env, fs, carrier) && (FailsOpen(env, fs, carrier) || env.deletion.Some?)
  }

  /** The write reports missing privilege. */
  predicate ReportsPrivilege(env: WriteEnv, fs: Fs, carrier: string) {
    env.name.Some? && env.throwsAt != Some(BeforeTempWrite)
    && if !Created(env, fs) then env.failure.AccessDenied?
       else TempWritten(env, fs, carrier) && env.throwsAt != Some(BeforeReplace) && !env.moved
            && if env.deletion.Some? then env.deletion.value.AccessDenied? else env.failure.AccessDenied?
  }

  /** A call of the write fails, and no observer ends it before that. */
  predicate CallFails(env: WriteEnv, fs: Fs, carrier: string) {
    env.name.Some? && env.throwsAt != Some(BeforeTempWrite)
    && (!Created(env, fs) || FailsOpen(env, fs, carrier)
        || (TempWritten(env, fs, carrier) && env.throwsAt != Some(BeforeReplace) && !env.moved))
  }

  /**
   * When a call fails for lack of access, the caller learns so if and only if
   * the temporary file was not open then and its deletion did not fail for
   * another reason.
   */
  lemma DenialIsReportedExactly(env: WriteEnv, fs: Fs, carrier: string)
    requires CallFails(env, fs, carrier) && env.failure.AccessDenied?
    ensures ReportsPrivilege(env, fs, carrier) <==>
            !Created(env, fs)
            || (!FailsOpen(env, fs, carrier) && (env.deletion.None? || env.deletion.value.AccessDenied?))
  {
  }

  /** Whatever is written, a flush that is denied leaves the temporary file and reports another failure. */
  lemma DeniedFlush(p: Platform, nonce: nat, identity: Record, fs: Fs, name: nat, id: nat)
    requires Encode(p, nonce, identity).outcome.StoreOk? && name !in fs.temps
    ensures var carrier := Encode(p, nonce, identity).carrier;
            var env := WriteEnv(nonce, Some(name), id, true, |carrier|, true, false, true, AccessDenied, None, None);
            CallFails(env, fs, carrier) && LeavesTemp(env, fs, carrier) && !ReportsPrivilege(env, fs, carrier)
  {
  }

  predicate Committed(p: Platform, env: WriteEnv, identity: Record, was: Fs) {
    var encoded := Encode(p, env.nonce, identity);
    encoded.outcome.StoreOk? && Commits(env, was, encoded.carrier)
  }

  /** The write takes effect durably and whole or not at all; only the observer's last call can hide that it did. */
  predicate WriteIsAtomic(p: Platform, env: WriteEnv, identity: Record, was: Fs, now: Fs, outcome: StoreOutcome) {
    if Committed(p, env, identity, was) then
      ReplacedBy(was, now, Encode(p, env.nonce, identity).carrier) && now.firm == |was.history|
      && outcome == if env.throwsAt.None? then StoreOk else StoreFailure
    else Unreplaced(was, now) && !outcome.StoreOk?
  }

  /** Once the temporary file is written, only a failed rename and a failed deletion leave it. */
  lemma MovedLeaves(env: WriteEnv, was: Fs, now: Fs, carrier: string)
    requires TempWritten(env, was, carrier)
    ensures LeavesTemp(env, was, carrier) <==> !Commits(env, was, carrier) && env.deletion.Some?
    ensures Commits(env, was, carrier) ==> env.throwsAt.None? || env.throwsAt == Some(AfterReplace)
  {
    if env.throwsAt.Some? {
      var point := env.throwsAt.value;
      assert env.throwsAt == Some(point);
      assert point.BeforeTempWrite? || point.AfterTempWrite? || point.AfterTempFlush? || point.BeforeReplace?
             || point.AfterReplace?;
    }
  }

  /** What a write leaves under its temporary name, and whether it reports missing privilege. */
  predicate LeavesAndReports(p: Platform, env: WriteEnv, identity: Record, was: Fs, now: Fs, outcome: StoreOutcome) {
    var encoded := Encode(p, env.nonce, identity);
    var begun := encoded.outcome.StoreOk?;
    (outcome.PrivilegeRequired? <==> begun && ReportsPrivilege(env, was, encoded.carrier))
    && (outcome.StoreOk? || outcome.PrivilegeRequired? || outcome.StoreFailure?)
    && (env.name.None? ==> now.temps == was.temps)
    && (env.name.Some? ==>
          now.temps - {env.name.value} == was.temps - {env.name.value}
          && (env.name.value !in was.temps ==>
                (env.name.value in now.temps <==> begun && LeavesTemp(env, was, encoded.carrier))))
  }

  /**
   * The store is the register of first establishment: a write is one of the
   * replies that are possible there, and it has that reply's effect.
   */
  lemma WriteIsPossible(
      p: Platform, env: WriteEnv, identity: Record, was: Fs, now: Fs, outcome: StoreOutcome, w: Establishment.World)
    requires Lawful(p) && WriteIsAtomic(p, env, identity, was, now, outcome) && w.file == FileOf(p, Visible(was))
    ensures var committed := Committed(p, env, identity, was);
            Establishment.Possible(env.throwsAt.Some?, w, WriteState(identity), Stored(outcome), committed)
            && FileOf(p, Visible(now)) == if committed then Establishment.Holds(identity) else w.file
  {
    hide Encode, Decode;
    if Committed(p, env, identity, was) {
      StateRoundTrip(p, env.nonce, identity);
    }
  }

  /**
   * An observer that throws after the replace hides a commit: wherever a write
   * can begin, for every identity that encodes, there is a write that takes
   * effect and reports failure, and it can report nothing else.
   */
  lemma ObserverHidesCommit(p: Platform, nonce: nat, identity: Record, was: Fs, name: nat, id: nat)
    returns (env: WriteEnv, now: Fs)
    requires Encode(p, nonce, identity).outcome.StoreOk?
    requires Sound(was) && name !in was.temps && id !in was.files
    ensures env.throwsAt == Some(AfterReplace) && Committed(p, env, identity, was)
    ensures forall outcome :: WriteIsAtomic(p, env, identity, was, now, outcome) <==> outcome == StoreFailure
    ensures Lawful(p) ==> FileOf(p, Visible(now)) == Establishment.Holds(identity)
  {
    hide Encode, Decode;
    var carrier := Encode(p, nonce, identity).carrier;
    env := WriteEnv(nonce, Some(name), id, true, |carrier|, true, true, true, OtherError, None, Some(AfterReplace));
    TempsAreApart(was, name, id, carrier);
    var flushed := Flush(Fill(CreateTemp(was, name, id), id, carrier), id);
    RenameCommits(was, flushed, name, id, carrier);
    now := Sync(Replace(flushed, name), |was.history|);
    if Lawful(p) {
      StateRoundTrip(p, nonce, identity);
    }
    hide ReplacedBy, Sync, Replace, Flush, Fill, CreateTemp;
  }

  //
  // The steps of one writer
  //

  /** The writer stands at `pc` and the file system is `fs`. */
  predicate At(s: System, w: nat, fs: Fs, data: Data, pc: WriterPc) {
    s.fs == fs && w in s.writers && s.writers[w] == Writer(data, pc)
  }

  lemma BeginStep(s: System, w: nat, data: Data)
    requires w !in s.writers
    ensures Enabled(s, BeginWrite(w, data)) && At(Apply(s, BeginWrite(w, data)), w, s.fs, data, Begun)
  {
  }

  lemma MakeStep(s: System, w: nat, name: nat, id: nat)
    requires w in s.writers && s.writers[w].pc.Begun? && name !in s.fs.temps && id !in s.fs.files
    ensures Enabled(s, Make(w, name, id))
    ensures At(Apply(s, Make(w, name, id)), w, CreateTemp(s.fs, name, id), s.writers[w].data, Made(name, id))
  {
  }

  lemma FillStep(s: System, w: nat, length: nat)
    requires w in s.writers && s.writers[w].pc.Made? && length <= |s.writers[w].data|
    ensures var data, pc := s.writers[w].data, s.writers[w].pc;
            Enabled(s, FillPart(w, length))
            && At(Apply(s, FillPart(w, length)), w, Fill(s.fs, pc.id, data[..length]), data,
                  if length == |data| then Filled(pc.name, pc.id) else pc)
  {
  }

  lemma FlushStep(s: System, w: nat)
    requires w in s.writers && s.writers[w].pc.Filled? && s.writers[w].pc.id in s.fs.files
    ensures var data, pc := s.writers[w].data, s.writers[w].pc;
            Enabled(s, FlushFile(w)) && At(Apply(s, FlushFile(w)), w, Flush(s.fs, pc.id), data, Flushed(pc.name, pc.id))
  {
  }

  lemma ReplaceStep(s: System, w: nat)
    requires w in s.writers && s.writers[w].pc.Flushed? && s.writers[w].pc.name in s.fs.temps
    ensures var data, name := s.writers[w].data, s.writers[w].pc.name;
            var at := |s.fs.history|;
            var t := Apply(s, ReplaceState(w));
            Enabled(s, ReplaceState(w))
            && At(t, w, Replace(s.fs, name), data, Replaced(s.fs.temps[name], at))
            && Enabled(t, SyncState(w)) && At(Apply(t, SyncState(w)), w, Sync(t.fs, at), data, Ended)
  {
  }

  lemma StopStep(s: System, w: nat)
    requires w in s.writers && HasTemp(s.writers[w].pc)
    ensures Enabled(s, Stop(w, true)) && Apply(s, Stop(w, true)).fs == DeleteTemp(s.fs, s.writers[w].pc.name)
    ensures Enabled(s, Stop(w, false)) && Apply(s, Stop(w, false)).fs == s.fs
  {
  }

  lemma SweepStep(s: System, name: nat)
    requires !InUse(s, name)
    ensures Enabled(s, Sweep(name)) && Apply(s, Sweep(name)).fs == DeleteTemp(s.fs, name)
  {
  }

  lemma TrialStep(s: System, name: nat, id: nat)
    requires name !in s.fs.temps && id !in s.fs.files
    ensures var t := Apply(s, MakeTrial(name, id));
            Enabled(s, MakeTrial(name, id)) && t.fs == CreateTemp(s.fs, name, id)
            && (!InUse(s, name) ==> !InUse(t, name))
  {
  }
}
