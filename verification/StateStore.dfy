/** The state store: reading, preparing and replacing the state file, step by step. */
module StateStore {
  import opened Wrappers
  import opened Identity
  import opened MachineState
  import opened FileSystem
  import opened CrashSafety
  import opened StoreSpec
  import Establishment

  class MachineStateStore {
    const platform: Platform
    var fs: Fs
    /** The error that the system reports for the last failed call. */
    var lastError: Win32Error
    /** The run of the file system machine that this store has taken part in. */
    ghost var runs: seq<System>
    ghost var acts: seq<Action>

    ghost predicate Valid()
      reads this
    {
      |runs| == |acts| + 1 && Execution(runs, acts) && runs[|acts|].fs == fs
    }

    ghost function Now(): System
      requires Valid()
      reads this
    {
      runs[|acts|]
    }

    constructor (platform: Platform, fs: Fs, ghost runs: seq<System>, ghost acts: seq<Action>)
      requires Execution(runs, acts) && runs[|acts|].fs == fs
      ensures Valid() && this.platform == platform && this.fs == fs && this.runs == runs && this.acts == acts
    {
      this.platform := platform;
      this.fs := fs;
      this.runs, this.acts := runs, acts;
      lastError := OtherError;
    }

    /** One step of the machine, in an operation that began at `start` with `was` and `data`. */
    method Step(next: Fs, ghost a: Action, ghost was: Fs, ghost data: Data, ghost start: nat)
      requires Valid() && Enabled(Now(), a) && Apply(Now(), a).fs == next && start <= |runs|
      modifies this`fs, this`runs, this`acts
      ensures Valid() && fs == next && acts == old(acts) + [a] && runs == old(runs) + [Apply(old(Now()), a)]
      ensures AllBetween(was, old(runs)[start..], data) && Between(was, next, data) ==>
                AllBetween(was, runs[start..], data)
    {
      hide Apply, Enabled, Init;
      ghost var now := Now();
      fs := next;
      runs, acts := runs + [Apply(now, a)], acts + [a];
    }

    /** What is read is the state at the opening, whatever has happened to the name since. */
    method Read(env: ReadEnv, atSize: Fs, atRead: Fs) returns (r: StateRead)
      requires Sound(fs) && Extends(fs, atSize) && Extends(fs, atRead)
      ensures r.outcome.StoreAbsent? ==> Visible(fs).None?
      ensures r.outcome.StoreOk? ==>
                r.identity.Some? && FileOf(platform, Visible(fs)) == Establishment.Holds(r.identity.value)
      ensures r.outcome.StoreUnsupported? ==> FileOf(platform, Visible(fs)) == Establishment.Damaged
      ensures Visible(fs).None? ==> r == StateRead(if env.failure then StoreFailure else StoreAbsent, None)
      ensures Visible(fs).Some? ==>
                if !env.opens then r == StateRead(StoreFailure, None)
                else if !env.sized || |Visible(fs).value| == 0 || |Visible(fs).value| > 1048576
                then r == StateRead(StoreCorrupt, None)
                else if !env.complete then r == StateRead(StoreFailure, None)
                else r.outcome == Decode(platform, Visible(fs).value).outcome
                     && r.identity == Decode(platform, Visible(fs).value).identity
      ensures env == ReadEnv(true, false, true, true) ==>
                (r.outcome.StoreAbsent? <==> Visible(fs).None?)
                && (r.outcome.StoreOk? <==> FileOf(platform, Visible(fs)).Holds?)
      ensures forall observer, w: Establishment.World | w.file == FileOf(platform, Visible(fs)) ::
                Establishment.Possible(observer, w, ReadState, Reply.Read(r), false)
    {
      var id := State(fs);
      if id.None? {
        return StateRead(if env.failure then StoreFailure else StoreAbsent, None);
      }
      if !env.opens {
        return StateRead(StoreFailure, None);
      }
      hide Decode;
      DecodeOutcomes(platform, Visible(fs).value);
      assert Contents(atSize, id) == Visible(fs) && Contents(atRead, id) == Visible(fs);
      var size := |atSize.files[id.value].cached|;
      if !env.sized || size == 0 || size > MAX_CARRIER {
        return StateRead(StoreCorrupt, None);
      }
      if !env.complete {
        return StateRead(StoreFailure, None);
      }
      var decoded := DecodeCarrier(platform, atRead.files[id.value].cached[..size]);
      assert atRead.files[id.value].cached[..size] == Visible(fs).value;
      return StateRead(decoded.outcome, decoded.identity);
    }

    /**
     * Deletes the temporary file of writer `w`. A file that is open for its
     * writer alone cannot be deleted; a failure replaces the last error.
     */
    method DiscardTemp(
        name: nat, isOpen: bool, deletion: Option<Win32Error>, ghost w: nat, ghost was: Fs, ghost data: Data,
        ghost start: nat)
      requires start <= |runs|
      requires Valid() && w in Now().writers && HasTemp(Now().writers[w].pc) && Now().writers[w].pc.name == name
      modifies this
      ensures Valid() && old(runs) <= runs && old(acts) <= acts
      ensures Unreplaced(was, old(fs)) ==> Unreplaced(was, fs)
      ensures fs.temps - {name} == old(fs).temps - {name}
      ensures name in old(fs).temps ==> (name in fs.temps <==> isOpen || deletion.Some?)
      ensures lastError == if isOpen then SharingViolation
                           else if deletion.Some? then deletion.value else old(lastError)
      ensures AllBetween(was, old(runs)[start..], data) && Unreplaced(was, old(fs)) ==>
                AllBetween(was, runs[start..], data)
    {
      hide AllBetween, Execution, Enabled, Apply, Init, Unreplaced, ReplacedBy, DeleteTemp;
      DeletingIsApart(was, fs, name);
      StopStep(Now(), w);
      if isOpen {
        lastError := SharingViolation;
        Step(fs, Stop(w, false), was, data, start);
      } else if deletion.Some? {
        lastError := deletion.value;
        Step(fs, Stop(w, false), was, data, start);
      } else {
        Step(DeleteTemp(fs, name), Stop(w, true), was, data, start);
      }
    }

    method PrepareForMutation(env: PrepareEnv) returns (outcome: StoreOutcome)
      requires Valid() && env.id !in fs.files
      modifies this
      ensures Valid() && Unreplaced(old(fs), fs)
      ensures old(runs) <= runs && forall k | |old(runs)| <= k < |runs| :: Unreplaced(old(fs), runs[k].fs)
      ensures var made := env.secured.StoreOk? && env.name.Some? && env.created && env.name.value !in old(fs).temps;
              (outcome.StoreOk? <==> made && env.deletion.None?)
              && (!env.secured.StoreOk? ==> outcome == env.secured)
              && (env.secured.StoreOk? ==>
                    (outcome.PrivilegeRequired? <==> !made && env.name.Some? && env.failure.AccessDenied?)
                    && (outcome.StoreOk? || outcome.PrivilegeRequired? || outcome.StoreFailure?))
              && fs.temps == if made && env.deletion.Some? then old(fs).temps[env.name.value := env.id]
                             else old(fs).temps
    {
      hide Execution, Enabled, Apply, Init, CreateTemp, DeleteTemp, InUse, Sound, Extends, Unreplaced;
      ExecutionIsSound(runs, acts, |acts|);
      Untouched(fs, "");
      if !env.secured.StoreOk? {
        return env.secured;
      }
      if env.name.None? {
        return StoreFailure;
      }
      var name := env.name.value;
      if !env.created || name in fs.temps {
        lastError := env.failure;
        return WriteFailure(lastError);
      }
      TempsAreApart(fs, name, env.id, "");
      DropsTemp(fs.temps, name, env.id);
      ghost var was, start := fs, |runs|;
      NoWriterUses(runs, acts, name);
      TrialStep(Now(), name, env.id);
      Step(CreateTemp(fs, name, env.id), MakeTrial(name, env.id), was, "", start);
      if env.deletion.Some? {
        return StoreFailure;
      }
      DeletingIsApart(was, fs, name);
      SweepStep(Now(), name);
      Step(DeleteTemp(fs, name), Sweep(name), was, "", start);
      return StoreOk;
    }

    /** Flushes the complete temporary file, which is still open; `None` goes on. */
    method FlushTemp(env: WriteEnv, name: nat, carrier: string, ghost w: nat, ghost was: Fs, ghost start: nat)
      returns (failed: Option<StoreOutcome>)
      requires Valid() && start <= |runs| && AllBetween(was, runs[start..], carrier)
      requires Sound(was) && env.id !in was.files
      requires At(Now(), w, Fill(CreateTemp(was, name, env.id), env.id, carrier), carrier, Filled(name, env.id))
      modifies this
      ensures Valid() && old(runs) <= runs && AllBetween(was, runs[start..], carrier) && Unreplaced(was, fs)
      ensures failed.None? <==> env.flushed && env.throwsAt != Some(AfterTempFlush)
      ensures failed.None? ==>
                At(Now(), w, Flush(Fill(CreateTemp(was, name, env.id), env.id, carrier), env.id), carrier,
                   Flushed(name, env.id))
      ensures failed.Some? ==>
                failed.value.StoreFailure? && fs.temps - {name} == was.temps - {name}
                && (name in fs.temps <==> !env.flushed || env.deletion.Some?)
    {
      hide Execution, Sound, Extends, Unreplaced, ReplacedBy, AllBetween, Enabled, Apply, Init,
           CreateTemp, Fill, Flush, DeleteTemp;
      TempsAreApart(was, name, env.id, carrier);
      DropsTemp(was.temps, name, env.id);
      if !env.flushed {
        lastError := env.failure;
        DiscardTemp(name, true, env.deletion, w, was, carrier, start);
        return Some(WriteFailure(lastError));
      }
      FlushStep(Now(), w);
      Step(Flush(fs, env.id), FlushFile(w), was, carrier, start);
      if env.throwsAt == Some(AfterTempFlush) {
        DiscardTemp(name, false, env.deletion, w, was, carrier, start);
        return Some(StoreFailure);
      }
      return None;
    }

    /** The part that runs while the temporary file is open; `None` goes on. */
    method FillTemp(env: WriteEnv, name: nat, carrier: string, ghost w: nat, ghost was: Fs, ghost start: nat)
      returns (failed: Option<StoreOutcome>)
      requires Valid() && start <= |runs| && AllBetween(was, runs[start..], carrier)
      requires Sound(was) && env.id !in was.files
      requires At(Now(), w, CreateTemp(was, name, env.id), carrier, Made(name, env.id))
      modifies this
      ensures Valid() && old(runs) <= runs && AllBetween(was, runs[start..], carrier) && Unreplaced(was, fs)
      ensures failed.None? <==> StaysOpen(env, carrier)
      ensures failed.None? ==>
                At(Now(), w, Flush(Fill(CreateTemp(was, name, env.id), env.id, carrier), env.id), carrier,
                   Flushed(name, env.id))
      ensures failed.Some? ==>
                failed.value.StoreFailure? && fs.temps - {name} == was.temps - {name}
                && (name in fs.temps <==> BreaksOpen(env, carrier) || env.deletion.Some?)
    {
      hide Execution, Sound, Extends, Unreplaced, ReplacedBy, AllBetween, Enabled, Apply, Init,
           CreateTemp, Fill, Flush, DeleteTemp;
      var length := if env.arrived < |carrier| then env.arrived else |carrier|;
      TempsAreApart(was, name, env.id, carrier[..length]);
      DropsTemp(was.temps, name, env.id);
      FillStep(Now(), w, length);
      Step(Fill(fs, env.id, carrier[..length]), FillPart(w, length), was, carrier, start);
      if !env.written || length != |carrier| {
        lastError := env.failure;
        DiscardTemp(name, true, env.deletion, w, was, carrier, start);
        return Some(WriteFailure(lastError));
      }
      assert carrier[..length] == carrier;
      if env.throwsAt == Some(AfterTempWrite) {
        DiscardTemp(name, false, env.deletion, w, was, carrier, start);
        return Some(StoreFailure);
      }
      failed := FlushTemp(env, name, carrier, w, was, start);
    }

    /** The temporary file, complete and flushed; `None` goes on to the rename. */
    method WriteTemp(env: WriteEnv, name: nat, carrier: string, ghost w: nat) returns (failed: Option<StoreOutcome>)
      requires Valid() && env.id !in fs.files && env.name == Some(name) && w !in Now().writers
      requires env.throwsAt == Some(BeforeTempWrite) ==> !InUse(Now(), name)
      modifies this
      ensures Valid() && Unreplaced(old(fs), fs) && old(runs) <= runs
      ensures AllBetween(old(fs), runs[|old(runs)|..], carrier)
      ensures failed.None? <==> TempWritten(env, old(fs), carrier)
      ensures failed.None? ==>
                At(Now(), w, Flush(Fill(CreateTemp(old(fs), name, env.id), env.id, carrier), env.id), carrier,
                   Flushed(name, env.id))
      ensures failed.Some? ==>
                fs.temps - {name} == old(fs).temps - {name}
                && !failed.value.StoreOk?
                && (failed.value.PrivilegeRequired? <==> ReportsPrivilege(env, old(fs), carrier))
                && (failed.value.PrivilegeRequired? || failed.value.StoreFailure?)
                && (name !in old(fs).temps ==> (name in fs.temps <==> LeavesTemp(env, old(fs), carrier)))
    {
      hide Execution, Sound, Extends, Unreplaced, ReplacedBy, AllBetween, Enabled, Apply, Init,
           CreateTemp, Fill, Flush, DeleteTemp, InUse;
      ghost var was, start := fs, |runs|;
      ExecutionIsSound(runs, acts, |acts|);
      Untouched(was, carrier);
      assert runs[|runs|..] == [];
      if env.throwsAt == Some(BeforeTempWrite) {
        if env.deletion.None? {
          DeletingIsApart(was, fs, name);
          SweepStep(Now(), name);
          Step(DeleteTemp(fs, name), Sweep(name), was, carrier, start);
        }
        return Some(StoreFailure);
      }
      if !env.created || name in fs.temps {
        lastError := env.failure;
        return Some(WriteFailure(lastError));
      }
      TempsAreApart(was, name, env.id, "");
      BeginStep(Now(), w, carrier);
      Step(fs, BeginWrite(w, carrier), was, carrier, start);
      MakeStep(Now(), w, name, env.id);
      Step(CreateTemp(fs, name, env.id), Make(w, name, env.id), was, carrier, start);
      failed := FillTemp(env, name, carrier, w, was, start);
    }

    /** The rename of a flushed temporary file. */
    method MoveTemp(env: WriteEnv, name: nat, carrier: string, ghost w: nat, ghost was: Fs, ghost start: nat)
      returns (outcome: StoreOutcome)
      requires Valid() && start <= |runs| && AllBetween(was, runs[start..], carrier) && Unreplaced(was, fs)
      requires env.id !in was.files && name !in was.temps
      requires At(Now(), w, Flush(Fill(CreateTemp(was, name, env.id), env.id, carrier), env.id), carrier,
                  Flushed(name, env.id))
      modifies this
      ensures Valid() && old(runs) <= runs && AllBetween(was, runs[start..], carrier)
      ensures fs.temps - {name} == was.temps - {name}
      ensures if env.throwsAt != Some(BeforeReplace) && env.moved then
                ReplacedBy(was, fs, carrier) && fs.firm == |was.history| && fs.temps == was.temps
                && acts[|acts| - 1] == SyncState(w)
                && outcome == (if env.throwsAt == Some(AfterReplace) then StoreFailure else StoreOk)
              else
                Unreplaced(was, fs) && (name in fs.temps <==> env.deletion.Some?)
                && outcome == if env.throwsAt == Some(BeforeReplace) then StoreFailure
                              else WriteFailure(if env.deletion.Some? then env.deletion.value else env.failure)
    {
      hide Execution, Sound, Extends, Unreplaced, ReplacedBy, AllBetween, Enabled, Apply, Init, Replace, Sync;
      assert fs.temps == was.temps[name := env.id] && fs.files[env.id] == File(carrier, Some(carrier));
      hide CreateTemp, Fill, Flush, DeleteTemp;
      DropsTemp(was.temps, name, env.id);
      if env.throwsAt == Some(BeforeReplace) {
        DiscardTemp(name, false, env.deletion, w, was, carrier, start);
        return StoreFailure;
      }
      if !env.moved {
        lastError := env.failure;
        DiscardTemp(name, false, env.deletion, w, was, carrier, start);
        return WriteFailure(lastError);
      }
      RenameCommits(was, fs, name, env.id, carrier);
      ReplaceStep(Now(), w);
      Step(Replace(fs, name), ReplaceState(w), was, carrier, start);
      Step(Sync(fs, |fs.history| - 1), SyncState(w), was, carrier, start);
      if env.throwsAt == Some(AfterReplace) {
        return StoreFailure;
      }
      return StoreOk;
    }

    /**
     * Replaces the state; the observer's exceptions end the write with a
     * failure. The file system goes through steps of its machine only.
     */
    method Write(env: WriteEnv, identity: Record, ghost w: nat) returns (outcome: StoreOutcome)
      requires Valid() && env.id !in fs.files && w !in Now().writers
      requires env.name.Some? && env.throwsAt == Some(BeforeTempWrite) ==> !InUse(Now(), env.name.value)
      modifies this
      ensures Valid() && WriteIsAtomic(platform, env, identity, old(fs), fs, outcome)
      ensures old(runs) <= runs
      ensures AllBetween(old(fs), runs[|old(runs)|..], Encode(platform, env.nonce, identity).carrier)
      ensures outcome.StoreOk? ==> acts[|acts| - 1] == SyncState(w) && fs.temps == old(fs).temps
      ensures LeavesAndReports(platform, env, identity, old(fs), fs, outcome)
    {
      hide Execution, Encode, Sound, Extends, Unreplaced, ReplacedBy, AllBetween, Enabled, Apply, Init,
           Flush, Fill, CreateTemp, InUse;
      ghost var was, start := fs, |runs|;
      var encoded := EncodeRecord(platform, env.nonce, identity);
      ExecutionIsSound(runs, acts, |acts|);
      Untouched(was, encoded.carrier);
      assert runs[|runs|..] == [];
      if !encoded.outcome.StoreOk? {
        FailureIsPlain(platform, env.nonce, identity);
        return encoded.outcome;
      }
      if env.name.None? {
        return StoreFailure;
      }
      var name := env.name.value;
      var failed := WriteTemp(env, name, encoded.carrier, w);
      if failed.Some? {
        return failed.value;
      }
      outcome := MoveTemp(env, name, encoded.carrier, w, was, start);
      MovedLeaves(env, was, fs, encoded.carrier);
    }
  }
}
