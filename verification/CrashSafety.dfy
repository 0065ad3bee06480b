/** Crash safety of state replacement, over every execution of writers, readers and power losses. */
module CrashSafety {
  import opened Wrappers
  import opened FileSystem

  /** `ws` is a run of the whole system under `acts`. */
  predicate Execution(ws: seq<System>, acts: seq<Action>) {
    |ws| == |acts| + 1 && Init(ws[0]) &&
    forall i | 0 <= i < |acts| :: Enabled(ws[i], acts[i]) && ws[i + 1] == Apply(ws[i], acts[i])
  }

  lemma {:induction false} ExecutionKeepsInv(ws: seq<System>, acts: seq<Action>, i: nat)
    requires Execution(ws, acts) && i < |ws|
    ensures Inv(ws[i]) && ws[i].fs.firm < |ws[i].fs.history|
  {
    assert Inv(ws[i]) ==> ws[i].fs.firm < |ws[i].fs.history|;
    hide Inv, Apply, Enabled;
    if i == 0 {
      InitInv(ws[0]);
    } else {
      ExecutionKeepsInv(ws, acts, i - 1);
      assert ws[i - 1 + 1] == Apply(ws[i - 1], acts[i - 1]);
      StepKeepsInv(ws[i - 1], acts[i - 1]);
    }
  }

  lemma InitInv(s: System)
    requires Init(s)
    ensures Inv(s)
  {
  }

  //
  // The state name as a register
  //

  /** What is read under the state name. */
  function Visible(fs: Fs): Option<Data> { Contents(fs, State(fs)) }

  function Contents(fs: Fs, binding: Option<nat>): Option<Data> {
    if binding.Some? && binding.value in fs.files then Some(fs.files[binding.value].cached) else None
  }

  /** What the state name stands for is always the complete data of some writer, or the initial contents. */
  lemma VisibleIsComplete(ws: seq<System>, acts: seq<Action>, i: nat)
    requires Execution(ws, acts) && i < |ws|
    ensures State(ws[i].fs).Some? ==> Visible(ws[i].fs).Some? && Visible(ws[i].fs).value in ws[i].carriers
  {
    ExecutionKeepsInv(ws, acts, i);
  }

  /** Only a rename, which shows all of its writer's data at once, and a power loss change what is read. */
  lemma RegisterChangesByRename(s: System, a: Action)
    requires Inv(s) && Enabled(s, a)
    ensures !a.ReplaceState? && !a.PowerLoss? ==> Visible(Apply(s, a).fs) == Visible(s.fs)
    ensures a.ReplaceState? ==> Visible(Apply(s, a).fs) == Some(s.writers[a.w].data)
  {
    if State(s.fs).Some? {
      SettledNeverChanges(s, a, State(s.fs).value);
    }
    if a.ReplaceState? {
      assert WriterOk(s, s.writers[a.w]);
    }
  }

  /** A power loss leaves the complete contents of some position that was not yet superseded durably. */
  lemma LossLeavesCompleteState(s: System, lost: Fs)
    requires Inv(s) && Enabled(s, PowerLoss(lost))
    ensures exists k | s.fs.firm <= k < |s.fs.history| ::
              State(lost) == s.fs.history[k] && Visible(lost) == Contents(s.fs, s.fs.history[k])
    ensures State(lost).Some? ==> Visible(lost).Some? && Visible(lost).value in s.carriers
  {
    var k := |lost.history| - 1;
    assert State(lost) == s.fs.history[k];
    if s.fs.history[k].Some? {
      assert Settled(s, s.fs.history[k].value);
    }
    assert Visible(lost) == Contents(s.fs, s.fs.history[k]);
  }

  /** A writer that has not reached its rename leaves no trace under the state name, whatever is lost. */
  lemma UnreachedRenameNeverShows(ws: seq<System>, acts: seq<Action>, i: nat, w: nat, lost: Fs)
    requires Execution(ws, acts) && i < |ws| && w in ws[i].writers && HasTemp(ws[i].writers[w].pc)
    requires Enabled(ws[i], PowerLoss(lost))
    ensures State(ws[i].fs) != Some(ws[i].writers[w].pc.id) && State(lost) != Some(ws[i].writers[w].pc.id)
  {
    ExecutionKeepsInv(ws, acts, i);
    assert WriterOk(ws[i], ws[i].writers[w]);
    assert State(lost) == ws[i].fs.history[|lost.history| - 1];
  }

  //
  // Durability
  //

  /** Everything up to the firm position, with its contents, is the same in `t`. */
  predicate KeepsFirm(s: System, t: System)
    requires s.fs.firm < |s.fs.history|
  {
    s.fs.firm <= t.fs.firm < |t.fs.history| && s.fs.history[..s.fs.firm + 1] <= t.fs.history
    && forall k | 0 <= k <= s.fs.firm :: Contents(t.fs, s.fs.history[k]) == Contents(s.fs, s.fs.history[k])
  }

  lemma StepKeepsFirm(s: System, a: Action)
    requires Inv(s) && Enabled(s, a)
    ensures KeepsFirm(s, Apply(s, a))
  {
    var t := Apply(s, a);
    if a.SyncState? {
      assert WriterOk(s, s.writers[a.w]);
    }
    forall k | 0 <= k <= s.fs.firm
      ensures Contents(t.fs, s.fs.history[k]) == Contents(s.fs, s.fs.history[k])
    {
      if s.fs.history[k].Some? {
        SettledNeverChanges(s, a, s.fs.history[k].value);
      }
    }
  }

  lemma {:induction false} FirmStays(ws: seq<System>, acts: seq<Action>, i: nat, j: nat)
    requires Execution(ws, acts) && i <= j < |ws|
    ensures ws[i].fs.firm < |ws[i].fs.history| && KeepsFirm(ws[i], ws[j])
  {
    hide Inv, Apply, Enabled;
    ExecutionKeepsInv(ws, acts, i);
    if i < j {
      FirmStays(ws, acts, i, j - 1);
      ExecutionKeepsInv(ws, acts, j - 1);
      assert ws[j - 1 + 1] == Apply(ws[j - 1], acts[j - 1]);
      StepKeepsFirm(ws[j - 1], acts[j - 1]);
      hide KeepsFirm;
      FirmIsTransitive(ws[i], ws[j - 1], ws[j]);
    }
  }

  lemma FirmIsTransitive(s: System, t: System, u: System)
    requires s.fs.firm < |s.fs.history| && KeepsFirm(s, t) && KeepsFirm(t, u)
    ensures KeepsFirm(s, u)
  {
    forall k | 0 <= k <= s.fs.firm
      ensures u.fs.history[k] == s.fs.history[k] && Contents(u.fs, s.fs.history[k]) == Contents(s.fs, s.fs.history[k])
    {
      assert s.fs.history[..s.fs.firm + 1][k] == t.fs.history[k];
      assert t.fs.history[..t.fs.firm + 1][k] == u.fs.history[k];
    }
  }

  /**
   * Once a write has returned, its data keeps its position for ever: a read
   * after any number of power losses gives it or something that replaced it.
   */
  lemma FinishedWriteIsDurable(ws: seq<System>, acts: seq<Action>, k: nat, j: nat)
    requires Execution(ws, acts) && k < j < |ws| && acts[k].SyncState?
    ensures acts[k].w in ws[k].writers && ws[k].writers[acts[k].w].pc.Replaced?
    ensures var writer := ws[k].writers[acts[k].w];
            writer.pc.at < |ws[j].fs.history|
            && Contents(ws[j].fs, ws[j].fs.history[writer.pc.at]) == Some(writer.data)
  {
    ExecutionKeepsInv(ws, acts, k);
    assert Enabled(ws[k], acts[k]) && ws[k + 1] == Apply(ws[k], acts[k]);
    var writer := ws[k].writers[acts[k].w];
    assert WriterOk(ws[k], writer);
    FirmStays(ws, acts, k + 1, j);
    var firm := ws[k + 1].fs.firm;
    assert ws[k + 1].fs.history[..firm + 1][writer.pc.at] == ws[j].fs.history[writer.pc.at];
    hide Inv, Apply;
  }

  //
  // Readers
  //

  lemma NoReadersAtFirst(s: System)
    requires Init(s)
    ensures s.readers == map[]
  {
  }

  lemma ReaderStaysOpen(s: System, a: Action, r: nat)
    requires Inv(s) && Enabled(s, a) && r in Apply(s, a).readers
    ensures a == OpenState(r) ==>
              State(s.fs) == Some(Apply(s, a).readers[r].id) && Visible(s.fs) == Contents(Apply(s, a).fs, State(s.fs))
    ensures a != OpenState(r) ==>
              r in s.readers && s.readers[r].id == Apply(s, a).readers[r].id
              && Contents(s.fs, Some(s.readers[r].id)) == Contents(Apply(s, a).fs, Some(s.readers[r].id))
  {
    if r in s.readers {
      assert ReaderOk(s, s.readers[r]);
      SettledNeverChanges(s, a, s.readers[r].id);
    }
  }

  lemma {:induction false} ReaderOpened(ws: seq<System>, acts: seq<Action>, j: nat, r: nat) returns (i: nat)
    requires Execution(ws, acts) && j < |ws| && r in ws[j].readers
    ensures i < j && acts[i] == OpenState(r) && State(ws[i].fs) == Some(ws[j].readers[r].id)
    ensures Visible(ws[i].fs) == Contents(ws[j].fs, State(ws[i].fs))
  {
    hide Inv, Apply, Enabled, Contents, Visible;
    assert j != 0 by { NoReadersAtFirst(ws[0]); }
    var s, a := ws[j - 1], acts[j - 1];
    assert ws[j - 1 + 1] == Apply(s, a);
    ExecutionKeepsInv(ws, acts, j - 1);
    ReaderStaysOpen(s, a, r);
    if a == OpenState(r) {
      i := j - 1;
    } else {
      i := ReaderOpened(ws, acts, j - 1, r);
    }
  }

  /**
   * A completed read returns what the state name stood for when it was opened,
   * in full and with its own size, whatever was replaced in between.
   */
  lemma ReaderSeesSnapshot(ws: seq<System>, acts: seq<Action>, j: nat, r: nat)
    requires Execution(ws, acts) && j < |ws| && r in ws[j].readers && ws[j].readers[r].data.Some?
    ensures var reader := ws[j].readers[r];
            reader.size == Some(|reader.data.value|) && reader.data.value in ws[j].carriers
            && exists i | 0 <= i < j :: acts[i] == OpenState(r) && Visible(ws[i].fs) == reader.data
  {
    var i := ReaderOpened(ws, acts, j, r);
    ExecutionKeepsInv(ws, acts, j);
    assert ReaderOk(ws[j], ws[j].readers[r]);
    assert acts[i] == OpenState(r) && Visible(ws[i].fs) == ws[j].readers[r].data;
  }
}
