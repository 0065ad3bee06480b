/** When a power loss can take a rename back, told from the calls alone. */
module Durability {
  import opened Wrappers
  import opened FileSystem
  import opened CrashSafety

  predicate NoLoss(acts: seq<Action>, m: nat, i: nat)
    requires i <= |acts|
  {
    forall k | m <= k < i :: !acts[k].PowerLoss?
  }

  /** Some write whose rename is action `m` or a later one has returned by step `i`. */
  predicate HasReturned(acts: seq<Action>, m: nat, i: nat)
    requires i <= |acts|
  {
    exists r, k | m <= r < k < i :: acts[r].ReplaceState? && acts[k] == SyncState(acts[r].w)
  }

  /** Rename `m` adds a binding, and without a power loss nothing before it changes. */
  lemma {:induction false} HistorySince(ws: seq<System>, acts: seq<Action>, m: nat, j: nat)
    requires Execution(ws, acts) && m < j < |ws| && acts[m].ReplaceState? && NoLoss(acts, m, j)
    ensures ws[m].fs.history <= ws[j].fs.history && |ws[m].fs.history| < |ws[j].fs.history|
    ensures Contents(ws[j].fs, State(ws[m].fs)) == Visible(ws[m].fs)
    ensures State(ws[m].fs).Some? ==> Settled(ws[j], State(ws[m].fs).value)
    decreases j
  {
    hide Inv, Enabled, Apply, Settled, Contents, Visible, State;
    var s, a := ws[j - 1], acts[j - 1];
    assert ws[j - 1 + 1] == Apply(s, a);
    ExecutionKeepsInv(ws, acts, j - 1);
    if j == m + 1 {
      StateIsSettled(s);
    } else {
      HistorySince(ws, acts, m, j - 1);
    }
    GrowsWithoutLoss(s, a);
    StepKeepsContents(s, a, State(ws[m].fs));
  }

  lemma StepKeepsContents(s: System, a: Action, b: Option<nat>)
    requires Inv(s) && Enabled(s, a) && (b.Some? ==> Settled(s, b.value))
    ensures Contents(Apply(s, a).fs, b) == Contents(s.fs, b) && (b.Some? ==> Settled(Apply(s, a), b.value))
  {
    if b.Some? {
      SettledNeverChanges(s, a, b.value);
    }
    hide Inv, Enabled, Apply;
  }

  lemma GrowsWithoutLoss(s: System, a: Action)
    requires Enabled(s, a) && !a.PowerLoss?
    ensures s.fs.history <= Apply(s, a).fs.history
    ensures a.ReplaceState? ==> |Apply(s, a).fs.history| == |s.fs.history| + 1
    ensures !a.ReplaceState? ==> Apply(s, a).fs.history == s.fs.history
    ensures a.SyncState? ==>
              Apply(s, a).fs.firm == if s.fs.firm < s.writers[a.w].pc.at then s.writers[a.w].pc.at else s.fs.firm
    ensures !a.SyncState? ==> Apply(s, a).fs.firm == s.fs.firm
  {
  }

  lemma StateIsSettled(s: System)
    requires Inv(s)
    ensures State(s.fs).Some? ==> Settled(s, State(s.fs).value)
    ensures Contents(s.fs, State(s.fs)) == Visible(s.fs)
  {
  }

  /** A writer that waits for its rename to become durable got there by its own rename. */
  lemma WaitsByRename(s: System, a: Action, w: nat)
    requires Inv(s) && Enabled(s, a) && w in Apply(s, a).writers && Apply(s, a).writers[w].pc.Replaced?
    ensures a == ReplaceState(w) ==> Apply(s, a).writers[w].pc.at == |s.fs.history|
    ensures a != ReplaceState(w) ==>
              w in s.writers && s.writers[w].pc == Apply(s, a).writers[w].pc && s.writers[w].pc.at < |s.fs.history|
  {
    if w in s.writers {
      assert WriterOk(s, s.writers[w]);
    }
  }

  predicate RenamedSince(acts: seq<Action>, m: nat, j: nat, w: nat)
    requires j <= |acts|
  {
    exists r | m <= r < j :: acts[r] == ReplaceState(w)
  }

  /** The position a waiting writer remembers tells whether its rename came at `m` or later. */
  lemma {:induction false} WaitersSince(ws: seq<System>, acts: seq<Action>, m: nat, j: nat, w: nat)
    requires Execution(ws, acts) && m < j < |ws| && acts[m].ReplaceState? && NoLoss(acts, m, j)
    requires w in ws[j].writers && ws[j].writers[w].pc.Replaced?
    ensures ws[j].writers[w].pc.at >= |ws[m].fs.history| <==> RenamedSince(acts, m, j, w)
    decreases j
  {
    hide Inv, Apply, Enabled;
    var s, a := ws[j - 1], acts[j - 1];
    assert ws[j - 1 + 1] == Apply(s, a);
    ExecutionKeepsInv(ws, acts, j - 1);
    WaitsByRename(s, a, w);
    if j > m + 1 {
      HistorySince(ws, acts, m, j - 1);
      if a != ReplaceState(w) {
        WaitersSince(ws, acts, m, j - 1, w);
      }
    }
  }

  /** The firm position has reached that of rename `m` exactly if a write has returned since. */
  lemma {:induction false} FirmSince(ws: seq<System>, acts: seq<Action>, m: nat, j: nat)
    requires Execution(ws, acts) && m < j < |ws| && acts[m].ReplaceState? && NoLoss(acts, m, j)
    ensures ws[j].fs.firm >= |ws[m].fs.history| <==> HasReturned(acts, m, j)
    decreases j
  {
    hide Inv, Apply;
    var s, a := ws[j - 1], acts[j - 1];
    assert Enabled(s, a) && ws[j - 1 + 1] == Apply(s, a);
    ExecutionKeepsInv(ws, acts, m);
    GrowsWithoutLoss(s, a);
    if j > m + 1 {
      FirmSince(ws, acts, m, j - 1);
      if a.SyncState? {
        WaitersSince(ws, acts, m, j - 1, a.w);
        ReturnsBySync(acts, m, j);
      }
    }
  }

  lemma ReturnsBySync(acts: seq<Action>, m: nat, j: nat)
    requires m < j <= |acts| && acts[j - 1].SyncState?
    ensures HasReturned(acts, m, j) <==> HasReturned(acts, m, j - 1) || RenamedSince(acts, m, j - 1, acts[j - 1].w)
  {
  }

  /** A file system that a power loss may leave, cut back to `n` bindings. */
  function CutBack(fs: Fs, n: nat): Fs
    requires fs.firm < n <= |fs.history|
  {
    var files := map id | id in fs.files ::
      if fs.files[id].durable.Some? then File(fs.files[id].durable.value, fs.files[id].durable) else File("", Some(""));
    fs.(history := fs.history[..n], firm := n - 1, files := files)
  }

  /** A power loss at step `i` may leave exactly what there was before rename `m`. */
  ghost predicate CanUndo(ws: seq<System>, m: nat, i: nat)
    requires m < |ws| && i < |ws|
  {
    exists lost ::
      Enabled(ws[i], PowerLoss(lost)) && lost.history == ws[m].fs.history && Visible(lost) == Visible(ws[m].fs)
  }

  /**
   * A power loss can take a rename back if and only if no write whose rename is
   * that one or a later one has returned; from then on every loss keeps it.
   */
  lemma UndoneExactlyBeforeReturn(ws: seq<System>, acts: seq<Action>, m: nat, i: nat)
    requires Execution(ws, acts) && m < i < |ws| && acts[m].ReplaceState? && NoLoss(acts, m, i)
    ensures CanUndo(ws, m, i) <==> !HasReturned(acts, m, i)
    ensures HasReturned(acts, m, i) ==>
              forall lost | Enabled(ws[i], PowerLoss(lost)) :: |ws[m].fs.history| < |lost.history|
  {
    hide Inv, Apply, HasReturned;
    ExecutionKeepsInv(ws, acts, m);
    HistorySince(ws, acts, m, i);
    FirmSince(ws, acts, m, i);
    if !HasReturned(acts, m, i) {
      var lost := CutBack(ws[i].fs, |ws[m].fs.history|);
      assert lost.history == ws[m].fs.history;
      assert Enabled(ws[i], PowerLoss(lost)) && Visible(lost) == Visible(ws[m].fs);
    }
  }

  //
  // A run in which a reader sees what is then lost
  //

  /** The state name stands for `before`; `temps`, `file`, the writer of `after` and a reader are added to it. */
  function Scene(
      before: Data, after: Data, history: seq<Option<nat>>, temps: map<nat, nat>, file: Option<File>,
      pc: Option<WriterPc>, reader: Option<Reader>): System
  {
    var kept := map[0 := File(before, Some(before))];
    System(Fs(history, 0, temps, if file.Some? then kept[1 := file.value] else kept),
           if pc.Some? then map[0 := Writer(after, pc.value)] else map[],
           if reader.Some? then map[0 := reader.value] else map[],
           if pc.Some? then {before, after} else {before})
  }

  lemma Extend(ws: seq<System>, acts: seq<Action>, a: Action) returns (longer: seq<System>, more: seq<Action>)
    requires Execution(ws, acts) && Enabled(ws[|acts|], a)
    ensures more == acts + [a] && longer == ws + [Apply(ws[|acts|], a)] && Execution(longer, more)
  {
    longer, more := ws + [Apply(ws[|acts|], a)], acts + [a];
  }

  lemma ReachFilled(before: Data, after: Data) returns (ws: seq<System>, acts: seq<Action>)
    ensures Execution(ws, acts) && ws[0] == Scene(before, after, [Some(0)], map[], None, None, None)
    ensures acts == [BeginWrite(0, after), Make(0, 0, 1), FillPart(0, |after|)]
    ensures ws[|acts|]
         == Scene(before, after, [Some(0)], map[0 := 1], Some(File(after, None)), Some(Filled(0, 1)), None)
  {
    ws, acts := [Scene(before, after, [Some(0)], map[], None, None, None)], [];
    ws, acts := Extend(ws, acts, BeginWrite(0, after));
    ws, acts := Extend(ws, acts, Make(0, 0, 1));
    assert after[..|after|] == after;
    ws, acts := Extend(ws, acts, FillPart(0, |after|));
    assert ws[3].fs.files == map[0 := File(before, Some(before)), 1 := File(after, None)];
  }

  lemma ReachReplaced(before: Data, after: Data) returns (ws: seq<System>, acts: seq<Action>)
    ensures Execution(ws, acts) && ws[0] == Scene(before, after, [Some(0)], map[], None, None, None)
    ensures acts == [BeginWrite(0, after), Make(0, 0, 1), FillPart(0, |after|), FlushFile(0), ReplaceState(0)]
    ensures ws[5] == Scene(before, after, [Some(0), Some(1)], map[], Some(File(after, Some(after))),
                           Some(Replaced(1, 1)), None)
  {
    ws, acts := ReachFilled(before, after);
    ws, acts := Extend(ws, acts, FlushFile(0));
    assert ws[4] == Scene(before, after, [Some(0)], map[0 := 1], Some(File(after, Some(after))),
                          Some(Flushed(0, 1)), None);
    ws, acts := Extend(ws, acts, ReplaceState(0));
  }

  /**
   * For any two contents there is a run in which a reader completes with the new
   * ones while the write is still under way, and a power loss then leaves the old.
   */
  lemma ReadThenLost(before: Data, after: Data) returns (ws: seq<System>, acts: seq<Action>, lost: Fs)
    ensures Execution(ws, acts) && |acts| == 9 && acts[4] == ReplaceState(0) && acts[8] == PowerLoss(lost)
    ensures 0 in ws[8].readers && ws[8].readers[0].data == Some(after) && Visible(ws[8].fs) == Some(after)
    ensures Visible(ws[9].fs) == Visible(ws[0].fs) == Some(before)
  {
    ws, acts := ReachReplaced(before, after);
    ws, acts := Extend(ws, acts, OpenState(0));
    ws, acts := Extend(ws, acts, Measure(0));
    ws, acts := Extend(ws, acts, ReadAll(0));
    lost := CutBack(ws[8].fs, 1);
    ws, acts := Extend(ws, acts, PowerLoss(lost));
  }
}
