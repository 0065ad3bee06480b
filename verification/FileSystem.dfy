/**
 * The files under the state root: one state name, temporary names, and file
 * objects with cached and durable contents. Any number of writers replace the
 * state file and any number of readers read it, with a power loss at any step.
 */
module FileSystem {
  import opened Wrappers

  type Data = string

  /** `durable` is `None` while a power loss may leave any contents. */
  datatype File = File(cached: Data, durable: Option<Data>)

  /**
   * `history` lists what the state name has stood for, the present binding
   * last. A power loss cuts it back, but never to before position `firm`.
   */
  datatype Fs = Fs(history: seq<Option<nat>>, firm: nat, temps: map<nat, nat>, files: map<nat, File>)

  function State(fs: Fs): Option<nat> { if fs.history == [] then None else fs.history[|fs.history| - 1] }

  function CreateTemp(fs: Fs, name: nat, id: nat): Fs {
    fs.(temps := fs.temps[name := id], files := fs.files[id := File("", None)])
  }

  function Fill(fs: Fs, id: nat, data: Data): Fs {
    fs.(files := fs.files[id := File(data, None)])
  }

  function Flush(fs: Fs, id: nat): Fs
    requires id in fs.files
  {
    fs.(files := fs.files[id := File(fs.files[id].cached, Some(fs.files[id].cached))])
  }

  /** The rename is atomic: it takes effect for later opens at once, durably only after a sync. */
  function Replace(fs: Fs, name: nat): Fs
    requires name in fs.temps
  {
    var id := fs.temps[name];
    fs.(history := fs.history + [Some(id)], temps := fs.temps - {name})
  }

  /** Makes the rename that produced position `at`, and with it every earlier one, durable. */
  function Sync(fs: Fs, at: nat): Fs { fs.(firm := if fs.firm < at then at else fs.firm) }

  function DeleteTemp(fs: Fs, name: nat): Fs { fs.(temps := fs.temps - {name}) }

  /** `lost` is a file system that a power loss may leave of `fs`; temporary names may be anything. */
  predicate MayLose(fs: Fs, lost: Fs) {
    fs.firm < |lost.history| && lost.history <= fs.history && lost.firm == |lost.history| - 1
    && lost.files.Keys == fs.files.Keys
    && forall id | id in fs.files ::
         lost.files[id].durable == Some(lost.files[id].cached)
         && (fs.files[id].durable.Some? ==> lost.files[id].durable == fs.files[id].durable)
  }

  //
  // Writers and readers
  //

  datatype WriterPc =
    | Begun | Made(name: nat, id: nat) | Filled(name: nat, id: nat) | Flushed(name: nat, id: nat)
    | Replaced(id: nat, at: nat) | Ended

  datatype Writer = Writer(data: Data, pc: WriterPc)

  /** A reader's handle, the size it was told and the contents it read. */
  datatype Reader = Reader(id: nat, size: Option<nat>, data: Option<Data>)

  /** `carriers` collects the initial contents and everything a writer was given. */
  datatype System = System(fs: Fs, writers: map<nat, Writer>, readers: map<nat, Reader>, carriers: set<Data>)

  datatype Action =
    | BeginWrite(w: nat, data: Data) | Make(w: nat, name: nat, id: nat) | FillPart(w: nat, length: nat)
    | FlushFile(w: nat) | ReplaceState(w: nat) | SyncState(w: nat) | Stop(w: nat, delete: bool)
    | OpenState(r: nat) | Measure(r: nat) | ReadAll(r: nat) | PowerLoss(lost: Fs)
    // A trial file, and the deletion of a temporary file that no writer uses.
    | MakeTrial(name: nat, id: nat) | Sweep(name: nat)

  predicate Enabled(s: System, a: Action) {
    match a
    case BeginWrite(w, _) => w !in s.writers
    case Make(w, name, id) => w in s.writers && s.writers[w].pc.Begun? && name !in s.fs.temps && id !in s.fs.files
    case FillPart(w, length) => w in s.writers && s.writers[w].pc.Made? && length <= |s.writers[w].data|
    case FlushFile(w) => w in s.writers && s.writers[w].pc.Filled? && s.writers[w].pc.id in s.fs.files
    case ReplaceState(w) => w in s.writers && s.writers[w].pc.Flushed? && s.writers[w].pc.name in s.fs.temps
    case SyncState(w) => w in s.writers && s.writers[w].pc.Replaced?
    case Stop(w, _) => w in s.writers && !s.writers[w].pc.Ended?
    case OpenState(r) => r !in s.readers && State(s.fs).Some?
    case Measure(r) => r in s.readers && s.readers[r].size.None? && s.readers[r].id in s.fs.files
    case ReadAll(r) =>
      r in s.readers && s.readers[r].size.Some? && s.readers[r].data.None? && s.readers[r].id in s.fs.files
    case PowerLoss(lost) => MayLose(s.fs, lost)
    case MakeTrial(name, id) => name !in s.fs.temps && id !in s.fs.files
    case Sweep(name) => !InUse(s, name)
  }

  /** Some writer works under the temporary name. */
  predicate InUse(s: System, name: nat) {
    exists w | w in s.writers :: HasTemp(s.writers[w].pc) && s.writers[w].pc.name == name
  }

  function MoveWriter(s: System, w: nat, fs: Fs, pc: WriterPc): System
    requires w in s.writers
  {
    s.(fs := fs, writers := s.writers[w := s.writers[w].(pc := pc)])
  }

  /** A write may reach the file in pieces; a writer may stop anywhere, with or without cleaning up. */
  function Apply(s: System, a: Action): System
    requires Enabled(s, a)
  {
    match a
    case BeginWrite(w, data) => s.(writers := s.writers[w := Writer(data, Begun)], carriers := s.carriers + {data})
    case Make(w, name, id) => MoveWriter(s, w, CreateTemp(s.fs, name, id), Made(name, id))
    case FillPart(w, length) =>
      var writer := s.writers[w];
      MoveWriter(s, w, Fill(s.fs, writer.pc.id, writer.data[..length]),
                 if length == |writer.data| then Filled(writer.pc.name, writer.pc.id) else writer.pc)
    case FlushFile(w) =>
      var pc := s.writers[w].pc;
      MoveWriter(s, w, Flush(s.fs, pc.id), Flushed(pc.name, pc.id))
    case ReplaceState(w) =>
      var pc := s.writers[w].pc;
      MoveWriter(s, w, Replace(s.fs, pc.name), Replaced(s.fs.temps[pc.name], |s.fs.history|))
    case SyncState(w) => MoveWriter(s, w, Sync(s.fs, s.writers[w].pc.at), Ended)
    case Stop(w, delete) =>
      var pc := s.writers[w].pc;
      MoveWriter(s, w, if delete && HasTemp(pc) then DeleteTemp(s.fs, pc.name) else s.fs, Ended)
    case OpenState(r) => s.(readers := s.readers[r := Reader(State(s.fs).value, None, None)])
    case Measure(r) => s.(readers := s.readers[r := s.readers[r].(size := Some(|s.fs.files[s.readers[r].id].cached|))])
    case ReadAll(r) => s.(readers := s.readers[r := s.readers[r].(data := Some(s.fs.files[s.readers[r].id].cached))])
    case PowerLoss(lost) => s.(fs := lost, writers := map[], readers := map[])
    case MakeTrial(name, id) => s.(fs := CreateTemp(s.fs, name, id))
    case Sweep(name) => s.(fs := DeleteTemp(s.fs, name))
  }

  predicate HasTemp(pc: WriterPc) { pc.Made? || pc.Filled? || pc.Flushed? }

  //
  // The invariant
  //

  /** A finished file object: its contents are complete, durable, and given to some writer. */
  predicate Settled(s: System, id: nat) {
    id in s.fs.files && s.fs.files[id].cached in s.carriers && s.fs.files[id].durable == Some(s.fs.files[id].cached)
  }

  /** Whatever the state name stood for is settled. */
  predicate BindingsSettled(s: System) {
    s.fs.firm < |s.fs.history|
    && forall k | 0 <= k < |s.fs.history| && s.fs.history[k].Some? :: Settled(s, s.fs.history[k].value)
  }

  predicate WriterOk(s: System, writer: Writer) {
    writer.data in s.carriers
    && (HasTemp(writer.pc) ==>
          writer.pc.name in s.fs.temps && s.fs.temps[writer.pc.name] == writer.pc.id && writer.pc.id in s.fs.files
          && Some(writer.pc.id) !in s.fs.history)
    && (writer.pc.Made? || writer.pc.Filled? ==> s.fs.files[writer.pc.id].durable.None?)
    && (writer.pc.Filled? ==> s.fs.files[writer.pc.id].cached == writer.data)
    && (writer.pc.Flushed? || writer.pc.Replaced? ==>
          Settled(s, writer.pc.id) && s.fs.files[writer.pc.id].cached == writer.data)
    && (writer.pc.Replaced? ==>
          writer.pc.at < |s.fs.history| && s.fs.history[writer.pc.at] == Some(writer.pc.id))
  }

  predicate ReaderOk(s: System, reader: Reader) {
    Settled(s, reader.id)
    && (reader.size.Some? ==> reader.size.value == |s.fs.files[reader.id].cached|)
    && (reader.data.Some? ==> reader.size.Some? && reader.data.value == s.fs.files[reader.id].cached)
  }

  /** Writers use different temporary names and different file objects. */
  predicate Apart(s: System) {
    forall v, w | v in s.writers && w in s.writers && v != w && HasTemp(s.writers[v].pc) && HasTemp(s.writers[w].pc) ::
      s.writers[v].pc.name != s.writers[w].pc.name && s.writers[v].pc.id != s.writers[w].pc.id
  }

  predicate Inv(s: System) {
    BindingsSettled(s) && Apart(s)
    && (forall w | w in s.writers :: WriterOk(s, s.writers[w]))
    && (forall r | r in s.readers :: ReaderOk(s, s.readers[r]))
  }

  predicate Init(s: System) {
    s.writers == map[] && s.readers == map[] && |s.fs.history| == 1 && s.fs.firm == 0
    && (State(s.fs).Some? ==> Settled(s, State(s.fs).value))
  }

  /** No step, not even a power loss, ever changes a settled object. */
  lemma SettledNeverChanges(s: System, a: Action, id: nat)
    requires Inv(s) && Enabled(s, a) && Settled(s, id)
    ensures Settled(Apply(s, a), id) && Apply(s, a).fs.files[id] == s.fs.files[id]
  {
    match a
    case FillPart(w, _) => assert WriterOk(s, s.writers[w]);
    case FlushFile(w) => assert WriterOk(s, s.writers[w]);
    case _ =>
  }

  lemma StepKeepsBindings(s: System, a: Action)
    requires Inv(s) && Enabled(s, a)
    ensures BindingsSettled(Apply(s, a))
  {
    var t := Apply(s, a);
    if a.ReplaceState? {
      assert WriterOk(s, s.writers[a.w]);
    }
    forall k | 0 <= k < |t.fs.history| && t.fs.history[k].Some? ensures Settled(t, t.fs.history[k].value) {
      SettledNeverChanges(s, a, t.fs.history[k].value);
    }
  }

  lemma StepKeepsApart(s: System, a: Action)
    requires Inv(s) && Enabled(s, a)
    ensures Apart(Apply(s, a))
  {
    forall w | w in s.writers ensures WriterOk(s, s.writers[w]) {}
    hide Settled, BindingsSettled, ReaderOk;
  }

  /** `w` is the writer that takes the step. */
  predicate IsMove(a: Action, w: nat) {
    match a
    case OpenState(_) => false
    case Measure(_) => false
    case ReadAll(_) => false
    case PowerLoss(_) => false
    case MakeTrial(_, _) => false
    case Sweep(_) => false
    case _ => a.w == w
  }

  lemma MoveKeepsMover(s: System, a: Action, w: nat)
    requires Inv(s) && Enabled(s, a) && IsMove(a, w)
    ensures WriterOk(Apply(s, a), Apply(s, a).writers[w])
  {
    if w in s.writers {
      assert WriterOk(s, s.writers[w]);
    }
    hide ReaderOk, Apart;
  }

  lemma MoveKeepsBystander(s: System, a: Action, w: nat)
    requires Inv(s) && Enabled(s, a) && !IsMove(a, w) && w in Apply(s, a).writers
    ensures WriterOk(Apply(s, a), Apply(s, a).writers[w])
  {
    assert WriterOk(s, s.writers[w]);
    assert a.Sweep? ==> HasTemp(s.writers[w].pc) ==> s.writers[w].pc.name != a.name;
    if s.writers[w].pc.Flushed? || s.writers[w].pc.Replaced? {
      SettledNeverChanges(s, a, s.writers[w].pc.id);
    }
    hide BindingsSettled, ReaderOk, InUse;
  }

  lemma StepKeepsWriter(s: System, a: Action, w: nat)
    requires Inv(s) && Enabled(s, a) && w in Apply(s, a).writers
    ensures WriterOk(Apply(s, a), Apply(s, a).writers[w])
  {
    hide *;
    if IsMove(a, w) {
      MoveKeepsMover(s, a, w);
    } else {
      MoveKeepsBystander(s, a, w);
    }
  }

  lemma StepKeepsReader(s: System, a: Action, r: nat)
    requires Inv(s) && Enabled(s, a) && r in Apply(s, a).readers
    ensures ReaderOk(Apply(s, a), Apply(s, a).readers[r])
  {
    if r in s.readers {
      assert ReaderOk(s, s.readers[r]);
    }
    SettledNeverChanges(s, a, Apply(s, a).readers[r].id);
    hide WriterOk, Apart;
  }

  lemma StepKeepsInv(s: System, a: Action)
    requires Inv(s) && Enabled(s, a)
    ensures Inv(Apply(s, a))
  {
    StepKeepsBindings(s, a);
    StepKeepsApart(s, a);
    forall w | w in Apply(s, a).writers ensures WriterOk(Apply(s, a), Apply(s, a).writers[w]) {
      StepKeepsWriter(s, a, w);
    }
    forall r | r in Apply(s, a).readers ensures ReaderOk(Apply(s, a), Apply(s, a).readers[r]) {
      StepKeepsReader(s, a, r);
    }
    hide WriterOk, Apart, BindingsSettled, ReaderOk;
  }
}
