// The account index on disk: every account change writes it through one shared temp file. Exactly when
// does an unreadable index reach disk?
module TokenCacheIndex {
  import opened Wrappers
  import opened Files
  import opened TokenCache
  import opened TokenCacheProofs
  import opened TokenCacheSwitch

  // ---------- the run as a run of the files ----------

  function Fss(states: seq<State>): (fss: seq<Fs<Name>>)
    ensures |fss| == |states| && forall i | 0 <= i < |states| :: fss[i] == states[i].fs
  {
    seq(|states|, i requires 0 <= i < |states| => states[i].fs)
  }

  ghost function Ops(states: seq<State>, steps: seq<Step>): (ops: seq<Op<Name>>)
    requires Run(states, steps)
    ensures |ops| == |steps| && forall i | 0 <= i < |steps| :: ops[i] == OpOf(states[i], steps[i])
  {
    seq(|steps|, i requires 0 <= i < |steps| => OpOf(states[i], steps[i]))
  }

  ghost predicate FileWasOpened(states: seq<State>, steps: seq<Step>, file: nat, n: nat)
    requires Run(states, steps) && n < |states|
  {
    WasOpened(Fss(states), Ops(states, steps), file, n)
  }

  // What the changes have written into the file since one of them last opened it, in order.
  ghost function WrittenTo(states: seq<State>, steps: seq<Step>, file: nat, n: nat): (texts: seq<seq<Utf8.Byte>>)
    requires Run(states, steps) && n < |states|
  {
    Texts(Fss(states), Ops(states, steps), file, n)
  }

  lemma OpenedOneMore(states: seq<State>, steps: seq<Step>, file: nat, n: nat)
    requires Run(states, steps) && n < |steps|
    ensures FileWasOpened(states, steps, file, n + 1) <==>
      FileWasOpened(states, steps, file, n) || (steps[n].TruncateTmp? && Handle(states[n].fs, TempName) == file)
  {
    Files.OpenedOneMore(Fss(states), Ops(states, steps), file, n, n + 1);
  }

  // The file a task holds was opened in the run, and so was whatever stands under the temp name while some
  // task is about to rename it.
  ghost predicate TaskOpenedIts(states: seq<State>, steps: seq<Step>, n: nat, t: TaskId)
    requires Run(states, steps) && n < |states| && t in states[n].tasks
  {
    var pc := states[n].tasks[t];
    && (pc.FinishingTmp? ==> FileWasOpened(states, steps, pc.file, n))
    && (pc.FinishingTmp? || pc.Publishing? ==>
          TempName in states[n].fs.names ==> FileWasOpened(states, steps, states[n].fs.names[TempName], n))
  }

  lemma TaskOpenedOneMore(states: seq<State>, steps: seq<Step>, n: nat, next: nat, t: TaskId)
    requires Run(states, steps) && n < |steps| && next == n + 1 && t in states[next].tasks
    requires t in states[n].tasks && TaskOpenedIts(states, steps, n, t)
    ensures TaskOpenedIts(states, steps, next, t)
  {
    var pc := states[next].tasks[t];
    if pc.FinishingTmp? {
      OpenedOneMore(states, steps, pc.file, n);
    }
    if (pc.FinishingTmp? || pc.Publishing?) && TempName in states[next].fs.names {
      OpenedOneMore(states, steps, states[next].fs.names[TempName], n);
    }
  }

  lemma {:induction false} TasksOpenTheirs(states: seq<State>, steps: seq<Step>, n: nat)
    requires Run(states, steps) && Start(states[0]) && n < |states|
    ensures forall t | t in states[n].tasks :: TaskOpenedIts(states, steps, n, t)
  {
    if n > 0 {
      TasksOpenTheirs(states, steps, n - 1);
      forall t | t in states[n].tasks ensures TaskOpenedIts(states, steps, n, t) {
        TasksStay(states[n - 1], steps[n - 1]);
        assert TaskOpenedIts(states, steps, n - 1, t);
        TaskOpenedOneMore(states, steps, n - 1, n, t);
      }
    }
  }

  lemma TasksStay(s: State, step: Step)
    requires Enabled(s, step)
    ensures Apply(s, step).tasks.Keys == s.tasks.Keys
  {
  }

  lemma {:induction false} SameLibrary(states: seq<State>, steps: seq<Step>, n: nat)
    requires Run(states, steps) && n < |states|
    ensures states[n].json == states[0].json
  {
    if n > 0 {
      SameLibrary(states, steps, n - 1);
    }
  }

  lemma RunOnFiles(states: seq<State>, steps: seq<Step>)
    requires Run(states, steps) && Start(states[0])
    ensures FsRun(Fss(states), Ops(states, steps))
    ensures forall i | 0 <= i < |steps| && steps[i].FillTmp? :: IsText(states[0].json, Ops(states, steps)[i].text)
  {
    forall i | 0 <= i < |steps| && steps[i].FillTmp?
      ensures WasOpened(Fss(states), Ops(states, steps), Ops(states, steps)[i].file, i)
      ensures IsText(states[0].json, Ops(states, steps)[i].text)
    {
      TasksOpenTheirs(states, steps, i);
      assert TaskOpenedIts(states, steps, i, steps[i].t);
      SameLibrary(states, steps, i);
    }
  }

  // The index is the first one, or one that some change opened under the temp name.
  lemma {:induction false} IndexWasOpened(states: seq<State>, steps: seq<Step>, n: nat)
    requires Run(states, steps) && Start(states[0]) && n < |states|
    ensures IndexName in states[n].fs.names ==>
      var file := states[n].fs.names[IndexName];
      FileWasOpened(states, steps, file, n) || (IndexName in states[0].fs.names && states[0].fs.names[IndexName] == file)
  {
    if n > 0 {
      IndexWasOpened(states, steps, n - 1);
      if IndexName in states[n].fs.names {
        OpenedOneMore(states, steps, states[n].fs.names[IndexName], n - 1);
        TasksOpenTheirs(states, steps, n - 1);
        assert steps[n - 1].Publish? ==> TaskOpenedIts(states, steps, n - 1, steps[n - 1].t);
      }
    }
  }

  // ---------- when the index is unreadable ----------

  // A change opened the index under the temp name, and since the last such opening either nothing was
  // written to it or the last text written is shorter than one before it.
  ghost predicate GarbledByChanges(states: seq<State>, steps: seq<Step>, n: nat)
    requires Run(states, steps) && n < |states|
  {
    IndexName in states[n].fs.names &&
    var file := states[n].fs.names[IndexName];
    FileWasOpened(states, steps, file, n) && !Whole(WrittenTo(states, steps, file, n))
  }

  lemma OpenedFileIsReadableExactlyWhen(states: seq<State>, steps: seq<Step>, file: nat, n: nat)
    requires Run(states, steps) && Start(states[0]) && n < |states| && FileWasOpened(states, steps, file, n)
    ensures states[n].json == states[0].json && file < |states[n].fs.data|
    ensures states[n].json.parse(states[n].fs.data[file]).Some? <==> Whole(WrittenTo(states, steps, file, n))
    ensures Whole(WrittenTo(states, steps, file, n)) ==> IsText(states[n].json, states[n].fs.data[file])
  {
    SameLibrary(states, steps, n);
    RunOnFiles(states, steps);
    assert forall i | 0 <= i < |steps| && Ops(states, steps)[i].Fill? :: steps[i].FillTmp?;
    FileIsReadableExactlyWhen(states[0].json, Fss(states), Ops(states, steps), file, n);
  }

  // In every run, at every moment: a readable index has become unreadable exactly when the changes left it so.
  lemma IndexIsGarbledExactlyWhen(states: seq<State>, steps: seq<Step>, n: nat)
    requires Run(states, steps) && Start(states[0]) && n < |states| && !OnDisk(states[0]).Garbled?
    ensures OnDisk(states[n]).Garbled? <==> GarbledByChanges(states, steps, n)
  {
    SameLibrary(states, steps, n);
    RunOnFiles(states, steps);
    RunIsSane(Fss(states), Ops(states, steps), n);
    if IndexName in states[n].fs.names {
      var file := states[n].fs.names[IndexName];
      IndexWasOpened(states, steps, n);
      if FileWasOpened(states, steps, file, n) {
        OpenedFileIsReadableExactlyWhen(states, steps, file, n);
      } else {
        ContentIsWhatWasWritten(Fss(states), Ops(states, steps), file, n);
      }
    }
  }

  // A rename publishes an unreadable index exactly when the temp file is in that state.
  lemma PublishesGarbledExactlyWhen(states: seq<State>, steps: seq<Step>, n: nat)
    requires Run(states, steps) && Start(states[0]) && n < |steps| && steps[n].Publish?
    ensures OnDisk(states[n + 1]).Garbled? <==> !Whole(WrittenTo(states, steps, states[n].fs.names[TempName], n))
  {
    TasksOpenTheirs(states, steps, n);
    assert TaskOpenedIts(states, steps, n, steps[n].t);
    OpenedFileIsReadableExactlyWhen(states, steps, states[n].fs.names[TempName], n);
    RunOnFiles(states, steps);
    RunIsSane(Fss(states), Ops(states, steps), n);
    DoFrames(states[n].fs, OpOf(states[n], steps[n]), IndexName);
  }

  function IndexLength(s: State): (n: nat) {
    var content := Read(s.fs, IndexName);
    if content.None? then 0 else |content.value|
  }

  // So there are two ways for one step to garble a readable index: to rename a garbled temp file over it,
  // and to write a shorter text into it through a handle opened before it was renamed into place.
  lemma GarblesExactlyWhen(states: seq<State>, steps: seq<Step>, n: nat)
    requires Run(states, steps) && Start(states[0]) && n < |steps| && !OnDisk(states[n]).Garbled?
    ensures
      var s, step := states[n], steps[n];
      OnDisk(states[n + 1]).Garbled? <==>
        || (step.Publish? && !Whole(WrittenTo(states, steps, s.fs.names[TempName], n)))
        || (WritesIndexInPlace(s, step) && |s.json.text(s.tasks[step.t].next)| < IndexLength(s))
  {
    var s, step := states[n], steps[n];
    RunOnFiles(states, steps);
    RunIsSane(Fss(states), Ops(states, steps), n);
    DoFrames(s.fs, OpOf(s, step), IndexName);
    if step.Publish? {
      PublishesGarbledExactlyWhen(states, steps, n);
    } else if WritesIndexInPlace(s, step) {
      FillGarblesExactlyWhen(states, steps, n);
    }
  }

  lemma FillGarblesExactlyWhen(states: seq<State>, steps: seq<Step>, n: nat)
    requires Run(states, steps) && Start(states[0]) && n < |steps| && !OnDisk(states[n]).Garbled?
    requires WritesIndexInPlace(states[n], steps[n]) && Sane(states[n].fs)
    ensures OnDisk(states[n + 1]).Garbled? <==> |states[n].json.text(states[n].tasks[steps[n].t].next)| < IndexLength(states[n])
  {
    var file := states[n].fs.names[IndexName];
    TasksOpenTheirs(states, steps, n);
    assert TaskOpenedIts(states, steps, n, steps[n].t);
    OpenedFileIsReadableExactlyWhen(states, steps, file, n);
    var text := states[n].json.text(states[n].tasks[steps[n].t].next);
    assert IsText(states[n].json, text);
    TextOverText(states[n].json, states[n].fs.data[file], text);
    DoFrames(states[n].fs, OpOf(states[n], steps[n]), IndexName);
  }

  // ---------- one writer at a time ----------

  predicate Writing(pc: Pc) {
    pc.WritingTmp? || pc.FinishingTmp? || pc.Publishing?
  }

  predicate OneWriter(s: State) {
    forall a, b | a in s.tasks && b in s.tasks && Writing(s.tasks[a]) && Writing(s.tasks[b]) :: a == b
  }

  // The writer's temp file is its own and holds what it has put there.
  predicate HoldsTheTemp(s: State, pc: Pc) {
    && (pc.FinishingTmp? ==> TempName in s.fs.names && s.fs.names[TempName] == pc.file && Read(s.fs, TempName) == Some([]))
    && (pc.Publishing? ==> Read(s.fs, TempName) == Some(s.json.text(pc.next)))
  }

  ghost predicate WholeInv(s: State) {
    && Sound(s.json) && Sane(s.fs) && !OnDisk(s).Garbled?
    && forall t | t in s.tasks :: HoldsTheTemp(s, s.tasks[t])
  }

  lemma StepKeepsWhole(s: State, step: Step)
    requires WholeInv(s) && OneWriter(s) && Enabled(s, step) && OneWriter(Apply(s, step))
    ensures WholeInv(Apply(s, step))
  {
    var r := Apply(s, step);
    DoKeepsSane(s.fs, OpOf(s, step));
    DoFrames(s.fs, OpOf(s, step), TempName);
    DoFrames(s.fs, OpOf(s, step), IndexName);
    if step.FillTmp? {
      assert HoldsTheTemp(s, s.tasks[step.t]);
      OverlayOnNoLonger([], s.json.text(s.tasks[step.t].next));
    }
    forall t | t in r.tasks ensures HoldsTheTemp(r, r.tasks[t]) {
      TasksStay(s, step);
      assert HoldsTheTemp(s, s.tasks[t]);
      assert step.Tick? || t == step.t || r.tasks[t] == s.tasks[t];
    }
    if step.Publish? {
      assert HoldsTheTemp(s, s.tasks[step.t]);
    }
  }

  lemma {:induction false} WholeHolds(states: seq<State>, steps: seq<Step>, n: nat)
    requires Run(states, steps) && Start(states[0]) && n < |states| && !OnDisk(states[0]).Garbled?
    requires forall i | 0 <= i <= n :: OneWriter(states[i])
    ensures WholeInv(states[n])
  {
    if n > 0 {
      WholeHolds(states, steps, n - 1);
      assert OneWriter(states[n - 1]) && OneWriter(states[n]);
      StepKeepsWhole(states[n - 1], steps[n - 1]);
    }
  }

  // The index is always readable while at most one account change at a time is writing it.
  lemma IndexIsWholeWithOneWriter(states: seq<State>, steps: seq<Step>, n: nat)
    requires Run(states, steps) && Start(states[0]) && n < |states| && !OnDisk(states[0]).Garbled?
    requires forall i | 0 <= i <= n :: OneWriter(states[i])
    ensures !OnDisk(states[n]).Garbled?
  {
    WholeHolds(states, steps, n);
  }

  // ---------- what does not hold ----------

  // Two overlapping switches: one has filled the temp file, the other truncates it, the first renames it.
  // The index on disk then lists nobody.
  lemma OverlappingSwitchesCanEraseTheIndex(json: Json<Index>, ana: Account, bob: Account)
    returns (states: seq<State>, steps: seq<Step>)
    requires Sound(json)
    ensures Run(states, steps) && OnlySwitches(steps) && Start(states[0]) && !OnDisk(states[0]).Garbled?
    ensures OnDisk(states[|steps|]).Garbled? && LoadIndex(OnDisk(states[|steps|])) == Index([], None)
  {
    states, steps := BothSwitchesHaveRead(json, ana, bob);
    var first, anas := json.text(Index([ana, bob], None)), json.text(Index([ana, bob], Some(ana)));
    states, steps := Extend(states, steps, TruncateTmp(2));
    assert states[|steps|].fs == Fs(map[IndexName := 0, TempName := 1], [first, []]);
    states, steps := Extend(states, steps, FillTmp(2));
    states, steps := Extend(states, steps, TruncateTmp(3));
    assert states[|steps|].fs == Fs(map[IndexName := 0, TempName := 1], [first, []]);
    states, steps := Extend(states, steps, Publish(2));
    assert Read(states[|steps|].fs, IndexName) == Some([]);
  }

  // A shorter text written over a longer one is published although neither change truncates after the
  // other has written.
  lemma AShorterTextCanGarbleTheIndex(json: Json<Index>, ana: Account, bob: Account) returns (states: seq<State>, steps: seq<Step>)
    requires Sound(json) && |json.text(Index([ana, bob], Some(ana)))| < |json.text(Index([ana, bob], Some(bob)))|
    ensures Run(states, steps) && OnlySwitches(steps) && Start(states[0]) && !OnDisk(states[0]).Garbled?
    ensures steps != [] && steps[|steps| - 1] == Publish(2) && OnDisk(states[|steps|]).Garbled?
  {
    states, steps := BothSwitchesHoldTheTempFile(json, ana, bob);
    var first, anas, bobs :=
      json.text(Index([ana, bob], None)), json.text(Index([ana, bob], Some(ana))), json.text(Index([ana, bob], Some(bob)));
    OverlayOnNoLonger([], bobs);
    states, steps := Extend(states, steps, FillTmp(3));
    assert states[|steps|].fs == Fs(map[IndexName := 0, TempName := 1], [first, bobs]);
    states, steps := Extend(states, steps, FillTmp(2));
    assert states[|steps|].fs == Fs(map[IndexName := 0, TempName := 1], [first, Overlay(bobs, 0, anas)]);
    states, steps := Extend(states, steps, Publish(2));
    assert Read(states[|steps|].fs, IndexName) == Some(Overlay(bobs, 0, anas));
    assert IsText(json, anas) && IsText(json, bobs);
    TextOverText(json, bobs, anas);
  }
}
