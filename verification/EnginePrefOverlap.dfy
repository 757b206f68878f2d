// Overlapping `set_stored` calls: exactly which ones lose another slot's choice, and exactly which ones
// leave a torn preference file.
module EnginePrefOverlap {
  import opened Wrappers
  import opened EnginePref
  import opened Files
  import opened EnginePrefProtocol

  // ---------- losing another slot's choice ----------

  // From step `from` to step `to`, call `id` may move but does not end.
  predicate Stays(steps: seq<Step>, id: CallId, from: nat, to: nat)
    requires to <= |steps|
  {
    forall i | from <= i < to :: !steps[i].Crash? && steps[i] != Rename(id) && steps[i] != GiveUp(id)
  }

  // `m` is the last rename before step `n`, and no earlier than `r`.
  predicate LastRename(steps: seq<Step>, r: nat, n: nat, m: nat)
    requires n <= |steps|
  {
    r <= m < n && steps[m].Rename? && forall i | m < i < n :: !steps[i].Rename?
  }

  function OnFile(s: State, slot: Slot): (value: Option<string>) {
    Get(slot, Load(PrefOf(s)))
  }

  // What a call read at step `r` is what it still holds: its own choice over the file of that moment.
  lemma {:induction false} SnapshotStays(states: seq<State>, steps: seq<Step>, r: nat, n: nat, id: CallId)
    requires Run(states, steps) && r < n < |states|
    requires steps[r] == ReadFile(id) && Stays(steps, id, r, n)
    ensures id in states[n].calls
    ensures
      var read, call := states[r].calls[id], states[n].calls[id];
      && call.slot == read.slot && call.engine == read.engine && !call.pc.Begun?
      && call.pc.snapshot == Set(read.slot, Load(PrefOf(states[r])), read.engine)
  {
    if n > r + 1 {
      SnapshotStays(states, steps, r, n - 1, id);
      assert steps[n - 1] != Rename(id) && steps[n - 1] != GiveUp(id) && !steps[n - 1].Crash?;
    }
  }

  lemma OnlyRenamesChangeTheFile(states: seq<State>, steps: seq<Step>, n: nat)
    requires PoliteRun(states, steps) && Starts(states[0]) && n < |steps|
    ensures !steps[n].Rename? ==> PrefOf(states[n + 1]) == PrefOf(states[n])
  {
    InvHolds(states, steps, n);
    StepOnTheFile(PrefOf(states[0]), states[n], steps[n]);
  }

  // In a polite run the file changes at renames only.
  lemma {:induction false} FileIsTheLastRenames(states: seq<State>, steps: seq<Step>, r: nat, n: nat)
    requires PoliteRun(states, steps) && Starts(states[0]) && r <= n < |states|
    ensures (forall i | r <= i < n :: !steps[i].Rename?) ==> PrefOf(states[n]) == PrefOf(states[r])
    ensures forall m: nat | LastRename(steps, r, n, m) :: PrefOf(states[n]) == PrefOf(states[m + 1])
    ensures (exists i | r <= i < n :: steps[i].Rename?) ==> exists m: nat :: LastRename(steps, r, n, m)
  {
    if n > r {
      var p: nat := n - 1;
      FileIsTheLastRenames(states, steps, r, p);
      OnlyRenamesChangeTheFile(states, steps, p);
      if steps[p].Rename? {
        assert LastRename(steps, r, n, p);
      } else {
        forall m: nat | LastRename(steps, r, n, m) ensures LastRename(steps, r, p, m) {
        }
        if m: nat :| LastRename(steps, r, p, m) {
          assert LastRename(steps, r, n, m);
        }
      }
    }
  }

  // A polite call that reads at `r` and renames at `n` publishes its choice over the file it read.
  lemma RenamePublishesWhatWasRead(states: seq<State>, steps: seq<Step>, r: nat, n: nat, id: CallId)
    requires PoliteRun(states, steps) && Starts(states[0])
    requires r < n < |steps| && steps[r] == ReadFile(id) && steps[n] == Rename(id) && Stays(steps, id, r, n)
    ensures
      var read := states[r].calls[id];
      PrefOf(states[n + 1]) == Full(Set(read.slot, Load(PrefOf(states[r])), read.engine))
  {
    InvHolds(states, steps, n);
    StepOnTheFile(PrefOf(states[0]), states[n], steps[n]);
    SnapshotStays(states, steps, r, n, id);
  }

  // A rename changes what the file says of another slot exactly when the last rename between the call's
  // read and its own left something else there than the call had read: that choice is undone.
  lemma LosesAnUpdateExactlyWhen(states: seq<State>, steps: seq<Step>, r: nat, n: nat, id: CallId, other: Slot)
    requires PoliteRun(states, steps) && Starts(states[0])
    requires r < n < |steps| && steps[r] == ReadFile(id) && steps[n] == Rename(id) && Stays(steps, id, r, n)
    requires other != states[r].calls[id].slot
    ensures OnFile(states[n + 1], other) == OnFile(states[r], other)
    ensures OnFile(states[n + 1], other) != OnFile(states[n], other) <==>
      exists m: nat :: LastRename(steps, r, n, m) && OnFile(states[m + 1], other) != OnFile(states[r], other)
  {
    RenamePublishesWhatWasRead(states, steps, r, n, id);
    FileIsTheLastRenames(states, steps, r, n);
  }

  // ---------- the run as a run of the files ----------

  function Fss(states: seq<State>): (fss: seq<Fs<Name>>)
    ensures |fss| == |states| && forall i | 0 <= i < |states| :: fss[i] == states[i].fs
  {
    seq(|states|, i requires 0 <= i < |states| => states[i].fs)
  }

  ghost function Ops(states: seq<State>, steps: seq<Step>): (ops: seq<Op<Name>>)
    requires Run(states, steps)
    ensures |ops| == |steps| && forall i | 0 <= i < |steps| :: ops[i] == OpOf(states[i], steps[i])
  {
    seq(|steps|, i requires 0 <= i < |steps| => OpOf(states[i], steps[i]))
  }

  ghost predicate FileWasOpened(states: seq<State>, steps: seq<Step>, file: nat, n: nat)
    requires Run(states, steps) && n < |states|
  {
    WasOpened(Fss(states), Ops(states, steps), file, n)
  }

  lemma OpenedOneMore(states: seq<State>, steps: seq<Step>, file: nat, n: nat)
    requires Run(states, steps) && n < |steps|
    ensures FileWasOpened(states, steps, file, n + 1) <==>
      FileWasOpened(states, steps, file, n)
      || (steps[n].Truncate? && Handle(states[n].fs, Temp(states[n].calls[steps[n].id].slot)) == file)
  {
    Files.OpenedOneMore(Fss(states), Ops(states, steps), file, n, n + 1);
  }

  // The file a call holds was opened in the run, and so was whatever stands under its temp name.
  ghost predicate CallsOpenedTheirs(states: seq<State>, steps: seq<Step>, n: nat)
    requires Run(states, steps) && n < |states|
  {
    forall id | id in states[n].calls :: CallOpenedIts(states, steps, n, id)
  }

  ghost predicate CallOpenedIts(states: seq<State>, steps: seq<Step>, n: nat, id: CallId)
    requires Run(states, steps) && n < |states| && id in states[n].calls
  {
    var call := states[n].calls[id];
    && (call.pc.Opened? ==> FileWasOpened(states, steps, call.pc.file, n))
    && (call.pc.Opened? || call.pc.Written? ==>
          Temp(call.slot) in states[n].fs.names ==> FileWasOpened(states, steps, states[n].fs.names[Temp(call.slot)], n))
  }

  lemma CallOpenedOneMore(states: seq<State>, steps: seq<Step>, n: nat, next: nat, id: CallId)
    requires Run(states, steps) && n < |steps| && next == n + 1 && id in states[next].calls
    requires id in states[n].calls ==> CallOpenedIts(states, steps, n, id)
    ensures CallOpenedIts(states, steps, next, id)
  {
    var call := states[next].calls[id];
    if call.pc.Opened? {
      OpenedOneMore(states, steps, call.pc.file, n);
    }
    if (call.pc.Opened? || call.pc.Written?) && Temp(call.slot) in states[next].fs.names {
      OpenedOneMore(states, steps, states[next].fs.names[Temp(call.slot)], n);
    }
  }

  lemma {:induction false} CallsOpenTheirs(states: seq<State>, steps: seq<Step>, n: nat)
    requires Run(states, steps) && Starts(states[0]) && n < |states|
    ensures CallsOpenedTheirs(states, steps, n)
  {
    if n > 0 {
      CallsOpenTheirs(states, steps, n - 1);
      var s, r, step := states[n - 1], states[n], steps[n - 1];
      forall id | id in r.calls ensures CallOpenedIts(states, steps, n, id) {
        if id in s.calls {
          assert CallOpenedIts(states, steps, n - 1, id);
        }
        CallOpenedOneMore(states, steps, n - 1, n, id);
      }
    }
  }

  lemma RunOnFiles(states: seq<State>, steps: seq<Step>)
    requires Run(states, steps) && Starts(states[0])
    ensures FsRun(Fss(states), Ops(states, steps))
    ensures forall i | 0 <= i < |steps| && steps[i].Write? :: IsText(states[0].json, Ops(states, steps)[i].text)
  {
    forall i | 0 <= i < |steps| && steps[i].Write?
      ensures WasOpened(Fss(states), Ops(states, steps), Ops(states, steps)[i].file, i)
      ensures IsText(states[0].json, Ops(states, steps)[i].text)
    {
      CallsOpenTheirs(states, steps, i);
      SameLibrary(states, steps, i);
    }
  }

  lemma {:induction false} SameLibrary(states: seq<State>, steps: seq<Step>, n: nat)
    requires Run(states, steps) && n < |states|
    ensures states[n].json == states[0].json
  {
    if n > 0 {
      SameLibrary(states, steps, n - 1);
    }
  }

  // The visible file is the first one, or one that some call opened.
  lemma {:induction false} VisibleFileWasOpened(states: seq<State>, steps: seq<Step>, n: nat)
    requires Run(states, steps) && Starts(states[0]) && n < |states|
    ensures Pref in states[n].fs.names ==>
      var file := states[n].fs.names[Pref];
      FileWasOpened(states, steps, file, n) || (Pref in states[0].fs.names && states[0].fs.names[Pref] == file)
  {
    if n > 0 {
      VisibleFileWasOpened(states, steps, n - 1);
      if Pref in states[n].fs.names {
        OpenedOneMore(states, steps, states[n].fs.names[Pref], n - 1);
        CallsOpenTheirs(states, steps, n - 1);
      }
    }
  }

  // ---------- leaving a torn file ----------

  // What the calls have written into the file since one of them last opened it, in order.
  ghost function WrittenTo(states: seq<State>, steps: seq<Step>, file: nat, n: nat): (texts: seq<seq<Utf8.Byte>>)
    requires Run(states, steps) && n < |states|
  {
    Texts(Fss(states), Ops(states, steps), file, n)
  }

  // A call opened the visible file under its temp name, and since the last such opening either nothing was
  // written to it or the last text written is shorter than one before it.
  ghost predicate TornByCalls(states: seq<State>, steps: seq<Step>, n: nat)
    requires Run(states, steps) && n < |states|
  {
    Pref in states[n].fs.names &&
    var file := states[n].fs.names[Pref];
    FileWasOpened(states, steps, file, n) && !Whole(WrittenTo(states, steps, file, n))
  }

  lemma OpenedFileIsReadableExactlyWhen(states: seq<State>, steps: seq<Step>, file: nat, n: nat)
    requires Run(states, steps) && Starts(states[0]) && n < |states| && FileWasOpened(states, steps, file, n)
    ensures states[n].json == states[0].json && file < |states[n].fs.data|
    ensures states[n].json.parse(states[n].fs.data[file]).Some? <==> Whole(WrittenTo(states, steps, file, n))
    ensures Whole(WrittenTo(states, steps, file, n)) ==> IsText(states[n].json, states[n].fs.data[file])
  {
    SameLibrary(states, steps, n);
    RunOnFiles(states, steps);
    assert forall i | 0 <= i < |steps| && Ops(states, steps)[i].Fill? :: steps[i].Write?;
    FileIsReadableExactlyWhen(states[0].json, Fss(states), Ops(states, steps), file, n);
  }

  // In any run, polite or not, with any crashes: at any moment the visible file is torn exactly when the
  // calls left it so. Nothing is assumed of it but that it was not torn to begin with.
  lemma FileIsTornExactlyWhen(states: seq<State>, steps: seq<Step>, n: nat)
    requires Run(states, steps) && Starts(states[0]) && n < |states| && !PrefOf(states[0]).Torn?
    ensures PrefOf(states[n]).Torn? <==> TornByCalls(states, steps, n)
  {
    SameLibrary(states, steps, n);
    RunOnFiles(states, steps);
    RunIsSane(Fss(states), Ops(states, steps), n);
    if Pref in states[n].fs.names {
      var file := states[n].fs.names[Pref];
      VisibleFileWasOpened(states, steps, n);
      if FileWasOpened(states, steps, file, n) {
        OpenedFileIsReadableExactlyWhen(states, steps, file, n);
      } else {
        ContentIsWhatWasWritten(Fss(states), Ops(states, steps), file, n);
      }
    }
  }

  // A rename publishes a torn file exactly when the file under the temp name is in that state.
  lemma PublishesTornExactlyWhen(states: seq<State>, steps: seq<Step>, n: nat)
    requires Run(states, steps) && Starts(states[0]) && n < |steps| && steps[n].Rename?
    ensures
      var temp := states[n].fs.names[Temp(states[n].calls[steps[n].id].slot)];
      PrefOf(states[n + 1]).Torn? <==> !Whole(WrittenTo(states, steps, temp, n))
  {
    var name := Temp(states[n].calls[steps[n].id].slot);
    CallsOpenTheirs(states, steps, n);
    OpenedFileIsReadableExactlyWhen(states, steps, states[n].fs.names[name], n);
    RunOnFiles(states, steps);
    RunIsSane(Fss(states), Ops(states, steps), n);
    DoFrames(states[n].fs, OpOf(states[n], steps[n]), Pref);
  }

  function VisibleLength(s: State): (n: nat) {
    var content := Read(s.fs, Pref);
    if content.None? then 0 else |content.value|
  }

  // The call holds the file that has meanwhile become the visible one.
  predicate WritesTheVisibleFile(s: State, step: Step)
    requires Enabled(s, step)
  {
    step.Write? && Pref in s.fs.names && s.fs.names[Pref] == s.calls[step.id].pc.file
  }

  // So there are two ways for one step to tear a whole file: to rename a torn one over it, and to write a
  // shorter text into it through a handle opened before it was renamed into place.
  lemma TearsExactlyWhen(states: seq<State>, steps: seq<Step>, n: nat)
    requires Run(states, steps) && Starts(states[0]) && n < |steps| && !PrefOf(states[n]).Torn?
    ensures
      var s, step := states[n], steps[n];
      PrefOf(states[n + 1]).Torn? <==>
        || (step.Rename? && !Whole(WrittenTo(states, steps, s.fs.names[Temp(s.calls[step.id].slot)], n)))
        || (WritesTheVisibleFile(s, step) && |s.json.text(s.calls[step.id].pc.snapshot)| < VisibleLength(s))
  {
    var s, step := states[n], steps[n];
    RunOnFiles(states, steps);
    RunIsSane(Fss(states), Ops(states, steps), n);
    DoFrames(s.fs, OpOf(s, step), Pref);
    if step.Rename? {
      PublishesTornExactlyWhen(states, steps, n);
    } else if WritesTheVisibleFile(s, step) {
      WriteTearsExactlyWhen(states, steps, n);
    }
  }

  lemma WriteTearsExactlyWhen(states: seq<State>, steps: seq<Step>, n: nat)
    requires Run(states, steps) && Starts(states[0]) && n < |steps| && !PrefOf(states[n]).Torn?
    requires WritesTheVisibleFile(states[n], steps[n]) && Sane(states[n].fs)
    ensures
      PrefOf(states[n + 1]).Torn? <==>
      |states[n].json.text(states[n].calls[steps[n].id].pc.snapshot)| < VisibleLength(states[n])
  {
    var file := states[n].fs.names[Pref];
    CallsOpenTheirs(states, steps, n);
    OpenedFileIsReadableExactlyWhen(states, steps, file, n);
    var text := states[n].json.text(states[n].calls[steps[n].id].pc.snapshot);
    assert IsText(states[n].json, text);
    TextOverText(states[n].json, states[n].fs.data[file], text);
    DoFrames(states[n].fs, OpOf(states[n], steps[n]), Pref);
  }

  // ---------- two ways to tear it ----------

  lemma BothReadThenFirstOpens(json: Json<Prefs>) returns (states: seq<State>, steps: seq<Step>)
    requires Sound(json)
    ensures Run(states, steps) && states[0] == Fresh(json)
    ensures
      var s := states[|steps|];
      && s.json == json && s.fs == Fs(map[Temp(Auth) := 0], [[]])
      && s.calls == map[1 := Call(Auth, "native", Opened(AUTH_CHOICE, 0)), 2 := Call(Auth, "gcloud", Loaded(OTHER_CHOICE))]
  {
    states, steps := [Fresh(json)], [];
    states, steps := Extend(states, steps, Begin(1, Auth, "native"));
    states, steps := Extend(states, steps, Begin(2, Auth, "gcloud"));
    states, steps := Extend(states, steps, ReadFile(1));
    states, steps := Extend(states, steps, ReadFile(2));
    assert states[|steps|].calls == map[1 := Call(Auth, "native", Loaded(AUTH_CHOICE)), 2 := Call(Auth, "gcloud", Loaded(OTHER_CHOICE))];
    states, steps := Extend(states, steps, Truncate(1));
  }

  const OTHER_CHOICE := Prefs(Some("gcloud"), None, None)
  const BOTH_CHOICES := Prefs(Some("gcloud"), Some("gcloud"), None)

  // Two calls for the same slot: one has written its temp file and the other truncates it before the
  // first renames it.
  lemma SameSlotCanPublishATornFile(json: Json<Prefs>) returns (states: seq<State>, steps: seq<Step>)
    requires Sound(json)
    ensures Run(states, steps) && Starts(states[0]) && !PrefOf(states[0]).Torn?
    ensures steps != [] && steps[|steps| - 1] == Rename(1)
    ensures PrefOf(states[|steps|]).Torn? && Load(PrefOf(states[|steps|])) == Prefs(None, None, None)
  {
    states, steps := BothReadThenFirstOpens(json);
    states, steps := Extend(states, steps, Write(1));
    states, steps := Extend(states, steps, Truncate(2));
    assert states[|steps|].fs == Fs(map[Temp(Auth) := 0], [[]]);
    states, steps := Extend(states, steps, Rename(1));
    assert Read(states[|steps|].fs, Pref) == Some([]);
  }

  // A call for the authentication slot reads an empty file, then a tunnel choice is stored.
  lemma ReadsBeforeAnotherSlotIsStored(json: Json<Prefs>) returns (states: seq<State>, steps: seq<Step>)
    requires Sound(json)
    ensures Run(states, steps) && states[0] == Fresh(json)
    ensures
      var s := states[|steps|];
      && s.json == json && s.fs == Fs(map[Pref := 0], [json.text(TUNNEL_CHOICE)])
      && s.calls == map[1 := Call(Auth, "native", Loaded(AUTH_CHOICE))]
  {
    states, steps := TwoSlotsRead(json);
    states, steps := Extend(states, steps, Truncate(3));
    assert states[|steps|].fs == Fs(map[Temp(Tunnel) := 0], [[]]);
    OverlayOnNoLonger([], json.text(TUNNEL_CHOICE));
    states, steps := Extend(states, steps, Write(3));
    assert states[|steps|].fs == Fs(map[Temp(Tunnel) := 0], [json.text(TUNNEL_CHOICE)]);
    states, steps := Extend(states, steps, Rename(3));
    assert states[|steps|].fs == Fs(map[Pref := 0], [json.text(TUNNEL_CHOICE)]);
    assert states[|steps|].calls == map[1 := Call(Auth, "native", Loaded(AUTH_CHOICE))];
  }

  lemma TwoSlotsRead(json: Json<Prefs>) returns (states: seq<State>, steps: seq<Step>)
    requires Sound(json)
    ensures Run(states, steps) && states[0] == Fresh(json)
    ensures
      var s := states[|steps|];
      && s.json == json && s.fs == Fs(map[], [])
      && s.calls == map[1 := Call(Auth, "native", Loaded(AUTH_CHOICE)), 3 := Call(Tunnel, "gcloud", Loaded(TUNNEL_CHOICE))]
  {
    states, steps := [Fresh(json)], [];
    states, steps := Extend(states, steps, Begin(1, Auth, "native"));
    states, steps := Extend(states, steps, ReadFile(1));
    states, steps := Extend(states, steps, Begin(3, Tunnel, "gcloud"));
    states, steps := Extend(states, steps, ReadFile(3));
    assert states[|steps|].calls == map[1 := Call(Auth, "native", Loaded(AUTH_CHOICE)), 3 := Call(Tunnel, "gcloud", Loaded(TUNNEL_CHOICE))];
  }

  lemma SecondCallReads(json: Json<Prefs>) returns (states: seq<State>, steps: seq<Step>)
    requires Sound(json)
    ensures Run(states, steps) && states[0] == Fresh(json)
    ensures
      var s := states[|steps|];
      && s.json == json && s.fs == Fs(map[Pref := 0], [json.text(TUNNEL_CHOICE)])
      && s.calls == map[1 := Call(Auth, "native", Loaded(AUTH_CHOICE)), 2 := Call(Auth, "gcloud", Loaded(BOTH_CHOICES))]
  {
    states, steps := ReadsBeforeAnotherSlotIsStored(json);
    states, steps := Extend(states, steps, Begin(2, Auth, "gcloud"));
    states, steps := Extend(states, steps, ReadFile(2));
    assert states[|steps|].calls == map[1 := Call(Auth, "native", Loaded(AUTH_CHOICE)), 2 := Call(Auth, "gcloud", Loaded(BOTH_CHOICES))];
  }

  // A second call for that slot reads the longer file, and both open the temp file.
  lemma BothHoldTheTempFile(json: Json<Prefs>) returns (states: seq<State>, steps: seq<Step>)
    requires Sound(json)
    ensures Run(states, steps) && states[0] == Fresh(json)
    ensures
      var s := states[|steps|];
      && s.json == json && s.fs == Fs(map[Pref := 0, Temp(Auth) := 1], [json.text(TUNNEL_CHOICE), []])
      && s.calls == map[1 := Call(Auth, "native", Opened(AUTH_CHOICE, 1)), 2 := Call(Auth, "gcloud", Opened(BOTH_CHOICES, 1))]
  {
    states, steps := SecondCallReads(json);
    states, steps := Extend(states, steps, Truncate(1));
    assert states[|steps|].fs == Fs(map[Pref := 0, Temp(Auth) := 1], [json.text(TUNNEL_CHOICE), []]);
    states, steps := Extend(states, steps, Truncate(2));
  }

  // The second call renames the temp file into place.
  lemma LongerTextIsPublished(json: Json<Prefs>) returns (states: seq<State>, steps: seq<Step>)
    requires Sound(json)
    ensures Run(states, steps) && states[0] == Fresh(json)
    ensures
      var s := states[|steps|];
      && s.json == json && s.fs == Fs(map[Pref := 1], [json.text(TUNNEL_CHOICE), json.text(BOTH_CHOICES)])
      && s.calls == map[1 := Call(Auth, "native", Opened(AUTH_CHOICE, 1))]
  {
    states, steps := BothHoldTheTempFile(json);
    var first, long := json.text(TUNNEL_CHOICE), json.text(BOTH_CHOICES);
    OverlayOnNoLonger([], long);
    states, steps := Extend(states, steps, Write(2));
    assert states[|steps|].fs == Fs(map[Pref := 0, Temp(Auth) := 1], [first, long]);
    states, steps := Extend(states, steps, Rename(2));
    assert states[|steps|].fs == Fs(map[Pref := 1], [first, long]);
    assert states[|steps|].calls == map[1 := Call(Auth, "native", Opened(AUTH_CHOICE, 1))];
  }

  // The first then writes its shorter text over the visible file, with no rename at all.
  lemma AShorterWriteCanTearTheVisibleFile(json: Json<Prefs>) returns (states: seq<State>, steps: seq<Step>)
    requires Sound(json) && |json.text(AUTH_CHOICE)| < |json.text(BOTH_CHOICES)|
    ensures Run(states, steps) && Starts(states[0]) && !PrefOf(states[0]).Torn?
    ensures steps != [] && steps[|steps| - 1] == Write(1)
    ensures PrefOf(states[|steps| - 1]) == Full(BOTH_CHOICES) && PrefOf(states[|steps|]).Torn?
  {
    states, steps := LongerTextIsPublished(json);
    states, steps := Extend(states, steps, Write(1));
    TearsExactlyWhen(states, steps, |steps| - 1);
  }
}
