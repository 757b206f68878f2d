// `set_stored` calls running at the same time, one file-system step at a time, with crashes.
// Each call loads the preference file, opens and truncates its slot's temp file, writes its text through
// the handle it got and renames the temp file into place. Any step may be the last one a call makes, and a
// crash ends every call at once.
module EnginePrefProtocol {
  import opened Wrappers
  import opened EnginePref
  import opened Files

  type CallId = nat

  datatype Name = Pref | Temp(slot: Slot)

  // `Opened` holds the file that stood under the slot's temp name when the call opened it.
  datatype Pc = Begun | Loaded(snapshot: Prefs) | Opened(snapshot: Prefs, file: nat) | Written(snapshot: Prefs)

  datatype Call = Call(slot: Slot, engine: string, pc: Pc)

  datatype State = State(
    json: Json<Prefs>,
    fs: Fs<Name>,
    calls: map<CallId, Call>,
    requested: set<(Slot, string)>,  // every choice some call was asked to store
    built: set<Prefs>                // every snapshot some call built
  )

  // What is visible under the preference file's name.
  function PrefOf(s: State): (file: PrefFile) {
    var content := Read(s.fs, Pref);
    if content.None? then Missing
    else
      match s.json.parse(content.value)
      case None => Torn
      case Some(prefs) => Full(prefs)
  }

  // `Begin` is a call past its validity check; a call refused there takes no step at all.
  datatype Step =
    | Begin(id: CallId, slot: Slot, engine: string)
    | ReadFile(id: CallId)
    | Truncate(id: CallId)
    | Write(id: CallId)
    | Rename(id: CallId)
    | GiveUp(id: CallId)
    | Crash

  // Any files, and no call yet.
  ghost predicate Starts(s: State) {
    Sound(s.json) && Sane(s.fs) && s.calls == map[] && s.requested == {} && s.built == {}
  }

  predicate InFlight(s: State, slot: Slot) {
    exists id | id in s.calls :: s.calls[id].slot == slot
  }

  predicate Enabled(s: State, step: Step) {
    match step
    case Begin(id, slot, engine) => id !in s.calls && ParseEngine(engine).Some?
    case ReadFile(id) => id in s.calls && s.calls[id].pc.Begun?
    case Truncate(id) => id in s.calls && s.calls[id].pc.Loaded?
    case Write(id) => id in s.calls && s.calls[id].pc.Opened?
    case Rename(id) => id in s.calls && s.calls[id].pc.Written? && Temp(s.calls[id].slot) in s.fs.names
    case GiveUp(id) => id in s.calls
    case Crash => true
  }

  // At most one call in flight for each slot.
  predicate Polite(s: State, step: Step) {
    step.Begin? ==> !InFlight(s, step.slot)
  }

  function At(s: State, id: CallId, pc: Pc): (r: State)
    requires id in s.calls
  {
    s.(calls := s.calls[id := s.calls[id].(pc := pc)])
  }

  // What the step does to the files.
  function OpOf(s: State, step: Step): (op: Op<Name>)
    requires Enabled(s, step)
  {
    match step
    case Truncate(id) => Create(Temp(s.calls[id].slot))
    case Write(id) => Fill(s.calls[id].pc.file, s.json.text(s.calls[id].pc.snapshot))
    case Rename(id) => Move(Temp(s.calls[id].slot), Pref)
    case _ => Skip
  }

  function Apply(s: State, step: Step): (r: State)
    requires Enabled(s, step)
    ensures r.fs == Do(s.fs, OpOf(s, step)) && r.json == s.json
  {
    var fs := Do(s.fs, OpOf(s, step));
    match step
    case Begin(id, slot, engine) =>
      s.(calls := s.calls[id := Call(slot, engine, Begun)], requested := s.requested + {(slot, engine)})
    case ReadFile(id) =>
      var snapshot := Set(s.calls[id].slot, Load(PrefOf(s)), s.calls[id].engine);
      At(s, id, Loaded(snapshot)).(built := s.built + {snapshot})
    case Truncate(id) =>
      At(s, id, Opened(s.calls[id].pc.snapshot, Handle(s.fs, Temp(s.calls[id].slot)))).(fs := fs)
    case Write(id) => At(s, id, Written(s.calls[id].pc.snapshot)).(fs := fs)
    case Rename(id) => s.(fs := fs, calls := s.calls - {id})
    case GiveUp(id) => s.(calls := s.calls - {id})
    case Crash => s.(calls := map[])
  }

  ghost predicate Run(states: seq<State>, steps: seq<Step>) {
    |states| == |steps| + 1 &&
    forall i | 0 <= i < |steps| :: Enabled(states[i], steps[i]) && states[i + 1] == Apply(states[i], steps[i])
  }

  ghost predicate PoliteRun(states: seq<State>, steps: seq<Step>) {
    Run(states, steps) && forall i | 0 <= i < |steps| :: Polite(states[i], steps[i])
  }

  // ---------- at most one call per slot ----------

  predicate OneCallPerSlot(s: State) {
    forall a, b | a in s.calls && b in s.calls && s.calls[a].slot == s.calls[b].slot :: a == b
  }

  // Every call's temp file is its own and holds what the call has put there.
  predicate HoldsItsTemp(s: State, call: Call) {
    match call.pc
    case Begun => true
    case Loaded(p) => p in s.built
    case Opened(p, file) =>
      p in s.built && Temp(call.slot) in s.fs.names && s.fs.names[Temp(call.slot)] == file && Read(s.fs, Temp(call.slot)) == Some([])
    case Written(p) => p in s.built && Read(s.fs, Temp(call.slot)) == Some(s.json.text(p))
  }

  predicate TempsAreOwn(s: State) {
    forall id | id in s.calls :: HoldsItsTemp(s, s.calls[id])
  }

  // A slot holds what it held at the start or a value requested for it.
  predicate Allowed(first: PrefFile, requested: set<(Slot, string)>, p: Prefs) {
    forall slot: Slot ::
      Get(slot, p) == Get(slot, Load(first)) || (Get(slot, p).Some? && (slot, Get(slot, p).value) in requested)
  }

  predicate Complete(first: PrefFile, s: State) {
    && (PrefOf(s) == first || (PrefOf(s).Full? && PrefOf(s).prefs in s.built))
    && (forall p | p in s.built :: Allowed(first, s.requested, p))
    && (forall id | id in s.calls :: (s.calls[id].slot, s.calls[id].engine) in s.requested)
  }

  ghost predicate Inv(first: PrefFile, s: State) {
    Sound(s.json) && Sane(s.fs) && OneCallPerSlot(s) && TempsAreOwn(s) && Complete(first, s)
  }

  lemma AllowedAfterSet(first: PrefFile, s: State, id: CallId)
    requires Inv(first, s) && id in s.calls
    ensures Allowed(first, s.requested, Set(s.calls[id].slot, Load(PrefOf(s)), s.calls[id].engine))
  {
    assert Allowed(first, s.requested, Load(PrefOf(s)));
  }

  // What a polite step leaves under each name.
  lemma PoliteStepOnNames(first: PrefFile, s: State, step: Step, name: Name)
    requires Inv(first, s) && Enabled(s, step)
    ensures Sane(Apply(s, step).fs)
    ensures Read(Apply(s, step).fs, name) ==
      match step
      case Truncate(id) => if name == Temp(s.calls[id].slot) then Some([]) else Read(s.fs, name)
      case Write(id) => if name == Temp(s.calls[id].slot) then Some(s.json.text(s.calls[id].pc.snapshot)) else Read(s.fs, name)
      case Rename(id) =>
        if name == Pref then Read(s.fs, Temp(s.calls[id].slot))
        else if name == Temp(s.calls[id].slot) then None else Read(s.fs, name)
      case _ => Read(s.fs, name)
  {
    DoKeepsSane(s.fs, OpOf(s, step));
    DoFrames(s.fs, OpOf(s, step), name);
    if step.Write? {
      assert HoldsItsTemp(s, s.calls[step.id]);
      OverlayOnNoLonger([], s.json.text(s.calls[step.id].pc.snapshot));
    }
  }

  lemma StepKeepsTemps(first: PrefFile, s: State, step: Step)
    requires Inv(first, s) && Enabled(s, step) && Polite(s, step)
    ensures TempsAreOwn(Apply(s, step)) && OneCallPerSlot(Apply(s, step))
  {
    var r := Apply(s, step);
    forall id | id in r.calls
      ensures HoldsItsTemp(r, r.calls[id])
    {
      PoliteStepOnNames(first, s, step, Temp(r.calls[id].slot));
      if id in s.calls {
        assert HoldsItsTemp(s, s.calls[id]);
      }
    }
  }

  // The visible file changes at renames only, and then to what the call has built.
  lemma StepOnTheFile(first: PrefFile, s: State, step: Step)
    requires Inv(first, s) && Enabled(s, step)
    ensures PrefOf(Apply(s, step)) == if step.Rename? then Full(s.calls[step.id].pc.snapshot) else PrefOf(s)
    ensures step.Rename? ==> s.calls[step.id].pc.snapshot in s.built
  {
    PoliteStepOnNames(first, s, step, Pref);
    if step.Rename? {
      assert HoldsItsTemp(s, s.calls[step.id]);
    }
  }

  lemma StepKeepsInv(first: PrefFile, s: State, step: Step)
    requires Inv(first, s) && Enabled(s, step) && Polite(s, step)
    ensures Inv(first, Apply(s, step))
  {
    var r := Apply(s, step);
    StepKeepsTemps(first, s, step);
    StepOnTheFile(first, s, step);
    DoKeepsSane(s.fs, OpOf(s, step));
    forall p | p in r.built
      ensures Allowed(first, r.requested, p)
    {
      if p in s.built {
        assert Allowed(first, s.requested, p);
      } else {
        AllowedAfterSet(first, s, step.id);
      }
    }
  }

  lemma {:induction false} InvHolds(states: seq<State>, steps: seq<Step>, n: nat)
    requires PoliteRun(states, steps) && n < |states| && Starts(states[0])
    ensures Inv(PrefOf(states[0]), states[n])
  {
    if n == 0 {
    } else {
      InvHolds(states, steps, n - 1);
      StepKeepsInv(PrefOf(states[0]), states[n - 1], steps[n - 1]);
    }
  }

  // Whatever the interleaving, the failures and the crashes, the visible file is at every moment the
  // initial file or a whole snapshot some call built, and each slot holds its initial value or one that
  // was requested for it.
  lemma VisibleFileIsAlwaysWhole(states: seq<State>, steps: seq<Step>, n: nat)
    requires PoliteRun(states, steps) && n < |states| && Starts(states[0])
    ensures PrefOf(states[n]) == PrefOf(states[0]) || (PrefOf(states[n]).Full? && PrefOf(states[n]).prefs in states[n].built)
    ensures Allowed(PrefOf(states[0]), states[n].requested, Load(PrefOf(states[n])))
  {
    InvHolds(states, steps, n);
  }

  // ---------- a call no other call overlaps ----------

  // Call `id`, from its beginning, with no other call in flight.
  ghost predicate SoloRun(id: CallId, slot: Slot, engine: string, states: seq<State>, steps: seq<Step>) {
    && Run(states, steps) && Starts(states[0])
    && steps != [] && steps[0] == Begin(id, slot, engine)
    && forall i | 1 <= i < |steps| :: steps[i].Crash? || (!steps[i].Begin? && steps[i].id == id)
  }

  // Where the call is, given that it alone has moved.
  predicate Alone(before: PrefFile, id: CallId, slot: Slot, engine: string, s: State) {
    var mine := Set(slot, Load(before), engine);
    if s.calls == map[] then PrefOf(s) == before || PrefOf(s) == Full(mine)
    else
      && s.calls.Keys == {id} && s.calls[id].slot == slot && s.calls[id].engine == engine
      && PrefOf(s) == before
      && (s.calls[id].pc.Begun? || s.calls[id].pc.snapshot == mine)
  }

  lemma {:induction false} AloneHolds(id: CallId, slot: Slot, engine: string, states: seq<State>, steps: seq<Step>, n: nat)
    requires SoloRun(id, slot, engine, states, steps) && 0 < n < |states|
    ensures Alone(PrefOf(states[0]), id, slot, engine, states[n]) && Inv(PrefOf(states[0]), states[n])
  {
    var s, step := states[n - 1], steps[n - 1];
    if n > 1 {
      AloneHolds(id, slot, engine, states, steps, n - 1);
      if step.Rename? || step.GiveUp? {
        assert s.calls - {id} == map[];
      }
    }
    assert Polite(s, step);
    StepOnTheFile(PrefOf(states[0]), s, step);
    StepKeepsInv(PrefOf(states[0]), s, step);
  }

  // A call that no other call overlaps changes its own slot, to what was asked, or nothing.
  lemma UnoverlappedCallTouchesOnlyItsSlot(id: CallId, slot: Slot, engine: string, states: seq<State>, steps: seq<Step>, n: nat)
    requires SoloRun(id, slot, engine, states, steps) && 0 < n < |states|
    ensures
      var before, after := PrefOf(states[0]), PrefOf(states[n]);
      && (after == before || after == Full(Set(slot, Load(before), engine)))
      && forall other | other != slot :: Get(other, Load(after)) == Get(other, Load(before))
  {
    AloneHolds(id, slot, engine, states, steps, n);
  }

  // A call that runs through stores its choice, and nothing else.
  lemma StoringIsARun(s: State, id: CallId, slot: Slot, engine: string) returns (states: seq<State>, steps: seq<Step>)
    requires Starts(s) && ParseEngine(engine).Some?
    ensures SoloRun(id, slot, engine, states, steps) && states[0] == s
    ensures states[|steps|].calls == map[] && PrefOf(states[|steps|]) == Full(Set(slot, Load(PrefOf(s)), engine))
  {
    states, steps := [s], [];
    states, steps := Extend(states, steps, Begin(id, slot, engine));
    states, steps := Extend(states, steps, ReadFile(id));
    states, steps := Extend(states, steps, Truncate(id));
    states, steps := Extend(states, steps, Write(id));
    AloneHolds(id, slot, engine, states, steps, |steps|);
    assert HoldsItsTemp(states[|steps|], states[|steps|].calls[id]);
    var written := states[|steps|];
    states, steps := Extend(states, steps, Rename(id));
    StepOnTheFile(PrefOf(s), written, Rename(id));
    assert written.calls - {id} == map[];
  }

  // ---------- what does not hold ----------

  lemma Extend(states: seq<State>, steps: seq<Step>, step: Step) returns (states': seq<State>, steps': seq<Step>)
    requires Run(states, steps) && Enabled(states[|steps|], step)
    ensures Run(states', steps') && states'[0] == states[0]
    ensures steps' == steps + [step] && states'[|steps'|] == Apply(states[|steps|], step)
    ensures states'[|steps|] == states[|steps|]
    ensures PoliteRun(states, steps) && Polite(states[|steps|], step) ==> PoliteRun(states', steps')
  {
    states', steps' := states + [Apply(states[|steps|], step)], steps + [step];
  }

  // No files at all.
  function Fresh(json: Json<Prefs>): (s: State) {
    State(json, Fs(map[], []), map[], {}, {})
  }

  const AUTH_CHOICE := Prefs(Some("native"), None, None)
  const TUNNEL_CHOICE := Prefs(None, Some("gcloud"), None)

  lemma BothLoadThenFirstWrites(json: Json<Prefs>) returns (states: seq<State>, steps: seq<Step>)
    requires Sound(json)
    ensures PoliteRun(states, steps) && states[0] == Fresh(json)
    ensures
      var s := states[|steps|];
      && s.json == json && s.fs == Fs(map[Temp(Auth) := 0], [json.text(AUTH_CHOICE)])
      && s.calls == map[1 := Call(Auth, "native", Written(AUTH_CHOICE)), 2 := Call(Tunnel, "gcloud", Loaded(TUNNEL_CHOICE))]
      && (Auth, "native") in s.requested
  {
    states, steps := [Fresh(json)], [];
    states, steps := Extend(states, steps, Begin(1, Auth, "native"));
    states, steps := Extend(states, steps, Begin(2, Tunnel, "gcloud"));
    states, steps := Extend(states, steps, ReadFile(1));
    states, steps := Extend(states, steps, ReadFile(2));
    assert states[|steps|].calls == map[1 := Call(Auth, "native", Loaded(AUTH_CHOICE)), 2 := Call(Tunnel, "gcloud", Loaded(TUNNEL_CHOICE))];
    states, steps := Extend(states, steps, Truncate(1));
    assert states[|steps|].fs == Fs(map[Temp(Auth) := 0], [[]]);
    OverlayOnNoLonger([], json.text(AUTH_CHOICE));
    states, steps := Extend(states, steps, Write(1));
    assert states[|steps|].fs == Fs(map[Temp(Auth) := 0], [json.text(AUTH_CHOICE)]);
  }

  // Two polite calls for different slots can lose an update: both load before either renames, both
  // rename, and the choice stored first is gone although its call succeeded.
  lemma OverlapCanLoseAnUpdate(json: Json<Prefs>) returns (states: seq<State>, steps: seq<Step>)
    requires Sound(json)
    ensures PoliteRun(states, steps) && Starts(states[0])
    ensures Rename(1) in steps && Rename(2) in steps && (Auth, "native") in states[|steps|].requested
    ensures states[|steps|].calls == map[] && Get(Auth, Load(PrefOf(states[|steps|]))) == None
  {
    states, steps := BothLoadThenFirstWrites(json);
    states, steps := Extend(states, steps, Truncate(2));
    var auth, tunnel := json.text(AUTH_CHOICE), json.text(TUNNEL_CHOICE);
    assert states[|steps|].fs == Fs(map[Temp(Auth) := 0, Temp(Tunnel) := 1], [auth, []]);
    OverlayOnNoLonger([], tunnel);
    states, steps := Extend(states, steps, Write(2));
    assert states[|steps|].fs == Fs(map[Temp(Auth) := 0, Temp(Tunnel) := 1], [auth, tunnel]);
    states, steps := Extend(states, steps, Rename(1));
    states, steps := Extend(states, steps, Rename(2));
    assert states[|steps|].fs == Fs(map[Pref := 1], [auth, tunnel]);
    assert PrefOf(states[|steps|]) == Full(TUNNEL_CHOICE);
  }
}
