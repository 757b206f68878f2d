// The one-at-a-time account operations are runs of the concurrent protocol: each has a run in which only
// its own task moves and that ends in the store the operation leaves.
module AccountRuns {
  import opened Wrappers
  import opened EnginePref
  import opened Files
  import opened TokenCache
  import opened TokenCacheSwitch
  import opened Accounts

  function StoreOf(s: State): (store: Store) {
    Store(s.keyring, LoadIndex(OnDisk(s)), s.cache)
  }

  // The task is in the middle of nothing and nobody holds the lock.
  ghost predicate Quiet(s: State, t: TaskId) {
    Sound(s.json) && Sane(s.fs) && t in s.tasks && s.tasks[t].Idle? && s.holder.None?
  }

  predicate OnlyMoves(t: TaskId, steps: seq<Step>) {
    forall i | 0 <= i < |steps| :: !steps[i].Tick? && steps[i].t == t
  }

  lemma Move(states: seq<State>, steps: seq<Step>, t: TaskId, step: Step) returns (states': seq<State>, steps': seq<Step>)
    requires Run(states, steps) && OnlyMoves(t, steps) && Enabled(states[|steps|], step) && !step.Tick? && step.t == t
    ensures Run(states', steps') && OnlyMoves(t, steps') && states'[0] == states[0]
    ensures steps' == steps + [step] && states'[|steps'|] == Apply(states[|steps|], step)
  {
    states', steps' := Extend(states, steps, step);
  }

  // From a change whose new index is decided to its clear: the index is written through the temp file.
  lemma WriteAndClear(states: seq<State>, steps: seq<Step>, t: TaskId) returns (states': seq<State>, steps': seq<Step>)
    requires Run(states, steps) && OnlyMoves(t, steps)
    requires t in states[|steps|].tasks && states[|steps|].tasks[t].WritingTmp? && !states[|steps|].tasks[t].change.Prune?
    requires states[|steps|].holder.None? && Sound(states[|steps|].json) && Sane(states[|steps|].fs)
    ensures Run(states', steps') && OnlyMoves(t, steps') && states'[0] == states[0]
    ensures
      var s, r := states[|steps|], states'[|steps'|];
      && r.keyring == s.keyring && OnDisk(r) == Holds(s.tasks[t].next) && r.cache.None? && r.holder.None?
      && Sound(r.json) && Sane(r.fs)
      && r.tasks == s.tasks[t := Idle] && r.engine == s.engine && r.served == s.served
  {
    var s := states[|steps|];
    var text := s.json.text(s.tasks[t].next);
    states', steps' := Move(states, steps, t, TruncateTmp(t));
    DoFrames(s.fs, Create(TempName), TempName);
    DoKeepsSane(s.fs, Create(TempName));
    states', steps' := FillAndPublish(states', steps', t);
    states', steps' := Move(states', steps', t, Clear(t));
    assert states'[|steps'|].tasks == s.tasks[t := Idle];
  }

  lemma FillAndPublish(states: seq<State>, steps: seq<Step>, t: TaskId) returns (states': seq<State>, steps': seq<Step>)
    requires Run(states, steps) && OnlyMoves(t, steps)
    requires
      var s := states[|steps|];
      && t in s.tasks && s.tasks[t].FinishingTmp? && !s.tasks[t].change.Prune? && Sound(s.json) && Sane(s.fs)
      && TempName in s.fs.names && s.fs.names[TempName] == s.tasks[t].file && Read(s.fs, TempName) == Some([])
    ensures Run(states', steps') && OnlyMoves(t, steps') && states'[0] == states[0]
    ensures
      var s, r := states[|steps|], states'[|steps'|];
      && r == s.(fs := r.fs, tasks := s.tasks[t := Clearing(s.tasks[t].change)])
      && Sane(r.fs) && OnDisk(r) == Holds(s.tasks[t].next)
  {
    var s := states[|steps|];
    var text := s.json.text(s.tasks[t].next);
    OverlayOnNoLonger([], text);
    states', steps' := Move(states, steps, t, FillTmp(t));
    DoFrames(s.fs, Fill(s.tasks[t].file, text), TempName);
    DoKeepsSane(s.fs, Fill(s.tasks[t].file, text));
    var filled := states'[|steps'|];
    states', steps' := Move(states', steps', t, Publish(t));
    DoFrames(filled.fs, Op.Move(TempName, IndexName), IndexName);
    DoKeepsSane(filled.fs, Op.Move(TempName, IndexName));
    assert states'[|steps'|].tasks == s.tasks[t := Clearing(s.tasks[t].change)];
  }

  lemma BeginChange(s: State, t: TaskId, change: Change) returns (states: seq<State>, steps: seq<Step>)
    requires Quiet(s, t) && !change.GcloudAccount?
    ensures Run(states, steps) && OnlyMoves(t, steps) && states[0] == s
    ensures states[|steps|] == AfterCredential(At(s, t, Changing(change)), t, change)
  {
    states, steps := [s], [];
    states, steps := Move(states, steps, t, Begin(t, change));
    states, steps := Move(states, steps, t, ChangeCredential(t));
  }

  // A switch to a known account.
  lemma SwitchIsARun(s: State, t: TaskId, email: Account) returns (states: seq<State>, steps: seq<Step>)
    requires Quiet(s, t) && email in LoadIndex(OnDisk(s)).accounts
    ensures Run(states, steps) && OnlyMoves(t, steps) && states[0] == s
    ensures states[|steps|].tasks == s.tasks && Quiet(states[|steps|], t)
    ensures (StoreOf(states[|steps|]), true) == AfterSwitch(StoreOf(s), Native, email, _ => true, true)
  {
    states, steps := BeginChange(s, t, Switch(email));
    states, steps := Move(states, steps, t, ReadIndex(t, {}));
    states, steps := WriteAndClear(states, steps, t);
  }

  lemma RemoveHasRead(s: State, t: TaskId, email: Account) returns (states: seq<State>, steps: seq<Step>)
    requires Quiet(s, t)
    ensures Run(states, steps) && OnlyMoves(t, steps) && states[0] == s
    ensures
      var next := IndexRemove(LoadIndex(OnDisk(s)), email);
      states[|steps|] == s.(keyring := s.keyring - {email}, tasks := s.tasks[t := WritingTmp(Remove(email), next, true)])
  {
    states, steps := BeginChange(s, t, Remove(email));
    states, steps := Move(states, steps, t, ReadIndex(t, {}));
    assert states[|steps|].tasks == s.tasks[t := WritingTmp(Remove(email), IndexRemove(LoadIndex(OnDisk(s)), email), true)];
  }

  // A removal whose I/O succeeds.
  lemma RemoveIsARun(s: State, t: TaskId, email: Account, io: RemovalIo) returns (states: seq<State>, steps: seq<Step>)
    requires Quiet(s, t) && io.engine.Native? && io.keyringOk && io.indexOk
    ensures Run(states, steps) && OnlyMoves(t, steps) && states[0] == s
    ensures states[|steps|].tasks == s.tasks && Quiet(states[|steps|], t)
    ensures (StoreOf(states[|steps|]), true) == AfterRemove(StoreOf(s), email, _ => true, io)
  {
    states, steps := RemoveHasRead(s, t, email);
    states, steps := WriteAndClear(states, steps, t);
  }

  // A removal whose index write fails: the credential is gone and the temp file has been touched, but
  // nothing else moved.
  lemma HalfRemoveIsARun(s: State, t: TaskId, email: Account, io: RemovalIo) returns (states: seq<State>, steps: seq<Step>)
    requires Quiet(s, t) && io.engine.Native? && io.keyringOk && !io.indexOk
    ensures Run(states, steps) && OnlyMoves(t, steps) && TruncateTmp(t) in steps && states[0] == s
    ensures states[|steps|].tasks == s.tasks && Quiet(states[|steps|], t)
    ensures (StoreOf(states[|steps|]), false) == AfterRemove(StoreOf(s), email, _ => true, io)
  {
    states, steps := RemoveHasRead(s, t, email);
    states, steps := Move(states, steps, t, TruncateTmp(t));
    DoFrames(s.fs, Create(TempName), IndexName);
    DoKeepsSane(s.fs, Create(TempName));
    states, steps := Move(states, steps, t, ChangeFails(t));
    assert states[|steps|].tasks == s.tasks;
  }

  // A sign-in that succeeds.
  lemma SignInIsARun(s: State, t: TaskId, email: Account) returns (states: seq<State>, steps: seq<Step>)
    requires Quiet(s, t)
    ensures Run(states, steps) && OnlyMoves(t, steps) && states[0] == s
    ensures states[|steps|].tasks == s.tasks && Quiet(states[|steps|], t)
    ensures (StoreOf(states[|steps|]), true) == AfterSignIn(StoreOf(s), email, true, true)
  {
    states, steps := SignInHasRead(s, t, email);
    states, steps := WriteAndClear(states, steps, t);
  }

  lemma SignInHasRead(s: State, t: TaskId, email: Account) returns (states: seq<State>, steps: seq<Step>)
    requires Quiet(s, t)
    ensures Run(states, steps) && OnlyMoves(t, steps) && states[0] == s
    ensures
      var index := LoadIndex(OnDisk(s));
      states[|steps|] == s.(
        keyring := s.keyring + {email},
        tasks := s.tasks[t := WritingTmp(SignIn(email), IndexUpsert(index, email), email in index.accounts)])
  {
    var index := LoadIndex(OnDisk(s));
    states, steps := BeginChange(s, t, SignIn(email));
    states, steps := Move(states, steps, t, ReadIndex(t, {}));
    assert states[|steps|].tasks == s.tasks[t := WritingTmp(SignIn(email), IndexUpsert(index, email), email in index.accounts)];
  }

  // A sign-in whose index write fails: a new account's credential is taken back out.
  lemma FailedSignInIsARun(s: State, t: TaskId, email: Account) returns (states: seq<State>, steps: seq<Step>)
    requires Quiet(s, t)
    ensures Run(states, steps) && OnlyMoves(t, steps) && TruncateTmp(t) in steps && states[0] == s
    ensures states[|steps|].tasks == s.tasks && Quiet(states[|steps|], t)
    ensures (StoreOf(states[|steps|]), false) == AfterSignIn(StoreOf(s), email, true, false)
  {
    states, steps := SignInHasRead(s, t, email);
    states, steps := Move(states, steps, t, TruncateTmp(t));
    DoFrames(s.fs, Create(TempName), IndexName);
    DoKeepsSane(s.fs, Create(TempName));
    states, steps := Move(states, steps, t, ChangeFails(t));
    assert states[|steps|].tasks == s.tasks;
    assert s.keyring + {email} - {email} == s.keyring - {email};
  }

  // A switch under the gcloud engine that gcloud carries out: LCC only drops its entry.
  lemma GcloudSwitchIsARun(s: State, t: TaskId, email: Account) returns (states: seq<State>, steps: seq<Step>)
    requires Quiet(s, t)
    ensures Run(states, steps) && OnlyMoves(t, steps) && states[0] == s
    ensures states[|steps|].tasks == s.tasks && Quiet(states[|steps|], t)
    ensures (StoreOf(states[|steps|]), true) == AfterSwitch(StoreOf(s), Gcloud, email, _ => true, true)
  {
    states, steps := [s], [];
    states, steps := Move(states, steps, t, Begin(t, GcloudAccount));
    states, steps := Move(states, steps, t, Clear(t));
  }

  // A listing: it writes the pruned index if that is another one, and clears nothing.
  lemma ListIsARun(s: State, t: TaskId, answering: set<Account>) returns (states: seq<State>, steps: seq<Step>)
    requires Quiet(s, t)
    ensures Run(states, steps) && OnlyMoves(t, steps) && states[0] == s
    ensures states[|steps|].tasks == s.tasks && Quiet(states[|steps|], t)
    ensures StoreOf(states[|steps|]) == AfterList(StoreOf(s), answering, true).0
  {
    states, steps := PruneHasRead(s, t, answering);
    if IndexKeep(LoadIndex(OnDisk(s)), answering) != LoadIndex(OnDisk(s)) {
      states, steps := Move(states, steps, t, TruncateTmp(t));
      DoFrames(s.fs, Create(TempName), TempName);
      DoKeepsSane(s.fs, Create(TempName));
      states, steps := FillAndPublishPrune(states, steps, t);
    }
    assert states[|steps|].tasks == s.tasks;
  }

  lemma PruneHasRead(s: State, t: TaskId, answering: set<Account>) returns (states: seq<State>, steps: seq<Step>)
    requires Quiet(s, t)
    ensures Run(states, steps) && OnlyMoves(t, steps) && states[0] == s
    ensures
      var index := LoadIndex(OnDisk(s));
      var kept := IndexKeep(index, answering);
      states[|steps|] == if kept == index then s else s.(tasks := s.tasks[t := WritingTmp(Prune, kept, true)])
  {
    states, steps := BeginChange(s, t, Prune);
    var changing := states[|steps|];
    states, steps := Move(states, steps, t, ReadIndex(t, answering));
    assert changing.tasks[t := Idle] == s.tasks;
  }

  lemma FillAndPublishPrune(states: seq<State>, steps: seq<Step>, t: TaskId) returns (states': seq<State>, steps': seq<Step>)
    requires Run(states, steps) && OnlyMoves(t, steps)
    requires
      var s := states[|steps|];
      && t in s.tasks && s.tasks[t].FinishingTmp? && s.tasks[t].change.Prune? && Sound(s.json) && Sane(s.fs)
      && TempName in s.fs.names && s.fs.names[TempName] == s.tasks[t].file && Read(s.fs, TempName) == Some([])
    ensures Run(states', steps') && OnlyMoves(t, steps') && states'[0] == states[0]
    ensures
      var s, r := states[|steps|], states'[|steps'|];
      && r == s.(fs := r.fs, tasks := s.tasks[t := Idle])
      && Sane(r.fs) && OnDisk(r) == Holds(s.tasks[t].next)
  {
    var s := states[|steps|];
    var text := s.json.text(s.tasks[t].next);
    OverlayOnNoLonger([], text);
    states', steps' := Move(states, steps, t, FillTmp(t));
    DoFrames(s.fs, Fill(s.tasks[t].file, text), TempName);
    DoKeepsSane(s.fs, Fill(s.tasks[t].file, text));
    var filled := states'[|steps'|];
    states', steps' := Move(states', steps', t, Publish(t));
    DoFrames(filled.fs, Op.Move(TempName, IndexName), IndexName);
    DoKeepsSane(filled.fs, Op.Move(TempName, IndexName));
    assert states'[|steps'|].tasks == s.tasks[t := Idle];
  }

  // A change of engine, with its clear if `set_engine` makes one; a call that begins then resolves the new
  // engine.
  lemma EngineChangeIsARun(s: State, t: TaskId, engine: Engine) returns (states: seq<State>, steps: seq<Step>)
    requires Quiet(s, t)
    ensures Run(states, steps) && OnlyMoves(t, steps) && states[0] == s
    ensures states[|steps|].tasks == s.tasks && Quiet(states[|steps|], t)
    ensures states[|steps|].engine == engine
    ensures StoreOf(states[|steps|]) == if s.clearsOnEngineChange then StoreOf(s).(cache := None) else StoreOf(s)
    ensures Enabled(states[|steps|], Call(t)) && Apply(states[|steps|], Call(t)).tasks[t] == Waiting(engine)
  {
    states, steps := BeginChange(s, t, EngineTo(engine));
    if s.clearsOnEngineChange {
      states, steps := Move(states, steps, t, Clear(t));
    }
    assert states[|steps|].tasks == s.tasks;
  }

  // ---------- the getter ----------

  // Nobody holds the lock and task `t` has resolved its engine.
  ghost predicate AboutToLock(s: State, t: TaskId) {
    Sound(s.json) && Sane(s.fs) && t in s.tasks && s.tasks[t].Waiting? && s.holder.None?
  }

  predicate Usable(s: State, engine: Engine) {
    s.cache.Some? && s.cache.value.IsUsableFor(engine, s.clock)
  }

  // The last token handed out.
  predicate Served(s: State, r: State, token: Option<Token>) {
    if token.None? then r.served == s.served
    else |r.served| == |s.served| + 1 && r.served[|s.served|].token == token.value
  }

  lemma HitIsARun(s: State, t: TaskId, io: MintIo) returns (r: State)
    requires AboutToLock(s, t) && Usable(s, s.tasks[t].engine)
    ensures r == Apply(Apply(s, Lock(t)), Hit(t)) && Quiet(r, t)
    ensures
      var (store, token) := AfterGet(StoreOf(s), s.tasks[t].engine, s.clock, io);
      StoreOf(r) == store && Served(s, r, token)
  {
    r := Apply(Apply(s, Lock(t)), Hit(t));
  }

  // A native mint whose answer arrives in time, for whichever account is active when it starts.
  lemma NativeMintIsARun(s: State, t: TaskId, io: MintIo) returns (r: State)
    requires AboutToLock(s, t) && s.tasks[t].engine.Native? && !Usable(s, Native)
    requires Active(s).Some? && Active(s).value in s.keyring && io.refresh.Some?
    requires s.clock <= io.refresh.value.0 <= io.arrives <= s.clock + REFRESH_TIMEOUT
    ensures
      var sent := Apply(Apply(Apply(Apply(s, Lock(t)), Miss(t)), ReadActive(t)), LoadCredential(t));
      r == Apply(Apply(sent, Tick(io.arrives - s.clock)), RefreshOk(t, io.refresh.value.0, io.refresh.value.1)) && Quiet(r, t)
    ensures
      var (store, token) := AfterGet(StoreOf(s), Native, s.clock, io);
      && StoreOf(r) == store && Served(s, r, token)
      && token == Some(Token(Native, Active(s), io.refresh.value.0, io.refresh.value.1))
  {
    var sent := Apply(Apply(Apply(Apply(s, Lock(t)), Miss(t)), ReadActive(t)), LoadCredential(t));
    r := Apply(Apply(sent, Tick(io.arrives - s.clock)), RefreshOk(t, io.refresh.value.0, io.refresh.value.1));
  }

  // A gcloud mint: the CLI's token if it has one, and only else ADC's.
  lemma GcloudMintIsARun(s: State, t: TaskId, io: MintIo) returns (r: State)
    requires AboutToLock(s, t) && s.tasks[t].engine.Gcloud? && !Usable(s, Gcloud)
    requires io.cli.Some? || io.adc.Some?
    requires (if io.cli.Some? then io.cli else io.adc).value.engine.Gcloud?
    requires s.clock <= io.arrives
    ensures
      var asking := Apply(Apply(Apply(s, Lock(t)), Miss(t)), Tick(io.arrives - s.clock));
      r == if io.cli.Some? then Apply(asking, GcloudOk(t, io.cli.value))
           else Apply(Apply(asking, GcloudFails(t)), GcloudOk(t, io.adc.value))
    ensures Quiet(r, t)
    ensures
      var (store, token) := AfterGet(StoreOf(s), Gcloud, s.clock, io);
      StoreOf(r) == store && Served(s, r, token) && token == if io.cli.Some? then io.cli else io.adc
  {
    var asking := Apply(Apply(Apply(s, Lock(t)), Miss(t)), Tick(io.arrives - s.clock));
    r := if io.cli.Some? then Apply(asking, GcloudOk(t, io.cli.value))
         else Apply(Apply(asking, GcloudFails(t)), GcloudOk(t, io.adc.value));
  }

  // A call that gets nothing aborts and changes nothing.
  lemma FailedMintIsARun(s: State, t: TaskId, io: MintIo) returns (r: State)
    requires AboutToLock(s, t) && !Usable(s, s.tasks[t].engine) && NewToken(StoreOf(s), s.tasks[t].engine, io).None?
    ensures r == Apply(Apply(Apply(s, Lock(t)), Miss(t)), Abort(t)) && Quiet(r, t)
    ensures
      var (store, token) := AfterGet(StoreOf(s), s.tasks[t].engine, s.clock, io);
      StoreOf(r) == store && Served(s, r, token)
  {
    r := Apply(Apply(Apply(s, Lock(t)), Miss(t)), Abort(t));
  }
}
