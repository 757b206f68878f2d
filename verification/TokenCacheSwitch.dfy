// End-to-end statements about accounts: after a switch only the new account's tokens are served; listing
// the accounts, or two overlapping switches, can leave another account's token being served.
module TokenCacheSwitch {
  import opened Wrappers
  import opened EnginePref
  import opened Files
  import opened TokenCache
  import opened TokenCacheProofs

  predicate AccountChanging(pc: Pc) {
    (pc.Changing? || pc.ReadingIndex? || pc.WritingTmp? || pc.FinishingTmp? || pc.Publishing? || pc.Clearing?) &&
    pc.change.WritesIndex()
  }

  predicate StartsAccountChange(step: Step) {
    step.Begin? && step.change.WritesIndex()
  }

  // Task `t` is somewhere in `switch(email)`, or out of it, and no other account change is running.
  ghost predicate Switching(s: State, t: TaskId, email: Account) {
    && DiskInv(s)
    && t in s.tasks
    && (forall u | u in s.tasks && u != t :: !AccountChanging(s.tasks[u]))
    && PublishingOnlyIndexChanges(s)
    && var pc := s.tasks[t];
       AccountChanging(pc) ==>
         && pc.change == Switch(email)
         && (pc.WritingTmp? || pc.FinishingTmp? || pc.Publishing? ==> pc.next.active == Some(email))
         && (pc.FinishingTmp? ==>
               TempName in s.fs.names && s.fs.names[TempName] == pc.file && Read(s.fs, TempName) == Some([]))
         && (pc.Publishing? ==> Read(s.fs, TempName) == Some(s.json.text(pc.next)))
         && (pc.Clearing? ==> Active(s) == Some(email))
  }

  lemma OthersKeepSwitching(s: State, step: Step, t: TaskId, email: Account)
    requires Switching(s, t, email) && Enabled(s, step) && !StartsAccountChange(step)
    requires step.Tick? || step.t != t
    ensures Switching(Apply(s, step), t, email)
  {
    StepKeepsPublishing(s, step);
    StepKeepsDisk(s, step);
    var r := Apply(s, step);
    assert r.fs == s.fs && r.tasks[t] == s.tasks[t];
  }

  lemma OwnStepKeepsSwitching(s: State, step: Step, t: TaskId, email: Account)
    requires Switching(s, t, email) && Enabled(s, step) && !StartsAccountChange(step)
    requires !step.Tick? && step.t == t
    ensures Switching(Apply(s, step), t, email)
  {
    StepKeepsPublishing(s, step);
    StepKeepsDisk(s, step);
    DoFrames(s.fs, OpOf(s, step), TempName);
    DoFrames(s.fs, OpOf(s, step), IndexName);
    if step.FillTmp? {
      OverlayOnNoLonger([], s.json.text(s.tasks[t].next));
    }
    var r := Apply(s, step);
    assert forall u | u in r.tasks && u != t :: u in s.tasks && r.tasks[u] == s.tasks[u];
  }

  lemma StepKeepsSwitching(s: State, step: Step, t: TaskId, email: Account)
    requires Switching(s, t, email) && Enabled(s, step) && !StartsAccountChange(step)
    ensures Switching(Apply(s, step), t, email)
  {
    if step.Tick? || step.t != t {
      OthersKeepSwitching(s, step, t, email);
    } else {
      OwnStepKeepsSwitching(s, step, t, email);
    }
  }

  // No account change is running, `email` is active, and so are its tokens.
  ghost predicate Settled(s: State, email: Account) {
    && DiskInv(s)
    && (forall u | u in s.tasks :: !AccountChanging(s.tasks[u]))
    && PublishingOnlyIndexChanges(s)
    && Active(s) == Some(email) && Consistent(s)
  }

  lemma ClearSettles(s: State, t: TaskId, email: Account)
    requires LockInv(s) && Switching(s, t, email) && s.tasks[t] == Clearing(Switch(email)) && Enabled(s, Clear(t))
    ensures Settled(Apply(s, Clear(t)), email)
  {
    var r := Apply(s, Clear(t));
    assert forall u | u in r.tasks :: u == t || r.tasks[u] == s.tasks[u];
    assert forall u | u in s.tasks :: !s.tasks[u].InSection();
  }

  // Every native token in `after` that is not yet in `before` is `email`'s.
  predicate NewTokensAre(email: Account, before: seq<Serving>, after: seq<Serving>) {
    before <= after &&
    forall k | |before| <= k < |after| && after[k].engine.Native? :: after[k].token.account == Some(email)
  }

  lemma StepKeepsSettled(s: State, step: Step, email: Account)
    requires LockInv(s) && Settled(s, email) && Enabled(s, step) && !StartsAccountChange(step)
    ensures Settled(Apply(s, step), email)
    ensures NewTokensAre(email, s.served, Apply(s, step).served)
  {
    assert !step.Publish? && !step.FillTmp?;
    StepKeepsDisk(s, step);
    IndexStaysPut(s, step);
    OtherStepsKeepConsistent(s, step);
    StepKeepsPublishing(s, step);
    StepServesTheActives(s, step, email);
  }

  lemma StepServesTheActives(s: State, step: Step, email: Account)
    requires Consistent(s) && Active(s) == Some(email) && Enabled(s, step)
    ensures NewTokensAre(email, s.served, Apply(s, step).served)
  {
    if step.RefreshOk? {
      assert MintAccount(s.tasks[step.t]) == Active(s);
    }
  }

  lemma {:induction false} SwitchingHolds(states: seq<State>, steps: seq<Step>, p: nat, n: nat, t: TaskId, email: Account)
    requires Run(states, steps) && p <= n < |states|
    requires Switching(states[p], t, email)
    requires forall i | p <= i < n :: !StartsAccountChange(steps[i])
    ensures Switching(states[n], t, email)
  {
    if n == p {
    } else {
      SwitchingHolds(states, steps, p, n - 1, t, email);
      StepKeepsSwitching(states[n - 1], steps[n - 1], t, email);
    }
  }

  lemma SettledOneStep(states: seq<State>, steps: seq<Step>, n: nat, email: Account)
    requires Run(states, steps) && Start(states[0]) && n < |steps|
    requires Settled(states[n], email) && !StartsAccountChange(steps[n])
    ensures Settled(states[n + 1], email) && NewTokensAre(email, states[n].served, states[n + 1].served)
  {
    InvHolds(states, steps, n);
    StepKeepsSettled(states[n], steps[n], email);
  }

  lemma {:induction false} SettledHolds(states: seq<State>, steps: seq<Step>, p: nat, n: nat, email: Account)
    requires Run(states, steps) && Start(states[0]) && p <= n < |states|
    requires Settled(states[p], email)
    requires forall i | p <= i < n :: !StartsAccountChange(steps[i])
    ensures Settled(states[n], email) && NewTokensAre(email, states[p].served, states[n].served)
  {
    if n == p {
    } else {
      SettledHolds(states, steps, p, n - 1, email);
      SettledOneStep(states, steps, n - 1, email);
      NewTokensChain(email, states[p].served, states[n - 1].served, states[n].served);
    }
  }

  lemma NewTokensChain(email: Account, a: seq<Serving>, b: seq<Serving>, c: seq<Serving>)
    requires NewTokensAre(email, a, b) && NewTokensAre(email, b, c)
    ensures NewTokensAre(email, a, c)
  {
    forall k | |a| <= k < |c| && c[k].engine.Native?
      ensures c[k].token.account == Some(email)
    {
      if k < |b| {
        assert b[k] == c[k];
      }
    }
  }

  // A `switch(email)` starts at state `p` with no other account change running, and reaches its clear at
  // step `c`, so it returns Ok. As long as no further account change starts, every native token served
  // after that clear is `email`'s, whatever the getters and the engine changes around it did.
  lemma AfterSwitchOnlyTheTargetIsServed(
      states: seq<State>, steps: seq<Step>, p: nat, c: nat, n: nat, k: nat, t: TaskId, email: Account)
    requires Run(states, steps) && Start(states[0]) && p <= c < n < |states|
    requires t in states[p].tasks && states[p].tasks[t] == Changing(Switch(email))
    requires forall u | u in states[p].tasks && u != t :: !AccountChanging(states[p].tasks[u])
    requires forall i | p <= i < n :: !StartsAccountChange(steps[i])
    requires steps[c] == Clear(t) && states[c].tasks[t].change == Switch(email)
    requires |states[c + 1].served| <= k < |states[n].served| && states[n].served[k].engine.Native?
    ensures states[n].served[k].token.account == Some(email)
  {
    InvHolds(states, steps, p);
    SwitchingHolds(states, steps, p, c, t, email);
    InvHolds(states, steps, c);
    ClearSettles(states[c], t, email);
    SettledHolds(states, steps, c + 1, n, email);
  }

  // ---------- what does not hold ----------

  // No account change but switches: in particular no listing.
  predicate OnlySwitches(steps: seq<Step>) {
    forall i | 0 <= i < |steps| && steps[i].Begin? :: steps[i].change.Switch?
  }

  lemma Extend(states: seq<State>, steps: seq<Step>, step: Step) returns (states': seq<State>, steps': seq<Step>)
    requires Run(states, steps) && Enabled(states[|steps|], step)
    ensures Run(states', steps') && states'[0] == states[0]
    ensures steps' == steps + [step] && states'[|steps'|] == Apply(states[|steps|], step)
    ensures OnlySwitches(steps) && (step.Begin? ==> step.change.Switch?) ==> OnlySwitches(steps')
  {
    states', steps' := states + [Apply(states[|steps|], step)], steps + [step];
  }

  function OnlyAccount(email: Account): (index: Index) {
    Index([email], Some(email))
  }

  // One account signed in, two tasks, nothing cached.
  ghost function SignedIn(json: Json<Index>, index: Index): (s: State)
    requires Sound(json)
    ensures Start(s) && OnDisk(s) == Holds(index)
  {
    var fs := Fs(map[IndexName := 0], [json.text(index)]);
    State(0, Native, json, fs, Members(index), None, None, map[1 := Idle, 2 := Idle, 3 := Idle], true, [], [])
  }

  function Members(index: Index): (accounts: set<Account>) {
    set a | a in index.accounts
  }

  function FreshToken(email: Account): (token: Token) {
    Token(Native, Some(email), 0, 3_600_000)
  }

  lemma MissCache(states: seq<State>, steps: seq<Step>) returns (states': seq<State>, steps': seq<Step>)
    requires Run(states, steps)
    requires
      var s := states[|steps|];
      1 in s.tasks && s.tasks[1].Idle? && s.holder.None? && s.cache.None? && s.engine.Native?
    ensures Run(states', steps') && states'[0] == states[0]
    ensures OnlySwitches(steps) ==> OnlySwitches(steps')
    ensures
      var s := states[|steps|];
      states'[|steps'|] == s.(holder := Some(1), tasks := s.tasks[1 := ReadingActive])
  {
    states', steps' := Extend(states, steps, Call(1));
    states', steps' := Extend(states', steps', Lock(1));
    states', steps' := Extend(states', steps', Miss(1));
    assert states'[|steps'|].tasks == states[|steps|].tasks[1 := ReadingActive];
  }

  // Task 1 gets a token of the active account, and it is cached.
  lemma CacheToken(states: seq<State>, steps: seq<Step>, email: Account) returns (states': seq<State>, steps': seq<Step>)
    requires Run(states, steps)
    requires
      var s := states[|steps|];
      && 1 in s.tasks && s.tasks[1].Idle? && s.holder.None? && s.cache.None? && s.engine.Native? && s.clock == 0
      && Active(s) == Some(email) && email in s.keyring
    ensures Run(states', steps') && states'[0] == states[0]
    ensures OnlySwitches(steps) ==> OnlySwitches(steps')
    ensures
      var s, r := states[|steps|], states'[|steps'|];
      r == s.(
        cache := Some(CachedToken(FreshToken(email), 0, Native)), log := s.log + [Minted(Native, 0)],
        served := s.served + [Serving(Native, FreshToken(email), 0, 0)])
  {
    states', steps' := MissCache(states, steps);
    states', steps' := Extend(states', steps', ReadActive(1));
    states', steps' := Extend(states', steps', LoadCredential(1));
    states', steps' := Extend(states', steps', RefreshOk(1, 0, 3_600_000));
    assert states'[|steps'|].tasks == states[|steps|].tasks;
  }

  // Task 1 is served the cached token.
  lemma ServeToken(states: seq<State>, steps: seq<Step>, email: Account) returns (states': seq<State>, steps': seq<Step>)
    requires Run(states, steps)
    requires
      var s := states[|steps|];
      && 1 in s.tasks && s.tasks[1].Idle? && s.holder.None? && s.engine.Native? && s.clock == 0
      && s.cache == Some(CachedToken(FreshToken(email), 0, Native))
    ensures Run(states', steps') && states'[0] == states[0]
    ensures OnlySwitches(steps) ==> OnlySwitches(steps')
    ensures steps' != [] && steps'[|steps'| - 1] == Hit(1)
    ensures
      var s, r := states[|steps|], states'[|steps'|];
      r == s.(served := s.served + [Serving(Native, FreshToken(email), 0, 0)])
  {
    states', steps' := Extend(states, steps, Call(1));
    states', steps' := Extend(states', steps', Lock(1));
    states', steps' := Extend(states', steps', Hit(1));
    assert states'[|steps'|].tasks == states[|steps|].tasks;
  }

  // `remove` deletes the credential, then fails to write the index, and so returns without a clear.
  lemma RemovalFailsHalfway(json: Json<Index>, email: Account) returns (states: seq<State>, steps: seq<Step>)
    requires Sound(json)
    ensures Run(states, steps) && states[0] == SignedIn(json, OnlyAccount(email))
    ensures
      var start, s := SignedIn(json, OnlyAccount(email)), states[|steps|];
      s == start.(keyring := {}, cache := s.cache, log := s.log, served := s.served)
      && s.cache == Some(CachedToken(FreshToken(email), 0, Native))
  {
    states, steps := [SignedIn(json, OnlyAccount(email))], [];
    states, steps := CacheToken(states, steps, email);
    states, steps := Extend(states, steps, Begin(2, Remove(email)));
    states, steps := Extend(states, steps, ChangeCredential(2));
    states, steps := Extend(states, steps, ChangeFails(2));
    assert states[|steps|].tasks == map[1 := Idle, 2 := Idle, 3 := Idle];
    assert states[|steps|].keyring == {};
  }

  lemma ListingFindsNothing(json: Json<Index>, email: Account) returns (states: seq<State>, steps: seq<Step>)
    requires Sound(json)
    ensures Run(states, steps) && states[0] == SignedIn(json, OnlyAccount(email))
    ensures
      var start, s := SignedIn(json, OnlyAccount(email)), states[|steps|];
      && s == start.(keyring := {}, cache := s.cache, log := s.log, served := s.served, tasks := s.tasks)
      && s.cache == Some(CachedToken(FreshToken(email), 0, Native))
      && s.tasks == map[1 := Idle, 2 := WritingTmp(Prune, Index([], None), true), 3 := Idle]
  {
    states, steps := RemovalFailsHalfway(json, email);
    states, steps := Extend(states, steps, Begin(2, Prune));
    states, steps := Extend(states, steps, ChangeCredential(2));
    assert [email][1..] == [] && Retain([email], {}) == [];
    states, steps := Extend(states, steps, ReadIndex(2, {}));
    assert states[|steps|].tasks == map[1 := Idle, 2 := WritingTmp(Prune, Index([], None), true), 3 := Idle];
  }

  // An undisturbed task writes its index through the temp file and is about to rename it.
  lemma WriteTmp(states: seq<State>, steps: seq<Step>, t: TaskId) returns (states': seq<State>, steps': seq<Step>)
    requires Run(states, steps)
    requires
      var s := states[|steps|];
      t in s.tasks && s.tasks[t].WritingTmp? && Sane(s.fs) && TempName !in s.fs.names
    ensures Run(states', steps') && states'[0] == states[0]
    ensures
      var s, r := states[|steps|], states'[|steps'|];
      var pc := s.tasks[t];
      r == s.(
        fs := Fs(s.fs.names[TempName := |s.fs.data|], s.fs.data + [s.json.text(pc.next)]),
        tasks := s.tasks[t := Publishing(pc.change, pc.next, pc.known)])
  {
    var s := states[|steps|];
    var text := s.json.text(s.tasks[t].next);
    states', steps' := Extend(states, steps, TruncateTmp(t));
    assert states'[|steps'|].fs == Fs(s.fs.names[TempName := |s.fs.data|], s.fs.data + [[]]);
    OverlayOnNoLonger([], text);
    states', steps' := Extend(states', steps', FillTmp(t));
    assert states'[|steps'|].fs.data == s.fs.data + [text];
    assert states'[|steps'|].tasks == s.tasks[t := Publishing(s.tasks[t].change, s.tasks[t].next, s.tasks[t].known)];
  }

  // Listing the accounts then prunes the account whose credential is gone and clears no cache: its token
  // is still served while no account is active and no change is running.
  lemma ListingCanOrphanTheCachedToken(json: Json<Index>, email: Account) returns (states: seq<State>, steps: seq<Step>)
    requires Sound(json)
    ensures Run(states, steps) && Start(states[0])
    ensures steps != [] && steps[|steps| - 1] == Hit(1)
    ensures
      var s := states[|steps|];
      && s.served != [] && s.served[|s.served| - 1].token.account == Some(email)
      && Active(s) == None && !Fresh(s) && forall t | t in s.tasks :: s.tasks[t].Idle?
  {
    states, steps := ListingFindsNothing(json, email);
    states, steps := WriteTmp(states, steps, 2);
    states, steps := Extend(states, steps, Publish(2));
    assert states[|steps|].tasks == map[1 := Idle, 2 := Idle, 3 := Idle];
    var none := Index([], None);
    assert states[|steps|].fs == Fs(map[IndexName := 1], [json.text(OnlyAccount(email)), json.text(none)]);
    assert OnDisk(states[|steps|]) == Holds(none);
    states, steps := ServeToken(states, steps, email);
  }

  // ---------- two overlapping switches ----------

  // Both have read the index and both hold the temp file.
  lemma BothSwitchesHoldTheTempFile(json: Json<Index>, ana: Account, bob: Account) returns (states: seq<State>, steps: seq<Step>)
    requires Sound(json)
    ensures Run(states, steps) && OnlySwitches(steps) && states[0] == SignedIn(json, Index([ana, bob], None))
    ensures
      var start, s := SignedIn(json, Index([ana, bob], None)), states[|steps|];
      s == start.(
        fs := Fs(map[IndexName := 0, TempName := 1], [json.text(Index([ana, bob], None)), []]),
        tasks := map[
          1 := Idle,
          2 := FinishingTmp(Switch(ana), Index([ana, bob], Some(ana)), true, 1),
          3 := FinishingTmp(Switch(bob), Index([ana, bob], Some(bob)), true, 1)])
  {
    states, steps := BothSwitchesHaveRead(json, ana, bob);
    states, steps := Extend(states, steps, TruncateTmp(2));
    assert states[|steps|].fs == Fs(map[IndexName := 0, TempName := 1], [json.text(Index([ana, bob], None)), []]);
    states, steps := Extend(states, steps, TruncateTmp(3));
  }

  lemma BothSwitchesHaveRead(json: Json<Index>, ana: Account, bob: Account) returns (states: seq<State>, steps: seq<Step>)
    requires Sound(json)
    ensures Run(states, steps) && OnlySwitches(steps) && states[0] == SignedIn(json, Index([ana, bob], None))
    ensures
      states[|steps|] == SignedIn(json, Index([ana, bob], None)).(tasks := map[
        1 := Idle,
        2 := WritingTmp(Switch(ana), Index([ana, bob], Some(ana)), true),
        3 := WritingTmp(Switch(bob), Index([ana, bob], Some(bob)), true)])
  {
    states, steps := [SignedIn(json, Index([ana, bob], None))], [];
    states, steps := ReadForSwitch(states, steps, 2, ana);
    states, steps := ReadForSwitch(states, steps, 3, bob);
    assert states[|steps|].tasks == map[
      1 := Idle,
      2 := WritingTmp(Switch(ana), Index([ana, bob], Some(ana)), true),
      3 := WritingTmp(Switch(bob), Index([ana, bob], Some(bob)), true)];
  }

  lemma ReadForSwitch(states: seq<State>, steps: seq<Step>, t: TaskId, email: Account)
    returns (states': seq<State>, steps': seq<Step>)
    requires Run(states, steps)
    requires
      var s := states[|steps|];
      t in s.tasks && s.tasks[t].Idle? && email in LoadIndex(OnDisk(s)).accounts
    ensures Run(states', steps') && states'[0] == states[0]
    ensures OnlySwitches(steps) ==> OnlySwitches(steps')
    ensures
      var s := states[|steps|];
      states'[|steps'|] == s.(tasks := s.tasks[t := WritingTmp(Switch(email), LoadIndex(OnDisk(s)).(active := Some(email)), true)])
  {
    var s := states[|steps|];
    states', steps' := Extend(states, steps, Begin(t, Switch(email)));
    states', steps' := Extend(states', steps', ChangeCredential(t));
    states', steps' := Extend(states', steps', ReadIndex(t, {}));
    assert states'[|steps'|].tasks == s.tasks[t := WritingTmp(Switch(email), LoadIndex(OnDisk(s)).(active := Some(email)), true)];
  }

  // The first switch is through: it has renamed the temp file and cleared the cache.
  lemma FirstSwitchIsThrough(json: Json<Index>, ana: Account, bob: Account) returns (states: seq<State>, steps: seq<Step>)
    requires Sound(json)
    ensures Run(states, steps) && OnlySwitches(steps) && states[0] == SignedIn(json, Index([ana, bob], None))
    ensures
      var start, s := SignedIn(json, Index([ana, bob], None)), states[|steps|];
      s == start.(
        fs := Fs(map[IndexName := 1], [json.text(Index([ana, bob], None)), json.text(Index([ana, bob], Some(ana)))]),
        log := s.log,
        tasks := map[1 := Idle, 2 := Idle, 3 := FinishingTmp(Switch(bob), Index([ana, bob], Some(bob)), true, 1)])
  {
    states, steps := BothSwitchesHoldTheTempFile(json, ana, bob);
    var first, anas := json.text(Index([ana, bob], None)), json.text(Index([ana, bob], Some(ana)));
    OverlayOnNoLonger([], anas);
    states, steps := Extend(states, steps, FillTmp(2));
    assert states[|steps|].fs == Fs(map[IndexName := 0, TempName := 1], [first, anas]);
    states, steps := Extend(states, steps, Publish(2));
    assert states[|steps|].fs == Fs(map[IndexName := 1], [first, anas]);
    states, steps := Extend(states, steps, Clear(2));
    assert states[|steps|].tasks == map[1 := Idle, 2 := Idle, 3 := FinishingTmp(Switch(bob), Index([ana, bob], Some(bob)), true, 1)];
  }

  // The first one's token is cached, and the second then writes into the index in place.
  lemma SecondSwitchWritesInPlace(json: Json<Index>, ana: Account, bob: Account) returns (states: seq<State>, steps: seq<Step>)
    requires Sound(json) && ana != bob
    requires |json.text(Index([ana, bob], Some(ana)))| <= |json.text(Index([ana, bob], Some(bob)))|
    ensures Run(states, steps) && OnlySwitches(steps) && states[0] == SignedIn(json, Index([ana, bob], None))
    ensures
      var start, s := SignedIn(json, Index([ana, bob], None)), states[|steps|];
      && s == start.(fs := s.fs, cache := s.cache, log := s.log, served := s.served, tasks := s.tasks)
      && OnDisk(s) == Holds(Index([ana, bob], Some(bob))) && s.cache == Some(CachedToken(FreshToken(ana), 0, Native))
      && TempName !in s.fs.names
      && s.tasks == map[1 := Idle, 2 := Idle, 3 := Publishing(Switch(bob), Index([ana, bob], Some(bob)), true)]
  {
    states, steps := FirstSwitchIsThrough(json, ana, bob);
    var anas, bobs := json.text(Index([ana, bob], Some(ana))), json.text(Index([ana, bob], Some(bob)));
    assert Active(states[|steps|]) == Some(ana);
    states, steps := CacheToken(states, steps, ana);
    OverlayOnNoLonger(anas, bobs);
    states, steps := Extend(states, steps, FillTmp(3));
    assert states[|steps|].fs == Fs(map[IndexName := 1], [json.text(Index([ana, bob], None)), bobs]);
    assert states[|steps|].tasks == map[1 := Idle, 2 := Idle, 3 := Publishing(Switch(bob), Index([ana, bob], Some(bob)), true)];
  }

  // It fails to rename a temp file that is gone, returns an error and clears nothing: its account is active,
  // the first one's token is cached and served, and every task is idle. No listing is involved.
  lemma OverlappingSwitchesCanServeTheOtherAccount(json: Json<Index>, ana: Account, bob: Account)
    returns (states: seq<State>, steps: seq<Step>)
    requires Sound(json) && ana != bob
    requires |json.text(Index([ana, bob], Some(ana)))| <= |json.text(Index([ana, bob], Some(bob)))|
    ensures Run(states, steps) && OnlySwitches(steps) && Start(states[0])
    ensures steps != [] && steps[|steps| - 1] == Hit(1)
    ensures
      var s := states[|steps|];
      && s.served != [] && s.served[|s.served| - 1].token.account == Some(ana)
      && Active(s) == Some(bob) && !Fresh(s) && forall t | t in s.tasks :: s.tasks[t].Idle?
  {
    states, steps := SecondSwitchWritesInPlace(json, ana, bob);
    states, steps := Extend(states, steps, ChangeFails(3));
    assert states[|steps|].tasks == map[1 := Idle, 2 := Idle, 3 := Idle];
    states, steps := ServeToken(states, steps, ana);
  }
}
