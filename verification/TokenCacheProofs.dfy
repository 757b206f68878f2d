// What every run of the token-cache protocol guarantees, and the one thing it does not.
module TokenCacheProofs {
  import opened Wrappers
  import opened EnginePref
  import opened Files
  import opened TokenCache

  // ---------- the lock ----------

  predicate LockInv(s: State) {
    && (forall t | t in s.tasks :: s.tasks[t].InSection() <==> s.holder == Some(t))
    && (s.holder.Some? ==> s.holder.value in s.tasks)
  }

  lemma StepKeepsLock(s: State, step: Step)
    requires LockInv(s) && Enabled(s, step)
    ensures LockInv(Apply(s, step))
  {
    var r := Apply(s, step);
    if !step.Tick? {
      assert r.tasks == s.tasks[step.t := r.tasks[step.t]];
      if step.Lock? {
        assert r.holder == Some(step.t);
      } else if r.tasks[step.t].InSection() {
        assert s.tasks[step.t].InSection() && r.holder == s.holder;
      } else {
        assert r.holder == if s.holder == Some(step.t) then None else s.holder;
      }
    }
  }

  // ---------- entries and the tokens served ----------

  predicate GoodEntry(c: CachedToken, now: nat) {
    && c.fetchedAt <= now
    && c.token.engine == c.engine
    && (c.engine.Native? ==> c.token.account.Some? && c.token.issuedAt <= c.fetchedAt <= c.token.issuedAt + REFRESH_TIMEOUT)
  }

  // Minted by the engine the caller resolved, and new or cached for less than the TTL.
  predicate GoodServing(r: Serving) {
    && r.token.engine == r.engine
    && r.entryAt <= r.at < r.entryAt + TOKEN_CACHE_TTL
    && (r.engine.Native? ==> r.token.account.Some? && r.token.issuedAt <= r.entryAt <= r.token.issuedAt + REFRESH_TIMEOUT)
  }

  // While a task mints for an engine, any entry of that engine has outlived the TTL.
  predicate MintsOnlyWhenStale(s: State) {
    forall t | t in s.tasks && s.tasks[t].Minting() && s.cache.Some? && s.cache.value.engine == s.tasks[t].MintEngine() ::
      s.cache.value.fetchedAt + TOKEN_CACHE_TTL <= s.clock
  }

  predicate EntryInv(s: State) {
    && (s.cache.Some? ==> GoodEntry(s.cache.value, s.clock))
    && MintsOnlyWhenStale(s)
    && (forall i | 0 <= i < |s.served| :: GoodServing(s.served[i]))
  }

  lemma StepKeepsCachedEntry(s: State, step: Step)
    requires EntryInv(s) && Enabled(s, step)
    ensures Apply(s, step).cache.Some? ==> GoodEntry(Apply(s, step).cache.value, Apply(s, step).clock)
  {
  }

  lemma StepKeepsStaleness(s: State, step: Step)
    requires LockInv(s) && EntryInv(s) && Enabled(s, step)
    ensures MintsOnlyWhenStale(Apply(s, step))
  {
    var r := Apply(s, step);
    forall t | t in r.tasks && r.tasks[t].Minting() && r.cache.Some? && r.cache.value.engine == r.tasks[t].MintEngine()
      ensures r.cache.value.fetchedAt + TOKEN_CACHE_TTL <= r.clock
    {
      assert s.holder == Some(t);
      assert r.cache == s.cache;
    }
  }

  lemma StepKeepsServings(s: State, step: Step)
    requires EntryInv(s) && Enabled(s, step)
    ensures forall i | 0 <= i < |Apply(s, step).served| :: GoodServing(Apply(s, step).served[i])
  {
  }

  // ---------- the log ----------

  predicate Spaced(log: seq<Event>) {
    forall i | 0 <= i < |log| - 1 && log[i].Minted? && log[i + 1].Minted? && log[i].engine == log[i + 1].engine ::
      log[i].at + TOKEN_CACHE_TTL <= log[i + 1].at
  }

  // The cache is what the last event left.
  predicate LogInv(s: State) {
    && Spaced(s.log)
    && (s.cache.None? <==> s.log == [] || s.log[|s.log| - 1].Cleared?)
    && (s.cache.Some? ==> s.log[|s.log| - 1] == Minted(s.cache.value.engine, s.cache.value.fetchedAt))
  }

  lemma MintKeepsLog(s: State, t: TaskId, engine: Engine, token: Token)
    requires LogInv(s) && (s.cache.Some? && s.cache.value.engine == engine ==> s.cache.value.fetchedAt + TOKEN_CACHE_TTL <= s.clock)
    ensures LogInv(Mint(s, t, engine, token))
  {
    assert Mint(s, t, engine, token).log[..|s.log|] == s.log;
  }

  lemma StepKeepsLog(s: State, step: Step)
    requires EntryInv(s) && LogInv(s) && Enabled(s, step)
    ensures LogInv(Apply(s, step))
  {
    var r := Apply(s, step);
    if step.RefreshOk? {
      MintKeepsLog(s, step.t, Native, Token(Native, Some(s.tasks[step.t].account), step.issuedAt, step.lifetime));
    } else if step.GcloudOk? {
      MintKeepsLog(s, step.t, Gcloud, step.token);
    } else if step.Clear? {
      assert r.log[..|s.log|] == s.log;
    } else {
      assert r.log == s.log && r.cache == s.cache;
    }
  }

  // ---------- what may be published ----------

  predicate PublishingOnlyIndexChanges(s: State) {
    forall t | t in s.tasks && (s.tasks[t].WritingTmp? || s.tasks[t].FinishingTmp? || s.tasks[t].Publishing?) ::
      s.tasks[t].change.WritesIndex()
  }

  lemma StepKeepsPublishing(s: State, step: Step)
    requires PublishingOnlyIndexChanges(s) && Enabled(s, step)
    ensures PublishingOnlyIndexChanges(Apply(s, step))
  {
  }

  ghost predicate DiskInv(s: State) {
    Sound(s.json) && Sane(s.fs)
  }

  lemma StepKeepsDisk(s: State, step: Step)
    requires DiskInv(s) && Enabled(s, step)
    ensures DiskInv(Apply(s, step))
  {
    DoKeepsSane(s.fs, OpOf(s, step));
  }

  ghost predicate Inv(s: State) {
    LockInv(s) && EntryInv(s) && LogInv(s) && PublishingOnlyIndexChanges(s) && DiskInv(s)
  }

  lemma {:induction false} InvHolds(states: seq<State>, steps: seq<Step>, n: nat)
    requires Run(states, steps) && Start(states[0]) && n < |states|
    ensures Inv(states[n])
  {
    if n == 0 {
    } else {
      InvHolds(states, steps, n - 1);
      StepKeepsLock(states[n - 1], steps[n - 1]);
      StepKeepsCachedEntry(states[n - 1], steps[n - 1]);
      StepKeepsStaleness(states[n - 1], steps[n - 1]);
      StepKeepsServings(states[n - 1], steps[n - 1]);
      StepKeepsLog(states[n - 1], steps[n - 1]);
      StepKeepsPublishing(states[n - 1], steps[n - 1]);
      StepKeepsDisk(states[n - 1], steps[n - 1]);
    }
  }

  // In every run, with or without the clear in `set_engine`: a token handed to a caller that resolved an
  // engine was minted by that engine, was fetched less than 300 s ago, and if it is native and lives at
  // least 330 s it has not expired.
  lemma ServedTokensAreRightAndAlive(states: seq<State>, steps: seq<Step>, n: nat, i: nat)
    requires Run(states, steps) && Start(states[0]) && n < |states| && i < |states[n].served|
    ensures
      var r := states[n].served[i];
      && r.token.engine == r.engine
      && r.at - r.entryAt < 300_000
      && (r.engine.Native? && r.token.lifetime >= 330_000 ==> r.at < r.token.issuedAt + r.token.lifetime)
  {
    InvHolds(states, steps, n);
  }

  // At most one mint is ever in progress, and it is the lock holder's.
  lemma OneMintAtATime(states: seq<State>, steps: seq<Step>, n: nat, a: TaskId, b: TaskId)
    requires Run(states, steps) && Start(states[0]) && n < |states|
    requires a in states[n].tasks && states[n].tasks[a].Minting() && b in states[n].tasks && states[n].tasks[b].Minting()
    ensures a == b && states[n].holder == Some(a)
  {
    InvHolds(states, steps, n);
  }

  // Two successive mints for one engine, with no clear and no other engine's mint between them, are at
  // least 300 s apart.
  lemma MintsAreSpaced(states: seq<State>, steps: seq<Step>, n: nat, i: nat)
    requires Run(states, steps) && Start(states[0]) && n < |states| && i + 1 < |states[n].log|
    requires states[n].log[i].Minted? && states[n].log[i + 1].Minted? && states[n].log[i].engine == states[n].log[i + 1].engine
    ensures states[n].log[i + 1].at - states[n].log[i].at >= 300_000
  {
    InvHolds(states, steps, n);
  }

  lemma HeldLockFreezesCache(states: seq<State>, steps: seq<Step>, t: TaskId, n: nat)
    requires Run(states, steps) && Start(states[0]) && n < |steps|
    requires steps[n] == Lock(t) || (states[n].holder == Some(t) && (steps[n] == Abort(t) || states[n + 1].holder == Some(t)))
    ensures states[n + 1].cache == states[n].cache && states[n + 1].served == states[n].served
  {
    InvHolds(states, steps, n);
  }

  // A call that takes the lock and fails leaves the cache as it found it, whatever ran meanwhile.
  lemma {:induction false} FailedMintLeavesCache(states: seq<State>, steps: seq<Step>, t: TaskId, i: nat, j: nat)
    requires Run(states, steps) && Start(states[0]) && i < j <= |steps|
    requires steps[i] == Lock(t) && forall k | i < k < j :: states[k].holder == Some(t)
    requires states[j].holder == Some(t) || (i < j - 1 && steps[j - 1] == Abort(t))
    ensures states[j].cache == states[i].cache && states[j].served == states[i].served
  {
    if i < j - 1 {
      FailedMintLeavesCache(states, steps, t, i, j - 1);
    }
    HeldLockFreezesCache(states, steps, t, j - 1);
  }

  // ---------- whose tokens ----------

  // Some account change has published its index and not yet cleared the cache.
  predicate PendingClear(s: State) {
    exists t | t in s.tasks :: s.tasks[t].Clearing? && s.tasks[t].change.WritesIndex()
  }

  function MintAccount(pc: Pc): (account: Option<Account>) {
    if pc.LoadingCredential? || pc.Refreshing? then Some(pc.account) else None
  }

  predicate NativeCached(s: State) {
    s.cache.Some? && s.cache.value.engine.Native?
  }

  predicate NativeInUse(s: State) {
    NativeCached(s) || exists t | t in s.tasks :: MintAccount(s.tasks[t]).Some?
  }

  // The cached native token and every native mint in progress belong to the active account.
  predicate Consistent(s: State) {
    && (NativeCached(s) ==> s.cache.value.token.account == Active(s))
    && (forall t | t in s.tasks && MintAccount(s.tasks[t]).Some? :: MintAccount(s.tasks[t]) == Active(s))
  }

  predicate Fresh(s: State) {
    PendingClear(s) || Consistent(s)
  }

  // The task's handle is on the file that another change has meanwhile renamed onto the index.
  predicate WritesIndexInPlace(s: State, step: Step)
    requires Enabled(s, step)
  {
    step.FillTmp? && IndexName in s.fs.names && s.fs.names[IndexName] == s.tasks[step.t].file
  }

  // The two steps that change the index and lead to no clear: publishing a prune, and writing into the
  // index in place, whose own rename may then fail.
  predicate ChangesIndexUncleared(s: State, step: Step)
    requires Enabled(s, step)
  {
    (step.Publish? && s.tasks[step.t].change.Prune?) || WritesIndexInPlace(s, step)
  }

  // Such a step moves the active account while a native token is cached or being minted and no clear is due.
  predicate MovesActiveUnderToken(s: State, step: Step)
    requires Enabled(s, step)
  {
    ChangesIndexUncleared(s, step) && Active(Apply(s, step)) != Active(s) && NativeInUse(s) && !PendingClear(s)
  }

  // No other step but publishing touches the index.
  lemma IndexStaysPut(s: State, step: Step)
    requires Sane(s.fs) && Enabled(s, step) && !step.Publish? && !WritesIndexInPlace(s, step)
    ensures OnDisk(Apply(s, step)) == OnDisk(s)
  {
    DoFrames(s.fs, OpOf(s, step), IndexName);
  }

  lemma PendingSurvives(s: State, step: Step)
    requires LockInv(s) && PendingClear(s) && Enabled(s, step)
    ensures PendingClear(Apply(s, step)) || (step.Clear? && Consistent(Apply(s, step)))
  {
    var t :| t in s.tasks && s.tasks[t].Clearing? && s.tasks[t].change.WritesIndex();
    var r := Apply(s, step);
    if step == Clear(t) {
      assert forall u | u in r.tasks :: u in s.tasks && !s.tasks[u].InSection();
    } else {
      assert t in r.tasks && r.tasks[t] == s.tasks[t];
    }
  }

  lemma PublishingOpensPending(s: State, t: TaskId)
    requires Enabled(s, Publish(t)) && s.tasks[t].change.WritesIndex() && !s.tasks[t].change.Prune?
    ensures PendingClear(Apply(s, Publish(t)))
  {
    assert Apply(s, Publish(t)).tasks[t].Clearing?;
  }

  lemma UnclearedKeepsOrBreaks(s: State, step: Step)
    requires LockInv(s) && Consistent(s) && !PendingClear(s) && Enabled(s, step) && ChangesIndexUncleared(s, step)
    ensures Fresh(Apply(s, step)) <==> !MovesActiveUnderToken(s, step)
  {
    var r := Apply(s, step);
    assert forall u | u in r.tasks && u != step.t :: r.tasks[u] == s.tasks[u];
    assert MintAccount(r.tasks[step.t]).None? && r.cache == s.cache && !PendingClear(r);
    if MovesActiveUnderToken(s, step) && !NativeCached(s) {
      var u :| u in s.tasks && MintAccount(s.tasks[u]).Some?;
      assert r.tasks[u] == s.tasks[u];
    }
  }

  lemma CachedTokenStaysActives(s: State, step: Step)
    requires Sane(s.fs) && Consistent(s) && Enabled(s, step) && !step.Publish? && !WritesIndexInPlace(s, step)
    ensures Active(Apply(s, step)) == Active(s)
    ensures NativeCached(Apply(s, step)) ==> Apply(s, step).cache.value.token.account == Active(s)
  {
    IndexStaysPut(s, step);
    if step.RefreshOk? {
      assert MintAccount(s.tasks[step.t]) == Active(s);
    }
  }

  lemma OtherStepsKeepConsistent(s: State, step: Step)
    requires Sane(s.fs) && Consistent(s) && Enabled(s, step) && !step.Publish? && !WritesIndexInPlace(s, step)
    ensures Consistent(Apply(s, step))
  {
    CachedTokenStaysActives(s, step);
    var r := Apply(s, step);
    forall t | t in r.tasks && MintAccount(r.tasks[t]).Some?
      ensures MintAccount(r.tasks[t]) == Active(r)
    {
      MintsStayActives(s, step, t);
    }
  }

  lemma MintsStayActives(s: State, step: Step, t: TaskId)
    requires Consistent(s) && Enabled(s, step) && !step.Publish?
    requires t in Apply(s, step).tasks && MintAccount(Apply(s, step).tasks[t]).Some?
    ensures MintAccount(Apply(s, step).tasks[t]) == Active(s)
  {
    if t in s.tasks && MintAccount(s.tasks[t]).Some? {
      assert MintAccount(s.tasks[t]) == Active(s);
    }
  }

  // Every step of every task, over any interleaving, keeps the cached native token and the native mints
  // in progress tied to the active account - unless an account change is between its publication and its
  // clear. The steps that do not are exactly the two that move the active account with no clear to come.
  lemma FreshnessKeptExactlyUnlessMoved(s: State, step: Step)
    requires LockInv(s) && PublishingOnlyIndexChanges(s) && DiskInv(s) && Fresh(s) && Enabled(s, step)
    ensures Fresh(Apply(s, step)) <==> !MovesActiveUnderToken(s, step)
  {
    if PendingClear(s) {
      PendingSurvives(s, step);
    } else if ChangesIndexUncleared(s, step) {
      UnclearedKeepsOrBreaks(s, step);
    } else if step.Publish? {
      PublishingOpensPending(s, step.t);
    } else {
      OtherStepsKeepConsistent(s, step);
    }
  }

  lemma FreshOneMore(states: seq<State>, steps: seq<Step>, n: nat)
    requires Run(states, steps) && Start(states[0]) && n < |steps| && Fresh(states[n])
    ensures Fresh(states[n + 1]) <==> !MovesActiveUnderToken(states[n], steps[n])
  {
    InvHolds(states, steps, n);
    FreshnessKeptExactlyUnlessMoved(states[n], steps[n]);
  }

  // So a run is fresh all the way exactly when it has no such step.
  lemma {:induction false} FreshnessHolds(states: seq<State>, steps: seq<Step>, n: nat)
    requires Run(states, steps) && Start(states[0]) && n < |states|
    ensures (forall k | 0 <= k <= n :: Fresh(states[k])) <==> (forall i | 0 <= i < n :: !MovesActiveUnderToken(states[i], steps[i]))
  {
    if n == 0 {
      assert Consistent(states[0]);
    } else {
      FreshnessHolds(states, steps, n - 1);
      if Fresh(states[n - 1]) {
        FreshOneMore(states, steps, n - 1);
      }
    }
  }
}
