// The process-wide access-token cache as a concurrent protocol: every task that gets a token, changes
// an account or changes the engine, one step at a time, over the token store's keyring and index file.
module TokenCache {
  import opened Wrappers
  import opened EnginePref
  import opened Files

  // Milliseconds.
  const TOKEN_CACHE_TTL: nat := 300_000
  const REFRESH_TIMEOUT: nat := 30_000

  type TaskId = nat
  type Account = string

  // A token together with where it came from: the engine and, for the native one, the account whose
  // credential minted it, when Google issued it and for how long.
  datatype Token = Token(engine: Engine, account: Option<Account>, issuedAt: nat, lifetime: nat)

  datatype CachedToken = CachedToken(token: Token, fetchedAt: nat, engine: Engine) {
    predicate IsUsableFor(engine: Engine, now: nat) {
      this.engine == engine && now - fetchedAt < TOKEN_CACHE_TTL
    }
  }

  // ---------- the token store ----------

  datatype Index = Index(accounts: seq<Account>, active: Option<Account>)

  // The names the index is written under: its own, and the one temp name every change shares.
  datatype Name = IndexName | TempName

  // What reading the index finds. `Garbled` content does not parse.
  datatype IndexFile = Absent | Garbled | Holds(index: Index)

  function LoadIndex(file: IndexFile): (index: Index) {
    if file.Holds? then file.index else Index([], None)
  }

  function Retain(accounts: seq<Account>, kept: set<Account>): (r: seq<Account>) {
    if accounts == [] then []
    else (if accounts[0] in kept then [accounts[0]] else []) + Retain(accounts[1..], kept)
  }

  lemma RetainMembers(accounts: seq<Account>, kept: set<Account>)
    ensures forall a :: a in Retain(accounts, kept) <==> a in accounts && a in kept
  {
    forall a: Account ensures a in Retain(accounts, kept) <==> a in accounts && a in kept {
      RetainMember(accounts, kept, a);
    }
  }

  lemma {:induction false} RetainMember(accounts: seq<Account>, kept: set<Account>, a: Account)
    ensures a in Retain(accounts, kept) <==> a in accounts && a in kept
  {
    if accounts != [] {
      RetainMember(accounts[1..], kept, a);
      assert accounts == [accounts[0]] + accounts[1..];
    }
  }

  // `Retain` goes through the list and keeps or drops each account on its own.
  lemma RetainOneByOne(accounts: seq<Account>, kept: set<Account>)
    ensures Retain([], kept) == []
    ensures forall a :: Retain([a], kept) == if a in kept then [a] else []
    ensures forall more :: Retain(accounts + more, kept) == Retain(accounts, kept) + Retain(more, kept)
  {
    forall a: Account ensures Retain([a], kept) == if a in kept then [a] else [] {
      assert [a][1..] == [];
    }
    forall more: seq<Account> ensures Retain(accounts + more, kept) == Retain(accounts, kept) + Retain(more, kept) {
      RetainConcat(accounts, more, kept);
    }
  }

  lemma {:induction false} RetainConcat(accounts: seq<Account>, more: seq<Account>, kept: set<Account>)
    ensures Retain(accounts + more, kept) == Retain(accounts, kept) + Retain(more, kept)
  {
    if accounts == [] {
      assert accounts + more == more;
    } else {
      RetainConcat(accounts[1..], more, kept);
      var head := if accounts[0] in kept then [accounts[0]] else [];
      assert (accounts + more)[0] == accounts[0] && (accounts + more)[1..] == accounts[1..] + more;
      assert Retain(accounts + more, kept) == head + Retain(accounts[1..] + more, kept);
      assert Retain(accounts, kept) == head + Retain(accounts[1..], kept);
      assert head + (Retain(accounts[1..], kept) + Retain(more, kept)) == head + Retain(accounts[1..], kept) + Retain(more, kept);
    }
  }

  function IndexUpsert(index: Index, email: Account): (r: Index) {
    Index(if email in index.accounts then index.accounts else index.accounts + [email],
          if index.active.None? then Some(email) else index.active)
  }

  function IndexKeep(index: Index, kept: set<Account>): (r: Index) {
    Index(Retain(index.accounts, kept),
          if index.active.Some? && index.active.value in kept && index.active.value in index.accounts
          then index.active else None)
  }

  function IndexRemove(index: Index, email: Account): (r: Index) {
    Index(Retain(index.accounts, set a | a in index.accounts && a != email),
          if index.active == Some(email) then None else index.active)
  }

  // ---------- tasks ----------

  // What a task may change. `Prune` is what listing the accounts does to the index; `EngineTo` is
  // `set_engine` for the auth slot; `GcloudAccount` is `switch` under the gcloud engine, whose effect lies
  // outside LCC except for the clear.
  datatype Change =
    | Switch(email: Account)
    | Remove(email: Account)
    | SignIn(email: Account)
    | Prune
    | EngineTo(engine: Engine)
    | GcloudAccount
  {
    predicate WritesIndex() {
      Switch? || Remove? || SignIn? || Prune?
    }
  }

  datatype Pc =
    | Idle
    // get_access_token, outside the lock
    | Waiting(engine: Engine)
    // get_access_token, holding the lock
    | Looking(engine: Engine)
    | ReadingActive
    | LoadingCredential(account: Account)
    | Refreshing(account: Account, sentAt: nat)
    | AskingGcloud
    | RefreshingAdc
    // an account or engine change
    | Changing(change: Change)
    | ReadingIndex(change: Change)
    | WritingTmp(change: Change, next: Index, known: bool)
    | FinishingTmp(change: Change, next: Index, known: bool, file: nat)  // the temp file as it was opened
    | Publishing(change: Change, next: Index, known: bool)
    | Clearing(change: Change)
  {
    predicate InSection() {
      Looking? || ReadingActive? || LoadingCredential? || Refreshing? || AskingGcloud? || RefreshingAdc?
    }

    predicate Minting() {
      InSection() && !Looking?
    }

    // The engine a task in the middle of a mint is minting for.
    function MintEngine(): (engine: Engine)
      requires Minting()
    {
      if AskingGcloud? || RefreshingAdc? then Gcloud else Native
    }
  }

  // What happened to the cache entry, in order.
  datatype Event = Minted(engine: Engine, at: nat) | Cleared(at: nat)

  // A token handed to a caller that resolved `engine`, at time `at`, from an entry made at `entryAt`.
  datatype Serving = Serving(engine: Engine, token: Token, at: nat, entryAt: nat)

  datatype State = State(
    clock: nat,
    engine: Engine,
    json: Json<Index>,
    fs: Fs<Name>,
    keyring: set<Account>,
    cache: Option<CachedToken>,
    holder: Option<TaskId>,
    tasks: map<TaskId, Pc>,
    clearsOnEngineChange: bool,  // false models a `set_engine` that forgets to drop the entry
    log: seq<Event>,
    served: seq<Serving>
  )

  function OnDisk(s: State): (file: IndexFile) {
    var content := Read(s.fs, IndexName);
    if content.None? then Absent
    else
      match s.json.parse(content.value)
      case None => Garbled
      case Some(index) => Holds(index)
  }

  function Active(s: State): (account: Option<Account>) {
    LoadIndex(OnDisk(s)).active
  }

  // ---------- steps ----------

  datatype Step =
    | Tick(delay: nat)
    // get_access_token
    | Call(t: TaskId)
    | Lock(t: TaskId)
    | Hit(t: TaskId)
    | Miss(t: TaskId)
    | ReadActive(t: TaskId)
    | LoadCredential(t: TaskId)
    | RefreshOk(t: TaskId, issuedAt: nat, lifetime: nat)
    | GcloudOk(t: TaskId, token: Token)
    | GcloudFails(t: TaskId)
    | Abort(t: TaskId)  // an error return, or the caller dropping the future
    // changes
    | Begin(t: TaskId, change: Change)
    | ChangeCredential(t: TaskId)
    | ReadIndex(t: TaskId, answering: set<Account>)
    | TruncateTmp(t: TaskId)
    | FillTmp(t: TaskId)
    | Publish(t: TaskId)
    | ChangeFails(t: TaskId)
    | Clear(t: TaskId)

  predicate Enabled(s: State, step: Step) {
    if step.Tick? then true
    else
      step.t in s.tasks &&
      var pc := s.tasks[step.t];
      match step
      case Call(_) => pc.Idle?
      case Lock(_) => pc.Waiting? && s.holder.None?
      case Hit(_) => pc.Looking? && s.cache.Some? && s.cache.value.IsUsableFor(pc.engine, s.clock)
      case Miss(_) => pc.Looking? && !(s.cache.Some? && s.cache.value.IsUsableFor(pc.engine, s.clock))
      case ReadActive(_) => pc.ReadingActive? && Active(s).Some?
      case LoadCredential(_) => pc.LoadingCredential? && pc.account in s.keyring
      case RefreshOk(_, issuedAt, _) => pc.Refreshing? && pc.sentAt <= issuedAt <= s.clock <= pc.sentAt + REFRESH_TIMEOUT
      case GcloudOk(_, token) => (pc.AskingGcloud? || pc.RefreshingAdc?) && token.engine.Gcloud?
      case GcloudFails(_) => pc.AskingGcloud?
      case Abort(_) => pc.Waiting? || pc.InSection()
      case Begin(_, change) => pc.Idle?
      case ChangeCredential(_) => pc.Changing?
      case ReadIndex(_, _) => pc.ReadingIndex?
      case TruncateTmp(_) => pc.WritingTmp?
      case FillTmp(_) => pc.FinishingTmp?
      case Publish(_) => pc.Publishing? && TempName in s.fs.names
      case ChangeFails(_) => pc.Changing? || pc.ReadingIndex? || pc.WritingTmp? || pc.FinishingTmp? || pc.Publishing?
      case Clear(_) => pc.Clearing? && s.holder.None?
      case Tick(_) => true
  }

  function At(s: State, t: TaskId, pc: Pc): (r: State) {
    s.(tasks := s.tasks[t := pc])
  }

  // The end of a `get_access_token` call: back to idle, and the lock is free if this task held it.
  function Leave(s: State, t: TaskId): (r: State) {
    At(s, t, Idle).(holder := if s.holder == Some(t) then None else s.holder)
  }

  function Serve(s: State, t: TaskId, engine: Engine, entry: CachedToken): (r: State) {
    Leave(s, t).(served := s.served + [Serving(engine, entry.token, s.clock, entry.fetchedAt)])
  }

  // A mint that succeeded: the entry is overwritten, the token returned, the lock released.
  function Mint(s: State, t: TaskId, engine: Engine, token: Token): (r: State) {
    var entry := CachedToken(token, s.clock, engine);
    Serve(s, t, engine, entry).(cache := Some(entry), log := s.log + [Minted(engine, s.clock)])
  }

  // The index a change wants to write, and whether its account was listed before; None when there is
  // nothing to write. For `Prune` the keyring answers for `answering` only, whatever the reason.
  function NextIndex(index: Index, change: Change, answering: set<Account>): (r: Option<(Index, bool)>) {
    match change
    case Switch(email) => if email in index.accounts then Some((index.(active := Some(email)), true)) else None
    case Remove(email) => Some((IndexRemove(index, email), true))
    case SignIn(email) => Some((IndexUpsert(index, email), email in index.accounts))
    case Prune => if IndexKeep(index, answering) == index then None else Some((IndexKeep(index, answering), true))
    case EngineTo(_) => None
    case GcloudAccount => None
  }

  // What the step does to the files.
  function OpOf(s: State, step: Step): (op: Op<Name>)
    requires Enabled(s, step)
  {
    match step
    case TruncateTmp(_) => Create(TempName)
    case FillTmp(t) => Fill(s.tasks[t].file, s.json.text(s.tasks[t].next))
    case Publish(_) => Move(TempName, IndexName)
    case _ => Skip
  }

  function Apply(s: State, step: Step): (r: State)
    requires Enabled(s, step)
    ensures r.fs == Do(s.fs, OpOf(s, step)) && r.json == s.json
  {
    var fs := Do(s.fs, OpOf(s, step));
    match step
    case Tick(delay) => s.(clock := s.clock + delay)
    case Call(t) => At(s, t, Waiting(s.engine))
    case Lock(t) => At(s, t, Looking(s.tasks[t].engine)).(holder := Some(t))
    case Hit(t) => Serve(s, t, s.tasks[t].engine, s.cache.value)
    case Miss(t) => At(s, t, if s.tasks[t].engine.Native? then ReadingActive else AskingGcloud)
    case ReadActive(t) => At(s, t, LoadingCredential(Active(s).value))
    case LoadCredential(t) => At(s, t, Refreshing(s.tasks[t].account, s.clock))
    case RefreshOk(t, issuedAt, lifetime) =>
      Mint(s, t, Native, Token(Native, Some(s.tasks[t].account), issuedAt, lifetime))
    case GcloudOk(t, token) => Mint(s, t, Gcloud, token)
    case GcloudFails(t) => At(s, t, RefreshingAdc)
    case Abort(t) => Leave(s, t)
    case Begin(t, change) => At(s, t, if change.GcloudAccount? then Clearing(change) else Changing(change))
    case ChangeCredential(t) => AfterCredential(s, t, s.tasks[t].change)
    case ReadIndex(t, answering) =>
      var change := s.tasks[t].change;
      var next := NextIndex(LoadIndex(OnDisk(s)), change, answering);
      At(s, t, if next.None? then Idle else WritingTmp(change, next.value.0, next.value.1))
    case TruncateTmp(t) =>
      At(s, t, FinishingTmp(s.tasks[t].change, s.tasks[t].next, s.tasks[t].known, Handle(s.fs, TempName))).(fs := fs)
    case FillTmp(t) =>
      At(s, t, Publishing(s.tasks[t].change, s.tasks[t].next, s.tasks[t].known)).(fs := fs)
    case Publish(t) =>
      // Nothing clears the cache after a prune.
      At(s, t, if s.tasks[t].change.Prune? then Idle else Clearing(s.tasks[t].change)).(fs := fs)
    case ChangeFails(t) => AfterFailure(s, t)
    case Clear(t) => At(s, t, Idle).(cache := None, log := s.log + [Cleared(s.clock)])
  }

  function AfterCredential(s: State, t: TaskId, change: Change): (r: State) {
    match change
    case SignIn(email) => At(s, t, ReadingIndex(change)).(keyring := s.keyring + {email})
    case Remove(email) => At(s, t, ReadingIndex(change)).(keyring := s.keyring - {email})
    case EngineTo(engine) => At(s, t, if s.clearsOnEngineChange then Clearing(change) else Idle).(engine := engine)
    case _ => At(s, t, ReadingIndex(change))
  }

  // A failed index write rolls a brand-new account's credential back; nothing else is undone.
  function AfterFailure(s: State, t: TaskId): (r: State)
    requires t in s.tasks
  {
    var pc := s.tasks[t];
    var rollsBack := (pc.WritingTmp? || pc.FinishingTmp? || pc.Publishing?) && pc.change.SignIn? && !pc.known;
    At(s, t, Idle).(keyring := if rollsBack then s.keyring - {pc.change.email} else s.keyring)
  }

  // ---------- runs ----------

  ghost predicate Start(s: State) {
    Sound(s.json) && Sane(s.fs) && s.cache.None? && s.holder.None? && s.log == [] && s.served == [] && forall t | t in s.tasks :: s.tasks[t].Idle?
  }

  ghost predicate Run(states: seq<State>, steps: seq<Step>) {
    |states| == |steps| + 1 &&
    forall i | 0 <= i < |steps| :: Enabled(states[i], steps[i]) && states[i + 1] == Apply(states[i], steps[i])
  }
}
