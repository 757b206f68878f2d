// Which engines LCC uses: the precedence rule and the preference file behind it, one call at a time.
module EnginePref {
  import opened Wrappers

  datatype Engine = Native | Gcloud {
    function AsStr(): (name: string) {
      match this
      case Native => "native"
      case Gcloud => "gcloud"
    }
  }

  datatype Source = Env | File | Default

  datatype Resolved = Resolved(engine: Engine, source: Source, envIgnored: bool)

  datatype Slot = Auth | Tunnel | SshForward {
    function Key(): (key: string) {
      match this
      case Auth => "auth"
      case Tunnel => "tunnel"
      case SshForward => "ssh_forward"
    }
  }

  function FromKey(key: string): (slot: Option<Slot>) {
    if key == "auth" then Some(Auth)
    else if key == "tunnel" then Some(Tunnel)
    else if key == "ssh_forward" then Some(SshForward)
    else None
  }

  datatype Prefs = Prefs(auth: Option<string>, tunnel: Option<string>, sshForward: Option<string>)

  // What `engine.json` holds. `Torn` is content that does not parse.
  datatype PrefFile = Missing | Torn | Full(prefs: Prefs)

  function Load(file: PrefFile): (prefs: Prefs) {
    if file.Full? then file.prefs else Prefs(None, None, None)
  }

  function Get(slot: Slot, prefs: Prefs): (value: Option<string>) {
    match slot
    case Auth => prefs.auth
    case Tunnel => prefs.tunnel
    case SshForward => prefs.sshForward
  }

  function Set(slot: Slot, prefs: Prefs, value: string): (r: Prefs)
    ensures Get(slot, r) == Some(value)
    ensures forall other | other != slot :: Get(other, r) == Get(other, prefs)
  {
    match slot
    case Auth => prefs.(auth := Some(value))
    case Tunnel => prefs.(tunnel := Some(value))
    case SshForward => prefs.(sshForward := Some(value))
  }

  function ParseEngine(value: string): (engine: Option<Engine>) {
    if value == "native" then Some(Native) else if value == "gcloud" then Some(Gcloud) else None
  }

  function Named(value: Option<string>): (engine: Option<Engine>) {
    if value.None? then None else ParseEngine(value.value)
  }

  function ResolveWithSource(env: Option<string>, file: Option<string>): (r: Resolved) {
    var fromEnv := Named(env);
    var fromFile := Named(file);
    var (engine, source) :=
      if fromEnv.Some? then (fromEnv.value, Env)
      else if fromFile.Some? then (fromFile.value, File)
      else (Native, Default);
    Resolved(engine, source, env.Some? && fromEnv.None?)
  }

  function EngineFor(env: Option<string>, file: PrefFile, slot: Slot): (r: Resolved) {
    ResolveWithSource(env, Get(slot, Load(file)))
  }

  // ---------- what the names mean ----------

  // The two names an engine has, and no other.
  lemma EngineNamesExactly(value: string)
    ensures ParseEngine(value) == Some(Native) <==> value == "native"
    ensures ParseEngine(value) == Some(Gcloud) <==> value == "gcloud"
    ensures ParseEngine(value) == None <==> value != "native" && value != "gcloud"
  {
  }

  lemma SlotKeysExactly(key: string, prefs: Prefs)
    ensures FromKey(key) == Some(Auth) <==> key == "auth"
    ensures FromKey(key) == Some(Tunnel) <==> key == "tunnel"
    ensures FromKey(key) == Some(SshForward) <==> key == "ssh_forward"
    ensures FromKey(key) == None <==> key != "auth" && key != "tunnel" && key != "ssh_forward"
    ensures Get(Auth, prefs) == prefs.auth && Get(Tunnel, prefs) == prefs.tunnel && Get(SshForward, prefs) == prefs.sshForward
  {
  }

  predicate NamesAnEngine(value: Option<string>) {
    value == Some("native") || value == Some("gcloud")
  }

  // The level that decides, by what the two levels literally say: a value that names no engine never
  // decides, at either level, and an absent or torn file says nothing.
  lemma DecidesByName(env: Option<string>, file: PrefFile, slot: Slot)
    ensures
      var r := EngineFor(env, file, slot);
      var stored := if file.Full? then Get(slot, file.prefs) else None;
      && (env == Some("native") ==> r.engine == Native && r.source == Env)
      && (env == Some("gcloud") ==> r.engine == Gcloud && r.source == Env)
      && (!NamesAnEngine(env) && stored == Some("native") ==> r.engine == Native && r.source == File)
      && (!NamesAnEngine(env) && stored == Some("gcloud") ==> r.engine == Gcloud && r.source == File)
      && (!NamesAnEngine(env) && !NamesAnEngine(stored) ==> r.engine == Native && r.source == Default)
      && (r.envIgnored <==> env.Some? && !NamesAnEngine(env))
  {
  }

  // ---------- the store ----------

  // The one I/O call of `set_stored` that fails, if any.
  datatype Fault = NoFault | NoDataDir | WriteFails | RenameFails

  // One `set_engine` call across the bridge, with what its I/O will do.
  datatype Request = Request(key: string, engine: string, fault: Fault) {
    predicate Succeeds() {
      FromKey(key).Some? && ParseEngine(engine).Some? && fault.NoFault?
    }
  }

  function AfterRequest(file: PrefFile, r: Request): (after: PrefFile) {
    if r.Succeeds() then Full(Set(FromKey(r.key).value, Load(file), r.engine)) else file
  }

  function AfterRequests(file: PrefFile, requests: seq<Request>): (after: PrefFile) {
    if requests == [] then file
    else AfterRequest(AfterRequests(file, requests[..|requests| - 1]), requests[|requests| - 1])
  }

  class PrefStore {
    var file: PrefFile
    var tmp: map<Slot, PrefFile>

    constructor (file: PrefFile)
      ensures this.file == file && tmp == map[]
    {
      this.file, tmp := file, map[];
    }

    // `engine_pref::set_stored`: a read-modify-write of the whole file through the slot's temp file.
    method SetStored(slot: Slot, engine: string, fault: Fault) returns (ok: bool)
      modifies this
      ensures ok == ((engine == "native" || engine == "gcloud") && fault.NoFault?)
      ensures file == if ok then Full(Set(slot, Load(old(file)), engine)) else old(file)
      ensures tmp - {slot} == old(tmp) - {slot}
      ensures ok ==> slot !in tmp
    {
      if ParseEngine(engine).None? || fault.NoDataDir? {
        return false;
      }
      var prefs := Load(file);
      prefs := Set(slot, prefs, engine);
      tmp := tmp[slot := Torn];
      if fault.WriteFails? {
        return false;
      }
      tmp := tmp[slot := Full(prefs)];
      if fault.RenameFails? {
        return false;
      }
      file, tmp := tmp[slot], tmp - {slot};
      return true;
    }

    // `api::set_engine`. `cleared` tells whether the token cache was dropped.
    method SetEngine(r: Request) returns (ok: bool, cleared: bool)
      modifies this
      ensures ok == r.Succeeds()
      ensures ok <==>
        r.fault.NoFault? && (r.engine == "native" || r.engine == "gcloud") && r.key in {"auth", "tunnel", "ssh_forward"}
      ensures ok ==>
        && file.Full? && (r.key == "auth" ==> file.prefs == Load(old(file)).(auth := Some(r.engine)))
        && (r.key == "tunnel" ==> file.prefs == Load(old(file)).(tunnel := Some(r.engine)))
        && (r.key == "ssh_forward" ==> file.prefs == Load(old(file)).(sshForward := Some(r.engine)))
      ensures !ok ==> file == old(file) && !cleared
      ensures cleared ==> r.key == "auth"
      ensures cleared == (ok && FromKey(r.key) == Some(Auth))
      ensures file == AfterRequest(old(file), r)
    {
      var slot := FromKey(r.key);
      if slot.None? {
        return false, false;
      }
      ok := SetStored(slot.value, r.engine, r.fault);
      cleared := ok && slot.value == Auth;
    }

    method SetEngines(requests: seq<Request>)
      modifies this
      ensures file == AfterRequests(old(file), requests)
    {
      for i := 0 to |requests|
        invariant file == AfterRequests(old(file), requests[..i])
      {
        assert requests[..i + 1][..i] == requests[..i];
        var _, _ := SetEngine(requests[i]);
      }
      assert requests[..|requests|] == requests;
    }
  }

  // ---------- the simple map it refines ----------

  // The choice in force for a slot after some requests, seen as a plain map from slot to engine that
  // each successful request updates in one entry.
  function LastChoice(slot: Slot, requests: seq<Request>): (choice: Option<Engine>) {
    if requests == [] then None
    else
      var r := requests[|requests| - 1];
      if r.Succeeds() && FromKey(r.key) == Some(slot) then ParseEngine(r.engine)
      else LastChoice(slot, requests[..|requests| - 1])
  }

  lemma {:induction false} FileHoldsLastChoice(file: PrefFile, requests: seq<Request>, slot: Slot)
    ensures
      var choice := LastChoice(slot, requests);
      Named(Get(slot, Load(AfterRequests(file, requests)))) == if choice.Some? then choice else Named(Get(slot, Load(file)))
    ensures LastChoice(slot, requests).None? ==>
      Get(slot, Load(AfterRequests(file, requests))) == Get(slot, Load(file))
  {
    if requests == [] {
    } else {
      FileHoldsLastChoice(file, requests[..|requests| - 1], slot);
    }
  }

  // After any requests, valid or not: the environment decides if it names an engine, else the last
  // valid choice for the slot, else what the file named to begin with, else native. The reported source
  // is the level that decided.
  lemma StoreRefinesMap(env: Option<string>, file: PrefFile, requests: seq<Request>, slot: Slot)
    ensures
      var r := EngineFor(env, AfterRequests(file, requests), slot);
      var choice := LastChoice(slot, requests);
      var initial := Named(Get(slot, Load(file)));
      && (Named(env).Some? ==> r.engine == Named(env).value && r.source == Env)
      && (Named(env).None? && choice.Some? ==> r.engine == choice.value && r.source == File)
      && (Named(env).None? && choice.None? && initial.Some? ==> r.engine == initial.value && r.source == File)
      && (Named(env).None? && choice.None? && initial.None? ==> r.engine == Native && r.source == Default)
      && (r.envIgnored <==> env.Some? && Named(env).None?)
  {
    FileHoldsLastChoice(file, requests, slot);
  }

  // The names written to the file and to the environment read back as the engines they came from.
  lemma NamesReadBack(engine: Engine, slot: Slot)
    ensures ParseEngine(engine.AsStr()) == Some(engine) && FromKey(slot.Key()) == Some(slot)
  {
  }
}
