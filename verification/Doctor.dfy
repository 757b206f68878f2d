// The connectivity Doctor: which rows a run produces, and how the report groups them.
module Doctor {
  import opened Wrappers
  import opened EnginePref

  datatype Status = Pass | Warning | Fail | Skipped

  datatype Category = Authentication | ProjectPermissions | IapNetwork | VmStatus | LocalEnvironment

  // The rows a run can hold. Each stands for its `id` string, which `Id` gives.
  datatype RowId =
    | GcloudInstalled | GcloudAccount | AdcCredentials | CredentialStore | AccountIndex | NativeToken
    | ProjectAccessible | ComputeApiEnabled | IapApiEnabled | IapFirewall | VmRunning | VmGuestAgent
    | LocalClients

  datatype Check = Check(row: RowId, category: Category, status: Status)

  // ---------- the run ----------

  datatype IndexHealth = Consistent | Orphaned | Unavailable

  // What each probe would answer if it were asked. `token` is None when no account is signed in, else
  // whether a token could be minted; the last seven rows report any status at all.
  datatype Probes = Probes(
    hasClient: bool,
    gcloudInstalled: bool,
    gcloudAuthenticated: bool,
    adcPresent: bool,
    keyringAnswers: bool,
    indexHealth: IndexHealth,
    token: Option<bool>,
    projectAccessible: Status,
    computeApi: Status,
    iapApi: Status,
    iapFirewall: Status,
    vmStatus: Status,
    vmGuestAgent: Status,
    localClients: Status
  )

  // The engine each row finds in force; it is read afresh for every one of them.
  datatype EngineReads = EngineReads(
    installed: Engine, accountSkip: Engine, account: Engine, adc: Engine, store: Engine, index: Engine, token: Engine)

  predicate Steady(seen: EngineReads, e: Engine) {
    seen == EngineReads(e, e, e, e, e, e, e)
  }

  function GcloudCheckStatus(engine: Engine, present: bool): (s: Status) {
    if engine.Native? then Skipped else if present then Pass else Fail
  }

  function NativeCheckStatus(engine: Engine): (s: Status) {
    if engine.Gcloud? then Skipped else Pass
  }

  // Whether the gcloud-account row is skipped without being asked.
  predicate GcloudAccountSkipped(engine: Engine, installed: Status) {
    engine.Native? || installed != Pass
  }

  function IndexStatus(health: IndexHealth): (s: Status) {
    match health
    case Consistent => Pass
    case Orphaned => Warning
    case Unavailable => Skipped
  }

  function TokenStatus(outcome: Option<bool>): (s: Status) {
    if outcome.None? then Warning else if outcome.value then Pass else Fail
  }

  function Id(row: RowId): (id: string) {
    match row
    case GcloudInstalled => "auth_gcloud_installed"
    case GcloudAccount => "auth_gcloud_account"
    case AdcCredentials => "auth_adc_credentials"
    case CredentialStore => "auth_credential_store"
    case AccountIndex => "auth_account_index"
    case NativeToken => "auth_native_token"
    case ProjectAccessible => "project_accessible"
    case ComputeApiEnabled => "compute_api_enabled"
    case IapApiEnabled => "iap_api_enabled"
    case IapFirewall => "iap_firewall"
    case VmRunning => "vm_status"
    case VmGuestAgent => "vm_guest_agent"
    case LocalClients => "local_clients"
  }

  function CategoryOf(row: RowId): (category: Category) {
    match row
    case GcloudInstalled | GcloudAccount | AdcCredentials | CredentialStore | AccountIndex | NativeToken => Authentication
    case ProjectAccessible | ComputeApiEnabled => ProjectPermissions
    case IapApiEnabled | IapFirewall => IapNetwork
    case VmRunning | VmGuestAgent => VmStatus
    case LocalClients => LocalEnvironment
  }

  const ROWS: seq<RowId> := [
    GcloudInstalled, GcloudAccount, AdcCredentials, CredentialStore, AccountIndex, NativeToken,
    ProjectAccessible, ComputeApiEnabled, IapApiEnabled, IapFirewall, VmRunning, VmGuestAgent,
    LocalClients]

  predicate CredentialsUsable(checks: seq<Check>) {
    exists i | 0 <= i < |checks| ::
      (checks[i].row == GcloudAccount || checks[i].row == NativeToken) && checks[i].status == Pass
  }

  function ApiStatuses(p: Probes): (r: seq<Status>)
    ensures |r| == 6
  {
    [p.projectAccessible, p.computeApi, p.iapApi, p.iapFirewall, p.vmStatus, p.vmGuestAgent]
  }

  function NewRow(row: RowId, status: Status): (check: Check) {
    Check(row, CategoryOf(row), status)
  }

  predicate AuthRowsAre(p: Probes, seen: EngineReads, checks: seq<Check>)
    requires |checks| >= 6
  {
    && checks[0].status == GcloudCheckStatus(seen.installed, p.gcloudInstalled)
    && checks[1].status == (if GcloudAccountSkipped(seen.accountSkip, checks[0].status) then Skipped
                            else GcloudCheckStatus(seen.account, p.gcloudAuthenticated))
    && checks[2].status == GcloudCheckStatus(seen.adc, p.adcPresent)
    && checks[3].status == (if seen.store.Gcloud? then Skipped else if p.keyringAnswers then Pass else Fail)
    && checks[4].status == (if seen.index.Gcloud? then Skipped else IndexStatus(p.indexHealth))
    && checks[5].status == (if seen.token.Gcloud? then Skipped else TokenStatus(p.token))
  }

  // What a run's rows are: 13 of them, always the same ids in the same order, each with the status its
  // own engine reading and its own probe give, the API rows asked only behind the gate.
  predicate IsRunOf(p: Probes, seen: EngineReads, checks: seq<Check>) {
    && |checks| == 13
    && (forall i | 0 <= i < 13 :: checks[i] == NewRow(ROWS[i], checks[i].status))
    && AuthRowsAre(p, seen, checks)
    && (forall i | 6 <= i < 12 ::
          checks[i].status == if p.hasClient && (checks[1].status == Pass || checks[5].status == Pass) then ApiStatuses(p)[i - 6] else Skipped)
    && checks[12].status == p.localClients
  }

  method RunAuthChecks(p: Probes, seen: EngineReads) returns (checks: seq<Check>)
    ensures |checks| == 6 && AuthRowsAre(p, seen, checks)
    ensures forall i | 0 <= i < 6 :: checks[i] == NewRow(ROWS[i], checks[i].status)
  {
    var installed := GcloudCheckStatus(seen.installed, seen.installed.Gcloud? && p.gcloudInstalled);
    checks := [NewRow(GcloudInstalled, installed)];
    var status := Skipped;
    if !GcloudAccountSkipped(seen.accountSkip, installed) {
      status := GcloudCheckStatus(seen.account, seen.account.Gcloud? && p.gcloudAuthenticated);
    }
    checks := checks + [NewRow(GcloudAccount, status)];
    checks := checks + [NewRow(AdcCredentials, GcloudCheckStatus(seen.adc, seen.adc.Gcloud? && p.adcPresent))];
    status := NativeCheckStatus(seen.store);
    if status != Skipped {
      status := if p.keyringAnswers then Pass else Fail;
    }
    checks := checks + [NewRow(CredentialStore, status)];
    status := NativeCheckStatus(seen.index);
    if status != Skipped {
      status := IndexStatus(p.indexHealth);
    }
    checks := checks + [NewRow(AccountIndex, status)];
    status := NativeCheckStatus(seen.token);
    if status != Skipped {
      status := TokenStatus(p.token);
    }
    checks := checks + [NewRow(NativeToken, status)];
  }

  lemma GateIsTheTwoRows(checks: seq<Check>)
    requires |checks| == 6 && forall i | 0 <= i < 6 :: checks[i].row == ROWS[i]
    ensures CredentialsUsable(checks) <==> checks[1].status == Pass || checks[5].status == Pass
  {
    assert checks[1].row == GcloudAccount && checks[5].row == NativeToken;
  }

  method RunAllChecks(p: Probes, seen: EngineReads) returns (checks: seq<Check>)
    ensures IsRunOf(p, seen, checks)
  {
    checks := RunAuthChecks(p, seen);
    GateIsTheTwoRows(checks);
    if p.hasClient && CredentialsUsable(checks) {
      checks := checks + [
        NewRow(ProjectAccessible, p.projectAccessible),
        NewRow(ComputeApiEnabled, p.computeApi),
        NewRow(IapApiEnabled, p.iapApi),
        NewRow(IapFirewall, p.iapFirewall),
        NewRow(VmRunning, p.vmStatus),
        NewRow(VmGuestAgent, p.vmGuestAgent)];
    } else {
      checks := checks + [
        NewRow(ProjectAccessible, Skipped),
        NewRow(ComputeApiEnabled, Skipped),
        NewRow(IapApiEnabled, Skipped),
        NewRow(IapFirewall, Skipped),
        NewRow(VmRunning, Skipped),
        NewRow(VmGuestAgent, Skipped)];
    }
    checks := checks + [NewRow(LocalClients, p.localClients)];
  }

  // No two rows of a run share an id.
  lemma IdsAreDistinct(p: Probes, seen: EngineReads, checks: seq<Check>, i: nat, j: nat)
    requires IsRunOf(p, seen, checks) && i < 13 && j < 13 && Id(checks[i].row) == Id(checks[j].row)
    ensures i == j
  {
    IdIsInjective(checks[i].row, checks[j].row);
    assert ROWS[i] == ROWS[j];
  }

  lemma IdIsInjective(a: RowId, b: RowId)
    requires Id(a) == Id(b)
    ensures a == b
  {
    assert |Id(a)| == |Id(b)|;
    assert forall k | 0 <= k < |Id(a)| :: Id(a)[k] == Id(b)[k];
  }

  // ---------- the rows, spelled out ----------

  lemma IdsInOrder(p: Probes, seen: EngineReads, checks: seq<Check>)
    requires IsRunOf(p, seen, checks)
    ensures |checks| == 13
    ensures Id(checks[0].row) == "auth_gcloud_installed" && Id(checks[1].row) == "auth_gcloud_account"
    ensures Id(checks[2].row) == "auth_adc_credentials" && Id(checks[3].row) == "auth_credential_store"
    ensures Id(checks[4].row) == "auth_account_index" && Id(checks[5].row) == "auth_native_token"
    ensures Id(checks[6].row) == "project_accessible" && Id(checks[7].row) == "compute_api_enabled"
    ensures Id(checks[8].row) == "iap_api_enabled" && Id(checks[9].row) == "iap_firewall"
    ensures Id(checks[10].row) == "vm_status" && Id(checks[11].row) == "vm_guest_agent" && Id(checks[12].row) == "local_clients"
  {
    RowsInOrder(p, seen, checks);
  }

  lemma RowsInOrder(p: Probes, seen: EngineReads, checks: seq<Check>)
    requires IsRunOf(p, seen, checks)
    ensures checks[0].row == GcloudInstalled && checks[1].row == GcloudAccount && checks[2].row == AdcCredentials
    ensures checks[3].row == CredentialStore && checks[4].row == AccountIndex && checks[5].row == NativeToken
    ensures checks[6].row == ProjectAccessible && checks[7].row == ComputeApiEnabled && checks[8].row == IapApiEnabled
    ensures checks[9].row == IapFirewall && checks[10].row == VmRunning && checks[11].row == VmGuestAgent
    ensures checks[12].row == LocalClients
  {
    forall i | 0 <= i < 13 ensures checks[i].row == ROWS[i] {
      assert checks[i] == NewRow(ROWS[i], checks[i].status);
    }
  }

  lemma CategoriesInOrder(p: Probes, seen: EngineReads, checks: seq<Check>, i: nat)
    requires IsRunOf(p, seen, checks) && i < 13
    ensures checks[i].category ==
      if i < 6 then Authentication else if i < 8 then ProjectPermissions else if i < 10 then IapNetwork
      else if i < 12 then VmStatus else LocalEnvironment
  {
    assert checks[i] == NewRow(ROWS[i], checks[i].status);
  }

  // The six authentication rows: what each engine reading and each probe make of them.
  lemma AuthRowsCaseByCase(p: Probes, seen: EngineReads, checks: seq<Check>)
    requires IsRunOf(p, seen, checks)
    ensures checks[0].status == if seen.installed == Native then Skipped else if p.gcloudInstalled then Pass else Fail
    ensures seen.accountSkip == Native || checks[0].status != Pass || seen.account == Native ==> checks[1].status == Skipped
    ensures seen.accountSkip == Gcloud && checks[0].status == Pass && seen.account == Gcloud ==>
      checks[1].status == if p.gcloudAuthenticated then Pass else Fail
    ensures checks[2].status == if seen.adc == Native then Skipped else if p.adcPresent then Pass else Fail
    ensures checks[3].status == if seen.store == Gcloud then Skipped else if p.keyringAnswers then Pass else Fail
    ensures seen.index == Gcloud ==> checks[4].status == Skipped
    ensures seen.index == Native && p.indexHealth == Consistent ==> checks[4].status == Pass
    ensures seen.index == Native && p.indexHealth == Orphaned ==> checks[4].status == Warning
    ensures seen.index == Native && p.indexHealth == Unavailable ==> checks[4].status == Skipped
    ensures seen.token == Gcloud ==> checks[5].status == Skipped
    ensures seen.token == Native && p.token == None ==> checks[5].status == Warning
    ensures seen.token == Native && p.token == Some(true) ==> checks[5].status == Pass
    ensures seen.token == Native && p.token == Some(false) ==> checks[5].status == Fail
  {
  }

  // ---------- the gate ----------

  predicate GateOpens(p: Probes, checks: seq<Check>) {
    p.hasClient && CredentialsUsable(checks)
  }

  // The row that speaks for an engine: the gcloud account, or the native token.
  function RowOf(engine: Engine): (i: nat)
    ensures i < 6
  {
    if engine.Native? then 5 else 1
  }

  // What the probes and the engine readings have to be for each of the two rows to pass.
  predicate AccountPasses(p: Probes, seen: EngineReads) {
    && seen.installed.Gcloud? && p.gcloudInstalled
    && seen.accountSkip.Gcloud?
    && seen.account.Gcloud? && p.gcloudAuthenticated
  }

  predicate TokenPasses(p: Probes, seen: EngineReads) {
    seen.token.Native? && p.token == Some(true)
  }

  lemma GateInARun(p: Probes, seen: EngineReads, checks: seq<Check>)
    requires IsRunOf(p, seen, checks)
    ensures (checks[1].status == Pass <==> AccountPasses(p, seen)) && (checks[5].status == Pass <==> TokenPasses(p, seen))
    ensures GateOpens(p, checks) <==> p.hasClient && (AccountPasses(p, seen) || TokenPasses(p, seen))
  {
    forall i | 0 <= i < 13
      ensures checks[i].row == GcloudAccount <==> i == 1
      ensures checks[i].row == NativeToken <==> i == 5
    {
      assert checks[i] == NewRow(ROWS[i], checks[i].status);
    }
  }

  // With the engine `now` in use when the gate is decided, whatever it was for each row before: the gate
  // opens although the row of that engine did not pass exactly when the other engine's row had passed and
  // this one's had not.
  lemma GateFailsTheEngineInUseExactlyWhen(p: Probes, seen: EngineReads, now: Engine, checks: seq<Check>)
    requires IsRunOf(p, seen, checks)
    ensures GateOpens(p, checks) && checks[RowOf(now)].status != Pass <==>
      && p.hasClient
      && if now.Native? then AccountPasses(p, seen) && !TokenPasses(p, seen) else TokenPasses(p, seen) && !AccountPasses(p, seen)
  {
    GateInARun(p, seen, checks);
  }

  // For the engine the last authentication row read, that is one exact change: gcloud up to the account
  // row, which passed, and native by the token row, which did not.
  lemma GateFailsTheLastEngineExactlyWhen(p: Probes, seen: EngineReads, checks: seq<Check>)
    requires IsRunOf(p, seen, checks)
    ensures GateOpens(p, checks) && checks[RowOf(seen.token)].status != Pass <==>
      && p.hasClient
      && seen.installed.Gcloud? && p.gcloudInstalled && seen.accountSkip.Gcloud?
      && seen.account.Gcloud? && p.gcloudAuthenticated
      && seen.token.Native? && p.token != Some(true)
  {
    GateFailsTheEngineInUseExactlyWhen(p, seen, seen.token, checks);
  }

  // So with one engine in force all through the run the gate is exactly that engine's row: the API rows
  // are asked if and only if it passed, and the other engine's three authentication rows are skipped.
  lemma SteadyRun(p: Probes, seen: EngineReads, e: Engine, checks: seq<Check>)
    requires Steady(seen, e) && IsRunOf(p, seen, checks)
    ensures forall i | (if e.Native? then 0 else 3) <= i < (if e.Native? then 3 else 6) :: checks[i].status == Skipped
    ensures GateOpens(p, checks) <==> p.hasClient && checks[RowOf(e)].status == Pass
    ensures checks[RowOf(e)].status == Pass <==>
      if e.Native? then p.token == Some(true) else p.gcloudInstalled && p.gcloudAuthenticated
    ensures forall i | 6 <= i < 12 ::
      checks[i].status == if p.hasClient && checks[RowOf(e)].status == Pass then ApiStatuses(p)[i - 6] else Skipped
  {
    GateInARun(p, seen, checks);
  }

  // Whatever the engine does meanwhile, the API rows are asked only behind a row that passed, and that
  // row was read under its own engine.
  lemma AnyRunIsGated(p: Probes, seen: EngineReads, checks: seq<Check>, i: nat)
    requires IsRunOf(p, seen, checks) && 6 <= i < 12 && checks[i].status != Skipped
    ensures p.hasClient
    ensures (checks[1].status == Pass && AccountPasses(p, seen)) || (checks[5].status == Pass && TokenPasses(p, seen))
  {
    GateInARun(p, seen, checks);
  }

  // The engine has to hold still: switch it to native after the gcloud-account row, and rows of both
  // engines pass while the API rows run although the native token row failed.
  lemma UnsteadyRunMixesEngines(p: Probes, checks: seq<Check>)
    requires p.gcloudInstalled && p.gcloudAuthenticated && p.keyringAnswers && p.token == Some(false)
    requires p.hasClient && p.projectAccessible == Pass
    requires IsRunOf(p, EngineReads(Gcloud, Gcloud, Gcloud, Native, Native, Native, Native), checks)
    ensures checks[0].status == Pass && checks[3].status == Pass
    ensures checks[5].status == Fail && checks[6].status == Pass
  {
    assert ApiStatuses(p)[0] == Pass;
  }

  // ---------- the report ----------

  datatype Block = Heading(category: Category) | Row(check: Check)

  // The order in which the report lists the categories.
  const CATEGORIES: nat := 5

  function Nth(n: nat): (category: Category)
    requires n < CATEGORIES
    ensures Rank(category) == n
  {
    if n == 0 then Authentication
    else if n == 1 then ProjectPermissions
    else if n == 2 then IapNetwork
    else if n == 3 then VmStatus
    else LocalEnvironment
  }

  function Rank(category: Category): (n: nat)
    ensures n < CATEGORIES
  {
    match category
    case Authentication => 0
    case ProjectPermissions => 1
    case IapNetwork => 2
    case VmStatus => 3
    case LocalEnvironment => 4
  }

  function InCategory(checks: seq<Check>, category: Category): (r: seq<Check>) {
    if checks == [] then []
    else (if checks[0].category == category then [checks[0]] else []) + InCategory(checks[1..], category)
  }

  function RowsOf(blocks: seq<Block>): (rows: seq<Check>) {
    if blocks == [] then []
    else (if blocks[0].Row? then [blocks[0].check] else []) + RowsOf(blocks[1..])
  }

  function HeadingsOf(blocks: seq<Block>): (headings: seq<Category>) {
    if blocks == [] then []
    else (if blocks[0].Heading? then [blocks[0].category] else []) + HeadingsOf(blocks[1..])
  }

  // The rows of the first `n` categories, category by category.
  function Grouped(checks: seq<Check>, n: nat): (rows: seq<Check>)
    requires n <= CATEGORIES
  {
    if n == 0 then [] else Grouped(checks, n - 1) + InCategory(checks, Nth(n - 1))
  }

  function Present(checks: seq<Check>, n: nat): (headings: seq<Category>)
    requires n <= CATEGORIES
  {
    if n == 0 then []
    else Present(checks, n - 1) + if InCategory(checks, Nth(n - 1)) == [] then [] else [Nth(n - 1)]
  }

  lemma {:induction false} RowsOfAppend(blocks: seq<Block>, block: Block)
    ensures RowsOf(blocks + [block]) == RowsOf(blocks) + if block.Row? then [block.check] else []
  {
    if blocks == [] {
      assert [block][1..] == [] && [] + [block] == [block];
    } else {
      RowsOfAppend(blocks[1..], block);
      assert (blocks + [block])[0] == blocks[0] && (blocks + [block])[1..] == blocks[1..] + [block];
    }
  }

  lemma {:induction false} HeadingsOfAppend(blocks: seq<Block>, block: Block)
    ensures HeadingsOf(blocks + [block]) == HeadingsOf(blocks) + if block.Heading? then [block.category] else []
  {
    if blocks == [] {
      assert [block][1..] == [] && [] + [block] == [block];
    } else {
      HeadingsOfAppend(blocks[1..], block);
      assert (blocks + [block])[0] == blocks[0] && (blocks + [block])[1..] == blocks[1..] + [block];
    }
  }

  function LastHeading(blocks: seq<Block>): (category: Option<Category>) {
    if blocks == [] then None
    else
      var last := blocks[|blocks| - 1];
      if last.Heading? then Some(last.category) else LastHeading(blocks[..|blocks| - 1])
  }

  // Every row stands under the heading of its own category.
  predicate UnderItsHeading(blocks: seq<Block>) {
    blocks == [] ||
    var front, last := blocks[..|blocks| - 1], blocks[|blocks| - 1];
    UnderItsHeading(front) && (last.Row? ==> LastHeading(front) == Some(last.check.category))
  }

  lemma AppendUnder(blocks: seq<Block>, block: Block)
    requires UnderItsHeading(blocks) && (block.Row? ==> LastHeading(blocks) == Some(block.check.category))
    ensures UnderItsHeading(blocks + [block])
    ensures LastHeading(blocks + [block]) == if block.Heading? then Some(block.category) else LastHeading(blocks)
  {
    assert (blocks + [block])[..|blocks|] == blocks;
  }

  predicate AllIn(checks: seq<Check>, category: Category) {
    forall i | 0 <= i < |checks| :: checks[i].category == category
  }

  lemma {:induction false} InCategoryIsInIt(checks: seq<Check>, category: Category)
    ensures AllIn(InCategory(checks, category), category)
  {
    if checks != [] {
      InCategoryIsInIt(checks[1..], category);
    }
  }

  // The loops of `generate_doctor_report_markdown`: one heading per category that has checks, its checks
  // below it.
  method GenerateReport(checks: seq<Check>) returns (blocks: seq<Block>)
    ensures RowsOf(blocks) == Grouped(checks, CATEGORIES)
    ensures HeadingsOf(blocks) == Present(checks, CATEGORIES)
    ensures UnderItsHeading(blocks)
  {
    blocks := ReportOn(checks, CATEGORIES);
  }

  method ReportOn(checks: seq<Check>, count: nat) returns (blocks: seq<Block>)
    requires count <= CATEGORIES
    ensures RowsOf(blocks) == Grouped(checks, count) && HeadingsOf(blocks) == Present(checks, count)
    ensures UnderItsHeading(blocks)
  {
    blocks := [];
    for n := 0 to count
      invariant RowsOf(blocks) == Grouped(checks, n)
      invariant HeadingsOf(blocks) == Present(checks, n)
      invariant UnderItsHeading(blocks)
    {
      var category := Nth(n);
      var catChecks := InCategory(checks, category);
      InCategoryIsInIt(checks, category);
      blocks := AppendCategory(blocks, category, catChecks);
    }
  }

  method AppendCategory(before: seq<Block>, category: Category, catChecks: seq<Check>) returns (blocks: seq<Block>)
    requires UnderItsHeading(before) && AllIn(catChecks, category)
    ensures RowsOf(blocks) == RowsOf(before) + catChecks
    ensures HeadingsOf(blocks) == HeadingsOf(before) + if catChecks == [] then [] else [category]
    ensures UnderItsHeading(blocks)
  {
    blocks := before;
    if catChecks == [] {
      return;
    }
    RowsOfAppend(blocks, Heading(category));
    HeadingsOfAppend(blocks, Heading(category));
    AppendUnder(blocks, Heading(category));
    blocks := blocks + [Heading(category)];
    blocks := AppendRows(blocks, category, catChecks);
  }

  method AppendRows(before: seq<Block>, ghost category: Category, catChecks: seq<Check>) returns (blocks: seq<Block>)
    requires UnderItsHeading(before) && LastHeading(before) == Some(category) && AllIn(catChecks, category)
    ensures RowsOf(blocks) == RowsOf(before) + catChecks && HeadingsOf(blocks) == HeadingsOf(before)
    ensures UnderItsHeading(blocks)
  {
    blocks := before;
    for i := 0 to |catChecks|
      invariant RowsOf(blocks) == RowsOf(before) + catChecks[..i] && HeadingsOf(blocks) == HeadingsOf(before)
      invariant UnderItsHeading(blocks) && LastHeading(blocks) == Some(category)
    {
      RowsOfAppend(blocks, Row(catChecks[i]));
      HeadingsOfAppend(blocks, Row(catChecks[i]));
      AppendUnder(blocks, Row(catChecks[i]));
      blocks := blocks + [Row(catChecks[i])];
      assert catChecks[..i + 1] == catChecks[..i] + [catChecks[i]];
    }
    assert catChecks[..|catChecks|] == catChecks;
  }

  lemma {:induction false} InCategoryConcat(a: seq<Check>, b: seq<Check>, category: Category)
    ensures InCategory(a + b, category) == InCategory(a, category) + InCategory(b, category)
  {
    if a == [] {
      assert a + b == b;
    } else {
      var head := if a[0].category == category then [a[0]] else [];
      InCategoryConcat(a[1..], b, category);
      assert (a + b)[0] == a[0] && (a + b)[1..] == a[1..] + b;
      assert InCategory(a + b, category) == head + InCategory(a[1..] + b, category);
      assert InCategory(a, category) == head + InCategory(a[1..], category);
    }
  }

  lemma {:induction false} InCategoryTwice(checks: seq<Check>, inner: Category, outer: Category)
    ensures InCategory(InCategory(checks, inner), outer) == if inner == outer then InCategory(checks, inner) else []
  {
    if checks == [] {
    } else {
      InCategoryTwice(checks[1..], inner, outer);
      if checks[0].category == inner {
        InCategoryConcat([checks[0]], InCategory(checks[1..], inner), outer);
        assert [checks[0]][1..] == [];
      } else {
        assert InCategory(checks, inner) == InCategory(checks[1..], inner);
      }
    }
  }

  lemma {:induction false} GroupedKeepsCategory(checks: seq<Check>, n: nat, category: Category)
    requires n <= CATEGORIES
    ensures InCategory(Grouped(checks, n), category) == if Rank(category) < n then InCategory(checks, category) else []
  {
    if n > 0 {
      var before, last := Grouped(checks, n - 1), InCategory(checks, Nth(n - 1));
      GroupedKeepsCategory(checks, n - 1, category);
      InCategoryConcat(before, last, category);
      InCategoryTwice(checks, Nth(n - 1), category);
      RankOfNth(category, n - 1);
      assert InCategory(before, category) + [] == InCategory(before, category);
      assert [] + InCategory(last, category) == InCategory(last, category);
    }
  }

  lemma {:induction false} InCategoryCounts(checks: seq<Check>, category: Category, check: Check)
    ensures multiset(InCategory(checks, category))[check] == if check.category == category then multiset(checks)[check] else 0
  {
    if checks == [] {
    } else {
      var head := if checks[0].category == category then [checks[0]] else [];
      var rest := InCategory(checks[1..], category);
      InCategoryCounts(checks[1..], category, check);
      assert checks == [checks[0]] + checks[1..];
      assert multiset(head + rest)[check] == multiset(head)[check] + multiset(rest)[check];
    }
  }

  lemma ConcatCounts(a: seq<Check>, b: seq<Check>, check: Check)
    ensures multiset(a + b)[check] == multiset(a)[check] + multiset(b)[check]
  {
  }

  lemma {:induction false} GroupedCounts(checks: seq<Check>, n: nat, check: Check)
    requires n <= CATEGORIES
    ensures multiset(Grouped(checks, n))[check] == if Rank(check.category) < n then multiset(checks)[check] else 0
  {
    if n == 0 {
    } else {
      GroupedCounts(checks, n - 1, check);
      InCategoryCounts(checks, Nth(n - 1), check);
      ConcatCounts(Grouped(checks, n - 1), InCategory(checks, Nth(n - 1)), check);
      RankOfNth(check.category, n - 1);
    }
  }

  lemma RankOfNth(category: Category, n: nat)
    requires n < CATEGORIES
    ensures Nth(n) == category <==> Rank(category) == n
  {
  }

  // The headings, in the report's order.
  lemma HeadingsInOrder(checks: seq<Check>, category: Category)
    ensures Nth(0) == Authentication && Nth(1) == ProjectPermissions && Nth(2) == IapNetwork
    ensures Nth(3) == VmStatus && Nth(4) == LocalEnvironment && CATEGORIES == 5
    ensures category in Present(checks, CATEGORIES) <==> exists check | check in checks :: check.category == category
  {
    HeadingsUpTo(checks, CATEGORIES, category);
    InCategoryIsEmptyExactlyWhen(checks, category);
  }

  lemma {:induction false} HeadingsUpTo(checks: seq<Check>, n: nat, category: Category)
    requires n <= CATEGORIES
    ensures category in Present(checks, n) <==> Rank(category) < n && InCategory(checks, category) != []
  {
    if n > 0 {
      HeadingsUpTo(checks, n - 1, category);
      RankOfNth(category, n - 1);
    }
  }

  lemma {:induction false} InCategoryIsEmptyExactlyWhen(checks: seq<Check>, category: Category)
    ensures InCategory(checks, category) != [] <==> exists check | check in checks :: check.category == category
  {
    if checks != [] {
      InCategoryIsEmptyExactlyWhen(checks[1..], category);
      assert checks == [checks[0]] + checks[1..];
    }
  }

  // The report lists every check exactly once, and each category's checks in the order they came.
  lemma ReportIsAStablePermutation(checks: seq<Check>, category: Category)
    ensures multiset(Grouped(checks, CATEGORIES)) == multiset(checks)
    ensures InCategory(Grouped(checks, CATEGORIES), category) == InCategory(checks, category)
  {
    forall check: Check
      ensures multiset(Grouped(checks, CATEGORIES))[check] == multiset(checks)[check]
    {
      GroupedCounts(checks, CATEGORIES, check);
    }
    GroupedKeepsCategory(checks, CATEGORIES, category);
  }

  // ---------- the counts ----------

  function HowMany(checks: seq<Check>, status: Status): (n: nat) {
    if checks == [] then 0 else (if checks[0].status == status then 1 else 0) + HowMany(checks[1..], status)
  }

  // It counts how often the status occurs.
  lemma {:induction false} HowManyOccurrences(checks: seq<Check>, status: Status)
    ensures HowMany(checks, status) == multiset(seq(|checks|, i requires 0 <= i < |checks| => checks[i].status))[status]
  {
    if checks != [] {
      var rest := checks[1..];
      HowManyOccurrences(rest, status);
      assert seq(|checks|, i requires 0 <= i < |checks| => checks[i].status)
        == [checks[0].status] + seq(|rest|, i requires 0 <= i < |rest| => rest[i].status);
    }
  }

  // `.count() as u32`
  function Count(checks: seq<Check>, status: Status): (n: nat)
    ensures n < U32_SIZE
  {
    HowMany(checks, status) % U32_SIZE
  }

  lemma {:induction false} StatusesPartition(checks: seq<Check>)
    ensures HowMany(checks, Pass) + HowMany(checks, Warning) + HowMany(checks, Fail) + HowMany(checks, Skipped) == |checks|
  {
    if checks == [] {
    } else {
      StatusesPartition(checks[1..]);
    }
  }

  lemma CountWraps(checks: seq<Check>, status: Status)
    ensures Count(checks, status) <= HowMany(checks, status)
    ensures Count(checks, status) == HowMany(checks, status) <==> HowMany(checks, status) < U32_SIZE
  {
  }

  // The four counts add up to the number of checks exactly when none of them wrapped.
  lemma CountsAddUp(checks: seq<Check>)
    ensures
      Count(checks, Pass) + Count(checks, Warning) + Count(checks, Fail) + Count(checks, Skipped) == |checks|
      <==> forall s :: HowMany(checks, s) < U32_SIZE
  {
    StatusesPartition(checks);
    CountWraps(checks, Pass);
    CountWraps(checks, Warning);
    CountWraps(checks, Fail);
    CountWraps(checks, Skipped);
    if forall s :: HowMany(checks, s) < U32_SIZE {
      assert HowMany(checks, Pass) < U32_SIZE && HowMany(checks, Warning) < U32_SIZE;
      assert HowMany(checks, Fail) < U32_SIZE && HowMany(checks, Skipped) < U32_SIZE;
    }
  }
}
