// What each bridged type's encoder writes and what its decoder reads, transcribed one from the
// `SseEncode` implementations and the other from the `SseDecode` implementations.

module BridgeEncoders {
  import opened FixedInts
  import opened Codec

  const PROVISION_METHOD := Enum(["OsLogin", "InstanceMetadata"])
  const SSH_CREDENTIAL := Record([Field("username", Str), Field("key_path", Opt(Str))])
  const SSH_ACCESS_STATE := Union([Case("Ready", [Field("credential", SSH_CREDENTIAL)]),
    Case("NeedsProvisioning", [Field("username", Str), Field("method", PROVISION_METHOD),
    Field("key_fingerprint", Str)])])
  const DOCTOR_CHECK_CATEGORY := Enum(["Authentication", "ProjectPermissions", "IapNetwork", "VmStatus",
    "LocalEnvironment"])
  const DOCTOR_CHECK_STATUS := Enum(["Pass", "Warning", "Fail", "Skipped"])
  const DOCTOR_CHECK_RESULT := Record([Field("check_id", Str), Field("name", Str),
    Field("category", DOCTOR_CHECK_CATEGORY), Field("status", DOCTOR_CHECK_STATUS), Field("message", Str),
    Field("details", Opt(Str)), Field("suggestion", Opt(Str)), Field("fix_command", Opt(Str)),
    Field("fix_action_id", Opt(Str)), Field("duration_ms", Int(U64))])
  const DOCTOR_REPORT := Record([Field("checks", Vec(DOCTOR_CHECK_RESULT)), Field("project_id", Str),
    Field("zone", Str), Field("instance_name", Str), Field("generated_at", Str),
    Field("gcloud_version", Opt(Str)), Field("gcloud_account", Opt(Str)),
    Field("total_duration_ms", Int(U64)), Field("pass_count", Int(U32)), Field("warning_count", Int(U32)),
    Field("fail_count", Int(U32)), Field("skipped_count", Int(U32))])
  const DISK_STATUS := Record([Field("name", Str), Field("disk_type", Opt(Str)),
    Field("size_gb", Opt(Int(U32))), Field("is_boot", Bool), Field("auto_delete", Bool), Field("mode", Str)])
  const GUEST_AGENT_STATUS := Record([Field("is_reporting", Bool), Field("os_type", Opt(Str)),
    Field("os_version", Opt(Str)), Field("last_heartbeat", Opt(Str))])
  const NETWORK_INTERFACE := Record([Field("network", Str), Field("subnetwork", Opt(Str)),
    Field("internal_ip", Opt(Str)), Field("external_ip", Opt(Str)), Field("network_tier", Opt(Str))])
  const STRING_PAIR := Record([Field("0", Str), Field("1", Str)])
  const VM_DIAGNOSTICS := Record([Field("instance_name", Str), Field("project_id", Str), Field("zone", Str),
    Field("status", Str), Field("last_start_timestamp", Opt(Str)), Field("last_stop_timestamp", Opt(Str)),
    Field("guest_agent_status", GUEST_AGENT_STATUS), Field("network_interfaces", Vec(NETWORK_INTERFACE)),
    Field("disks", Vec(DISK_STATUS)), Field("machine_type", Str), Field("labels", Vec(STRING_PAIR)),
    Field("creation_timestamp", Opt(Str))])
  const GCP_INSTANCE := Record([Field("name", Str), Field("status", Str), Field("zone", Str),
    Field("machine_type", Str), Field("cpu_count", Opt(Int(U32))), Field("memory_mb", Opt(Int(U32))),
    Field("disk_gb", Opt(Int(U32))), Field("labels", Vec(STRING_PAIR)), Field("os_login_enabled", Bool),
    Field("is_windows", Bool), Field("internal_ip", Opt(Str)), Field("external_ip", Opt(Str))])
  const KEYRING_PROBLEM := Enum(["Unreachable", "Refused", "Pending"])
  const AUTH_STATUS := Record([Field("gcloud_installed", Bool), Field("authenticated", Bool),
    Field("gcloud_required", Bool), Field("keyring_problem", Opt(KEYRING_PROBLEM))])
  const DATABASE_TYPE := Enum(["MySQL", "PostgreSQL", "SQLServer", "Redis", "MongoDB"])
  const DB_CLIENT_TYPE := Enum(["DBeaver", "MySQLWorkbench", "PgAdmin", "AzureDataStudio", "RedisInsight",
    "MongoDBCompass"])
  const RDP_CLIENT_TYPE := Enum(["Remmina", "FreeRdp", "Krdc", "GnomeConnections", "WindowsApp"])
  const VNC_CLIENT_TYPE := Enum(["Remmina", "TigerVnc", "Krdc", "Vinagre", "ScreenSharing"])
  const VNC_QUALITY := Enum(["High", "Medium", "Low", "Auto"])
}

module BridgeDecoders {
  import opened FixedInts
  import opened Codec

  const PROVISION_METHOD := Enum(["OsLogin", "InstanceMetadata"])
  const SSH_CREDENTIAL := Record([Field("username", Str), Field("key_path", Opt(Str))])
  const SSH_ACCESS_STATE := Union([Case("Ready", [Field("credential", SSH_CREDENTIAL)]),
    Case("NeedsProvisioning", [Field("username", Str), Field("method", PROVISION_METHOD),
    Field("key_fingerprint", Str)])])
  const DOCTOR_CHECK_CATEGORY := Enum(["Authentication", "ProjectPermissions", "IapNetwork", "VmStatus",
    "LocalEnvironment"])
  const DOCTOR_CHECK_STATUS := Enum(["Pass", "Warning", "Fail", "Skipped"])
  const DOCTOR_CHECK_RESULT := Record([Field("check_id", Str), Field("name", Str),
    Field("category", DOCTOR_CHECK_CATEGORY), Field("status", DOCTOR_CHECK_STATUS), Field("message", Str),
    Field("details", Opt(Str)), Field("suggestion", Opt(Str)), Field("fix_command", Opt(Str)),
    Field("fix_action_id", Opt(Str)), Field("duration_ms", Int(U64))])
  const DOCTOR_REPORT := Record([Field("checks", Vec(DOCTOR_CHECK_RESULT)), Field("project_id", Str),
    Field("zone", Str), Field("instance_name", Str), Field("generated_at", Str),
    Field("gcloud_version", Opt(Str)), Field("gcloud_account", Opt(Str)),
    Field("total_duration_ms", Int(U64)), Field("pass_count", Int(U32)), Field("warning_count", Int(U32)),
    Field("fail_count", Int(U32)), Field("skipped_count", Int(U32))])
  const DISK_STATUS := Record([Field("name", Str), Field("disk_type", Opt(Str)),
    Field("size_gb", Opt(Int(U32))), Field("is_boot", Bool), Field("auto_delete", Bool), Field("mode", Str)])
  const GUEST_AGENT_STATUS := Record([Field("is_reporting", Bool), Field("os_type", Opt(Str)),
    Field("os_version", Opt(Str)), Field("last_heartbeat", Opt(Str))])
  const NETWORK_INTERFACE := Record([Field("network", Str), Field("subnetwork", Opt(Str)),
    Field("internal_ip", Opt(Str)), Field("external_ip", Opt(Str)), Field("network_tier", Opt(Str))])
  const STRING_PAIR := Record([Field("0", Str), Field("1", Str)])
  const VM_DIAGNOSTICS := Record([Field("instance_name", Str), Field("project_id", Str), Field("zone", Str),
    Field("status", Str), Field("last_start_timestamp", Opt(Str)), Field("last_stop_timestamp", Opt(Str)),
    Field("guest_agent_status", GUEST_AGENT_STATUS), Field("network_interfaces", Vec(NETWORK_INTERFACE)),
    Field("disks", Vec(DISK_STATUS)), Field("machine_type", Str), Field("labels", Vec(STRING_PAIR)),
    Field("creation_timestamp", Opt(Str))])
  const GCP_INSTANCE := Record([Field("name", Str), Field("status", Str), Field("zone", Str),
    Field("machine_type", Str), Field("cpu_count", Opt(Int(U32))), Field("memory_mb", Opt(Int(U32))),
    Field("disk_gb", Opt(Int(U32))), Field("labels", Vec(STRING_PAIR)), Field("os_login_enabled", Bool),
    Field("is_windows", Bool), Field("internal_ip", Opt(Str)), Field("external_ip", Opt(Str))])
  const KEYRING_PROBLEM := Enum(["Unreachable", "Refused", "Pending"])
  const AUTH_STATUS := Record([Field("gcloud_installed", Bool), Field("authenticated", Bool),
    Field("gcloud_required", Bool), Field("keyring_problem", Opt(KEYRING_PROBLEM))])
  const DATABASE_TYPE := Enum(["MySQL", "PostgreSQL", "SQLServer", "Redis", "MongoDB"])
  const DB_CLIENT_TYPE := Enum(["DBeaver", "MySQLWorkbench", "PgAdmin", "AzureDataStudio", "RedisInsight",
    "MongoDBCompass"])
  const RDP_CLIENT_TYPE := Enum(["Remmina", "FreeRdp", "Krdc", "GnomeConnections", "WindowsApp"])
  const VNC_CLIENT_TYPE := Enum(["Remmina", "TigerVnc", "Krdc", "Vinagre", "ScreenSharing"])
  const VNC_QUALITY := Enum(["High", "Medium", "Low", "Auto"])
}

// The bridged types modelled here, and the theorem about all of them.
module BridgeTypes {
  import opened Wrappers
  import opened Utf8
  import opened FixedInts
  import opened Codec
  import opened CodecProofs
  import E = BridgeEncoders
  import D = BridgeDecoders

  datatype Bridged =
    | ProvisionMethod | SshCredential | SshAccessState | DoctorCheckCategory | DoctorCheckStatus
    | DoctorCheckResult | DoctorReport | DiskStatus | GuestAgentStatus | NetworkInterface | StringPair
    | VmDiagnostics | GcpInstance | KeyringProblem | AuthStatus | DatabaseType | DbClientType | RdpClientType
    | VncClientType | VncQuality

  function EncoderOf(t: Bridged): (s: Schema) {
    match t
    case ProvisionMethod => E.PROVISION_METHOD
    case SshCredential => E.SSH_CREDENTIAL
    case SshAccessState => E.SSH_ACCESS_STATE
    case DoctorCheckCategory => E.DOCTOR_CHECK_CATEGORY
    case DoctorCheckStatus => E.DOCTOR_CHECK_STATUS
    case DoctorCheckResult => E.DOCTOR_CHECK_RESULT
    case DoctorReport => E.DOCTOR_REPORT
    case DiskStatus => E.DISK_STATUS
    case GuestAgentStatus => E.GUEST_AGENT_STATUS
    case NetworkInterface => E.NETWORK_INTERFACE
    case StringPair => E.STRING_PAIR
    case VmDiagnostics => E.VM_DIAGNOSTICS
    case GcpInstance => E.GCP_INSTANCE
    case KeyringProblem => E.KEYRING_PROBLEM
    case AuthStatus => E.AUTH_STATUS
    case DatabaseType => E.DATABASE_TYPE
    case DbClientType => E.DB_CLIENT_TYPE
    case RdpClientType => E.RDP_CLIENT_TYPE
    case VncClientType => E.VNC_CLIENT_TYPE
    case VncQuality => E.VNC_QUALITY
  }

  function DecoderOf(t: Bridged): (s: Schema) {
    match t
    case ProvisionMethod => D.PROVISION_METHOD
    case SshCredential => D.SSH_CREDENTIAL
    case SshAccessState => D.SSH_ACCESS_STATE
    case DoctorCheckCategory => D.DOCTOR_CHECK_CATEGORY
    case DoctorCheckStatus => D.DOCTOR_CHECK_STATUS
    case DoctorCheckResult => D.DOCTOR_CHECK_RESULT
    case DoctorReport => D.DOCTOR_REPORT
    case DiskStatus => D.DISK_STATUS
    case GuestAgentStatus => D.GUEST_AGENT_STATUS
    case NetworkInterface => D.NETWORK_INTERFACE
    case StringPair => D.STRING_PAIR
    case VmDiagnostics => D.VM_DIAGNOSTICS
    case GcpInstance => D.GCP_INSTANCE
    case KeyringProblem => D.KEYRING_PROBLEM
    case AuthStatus => D.AUTH_STATUS
    case DatabaseType => D.DATABASE_TYPE
    case DbClientType => D.DB_CLIENT_TYPE
    case RdpClientType => D.RDP_CLIENT_TYPE
    case VncClientType => D.VNC_CLIENT_TYPE
    case VncQuality => D.VNC_QUALITY
  }

  lemma SshCredentialAgrees()
    ensures E.SSH_CREDENTIAL == D.SSH_CREDENTIAL && WellFormed(E.SSH_CREDENTIAL)
  {
  }

  lemma SshAccessStateAgrees()
    ensures E.SSH_ACCESS_STATE == D.SSH_ACCESS_STATE && WellFormed(E.SSH_ACCESS_STATE)
  {
    assert WellFormed(E.PROVISION_METHOD);
    SshCredentialAgrees();
  }

  lemma DoctorCheckResultAgrees()
    ensures E.DOCTOR_CHECK_RESULT == D.DOCTOR_CHECK_RESULT && WellFormed(E.DOCTOR_CHECK_RESULT)
  {
    assert WellFormed(E.DOCTOR_CHECK_CATEGORY);
    assert WellFormed(E.DOCTOR_CHECK_STATUS);
  }

  lemma DoctorReportAgrees()
    ensures E.DOCTOR_REPORT == D.DOCTOR_REPORT && WellFormed(E.DOCTOR_REPORT)
  {
    DoctorCheckResultAgrees();
    assert WellFormed(Vec(E.DOCTOR_CHECK_RESULT));
  }

  lemma DiskStatusAgrees()
    ensures E.DISK_STATUS == D.DISK_STATUS && WellFormed(E.DISK_STATUS)
  {
  }

  lemma GuestAgentStatusAgrees()
    ensures E.GUEST_AGENT_STATUS == D.GUEST_AGENT_STATUS && WellFormed(E.GUEST_AGENT_STATUS)
  {
  }

  lemma NetworkInterfaceAgrees()
    ensures E.NETWORK_INTERFACE == D.NETWORK_INTERFACE && WellFormed(E.NETWORK_INTERFACE)
  {
  }

  lemma StringPairAgrees()
    ensures E.STRING_PAIR == D.STRING_PAIR && WellFormed(E.STRING_PAIR)
  {
  }

  lemma VmDiagnosticsAgrees()
    ensures E.VM_DIAGNOSTICS == D.VM_DIAGNOSTICS && WellFormed(E.VM_DIAGNOSTICS)
  {
    DiskStatusAgrees();
    assert WellFormed(Vec(E.DISK_STATUS));
    GuestAgentStatusAgrees();
    NetworkInterfaceAgrees();
    assert WellFormed(Vec(E.NETWORK_INTERFACE));
    StringPairAgrees();
    assert WellFormed(Vec(E.STRING_PAIR));
  }

  lemma GcpInstanceAgrees()
    ensures E.GCP_INSTANCE == D.GCP_INSTANCE && WellFormed(E.GCP_INSTANCE)
  {
    StringPairAgrees();
    assert WellFormed(Vec(E.STRING_PAIR));
  }

  lemma AuthStatusAgrees()
    ensures E.AUTH_STATUS == D.AUTH_STATUS && WellFormed(E.AUTH_STATUS)
  {
    assert WellFormed(E.KEYRING_PROBLEM);
    assert WellFormed(Opt(E.KEYRING_PROBLEM));
  }

  // The layout written and the layout read are the same one, and it names no field or variant twice.
  lemma SidesAgree(t: Bridged)
    ensures EncoderOf(t) == DecoderOf(t) && WellFormed(EncoderOf(t))
  {
    match t
    case ProvisionMethod =>
    case SshCredential => SshCredentialAgrees();
    case SshAccessState => SshAccessStateAgrees();
    case DoctorCheckCategory =>
    case DoctorCheckStatus =>
    case DoctorCheckResult => DoctorCheckResultAgrees();
    case DoctorReport => DoctorReportAgrees();
    case DiskStatus => DiskStatusAgrees();
    case GuestAgentStatus => GuestAgentStatusAgrees();
    case NetworkInterface => NetworkInterfaceAgrees();
    case StringPair => StringPairAgrees();
    case VmDiagnostics => VmDiagnosticsAgrees();
    case GcpInstance => GcpInstanceAgrees();
    case KeyringProblem =>
    case AuthStatus => AuthStatusAgrees();
    case DatabaseType =>
    case DbClientType =>
    case RdpClientType =>
    case VncClientType =>
    case VncQuality =>
  }

  // For every bridged type, value and trailing bytes: what the type's encoder writes, its decoder reads
  // back, leaving the trailing bytes alone, exactly when no vector or string has 2^31 elements or bytes.
  lemma EveryBridgedValueRoundTrips(order: Order, t: Bridged, v: Val, rest: seq<Byte>)
    requires Typed(EncoderOf(t), v)
    ensures Dec(order, DecoderOf(t), Enc(order, EncoderOf(t), v) + rest) == Some((v, rest)) <==> Sized(EncoderOf(t), v)
  {
    SidesAgree(t);
    RoundTripExactlyWhenSized(order, EncoderOf(t), v, rest);
  }
}
