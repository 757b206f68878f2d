// One Compute instance, read twice: by the gcloud engine, which deserializes the CLI's JSON into records,
// and by the REST client, which picks fields out of the API's JSON.
module ComputeInstance {
  import opened Wrappers

  datatype Json = Null | Bool(b: bool) | Number | Str(s: string) | Arr(items: seq<Json>) | Obj(fields: map<string, Json>)

  datatype Instance = Instance(
    name: string,
    status: string,
    zone: string,
    machineType: string,
    cpuCount: Option<nat>,
    memoryMb: Option<nat>,
    diskGb: Option<nat>,
    labels: map<string, string>,
    osLoginEnabled: bool,
    isWindows: bool,
    internalIp: Option<string>,
    externalIp: Option<string>
  )

  // Library code the two sides share: Unicode lower-casing, and the zone pattern.
  datatype Library = Library(toLowercase: string -> string, isZone: string -> bool)

  // ---------- strings ----------

  function Split(s: string, separator: char): (parts: seq<string>)
    ensures |parts| > 0
  {
    if s == "" then [""]
    else
      var rest := Split(s[1..], separator);
      if s[0] == separator then [""] + rest else [[s[0]] + rest[0]] + rest[1..]
  }

  function LastSegment(s: string): (segment: string) {
    var parts := Split(s, '/');
    parts[|parts| - 1]
  }

  function AsciiLower(c: char): (lower: char) {
    if 'A' <= c <= 'Z' then c - 'A' + 'a' else c
  }

  predicate EqIgnoreAsciiCase(s: string, t: string) {
    |s| == |t| && forall i | 0 <= i < |s| :: AsciiLower(s[i]) == AsciiLower(t[i])
  }

  predicate AllDigits(s: string) {
    forall i | 0 <= i < |s| :: '0' <= s[i] <= '9'
  }

  function Decimal(digits: string): (n: nat)
    requires AllDigits(digits)
  {
    if digits == "" then 0 else Decimal(digits[..|digits| - 1]) * 10 + (digits[|digits| - 1] - '0') as nat
  }

  // `str::parse::<u32>`
  function ParseU32(s: string): (n: Option<nat>) {
    var digits := if s != "" && s[0] == '+' then s[1..] else s;
    if digits != "" && AllDigits(digits) && Decimal(digits) < U32_SIZE then Some(Decimal(digits)) else None
  }

  // ---------- what the string functions do ----------

  lemma {:induction false} NoSeparator(s: string, separator: char)
    requires separator !in s
    ensures Split(s, separator) == [s]
  {
    if s == "" {
    } else {
      NoSeparator(s[1..], separator);
      assert [s[0]] + s[1..] == s;
    }
  }

  lemma {:induction false} FirstPart(word: string, separator: char, rest: string)
    requires separator !in word
    ensures Split(word + [separator] + rest, separator) == [word] + Split(rest, separator)
  {
    var s := word + [separator] + rest;
    if word == "" {
      assert s[0] == separator && s[1..] == rest;
    } else {
      FirstPart(word[1..], separator, rest);
      assert s[0] == word[0] && s[1..] == word[1..] + [separator] + rest;
      assert word == [word[0]] + word[1..];
    }
  }

  // The last segment of a URL is what follows its last slash, or all of it.
  lemma {:induction false} LastSegmentIsTheLast(before: string, last: string)
    requires '/' !in last
    ensures LastSegment(last) == last && LastSegment(before + "/" + last) == last
    decreases |before|
  {
    NoSeparator(last, '/');
    if '/' in before {
      var i := FirstSlash(before);
      var word, rest := before[..i], before[i + 1..];
      LastSegmentIsTheLast(rest, last);
      FirstPart(word, '/', rest + "/" + last);
      assert before + "/" + last == word + "/" + (rest + "/" + last);
    } else {
      FirstPart(before, '/', last);
    }
  }

  lemma {:induction false} FirstSlash(s: string) returns (i: nat)
    requires '/' in s
    ensures i < |s| && s[i] == '/' && '/' !in s[..i]
  {
    i := 0;
    if s[0] != '/' {
      assert s == [s[0]] + s[1..];
      var j := FirstSlash(s[1..]);
      i := j + 1;
      assert s[..i] == [s[0]] + s[1..][..j];
    }
  }

  // A number in decimal, without leading zeros.
  function Print(n: nat): (digits: string) {
    if n < 10 then ['0' + n as char] else Print(n / 10) + ['0' + (n % 10) as char]
  }

  lemma {:induction false} PrintIsDecimal(n: nat)
    ensures Print(n) != "" && AllDigits(Print(n)) && Decimal(Print(n)) == n
  {
    if n < 10 {
      assert Print(n)[..0] == "";
    } else {
      PrintIsDecimal(n / 10);
      var front := Print(n / 10);
      assert Print(n)[..|Print(n)| - 1] == front;
    }
  }

  // A number in decimal is read back if it fits 32 bits, with or without a plus sign; anything else that is
  // not all digits, an empty string and a lone sign are refused.
  lemma ParsesDecimals(n: nat, s: string)
    ensures ParseU32(Print(n)) == (if n < 0x1_0000_0000 then Some(n) else None) == ParseU32("+" + Print(n))
    ensures ParseU32("") == None && ParseU32("+") == None
    ensures s != "" && (exists i | 0 < i < |s| :: !('0' <= s[i] <= '9')) ==> ParseU32(s) == None
    ensures s != "" && s[0] != '+' && !('0' <= s[0] <= '9') ==> ParseU32(s) == None
  {
    PrintIsDecimal(n);
    assert Print(n)[0] != '+';
    assert ("+" + Print(n))[1..] == Print(n);
    if i: int :| 0 < i < |s| && !('0' <= s[i] <= '9') {
      assert s[1..][i - 1] == s[i];
    }
  }

  // ASCII case alone is ignored.
  lemma TrueInAnyCase(s: string)
    ensures EqIgnoreAsciiCase(s, "true") <==>
      |s| == 4 && s[0] in {'t', 'T'} && s[1] in {'r', 'R'} && s[2] in {'u', 'U'} && s[3] in {'e', 'E'}
  {
    if |s| == 4 {
      LowersTo(s[0], 't');
      LowersTo(s[1], 'r');
      LowersTo(s[2], 'u');
      LowersTo(s[3], 'e');
    }
  }

  lemma LowersTo(c: char, lower: char)
    requires 'a' <= lower <= 'z'
    ensures AsciiLower(lower) == lower
    ensures AsciiLower(c) == lower <==> c == lower || c == lower - 'a' + 'A'
  {
  }

  // ---------- machine types ----------

  // Megabytes per CPU.
  function MemoryRate(series: string, typeName: string): (rate: nat) {
    match (series, typeName)
    case ("e2", "standard") => 4096
    case ("e2", "highmem") => 8192
    case ("e2", "highcpu") => 1024
    case ("n1", "standard") => 3840
    case ("n1", "highmem") => 6656
    case ("n1", "highcpu") => 922
    case ("n2", "standard") => 4096
    case ("n2d", "standard") => 4096
    case ("n2", "highmem") => 8192
    case ("n2d", "highmem") => 8192
    case ("n2", "highcpu") => 1024
    case ("n2d", "highcpu") => 1024
    case ("c2", "standard") => 4096
    case ("c3", "standard") => 4096
    case ("c3", "highmem") => 8192
    case ("c3", "highcpu") => 2048
    case ("t2d", "standard") => 4096
    case ("m1", "megamem") => 14336
    case ("m1", "ultramem") => 24576
    case ("m2", "megamem") => 14336
    case ("m2", "ultramem") => 24576
    case ("m3", "megamem") => 14336
    case ("m3", "ultramem") => 24576
    case ("a2", _) => 12288
    case _ => 4096
  }

  // `get_machine_specs`, which the two files hold word for word alike. The product wraps at 32 bits, as it
  // does in a release build.
  function MachineSpecs(machineType: string): (specs: Option<(nat, nat)>) {
    if machineType == "e2-micro" then Some((2, 1024))
    else if machineType == "e2-small" then Some((2, 2048))
    else if machineType == "e2-medium" then Some((2, 4096))
    else if machineType == "f1-micro" then Some((1, 614))
    else if machineType == "g1-small" then Some((1, 1740))
    else
      var parts := Split(machineType, '-');
      if |parts| < 3 then None
      else
        match ParseU32(parts[2])
        case None => None
        case Some(cpus) => Some((cpus, cpus * MemoryRate(parts[0], parts[1]) % U32_SIZE))
  }

  // The machine types outside the pattern.
  lemma SmallMachineTypes()
    ensures MachineSpecs("e2-micro") == Some((2, 1024)) && MachineSpecs("e2-small") == Some((2, 2048))
    ensures MachineSpecs("e2-medium") == Some((2, 4096)) && MachineSpecs("f1-micro") == Some((1, 614))
    ensures MachineSpecs("g1-small") == Some((1, 1740))
  {
  }

  lemma MemoryRates(series: string, typeName: string)
    ensures MemoryRate("e2", "standard") == 4096 && MemoryRate("e2", "highmem") == 8192 && MemoryRate("e2", "highcpu") == 1024
    ensures MemoryRate("n1", "standard") == 3840 && MemoryRate("n1", "highmem") == 6656 && MemoryRate("n1", "highcpu") == 922
    ensures MemoryRate("n2", "standard") == 4096 && MemoryRate("n2", "highmem") == 8192 && MemoryRate("n2", "highcpu") == 1024
    ensures MemoryRate("n2d", "standard") == 4096 && MemoryRate("n2d", "highmem") == 8192 && MemoryRate("n2d", "highcpu") == 1024
    ensures MemoryRate("c2", "standard") == 4096 && MemoryRate("t2d", "standard") == 4096
    ensures MemoryRate("c3", "standard") == 4096 && MemoryRate("c3", "highmem") == 8192 && MemoryRate("c3", "highcpu") == 2048
    ensures MemoryRate("m1", "megamem") == MemoryRate("m2", "megamem") == MemoryRate("m3", "megamem") == 14336
    ensures MemoryRate("m1", "ultramem") == MemoryRate("m2", "ultramem") == MemoryRate("m3", "ultramem") == 24576
    ensures MemoryRate("a2", typeName) == 12288
    ensures series !in {"e2", "n1", "n2", "n2d", "c3", "m1", "m2", "m3", "a2"} ==> MemoryRate(series, typeName) == 4096
  {
  }

  // A type with three parts or more has as many CPUs as the third says and memory by the first two, wrapped
  // at 32 bits; what stands behind a further dash does not matter.
  lemma MachineSpecsByParts(series: string, typeName: string, digits: string, cpus: nat)
    requires '-' !in series && '-' !in typeName && ParseU32(digits) == Some(cpus)
    ensures MachineSpecs(series + "-" + typeName + "-" + digits) == Some((cpus, cpus * MemoryRate(series, typeName) % 0x1_0000_0000))
  {
    assert '-' !in digits;
    NoSeparator(digits, '-');
    SpecsByParts(series, typeName, digits, digits, cpus);
  }

  lemma MachineSpecsByMoreParts(series: string, typeName: string, digits: string, cpus: nat, more: string)
    requires '-' !in series && '-' !in typeName && ParseU32(digits) == Some(cpus)
    ensures MachineSpecs(series + "-" + typeName + "-" + (digits + "-" + more))
         == Some((cpus, cpus * MemoryRate(series, typeName) % 0x1_0000_0000))
  {
    assert '-' !in digits;
    FirstPart(digits, '-', more);
    SpecsByParts(series, typeName, digits + "-" + more, digits, cpus);
  }

  lemma SpecsByParts(series: string, typeName: string, rest: string, third: string, cpus: nat)
    requires '-' !in series && '-' !in typeName
    requires Split(rest, '-')[0] == third && ParseU32(third) == Some(cpus)
    ensures MachineSpecs(series + "-" + typeName + "-" + rest) == Some((cpus, cpus * MemoryRate(series, typeName) % 0x1_0000_0000))
  {
    var s := series + "-" + typeName + "-" + rest;
    ThreeParts(series, typeName, rest);
    assert s[|series|] == '-' && s[|series| + 1 + |typeName|] == '-';
    TwoDashes(s, |series|, |series| + 1 + |typeName|);
    var parts := Split(s, '-');
    assert parts[0] == series && parts[1] == typeName && parts[2] == third;
  }

  lemma TwoDashes(s: string, i: nat, j: nat)
    requires i < j < |s| && s[i] == '-' && s[j] == '-'
    ensures s != "e2-micro" && s != "e2-small" && s != "e2-medium" && s != "f1-micro" && s != "g1-small"
  {
  }

  lemma ThreeParts(series: string, typeName: string, rest: string)
    requires '-' !in series && '-' !in typeName
    ensures Split(series + "-" + typeName + "-" + rest, '-') == [series, typeName] + Split(rest, '-')
  {
    FirstPart(series, '-', typeName + "-" + rest);
    FirstPart(typeName, '-', rest);
    assert series + "-" + (typeName + "-" + rest) == series + "-" + typeName + "-" + rest;
    assert [series] + ([typeName] + Split(rest, '-')) == [series, typeName] + Split(rest, '-');
  }

  // ---------- reading JSON ----------

  // `value[key]`: null when there is no such field, or no object to have it.
  function Field(j: Json, key: string): (value: Json) {
    if j.Obj? && key in j.fields then j.fields[key] else Null
  }

  function AsStr(j: Json): (s: Option<string>) {
    if j.Str? then Some(j.s) else None
  }

  function StrOr(j: Json, default_: string): (s: string) {
    if j.Str? then j.s else default_
  }

  function Items(j: Json): (items: seq<Json>) {
    if j.Arr? then j.items else []
  }

  function FirstWhere<T>(s: seq<T>, p: T -> bool): (at: Option<nat>)
    ensures at.Some? ==> at.value < |s| && p(s[at.value]) && forall i | 0 <= i < at.value :: !p(s[i])
    ensures at.None? ==> forall i | 0 <= i < |s| :: !p(s[i])
  {
    if s == [] then None
    else if p(s[0]) then Some(0)
    else
      var at := FirstWhere(s[1..], p);
      assert forall i | 0 < i < |s| :: s[i] == s[1..][i - 1];
      if at.None? then None else Some(at.value + 1)
  }

  // ---------- the REST client ----------

  function RestExternalIp(configs: seq<Json>): (ip: Option<string>) {
    var at := FirstWhere(configs, (c: Json) => AsStr(Field(c, "natIP")).Some?);
    if at.None? then None else AsStr(Field(configs[at.value], "natIP"))
  }

  function RestIps(instance: Json): (ips: (Option<string>, Option<string>)) {
    var nics := Items(Field(instance, "networkInterfaces"));
    if nics == [] then (None, None)
    else (AsStr(Field(nics[0], "networkIP")), RestExternalIp(Items(Field(nics[0], "accessConfigs"))))
  }

  function RestDisk(disks: seq<Json>): (disk: Option<Json>) {
    var at := FirstWhere(disks, (d: Json) => Field(d, "boot") == Bool(true));
    if at.Some? then Some(disks[at.value]) else if disks == [] then None else Some(disks[0])
  }

  function RestDiskGb(disks: seq<Json>): (gb: Option<nat>) {
    var disk := RestDisk(disks);
    if disk.None? || !Field(disk.value, "diskSizeGb").Str? then None else ParseU32(Field(disk.value, "diskSizeGb").s)
  }

  function RestLabels(j: Json): (labels: map<string, string>) {
    if j.Obj? then map key | key in j.fields :: StrOr(j.fields[key], "") else map[]
  }

  predicate RestOsLoginItem(item: Json) {
    var key := StrOr(Field(item, "key"), "");
    (key == "enable-oslogin" || key == "enable-os-login") && EqIgnoreAsciiCase(StrOr(Field(item, "value"), ""), "true")
  }

  predicate RestWindowsDisk(lib: Library, disk: Json) {
    var licenses := Items(Field(disk, "licenses"));
    exists i | 0 <= i < |licenses| :: Contains(lib.toLowercase(StrOr(licenses[i], "")), "windows")
  }

  predicate RestOsLogin(items: seq<Json>) {
    exists i | 0 <= i < |items| :: RestOsLoginItem(items[i])
  }

  predicate RestWindows(lib: Library, disks: seq<Json>) {
    exists i | 0 <= i < |disks| :: RestWindowsDisk(lib, disks[i])
  }

  function RestInstance(lib: Library, j: Json): (instance: Instance) {
    var machineType := if Field(j, "machineType").Str? then LastSegment(Field(j, "machineType").s) else "";
    var specs := MachineSpecs(machineType);
    var disks := Items(Field(j, "disks"));
    var metadata := Items(Field(Field(j, "metadata"), "items"));
    var ips := RestIps(j);
    Instance(
      StrOr(Field(j, "name"), ""),
      StrOr(Field(j, "status"), "UNKNOWN"),
      if Field(j, "zone").Str? then LastSegment(Field(j, "zone").s) else "",
      machineType,
      if specs.None? then None else Some(specs.value.0),
      if specs.None? then None else Some(specs.value.1),
      RestDiskGb(disks),
      RestLabels(Field(j, "labels")),
      RestOsLogin(metadata),
      RestWindows(lib, disks),
      ips.0,
      ips.1)
  }

  // ---------- the gcloud engine: records ----------

  datatype RawDisk = RawDisk(diskSizeGb: Option<string>, boot: Option<bool>, licenses: Option<seq<string>>)
  datatype RawItem = RawItem(key: string, value: Option<string>)
  datatype RawMetadata = RawMetadata(items: Option<seq<RawItem>>)
  datatype RawAccessConfig = RawAccessConfig(natIp: Option<string>)
  datatype RawInterface = RawInterface(networkIp: Option<string>, accessConfigs: Option<seq<RawAccessConfig>>)
  datatype RawInstance = RawInstance(
    name: string,
    status: string,
    zone: string,
    machineType: Option<string>,
    disks: Option<seq<RawDisk>>,
    labels: Option<map<string, string>>,
    metadata: Option<RawMetadata>,
    networkInterfaces: Option<seq<RawInterface>>
  )

  // Deserializing gives None for JSON that does not fit. A record's fields come from an object, where an
  // absent one reads as null, or from an array that lists them all in their order.
  function Record(j: Json, names: seq<string>): (fields: Option<seq<Json>>)
    ensures fields.Some? ==> |fields.value| == |names|
  {
    match j
    case Obj(_) => Some(seq(|names|, i requires 0 <= i < |names| => Field(j, names[i])))
    case Arr(items) => if |items| == |names| then Some(items) else None
    case _ => None
  }

  function Optional<T>(j: Json, parse: Json -> Option<T>): (r: Option<Option<T>>)
  {
    if j.Null? then Some(None)
    else
      var parsed := parse(j);
      if parsed.None? then None else Some(parsed)
  }

  function Elements<T>(items: seq<Json>, parse: Json -> Option<T>): (r: Option<seq<T>>)
    ensures r.Some? <==> forall i | 0 <= i < |items| :: parse(items[i]).Some?
    ensures r.Some? ==> |r.value| == |items| && forall i | 0 <= i < |items| :: parse(items[i]) == Some(r.value[i])
  {
    if items == [] then Some([])
    else
      var first, rest := parse(items[0]), Elements(items[1..], parse);
      assert forall i | 0 < i < |items| :: items[i] == items[1..][i - 1];
      if first.None? || rest.None? then None else Some([first.value] + rest.value)
  }

  function ParseVec<T>(j: Json, parse: Json -> Option<T>): (r: Option<seq<T>>) {
    if j.Arr? then Elements(j.items, parse) else None
  }

  function ParseBool(j: Json): (b: Option<bool>) {
    if j.Bool? then Some(j.b) else None
  }

  function ParseLabels(j: Json): (labels: Option<map<string, string>>) {
    if j.Obj? && forall key | key in j.fields :: j.fields[key].Str?
    then Some(map key | key in j.fields :: j.fields[key].s)
    else None
  }

  function ParseDisk(j: Json): (disk: Option<RawDisk>) {
    var f := Record(j, ["diskSizeGb", "boot", "licenses"]);
    if f.None? then None
    else
      var size := Optional(f.value[0], AsStr);
      var boot := Optional(f.value[1], ParseBool);
      var licenses := Optional(f.value[2], x => ParseVec(x, AsStr));
      if size.None? || boot.None? || licenses.None? then None else Some(RawDisk(size.value, boot.value, licenses.value))
  }

  function ParseItem(j: Json): (item: Option<RawItem>) {
    var f := Record(j, ["key", "value"]);
    if f.None? then None
    else
      var key := AsStr(f.value[0]);
      var value := Optional(f.value[1], AsStr);
      if key.None? || value.None? then None else Some(RawItem(key.value, value.value))
  }

  function ParseMetadata(j: Json): (metadata: Option<RawMetadata>) {
    var f := Record(j, ["items"]);
    if f.None? then None
    else
      var items := Optional(f.value[0], x => ParseVec(x, ParseItem));
      if items.None? then None else Some(RawMetadata(items.value))
  }

  function ParseAccessConfig(j: Json): (config: Option<RawAccessConfig>) {
    var f := Record(j, ["natIP"]);
    if f.None? then None
    else
      var natIp := Optional(f.value[0], AsStr);
      if natIp.None? then None else Some(RawAccessConfig(natIp.value))
  }

  function ParseInterface(j: Json): (nic: Option<RawInterface>) {
    var f := Record(j, ["networkIP", "accessConfigs"]);
    if f.None? then None
    else
      var networkIp := Optional(f.value[0], AsStr);
      var configs := Optional(f.value[1], x => ParseVec(x, ParseAccessConfig));
      if networkIp.None? || configs.None? then None else Some(RawInterface(networkIp.value, configs.value))
  }

  function ParseInstance(j: Json): (raw: Option<RawInstance>) {
    var f := Record(j, ["name", "status", "zone", "machineType", "disks", "labels", "metadata", "networkInterfaces"]);
    if f.None? then None
    else
      var name, status, zone := AsStr(f.value[0]), AsStr(f.value[1]), AsStr(f.value[2]);
      var machineType := Optional(f.value[3], AsStr);
      var disks := Optional(f.value[4], x => ParseVec(x, ParseDisk));
      var labels := Optional(f.value[5], ParseLabels);
      var metadata := Optional(f.value[6], ParseMetadata);
      var nics := Optional(f.value[7], x => ParseVec(x, ParseInterface));
      if name.None? || status.None? || zone.None? || machineType.None? || disks.None? || labels.None? || metadata.None? || nics.None?
      then None
      else Some(RawInstance(name.value, status.value, zone.value, machineType.value, disks.value, labels.value, metadata.value, nics.value))
  }

  // ---------- the gcloud engine: the mapping ----------

  function OrEmpty<T>(s: Option<seq<T>>): (r: seq<T>) {
    if s.Some? then s.value else []
  }

  predicate Addressed(config: RawAccessConfig) {
    config.natIp.Some?
  }

  function ExternalIp(configs: seq<RawAccessConfig>): (ip: Option<string>) {
    var at := FirstWhere(configs, Addressed);
    if at.None? then None else configs[at.value].natIp
  }

  function RawIps(nics: Option<seq<RawInterface>>): (ips: (Option<string>, Option<string>)) {
    if nics.None? || nics.value == [] then (None, None)
    else (nics.value[0].networkIp, ExternalIp(OrEmpty(nics.value[0].accessConfigs)))
  }

  function SizeGb(disk: RawDisk): (gb: Option<nat>) {
    if disk.diskSizeGb.None? then None else ParseU32(disk.diskSizeGb.value)
  }

  // The first disk marked as boot, else the first.
  function BootAt(disks: seq<RawDisk>): (at: Option<nat>)
    ensures at.Some? ==> at.value < |disks|
    ensures at.None? <==> disks == []
  {
    var at := FirstWhere(disks, (d: RawDisk) => d.boot == Some(true));
    if at.None? && disks != [] then Some(0) else at
  }

  function RawDiskGb(disks: seq<RawDisk>): (gb: Option<nat>) {
    var at := BootAt(disks);
    if at.None? then None else SizeGb(disks[at.value])
  }

  predicate RawOsLoginItem(item: RawItem) {
    && (item.key == "enable-oslogin" || item.key == "enable-os-login")
    && item.value.Some? && EqIgnoreAsciiCase(item.value.value, "true")
  }

  predicate RawWindowsDisk(lib: Library, disk: RawDisk) {
    var licenses := OrEmpty(disk.licenses);
    exists i | 0 <= i < |licenses| :: Contains(lib.toLowercase(licenses[i]), "windows")
  }

  predicate RawOsLogin(items: seq<RawItem>) {
    exists i | 0 <= i < |items| :: RawOsLoginItem(items[i])
  }

  predicate RawWindows(lib: Library, disks: seq<RawDisk>) {
    exists i | 0 <= i < |disks| :: RawWindowsDisk(lib, disks[i])
  }

  function CliInstance(lib: Library, raw: RawInstance): (instance: Instance) {
    var machineType := if raw.machineType.Some? then LastSegment(raw.machineType.value) else "Unknown";
    var specs := MachineSpecs(machineType);
    var disks := OrEmpty(raw.disks);
    var metadata := if raw.metadata.None? then [] else OrEmpty(raw.metadata.value.items);
    var ips := RawIps(raw.networkInterfaces);
    Instance(
      raw.name,
      raw.status,
      if lib.isZone(LastSegment(raw.zone)) then LastSegment(raw.zone) else "unknown",
      machineType,
      if specs.None? then None else Some(specs.value.0),
      if specs.None? then None else Some(specs.value.1),
      RawDiskGb(disks),
      if raw.labels.Some? then raw.labels.value else map[],
      RawOsLogin(metadata),
      RawWindows(lib, disks),
      ips.0,
      ips.1)
  }

  // ---------- what is read when there is nothing to read ----------

  // The values each side falls back to.
  lemma RestTextDefaults(lib: Library)
    ensures
      var rest := RestInstance(lib, Obj(map[]));
      rest.name == "" && rest.status == "UNKNOWN" && rest.zone == "" && rest.machineType == "" && rest.labels == map[]
  {
  }

  lemma RestSpecDefaults(lib: Library)
    ensures RestInstance(lib, Obj(map[])).cpuCount == None && RestInstance(lib, Obj(map[])).memoryMb == None
  {
    NoSpecsWithoutAType();
    assert Field(Obj(map[]), "machineType") == Null;
  }

  lemma RestDiskDefaults(lib: Library)
    ensures RestInstance(lib, Obj(map[])).diskGb == None && !RestInstance(lib, Obj(map[])).isWindows
  {
    assert Items(Field(Obj(map[]), "disks")) == [];
    NothingInEmptyLists(lib);
  }

  lemma RestFlagDefaults(lib: Library)
    ensures
      var rest := RestInstance(lib, Obj(map[]));
      !rest.osLoginEnabled && rest.internalIp == None && rest.externalIp == None
  {
    assert Items(Field(Field(Obj(map[]), "metadata"), "items")) == [];
    assert RestIps(Obj(map[])) == (None, None);
    NothingInEmptyLists(lib);
  }

  lemma NothingInEmptyLists(lib: Library)
    ensures !RestOsLogin([]) && !RestWindows(lib, []) && RestDiskGb([]) == None
    ensures !RawOsLogin([]) && !RawWindows(lib, []) && RawDiskGb([]) == None
  {
  }

  lemma CliDefaults(lib: Library, name: string, status: string, zone: string)
    requires '/' !in zone && lib.isZone(zone)
    ensures CliInstance(lib, RawInstance(name, status, zone, None, None, None, None, None))
         == Instance(name, status, zone, "Unknown", None, None, None, map[], false, false, None, None)
  {
    NoSpecsWithoutAType();
    NothingInEmptyLists(lib);
    LastSegmentIsTheLast("", zone);
  }

  // The words that switch the two flags, on one disk with one licence and one metadata item.
  lemma WordsThatMatter(lib: Library, license: string, key: string, value: string)
    ensures RestWindowsDisk(lib, Obj(map["licenses" := Arr([Str(license)])])) <==> Contains(lib.toLowercase(license), "windows")
    ensures RestOsLoginItem(Obj(map["key" := Str(key), "value" := Str(value)])) <==>
      key in {"enable-oslogin", "enable-os-login"} && EqIgnoreAsciiCase(value, "true")
  {
    var disk := Obj(map["licenses" := Arr([Str(license)])]);
    assert Items(Field(disk, "licenses")) == [Str(license)] && [Str(license)][0] == Str(license);
  }

  lemma ZoneOutsideThePattern(lib: Library, raw: RawInstance)
    ensures CliInstance(lib, raw).zone == if lib.isZone(LastSegment(raw.zone)) then LastSegment(raw.zone) else "unknown"
  {
  }

  // ---------- when the two agree ----------

  // One member of a record as the gcloud engine reads it: by name from an object, by place from an array.
  // The REST client reads by name only, so a record written as an array is to it an empty one.
  function Part(j: Json, at: nat, key: string): (value: Json) {
    if !j.Arr? then Field(j, key) else if at < |j.items| then j.items[at] else Null
  }

  // What a list read by both sides has in common.
  ghost predicate SameList<T(!new)>(j: Json, list: Option<seq<T>>, parse: Json -> Option<T>) {
    && |Items(j)| == |OrEmpty(list)|
    && forall i | 0 <= i < |Items(j)| :: parse(Items(j)[i]) == Some(OrEmpty(list)[i])
  }

  lemma ListsAreRead<T(!new)>(j: Json, parse: Json -> Option<T>)
    requires Optional(j, x => ParseVec(x, parse)).Some?
    ensures SameList(j, Optional(j, x => ParseVec(x, parse)).value, parse)
  {
  }

  // The first element that satisfies `p` among those written as objects.
  function FirstShown<T>(given: seq<Json>, read: seq<T>, p: T -> bool): (at: Option<nat>)
    requires |given| == |read|
    ensures at.Some? ==>
      && at.value < |read| && given[at.value].Obj? && p(read[at.value])
      && forall i | 0 <= i < at.value :: !(given[i].Obj? && p(read[i]))
    ensures at.None? ==> forall i | 0 <= i < |read| :: !(given[i].Obj? && p(read[i]))
  {
    if read == [] then None
    else if given[0].Obj? && p(read[0]) then Some(0)
    else
      var at := FirstShown(given[1..], read[1..], p);
      assert forall i | 0 < i < |read| :: read[i] == read[1..][i - 1] && given[i] == given[1..][i - 1];
      if at.None? then None else Some(at.value + 1)
  }

  lemma RestFindsTheFirstShown<T>(given: seq<Json>, read: seq<T>, p: T -> bool, q: Json -> bool)
    requires |given| == |read| && forall i | 0 <= i < |given| :: q(given[i]) == (given[i].Obj? && p(read[i]))
    ensures FirstWhere(given, q) == FirstShown(given, read, p)
  {
    var a, b := FirstWhere(given, q), FirstShown(given, read, p);
    assert a.Some? ==> q(given[a.value]);
    assert b.Some? ==> q(given[b.value]);
  }

  // ---------- what deserializes ----------

  predicate NullOr(j: Json, fits: bool) {
    j.Null? || fits
  }

  predicate ListOf(j: Json, fits: Json -> bool) {
    j.Arr? && forall i | 0 <= i < |j.items| :: fits(j.items[i])
  }

  predicate IsStr(j: Json) {
    j.Str?
  }

  // A record is an object, or an array of exactly its fields.
  predicate RecordOf(j: Json, fields: nat) {
    j.Obj? || (j.Arr? && |j.items| == fields)
  }

  predicate FitsDisk(j: Json) {
    && RecordOf(j, 3)
    && NullOr(Part(j, 0, "diskSizeGb"), Part(j, 0, "diskSizeGb").Str?)
    && NullOr(Part(j, 1, "boot"), Part(j, 1, "boot").Bool?)
    && NullOr(Part(j, 2, "licenses"), ListOf(Part(j, 2, "licenses"), IsStr))
  }

  predicate FitsItem(j: Json) {
    RecordOf(j, 2) && Part(j, 0, "key").Str? && NullOr(Part(j, 1, "value"), Part(j, 1, "value").Str?)
  }

  predicate FitsMetadata(j: Json) {
    RecordOf(j, 1) && NullOr(Part(j, 0, "items"), ListOf(Part(j, 0, "items"), FitsItem))
  }

  predicate FitsAccessConfig(j: Json) {
    RecordOf(j, 1) && NullOr(Part(j, 0, "natIP"), Part(j, 0, "natIP").Str?)
  }

  predicate FitsInterface(j: Json) {
    && RecordOf(j, 2)
    && NullOr(Part(j, 0, "networkIP"), Part(j, 0, "networkIP").Str?)
    && NullOr(Part(j, 1, "accessConfigs"), ListOf(Part(j, 1, "accessConfigs"), FitsAccessConfig))
  }

  predicate FitsLabels(j: Json) {
    j.Obj? && forall key | key in j.fields :: j.fields[key].Str?
  }

  lemma ListsFitExactlyWhen<T>(j: Json, parse: Json -> Option<T>, fits: Json -> bool)
    requires forall x: Json :: parse(x).Some? <==> fits(x)
    ensures Optional(j, x => ParseVec(x, parse)).Some? <==> NullOr(j, ListOf(j, fits))
  {
    if j.Arr? {
      assert forall i | 0 <= i < |j.items| :: parse(j.items[i]).Some? <==> fits(j.items[i]);
    }
  }

  lemma DiskFitsExactlyWhen(j: Json)
    ensures ParseDisk(j).Some? <==> FitsDisk(j)
  {
    if RecordOf(j, 3) {
      ListsFitExactlyWhen(Part(j, 2, "licenses"), AsStr, IsStr);
    }
  }

  lemma ItemFitsExactlyWhen(j: Json)
    ensures ParseItem(j).Some? <==> FitsItem(j)
  {
  }

  lemma MetadataFitsExactlyWhen(j: Json)
    ensures ParseMetadata(j).Some? <==> FitsMetadata(j)
  {
    if RecordOf(j, 1) {
      forall x: Json ensures ParseItem(x).Some? <==> FitsItem(x) {
        ItemFitsExactlyWhen(x);
      }
      ListsFitExactlyWhen(Part(j, 0, "items"), ParseItem, FitsItem);
    }
  }

  lemma AccessConfigFitsExactlyWhen(j: Json)
    ensures ParseAccessConfig(j).Some? <==> FitsAccessConfig(j)
  {
  }

  lemma InterfaceFitsExactlyWhen(j: Json)
    ensures ParseInterface(j).Some? <==> FitsInterface(j)
  {
    if RecordOf(j, 2) {
      forall x: Json ensures ParseAccessConfig(x).Some? <==> FitsAccessConfig(x) {
        AccessConfigFitsExactlyWhen(x);
      }
      ListsFitExactlyWhen(Part(j, 1, "accessConfigs"), ParseAccessConfig, FitsAccessConfig);
    }
  }

  predicate FitsInstance(j: Json) {
    && RecordOf(j, 8)
    && Part(j, 0, "name").Str? && Part(j, 1, "status").Str? && Part(j, 2, "zone").Str?
    && NullOr(Part(j, 3, "machineType"), Part(j, 3, "machineType").Str?)
    && NullOr(Part(j, 4, "disks"), ListOf(Part(j, 4, "disks"), FitsDisk))
    && NullOr(Part(j, 5, "labels"), FitsLabels(Part(j, 5, "labels")))
    && NullOr(Part(j, 6, "metadata"), FitsMetadata(Part(j, 6, "metadata")))
    && NullOr(Part(j, 7, "networkInterfaces"), ListOf(Part(j, 7, "networkInterfaces"), FitsInterface))
  }

  // Exactly what the gcloud engine can deserialize.
  lemma DeserializesExactlyWhen(j: Json)
    ensures ParseInstance(j).Some? <==> FitsInstance(j)
  {
    if RecordOf(j, 8) {
      forall x: Json
        ensures ParseDisk(x).Some? <==> FitsDisk(x)
        ensures ParseInterface(x).Some? <==> FitsInterface(x)
      {
        DiskFitsExactlyWhen(x);
        InterfaceFitsExactlyWhen(x);
      }
      ListsFitExactlyWhen(Part(j, 4, "disks"), ParseDisk, FitsDisk);
      ListsFitExactlyWhen(Part(j, 7, "networkInterfaces"), ParseInterface, FitsInterface);
      MetadataFitsExactlyWhen(Part(j, 6, "metadata"));
    }
  }

  // ---------- disks ----------

  ghost predicate DisksRead(given: seq<Json>, disks: seq<RawDisk>) {
    |given| == |disks| && forall i | 0 <= i < |given| :: ParseDisk(given[i]) == Some(disks[i])
  }

  lemma DiskSeen(lib: Library, j: Json)
    requires ParseDisk(j).Some?
    ensures
      var disk := ParseDisk(j).value;
      && AsStr(Field(j, "diskSizeGb")) == (if j.Obj? then disk.diskSizeGb else None)
      && (Field(j, "boot") == Bool(true) <==> j.Obj? && disk.boot == Some(true))
      && (RestWindowsDisk(lib, j) <==> j.Obj? && RawWindowsDisk(lib, disk))
  {
    if j.Obj? {
      var disk := ParseDisk(j).value;
      ListsAreRead(Field(j, "licenses"), AsStr);
      assert SameList(Field(j, "licenses"), disk.licenses, AsStr);
      var given, read := Items(Field(j, "licenses")), OrEmpty(disk.licenses);
      assert forall i | 0 <= i < |given| :: StrOr(given[i], "") == read[i];
    }
  }

  // Where the REST client finds the boot disk, if it sees into the disk it takes.
  function ShownBootAt(given: seq<Json>, disks: seq<RawDisk>): (at: Option<nat>)
    requires |given| == |disks|
    ensures at.Some? ==> at.value < |disks|
  {
    var at := FirstShown(given, disks, (d: RawDisk) => d.boot == Some(true));
    if at.None? && disks != [] && given[0].Obj? then Some(0) else at
  }

  function ShownGb(given: seq<Json>, disks: seq<RawDisk>): (gb: Option<nat>)
    requires |given| == |disks|
  {
    var at := ShownBootAt(given, disks);
    if at.None? then None else SizeGb(disks[at.value])
  }

  // `whole` is whether the REST client sees the list at all. If it does, the boot disk has to be written as
  // an object, or else its size has to be that of the disk written as one that stands in for it.
  predicate DiskGbAlike(whole: bool, given: seq<Json>, disks: seq<RawDisk>)
    requires |given| == |disks|
  {
    var boot := BootAt(disks);
    if boot.None? then true
    else if !whole then SizeGb(disks[boot.value]).None?
    else given[boot.value].Obj? || SizeGb(disks[boot.value]) == ShownGb(given, disks)
  }

  lemma RestReadsTheShownDisk(lib: Library, given: seq<Json>, disks: seq<RawDisk>)
    requires DisksRead(given, disks)
    ensures RestDiskGb(given) == ShownGb(given, disks)
  {
    forall i | 0 <= i < |given|
      ensures AsStr(Field(given[i], "diskSizeGb")) == if given[i].Obj? then disks[i].diskSizeGb else None
      ensures (Field(given[i], "boot") == Bool(true)) == (given[i].Obj? && disks[i].boot == Some(true))
    {
      DiskSeen(lib, given[i]);
    }
    RestFindsTheFirstShown(given, disks, (d: RawDisk) => d.boot == Some(true), (d: Json) => Field(d, "boot") == Bool(true));
  }

  lemma ShownBootDiskIsTheBootDisk(given: seq<Json>, disks: seq<RawDisk>)
    requires |given| == |disks| && BootAt(disks).Some? && given[BootAt(disks).value].Obj?
    ensures ShownBootAt(given, disks) == BootAt(disks)
  {
    var a := FirstWhere(disks, (d: RawDisk) => d.boot == Some(true));
    var b := FirstShown(given, disks, (d: RawDisk) => d.boot == Some(true));
    assert a.Some? ==> disks[a.value].boot == Some(true);
    assert b.Some? ==> disks[b.value].boot == Some(true);
  }

  lemma DiskGbAgreesExactlyWhen(lib: Library, whole: bool, given: seq<Json>, disks: seq<RawDisk>)
    requires DisksRead(given, disks)
    ensures RawDiskGb(disks) == RestDiskGb(if whole then given else []) <==> DiskGbAlike(whole, given, disks)
  {
    if whole {
      RestReadsTheShownDisk(lib, given, disks);
      if BootAt(disks).Some? && given[BootAt(disks).value].Obj? {
        ShownBootDiskIsTheBootDisk(given, disks);
      }
    }
  }

  // A disk with a Windows licence that is not seen does no harm if another one is.
  predicate WindowsAlike(lib: Library, whole: bool, given: seq<Json>, disks: seq<RawDisk>)
    requires |given| == |disks|
  {
    (exists i | 0 <= i < |disks| :: RawWindowsDisk(lib, disks[i])) ==>
      whole && exists i | 0 <= i < |disks| :: given[i].Obj? && RawWindowsDisk(lib, disks[i])
  }

  lemma WindowsAgreesExactlyWhen(lib: Library, whole: bool, given: seq<Json>, disks: seq<RawDisk>)
    requires DisksRead(given, disks)
    ensures RawWindows(lib, disks) == RestWindows(lib, if whole then given else []) <==> WindowsAlike(lib, whole, given, disks)
  {
    forall i | 0 <= i < |given|
      ensures RestWindowsDisk(lib, given[i]) == (given[i].Obj? && RawWindowsDisk(lib, disks[i]))
    {
      DiskSeen(lib, given[i]);
    }
  }

  // ---------- metadata ----------

  function MetadataItems(raw: RawInstance): (items: seq<RawItem>) {
    if raw.metadata.None? then [] else OrEmpty(raw.metadata.value.items)
  }

  predicate OsLoginAlike(whole: bool, given: seq<Json>, items: seq<RawItem>)
    requires |given| == |items|
  {
    (exists i | 0 <= i < |items| :: RawOsLoginItem(items[i])) ==>
      whole && exists i | 0 <= i < |items| :: given[i].Obj? && RawOsLoginItem(items[i])
  }

  lemma ItemSeen(j: Json)
    requires ParseItem(j).Some?
    ensures RestOsLoginItem(j) <==> j.Obj? && RawOsLoginItem(ParseItem(j).value)
  {
  }

  lemma OsLoginAgreesExactlyWhen(whole: bool, given: seq<Json>, items: seq<RawItem>)
    requires |given| == |items| && forall i | 0 <= i < |given| :: ParseItem(given[i]) == Some(items[i])
    ensures RawOsLogin(items) == RestOsLogin(if whole then given else []) <==> OsLoginAlike(whole, given, items)
  {
    forall i | 0 <= i < |given| ensures RestOsLoginItem(given[i]) == (given[i].Obj? && RawOsLoginItem(items[i])) {
      ItemSeen(given[i]);
    }
  }

  // ---------- addresses ----------

  // The first configuration with an address has to be seen, or the first one seen has to have the same.
  predicate ExternalIpAlike(whole: bool, given: seq<Json>, configs: seq<RawAccessConfig>)
    requires |given| == |configs|
  {
    var at := FirstWhere(configs, Addressed);
    at.None? || (whole && (given[at.value].Obj? ||
      var other := FirstShown(given, configs, Addressed);
      other.Some? && configs[other.value].natIp == configs[at.value].natIp))
  }

  lemma RestReadsTheShownAddress(given: seq<Json>, configs: seq<RawAccessConfig>)
    requires |given| == |configs| && forall i | 0 <= i < |given| :: ParseAccessConfig(given[i]) == Some(configs[i])
    ensures
      var at := FirstShown(given, configs, Addressed);
      RestExternalIp(given) == if at.None? then None else configs[at.value].natIp
  {
    forall i | 0 <= i < |given|
      ensures AsStr(Field(given[i], "natIP")) == if given[i].Obj? then configs[i].natIp else None
    {
      assert ParseAccessConfig(given[i]).Some?;
    }
    RestFindsTheFirstShown(given, configs, Addressed, (c: Json) => AsStr(Field(c, "natIP")).Some?);
  }

  lemma ShownIsFirst(given: seq<Json>, configs: seq<RawAccessConfig>)
    requires |given| == |configs|
    ensures
      var at, shown := FirstWhere(configs, Addressed), FirstShown(given, configs, Addressed);
      && (at.None? ==> shown.None?)
      && (at.Some? && given[at.value].Obj? ==> shown == at)
  {
    var at, shown := FirstWhere(configs, Addressed), FirstShown(given, configs, Addressed);
    assert at.Some? ==> Addressed(configs[at.value]);
    assert shown.Some? ==> Addressed(configs[shown.value]);
  }

  lemma ExternalIpAgreesExactlyWhen(whole: bool, given: seq<Json>, configs: seq<RawAccessConfig>)
    requires |given| == |configs| && forall i | 0 <= i < |given| :: ParseAccessConfig(given[i]) == Some(configs[i])
    ensures ExternalIp(configs) == RestExternalIp(if whole then given else []) <==> ExternalIpAlike(whole, given, configs)
  {
    RestReadsTheShownAddress(given, configs);
    ShownIsFirst(given, configs);
  }

  function Nics(j: Json): (nics: seq<Json>) {
    Items(Part(j, 7, "networkInterfaces"))
  }

  // The first interface's own address has to be absent, or seen.
  predicate InternalIpAlike(j: Json, nics: seq<RawInterface>)
    requires |Nics(j)| == |nics|
  {
    nics == [] || nics[0].networkIp.None? || (j.Obj? && Nics(j)[0].Obj?)
  }

  predicate FirstExternalIpAlike(j: Json, nics: seq<RawInterface>)
    requires |Nics(j)| == |nics|
  {
    nics == [] ||
    var given, configs := Items(Part(Nics(j)[0], 1, "accessConfigs")), OrEmpty(nics[0].accessConfigs);
    |given| == |configs| && ExternalIpAlike(j.Obj? && Nics(j)[0].Obj?, given, configs)
  }

  lemma InterfaceSeen(j: Json)
    requires ParseInterface(j).Some?
    ensures
      var nic := ParseInterface(j).value;
      && AsStr(Field(j, "networkIP")) == (if j.Obj? then nic.networkIp else None)
      && SameList(Part(j, 1, "accessConfigs"), nic.accessConfigs, ParseAccessConfig)
      && Items(Field(j, "accessConfigs")) == (if j.Obj? then Items(Part(j, 1, "accessConfigs")) else [])
  {
    ListsAreRead(Part(j, 1, "accessConfigs"), ParseAccessConfig);
  }

  lemma IpsAgreeExactlyWhen(j: Json, nics: Option<seq<RawInterface>>)
    requires SameList(Part(j, 7, "networkInterfaces"), nics, ParseInterface) && (j.Obj? || j.Arr?)
    ensures RawIps(nics).0 == RestIps(j).0 <==> InternalIpAlike(j, OrEmpty(nics))
    ensures RawIps(nics).1 == RestIps(j).1 <==> FirstExternalIpAlike(j, OrEmpty(nics))
  {
    if OrEmpty(nics) != [] {
      var nic := Nics(j)[0];
      InterfaceSeen(nic);
      var configs := Items(Part(nic, 1, "accessConfigs"));
      ExternalIpAgreesExactlyWhen(j.Obj? && nic.Obj?, configs, OrEmpty(nics.value[0].accessConfigs));
    }
  }

  // ---------- a whole instance ----------

  // How the record's fields come from the JSON, whether written as an object or as an array.
  ghost predicate ReadFrom(j: Json, raw: RawInstance) {
    && (j.Obj? || j.Arr?)
    && Part(j, 0, "name") == Str(raw.name)
    && Part(j, 1, "status") == Str(raw.status)
    && Part(j, 2, "zone") == Str(raw.zone)
    && AsStr(Part(j, 3, "machineType")) == raw.machineType
    && SameList(Part(j, 4, "disks"), raw.disks, ParseDisk)
    && RestLabels(Part(j, 5, "labels")) == Labels(raw)
    && SameList(ItemList(j), Some(MetadataItems(raw)), ParseItem)
    && SameList(Part(j, 7, "networkInterfaces"), raw.networkInterfaces, ParseInterface)
  }

  function Labels(raw: RawInstance): (labels: map<string, string>) {
    if raw.labels.Some? then raw.labels.value else map[]
  }

  function ItemList(j: Json): (items: Json) {
    Part(Part(j, 6, "metadata"), 0, "items")
  }

  lemma FieldsAreRead(j: Json)
    requires ParseInstance(j).Some?
    ensures ReadFrom(j, ParseInstance(j).value)
  {
    var raw := ParseInstance(j).value;
    ListsAreRead(Part(j, 4, "disks"), ParseDisk);
    ListsAreRead(Part(j, 7, "networkInterfaces"), ParseInterface);
    LabelsAreRead(Part(j, 5, "labels"));
    MetadataIsRead(Part(j, 6, "metadata"));
  }

  lemma LabelsAreRead(j: Json)
    requires Optional(j, ParseLabels).Some?
    ensures RestLabels(j) == if Optional(j, ParseLabels).value.Some? then Optional(j, ParseLabels).value.value else map[]
  {
  }

  lemma MetadataIsRead(j: Json)
    requires Optional(j, ParseMetadata).Some?
    ensures
      var metadata := Optional(j, ParseMetadata).value;
      SameList(Part(j, 0, "items"), Some(if metadata.None? then [] else OrEmpty(metadata.value.items)), ParseItem)
  {
    if !j.Null? {
      ListsAreRead(Part(j, 0, "items"), ParseItem);
    }
  }

  predicate TextAlike(j: Json, raw: RawInstance) {
    j.Obj? || (raw.name == "" && raw.status == "UNKNOWN")
  }

  predicate ZoneAlike(lib: Library, j: Json, raw: RawInstance) {
    var zone := LastSegment(raw.zone);
    if j.Obj? then lib.isZone(zone) || zone == "unknown" else lib.isZone(zone) && zone == ""
  }

  predicate MachineTypeAlike(j: Json, raw: RawInstance) {
    raw.machineType.Some? && (j.Obj? || LastSegment(raw.machineType.value) == "")
  }

  predicate SpecsAlike(j: Json, raw: RawInstance) {
    j.Obj? || raw.machineType.None? || MachineSpecs(LastSegment(raw.machineType.value)).None?
  }

  ghost predicate OsLoginShown(j: Json, raw: RawInstance)
    requires ReadFrom(j, raw)
  {
    OsLoginAlike(j.Obj? && Part(j, 6, "metadata").Obj?, Items(ItemList(j)), MetadataItems(raw))
  }

  // Everything the two readings of an instance have to have in common to give the same.
  ghost predicate Alike(lib: Library, j: Json, raw: RawInstance)
    requires ReadFrom(j, raw)
  {
    && TextAlike(j, raw) && ZoneAlike(lib, j, raw) && MachineTypeAlike(j, raw) && SpecsAlike(j, raw)
    && DiskGbAlike(j.Obj?, Items(Part(j, 4, "disks")), OrEmpty(raw.disks))
    && (j.Obj? || Labels(raw) == map[])
    && OsLoginShown(j, raw)
    && WindowsAlike(lib, j.Obj?, Items(Part(j, 4, "disks")), OrEmpty(raw.disks))
    && InternalIpAlike(j, OrEmpty(raw.networkInterfaces)) && FirstExternalIpAlike(j, OrEmpty(raw.networkInterfaces))
  }

  lemma NoSpecsWithoutAType()
    ensures MachineSpecs("Unknown") == None && MachineSpecs("") == None
  {
    assert |Split("Unknown", '-')| == 1 by {
      NoSeparator("Unknown", '-');
    }
    NoSeparator("", '-');
  }

  lemma TextAgreesExactlyWhen(lib: Library, j: Json, raw: RawInstance)
    requires ReadFrom(j, raw)
    ensures
      var cli, rest := CliInstance(lib, raw), RestInstance(lib, j);
      && (cli.name == rest.name <==> j.Obj? || raw.name == "")
      && (cli.status == rest.status <==> j.Obj? || raw.status == "UNKNOWN")
      && (cli.zone == rest.zone <==> ZoneAlike(lib, j, raw))
      && (cli.machineType == rest.machineType <==> MachineTypeAlike(j, raw))
      && (cli.labels == rest.labels <==> j.Obj? || Labels(raw) == map[])
  {
  }

  lemma SpecsAgreeExactlyWhen(lib: Library, j: Json, raw: RawInstance)
    requires ReadFrom(j, raw)
    ensures
      var cli, rest := CliInstance(lib, raw), RestInstance(lib, j);
      && (cli.cpuCount == rest.cpuCount <==> SpecsAlike(j, raw))
      && (cli.memoryMb == rest.memoryMb <==> SpecsAlike(j, raw))
  {
    NoSpecsWithoutAType();
  }

  lemma DisksAgreeExactlyWhen(lib: Library, j: Json, raw: RawInstance)
    requires ReadFrom(j, raw)
    ensures
      var cli, rest := CliInstance(lib, raw), RestInstance(lib, j);
      var given, disks := Items(Part(j, 4, "disks")), OrEmpty(raw.disks);
      && (cli.diskGb == rest.diskGb <==> DiskGbAlike(j.Obj?, given, disks))
      && (cli.isWindows == rest.isWindows <==> WindowsAlike(lib, j.Obj?, given, disks))
  {
    DiskGbAgreesExactlyWhen(lib, j.Obj?, Items(Part(j, 4, "disks")), OrEmpty(raw.disks));
    WindowsAgreesExactlyWhen(lib, j.Obj?, Items(Part(j, 4, "disks")), OrEmpty(raw.disks));
  }

  lemma MetadataAgreesExactlyWhen(lib: Library, j: Json, raw: RawInstance)
    requires ReadFrom(j, raw)
    ensures CliInstance(lib, raw).osLoginEnabled == RestInstance(lib, j).osLoginEnabled <==> OsLoginShown(j, raw)
  {
    var whole := j.Obj? && Part(j, 6, "metadata").Obj?;
    OsLoginAgreesExactlyWhen(whole, Items(ItemList(j)), MetadataItems(raw));
    assert Items(Field(Field(j, "metadata"), "items")) == if whole then Items(ItemList(j)) else [];
  }

  lemma AddressesAgreeExactlyWhen(lib: Library, j: Json, raw: RawInstance)
    requires ReadFrom(j, raw)
    ensures
      var cli, rest := CliInstance(lib, raw), RestInstance(lib, j);
      && (cli.internalIp == rest.internalIp <==> InternalIpAlike(j, OrEmpty(raw.networkInterfaces)))
      && (cli.externalIp == rest.externalIp <==> FirstExternalIpAlike(j, OrEmpty(raw.networkInterfaces)))
  {
    IpsAgreeExactlyWhen(j, raw.networkInterfaces);
  }

  // Field by field, what agreement comes down to.
  ghost predicate AgreeFieldByField(lib: Library, j: Json, raw: RawInstance, cli: Instance, rest: Instance)
    requires ReadFrom(j, raw)
  {
    var given, disks := Items(Part(j, 4, "disks")), OrEmpty(raw.disks);
    && (cli.name == rest.name <==> j.Obj? || raw.name == "")
    && (cli.status == rest.status <==> j.Obj? || raw.status == "UNKNOWN")
    && (cli.zone == rest.zone <==> ZoneAlike(lib, j, raw))
    && (cli.machineType == rest.machineType <==> MachineTypeAlike(j, raw))
    && (cli.cpuCount == rest.cpuCount <==> SpecsAlike(j, raw))
    && (cli.memoryMb == rest.memoryMb <==> SpecsAlike(j, raw))
    && (cli.diskGb == rest.diskGb <==> DiskGbAlike(j.Obj?, given, disks))
    && (cli.labels == rest.labels <==> j.Obj? || Labels(raw) == map[])
    && (cli.osLoginEnabled == rest.osLoginEnabled <==> OsLoginShown(j, raw))
    && (cli.isWindows == rest.isWindows <==> WindowsAlike(lib, j.Obj?, given, disks))
    && (cli.internalIp == rest.internalIp <==> InternalIpAlike(j, OrEmpty(raw.networkInterfaces)))
    && (cli.externalIp == rest.externalIp <==> FirstExternalIpAlike(j, OrEmpty(raw.networkInterfaces)))
  }

  lemma FieldsAgreeExactlyWhen(lib: Library, j: Json, raw: RawInstance)
    requires ReadFrom(j, raw)
    ensures AgreeFieldByField(lib, j, raw, CliInstance(lib, raw), RestInstance(lib, j))
  {
    TextAgreesExactlyWhen(lib, j, raw);
    SpecsAgreeExactlyWhen(lib, j, raw);
    DisksAgreeExactlyWhen(lib, j, raw);
    MetadataAgreesExactlyWhen(lib, j, raw);
    AddressesAgreeExactlyWhen(lib, j, raw);
  }

  // For every instance the gcloud engine can deserialize: exactly when the two engines agree, on each field
  // and on the whole.
  lemma EnginesAgreeExactlyWhen(lib: Library, j: Json)
    requires ParseInstance(j).Some?
    ensures ReadFrom(j, ParseInstance(j).value)
    ensures AgreeFieldByField(lib, j, ParseInstance(j).value, CliInstance(lib, ParseInstance(j).value), RestInstance(lib, j))
    ensures CliInstance(lib, ParseInstance(j).value) == RestInstance(lib, j) <==> Alike(lib, j, ParseInstance(j).value)
  {
    FieldsAreRead(j);
    WholeAgreesExactlyWhen(lib, j, ParseInstance(j).value);
  }

  lemma WholeAgreesExactlyWhen(lib: Library, j: Json, raw: RawInstance)
    requires ReadFrom(j, raw)
    ensures AgreeFieldByField(lib, j, raw, CliInstance(lib, raw), RestInstance(lib, j))
    ensures CliInstance(lib, raw) == RestInstance(lib, j) <==> Alike(lib, j, raw)
  {
    FieldsAgreeExactlyWhen(lib, j, raw);
    AlikeIsFieldByField(lib, j, raw, CliInstance(lib, raw), RestInstance(lib, j));
  }

  lemma AlikeIsFieldByField(lib: Library, j: Json, raw: RawInstance, cli: Instance, rest: Instance)
    requires ReadFrom(j, raw) && AgreeFieldByField(lib, j, raw, cli, rest)
    ensures cli == rest <==> Alike(lib, j, raw)
  {
    SameFieldByField(cli, rest);
  }

  lemma SameFieldByField(a: Instance, b: Instance)
    ensures a == b <==>
      && a.name == b.name && a.status == b.status && a.zone == b.zone && a.machineType == b.machineType
      && a.cpuCount == b.cpuCount && a.memoryMb == b.memoryMb && a.diskGb == b.diskGb && a.labels == b.labels
      && a.osLoginEnabled == b.osLoginEnabled && a.isWindows == b.isWindows
      && a.internalIp == b.internalIp && a.externalIp == b.externalIp
  {
  }

  predicate AllObjects(items: seq<Json>) {
    forall i | 0 <= i < |items| :: items[i].Obj?
  }

  // Every record the gcloud engine reads is written as an object, as the API writes it.
  predicate RecordsAreObjects(j: Json) {
    && j.Obj?
    && AllObjects(Items(Part(j, 4, "disks")))
    && !Part(j, 6, "metadata").Arr?
    && AllObjects(Items(ItemList(j)))
    && AllObjects(Nics(j))
    && forall i | 0 <= i < |Nics(j)| :: AllObjects(Items(Part(Nics(j)[i], 1, "accessConfigs")))
  }

  // Then only a missing machine type and a zone that does not fit can set the engines apart.
  lemma ObjectsAgreeExactlyWhen(lib: Library, j: Json)
    requires ParseInstance(j).Some? && RecordsAreObjects(j)
    ensures
      var raw := ParseInstance(j).value;
      var cli, rest := CliInstance(lib, raw), RestInstance(lib, j);
      && (cli == rest <==> ZoneAlike(lib, j, raw) && raw.machineType.Some?)
      && rest.(zone := cli.zone, machineType := cli.machineType) == cli
  {
    var raw := ParseInstance(j).value;
    EnginesAgreeExactlyWhen(lib, j);
    ObjectsAreAlike(lib, j, raw);
  }

  lemma ObjectsAreAlike(lib: Library, j: Json, raw: RawInstance)
    requires ReadFrom(j, raw) && RecordsAreObjects(j)
    ensures Alike(lib, j, raw) <==> ZoneAlike(lib, j, raw) && raw.machineType.Some?
    ensures DiskGbAlike(j.Obj?, Items(Part(j, 4, "disks")), OrEmpty(raw.disks)) && OsLoginShown(j, raw)
    ensures WindowsAlike(lib, j.Obj?, Items(Part(j, 4, "disks")), OrEmpty(raw.disks))
    ensures InternalIpAlike(j, OrEmpty(raw.networkInterfaces)) && FirstExternalIpAlike(j, OrEmpty(raw.networkInterfaces))
  {
    if OrEmpty(raw.networkInterfaces) != [] {
      InterfaceSeen(Nics(j)[0]);
    }
    assert Part(j, 6, "metadata").Obj? || MetadataItems(raw) == [];
  }

  // ---------- whole listings ----------

  function ZoneInstances(items: Json, zone: string): (instances: seq<Json>) {
    Items(Field(Field(items, zone), "instances"))
  }

  // The instances of the aggregated response, zone by zone in the order its map is walked.
  function Flattened(items: Json, zones: seq<string>): (instances: seq<Json>) {
    if zones == [] then [] else Flattened(items, zones[..|zones| - 1]) + ZoneInstances(items, zones[|zones| - 1])
  }

  function Mapped<S, T>(f: S -> T, s: seq<S>): (r: seq<T>)
    ensures |r| == |s|
  {
    if s == [] then [] else Mapped(f, s[..|s| - 1]) + [f(s[|s| - 1])]
  }

  lemma {:induction false} MappedAt<S, T>(f: S -> T, s: seq<S>, i: nat)
    requires i < |s|
    ensures Mapped(f, s)[i] == f(s[i])
  {
    if i < |s| - 1 {
      MappedAt(f, s[..|s| - 1], i);
    }
  }

  function RestReader(lib: Library): Json -> Instance {
    (j: Json) => RestInstance(lib, j)
  }

  function CliReader(lib: Library): RawInstance -> Instance {
    (raw: RawInstance) => CliInstance(lib, raw)
  }

  // `list_instances`; `zones` are the keys of the response's `items`, in the map's order.
  method ListInstances(lib: Library, response: Json, zones: seq<string>) returns (instances: seq<Instance>)
    ensures instances == Mapped(RestReader(lib), if Field(response, "items").Obj? then Flattened(Field(response, "items"), zones) else [])
  {
    var items := Field(response, "items");
    if items.Obj? {
      instances := PushZones(RestReader(lib), items, zones);
    } else {
      instances := [];
    }
  }

  method PushZones(read: Json -> Instance, items: Json, zones: seq<string>) returns (instances: seq<Instance>)
    ensures instances == Mapped(read, Flattened(items, zones))
  {
    instances := [];
    for n := 0 to |zones|
      invariant instances == Mapped(read, Flattened(items, zones[..n]))
    {
      instances := PushInstances(read, ZoneInstances(items, zones[n]), instances, Flattened(items, zones[..n]));
      assert zones[..n + 1][..n] == zones[..n];
    }
    assert zones[..|zones|] == zones;
  }

  method PushInstances(read: Json -> Instance, zoneInstances: seq<Json>, before: seq<Instance>, ghost earlier: seq<Json>)
    returns (instances: seq<Instance>)
    requires before == Mapped(read, earlier)
    ensures instances == Mapped(read, earlier + zoneInstances)
  {
    instances := before;
    assert earlier + zoneInstances[..0] == earlier;
    for k := 0 to |zoneInstances|
      invariant instances == Mapped(read, earlier + zoneInstances[..k])
    {
      instances := instances + [read(zoneInstances[k])];
      assert (earlier + zoneInstances[..k + 1])[..|earlier| + k] == earlier + zoneInstances[..k];
    }
    assert zoneInstances[..|zoneInstances|] == zoneInstances;
  }

  // Given the same instances, both engines list as many and agree on each exactly when its two readings are
  // alike; one instance the gcloud engine cannot deserialize costs it the whole list.
  lemma ListingsAgreeExactlyWhen(lib: Library, given: seq<Json>)
    ensures ParseVec(Arr(given), ParseInstance).Some? <==> forall i | 0 <= i < |given| :: ParseInstance(given[i]).Some?
    ensures ParseVec(Arr(given), ParseInstance).Some? ==>
      var raws := ParseVec(Arr(given), ParseInstance).value;
      var cli, rest := Mapped(CliReader(lib), raws), Mapped(RestReader(lib), given);
      && |cli| == |rest| == |given|
      && forall i | 0 <= i < |given| :: ReadFrom(given[i], raws[i]) && (cli[i] == rest[i] <==> Alike(lib, given[i], raws[i]))
  {
    if ParseVec(Arr(given), ParseInstance).Some? {
      var raws := ParseVec(Arr(given), ParseInstance).value;
      forall i | 0 <= i < |given|
        ensures ReadFrom(given[i], raws[i])
        ensures Mapped(CliReader(lib), raws)[i] == Mapped(RestReader(lib), given)[i] <==> Alike(lib, given[i], raws[i])
      {
        EnginesAgreeExactlyWhen(lib, given[i]);
        MappedAt(RestReader(lib), given, i);
        MappedAt(CliReader(lib), raws, i);
      }
    }
  }

  // A record written as an array is one the gcloud engine reads and the REST client does not see into.
  lemma ArrayRecordsDisagree(lib: Library, address: string)
    ensures ParseInstance(WithArrayInterface(address)).Some?
    ensures CliInstance(lib, ParseInstance(WithArrayInterface(address)).value).internalIp == Some(address)
    ensures RestInstance(lib, WithArrayInterface(address)).internalIp == None
  {
    var j := WithArrayInterface(address);
    ArrayInterfaceIsRead(address);
    var raw := RawInstance("vm", "RUNNING", "z", None, None, None, None, Some([RawInterface(Some(address), None)]));
    assert ParseInstance(j) == Some(raw);
    assert RawIps(raw.networkInterfaces).0 == Some(address);
    assert RestIps(j).0 == None;
  }

  function WithArrayInterface(address: string): (j: Json) {
    var nic := Arr([Str(address), Null]);
    Obj(map["name" := Str("vm"), "status" := Str("RUNNING"), "zone" := Str("z"), "networkInterfaces" := Arr([nic])])
  }

  lemma ArrayInterfaceIsRead(address: string)
    ensures Optional(Arr([Arr([Str(address), Null])]), x => ParseVec(x, ParseInterface)) == Some(Some([RawInterface(Some(address), None)]))
  {
    var nic := Arr([Str(address), Null]);
    assert ParseInterface(nic) == Some(RawInterface(Some(address), None));
    assert Elements([nic], ParseInterface).value == [RawInterface(Some(address), None)];
  }
}
