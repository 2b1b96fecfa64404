/**
 The Hub archive: `export_backup_bundle`, `parse_backup_bundle` and `restore_backup_bundle`. JSON,
 zip and encryption are parameters with laws; their sizes are what the limits are about.
 Parsing an archive rewrites the firewall backups in it.
 */
module Archive {
  import opened Options
  import opened Text
  import opened ArchiveRows
  import opened ArchiveRules
  import opened BackupPayloads
  import ByteRelay
  import TunnelAddresses

  type Bytes = seq<ByteRelay.byte>

  datatype Name = ManifestJson | DataJson | ServerKey | LogoPng | LogoJpg | LogoWebp | OtherName(name: string)

  datatype Member = Member(name: Name, content: Bytes)

  datatype Manifest = Manifest(version: int, counts: map<TableName, int>)

  const FORMAT_VERSION := 2

  datatype Limits = Limits(entries: nat, fileBytes: nat, totalBytes: nat, bundleBytes: nat)

  /** The branding logo and the WireGuard key, when they exist. */
  datatype Files = Files(logo: Option<Member>, key: Option<Bytes>)

  datatype Error =
    | ExceedsLimits
    | FileTooLarge | NeedsPassphrase | BadPassphrase | NotZip | TooManyMembers | MissingMembers | UnexpectedMembers
    | MemberTooLarge | TotalTooLarge | InvalidJson | WrongVersion | WrongTables | WrongCounts | InvalidRows | InvalidData

  datatype Result<T> = Ok(value: T) | Err(error: Error)

  datatype Parsed = Parsed(data: Data, files: Files)

  datatype Codec = Codec(
    spelling: Spelling,
    dumpManifest: Manifest -> Bytes, loadManifest: Bytes -> Option<Manifest>,
    dumpData: Data -> Bytes, loadData: Bytes -> Option<Data>,
    zip: seq<Member> -> Bytes, unzip: Bytes -> Option<seq<Member>>,
    encrypt: (Bytes, string) -> Bytes, decrypt: (Bytes, string) -> Option<Bytes>,
    isEnvelope: Bytes -> bool, cipherSize: Bytes -> nat,
    envelopes: Envelopes,
    net: TunnelAddresses.HubNetwork, rules: seq<ColumnRule>, filesFit: Files -> bool)   // what `validate_backup_data` checks against

  ghost predicate CodecLaws(k: Codec) {
    && Lawful(k.spelling) && EnvelopeLaws(k.envelopes)
    && (forall m :: k.loadManifest(k.dumpManifest(m)) == Some(m))
    && (forall d :: k.loadData(k.dumpData(d)) == Some(d))
    && (forall ms :: k.unzip(k.zip(ms)) == Some(ms) && !k.isEnvelope(k.zip(ms)))
    && (forall b, p :: k.isEnvelope(k.encrypt(b, p)) && k.cipherSize(k.encrypt(b, p)) <= |k.encrypt(b, p)|)
    && (forall b, p, q :: k.decrypt(k.encrypt(b, p), q) == if p == q then Some(b) else None)
  }

  predicate IsLogo(name: Name) {
    name == LogoPng || name == LogoJpg || name == LogoWebp
  }

  predicate FilesOk(files: Files) {
    files.logo.Some? ==> IsLogo(files.logo.value.name)
  }

  /** The Hub's schema has the columns that its checks read, in the types they expect. */
  predicate SchemaOk(k: Codec, schema: Schema) {
    && IntegrationSettings in schema && Id in schema[IntegrationSettings] && schema[IntegrationSettings][Id] == ColumnType(IntColumn, false)
    && Devices in schema && WgTunnelIp in schema[Devices] && schema[Devices][WgTunnelIp] == ColumnType(AddressColumn, false)
    && DeviceBackups in schema && IsBackupTable(schema[DeviceBackups])
    && forall r :: 0 <= r < |k.rules| ==>
         Suits(schema, k.rules[r]) && (k.rules[r].table == DeviceBackups ==> k.rules[r].column != EncryptedPayload)
  }

  function Total(members: seq<Member>): nat {
    if members == [] then 0 else Total(members[..|members|-1]) + |members[|members|-1].content|
  }

  // ---------- Export ----------

  /** `build_backup_manifest` */
  function ManifestOf(data: Data): Manifest {
    Manifest(FORMAT_VERSION, map name | name in data :: |data[name]|)
  }

  function Members(k: Codec, db: Database, files: Files): seq<Member> {
    var data := Serialize(k.spelling, db);
    [Member(ManifestJson, k.dumpManifest(ManifestOf(data))), Member(DataJson, k.dumpData(data))]
    + (match files.logo case None => [] case Some(logo) => [logo])
    + (match files.key case None => [] case Some(key) => [Member(ServerKey, key)])
  }

  predicate WithinLimits(limits: Limits, members: seq<Member>) {
    && |members| <= limits.entries
    && (forall i :: 0 <= i < |members| ==> |members[i].content| <= limits.fileBytes)
    && Total(members) <= limits.totalBytes
  }

  /** The passphrase that encrypts, if one does. */
  function Secret(passphrase: Option<string>): Option<string> {
    if passphrase.Some? && Strip(passphrase.value) != "" then Some(Strip(passphrase.value)) else None
  }

  /** `export_backup_bundle`; `estimate` is its first guess at the size of the device backups. */
  function Export(k: Codec, limits: Limits, db: Database, files: Files, passphrase: Option<string>, estimate: nat): Result<Bytes> {
    var members := Members(k, db, files);
    var raw := k.zip(members);
    if estimate > limits.fileBytes || estimate > limits.totalBytes then Err(ExceedsLimits)
    else if !WithinLimits(limits, members) || |raw| > limits.bundleBytes then Err(ExceedsLimits)
    else
      match Secret(passphrase)
      case None => Ok(raw)
      case Some(secret) => if |k.encrypt(raw, secret)| > limits.bundleBytes then Err(ExceedsLimits) else Ok(k.encrypt(raw, secret))
  }

  // ---------- Parse ----------

  /** `decrypt_backup_payload` */
  function Decrypted(k: Codec, limits: Limits, content: Bytes, passphrase: Option<string>): Result<Bytes> {
    if !k.isEnvelope(content) then Ok(content)
    else if passphrase.None? || passphrase.value == "" then Err(NeedsPassphrase)
    else if k.cipherSize(content) > limits.bundleBytes * 2 then Err(BadPassphrase)
    else match k.decrypt(content, passphrase.value) case None => Err(BadPassphrase) case Some(raw) => Ok(raw)
  }

  predicate HasName(members: seq<Member>, name: Name) {
    exists i :: 0 <= i < |members| && members[i].name == name
  }

  /** The sizes, one member after another, with the running total. */
  function CheckSizes(limits: Limits, members: seq<Member>): Option<Error> {
    if members == [] then None
    else
      var last := members[|members|-1].content;
      match CheckSizes(limits, members[..|members|-1])
      case Some(error) => Some(error)
      case None =>
        if |last| > limits.fileBytes then Some(MemberTooLarge)
        else if Total(members) > limits.totalBytes then Some(TotalTooLarge)
        else None
  }

  /** `validate_backup_archive_members` */
  function CheckMembers(limits: Limits, members: seq<Member>): Option<Error> {
    if |members| > limits.entries then Some(TooManyMembers)
    else if !HasName(members, ManifestJson) || !HasName(members, DataJson) then Some(MissingMembers)
    else if exists i :: 0 <= i < |members| && members[i].name.OtherName? then Some(UnexpectedMembers)
    else CheckSizes(limits, members)
  }

  /** `archive.read`: the last member of that name. */
  function Find(members: seq<Member>, name: Name): Option<Bytes> {
    if members == [] then None
    else if members[|members|-1].name == name then Some(members[|members|-1].content)
    else Find(members[..|members|-1], name)
  }

  function FirstLogo(members: seq<Member>): Option<Member> {
    if members == [] then None else if IsLogo(members[0].name) then Some(members[0]) else FirstLogo(members[1..])
  }

  /** `validate_backup_manifest` */
  predicate CountsMatch(schema: Schema, manifest: Manifest, data: Data)
    requires data.Keys == schema.Keys
  {
    manifest.counts.Keys == schema.Keys && forall name :: name in schema ==> manifest.counts[name] == |data[name]|
  }

  predicate DataPasses(w: Spelling, schema: Schema, data: Data)
    requires data.Keys == schema.Keys
  {
    forall name :: name in schema ==> RowsPass(w, schema[name], data[name])
  }

  /** The second half of `validate_backup_data`: the checks across rows and tables, and the data
      with the firewall backups rewritten. */
  function CheckData(k: Codec, data: Data, files: Files): Option<Data>
    requires IntegrationSettings in data && Devices in data && DeviceBackups in data
  {
    if !SettingsPass(k.spelling, data[IntegrationSettings]) || !RulesPass(k.spelling, data, k.rules) || !k.filesFit(files) then None
    else if TunnelAddresses.RestoredIps(k.net, JsonAddresses(k.spelling, data[Devices])).Err? then None
    else
      match Rewrite(k.spelling, k.envelopes, data[DeviceBackups])
      case None => None
      case Some(rewritten) => Some(data[DeviceBackups := rewritten])
  }

  /** `validate_backup_data` */
  function Validate(k: Codec, schema: Schema, data: Data, files: Files): Result<Data>
    requires SchemaOk(k, schema)
  {
    if data.Keys != schema.Keys then Err(WrongTables)
    else if !DataPasses(k.spelling, schema, data) then Err(InvalidRows)
    else match CheckData(k, data, files) case None => Err(InvalidData) case Some(checked) => Ok(checked)
  }

  function CheckContents(k: Codec, schema: Schema, manifest: Manifest, data: Data, files: Files): Result<Parsed>
    requires SchemaOk(k, schema)
  {
    if manifest.version != FORMAT_VERSION then Err(WrongVersion)
    else if data.Keys != schema.Keys then Err(WrongTables)
    else if !CountsMatch(schema, manifest, data) then Err(WrongCounts)
    else match Validate(k, schema, data, files) case Err(error) => Err(error) case Ok(checked) => Ok(Parsed(checked, files))
  }

  function ParseMembers(k: Codec, limits: Limits, schema: Schema, members: seq<Member>): Result<Parsed>
    requires SchemaOk(k, schema)
  {
    match CheckMembers(limits, members)
    case Some(error) => Err(error)
    case None =>
      match (Find(members, ManifestJson), Find(members, DataJson))
      case (Some(m), Some(d)) =>
        (match (k.loadManifest(m), k.loadData(d))
         case (Some(manifest), Some(data)) =>
           CheckContents(k, schema, manifest, data, Files(FirstLogo(members), Find(members, ServerKey)))
         case _ => Err(InvalidJson))
      case _ => Err(MissingMembers)
  }

  /** `parse_backup_bundle` */
  function Parse(k: Codec, limits: Limits, schema: Schema, content: Bytes, passphrase: Option<string>): Result<Parsed>
    requires SchemaOk(k, schema)
  {
    if |content| > limits.bundleBytes then Err(FileTooLarge)
    else
      match Decrypted(k, limits, content, passphrase)
      case Err(error) => Err(error)
      case Ok(raw) =>
        match k.unzip(raw)
        case None => Err(NotZip)
        case Some(members) => ParseMembers(k, limits, schema, members)
  }

  // ---------- Restore ----------

  function Restored(w: Spelling, schema: Schema, data: Data): Database
    requires data.Keys == schema.Keys && DataPasses(w, schema, data)
  {
    map name | name in schema :: DeserializeRows(w, schema[name], data[name])
  }

  lemma {:induction false} ValidatedPasses(k: Codec, schema: Schema, data: Data, files: Files)
    requires SchemaOk(k, schema) && Validate(k, schema, data, files).Ok?
    ensures var checked := Validate(k, schema, data, files).value;
      checked.Keys == schema.Keys && DataPasses(k.spelling, schema, checked)
  {
    RewrittenPass(k.spelling, k.envelopes, schema[DeviceBackups], data[DeviceBackups]);
  }

  /** `restore_backup_bundle`: validate once more, then replace every table. */
  function RestoreBundle(k: Codec, schema: Schema, bundle: Parsed): Result<Database>
    requires SchemaOk(k, schema)
  {
    match Validate(k, schema, bundle.data, bundle.files)
    case Err(error) => Err(error)
    case Ok(checked) =>
      ValidatedPasses(k, schema, bundle.data, bundle.files);
      Ok(Restored(k.spelling, schema, checked))
  }

  // ---------- Validating again ----------

  lemma {:induction false} SameIds(w: Spelling, a: seq<JsonRow>, b: seq<JsonRow>)
    requires |a| == |b| && forall i :: 0 <= i < |a| ==> SameButPayload(a[i], b[i])
    ensures JsonIds(w, b) == JsonIds(w, a)
  {
    if a != [] {
      SameIds(w, a[1..], b[1..]);
      assert SameButPayload(a[0], b[0]);
      assert RawValue(b[0], Id) == RawValue(a[0], Id);
    }
  }

  /** Validating what was validated changes nothing: restoring an archive that was parsed is
      restoring what the parse returned. */
  lemma ValidateTwice(k: Codec, schema: Schema, data: Data, files: Files)
    requires EnvelopeLaws(k.envelopes) && SchemaOk(k, schema) && Validate(k, schema, data, files).Ok?
    ensures var checked := Validate(k, schema, data, files); Validate(k, schema, checked.value, files) == checked
  {
    var checked := Validate(k, schema, data, files).value;
    var w := k.spelling;
    ValidatedPasses(k, schema, data, files);
    RewriteAgain(w, k.envelopes, data[DeviceBackups]);
    SameIds(w, data[DeviceBackups], checked[DeviceBackups]);
    forall r | 0 <= r < |k.rules| ensures RulePasses(w, checked, k.rules[r]) {
      assert RulePasses(w, data, k.rules[r]);
      RuleAgain(k, data, checked[DeviceBackups], k.rules[r]);
    }
    assert data[DeviceBackups := checked[DeviceBackups]] == checked && checked[DeviceBackups := checked[DeviceBackups]] == checked;
  }

  lemma RuleAgain(k: Codec, data: Data, rows: seq<JsonRow>, rule: ColumnRule)
    requires DeviceBackups in data && |rows| == |data[DeviceBackups]|
    requires forall i :: 0 <= i < |rows| ==> SameButPayload(data[DeviceBackups][i], rows[i])
    requires RulePasses(k.spelling, data, rule) && (rule.table == DeviceBackups ==> rule.column != EncryptedPayload)
    ensures RulePasses(k.spelling, data[DeviceBackups := rows], rule)
  {
    var checked := data[DeviceBackups := rows];
    var w := k.spelling;
    SameIds(w, data[DeviceBackups], checked[DeviceBackups]);
    assert rule.table in data;
    forall i | 0 <= i < |checked[rule.table]| ensures JsonPasses(w, checked, rule.check, RawValue(checked[rule.table][i], rule.column)) {
      assert JsonPasses(w, data, rule.check, RawValue(data[rule.table][i], rule.column));
      assert rule.table == DeviceBackups ==> SameButPayload(data[rule.table][i], checked[rule.table][i]);
      assert RawValue(checked[rule.table][i], rule.column) == RawValue(data[rule.table][i], rule.column);
    }
  }

  // ---------- What the checks mean for a database ----------

  /** The database meets the rules across its tables. */
  ghost predicate Restorable(k: Codec, db: Database, files: Files)
    requires IntegrationSettings in db && Devices in db && DeviceBackups in db
  {
    && |db[IntegrationSettings]| == 1 && Id in db[IntegrationSettings][0] && db[IntegrationSettings][0][Id] == Int(1)
    && RulesHold(k.spelling, db, k.rules)
    && TunnelAddresses.Restorable(k.net, RowAddresses(db[Devices]))
    && AllValid(k.envelopes, db[DeviceBackups])
    && k.filesFit(files)
  }

  /** The database with every stored firewall backup in its canonical spelling. */
  function CanonicalDatabase(k: Codec, db: Database): Database
    requires DeviceBackups in db
  {
    db[DeviceBackups := CanonicalRows(k.envelopes, db[DeviceBackups])]
  }

  lemma CanonicalDatabaseOk(k: Codec, schema: Schema, db: Database)
    requires SchemaOk(k, schema) && DatabaseOk(schema, db)
    ensures DatabaseOk(schema, CanonicalDatabase(k, db))
  {
    forall i | 0 <= i < |db[DeviceBackups]| ensures RowFits(schema[DeviceBackups], CanonicalRows(k.envelopes, db[DeviceBackups])[i]) {
      assert RowFits(schema[DeviceBackups], db[DeviceBackups][i]);
      CanonicalAt(k.envelopes, db[DeviceBackups], i);
      CanonicalRowFits(k.envelopes, schema[DeviceBackups], db[DeviceBackups][i]);
    }
  }

  /** The checks of an exported database succeed exactly when the database meets the rules, and
      return the export of the database with canonical payloads. */
  lemma CheckedExport(k: Codec, schema: Schema, db: Database, files: Files)
    requires CodecLaws(k) && SchemaOk(k, schema) && DatabaseOk(schema, db)
    ensures CheckData(k, Serialize(k.spelling, db), files) ==
      if Restorable(k, db, files) then Some(Serialize(k.spelling, CanonicalDatabase(k, db))) else None
  {
    var w := k.spelling;
    RulesTranslate(w, schema, db, k.rules);
    forall i | 0 <= i < |db[IntegrationSettings]| ensures Id in db[IntegrationSettings][i] && db[IntegrationSettings][i][Id].Int? {
      assert RowFits(schema[IntegrationSettings], db[IntegrationSettings][i]);
    }
    SettingsTranslate(w, db[IntegrationSettings]);
    DeviceAddresses(k, schema, db);
    TunnelAddresses.RestoreKeepsDistinct(k.net, RowAddresses(db[Devices]));
    RowsTranslate(w, k.envelopes, schema[DeviceBackups], db[DeviceBackups]);
    SerializeOneTable(w, db, DeviceBackups, CanonicalRows(k.envelopes, db[DeviceBackups]));
  }

  lemma DeviceAddresses(k: Codec, schema: Schema, db: Database)
    requires Lawful(k.spelling) && SchemaOk(k, schema) && DatabaseOk(schema, db)
    ensures JsonAddresses(k.spelling, Serialize(k.spelling, db)[Devices]) == RowAddresses(db[Devices])
  {
    forall i | 0 <= i < |db[Devices]| ensures WgTunnelIp in db[Devices][i] && db[Devices][i][WgTunnelIp].Inet? && !db[Devices][i][WgTunnelIp].a.Bad? {
      assert RowFits(schema[Devices], db[Devices][i]);
    }
    AddressesTranslate(k.spelling, db[Devices]);
  }

  lemma SerializeOneTable(w: Spelling, db: Database, table: TableName, rows: seq<Row>)
    requires table in db
    ensures Serialize(w, db)[table := SerializeRows(w, rows)] == Serialize(w, db[table := rows])
  {
  }

  // ---------- Sizes ----------

  lemma {:induction false} TotalGrows(members: seq<Member>, n: nat)
    requires n <= |members|
    ensures Total(members[..n]) <= Total(members)
  {
    if n < |members| {
      assert members[..|members|-1][..n] == members[..n];
      TotalGrows(members[..|members|-1], n);
    } else {
      assert members[..n] == members;
    }
  }

  /** The running checks pass exactly when every member and the total fit. */
  lemma {:induction false} SizesPass(limits: Limits, members: seq<Member>)
    ensures CheckSizes(limits, members).None? <==>
      (forall i :: 0 <= i < |members| ==> |members[i].content| <= limits.fileBytes) && (members != [] ==> Total(members) <= limits.totalBytes)
  {
    if members != [] {
      var front := members[..|members|-1];
      SizesPass(limits, front);
      TotalGrows(members, |front|);
      assert forall i :: 0 <= i < |front| ==> front[i] == members[i];
    }
  }

  // ---------- Main results ----------

  lemma MembersAre(k: Codec, db: Database, files: Files)
    requires FilesOk(files)
    ensures var members := Members(k, db, files); var data := Serialize(k.spelling, db);
      && HasName(members, ManifestJson) && HasName(members, DataJson)
      && (forall i :: 0 <= i < |members| ==> !members[i].name.OtherName?)
      && Find(members, ManifestJson) == Some(k.dumpManifest(ManifestOf(data))) && Find(members, DataJson) == Some(k.dumpData(data))
      && Files(FirstLogo(members), Find(members, ServerKey)) == files
  {
    var data := Serialize(k.spelling, db);
    FoundAgain(Member(ManifestJson, k.dumpManifest(ManifestOf(data))), Member(DataJson, k.dumpData(data)), files);
  }

  lemma FoundAgain(m: Member, d: Member, files: Files)
    requires m.name == ManifestJson && d.name == DataJson && FilesOk(files)
    ensures var logo := match files.logo case None => [] case Some(logo) => [logo];
      var key := match files.key case None => [] case Some(key) => [Member(ServerKey, key)];
      var members := [m, d] + logo + key;
      && HasName(members, ManifestJson) && HasName(members, DataJson)
      && (forall i :: 0 <= i < |members| ==> !members[i].name.OtherName?)
      && Find(members, ManifestJson) == Some(m.content) && Find(members, DataJson) == Some(d.content)
      && Files(FirstLogo(members), Find(members, ServerKey)) == files
  {
    var logo := match files.logo case None => [] case Some(logo) => [logo];
    var key := match files.key case None => [] case Some(key) => [Member(ServerKey, key)];
    var members := [m, d] + logo + key;
    assert members[0] == m && members[1] == d;
    FindPast([m, d] + logo, key, ManifestJson);
    FindPast([m, d] + logo, key, DataJson);
    FindPast([m, d], logo, ManifestJson);
    FindPast([m, d], logo, DataJson);
    FindPast([m, d], logo, ServerKey);
    assert [m, d][..1] == [m] && [m][..0] == [];
    assert Find([m, d], ServerKey) == Find([m], ServerKey) == Find([], ServerKey) == None;
    if files.key.None? {
      assert members == [m, d] + logo;
      assert Find(members, ServerKey) == None;
    } else {
      assert members[|members|-1] == key[0];
      assert Find(members, ServerKey) == files.key;
    }
    LogoFound(m, d, logo, key);
  }

  lemma LogoFound(m: Member, d: Member, logo: seq<Member>, key: seq<Member>)
    requires !IsLogo(m.name) && !IsLogo(d.name) && |logo| <= 1 && |key| <= 1
    requires (logo != [] ==> IsLogo(logo[0].name)) && (key != [] ==> !IsLogo(key[0].name))
    ensures FirstLogo([m, d] + logo + key) == if logo == [] then None else Some(logo[0])
  {
    var members := [m, d] + logo + key;
    assert members[1..] == [d] + logo + key && members[1..][1..] == logo + key;
    assert FirstLogo(members) == FirstLogo(members[1..]) == FirstLogo(logo + key);
    if logo == [] {
      assert logo + key == key;
      assert FirstLogo(key) == if key == [] then None else FirstLogo(key[1..]);
      assert key != [] ==> key[1..] == [];
    } else {
      assert (logo + key)[0] == logo[0];
      assert FirstLogo(logo + key) == Some(logo[0]);
    }
  }

  /** A later member of another name does not get in the way. */
  lemma FindPast(members: seq<Member>, more: seq<Member>, name: Name)
    requires |more| <= 1 && (more == [] || more[0].name != name)
    ensures Find(members + more, name) == Find(members, name)
  {
    if more == [] {
      assert members + more == members;
    } else {
      assert (members + more)[..|members|] == members;
    }
  }

  /** Data that a sound database was serialized to passes every check of its form. */
  lemma SerializedPasses(k: Codec, schema: Schema, db: Database)
    requires CodecLaws(k) && DatabaseOk(schema, db)
    ensures var data := Serialize(k.spelling, db);
      data.Keys == schema.Keys && CountsMatch(schema, ManifestOf(data), data) && DataPasses(k.spelling, schema, data)
      && Restored(k.spelling, schema, data) == db
  {
    var data := Serialize(k.spelling, db);
    forall name | name in schema
      ensures RowsPass(k.spelling, schema[name], data[name]) && DeserializeRows(k.spelling, schema[name], data[name]) == db[name]
    {
      RowsRoundTrip(k.spelling, schema[name], db[name]);
    }
  }

  /** The passphrase of the export opens it, given as it was, exactly when it has no blanks around
      it or is all blank: export strips it, parse does not. */
  predicate Opens(passphrase: Option<string>) {
    passphrase.None? || Trimmed(passphrase.value) || Strip(passphrase.value) == ""
  }

  /** `clean_optional`, through which every route passes the passphrase of its form. */
  function CleanOptional(value: string): Option<string> {
    if Strip(value) == "" then None else Some(Strip(value))
  }

  /** So the passphrase that a route exported with opens the archive in every route. */
  lemma RoutesAlwaysOpen(value: string)
    ensures Opens(CleanOptional(value)) && Secret(CleanOptional(value)) == CleanOptional(value)
  {
    StripTrims(value);
    if Strip(value) != "" {
      StripOfTrimmed(Strip(value));
    }
  }

  /** What an export of a sound database parses to, under the same limits and passphrase: no size,
      member, count or shape check refuses it, the rules across tables do exactly when the
      database does not meet them, and the firewall backups come out in canonical spelling. */
  lemma ExportsPassTheChecks(k: Codec, limits: Limits, schema: Schema, db: Database, files: Files, passphrase: Option<string>, estimate: nat)
    requires CodecLaws(k) && SchemaOk(k, schema) && DatabaseOk(schema, db) && FilesOk(files)
    requires Export(k, limits, db, files, passphrase, estimate).Ok?
    ensures Parse(k, limits, schema, Export(k, limits, db, files, passphrase, estimate).value, passphrase) ==
      if !Opens(passphrase) then Err(BadPassphrase)
      else if !Restorable(k, db, files) then Err(InvalidData)
      else Ok(Parsed(Serialize(k.spelling, CanonicalDatabase(k, db)), files))
  {
    var members := Members(k, db, files);
    var content := Export(k, limits, db, files, passphrase, estimate).value;
    Unpacked(k, limits, members, content, passphrase);
    if Opens(passphrase) {
      MembersParse(k, limits, schema, db, files);
      assert k.unzip(k.zip(members)) == Some(members);
    }
  }

  lemma Unpacked(k: Codec, limits: Limits, members: seq<Member>, content: Bytes, passphrase: Option<string>)
    requires CodecLaws(k) && |content| <= limits.bundleBytes
    requires content == match Secret(passphrase) case None => k.zip(members) case Some(secret) => k.encrypt(k.zip(members), secret)
    ensures Decrypted(k, limits, content, passphrase) == if Opens(passphrase) then Ok(k.zip(members)) else Err(BadPassphrase)
  {
    if passphrase.Some? {
      StripTrims(passphrase.value);
      if Trimmed(passphrase.value) {
        StripOfTrimmed(passphrase.value);
      }
    }
  }

  lemma MembersParse(k: Codec, limits: Limits, schema: Schema, db: Database, files: Files)
    requires CodecLaws(k) && SchemaOk(k, schema) && DatabaseOk(schema, db) && FilesOk(files) && WithinLimits(limits, Members(k, db, files))
    ensures ParseMembers(k, limits, schema, Members(k, db, files)) ==
      if Restorable(k, db, files) then Ok(Parsed(Serialize(k.spelling, CanonicalDatabase(k, db)), files)) else Err(InvalidData)
  {
    var members, data := Members(k, db, files), Serialize(k.spelling, db);
    MembersAre(k, db, files);
    MembersRead(k, limits, schema, members, ManifestOf(data), data);
    ContentsCheck(k, schema, db, files);
  }

  /** Members of allowed names and sizes, with a manifest and data: their contents decide. */
  lemma MembersRead(k: Codec, limits: Limits, schema: Schema, members: seq<Member>, manifest: Manifest, data: Data)
    requires k.loadManifest(k.dumpManifest(manifest)) == Some(manifest) && k.loadData(k.dumpData(data)) == Some(data)
    requires SchemaOk(k, schema) && WithinLimits(limits, members)
    requires HasName(members, ManifestJson) && HasName(members, DataJson)
    requires forall i :: 0 <= i < |members| ==> !members[i].name.OtherName?
    requires Find(members, ManifestJson) == Some(k.dumpManifest(manifest)) && Find(members, DataJson) == Some(k.dumpData(data))
    ensures ParseMembers(k, limits, schema, members) ==
      CheckContents(k, schema, manifest, data, Files(FirstLogo(members), Find(members, ServerKey)))
  {
    NothingToRefuse(limits, members);
  }

  lemma NothingToRefuse(limits: Limits, members: seq<Member>)
    requires WithinLimits(limits, members) && HasName(members, ManifestJson) && HasName(members, DataJson)
    requires forall i :: 0 <= i < |members| ==> !members[i].name.OtherName?
    ensures CheckMembers(limits, members).None?
  {
    SizesPass(limits, members);
  }

  lemma ContentsCheck(k: Codec, schema: Schema, db: Database, files: Files)
    requires CodecLaws(k) && SchemaOk(k, schema) && DatabaseOk(schema, db)
    ensures var data := Serialize(k.spelling, db);
      CheckContents(k, schema, ManifestOf(data), data, files) ==
        if Restorable(k, db, files) then Ok(Parsed(Serialize(k.spelling, CanonicalDatabase(k, db)), files)) else Err(InvalidData)
  {
    SerializedPasses(k, schema, db);
    CheckedExport(k, schema, db, files);
  }

  lemma CanonicalIsSame(k: Codec, db: Database)
    requires DeviceBackups in db && AllValid(k.envelopes, db[DeviceBackups])
    ensures CanonicalDatabase(k, db) == db <==> AllCanonical(k.envelopes, db[DeviceBackups])
  {
    UnchangedIffCanonical(k.envelopes, db[DeviceBackups]);
    assert db[DeviceBackups := db[DeviceBackups]] == db;
    assert CanonicalDatabase(k, db)[DeviceBackups] == CanonicalRows(k.envelopes, db[DeviceBackups]);
  }

  /** What was parsed is validated again, and inserted as it is. */
  lemma RestoredExport(k: Codec, schema: Schema, db: Database, files: Files)
    requires CodecLaws(k) && SchemaOk(k, schema) && DatabaseOk(schema, db) && Restorable(k, db, files)
    ensures RestoreBundle(k, schema, Parsed(Serialize(k.spelling, CanonicalDatabase(k, db)), files)) == Ok(CanonicalDatabase(k, db))
  {
    var data, canonical := Serialize(k.spelling, db), Serialize(k.spelling, CanonicalDatabase(k, db));
    ValidatedExport(k, schema, db, files);
    ValidateTwice(k, schema, data, files);
    CanonicalDatabaseOk(k, schema, db);
    SerializedPasses(k, schema, CanonicalDatabase(k, db));
  }

  lemma ValidatedExport(k: Codec, schema: Schema, db: Database, files: Files)
    requires CodecLaws(k) && SchemaOk(k, schema) && DatabaseOk(schema, db) && Restorable(k, db, files)
    ensures Validate(k, schema, Serialize(k.spelling, db), files) == Ok(Serialize(k.spelling, CanonicalDatabase(k, db)))
  {
    SerializedPasses(k, schema, db);
    CheckedExport(k, schema, db, files);
  }

  /** Export, parse and restore: an archive opened as it was made restores if and only if the
      database met the rules; then every table comes back row by row, with every firewall backup in
      its canonical spelling, and so do the files. It is the same database if and only if every
      stored payload was canonical. */
  lemma ArchiveRoundTrip(k: Codec, limits: Limits, schema: Schema, db: Database, files: Files, passphrase: Option<string>, estimate: nat)
    requires CodecLaws(k) && SchemaOk(k, schema) && DatabaseOk(schema, db) && FilesOk(files) && Opens(passphrase)
    requires Export(k, limits, db, files, passphrase, estimate).Ok?
    ensures var parsed := Parse(k, limits, schema, Export(k, limits, db, files, passphrase, estimate).value, passphrase);
      && (parsed.Ok? <==> Restorable(k, db, files))
      && (parsed.Ok? ==>
            && parsed.value.files == files
            && RestoreBundle(k, schema, parsed.value) == Ok(CanonicalDatabase(k, db))
            && (RestoreBundle(k, schema, parsed.value) == Ok(db) <==> AllCanonical(k.envelopes, db[DeviceBackups])))
  {
    ExportsPassTheChecks(k, limits, schema, db, files, passphrase, estimate);
    if Restorable(k, db, files) {
      RestoredIsSame(k, schema, db, files);
    }
  }

  lemma RestoredIsSame(k: Codec, schema: Schema, db: Database, files: Files)
    requires CodecLaws(k) && SchemaOk(k, schema) && DatabaseOk(schema, db) && Restorable(k, db, files)
    ensures var restored := RestoreBundle(k, schema, Parsed(Serialize(k.spelling, CanonicalDatabase(k, db)), files));
      restored == Ok(CanonicalDatabase(k, db)) && (restored == Ok(db) <==> AllCanonical(k.envelopes, db[DeviceBackups]))
  {
    RestoredExport(k, schema, db, files);
    CanonicalIsSame(k, db);
  }

  /** Where the firewall backups came in by uploads, removals and restores, in whatever order, a
      restorable database comes back as it was. */
  lemma RunningHubRoundTrip(k: Codec, limits: Limits, schema: Schema, db: Database, files: Files, passphrase: Option<string>, estimate: nat, steps: seq<Step>)
    requires CodecLaws(k) && SchemaOk(k, schema) && DatabaseOk(schema, db) && FilesOk(files) && Opens(passphrase)
    requires Export(k, limits, db, files, passphrase, estimate).Ok? && Restorable(k, db, files)
    requires db[DeviceBackups] == Exec(k.spelling, k.envelopes, schema[DeviceBackups], steps)
    ensures var parsed := Parse(k, limits, schema, Export(k, limits, db, files, passphrase, estimate).value, passphrase);
      parsed.Ok? && RestoreBundle(k, schema, parsed.value) == Ok(db)
  {
    ArchiveRoundTrip(k, limits, schema, db, files, passphrase, estimate);
    StoredPayloadsAreCanonical(k.spelling, k.envelopes, schema[DeviceBackups], steps);
  }

  /** A payload with a blank in front, which JSON ignores, comes back without it. */
  lemma ABlankInFrontIsLost(k: Codec, db: Database, i: nat, e: int)
    requires DeviceBackups in db && AllValid(k.envelopes, db[DeviceBackups]) && i < |db[DeviceBackups]|
    requires var payload := " " + k.envelopes.dump(e);
      k.envelopes.load(payload) == Some(e) && EncryptedPayload in db[DeviceBackups][i] && db[DeviceBackups][i][EncryptedPayload] == Txt(payload)
    ensures var after := CanonicalDatabase(k, db);
      && after != db && EncryptedPayload in after[DeviceBackups][i]
      && after[DeviceBackups][i][EncryptedPayload] == Txt(k.envelopes.dump(e))
  {
    CanonicalAt(k.envelopes, db[DeviceBackups], i);
    assert CanonicalOf(k.envelopes, db[DeviceBackups][i]) == Some(k.envelopes.dump(e));
    assert |" " + k.envelopes.dump(e)| == 1 + |k.envelopes.dump(e)|;
  }

  // ---------- What is exported, and what is accepted ----------

  function Sizes(members: seq<Member>): seq<nat> {
    seq(|members|, i requires 0 <= i < |members| => |members[i].content|)
  }

  function Sum(sizes: seq<nat>): nat {
    if sizes == [] then 0 else sizes[0] + Sum(sizes[1..])
  }

  lemma {:induction false} SumAppend(sizes: seq<nat>, n: nat)
    ensures Sum(sizes + [n]) == Sum(sizes) + n
  {
    if sizes == [] {
      assert [n][1..] == [] && [] + [n] == [n];
    } else {
      SumAppend(sizes[1..], n);
      assert (sizes + [n])[1..] == sizes[1..] + [n];
    }
  }

  /** The total is the sum of the sizes, from either end. */
  lemma {:induction false} TotalIsSum(members: seq<Member>)
    ensures Total(members) == Sum(Sizes(members))
  {
    if members != [] {
      var front, last := members[..|members|-1], members[|members|-1];
      TotalIsSum(front);
      assert Sizes(members) == Sizes(front) + [|last.content|];
      SumAppend(Sizes(front), |last.content|);
    }
  }

  /** An export succeeds if and only if the estimate, every member, their number, their sum and the result
      keep the limits; the result is the zip of the members, encrypted with the stripped passphrase
      exactly when there is one that is not blank. */
  lemma ExportedExactlyWhen(k: Codec, limits: Limits, db: Database, files: Files, passphrase: Option<string>, estimate: nat)
    ensures var members := Members(k, db, files); var r := Export(k, limits, db, files, passphrase, estimate);
      var secret := if passphrase.Some? then Strip(passphrase.value) else "";
      var result := if secret == "" then k.zip(members) else k.encrypt(k.zip(members), secret);
      && (r.Ok? <==>
            && estimate <= limits.fileBytes && estimate <= limits.totalBytes
            && |members| <= limits.entries && (forall i :: 0 <= i < |members| ==> |members[i].content| <= limits.fileBytes)
            && Sum(Sizes(members)) <= limits.totalBytes
            && |k.zip(members)| <= limits.bundleBytes && |result| <= limits.bundleBytes)
      && r == if r.Ok? then Ok(result) else Err(ExceedsLimits)
  {
    TotalIsSum(Members(k, db, files));
  }

  /** An archive that was encrypted opens with its own passphrase only; one that was not opens with any. */
  lemma OnlyThePassphraseOpens(k: Codec, limits: Limits, schema: Schema, db: Database, files: Files, passphrase: Option<string>, estimate: nat, given: Option<string>)
    requires CodecLaws(k) && SchemaOk(k, schema) && Export(k, limits, db, files, passphrase, estimate).Ok?
    ensures var secret := if passphrase.Some? then Strip(passphrase.value) else "";
      Parse(k, limits, schema, Export(k, limits, db, files, passphrase, estimate).value, given) ==
        if secret != "" && (given.None? || given.value == "") then Err(NeedsPassphrase)
        else if secret != "" && given.value != secret then Err(BadPassphrase)
        else ParseMembers(k, limits, schema, Members(k, db, files))
  {
    var raw := k.zip(Members(k, db, files));
    assert k.unzip(raw) == Some(Members(k, db, files)) && !k.isEnvelope(raw);
    if Secret(passphrase).Some? {
      var content := k.encrypt(raw, Secret(passphrase).value);
      assert k.isEnvelope(content) && k.cipherSize(content) <= |content|;
      assert given.Some? ==> k.decrypt(content, given.value) == if Secret(passphrase).value == given.value then Some(raw) else None;
    }
  }

  predicate AcceptsMembers(limits: Limits, members: seq<Member>) {
    && |members| <= limits.entries && (forall i :: 0 <= i < |members| ==> |members[i].content| <= limits.fileBytes && !members[i].name.OtherName?)
    && Sum(Sizes(members)) <= limits.totalBytes
    && Find(members, ManifestJson).Some? && Find(members, DataJson).Some?
  }

  lemma MembersAccepted(limits: Limits, members: seq<Member>)
    ensures CheckMembers(limits, members).None? <==> AcceptsMembers(limits, members)
  {
    TotalIsSum(members);
    SizesPass(limits, members);
    FindIsHasName(members, ManifestJson);
    FindIsHasName(members, DataJson);
    assert members == [] ==> !HasName(members, ManifestJson);
  }

  lemma ContentsAccepted(k: Codec, schema: Schema, manifest: Manifest, data: Data, files: Files)
    requires SchemaOk(k, schema)
    ensures CheckContents(k, schema, manifest, data, files).Ok? <==> AcceptsContents(k, schema, manifest, data, files)
    ensures CheckContents(k, schema, manifest, data, files).Ok? ==>
      DeviceBackups in data && CheckContents(k, schema, manifest, data, files).value ==
        Parsed(data[DeviceBackups := Rewrite(k.spelling, k.envelopes, data[DeviceBackups]).value], files)
  {
  }

  /** The members of an archive are accepted if and only if they are few and small enough, two of them
      are the manifest and the data and the others are known, both are readable and say the right version,
      tables and counts, and the data keeps every rule. What is returned is the data with its
      payloads rewritten, and the files. */
  lemma AcceptedExactlyWhen(k: Codec, limits: Limits, schema: Schema, members: seq<Member>)
    requires SchemaOk(k, schema)
    ensures var r, m, d := ParseMembers(k, limits, schema, members), Find(members, ManifestJson), Find(members, DataJson);
      var files := Files(FirstLogo(members), Find(members, ServerKey));
      && (r.Ok? <==>
            && AcceptsMembers(limits, members)
            && k.loadManifest(m.value).Some? && k.loadData(d.value).Some?
            && AcceptsContents(k, schema, k.loadManifest(m.value).value, k.loadData(d.value).value, files))
      && (r.Ok? ==>
            var data := k.loadData(d.value).value;
            r.value == Parsed(data[DeviceBackups := Rewrite(k.spelling, k.envelopes, data[DeviceBackups]).value], files))
  {
    MembersAccepted(limits, members);
    if AcceptsMembers(limits, members) {
      var m, d := Find(members, ManifestJson).value, Find(members, DataJson).value;
      if k.loadManifest(m).Some? && k.loadData(d).Some? {
        ContentsAccepted(k, schema, k.loadManifest(m).value, k.loadData(d).value, Files(FirstLogo(members), Find(members, ServerKey)));
      }
    }
  }

  predicate AcceptsContents(k: Codec, schema: Schema, manifest: Manifest, data: Data, files: Files)
    requires SchemaOk(k, schema)
  {
    && manifest.version == 2 && data.Keys == schema.Keys && manifest.counts.Keys == schema.Keys
    && (forall name :: name in schema ==> manifest.counts[name] == |data[name]| && RowsPass(k.spelling, schema[name], data[name]))
    && |data[IntegrationSettings]| == 1 && StrOf(k.spelling, RawValue(data[IntegrationSettings][0], Id)) == "1"
    && (forall r :: 0 <= r < |k.rules| ==> RulePasses(k.spelling, data, k.rules[r])) && k.filesFit(files)
    && TunnelAddresses.RestoredIps(k.net, JsonAddresses(k.spelling, data[Devices])).Ok?
    && Rewrite(k.spelling, k.envelopes, data[DeviceBackups]).Some?
  }

  lemma {:induction false} FindIsHasName(members: seq<Member>, name: Name)
    ensures Find(members, name).Some? <==> HasName(members, name)
  {
    if members != [] {
      var n := |members| - 1;
      FindIsHasName(members[..n], name);
      assert forall i :: 0 <= i < n ==> members[..n][i] == members[i];
      if HasName(members[..n], name) {
        var i :| 0 <= i < n && members[..n][i].name == name;
        assert members[i].name == name;
      }
    }
  }
}
