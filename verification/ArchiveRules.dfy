/**
 The domain rules of `validate_backup_data`: what the code checks on the JSON of an archive, and
 what that means for the database the archive was written from.
 */
module ArchiveRules {
  import opened Options
  import opened Text
  import opened ArchiveRows
  import PeerTable
  import TunnelAddresses

  /** One check of one column. `OneOf` and `InRange` read the default where the value is false in
      Python's sense; `Reference` wants an id of that table. */
  datatype Check =
    | MaxLength(max: nat)
    | OneOf(default: string, allowed: set<string>)
    | OptionalOneOf(allowed: set<string>)
    | InRange(fallback: int, low: int, high: int)
    | Reference(table: TableName)
    | OptionalReference(table: TableName)
    | KeyText

  datatype ColumnRule = ColumnRule(table: TableName, column: ColumnName, check: Check)

  // ---------- The Hub's own rules ----------

  const BACKUP_RETENTION_MAX := 10
  const BACKUP_INTERVAL_VALUE_MAX := 999
  const BACKUP_INTERVAL_HOURS_MAX := 24 * 30

  const USER_RULES := [
    ColumnRule(Users, Role, OneOf("", {"user", "administrator"})),
    ColumnRule(Users, AuthProvider, OptionalOneOf({"microsoft", "local_ad"})),
    ColumnRule(Users, Email, MaxLength(320)),
    ColumnRule(Users, FirstName, MaxLength(120)),
    ColumnRule(Users, LastName, MaxLength(120))]

  const COMPANY_RULES := [
    ColumnRule(Companies, Name, MaxLength(200)),
    ColumnRule(CompanyUsers, CompanyId, Reference(Companies)),
    ColumnRule(CompanyUsers, UserId, Reference(Users)),
    ColumnRule(CompanyUsers, Role, OneOf("", {"viewer", "admin", "owner"})),
    ColumnRule(EnrollmentCodes, CompanyId, Reference(Companies)),
    ColumnRule(EnrollmentCodes, CreatedBy, OptionalReference(Users))]

  const DEVICE_RULES := [
    ColumnRule(Devices, CompanyId, Reference(Companies)),
    ColumnRule(Devices, WgPublicKey, KeyText),
    ColumnRule(Devices, Status, OneOf("", {"pending", "online", "offline", "warning", "critical", "revoked", "unknown"})),
    ColumnRule(Devices, FirmwareStatus, OneOf("unknown", {"unknown", "none", "update", "upgrade", "error"})),
    ColumnRule(Devices, FirmwareUpdateType, OptionalOneOf({"update", "upgrade"})),
    ColumnRule(Devices, FirmwareCheckRequestReason, OptionalOneOf({"manual", "scheduled"})),
    ColumnRule(Devices, LicenseType, OptionalOneOf({"community", "business"})),
    ColumnRule(Devices, BackupRetentionCount, InRange(3, 1, BACKUP_RETENTION_MAX)),
    ColumnRule(Devices, BackupIntervalValue, InRange(24, 1, BACKUP_INTERVAL_VALUE_MAX)),
    ColumnRule(Devices, BackupIntervalUnit, OneOf("hours", {"hours", "days", "months"})),
    ColumnRule(Devices, BackupIntervalHours, InRange(24, 1, BACKUP_INTERVAL_HOURS_MAX)),
    ColumnRule(Devices, Hostname, MaxLength(255)),
    ColumnRule(Devices, Name, MaxLength(200)),
    ColumnRule(Devices, EmailNotificationRecipient, MaxLength(320)),
    ColumnRule(Devices, RunbookOwner, MaxLength(200)),
    ColumnRule(Devices, RunbookContact, MaxLength(320)),
    ColumnRule(Devices, RunbookSite, MaxLength(200)),
    ColumnRule(Devices, FirmwareCurrentVersion, MaxLength(80)),
    ColumnRule(Devices, FirmwareAvailableVersion, MaxLength(80)),
    ColumnRule(Devices, FirmwareStatusMessage, MaxLength(500))]

  const HISTORY_RULES := [
    ColumnRule(DeviceBackups, DeviceId, Reference(Devices)),
    ColumnRule(DeviceBackups, Filename, MaxLength(255)),
    ColumnRule(DeviceEvents, DeviceId, Reference(Devices)),
    ColumnRule(DeviceEvents, EventType, MaxLength(80)),
    ColumnRule(DeviceEvents, Message, MaxLength(1000)),
    ColumnRule(AuditLogs, UserId, OptionalReference(Users)),
    ColumnRule(AuditLogs, CompanyId, OptionalReference(Companies)),
    ColumnRule(AuditLogs, DeviceId, OptionalReference(Devices)),
    ColumnRule(AuditLogs, Action, MaxLength(120)),
    ColumnRule(AuditLogs, UserAgent, MaxLength(500))]

  const HUB_RULES := USER_RULES + COMPANY_RULES + DEVICE_RULES + HISTORY_RULES

  // ---------- On JSON, as the code does it ----------

  /** `bool(value)` */
  predicate Truthy(w: Spelling, v: Json) {
    match v
    case JNull => false
    case JBool(b) => b
    case JInt(n) => n != 0
    case JStr(s) => s != ""
    case JOther(id) => w.truthyOther(id)
  }

  /** `str(value or default)` */
  function OrElse(w: Spelling, v: Json, default: string): string {
    if Truthy(w, v) then StrOf(w, v) else default
  }

  /** The set of ids of a table, as UUIDs. */
  function JsonIds(w: Spelling, rows: seq<JsonRow>): set<int> {
    if rows == [] then {}
    else
      match w.readUuid(StrOf(w, RawValue(rows[0], Id)))
      case None => JsonIds(w, rows[1..])
      case Some(u) => {u} + JsonIds(w, rows[1..])
  }

  predicate Refers(w: Spelling, data: Data, table: TableName, v: Json) {
    table in data
    && match w.readUuid(StrOf(w, v)) case None => false case Some(u) => u in JsonIds(w, data[table])
  }

  predicate JsonPasses(w: Spelling, data: Data, check: Check, v: Json) {
    match check
    case MaxLength(max) => v.JNull? || |StrOf(w, v)| <= max
    case OneOf(default, allowed) => w.lower(Strip(OrElse(w, v, default))) in allowed
    case OptionalOneOf(allowed) => v.JNull? || w.lower(Strip(StrOf(w, v))) in allowed
    case InRange(fallback, low, high) =>
      (match ReadInt(OrElse(w, v, Show(fallback))) case None => false case Some(n) => low <= n <= high)
    case Reference(table) => Refers(w, data, table, v)
    case OptionalReference(table) => v.JNull? || Refers(w, data, table, v)
    case KeyText => PeerTable.ValidKey(Strip(OrElse(w, v, "")))
  }

  predicate RulePasses(w: Spelling, data: Data, rule: ColumnRule) {
    rule.table in data
    && forall i :: 0 <= i < |data[rule.table]| ==> JsonPasses(w, data, rule.check, RawValue(data[rule.table][i], rule.column))
  }

  predicate RulesPass(w: Spelling, data: Data, rules: seq<ColumnRule>) {
    forall r :: 0 <= r < |rules| ==> RulePasses(w, data, rules[r])
  }

  /** Exactly one settings row, with id 1. */
  predicate SettingsPass(w: Spelling, rows: seq<JsonRow>) {
    |rows| == 1 && StrOf(w, RawValue(rows[0], Id)) == "1"
  }

  /** The tunnel addresses, as `_validate_restore_tunnel_ip` reads them. */
  function JsonAddresses(w: Spelling, rows: seq<JsonRow>): seq<TunnelAddresses.Address> {
    if rows == [] then [] else [w.readAddress(Strip(StrOf(w, RawValue(rows[0], WgTunnelIp))))] + JsonAddresses(w, rows[1..])
  }

  // ---------- What it means for a database ----------

  function RowIds(rows: seq<Row>): set<int> {
    if rows == [] then {}
    else (if Id in rows[0] && rows[0][Id].Uuid? then {rows[0][Id].u} else {}) + RowIds(rows[1..])
  }

  /** Some row of the table has this id. */
  predicate Exists(db: Database, table: TableName, cell: Cell) {
    table in db && cell.Uuid? && cell.u in RowIds(db[table])
  }

  /** The text of a cell, or the default where it is empty or null. */
  function TextOr(cell: Cell, default: string): string {
    if cell.Plain? && cell.json.JStr? && cell.json.s != "" then cell.json.s else default
  }

  predicate CellPasses(w: Spelling, db: Database, check: Check, cell: Cell) {
    match check
    case MaxLength(max) => |TextOr(cell, "")| <= max
    case OneOf(default, allowed) => w.lower(Strip(TextOr(cell, default))) in allowed
    case OptionalOneOf(allowed) => cell.Null? || w.lower(Strip(TextOr(cell, ""))) in allowed
    case InRange(fallback, low, high) => low <= (if cell.Int? && cell.n != 0 then cell.n else fallback) <= high
    case Reference(table) => Exists(db, table, cell)
    case OptionalReference(table) => cell.Null? || Exists(db, table, cell)
    case KeyText => PeerTable.ValidKey(Strip(TextOr(cell, "")))
  }

  predicate RuleHolds(w: Spelling, db: Database, rule: ColumnRule) {
    rule.table in db
    && forall i :: 0 <= i < |db[rule.table]| ==> rule.column in db[rule.table][i] && CellPasses(w, db, rule.check, db[rule.table][i][rule.column])
  }

  predicate RulesHold(w: Spelling, db: Database, rules: seq<ColumnRule>) {
    forall r :: 0 <= r < |rules| ==> RuleHolds(w, db, rules[r])
  }

  function RowAddresses(rows: seq<Row>): seq<TunnelAddresses.Address> {
    if rows == [] then []
    else [if WgTunnelIp in rows[0] && rows[0][WgTunnelIp].Inet? then rows[0][WgTunnelIp].a else TunnelAddresses.Bad] + RowAddresses(rows[1..])
  }

  // ---------- The two agree on what a sound database exports ----------

  predicate HasIds(schema: Schema, table: TableName) {
    table in schema && Id in schema[table] && schema[table][Id] == ColumnType(UuidColumn, false)
  }

  /** A rule speaks of a column of the right kind. */
  predicate Suits(schema: Schema, rule: ColumnRule) {
    && rule.table in schema && rule.column in schema[rule.table]
    && var column := schema[rule.table][rule.column];
    match rule.check
    case InRange(_, _, _) => column.kind == IntColumn
    case Reference(table) => column == ColumnType(UuidColumn, false) && HasIds(schema, table)
    case OptionalReference(table) => column.kind == UuidColumn && HasIds(schema, table)
    case _ => column.kind == TextColumn
  }

  lemma {:induction false} JsonIdsAre(w: Spelling, rows: seq<Row>)
    requires Lawful(w) && forall i :: 0 <= i < |rows| ==> Id in rows[i] && rows[i][Id].Uuid?
    ensures JsonIds(w, SerializeRows(w, rows)) == RowIds(rows)
  {
    if rows != [] {
      JsonIdsAre(w, rows[1..]);
      assert SerializeRows(w, rows)[1..] == SerializeRows(w, rows[1..]);
      assert RawValue(SerializeRow(w, rows[0]), Id) == JStr(w.showUuid(rows[0][Id].u));
    }
  }

  lemma RefersIsExists(w: Spelling, schema: Schema, db: Database, table: TableName, cell: Cell)
    requires Lawful(w) && DatabaseOk(schema, db) && HasIds(schema, table) && cell.Uuid?
    ensures Refers(w, Serialize(w, db), table, JsonOf(w, cell)) <==> Exists(db, table, cell)
  {
    forall i | 0 <= i < |db[table]| ensures Id in db[table][i] && db[table][i][Id].Uuid? {
      assert RowFits(schema[table], db[table][i]);
    }
    JsonIdsAre(w, db[table]);
  }

  /** A check of the JSON of a cell is a condition on the cell. */
  lemma CheckTranslates(w: Spelling, schema: Schema, db: Database, rule: ColumnRule, cell: Cell)
    requires Lawful(w) && DatabaseOk(schema, db) && Suits(schema, rule) && Fits(schema[rule.table][rule.column], cell)
    ensures JsonPasses(w, Serialize(w, db), rule.check, JsonOf(w, cell)) <==> CellPasses(w, db, rule.check, cell)
  {
    match rule.check
    case Reference(table) => RefersIsExists(w, schema, db, table, cell);
    case OptionalReference(table) =>
      if cell.Uuid? {
        RefersIsExists(w, schema, db, table, cell);
      }
    case InRange(fallback, low, high) =>
      ReadShow(fallback);
      if cell.Int? {
        ReadShow(cell.n);
      }
    case _ =>
  }

  lemma RuleTranslates(w: Spelling, schema: Schema, db: Database, rule: ColumnRule)
    requires Lawful(w) && DatabaseOk(schema, db) && Suits(schema, rule)
    ensures RulePasses(w, Serialize(w, db), rule) <==> RuleHolds(w, db, rule)
  {
    var rows, data := db[rule.table], Serialize(w, db);
    forall i | 0 <= i < |rows|
      ensures rule.column in rows[i]
      ensures JsonPasses(w, data, rule.check, RawValue(data[rule.table][i], rule.column)) <==> CellPasses(w, db, rule.check, rows[i][rule.column])
    {
      assert RowFits(schema[rule.table], rows[i]);
      SerializedAt(w, rows, i);
      CheckTranslates(w, schema, db, rule, rows[i][rule.column]);
    }
  }

  /** Every rule passes on the JSON of a sound database exactly when the database keeps it. */
  lemma RulesTranslate(w: Spelling, schema: Schema, db: Database, rules: seq<ColumnRule>)
    requires Lawful(w) && DatabaseOk(schema, db) && forall r :: 0 <= r < |rules| ==> Suits(schema, rules[r])
    ensures RulesPass(w, Serialize(w, db), rules) <==> RulesHold(w, db, rules)
  {
    forall r | 0 <= r < |rules| ensures RulePasses(w, Serialize(w, db), rules[r]) <==> RuleHolds(w, db, rules[r]) {
      RuleTranslates(w, schema, db, rules[r]);
    }
  }

  lemma SettingsTranslate(w: Spelling, rows: seq<Row>)
    requires forall i :: 0 <= i < |rows| ==> Id in rows[i] && rows[i][Id].Int?
    ensures SettingsPass(w, SerializeRows(w, rows)) <==> |rows| == 1 && rows[0][Id] == Int(1)
  {
    if |rows| == 1 {
      SerializedAt(w, rows, 0);
      assert RawValue(SerializeRow(w, rows[0]), Id) == JInt(rows[0][Id].n);
      ReadShow(rows[0][Id].n);
      ReadShow(1);
      assert Show(1) == "1";
    }
  }

  lemma {:induction false} AddressesTranslate(w: Spelling, rows: seq<Row>)
    requires Lawful(w) && forall i :: 0 <= i < |rows| ==> WgTunnelIp in rows[i] && rows[i][WgTunnelIp].Inet? && !rows[i][WgTunnelIp].a.Bad?
    ensures JsonAddresses(w, SerializeRows(w, rows)) == RowAddresses(rows)
  {
    if rows != [] {
      var a := rows[0][WgTunnelIp].a;
      AddressesTranslate(w, rows[1..]);
      assert SerializeRows(w, rows)[1..] == SerializeRows(w, rows[1..]);
      assert RawValue(SerializeRow(w, rows[0]), WgTunnelIp) == JStr(w.showAddress(a));
      StripOfTrimmed(w.showAddress(a));
    }
  }

  /** With the Hub's rules a stored interval of more than 720 hours keeps an archive from being
      restored, and a retention count of zero does not: zero reads as the default. */
  lemma LongIntervalsAreRefused(w: Spelling, db: Database, i: nat)
    requires Devices in db && i < |db[Devices]| && BackupIntervalHours in db[Devices][i] && db[Devices][i][BackupIntervalHours].Int?
    requires db[Devices][i][BackupIntervalHours].n > 720
    ensures !RulesHold(w, db, HUB_RULES)
    ensures CellPasses(w, db, InRange(3, 1, BACKUP_RETENTION_MAX), Int(0))
  {
    var r := |USER_RULES| + |COMPANY_RULES| + 10;
    assert HUB_RULES[r] == DEVICE_RULES[10] == ColumnRule(Devices, BackupIntervalHours, InRange(24, 1, BACKUP_INTERVAL_HOURS_MAX));
    assert !RuleHolds(w, db, HUB_RULES[r]);
  }

  // ---------- What the Hub's rules protect ----------

  /** Some row of the table has the id that the cell holds. */
  predicate Named(db: Database, table: TableName, cell: Cell) {
    table in db && cell.Uuid? && exists j :: 0 <= j < |db[table]| && Id in db[table][j] && db[table][j][Id] == cell
  }

  lemma {:induction false} IdsAreNamed(rows: seq<Row>, u: int)
    ensures u in RowIds(rows) <==> exists j :: 0 <= j < |rows| && Id in rows[j] && rows[j][Id] == Uuid(u)
  {
    if rows != [] {
      IdsAreNamed(rows[1..], u);
      assert forall j :: 1 <= j < |rows| ==> rows[j] == rows[1..][j-1];
      if Id in rows[0] && rows[0][Id] == Uuid(u) {
        assert rows[0][Id] == Uuid(u);
      }
    }
  }

  lemma RuleAt(w: Spelling, db: Database, r: nat, table: TableName, i: nat)
    requires RulesHold(w, db, HUB_RULES) && r < |HUB_RULES| && HUB_RULES[r].table == table && table in db && i < |db[table]|
    ensures HUB_RULES[r].column in db[table][i] && CellPasses(w, db, HUB_RULES[r].check, db[table][i][HUB_RULES[r].column])
  {
    assert RuleHolds(w, db, HUB_RULES[r]);
  }

  lemma ReferenceAt(w: Spelling, db: Database, r: nat, table: TableName, i: nat, target: TableName)
    requires RulesHold(w, db, HUB_RULES) && r < |HUB_RULES| && HUB_RULES[r].table == table && table in db && i < |db[table]|
    requires HUB_RULES[r].check == Reference(target) || HUB_RULES[r].check == OptionalReference(target)
    ensures HUB_RULES[r].column in db[table][i]
    ensures var cell := db[table][i][HUB_RULES[r].column];
      Named(db, target, cell) || (cell.Null? && HUB_RULES[r].check == OptionalReference(target))
  {
    RuleAt(w, db, r, table, i);
    var cell := db[table][i][HUB_RULES[r].column];
    if cell.Uuid? && target in db {
      IdsAreNamed(db[target], cell.u);
    }
  }

  /** In a database that keeps the Hub's rules no membership, enrollment code, device, firewall backup,
      event or audit row refers to a row that is not there. */
  lemma NothingDangles(w: Spelling, db: Database, table: TableName, i: nat)
    requires RulesHold(w, db, HUB_RULES) && table in db && i < |db[table]|
    ensures var row := db[table][i];
      match table
      case CompanyUsers =>
        CompanyId in row && Named(db, Companies, row[CompanyId]) && UserId in row && Named(db, Users, row[UserId])
      case EnrollmentCodes =>
        CompanyId in row && Named(db, Companies, row[CompanyId]) && CreatedBy in row && (row[CreatedBy].Null? || Named(db, Users, row[CreatedBy]))
      case Devices => CompanyId in row && Named(db, Companies, row[CompanyId])
      case DeviceBackups => DeviceId in row && Named(db, Devices, row[DeviceId])
      case DeviceEvents => DeviceId in row && Named(db, Devices, row[DeviceId])
      case AuditLogs =>
        && UserId in row && (row[UserId].Null? || Named(db, Users, row[UserId]))
        && CompanyId in row && (row[CompanyId].Null? || Named(db, Companies, row[CompanyId]))
        && DeviceId in row && (row[DeviceId].Null? || Named(db, Devices, row[DeviceId]))
      case _ => true
  {
    assert HUB_RULES[6] == ColumnRule(CompanyUsers, CompanyId, Reference(Companies)) && HUB_RULES[7] == ColumnRule(CompanyUsers, UserId, Reference(Users));
    assert HUB_RULES[9] == ColumnRule(EnrollmentCodes, CompanyId, Reference(Companies));
    assert HUB_RULES[10] == ColumnRule(EnrollmentCodes, CreatedBy, OptionalReference(Users));
    assert HUB_RULES[11] == ColumnRule(Devices, CompanyId, Reference(Companies));
    assert HUB_RULES[31] == ColumnRule(DeviceBackups, DeviceId, Reference(Devices)) && HUB_RULES[33] == ColumnRule(DeviceEvents, DeviceId, Reference(Devices));
    assert HUB_RULES[36] == ColumnRule(AuditLogs, UserId, OptionalReference(Users)) && HUB_RULES[37] == ColumnRule(AuditLogs, CompanyId, OptionalReference(Companies));
    assert HUB_RULES[38] == ColumnRule(AuditLogs, DeviceId, OptionalReference(Devices));
    match table
    case CompanyUsers =>
      ReferenceAt(w, db, 6, table, i, Companies);
      ReferenceAt(w, db, 7, table, i, Users);
    case EnrollmentCodes =>
      ReferenceAt(w, db, 9, table, i, Companies);
      ReferenceAt(w, db, 10, table, i, Users);
    case Devices => ReferenceAt(w, db, 11, table, i, Companies);
    case DeviceBackups => ReferenceAt(w, db, 31, table, i, Devices);
    case DeviceEvents => ReferenceAt(w, db, 33, table, i, Devices);
    case AuditLogs =>
      ReferenceAt(w, db, 36, table, i, Users);
      ReferenceAt(w, db, 37, table, i, Companies);
      ReferenceAt(w, db, 38, table, i, Devices);
    case _ =>
  }

  /** What the rules say of a device: a well-formed key, a known status, and settings within their ranges. */
  lemma DevicesAreSound(w: Spelling, db: Database, i: nat)
    requires RulesHold(w, db, HUB_RULES) && Devices in db && i < |db[Devices]|
    ensures var row := db[Devices][i];
      && WgPublicKey in row && PeerTable.ValidKey(Strip(TextOr(row[WgPublicKey], "")))
      && Status in row && w.lower(Strip(TextOr(row[Status], ""))) in {"pending", "online", "offline", "warning", "critical", "revoked", "unknown"}
      && Hostname in row && |TextOr(row[Hostname], "")| <= 255
      && BackupIntervalHours in row && BackupRetentionCount in row
      && (row[BackupIntervalHours].Int? ==> 0 <= row[BackupIntervalHours].n <= 720)
      && (row[BackupRetentionCount].Int? ==> 0 <= row[BackupRetentionCount].n <= 10)
  {
    assert HUB_RULES[12] == ColumnRule(Devices, WgPublicKey, KeyText) && HUB_RULES[13] == DEVICE_RULES[2];
    assert HUB_RULES[18] == ColumnRule(Devices, BackupRetentionCount, InRange(3, 1, BACKUP_RETENTION_MAX));
    assert HUB_RULES[21] == ColumnRule(Devices, BackupIntervalHours, InRange(24, 1, BACKUP_INTERVAL_HOURS_MAX));
    assert HUB_RULES[22] == ColumnRule(Devices, Hostname, MaxLength(255));
    RuleAt(w, db, 12, Devices, i);
    RuleAt(w, db, 13, Devices, i);
    RuleAt(w, db, 18, Devices, i);
    RuleAt(w, db, 21, Devices, i);
    RuleAt(w, db, 22, Devices, i);
  }
}
