/**
 Database rows as JSON and back (`serialize_model_row`, `deserialize_model_row` and the checks of
 a row's shape). How times, UUIDs and addresses are spelled is a parameter with a law.
 */
module ArchiveRows {
  import opened Options
  import opened Text
  import TunnelAddresses

  /** The tables of an archive; `OtherTable` is any name that is none of theirs. */
  datatype TableName =
    | Users | IntegrationSettings | Companies | CompanyUsers | EnrollmentCodes | Devices | DeviceBackups | DeviceEvents | AuditLogs
    | OtherTable(name: string)

  /** The columns that some check names; `OtherColumn` is any other name. */
  datatype ColumnName =
    | Id | CompanyId | UserId | DeviceId | CreatedBy
    | Role | AuthProvider | Email | FirstName | LastName | Name
    | WgPublicKey | WgTunnelIp | Status | FirmwareStatus | FirmwareUpdateType | FirmwareCheckRequestReason | LicenseType
    | BackupRetentionCount | BackupIntervalValue | BackupIntervalUnit | BackupIntervalHours
    | Hostname | EmailNotificationRecipient | RunbookOwner | RunbookContact | RunbookSite
    | FirmwareCurrentVersion | FirmwareAvailableVersion | FirmwareStatusMessage
    | Filename | BackupFormat | EncryptedPayload | CreatedAt | EventType | Message | Action | UserAgent
    | OtherColumn(name: string)

  datatype Json = JNull | JBool(b: bool) | JInt(n: int) | JStr(s: string) | JOther(id: int)

  datatype Kind = TimeColumn | IntColumn | BoolColumn | UuidColumn | AddressColumn | TextColumn

  datatype ColumnType = ColumnType(kind: Kind, nullable: bool)

  /** The columns of a table, by name. */
  type Table = map<ColumnName, ColumnType>

  /** A value in the database, or on its way there: the code hands what it finds in a text column
      on as it is. */
  datatype Cell = Null | Time(t: int) | Int(n: int) | Bool(b: bool) | Uuid(u: int) | Inet(a: TunnelAddresses.Address) | Plain(json: Json)

  type Row = map<ColumnName, Cell>
  type JsonRow = map<ColumnName, Json>
  type Schema = map<TableName, Table>
  type Database = map<TableName, seq<Row>>
  type Data = map<TableName, seq<JsonRow>>

  function Txt(s: string): Cell {
    Plain(JStr(s))
  }

  datatype Spelling = Spelling(
    showTime: int -> string, readTime: string -> Option<int>,
    showUuid: int -> string, readUuid: string -> Option<int>,
    showAddress: TunnelAddresses.Address -> string, readAddress: string -> TunnelAddresses.Address,
    showOther: int -> string, truthyOther: int -> bool, lower: string -> string)

  ghost predicate Lawful(w: Spelling) {
    && (forall t :: w.readTime(w.showTime(t)) == Some(t))
    && (forall u :: w.readUuid(w.showUuid(u)) == Some(u))
    && (forall a :: a != TunnelAddresses.Bad ==> w.readAddress(w.showAddress(a)) == a && Trimmed(w.showAddress(a)))
  }

  /** `backup_json_value` */
  function JsonOf(w: Spelling, cell: Cell): Json {
    match cell
    case Null => JNull
    case Time(t) => JStr(w.showTime(t))
    case Int(n) => JInt(n)
    case Bool(b) => JBool(b)
    case Uuid(u) => JStr(w.showUuid(u))
    case Inet(a) => JStr(w.showAddress(a))
    case Plain(json) => json
  }

  /** `str(raw_value)` */
  function StrOf(w: Spelling, json: Json): string {
    match json
    case JNull => "None"
    case JBool(b) => if b then "True" else "False"
    case JInt(n) => Show(n)
    case JStr(s) => s
    case JOther(id) => w.showOther(id)
  }

  /** One column of `deserialize_model_row`, with the conversion of the address type on insertion;
      `None` where the original raises. */
  function CellOf(w: Spelling, kind: Kind, json: Json): Option<Cell> {
    if json.JNull? then Some(Null)
    else
      match kind
      case TimeColumn => (match w.readTime(StrOf(w, json)) case None => None case Some(t) => Some(Time(t)))
      case IntColumn => (match ReadInt(StrOf(w, json)) case None => None case Some(n) => Some(Int(n)))
      case BoolColumn =>
        if json.JBool? then Some(Bool(json.b))
        else if json == JInt(0) || json == JInt(1) then Some(Bool(json == JInt(1)))
        else None
      case UuidColumn => (match w.readUuid(StrOf(w, json)) case None => None case Some(u) => Some(Uuid(u)))
      case AddressColumn => (match w.readAddress(StrOf(w, json)) case Bad => None case a => Some(Inet(a)))
      case TextColumn => Some(Plain(json))
  }

  /** A boolean column reads booleans and the numbers 0 and 1, and nothing else; a number column reads
      no boolean. */
  lemma BooleansRead(w: Spelling, json: Json)
    requires !json.JNull?
    ensures CellOf(w, BoolColumn, json) == Some(Bool(true)) <==> json == JBool(true) || json == JInt(1)
    ensures CellOf(w, BoolColumn, json) == Some(Bool(false)) <==> json == JBool(false) || json == JInt(0)
    ensures CellOf(w, BoolColumn, json) == None <==> json.JStr? || json.JOther? || (json.JInt? && json.n != 0 && json.n != 1)
    ensures json.JBool? ==> StrOf(w, json) == (if json.b then "True" else "False") && CellOf(w, IntColumn, json) == None
  {
    if json.JBool? {
      assert "True"[0] == 'T' && "False"[0] == 'F';
    }
  }

  predicate Fits(column: ColumnType, cell: Cell) {
    if cell.Null? then column.nullable
    else
      match column.kind
      case TimeColumn => cell.Time?
      case IntColumn => cell.Int?
      case BoolColumn => cell.Bool?
      case UuidColumn => cell.Uuid?
      case AddressColumn => cell.Inet? && !cell.a.Bad?
      case TextColumn => cell.Plain? && cell.json.JStr?
  }

  /** What the database guarantees of a stored row. */
  ghost predicate RowFits(table: Table, row: Row) {
    row.Keys == table.Keys && forall name :: name in table ==> Fits(table[name], row[name])
  }

  function SerializeRow(w: Spelling, row: Row): JsonRow {
    map name | name in row :: JsonOf(w, row[name])
  }

  function RawValue(json: JsonRow, name: ColumnName): Json {
    if name in json then json[name] else JNull
  }

  predicate Deserializes(w: Spelling, table: Table, json: JsonRow) {
    forall name :: name in table ==> CellOf(w, table[name].kind, RawValue(json, name)).Some?
  }

  function DeserializeRow(w: Spelling, table: Table, json: JsonRow): Row
    requires Deserializes(w, table, json)
  {
    map name | name in table :: CellOf(w, table[name].kind, RawValue(json, name)).value
  }

  /** `_validate_backup_row_shape`: no field missing, none unexpected, no required one null. */
  predicate HasShape(table: Table, json: JsonRow) {
    json.Keys == table.Keys && forall name :: name in table && !table[name].nullable ==> !json[name].JNull?
  }

  lemma CellRoundTrip(w: Spelling, column: ColumnType, cell: Cell)
    requires Lawful(w) && Fits(column, cell)
    ensures CellOf(w, column.kind, JsonOf(w, cell)) == Some(cell)
    ensures !column.nullable ==> !JsonOf(w, cell).JNull?
  {
    if cell.Int? {
      ReadShow(cell.n);
    }
  }

  /** A stored row survives export and restore, and its JSON passes the shape checks. */
  lemma RowRoundTrip(w: Spelling, table: Table, row: Row)
    requires Lawful(w) && RowFits(table, row)
    ensures var json := SerializeRow(w, row);
      HasShape(table, json) && Deserializes(w, table, json) && DeserializeRow(w, table, json) == row
  {
    forall name | name in table
      ensures CellOf(w, table[name].kind, JsonOf(w, row[name])) == Some(row[name])
      ensures !table[name].nullable ==> !JsonOf(w, row[name]).JNull?
    {
      CellRoundTrip(w, table[name], row[name]);
    }
  }

  function SerializeRows(w: Spelling, rows: seq<Row>): (json: seq<JsonRow>)
    ensures |json| == |rows|
  {
    if rows == [] then [] else [SerializeRow(w, rows[0])] + SerializeRows(w, rows[1..])
  }

  predicate RowPasses(w: Spelling, table: Table, json: JsonRow) {
    HasShape(table, json) && Deserializes(w, table, json)
  }

  predicate RowsPass(w: Spelling, table: Table, json: seq<JsonRow>) {
    json == [] || (RowPasses(w, table, json[0]) && RowsPass(w, table, json[1..]))
  }

  function DeserializeRows(w: Spelling, table: Table, json: seq<JsonRow>): seq<Row>
    requires RowsPass(w, table, json)
  {
    if json == [] then [] else [DeserializeRow(w, table, json[0])] + DeserializeRows(w, table, json[1..])
  }

  lemma {:induction false} RowsRoundTrip(w: Spelling, table: Table, rows: seq<Row>)
    requires Lawful(w) && forall i :: 0 <= i < |rows| ==> RowFits(table, rows[i])
    ensures RowsPass(w, table, SerializeRows(w, rows)) && DeserializeRows(w, table, SerializeRows(w, rows)) == rows
  {
    if rows != [] {
      RowRoundTrip(w, table, rows[0]);
      RowsRoundTrip(w, table, rows[1..]);
      assert SerializeRows(w, rows)[1..] == SerializeRows(w, rows[1..]);
    }
  }

  ghost predicate DatabaseOk(schema: Schema, db: Database) {
    db.Keys == schema.Keys
    && forall name, i :: name in schema && 0 <= i < |db[name]| ==> RowFits(schema[name], db[name][i])
  }

  function Serialize(w: Spelling, db: Database): Data {
    map name | name in db :: SerializeRows(w, db[name])
  }

  lemma {:induction false} SerializedAt(w: Spelling, rows: seq<Row>, i: nat)
    requires i < |rows|
    ensures SerializeRows(w, rows)[i] == SerializeRow(w, rows[i])
  {
    if i > 0 {
      SerializedAt(w, rows[1..], i - 1);
    }
  }
}
