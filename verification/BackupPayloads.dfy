/**
 Stored firewall backups. An upload stores the envelope it received in a canonical spelling; an
 archive is refused if a stored payload is no valid envelope, and where it is one, its spelling
 is replaced by the canonical one. JSON and the checks inside an envelope are parameters.
 */
module BackupPayloads {
  import opened Options
  import opened ArchiveRows

  /** `load` is `json.loads`, and `dump` is `json.dumps` with sorted keys, narrow separators and
      ASCII only; `fits` are the checks of an envelope against a format and a device. */
  datatype Envelopes = Envelopes(load: string -> Option<int>, dump: int -> string, fits: (string, int, int) -> bool)

  ghost predicate EnvelopeLaws(v: Envelopes) {
    forall e :: v.load(v.dump(e)) == Some(e)
  }

  const ENCRYPTED := "opnsense-config-encrypted-v1"
  const PLAINTEXT := "opnsense-config-plaintext-v1"

  predicate IsFormat(format: string) {
    format == ENCRYPTED || format == PLAINTEXT
  }

  /** `validate_encrypted_device_backup` and `validate_plaintext_device_backup` on stored text. */
  function Canonical(v: Envelopes, format: string, device: int, payload: string): Option<string> {
    match v.load(payload)
    case None => None
    case Some(e) => if v.fits(format, device, e) then Some(v.dump(e)) else None
  }

  /** The canonical spelling is its own canonical spelling. */
  lemma CanonicalTwice(v: Envelopes, format: string, device: int, payload: string)
    requires EnvelopeLaws(v)
    ensures var once := Canonical(v, format, device, payload);
      once.Some? ==> Canonical(v, format, device, once.value) == once
  {
  }

  // ---------- On JSON: the check of an archive's row rewrites it ----------

  function RewriteRow(w: Spelling, v: Envelopes, json: JsonRow): Option<JsonRow> {
    var format, payload := RawValue(json, BackupFormat), RawValue(json, EncryptedPayload);
    match w.readUuid(StrOf(w, RawValue(json, DeviceId)))
    case None => None
    case Some(device) =>
      if !format.JStr? || !IsFormat(format.s) || !payload.JStr? then None
      else
        match Canonical(v, format.s, device, payload.s)
        case None => None
        case Some(canonical) => Some(json[EncryptedPayload := JStr(canonical)])
  }

  function Rewrite(w: Spelling, v: Envelopes, rows: seq<JsonRow>): Option<seq<JsonRow>> {
    if rows == [] then Some([])
    else
      match RewriteRow(w, v, rows[0])
      case None => None
      case Some(row) => match Rewrite(w, v, rows[1..]) case None => None case Some(rest) => Some([row] + rest)
  }

  // ---------- What it means for a database ----------

  /** The canonical spelling of a stored payload, if it is a valid envelope for the row's device. */
  function CanonicalOf(v: Envelopes, row: Row): Option<string> {
    if !(DeviceId in row && row[DeviceId].Uuid? && BackupFormat in row && EncryptedPayload in row) then None
    else if !(row[BackupFormat].Plain? && row[BackupFormat].json.JStr? && IsFormat(row[BackupFormat].json.s)) then None
    else if !(row[EncryptedPayload].Plain? && row[EncryptedPayload].json.JStr?) then None
    else Canonical(v, row[BackupFormat].json.s, row[DeviceId].u, row[EncryptedPayload].json.s)
  }

  predicate AllValid(v: Envelopes, rows: seq<Row>) {
    forall i :: 0 <= i < |rows| ==> CanonicalOf(v, rows[i]).Some?
  }

  /** Every payload is the canonical spelling of a valid envelope for its device. */
  predicate IsCanonical(v: Envelopes, row: Row) {
    CanonicalOf(v, row).Some? && row[EncryptedPayload] == Txt(CanonicalOf(v, row).value)
  }

  predicate AllCanonical(v: Envelopes, rows: seq<Row>) {
    forall i :: 0 <= i < |rows| ==> IsCanonical(v, rows[i])
  }

  function CanonicalRow(v: Envelopes, row: Row): Row {
    match CanonicalOf(v, row) case None => row case Some(canonical) => row[EncryptedPayload := Txt(canonical)]
  }

  function CanonicalRows(v: Envelopes, rows: seq<Row>): (r: seq<Row>)
    ensures |r| == |rows|
  {
    if rows == [] then [] else [CanonicalRow(v, rows[0])] + CanonicalRows(v, rows[1..])
  }

  lemma {:induction false} CanonicalAt(v: Envelopes, rows: seq<Row>, i: nat)
    requires i < |rows|
    ensures CanonicalRows(v, rows)[i] == CanonicalRow(v, rows[i])
  {
    if i > 0 {
      CanonicalAt(v, rows[1..], i - 1);
    }
  }

  /** Valid payloads stay as they are if and only if they are canonical. */
  lemma UnchangedIffCanonical(v: Envelopes, rows: seq<Row>)
    requires AllValid(v, rows)
    ensures CanonicalRows(v, rows) == rows <==> AllCanonical(v, rows)
  {
    var after := CanonicalRows(v, rows);
    forall i | 0 <= i < |rows| ensures after[i] == rows[i] <==> IsCanonical(v, rows[i]) {
      CanonicalAt(v, rows, i);
      if after[i] == rows[i] {
        assert CanonicalRow(v, rows[i])[EncryptedPayload] == Txt(CanonicalOf(v, rows[i]).value);
      }
    }
  }

  /** The columns of a stored backup that the check reads. */
  predicate IsBackupTable(table: Table) {
    && DeviceId in table && table[DeviceId] == ColumnType(UuidColumn, false)
    && BackupFormat in table && table[BackupFormat] == ColumnType(TextColumn, false)
    && EncryptedPayload in table && table[EncryptedPayload] == ColumnType(TextColumn, false)
  }

  /** Rewriting an exported row is canonicalising the stored one. */
  lemma RewriteTranslates(w: Spelling, v: Envelopes, table: Table, row: Row)
    requires Lawful(w) && IsBackupTable(table) && RowFits(table, row)
    ensures RewriteRow(w, v, SerializeRow(w, row)) ==
      if CanonicalOf(v, row).Some? then Some(SerializeRow(w, CanonicalRow(v, row))) else None
  {
    var json := SerializeRow(w, row);
    assert Fits(table[DeviceId], row[DeviceId]) && Fits(table[BackupFormat], row[BackupFormat]) && Fits(table[EncryptedPayload], row[EncryptedPayload]);
    if CanonicalOf(v, row).Some? {
      var canonical := CanonicalOf(v, row).value;
      assert SerializeRow(w, row[EncryptedPayload := Txt(canonical)]) == json[EncryptedPayload := JStr(canonical)];
    }
  }

  lemma {:induction false} RowsTranslate(w: Spelling, v: Envelopes, table: Table, rows: seq<Row>)
    requires Lawful(w) && IsBackupTable(table) && forall i :: 0 <= i < |rows| ==> RowFits(table, rows[i])
    ensures Rewrite(w, v, SerializeRows(w, rows)) ==
      if AllValid(v, rows) then Some(SerializeRows(w, CanonicalRows(v, rows))) else None
  {
    if rows != [] {
      RewriteTranslates(w, v, table, rows[0]);
      RowsTranslate(w, v, table, rows[1..]);
      assert SerializeRows(w, rows)[1..] == SerializeRows(w, rows[1..]);
      assert AllValid(v, rows) <==> CanonicalOf(v, rows[0]).Some? && AllValid(v, rows[1..]) by {
        assert forall i :: 1 <= i < |rows| ==> rows[i] == rows[1..][i-1];
      }
    }
  }

  lemma CanonicalRowFits(v: Envelopes, table: Table, row: Row)
    requires IsBackupTable(table) && RowFits(table, row)
    ensures RowFits(table, CanonicalRow(v, row))
    ensures CanonicalRow(v, row).Keys == row.Keys
    ensures forall name :: name in row && name != EncryptedPayload ==> CanonicalRow(v, row)[name] == row[name]
  {
  }

  // ---------- Rewriting again ----------

  /** The row differs in the payload only. */
  predicate SameButPayload(a: JsonRow, b: JsonRow) {
    b.Keys == a.Keys + {EncryptedPayload} && forall name :: name in a && name != EncryptedPayload ==> b[name] == a[name]
  }

  lemma {:induction false} RewriteAgain(w: Spelling, v: Envelopes, rows: seq<JsonRow>)
    requires EnvelopeLaws(v) && Rewrite(w, v, rows).Some?
    ensures var once := Rewrite(w, v, rows).value;
      && |once| == |rows| && (forall i :: 0 <= i < |rows| ==> SameButPayload(rows[i], once[i]) && RawValue(once[i], EncryptedPayload).JStr?)
      && Rewrite(w, v, once) == Some(once)
  {
    if rows != [] {
      RewriteAgain(w, v, rows[1..]);
      var row, rest := RewriteRow(w, v, rows[0]).value, Rewrite(w, v, rows[1..]).value;
      var once := [row] + rest;
      assert once[1..] == rest;
      RowAgain(w, v, rows[0]);
    }
  }

  lemma RowAgain(w: Spelling, v: Envelopes, json: JsonRow)
    requires EnvelopeLaws(v) && RewriteRow(w, v, json).Some?
    ensures var once := RewriteRow(w, v, json).value;
      SameButPayload(json, once) && RawValue(once, EncryptedPayload).JStr? && RewriteRow(w, v, once) == Some(once)
  {
    var once := RewriteRow(w, v, json).value;
    assert RawValue(once, BackupFormat) == RawValue(json, BackupFormat) && RawValue(once, DeviceId) == RawValue(json, DeviceId);
    assert once[EncryptedPayload := once[EncryptedPayload]] == once;
  }

  /** Rewriting keeps the shape of a row. */
  lemma {:induction false} RewrittenPass(w: Spelling, v: Envelopes, table: Table, json: seq<JsonRow>)
    requires IsBackupTable(table) && Rewrite(w, v, json).Some? && RowsPass(w, table, json)
    ensures RowsPass(w, table, Rewrite(w, v, json).value)
  {
    if json != [] {
      RewrittenPass(w, v, table, json[1..]);
      RewrittenRowPasses(w, v, table, json[0]);
    }
  }

  lemma RewrittenRowPasses(w: Spelling, v: Envelopes, table: Table, json: JsonRow)
    requires IsBackupTable(table) && RewriteRow(w, v, json).Some? && RowPasses(w, table, json)
    ensures RowPasses(w, table, RewriteRow(w, v, json).value)
  {
    var once := RewriteRow(w, v, json).value;
    assert once.Keys == json.Keys;
    forall name | name in table
      ensures CellOf(w, table[name].kind, RawValue(once, name)).Some? && (!table[name].nullable ==> !once[name].JNull?)
    {
      assert name != EncryptedPayload ==> RawValue(once, name) == RawValue(json, name);
    }
  }

  // ---------- How payloads get into the database ----------

  datatype Step =
    | Upload(id: int, device: int, filename: string, format: string, envelope: int, now: int)
    | Remove(i: nat)                    // a stale backup, or one of a deleted device
    | Restore(json: seq<JsonRow>)       // the table of an archive, whoever wrote it

  /** `_store_device_backup_payload` */
  function Uploaded(v: Envelopes, step: Step): Row
    requires step.Upload?
  {
    map[Id := Uuid(step.id), DeviceId := Uuid(step.device), Filename := Txt(step.filename), BackupFormat := Txt(step.format),
        EncryptedPayload := Txt(v.dump(step.envelope)), CreatedAt := Time(step.now)]
  }

  function Next(w: Spelling, v: Envelopes, table: Table, rows: seq<Row>, step: Step): seq<Row> {
    match step
    case Upload(_, device, _, format, envelope, _) =>
      if IsFormat(format) && v.fits(format, device, envelope) then rows + [Uploaded(v, step)] else rows
    case Remove(i) => if i < |rows| then rows[..i] + rows[i+1..] else rows
    case Restore(json) =>
      (match Rewrite(w, v, json)
       case None => rows
       case Some(rewritten) => if RowsPass(w, table, rewritten) then DeserializeRows(w, table, rewritten) else rows)
  }

  function Exec(w: Spelling, v: Envelopes, table: Table, steps: seq<Step>): seq<Row> {
    if steps == [] then [] else Next(w, v, table, Exec(w, v, table, steps[..|steps|-1]), steps[|steps|-1])
  }

  /** A row that was rewritten and then inserted is canonical. */
  lemma RestoredIsCanonical(w: Spelling, v: Envelopes, table: Table, json: JsonRow)
    requires EnvelopeLaws(v) && IsBackupTable(table) && RewriteRow(w, v, json).Some?
    requires RowPasses(w, table, RewriteRow(w, v, json).value)
    ensures IsCanonical(v, DeserializeRow(w, table, RewriteRow(w, v, json).value))
  {
    RowAgain(w, v, json);
    StableIsCanonical(w, v, table, RewriteRow(w, v, json).value);
  }

  /** A row that the check leaves as it is. */
  lemma StableIsCanonical(w: Spelling, v: Envelopes, table: Table, json: JsonRow)
    requires IsBackupTable(table) && RowPasses(w, table, json) && RewriteRow(w, v, json) == Some(json)
    ensures IsCanonical(v, DeserializeRow(w, table, json))
  {
    var row := DeserializeRow(w, table, json);
    assert row[BackupFormat] == Plain(json[BackupFormat]) && row[EncryptedPayload] == Plain(json[EncryptedPayload]);
    assert row[DeviceId] == Uuid(w.readUuid(StrOf(w, json[DeviceId])).value);
    assert json[EncryptedPayload] == json[EncryptedPayload := json[EncryptedPayload]][EncryptedPayload];
  }

  lemma {:induction false} RestoredAreCanonical(w: Spelling, v: Envelopes, table: Table, json: seq<JsonRow>)
    requires EnvelopeLaws(v) && IsBackupTable(table) && Rewrite(w, v, json).Some? && RowsPass(w, table, Rewrite(w, v, json).value)
    ensures AllCanonical(v, DeserializeRows(w, table, Rewrite(w, v, json).value))
  {
    if json != [] {
      var rewritten := Rewrite(w, v, json).value;
      assert rewritten[1..] == Rewrite(w, v, json[1..]).value;
      RestoredAreCanonical(w, v, table, json[1..]);
      RestoredIsCanonical(w, v, table, json[0]);
    }
  }

  /** Whatever was uploaded, removed and restored, and in whatever order: every stored payload is a
      valid envelope for its device, in the canonical spelling. */
  lemma {:induction false} StoredPayloadsAreCanonical(w: Spelling, v: Envelopes, table: Table, steps: seq<Step>)
    requires EnvelopeLaws(v) && IsBackupTable(table)
    ensures AllCanonical(v, Exec(w, v, table, steps))
  {
    if steps != [] {
      StoredPayloadsAreCanonical(w, v, table, steps[..|steps|-1]);
      var rows, step := Exec(w, v, table, steps[..|steps|-1]), steps[|steps|-1];
      match step
      case Upload(_, device, _, format, envelope, _) =>
        if IsFormat(format) && v.fits(format, device, envelope) {
          assert IsCanonical(v, Uploaded(v, step));
        }
      case Remove(i) =>
      case Restore(json) =>
        if Rewrite(w, v, json).Some? && RowsPass(w, table, Rewrite(w, v, json).value) {
          RestoredAreCanonical(w, v, table, json);
        }
    }
  }

  /** An upload is stored if and only if its format is one of the two and its envelope passes the checks
      for its device; what is stored then reads back as the envelope. */
  lemma UploadedExactlyWhen(w: Spelling, v: Envelopes, table: Table, steps: seq<Step>, id: int, device: int, filename: string, format: string, envelope: int, now: int)
    requires EnvelopeLaws(v)
    ensures var rows, after := Exec(w, v, table, steps), Exec(w, v, table, steps + [Upload(id, device, filename, format, envelope, now)]);
      if (format == "opnsense-config-encrypted-v1" || format == "opnsense-config-plaintext-v1") && v.fits(format, device, envelope) then
        && |after| == |rows| + 1 && after[..|rows|] == rows
        && var row := after[|rows|];
        && row.Keys == {Id, DeviceId, Filename, BackupFormat, EncryptedPayload, CreatedAt}
        && row[Id] == Uuid(id) && row[DeviceId] == Uuid(device) && row[Filename] == Txt(filename) && row[BackupFormat] == Txt(format)
        && row[CreatedAt] == Time(now)
        && exists payload :: row[EncryptedPayload] == Txt(payload) && v.load(payload) == Some(envelope)
      else after == rows
  {
    var step := Upload(id, device, filename, format, envelope, now);
    assert (steps + [step])[..|steps|] == steps;
    if IsFormat(format) && v.fits(format, device, envelope) {
      assert v.load(v.dump(envelope)) == Some(envelope);
      assert Uploaded(v, step)[EncryptedPayload] == Txt(v.dump(envelope));
    }
  }

  /** An archive replaces the stored backups if and only if every one of its payloads is a valid envelope
      for its device and its rows have the right shape. */
  lemma RestoredExactlyWhen(w: Spelling, v: Envelopes, table: Table, steps: seq<Step>, json: seq<JsonRow>)
    ensures var after := Exec(w, v, table, steps + [Restore(json)]);
      after == if Rewrite(w, v, json).Some? && RowsPass(w, table, Rewrite(w, v, json).value)
        then DeserializeRows(w, table, Rewrite(w, v, json).value) else Exec(w, v, table, steps)
    ensures Rewrite(w, v, json).Some? <==> forall i :: 0 <= i < |json| ==> IsValid(w, v, json[i])
  {
    assert (steps + [Restore(json)])[..|steps|] == steps;
    RewrittenWhenValid(w, v, json);
  }

  /** The row names a device, a known format, and text that is an envelope for both. */
  predicate IsValid(w: Spelling, v: Envelopes, json: JsonRow) {
    var device, format, payload := w.readUuid(StrOf(w, RawValue(json, DeviceId))), RawValue(json, BackupFormat), RawValue(json, EncryptedPayload);
    && device.Some? && format.JStr? && (format.s == ENCRYPTED || format.s == PLAINTEXT) && payload.JStr?
    && v.load(payload.s).Some? && v.fits(format.s, device.value, v.load(payload.s).value)
  }

  lemma {:induction false} RewrittenWhenValid(w: Spelling, v: Envelopes, json: seq<JsonRow>)
    ensures Rewrite(w, v, json).Some? <==> forall i :: 0 <= i < |json| ==> IsValid(w, v, json[i])
  {
    if json != [] {
      RewrittenWhenValid(w, v, json[1..]);
      assert RewriteRow(w, v, json[0]).Some? <==> IsValid(w, v, json[0]);
      assert forall i :: 1 <= i < |json| ==> json[i] == json[1..][i-1];
    }
  }
}
