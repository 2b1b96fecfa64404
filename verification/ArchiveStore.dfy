/** The archive's loops: over members, table counts, stored backups, and the rows of every table. */
module ArchiveStore {
  import opened Options
  import opened ArchiveRows
  import opened Archive
  import opened BackupPayloads

  function SetOf(names: seq<TableName>): set<TableName> {
    if names == [] then {} else SetOf(names[..|names|-1]) + {names[|names|-1]}
  }

  /** The tables in the order in which the code walks them. */
  predicate Lists(names: seq<TableName>, schema: Schema) {
    SetOf(names) == schema.Keys
  }

  lemma SetOfNext(names: seq<TableName>, n: nat)
    requires n < |names|
    ensures SetOf(names[..n+1]) == SetOf(names[..n]) + {names[n]}
  {
    assert names[..n+1][..n] == names[..n];
  }

  lemma {:induction false} SetOfPrefix(names: seq<TableName>, n: nat)
    requires n <= |names|
    ensures SetOf(names[..n]) <= SetOf(names)
    ensures n < |names| ==> names[n] in SetOf(names)
    decreases |names| - n
  {
    if n < |names| {
      SetOfNext(names, n);
      SetOfPrefix(names, n + 1);
    } else {
      assert names[..n] == names;
    }
  }

  lemma {:induction false} ErrorStays(limits: Limits, members: seq<Member>, n: nat)
    requires n <= |members| && CheckSizes(limits, members[..n]).Some?
    ensures CheckSizes(limits, members) == CheckSizes(limits, members[..n])
  {
    if n < |members| {
      assert members[..|members|-1][..n] == members[..n];
      ErrorStays(limits, members[..|members|-1], n);
    } else {
      assert members[..n] == members;
    }
  }

  method CheckMemberSizes(limits: Limits, members: seq<Member>) returns (error: Option<Error>)
    ensures error == CheckSizes(limits, members)
  {
    var total := 0;
    for i := 0 to |members|
      invariant total == Total(members[..i]) && CheckSizes(limits, members[..i]).None?
    {
      assert members[..i+1][..i] == members[..i];
      var size := |members[i].content|;
      if size > limits.fileBytes {
        ErrorStays(limits, members, i + 1);
        return Some(MemberTooLarge);
      }
      total := total + size;
      if total > limits.totalBytes {
        ErrorStays(limits, members, i + 1);
        return Some(TotalTooLarge);
      }
    }
    assert members[..|members|] == members;
    return None;
  }

  method ValidateArchiveMembers(limits: Limits, members: seq<Member>) returns (error: Option<Error>)
    ensures error == CheckMembers(limits, members)
  {
    if |members| > limits.entries {
      return Some(TooManyMembers);
    }
    if !HasName(members, ManifestJson) || !HasName(members, DataJson) {
      return Some(MissingMembers);
    }
    if exists i :: 0 <= i < |members| && members[i].name.OtherName? {
      return Some(UnexpectedMembers);
    }
    error := CheckMemberSizes(limits, members);
  }

  method ValidateManifest(schema: Schema, names: seq<TableName>, manifest: Manifest, data: Data) returns (ok: bool)
    requires Lists(names, schema) && data.Keys == schema.Keys
    ensures ok <==> CountsMatch(schema, manifest, data)
  {
    if manifest.counts.Keys != schema.Keys {
      return false;
    }
    for i := 0 to |names|
      invariant forall name :: name in SetOf(names[..i]) ==> name in schema && manifest.counts[name] == |data[name]|
    {
      SetOfPrefix(names, i);
      SetOfNext(names, i);
      if manifest.counts[names[i]] != |data[names[i]]| {
        return false;
      }
    }
    assert names[..|names|] == names;
    return true;
  }

  method SerializeTable(w: Spelling, rows: seq<Row>) returns (json: seq<JsonRow>)
    ensures json == SerializeRows(w, rows)
  {
    json := [];
    for r := 0 to |rows|
      invariant json + SerializeRows(w, rows[r..]) == SerializeRows(w, rows)
    {
      assert rows[r..][1..] == rows[r+1..];
      json := json + [SerializeRow(w, rows[r])];
    }
    assert json + [] == json;
  }

  lemma {:induction false} RewriteRefuses(w: Spelling, v: Envelopes, rows: seq<JsonRow>, r: nat)
    requires r < |rows| && RewriteRow(w, v, rows[r]).None?
    ensures Rewrite(w, v, rows).None?
  {
    if r > 0 {
      RewriteRefuses(w, v, rows[1..], r - 1);
    }
  }

  lemma {:induction false} RewriteNext(w: Spelling, v: Envelopes, rows: seq<JsonRow>)
    requires rows != [] && Rewrite(w, v, rows[..|rows|-1]).Some? && RewriteRow(w, v, rows[|rows|-1]).Some?
    ensures Rewrite(w, v, rows) == Some(Rewrite(w, v, rows[..|rows|-1]).value + [RewriteRow(w, v, rows[|rows|-1]).value])
  {
    var last := RewriteRow(w, v, rows[|rows|-1]).value;
    if |rows| == 1 {
      assert rows[..|rows|-1] == [] && Rewrite(w, v, rows[1..]) == Some([]);
      assert [last] + [] == [] + [last];
    } else {
      var rest, front := rows[1..], rows[..|rows|-1];
      assert rest[..|rest|-1] == front[1..] && rest[|rest|-1] == rows[|rows|-1] && front[0] == rows[0];
      RewriteNext(w, v, rest);
      var first, mid := RewriteRow(w, v, rows[0]).value, Rewrite(w, v, front[1..]).value;
      assert [first] + (mid + [last]) == [first] + mid + [last];
    }
  }

  /** The loop over the stored backups, which replaces each payload as it goes. */
  method RewriteBackups(w: Spelling, v: Envelopes, rows: seq<JsonRow>) returns (r: Option<seq<JsonRow>>)
    ensures r == Rewrite(w, v, rows)
  {
    var done := [];
    for i := 0 to |rows|
      invariant Rewrite(w, v, rows[..i]) == Some(done)
    {
      var row := RewriteRow(w, v, rows[i]);
      if row.None? {
        RewriteRefuses(w, v, rows, i);
        return None;
      }
      assert rows[..i+1][..i] == rows[..i];
      RewriteNext(w, v, rows[..i+1]);
      done := done + [row.value];
    }
    assert rows[..|rows|] == rows;
    return Some(done);
  }

  /** The named tables of the archive can be inserted. */
  predicate Insertable(w: Spelling, schema: Schema, data: Data, names: seq<TableName>) {
    names == []
    || (var name := names[|names|-1];
        Insertable(w, schema, data, names[..|names|-1]) && name in schema && name in data && RowsPass(w, schema[name], data[name]))
  }

  /** What inserting them one after another leaves. */
  function Inserted(w: Spelling, schema: Schema, data: Data, names: seq<TableName>): Database
    requires Insertable(w, schema, data, names)
  {
    if names == [] then map[]
    else
      var name := names[|names|-1];
      Inserted(w, schema, data, names[..|names|-1])[name := DeserializeRows(w, schema[name], data[name])]
  }

  lemma {:induction false} InsertablePrefix(w: Spelling, schema: Schema, data: Data, names: seq<TableName>, n: nat)
    requires n <= |names| && Insertable(w, schema, data, names)
    ensures Insertable(w, schema, data, names[..n])
  {
    if n < |names| {
      assert names[..|names|-1][..n] == names[..n];
      InsertablePrefix(w, schema, data, names[..|names|-1], n);
    } else {
      assert names[..n] == names;
    }
  }

  lemma {:induction false} InsertedIs(w: Spelling, schema: Schema, data: Data, names: seq<TableName>)
    requires data.Keys == schema.Keys && DataPasses(w, schema, data) && SetOf(names) <= schema.Keys
    ensures Insertable(w, schema, data, names)
    ensures Inserted(w, schema, data, names).Keys == SetOf(names)
    ensures forall name :: name in SetOf(names) ==> Inserted(w, schema, data, names)[name] == Restored(w, schema, data)[name]
  {
    if names != [] {
      InsertedIs(w, schema, data, names[..|names|-1]);
    }
  }

  /** Every table is there once all names are walked. */
  lemma AllInserted(w: Spelling, schema: Schema, data: Data, names: seq<TableName>)
    requires data.Keys == schema.Keys && DataPasses(w, schema, data) && SetOf(names) == schema.Keys
    ensures Insertable(w, schema, data, names) && Inserted(w, schema, data, names) == Restored(w, schema, data)
  {
    InsertedIs(w, schema, data, names);
  }

  lemma RowsNext(w: Spelling, table: Table, json: seq<JsonRow>, r: nat)
    requires r < |json| && RowsPass(w, table, json[r..])
    ensures RowPasses(w, table, json[r]) && RowsPass(w, table, json[r+1..])
    ensures DeserializeRows(w, table, json[r..]) == [DeserializeRow(w, table, json[r])] + DeserializeRows(w, table, json[r+1..])
  {
    assert json[r..][0] == json[r] && json[r..][1..] == json[r+1..];
  }

  /** One more row inserted, and one fewer to come. */
  lemma OneRowMore(w: Spelling, table: Table, json: seq<JsonRow>, r: nat, done: seq<Row>, all: seq<Row>)
    requires r < |json| && RowsPass(w, table, json[r..]) && done + DeserializeRows(w, table, json[r..]) == all
    ensures RowPasses(w, table, json[r]) && RowsPass(w, table, json[r+1..])
    ensures done + [DeserializeRow(w, table, json[r])] + DeserializeRows(w, table, json[r+1..]) == all
  {
    RowsNext(w, table, json, r);
    var row, rest := DeserializeRow(w, table, json[r]), DeserializeRows(w, table, json[r+1..]);
    assert done + [row] + rest == done + ([row] + rest);
  }

  lemma SetTwice(tables: Database, name: TableName, a: seq<Row>, b: seq<Row>)
    ensures tables[name := a][name := b] == tables[name := b]
  {
  }

  class Store {
    var tables: Database

    constructor (tables: Database)
      ensures this.tables == tables
    {
      this.tables := tables;
    }

    /** The rows of every table, as export writes them. */
    method ExportRows(w: Spelling, schema: Schema, names: seq<TableName>) returns (data: Data)
      requires Lists(names, schema) && tables.Keys == schema.Keys
      ensures data == Serialize(w, tables)
    {
      data := map[];
      for i := 0 to |names|
        invariant data.Keys == SetOf(names[..i])
        invariant forall name :: name in data ==> name in tables && data[name] == SerializeRows(w, tables[name])
      {
        SetOfPrefix(names, i);
        SetOfNext(names, i);
        var json := SerializeTable(w, tables[names[i]]);
        data := data[names[i] := json];
      }
      assert names[..|names|] == names;
    }

    method InsertRows(w: Spelling, table: Table, name: TableName, json: seq<JsonRow>)
      requires RowsPass(w, table, json)
      modifies this
      ensures tables == old(tables)[name := DeserializeRows(w, table, json)]
    {
      tables := tables[name := []];
      ghost var done := [];
      for r := 0 to |json|
        invariant RowsPass(w, table, json[r..]) && done + DeserializeRows(w, table, json[r..]) == DeserializeRows(w, table, json)
        invariant tables == old(tables)[name := done]
      {
        OneRowMore(w, table, json, r, done, DeserializeRows(w, table, json));
        var row := DeserializeRow(w, table, json[r]);
        SetTwice(old(tables), name, done, done + [row]);
        tables := tables[name := tables[name] + [row]];
        done := done + [row];
      }
      assert done + [] == done;
    }

    method InsertTables(w: Spelling, schema: Schema, names: seq<TableName>, data: Data)
      requires Insertable(w, schema, data, names) && tables == map[]
      modifies this
      ensures tables == Inserted(w, schema, data, names)
    {
      for i := 0 to |names|
        invariant Insertable(w, schema, data, names[..i]) && tables == Inserted(w, schema, data, names[..i])
      {
        InsertablePrefix(w, schema, data, names, i + 1);
        assert names[..i+1][..i] == names[..i];
        InsertRows(w, schema[names[i]], names[i], data[names[i]]);
      }
      assert names[..|names|] == names;
    }

    /** `restore_backup_bundle`: validate, empty every table, then insert the archive's rows in table
        order; a refused archive changes nothing. */
    method Restore(k: Codec, schema: Schema, names: seq<TableName>, data: Data, files: Files) returns (error: Option<Error>)
      requires SchemaOk(k, schema) && Lists(names, schema)
      modifies this
      ensures match RestoreBundle(k, schema, Parsed(data, files))
        case Ok(db) => error.None? && tables == db
        case Err(refusal) => error == Some(refusal) && tables == old(tables)
    {
      match Validate(k, schema, data, files)
      case Err(refusal) => return Some(refusal);
      case Ok(checked) =>
        ValidatedPasses(k, schema, data, files);
        AllInserted(k.spelling, schema, checked, names);
        tables := map[];
        InsertTables(k.spelling, schema, names, checked);
        return None;
    }
  }
}
