/**
 * The request logic of the database explorer (6/db_explorer.go) around its
 * SQL calls: path segmentation and route selection, the SQL-type
 * classification, primary-key lookup, limit/offset defaulting, and the
 * queries that addRow, updateRow, deleteRow and getRow build, with their
 * validation errors. The database, the HTTP writer, JSON decoding and
 * reflection are not modelled: a decoded body is a map to JSON values
 * (None when it did not parse), and each handler yields the query text and
 * arguments it would send, or the HTTP status and message it would answer.
 */
module DbExplorer {
  import opened GoStd

  /** One column from SHOW FULL COLUMNS: Field, Type, Null, Key, Extra. */
  datatype ColumnMeta = ColumnMeta(name: string, sqlType: string, nullable: string, key: string, extra: string)

  type Table = map<string, ColumnMeta>

  /** A value in a decoded JSON body; a number keeps its literal text. */
  datatype JsonValue = JNull | JString(s: string) | JNumber(literal: string) | JBool(b: bool) | JArray | JObject

  /** An argument passed to the database next to a `?` placeholder. */
  datatype SqlArg = FromBody(v: JsonValue) | Text(s: string) | Zero | NilArg

  datatype Query = Query(text: string, args: seq<SqlArg>)

  /** What a handler answers: a query to run, or an HTTP status with a message. */
  datatype Reply<T> = Ok(value: T) | Fail(status: int, message: string)

  const StatusBadRequest: int := 400
  const StatusNotFound: int := 404
  const StatusInternalServerError: int := 500

  // ---------------------------------------------------------------------
  // filterEmpty

  /** The strings of `arr` that are not empty, in their order. */
  function NonEmpty(arr: seq<string>): seq<string>
  {
    if |arr| == 0 then []
    else NonEmpty(arr[..|arr| - 1]) + (if arr[|arr| - 1] == "" then [] else [arr[|arr| - 1]])
  }

  /** filterEmpty: copy every non-empty string, in order. */
  method FilterEmpty(arr: seq<string>) returns (r: seq<string>)
    ensures r == NonEmpty(arr)
  {
    r := [];
    for i := 0 to |arr|
      invariant r == NonEmpty(arr[..i])
    {
      assert arr[..i + 1][..i] == arr[..i];
      if arr[i] == "" {
        continue;
      }
      r := r + [arr[i]];
    }
    assert arr[..|arr|] == arr;
  }

  /** NonEmpty distributes over concatenation: the order of what is kept is the input's. */
  lemma {:induction false} NonEmptyAppend(a: seq<string>, b: seq<string>)
    ensures NonEmpty(a + b) == NonEmpty(a) + NonEmpty(b)
    decreases |b|
  {
    if |b| == 0 {
      assert a + b == a;
    } else {
      var b' := b[..|b| - 1];
      NonEmptyAppend(a, b');
      assert (a + b)[..|a + b| - 1] == a + b';
    }
  }

  /** The result holds no empty string, and every other string exactly as often as the input. */
  lemma {:induction false} NonEmptyContents(arr: seq<string>)
    ensures "" !in NonEmpty(arr)
    ensures forall x :: x != "" ==> multiset(NonEmpty(arr))[x] == multiset(arr)[x]
  {
    if |arr| > 0 {
      var front := arr[..|arr| - 1];
      NonEmptyContents(front);
      assert arr == front + [arr[|arr| - 1]];
    }
  }

  /** Filtering twice is filtering once. */
  lemma {:induction false} NonEmptyIdempotent(arr: seq<string>)
    ensures NonEmpty(NonEmpty(arr)) == NonEmpty(arr)
  {
    if |arr| > 0 {
      var front := arr[..|arr| - 1];
      NonEmptyIdempotent(front);
      var last := if arr[|arr| - 1] == "" then [] else [arr[|arr| - 1]];
      NonEmptyAppend(NonEmpty(front), last);
      if last != [] {
        assert NonEmpty(last) == NonEmpty([]) + last by {
          assert last[..0] == [];
        }
      }
    }
  }

  // ---------------------------------------------------------------------
  // Routing in rootHandler

  datatype Route =
    | TableList
    | TableRows(table: string)
    | InsertRow(table: string)
    | ReadRow(table: string, id: string)
    | ChangeRow(table: string, id: string)
    | RemoveRow(table: string, id: string)
    | NoRoute

  /** The segments rootHandler works on: spaces removed, split on "/", empties dropped. */
  function PathSegments(urlPath: string): (segments: seq<string>)
    ensures "" !in segments
  {
    NonEmptyContents(Split(RemoveAll(urlPath, ' '), '/'));
    NonEmpty(Split(RemoveAll(urlPath, ' '), '/'))
  }

  /** The handler rootHandler selects by segment count and HTTP verb. */
  function SelectRoute(segments: seq<string>, httpMethod: string): (r: Route)
    ensures r == TableList <==> |segments| == 0 && httpMethod == "GET"
    ensures r.TableRows? <==> |segments| == 1 && httpMethod == "GET"
    ensures r.InsertRow? <==> |segments| == 1 && httpMethod == "PUT"
    ensures r.ReadRow? <==> |segments| == 2 && httpMethod == "GET"
    ensures r.ChangeRow? <==> |segments| == 2 && httpMethod == "POST"
    ensures r.RemoveRow? <==> |segments| == 2 && httpMethod == "DELETE"
    ensures !r.TableList? && !r.NoRoute? ==> r.table == segments[0]
    ensures r.ReadRow? || r.ChangeRow? || r.RemoveRow? ==> r.id == segments[1]
  {
    if |segments| == 0 && httpMethod == "GET" then TableList
    else if |segments| == 1 then
      if httpMethod == "GET" then TableRows(segments[0])
      else if httpMethod == "PUT" then InsertRow(segments[0])
      else NoRoute
    else if |segments| == 2 then
      if httpMethod == "GET" then ReadRow(segments[0], segments[1])
      else if httpMethod == "POST" then ChangeRow(segments[0], segments[1])
      else if httpMethod == "DELETE" then RemoveRow(segments[0], segments[1])
      else NoRoute
    else NoRoute
  }

  /** rootHandler's choice for a request. */
  function Dispatch(urlPath: string, httpMethod: string): Route
  {
    SelectRoute(PathSegments(urlPath), httpMethod)
  }

  /** No handler runs for three or more segments, or for a verb the segment count does not take. */
  lemma NoRouteCases(segments: seq<string>, httpMethod: string)
    ensures SelectRoute(segments, httpMethod) == NoRoute <==>
              || |segments| > 2
              || (|segments| == 0 && httpMethod != "GET")
              || (|segments| == 1 && httpMethod != "GET" && httpMethod != "PUT")
              || (|segments| == 2 && httpMethod != "GET" && httpMethod != "POST" && httpMethod != "DELETE")
  {
  }

  /** A trailing "/" adds only an empty segment, which is dropped. */
  lemma TrailingSlashIgnored(urlPath: string)
    ensures PathSegments(urlPath + "/") == PathSegments(urlPath)
  {
    var s := RemoveAll(urlPath, ' ');
    assert RemoveAll(urlPath + "/", ' ') == s + "/" by {
      RemoveAllAppend(urlPath, "/", ' ');
      RemoveAllAbsent("/", ' ');
    }
    SplitTrailingSeparator(s, '/');
    NonEmptyAppend(Split(s, '/'), [""]);
    assert NonEmpty([""]) == [] by {
      assert [""][..0] == [];
    }
  }

  /** Empty segments do not count: "/items//" routes like "/items". */
  lemma EmptySegmentsIgnored(urlPath: string, httpMethod: string)
    ensures Dispatch(urlPath + "//", httpMethod) == Dispatch(urlPath, httpMethod)
  {
    TrailingSlashIgnored(urlPath);
    TrailingSlashIgnored(urlPath + "/");
    assert urlPath + "//" == (urlPath + "/") + "/";
  }

  /** A trailing separator adds one empty piece. */
  lemma {:induction false} SplitTrailingSeparator(s: string, sep: char)
    ensures Split(s + [sep], sep) == Split(s, sep) + [""]
    decreases |s|
  {
    var t := s + [sep];
    if |s| == 0 {
      assert t == [sep] && t[1..] == "";
    } else {
      assert t[0] == s[0] && t[1..] == s[1..] + [sep];
      SplitTrailingSeparator(s[1..], sep);
      if s[0] != sep {
        var rest := Split(s[1..], sep);
        assert (rest + [""])[1..] == rest[1..] + [""];
      }
    }
  }

  // ---------------------------------------------------------------------
  // Type classification

  /** The reflect kind name of a decoded JSON value. */
  function Kind(v: JsonValue): string
  {
    match v
    case JNull => "invalid"
    case JString(_) => "string"
    case JNumber(_) => "float64"
    case JBool(_) => "bool"
    case JArray => "slice"
    case JObject => "map"
  }

  /** validateType: may a value of this kind be stored in a column of this SQL type? */
  function ValidateType(kind: string, sqlType: string): (ok: bool)
    ensures kind == "string" ==> (ok <==> Contains(sqlType, "varchar") || Contains(sqlType, "text"))
    ensures kind == "float64" ==> (ok <==> Contains(sqlType, "int"))
    ensures kind != "string" && kind != "float64" ==> !ok
  {
    match kind
    case "string" =>
      if Contains(sqlType, "varchar") then true
      else if Contains(sqlType, "text") then true
      else false
    case "float64" =>
      if Contains(sqlType, "int") then true else false
    case _ => false
  }

  /** sqlToGoType: text types before integer types, else "nil". */
  function SqlToGoType(sqlType: string): (t: string)
    ensures t in {"string", "float64", "nil"}
    ensures t == "string" <==> Contains(sqlType, "varchar") || Contains(sqlType, "text")
    ensures t == "float64" <==> !Contains(sqlType, "varchar") && !Contains(sqlType, "text") && Contains(sqlType, "int")
  {
    if Contains(sqlType, "varchar") then "string"
    else if Contains(sqlType, "text") then "string"
    else if Contains(sqlType, "int") then "float64"
    else "nil"
  }

  /**
   * The two classifications agree on strings; an integer column accepts
   * numbers under both, but validateType also accepts a number for a text
   * column whose type name contains "int".
   */
  lemma ValidateTypeMatchesSqlToGoType(sqlType: string)
    ensures ValidateType("string", sqlType) <==> SqlToGoType(sqlType) == "string"
    ensures SqlToGoType(sqlType) == "float64" ==> ValidateType("float64", sqlType)
    ensures ValidateType("float64", sqlType) && SqlToGoType(sqlType) != "float64" ==> SqlToGoType(sqlType) == "string"
  {
  }

  // ---------------------------------------------------------------------
  // findPrimaryKey

  /** Columns as getColumns builds them: keyed by their non-empty name. */
  ghost predicate WellFormed(table: Table)
  {
    forall k :: k in table ==> table[k].name == k && k != ""
  }

  /** What findPrimaryKey may answer: "" without a PRI column, else the name of some PRI column. */
  ghost predicate PrimaryKeyName(table: Table, pk: string)
  {
    && ((forall k :: k in table ==> table[k].key != "PRI") ==> pk == "")
    && ((exists k :: k in table && table[k].key == "PRI") ==>
          exists k :: k in table && table[k].key == "PRI" && pk == table[k].name)
  }

  /** findPrimaryKey: the name of a PRI column met while ranging over the map, or "". */
  method FindPrimaryKey(table: Table) returns (pk: string)
    ensures (forall k :: k in table ==> table[k].key != "PRI") ==> pk == ""
    ensures (exists k :: k in table && table[k].key == "PRI") ==>
              exists k :: k in table && table[k].key == "PRI" && pk == table[k].name
    ensures WellFormed(table) ==> (pk == "" <==> forall k :: k in table ==> table[k].key != "PRI")
  {
    var pending := table.Keys;
    while pending != {}
      invariant pending <= table.Keys
      invariant forall k :: k in table && k !in pending ==> table[k].key != "PRI"
      decreases pending
    {
      var k :| k in pending;
      if table[k].key == "PRI" {
        return table[k].name;
      }
      pending := pending - {k};
    }
    return "";
  }

  // ---------------------------------------------------------------------
  // getTable

  /** limit/offset: kept when it parses as an int, otherwise the default. */
  function IntOrDefault(raw: string, default: string): string
  {
    if raw == "" || Atoi(raw).None? then default else raw
  }

  lemma IntOrDefaultSpec(raw: string, default: string)
    requires Atoi(default).Some?
    ensures Atoi(IntOrDefault(raw, default)).Some?
    ensures Atoi(raw).Some? ==> IntOrDefault(raw, default) == raw
    ensures Atoi(raw).None? ==> IntOrDefault(raw, default) == default
    ensures IntOrDefault(IntOrDefault(raw, default), default) == IntOrDefault(raw, default)
  {
  }

  /** The defaults getTable falls back to parse as ints. */
  lemma DefaultsParse()
    ensures Atoi("5") == Some(5) && Atoi("0") == Some(0)
  {
    assert DigitsValue("5") == 5 && DigitsValue("0") == 0;
  }

  /** getTable: the paged SELECT, or 404 for a table that does not exist. */
  function GetTable(tables: map<string, Table>, tableName: string, query: map<string, seq<string>>): (r: Reply<Query>)
    ensures r.Fail? <==> tableName !in tables
    ensures r.Fail? ==> r.status == StatusNotFound && r.message == "unknown table"
    ensures r.Ok? ==> r.value.text == "SELECT * FROM " + tableName + " LIMIT ? OFFSET ?"
    ensures r.Ok? ==>
              r.value.args == [Text(IntOrDefault(FirstOrEmpty(query, "limit"), "5")),
                               Text(IntOrDefault(FirstOrEmpty(query, "offset"), "0"))]
  {
    var limit := IntOrDefault(FirstOrEmpty(query, "limit"), "5");
    var offset := IntOrDefault(FirstOrEmpty(query, "offset"), "0");
    assert offset != "" by {
      DefaultsParse();
      IntOrDefaultSpec(FirstOrEmpty(query, "offset"), "0");
    }
    var text := "SELECT * FROM " + tableName + " " + "LIMIT ? ";
    assert text + "OFFSET ?" == "SELECT * FROM " + tableName + " LIMIT ? OFFSET ?";
    var args := [Text(limit)];
    var q := if offset != "" then Query(text + "OFFSET ?", args + [Text(offset)]) else Query(text, args);
    if tableName !in tables then Fail(StatusNotFound, "unknown table")
    else Ok(q)
  }

  /** Both placeholders of the SELECT get ints: the query's limit and offset when they parse, else 5 and 0. */
  lemma GetTablePaging(tables: map<string, Table>, tableName: string, query: map<string, seq<string>>)
    requires tableName in tables
    ensures var args := GetTable(tables, tableName, query).value.args;
            && |args| == 2 && args[0].Text? && args[1].Text?
            && Atoi(args[0].s).Some? && Atoi(args[1].s).Some?
            && (Atoi(FirstOrEmpty(query, "limit")).Some? ==> args[0] == Text(FirstOrEmpty(query, "limit")))
            && (Atoi(FirstOrEmpty(query, "limit")).None? ==> args[0] == Text("5"))
            && (Atoi(FirstOrEmpty(query, "offset")).Some? ==> args[1] == Text(FirstOrEmpty(query, "offset")))
            && (Atoi(FirstOrEmpty(query, "offset")).None? ==> args[1] == Text("0"))
  {
    DefaultsParse();
    IntOrDefaultSpec(FirstOrEmpty(query, "limit"), "5");
    IntOrDefaultSpec(FirstOrEmpty(query, "offset"), "0");
  }

  // ---------------------------------------------------------------------
  // addRow

  /** addRow inserts a column unless it auto-increments or is nullable and absent from the body. */
  predicate Inserted(col: ColumnMeta, key: string, body: map<string, JsonValue>)
  {
    (key in body || col.nullable != "YES")
    && !Contains(col.extra, "auto_increment")
  }

  /** The value addRow sends for a column: the body's, or a zero value by sqlToGoType. */
  function InsertValue(col: ColumnMeta, key: string, body: map<string, JsonValue>): SqlArg
  {
    if key in body then FromBody(body[key])
    else
      var t := SqlToGoType(col.sqlType);
      if t == "string" then Text("") else if t == "float64" then Zero else NilArg
  }

  /** The body of addRow's column loop: the value for the column, or None where it is skipped. */
  method ColumnValue(structure: ColumnMeta, key: string, fields: map<string, JsonValue>) returns (value: Option<SqlArg>)
    ensures value.Some? <==> Inserted(structure, key, fields)
    ensures value.Some? ==> value.value == InsertValue(structure, key, fields)
  {
    var v: SqlArg;
    if key in fields {
      v := FromBody(fields[key]);
    } else {
      if structure.nullable == "YES" {
        return None;
      }
      var t := SqlToGoType(structure.sqlType);
      if t == "string" {
        v := Text("");
      } else if t == "float64" {
        v := Zero;
      } else {
        v := NilArg;
      }
    }
    if Contains(structure.extra, "auto_increment") {
      return None;
    }
    return Some(v);
  }

  /** The INSERT, and the key under which addRow reports the new row's id. */
  datatype Insert = Insert(columns: seq<string>, query: Query, idColumn: string)

  /** addRow: the INSERT for the body, or the error it answers with first. */
  method AddRow(tables: map<string, Table>, tableName: string, body: Option<map<string, JsonValue>>)
    returns (r: Reply<Insert>)
    ensures body.None? ==> r == Fail(StatusBadRequest, "Unabled to parse body json")
    ensures body.Some? && tableName !in tables ==> r == Fail(StatusInternalServerError, "failed to get table data")
    ensures body.Some? && tableName in tables ==> r.Ok?
    ensures r.Ok? ==> body.Some? && tableName in tables
    ensures r.Ok? ==>
              var table, cols, q := tables[tableName], r.value.columns, r.value.query;
              && (forall k :: k in cols <==> k in table && Inserted(table[k], k, body.value))
              && (forall i, j :: 0 <= i < j < |cols| ==> cols[i] != cols[j])
              && |q.args| == |cols|
              && (forall i :: 0 <= i < |cols| ==> q.args[i] == InsertValue(table[cols[i]], cols[i], body.value))
              && q.text == "INSERT INTO " + tableName + " (" + Join(cols, ", ") + ") VALUES (" +
                           Join(seq(|cols|, _ => "?"), ", ") + ")"
              && PrimaryKeyName(table, r.value.idColumn)
  {
    if body.None? {
      return Fail(StatusBadRequest, "Unabled to parse body json");
    }
    if tableName !in tables {
      return Fail(StatusInternalServerError, "failed to get table data");
    }
    var table := tables[tableName];
    var fields := body.value;
    var cols: seq<string> := [];
    var placeholders: seq<string> := [];
    var values: seq<SqlArg> := [];
    var pending := table.Keys;
    while pending != {}
      invariant pending <= table.Keys
      invariant forall k :: k in cols <==> k in table && k !in pending && Inserted(table[k], k, fields)
      invariant forall i, j :: 0 <= i < j < |cols| ==> cols[i] != cols[j]
      invariant |placeholders| == |cols| == |values|
      invariant forall i :: 0 <= i < |cols| ==> placeholders[i] == "?"
      invariant forall i :: 0 <= i < |cols| ==> cols[i] in table && values[i] == InsertValue(table[cols[i]], cols[i], fields)
      decreases pending
    {
      var key :| key in pending;
      pending := pending - {key};
      var value := ColumnValue(table[key], key, fields);
      if value.None? {
        continue;
      }
      cols := cols + [key];
      placeholders := placeholders + ["?"];
      values := values + [value.value];
    }
    assert placeholders == seq(|cols|, _ => "?");
    var text := "INSERT INTO " + tableName + " (" + Join(cols, ", ") + ") VALUES (" + Join(placeholders, ", ") + ")";
    var pk := FindPrimaryKey(table);
    r := Ok(Insert(cols, Query(text, values), pk));
  }

  // ---------------------------------------------------------------------
  // updateRow

  /** updateRow accepts a body field: an existing, non-PRI column whose value fits it. */
  predicate Updatable(table: Table, key: string, v: JsonValue)
  {
    && key in table
    && table[key].key != "PRI"
    && (v == JNull ==> table[key].nullable != "NO")
    && (v != JNull ==> ValidateType(Kind(v), table[key].sqlType))
  }

  /** The message updateRow answers for a field it rejects. */
  function RejectMessage(table: Table, key: string): string
  {
    if key !in table then "Updating non existing column"
    else "field " + key + " have invalid type"
  }

  /** The UPDATE, and the primary-key column its WHERE clause names. */
  datatype Update = Update(columns: seq<string>, query: Query, keyColumn: string)

  /** updateRow: the UPDATE for the body, or the 400 of the first rejected field it meets. */
  method UpdateRow(tables: map<string, Table>, tableName: string, rowId: string, body: Option<map<string, JsonValue>>)
    returns (r: Reply<Update>)
    ensures body.None? ==> r == Fail(StatusBadRequest, "Unabled to parse body json")
    ensures body.Some? && tableName !in tables ==> r == Fail(StatusBadRequest, "Wrong table requested")
    ensures body.Some? && tableName in tables ==>
              (r.Ok? <==> forall k :: k in body.value ==> Updatable(tables[tableName], k, body.value[k]))
    ensures body.Some? && tableName in tables && r.Fail? ==>
              r.status == StatusBadRequest &&
              exists k :: k in body.value && !Updatable(tables[tableName], k, body.value[k]) &&
                          r.message == RejectMessage(tables[tableName], k)
    ensures r.Ok? ==>
              var fields, cols, q := body.value, r.value.columns, r.value.query;
              && (forall k :: k in cols <==> k in fields)
              && (forall i, j :: 0 <= i < j < |cols| ==> cols[i] != cols[j])
              && |q.args| == |cols| + 1 && q.args[|cols|] == Text(rowId)
              && (forall i :: 0 <= i < |cols| ==> q.args[i] == FromBody(fields[cols[i]]))
              && PrimaryKeyName(tables[tableName], r.value.keyColumn)
              && q.text == "UPDATE " + tableName + " SET " +
                           Join(seq(|cols|, i requires 0 <= i < |cols| => cols[i] + " = ? "), ", ") +
                           "WHERE " + r.value.keyColumn + " = ?"
  {
    if body.None? {
      return Fail(StatusBadRequest, "Unabled to parse body json");
    }
    if tableName !in tables {
      return Fail(StatusBadRequest, "Wrong table requested");
    }
    var table := tables[tableName];
    var fields := body.value;
    var cols: seq<string> := [];
    var keys: seq<string> := [];
    var values: seq<SqlArg> := [];
    var pending := fields.Keys;
    while pending != {}
      invariant pending <= fields.Keys
      invariant forall k :: k in fields && k !in pending ==> Updatable(table, k, fields[k])
      invariant forall k :: k in cols <==> k in fields && k !in pending
      invariant forall i, j :: 0 <= i < j < |cols| ==> cols[i] != cols[j]
      invariant |keys| == |cols| == |values|
      invariant forall i :: 0 <= i < |cols| ==> keys[i] == cols[i] + " = ? " && values[i] == FromBody(fields[cols[i]])
      decreases pending
    {
      var key :| key in pending;
      var val := fields[key];
      if key !in table {
        return Fail(StatusBadRequest, "Updating non existing column");
      }
      var colMeta := table[key];
      if colMeta.key == "PRI" {
        return Fail(StatusBadRequest, "field " + key + " have invalid type");
      }
      cols := cols + [key];
      keys := keys + [key + " = ? "];
      values := values + [FromBody(val)];
      if val == JNull {
        if colMeta.nullable == "NO" {
          return Fail(StatusBadRequest, "field " + key + " have invalid type");
        }
      } else {
        var isValid := ValidateType(Kind(val), colMeta.sqlType);
        if !isValid {
          return Fail(StatusBadRequest, "field " + key + " have invalid type");
        }
      }
      pending := pending - {key};
    }
    var pk := FindPrimaryKey(table);
    assert keys == seq(|cols|, i requires 0 <= i < |cols| => cols[i] + " = ? ");
    var text := "UPDATE " + tableName + " SET " + Join(keys, ", ") + "WHERE " + pk + " = ?";
    r := Ok(Update(cols, Query(text, values + [Text(rowId)]), pk));
  }

  // ---------------------------------------------------------------------
  // deleteRow and getRow

  /** deleteRow: the DELETE by primary key, or 400 for a missing table or a table without one. */
  method DeleteRow(tables: map<string, Table>, tableName: string, rowId: string) returns (r: Reply<Query>)
    ensures tableName !in tables ==> r == Fail(StatusBadRequest, "Table does not exist")
    ensures tableName in tables && WellFormed(tables[tableName]) ==>
              (r == Fail(StatusBadRequest, "Table does not have a primary key") <==>
               forall k :: k in tables[tableName] ==> tables[tableName][k].key != "PRI")
    ensures r.Ok? ==>
              && tableName in tables && r.value.args == [Text(rowId)]
              && exists k :: k in tables[tableName] && tables[tableName][k].key == "PRI" &&
                   r.value.text == "DELETE FROM " + tableName + " WHERE " + tables[tableName][k].name + " = ?"
    ensures (&& tableName in tables && WellFormed(tables[tableName])
             && exists k :: k in tables[tableName] && tables[tableName][k].key == "PRI") ==> r.Ok?
  {
    if tableName !in tables {
      return Fail(StatusBadRequest, "Table does not exist");
    }
    var primKey := FindPrimaryKey(tables[tableName]);
    if primKey == "" {
      return Fail(StatusBadRequest, "Table does not have a primary key");
    }
    r := Ok(Query("DELETE FROM " + tableName + " WHERE " + primKey + " = ?", [Text(rowId)]));
  }

  /** getRow: the SELECT by primary key; an unknown table gives an empty key name. */
  method GetRow(tables: map<string, Table>, tableName: string, rowId: string) returns (q: Query)
    ensures q.args == [Text(rowId)]
    ensures tableName !in tables ==> q.text == "SELECT * FROM " + tableName + " WHERE  = ?"
    ensures tableName in tables && (forall k :: k in tables[tableName] ==> tables[tableName][k].key != "PRI") ==>
              q.text == "SELECT * FROM " + tableName + " WHERE  = ?"
    ensures tableName in tables && (exists k :: k in tables[tableName] && tables[tableName][k].key == "PRI") ==>
              exists k :: k in tables[tableName] && tables[tableName][k].key == "PRI" &&
                          q.text == "SELECT * FROM " + tableName + " WHERE " + tables[tableName][k].name + " = ?"
  {
    var table: Table := if tableName in tables then tables[tableName] else map[];
    var primaryKey := FindPrimaryKey(table);
    q := Query("SELECT * FROM " + tableName + " WHERE " + primaryKey + " = ?", [Text(rowId)]);
  }
}
