/**
 * DatabaseService: the sqlite connection it holds or not, the guards every
 * query passes, and the filter that drops the rows whose key is already
 * stored.  sqlite itself is abstract: opening and closing are given
 * outcomes, and a query is a lookup from (table, column, value) to the
 * first matching record, or the error sqlite reports.
 */
module Database {
  import opened Wrappers
  import opened JsText

  /** An open sqlite3 Database handle. */
  datatype Connection = Connection(handle: nat)

  /** The JavaScript values a row's property can hold. */
  datatype JsValue = Undefined | Null | Text(text: string) | Number(number: int) | Boolean(boolean: bool)

  /** A row object (Record<string, any>): its own properties. */
  type JsObject = map<string, JsValue>

  /** A stored record, as sqlite returns it. */
  type DbRow = map<string, JsValue>

  /** `SELECT * FROM <table> WHERE <column> = ? LIMIT 1` with the given value. */
  type Query = (string, string, string) -> Result<Option<DbRow>, string>

  datatype DbError =
    | EmptyFilePath
    | NotConnected
    | OpenFailed(reason: string)
    | CloseFailed(reason: string)
    | InvalidTableName(tableName: string)
    | NotAllowed(tableName: string, columnName: string)
    | SqliteFailed(reason: string)

  /** data === null || data === undefined */
  predicate Nullish(v: JsValue) { v.Undefined? || v.Null? }

  /** String(value) for the values a row can hold. */
  function JsString(v: JsValue): string
  {
    match v
    case Undefined => "undefined"
    case Null => "null"
    case Text(s) => s
    case Number(n) => if n < 0 then "-" + DecimalString(-n) else DecimalString(n)
    case Boolean(b) => if b then "true" else "false"
  }

  /** String(n) starts with '-' exactly when n is negative. */
  lemma JsStringSign(n: int)
    ensures var s := JsString(Number(n)); |s| > 0 && (s[0] == '-' <==> n < 0)
  {
    var s := JsString(Number(n));
    if n >= 0 {
      assert IsDigit(s[0]);
    }
  }

  /** Distinct numbers give distinct lookup keys. */
  lemma JsStringNumberInjective(m: int, n: int)
    requires JsString(Number(m)) == JsString(Number(n))
    ensures m == n
  {
    var s := JsString(Number(m));
    JsStringSign(m);
    JsStringSign(n);
    if m < 0 {
      assert s[1..] == DecimalString(-m) && s[1..] == DecimalString(-n);
      DecimalStringInjective(-m, -n);
    } else {
      DecimalStringInjective(m, n);
    }
  }

  /** The lookup key does not tell a number from its decimal text: String(5) === String("5"). */
  lemma JsStringOfNumberIsText(n: nat)
    ensures JsString(Number(n)) == JsString(Text(DecimalString(n)))
  {
  }

  /** A letter, digit or underscore. */
  predicate IsWordChar(c: char)
  {
    ('a' <= c <= 'z') || ('A' <= c <= 'Z') || ('0' <= c <= '9') || c == '_'
  }

  /** `tableName && /^[a-zA-Z0-9_]+$/.test(tableName)` */
  predicate ValidTableName(tableName: string)
  {
    tableName != [] && forall i :: 0 <= i < |tableName| ==> IsWordChar(tableName[i])
  }

  /** The one table and column the dedup filter may query. */
  predicate Allowed(tableName: string, columnName: string)
  {
    tableName in ["payment_records"] && columnName in ["fileName"]
  }

  /** The allowed table passes the general table-name check too. */
  lemma AllowedTableIsValid(tableName: string, columnName: string)
    requires Allowed(tableName, columnName)
    ensures ValidTableName(tableName)
  {
    assert tableName == "payment_records";
  }

  /** A row is checked against the table when it has the column with a value that is neither null nor undefined. */
  predicate HasKey(row: JsObject, columnName: string)
  {
    columnName in row && !Nullish(row[columnName])
  }

  /**
   * The loop of filterOutRowsAlreadyInDatabase over rows, as a value: the
   * rows with a key whose lookup finds nothing, in order, or the first error
   * a lookup reports.
   */
  function NewRows(rows: seq<JsObject>, tableName: string, columnName: string, query: Query): Result<seq<JsObject>, DbError>
  {
    if rows == [] then Success([])
    else
      var row := rows[0];
      if !HasKey(row, columnName) then NewRows(rows[1..], tableName, columnName, query)
      else
        match query(tableName, columnName, JsString(row[columnName]))
        case Failure(reason) => Failure(SqliteFailed(reason))
        case Success(found) =>
          match NewRows(rows[1..], tableName, columnName, query)
          case Failure(e) => Failure(e)
          case Success(rest) => Success(if found.None? then [row] + rest else rest)
  }

  /** A row the filter keeps: it has a key, and the table holds no record with it. */
  predicate IsNew(row: JsObject, tableName: string, columnName: string, query: Query)
  {
    HasKey(row, columnName) && query(tableName, columnName, JsString(row[columnName])) == Success(None)
  }

  /** The indices, from i on, of the rows the filter keeps, in increasing order. */
  function KeptIndicesFrom(rows: seq<JsObject>, i: nat, tableName: string, columnName: string, query: Query): (idx: seq<nat>)
    requires i <= |rows|
    ensures forall k :: 0 <= k < |idx| ==> i <= idx[k] < |rows| && IsNew(rows[idx[k]], tableName, columnName, query)
    ensures forall j, k :: 0 <= j < k < |idx| ==> idx[j] < idx[k]
    decreases |rows| - i
  {
    if i == |rows| then []
    else (if IsNew(rows[i], tableName, columnName, query) then [i] else []) + KeptIndicesFrom(rows, i + 1, tableName, columnName, query)
  }

  /** The rows the filter keeps from i on are the rows at exactly those indices. */
  lemma {:induction false} KeptAtIndices(rows: seq<JsObject>, i: nat, tableName: string, columnName: string, query: Query)
    requires i <= |rows| && NewRows(rows[i..], tableName, columnName, query).Success?
    ensures var kept := NewRows(rows[i..], tableName, columnName, query).value;
      var idx := KeptIndicesFrom(rows, i, tableName, columnName, query);
      |kept| == |idx| && forall k :: 0 <= k < |idx| ==> kept[k] == rows[idx[k]]
    decreases |rows| - i
  {
    if i < |rows| {
      FilterStep(rows, i, tableName, columnName, query);
      KeptAtIndices(rows, i + 1, tableName, columnName, query);
    }
  }

  /**
   * The result is a subsequence of the input: its k-th row is the input row
   * at idx[k], for strictly increasing indices idx.
   */
  lemma NewRowsAreSubsequence(rows: seq<JsObject>, tableName: string, columnName: string, query: Query)
    requires NewRows(rows, tableName, columnName, query).Success?
    ensures var kept := NewRows(rows, tableName, columnName, query).value;
      var idx := KeptIndicesFrom(rows, 0, tableName, columnName, query);
      && |kept| == |idx|
      && (forall k :: 0 <= k < |idx| ==> idx[k] < |rows| && kept[k] == rows[idx[k]])
      && (forall j, k :: 0 <= j < k < |idx| ==> idx[j] < idx[k])
  {
    assert rows[0..] == rows;
    KeptAtIndices(rows, 0, tableName, columnName, query);
  }

  /**
   * A row is kept exactly when it is one of the input rows that has a key
   * the table does not hold: rows without the column, with a null or
   * undefined value, or already stored are never kept.
   */
  lemma {:induction false} KeptIffNew(rows: seq<JsObject>, tableName: string, columnName: string, query: Query, row: JsObject)
    requires NewRows(rows, tableName, columnName, query).Success?
    ensures row in NewRows(rows, tableName, columnName, query).value <==> row in rows && IsNew(row, tableName, columnName, query)
  {
    if rows != [] {
      KeptIffNew(rows[1..], tableName, columnName, query, row);
      assert rows == [rows[0]] + rows[1..];
    }
  }

  /** Every row with a key is looked up: the filter succeeds iff no lookup reports an error. */
  lemma {:induction false} FilterSucceedsIffLookupsDo(rows: seq<JsObject>, tableName: string, columnName: string, query: Query)
    ensures NewRows(rows, tableName, columnName, query).Success? <==>
      forall k :: 0 <= k < |rows| && HasKey(rows[k], columnName) ==>
        query(tableName, columnName, JsString(rows[k][columnName])).Success?
  {
    if rows != [] {
      FilterSucceedsIffLookupsDo(rows[1..], tableName, columnName, query);
      assert forall k :: 1 <= k < |rows| ==> rows[k] == rows[1..][k - 1];
    }
  }

  /** How many rows the filter keeps: one per row that is new, counted with repetitions. */
  lemma {:induction false} KeptCount(rows: seq<JsObject>, tableName: string, columnName: string, query: Query)
    requires NewRows(rows, tableName, columnName, query).Success?
    ensures |NewRows(rows, tableName, columnName, query).value| == CountNew(rows, tableName, columnName, query)
  {
    if rows != [] {
      KeptCount(rows[1..], tableName, columnName, query);
    }
  }

  function CountNew(rows: seq<JsObject>, tableName: string, columnName: string, query: Query): nat
  {
    if rows == [] then 0
    else (if IsNew(rows[0], tableName, columnName, query) then 1 else 0) + CountNew(rows[1..], tableName, columnName, query)
  }

  /** Proof helper: the sequence slicing behind one step of the filter loop. */
  lemma FilterStep(rows: seq<JsObject>, i: nat, tableName: string, columnName: string, query: Query)
    requires i < |rows|
    ensures rows[i..][0] == rows[i] && rows[i..][1..] == rows[i + 1..]
  {
  }

  /** What one turn of the filter loop does to the rows kept so far and the rows still to go. */
  lemma FilterLoopStep(rows: seq<JsObject>, i: nat, tableName: string, columnName: string, query: Query, kept: seq<JsObject>)
    requires i < |rows|
    ensures var row := rows[i];
      var now := Prefixed(kept, NewRows(rows[i..], tableName, columnName, query));
      && (!HasKey(row, columnName) ==> now == Prefixed(kept, NewRows(rows[i + 1..], tableName, columnName, query)))
      && (HasKey(row, columnName) ==> match query(tableName, columnName, JsString(row[columnName]))
            case Failure(reason) => now == Failure(SqliteFailed(reason))
            case Success(found) =>
              now == Prefixed(if found.None? then kept + [row] else kept, NewRows(rows[i + 1..], tableName, columnName, query)))
  {
    FilterStep(rows, i, tableName, columnName, query);
    var row := rows[i];
    match NewRows(rows[i + 1..], tableName, columnName, query)
    case Failure(_) =>
    case Success(more) =>
      assert kept + ([row] + more) == kept + [row] + more;
  }

  /** The rows already kept, in front of what the rest of the loop yields. */
  function Prefixed(kept: seq<JsObject>, rest: Result<seq<JsObject>, DbError>): Result<seq<JsObject>, DbError>
  {
    match rest
    case Failure(e) => Failure(e)
    case Success(more) => Success(kept + more)
  }

  class DatabaseService {
    var db: Option<Connection>
    const dbFilePath: string

    constructor(dbFilePath: string)
      requires dbFilePath != []
      ensures this.dbFilePath == dbFilePath && db.None?
    {
      this.dbFilePath := dbFilePath;
      db := None;
    }

    /** new DatabaseService(dbFilePath), which throws on an empty path. */
    static method Create(dbFilePath: string) returns (r: Result<DatabaseService, DbError>)
      ensures r.Failure? <==> dbFilePath == []
      ensures r.Failure? ==> r.error == EmptyFilePath
      ensures r.Success? ==> fresh(r.value) && r.value.dbFilePath == dbFilePath && r.value.db.None?
    {
      if dbFilePath == [] {
        return Failure(EmptyFilePath);
      }
      var service := new DatabaseService(dbFilePath);
      return Success(service);
    }

    /** isConnected: a handle is held. */
    predicate IsConnected()
      reads this
    {
      db.Some?
    }

    /** ensureConnected: throws exactly when there is no connection. */
    function EnsureConnected(): (r: Outcome<DbError>)
      reads this
      ensures r.Fail? <==> !IsConnected()
      ensures r.Fail? ==> r.error == NotConnected
    {
      if db.None? then Fail(NotConnected) else Pass
    }

    /**
     * connect: nothing to do when already connected; otherwise the handle
     * `opening` gives, and no connection when opening fails.
     */
    method Connect(opening: Result<Connection, string>) returns (r: Outcome<DbError>)
      modifies this
      ensures old(db).Some? ==> db == old(db) && r.Pass?
      ensures old(db).None? && opening.Success? ==> db == Some(opening.value) && r.Pass?
      ensures old(db).None? && opening.Failure? ==> db.None? && r == Fail(OpenFailed(opening.error))
    {
      if db.Some? {
        return Pass;
      }
      match opening
      case Success(connection) =>
        db := Some(connection);
        return Pass;
      case Failure(reason) =>
        db := None;
        return Fail(OpenFailed(reason));
    }

    /**
     * disconnected: nothing to do when not connected; otherwise the handle
     * is dropped before closing, so there is no connection afterwards even
     * when closing fails.
     */
    method Disconnected(closed: Outcome<string>) returns (r: Outcome<DbError>)
      modifies this
      ensures db.None?
      ensures old(db).None? ==> r.Pass?
      ensures old(db).Some? ==> (r.Pass? <==> closed.Pass?)
      ensures old(db).Some? && closed.Fail? ==> r == Fail(CloseFailed(closed.error))
    {
      if db.None? {
        return Pass;
      }
      db := None;
      if closed.Fail? {
        return Fail(CloseFailed(closed.error));
      }
      return Pass;
    }

    /** The checks recordExists, deleteAllRowsFromTable, dropTable and getAllTableData make first. */
    function TableGuard(tableName: string): (r: Outcome<DbError>)
      reads this
      ensures r.Pass? <==> IsConnected() && ValidTableName(tableName)
      ensures r == Fail(NotConnected) <==> !IsConnected()
      ensures r == Fail(InvalidTableName(tableName)) <==> IsConnected() && !ValidTableName(tableName)
    {
      if db.None? then Fail(NotConnected)
      else if !ValidTableName(tableName) then Fail(InvalidTableName(tableName))
      else Pass
    }

    /** recordExists: the first record whose column holds data, after the guards. */
    method RecordExists(tableName: string, columnName: string, data: string, query: Query)
      returns (r: Result<Option<DbRow>, DbError>)
      ensures TableGuard(tableName).Fail? ==> r == Failure(TableGuard(tableName).error)
      ensures TableGuard(tableName).Pass? ==> match query(tableName, columnName, data)
        case Success(found) => r == Success(found)
        case Failure(reason) => r == Failure(SqliteFailed(reason))
    {
      var guard := TableGuard(tableName);
      if guard.Fail? {
        return Failure(guard.error);
      }
      var matchResult := query(tableName, columnName, data);
      if matchResult.Failure? {
        return Failure(SqliteFailed(matchResult.error));
      }
      return Success(matchResult.value);
    }

    /** deleteAllRowsFromTable: the guards, then what sqlite reports for `DELETE FROM <table>`. */
    method DeleteAllRowsFromTable(tableName: string, deleted: Result<nat, string>) returns (r: Result<nat, DbError>)
      ensures TableGuard(tableName).Fail? ==> r == Failure(TableGuard(tableName).error)
      ensures TableGuard(tableName).Pass? && deleted.Success? ==> r == Success(deleted.value)
      ensures TableGuard(tableName).Pass? && deleted.Failure? ==> r == Failure(SqliteFailed(deleted.error))
    {
      var guard := TableGuard(tableName);
      if guard.Fail? {
        return Failure(guard.error);
      }
      if deleted.Failure? {
        return Failure(SqliteFailed(deleted.error));
      }
      return Success(deleted.value);
    }

    /** dropTable: the guards, then what sqlite reports for `DROP TABLE <table>`. */
    method DropTable(tableName: string, dropped: Outcome<string>) returns (r: Outcome<DbError>)
      ensures TableGuard(tableName).Fail? ==> r == TableGuard(tableName)
      ensures TableGuard(tableName).Pass? ==> (r.Pass? <==> dropped.Pass?)
      ensures TableGuard(tableName).Pass? && dropped.Fail? ==> r == Fail(SqliteFailed(dropped.error))
    {
      var guard := TableGuard(tableName);
      if guard.Fail? {
        return guard;
      }
      if dropped.Fail? {
        return Fail(SqliteFailed(dropped.error));
      }
      return Pass;
    }

    /** getAllTableData: the guards, then the records sqlite returns for `SELECT * FROM <table>`. */
    method GetAllTableData(tableName: string, selected: Result<seq<DbRow>, string>) returns (r: Result<seq<DbRow>, DbError>)
      ensures TableGuard(tableName).Fail? ==> r == Failure(TableGuard(tableName).error)
      ensures TableGuard(tableName).Pass? && selected.Success? ==> r == Success(selected.value)
      ensures TableGuard(tableName).Pass? && selected.Failure? ==> r == Failure(SqliteFailed(selected.error))
    {
      var guard := TableGuard(tableName);
      if guard.Fail? {
        return Failure(guard.error);
      }
      if selected.Failure? {
        return Failure(SqliteFailed(selected.error));
      }
      return Success(selected.value);
    }

    /**
     * filterOutRowsAlreadyInDatabase: the connection and allowlist checks,
     * the index creation (`indexed` is what sqlite reports for it), then the
     * rows whose key the table does not hold, in order.
     */
    method FilterOutRowsAlreadyInDatabase(arrayOfObjects: seq<JsObject>, tableName: string, columnName: string,
                                          indexed: Outcome<string>, query: Query)
      returns (r: Result<seq<JsObject>, DbError>)
      ensures !IsConnected() ==> r == Failure(NotConnected)
      ensures IsConnected() && !Allowed(tableName, columnName) ==> r == Failure(NotAllowed(tableName, columnName))
      ensures IsConnected() && Allowed(tableName, columnName) && indexed.Fail? ==> r == Failure(SqliteFailed(indexed.error))
      ensures IsConnected() && Allowed(tableName, columnName) && indexed.Pass? ==>
        r == NewRows(arrayOfObjects, tableName, columnName, query)
    {
      var connected := EnsureConnected();
      if connected.Fail? {
        return Failure(connected.error);
      }
      if !(tableName in ["payment_records"] && columnName in ["fileName"]) {
        return Failure(NotAllowed(tableName, columnName));
      }
      if indexed.Fail? {
        return Failure(SqliteFailed(indexed.error));
      }
      AllowedTableIsValid(tableName, columnName);
      var notInTableResult: seq<JsObject> := [];
      assert arrayOfObjects[0..] == arrayOfObjects;
      assert Prefixed([], NewRows(arrayOfObjects, tableName, columnName, query)) == NewRows(arrayOfObjects, tableName, columnName, query) by {
        if NewRows(arrayOfObjects, tableName, columnName, query).Success? {
          assert [] + NewRows(arrayOfObjects, tableName, columnName, query).value == NewRows(arrayOfObjects, tableName, columnName, query).value;
        }
      }
      for i := 0 to |arrayOfObjects|
        invariant NewRows(arrayOfObjects, tableName, columnName, query)
               == Prefixed(notInTableResult, NewRows(arrayOfObjects[i..], tableName, columnName, query))
      {
        FilterLoopStep(arrayOfObjects, i, tableName, columnName, query, notInTableResult);
        var row := arrayOfObjects[i];
        if !(columnName in row) {
          continue;
        }
        var data := row[columnName];
        if data.Null? || data.Undefined? {
          continue;
        }
        var result := RecordExists(tableName, columnName, JsString(data), query);
        if result.Failure? {
          return Failure(result.error);
        }
        if result.value.None? {
          notInTableResult := notInTableResult + [row];
        }
      }
      assert arrayOfObjects[|arrayOfObjects|..] == [];
      assert notInTableResult + [] == notInTableResult;
      return Success(notInTableResult);
    }
  }
}
