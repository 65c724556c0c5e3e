/**
  `TableDataViewModel`: the table screen. It loads a table through the data-access
  service, loads the table's primary-key columns, shows the details of the selected row,
  and, under EF, tracks the selected row in a row-tracking session that the demo commands
  change and revert. Awaited calls are taken to complete before the next user action.
*/
module TableDataViewModel {
  import opened Wrappers
  import opened Text
  import opened Failures
  import opened Values
  import opened Connection
  import opened CaseInsensitive
  import opened EfDatabaseAdmin
  import opened EfRowTracking
  import opened DataAccessModeState
  import opened DataAccessRouter

  const MaxRowsMessage: string := "Max rows must be greater than 0."
  const LoadingText: string := "Loading..."
  const NoPrimaryKeyText: string := "Kein Primary Key gefunden. EF-Tracking-Demo ist für diese Tabelle deaktiviert."
  const CompositeKeyText: string := "Composite Primary Key erkannt. EF-Tracking-Demo wird später bewusst separat behandelt."
  const SingleKeyText: string := "Primary Key erkannt. EF-Tracking-Demo ist für diese Tabelle möglich."
  const StatePrefix: string := "EF Tracking State: "
  const ModifiedOpen: string := " (Modified: "
  const DemoText: string := "DemoValue"
  const DemoSuffix: string := "_demo"
  const NullText: string := "NULL"
  const PrimaryKeyMarker: string := " [PK]"
  /** The message of the exception `DateTime.AddSeconds` throws past `DateTime.MaxValue`. */
  const DateArithmetic: string := "The added or subtracted value results in an un-representable DateTime."

  // ---------------------------------------------------------------------------------------
  // Primary-key availability

  /** The availability message for a table with `count` primary-key columns. */
  function AvailabilityText(count: nat): string {
    if count == 0 then NoPrimaryKeyText
    else if count > 1 then CompositeKeyText
    else SingleKeyText
  }

  /** The key columns and the two properties derived from them. */
  datatype KeyInfo = KeyInfo(columns: CiSet, hasPrimaryKey: bool, availabilityText: string)

  /** The state `LoadPrimaryKeyColumnsAsync` starts from, and stays in when a name is blank. */
  const NoKeys: KeyInfo := KeyInfo(EmptySet, false, "")

  /** The state after the key columns `names` were added one by one. */
  function LoadedKeys(names: seq<string>): KeyInfo {
    var keys := SetOf(names);
    KeyInfo(keys, keys.Count() > 0, AvailabilityText(keys.Count()))
  }

  /** A table has a primary key exactly when the query listed a column; the message says
      "single key" exactly when every listed column names the same column up to case. */
  lemma {:induction false} KeyClassification(names: seq<string>)
    ensures LoadedKeys(names).hasPrimaryKey <==> |names| > 0
    ensures LoadedKeys(names).availabilityText == NoPrimaryKeyText <==> |names| == 0
    ensures LoadedKeys(names).availabilityText == SingleKeyText <==>
              |names| > 0 && forall i | 0 <= i < |names| :: EqualsIgnoreCase(names[i], names[0])
    ensures LoadedKeys(names).availabilityText == CompositeKeyText <==>
              exists i | 0 <= i < |names| :: !EqualsIgnoreCase(names[i], names[0])
  {
    var keys := SetOf(names);
    SetOfShape(names);
    if |names| > 0 {
      SetOfContains(names, names[0]);
    }
    if keys.Count() == 1 {
      forall i | 0 <= i < |names| ensures EqualsIgnoreCase(names[i], names[0]) {
        SetOfContains(names, names[i]);
        SetOfContains(names, names[0]);
      }
    }
    if |names| > 0 && forall i | 0 <= i < |names| :: EqualsIgnoreCase(names[i], names[0]) {
      forall k | 0 <= k < keys.Count() ensures EqualsIgnoreCase(keys.items[k], names[0]) {
        var i :| 0 <= i < |names| && names[i] == keys.items[k];
      }
      AtMostOneSpelling(keys.items, names[0]);
    }
  }

  /** Of two or more strings that are distinct ignoring case, one does not match `x`. */
  lemma AtMostOneSpelling(items: seq<string>, x: string)
    requires Distinct(items)
    ensures |items| > 1 ==> exists k | 0 <= k < |items| :: !EqualsIgnoreCase(items[k], x)
  {
    if |items| > 1 {
      assert !EqualsIgnoreCase(items[0], items[1]);
      if EqualsIgnoreCase(items[0], x) {
        assert !EqualsIgnoreCase(items[1], x);
      }
    }
  }

  // ---------------------------------------------------------------------------------------
  // Row details

  /** `RowDetailItem`. */
  datatype RowDetailItem = RowDetailItem(columnName: string, displayValue: Option<string>, isPrimaryKey: bool)

  /** `rawValue == DBNull.Value ? "NULL" : rawValue?.ToString()`; `dateText` is the current
      culture's rendering of a `DateTime`. */
  function DisplayValue(v: Value, dateText: Ticks -> string): Option<string> {
    match v
    case Null => None
    case DbNull => Some(NullText)
    case Int32Value(i) => Some(IntToDecimal(i))
    case Int64Value(l) => Some(IntToDecimal(l))
    case StringValue(s) => Some(s)
    case DateTimeValue(t) => Some(dateText(t))
    case OtherValue(_, repr) => Some(repr)
  }

  /** The item shown for one column of the selected row. */
  function DetailFor(column: DataColumn, value: Value, keys: CiSet, dateText: Ticks -> string): RowDetailItem {
    var isKey := keys.Contains(column.name);
    RowDetailItem(if isKey then column.name + PrimaryKeyMarker else column.name, DisplayValue(value, dateText), isKey)
  }

  /** The details of a row whose columns hold `values`. */
  function RowDetails(columns: seq<DataColumn>, values: seq<Value>, keys: CiSet, dateText: Ticks -> string)
    : seq<RowDetailItem>
    requires |columns| == |values|
  {
    seq(|columns|, k requires 0 <= k < |columns| => DetailFor(columns[k], values[k], keys, dateText))
  }

  /** One item per column, in column order: the column's name, marked " [PK]" and flagged
      exactly when the key set holds the name in any casing, and its value as text, "NULL"
      for a database null. */
  lemma RowDetailsShape(columns: seq<DataColumn>, values: seq<Value>, keys: CiSet, dateText: Ticks -> string, k: nat)
    requires |columns| == |values| && k < |columns|
    ensures var r := RowDetails(columns, values, keys, dateText);
      && |r| == |columns|
      && (r[k].isPrimaryKey <==> exists j | 0 <= j < |keys.items| :: EqualsIgnoreCase(keys.items[j], columns[k].name))
      && r[k].columnName == (if r[k].isPrimaryKey then columns[k].name + " [PK]" else columns[k].name)
      && (values[k] == DbNull ==> r[k].displayValue == Some("NULL"))
      && (values[k] == Null <==> r[k].displayValue.None?)
  {
  }

  // ---------------------------------------------------------------------------------------
  // The tracking demo

  /** The first of `names` that differs from `pk` ignoring case; with no key every name
      differs. */
  function FirstOther(names: seq<string>, pk: Option<string>): (r: Option<nat>)
    ensures r.Some? ==> r.value < |names| && (pk.None? || !EqualsIgnoreCase(names[r.value], pk.value))
    ensures r.Some? ==> forall j | 0 <= j < r.value :: pk.Some? && EqualsIgnoreCase(names[j], pk.value)
    ensures r.None? ==> forall j | 0 <= j < |names| :: pk.Some? && EqualsIgnoreCase(names[j], pk.value)
  {
    if |names| == 0 then None
    else if pk.None? || !EqualsIgnoreCase(names[0], pk.value) then Some(0)
    else match FirstOther(names[1..], pk)
      case Some(i) => Some(i + 1)
      case None => None
  }

  /** `GetDemoColumnName`: the first column that is not the single key column, else that
      key column, else "". */
  function DemoColumnName(row: DataRowView?, keys: CiSet): string {
    if row == null then ""
    else
      var pk := if keys.Count() == 1 then Some(keys.items[0]) else None;
      var names := ColumnNames(row.columns);
      match FirstOther(names, pk)
      case Some(i) => names[i]
      case None => pk.GetOr("")
  }

  /** No row gives ""; a column other than the single key column is preferred, the first
      one in column order; without one the key column itself is chosen, and with no single
      key every column qualifies, so the first column is chosen. */
  lemma DemoColumnChoice(row: DataRowView?, keys: CiSet)
    ensures row == null ==> DemoColumnName(row, keys) == ""
    ensures row != null && keys.Count() != 1 && |row.columns| > 0 ==>
              DemoColumnName(row, keys) == row.columns[0].name
    ensures row != null && keys.Count() != 1 && |row.columns| == 0 ==> DemoColumnName(row, keys) == ""
    ensures row != null && keys.Count() == 1 ==>
              var r := DemoColumnName(row, keys);
              if exists i | 0 <= i < |row.columns| :: !EqualsIgnoreCase(row.columns[i].name, keys.items[0]) then
                exists i | 0 <= i < |row.columns| ::
                  && r == row.columns[i].name && !EqualsIgnoreCase(r, keys.items[0])
                  && forall j | 0 <= j < i :: EqualsIgnoreCase(row.columns[j].name, keys.items[0])
              else r == keys.items[0]
  {
    if row != null && keys.Count() == 1 {
      var names := ColumnNames(row.columns);
      var f := FirstOther(names, Some(keys.items[0]));
      if f.Some? {
        assert DemoColumnName(row, keys) == row.columns[f.value].name;
      }
    }
  }

  /** The column `SimulateChange` writes and the value it writes there: the demo column, and
      the demo value for what the row holds in it (`null` when the row lacks the column). */
  function DemoEdit(row: DataRowView, keys: CiSet): (string, Result<Value, Failure>)
    requires row.Valid()
  {
    var column := DemoColumnName(row, keys);
    (column, BuildDemoValue(if row.HasColumn(column) then row.Get(column) else Null))
  }

  /** On a row whose every column is the single key column, the demo writes the key, and
      that write fails on the session tracking the row whatever value is written: the
      demo cannot change a key-only table. */
  lemma KeyOnlyDemoWriteFails(row: DataRowView, keys: CiSet, e: Entry, value: Value)
    requires row.Valid() && keys.Count() == 1 && e.key == keys.items[0]
    requires forall i | 0 <= i < |row.columns| :: EqualsIgnoreCase(row.columns[i].name, keys.items[0])
    ensures DemoEdit(row, keys).0 == e.key
    ensures SetValueSpec(e, DemoEdit(row, keys).0, value).0.Fail?
  {
    DemoColumnChoice(row, keys);
  }

  /** `int + 1` and `long + 1` in C#'s default unchecked context. */
  function IncrementInt32(i: Int32): (r: Int32)
    ensures (r - i - 1) % 0x1_0000_0000 == 0
  {
    if i == 0x7FFF_FFFF then -0x8000_0000 else i + 1
  }

  function IncrementInt64(l: Int64): (r: Int64)
    ensures (r - l - 1) % 0x1_0000_0000_0000_0000 == 0
  {
    if l == 0x7FFF_FFFF_FFFF_FFFF then -0x8000_0000_0000_0000 else l + 1
  }

  /** `BuildDemoValue`: the value the demo writes in place of `current`. `DateTime.AddSeconds`
      throws past the largest representable time. */
  function BuildDemoValue(current: Value): Result<Value, Failure> {
    match current
    case Null => Success(StringValue(DemoText))
    case DbNull => Success(StringValue(DemoText))
    case Int32Value(i) => Success(Int32Value(IncrementInt32(i)))
    case Int64Value(l) => Success(Int64Value(IncrementInt64(l)))
    case StringValue(s) => Success(StringValue(s + DemoSuffix))
    case DateTimeValue(t) =>
      if t + TicksPerSecond <= MaxTicks then Success(DateTimeValue(t + TicksPerSecond))
      else Failure(ArgumentOutOfRangeException("value", DateArithmetic))
    case OtherValue(_, _) => Success(StringValue(DemoText))
  }

  /** The demo value always differs from the value it replaces, keeps an integer, string or
      date its own type, and fails only for a date within a second of the maximum. */
  lemma DemoValueChanges(current: Value)
    ensures BuildDemoValue(current).Success? ==> BuildDemoValue(current).value != current
    ensures BuildDemoValue(current).Failure? <==> current.DateTimeValue? && current.ticks + 10_000_000 > MaxTicks
    ensures current.Int32Value? ==> BuildDemoValue(current).value.Int32Value?
    ensures current.Int64Value? ==> BuildDemoValue(current).value.Int64Value?
    ensures current.StringValue? ==> BuildDemoValue(current) == Success(StringValue(current.s + "_demo"))
    ensures current.DateTimeValue? && BuildDemoValue(current).Success? ==>
              BuildDemoValue(current).value.ticks == current.ticks + 10_000_000
    ensures current.Null? || current.DbNull? || current.OtherValue? ==>
              BuildDemoValue(current) == Success(StringValue("DemoValue"))
  {
    if current.StringValue? {
      assert |current.s + DemoSuffix| > |current.s|;
    }
  }

  /** The largest `int` and `long` wrap around to the smallest. */
  lemma DemoValueWrapsAround()
    ensures BuildDemoValue(Int32Value(2147483647)) == Success(Int32Value(-2147483648))
    ensures BuildDemoValue(Int64Value(9223372036854775807)) == Success(Int64Value(-9223372036854775808))
  {
  }

  /** `BuildTrackingStateText`. */
  function BuildTrackingStateText(snapshot: Snapshot): string {
    if |snapshot.modifiedColumns| == 0 then StatePrefix + snapshot.state
    else StatePrefix + snapshot.state + ModifiedOpen + Join(", ", snapshot.modifiedColumns) + ")"
  }

  /** For the entry of a session, the text reads "EF Tracking State: Unchanged" exactly when
      nothing is modified, and otherwise "EF Tracking State: Modified (Modified: ...)" with
      the modified properties in property order. */
  lemma StateTextOfEntry(e: Entry)
    requires WellFormed(e)
    ensures e.modified == {} ==> BuildTrackingStateText(SnapshotOf(e)) == StatePrefix + Unchanged.Name()
    ensures e.modified != {} ==>
              BuildTrackingStateText(SnapshotOf(e)) ==
                StatePrefix + Modified.Name() + ModifiedOpen + Join(", ", ModifiedInOrder(e.properties, e.modified)) + ")"
  {
    SnapshotListsModified(e);
  }

  /** Whether a session may start for `row`, and with which key column and value: only for
      a row, under the EF provider, with exactly one key column, which the row has and does
      not hold a database null in. */
  function TrackingKey(row: DataRowView?, providerName: string, hasPrimaryKey: bool, keys: CiSet)
    : Option<(string, Value)>
    requires row != null ==> row.Valid()
  {
    if row == null || !EqualsIgnoreCase(providerName, EfProviderName) || !hasPrimaryKey || keys.Count() != 1 then None
    else if !row.HasColumn(keys.items[0]) then None
    else if row.Get(keys.items[0]) == DbNull then None
    else Some((keys.items[0], row.Get(keys.items[0])))
  }

  /** With the keys as loading left them, a session starts exactly when the router is in
      EF mode, the screen announces a single key, and the selected row has that column
      with a value that is not a database null. */
  lemma TrackingNeedsEfAndSingleKey(router: DataAccessRouterService, row: DataRowView?, names: seq<string>)
    requires router.Valid() && (row != null ==> row.Valid())
    ensures var info := LoadedKeys(names);
      var key := TrackingKey(row, router.ProviderName(), info.hasPrimaryKey, info.columns);
      && (key.Some? <==>
            && row != null && router.modeService.currentMode == Ef
            && info.availabilityText == SingleKeyText
            && row.HasColumn(info.columns.items[0]) && row.Get(info.columns.items[0]) != DbNull)
      && (key.Some? ==> key.value == (info.columns.items[0], row.Get(info.columns.items[0])))
  {
    ProviderNameFollowsMode(router);
  }

  /** What the screen reports when starting a session did not succeed. */
  function StartFailure(o: StartOutcome): Failure
    requires !o.Loaded?
  {
    match o
    case Rejected(e) => e
    case ConversionFailed(_, e) => e
    case NotFound(_, _) => InvalidOperationException(RowNotLoaded)
  }

  // ---------------------------------------------------------------------------------------
  // The screen

  /** The screen's bindable state, field by field. */
  datatype ViewState = ViewState(
    connectionString: string,
    databaseName: string,
    tableName: string,
    maxRows: Int32,
    tableData: Option<DataTable>,
    headerStatusText: string,
    isLoading: bool,
    errorText: Option<string>,
    selectedRow: DataRowView?,
    rowDetails: seq<RowDetailItem>,
    keys: KeyInfo,
    efTrackingStateText: string,
    trackingSession: EfRowTrackingSession?)

  /** `ResetTracking` on the screen's state: no session, no state text, and the header shows
      the key availability under EF and nothing otherwise. */
  function ResetSpec(s: ViewState, isEf: bool): ViewState {
    s.(trackingSession := null, efTrackingStateText := "",
       headerStatusText := if isEf then s.keys.availabilityText else "")
  }

  /** Resetting twice is resetting once. */
  lemma ResetIdempotent(s: ViewState, isEf: bool)
    ensures ResetSpec(ResetSpec(s, isEf), isEf) == ResetSpec(s, isEf)
    ensures ResetSpec(s, isEf).trackingSession == null && ResetSpec(s, isEf).efTrackingStateText == ""
  {
  }

  /** `SelectedRow = null` followed by `UpdateRowDetails(null)`: clearing a selected row
      runs the change hook, which restarts (and so resets) tracking. */
  function ClearSelectionSpec(s: ViewState, isEf: bool): ViewState {
    if s.selectedRow == null then s.(rowDetails := [])
    else ResetSpec(s.(selectedRow := null, rowDetails := []), isEf)
  }

  /** The `catch` block of `LoadAsync`. */
  function CatchSpec(s: ViewState, error: Failure, isEf: bool): ViewState {
    ResetSpec(ClearSelectionSpec(s.(tableData := None), isEf).(errorText := Some(error.Message())), isEf)
  }

  /** `LoadPrimaryKeyColumnsAsync` for the given inputs and query result: what it returns or
      throws, and the key state it leaves. */
  function KeysAfter(connectionString: string, databaseName: string, tableName: string,
                     result: Result<DataAccessResult<seq<string>>, Failure>): (Outcome<Failure>, KeyInfo)
  {
    if IsBlank(connectionString) || IsBlank(databaseName) || IsBlank(tableName) then (Pass, NoKeys)
    else match result
      case Failure(e) => (Fail(e), NoKeys)
      case Success(r) => (Pass, LoadedKeys(r.data))
  }

  /** The fetching part of the `try` block of `LoadAsync`, from the call to
      `GetTableDataAsync` to the final header text, given what the two queries return. */
  function FetchSpec(s: ViewState, isEf: bool, table: Result<DataAccessResult<DataTable>, Failure>,
                     keys: Result<DataAccessResult<seq<string>>, Failure>): (Outcome<Failure>, ViewState)
  {
    if table.Failure? then (Fail(table.error), s)
    else ShowTableSpec(s, isEf, table.value.data, keys)
  }

  /** The `try` block of `LoadAsync` once the table has arrived. */
  function ShowTableSpec(s: ViewState, isEf: bool, data: DataTable,
                         keys: Result<DataAccessResult<seq<string>>, Failure>): (Outcome<Failure>, ViewState)
  {
    var fetched := ClearSelectionSpec(s.(tableData := Some(data)), isEf);
    var loaded := KeysAfter(s.connectionString, s.databaseName, s.tableName, keys);
    var withKeys := fetched.(keys := loaded.1);
    if loaded.0.Fail? then (loaded.0, withKeys)
    // `UpdateRowDetails(SelectedRow)` with the selection already cleared
    else (Pass, withKeys.(rowDetails := [], headerStatusText := if isEf then loaded.1.availabilityText else ""))
  }

  /** `LoadAsync`, given what the two queries return. */
  function LoadSpec(s: ViewState, isEf: bool, table: Result<DataAccessResult<DataTable>, Failure>,
                    keys: Result<DataAccessResult<seq<string>>, Failure>): ViewState
  {
    if s.isLoading then s
    else if s.maxRows <= 0 then ClearSelectionSpec(s.(tableData := None), isEf).(errorText := Some(MaxRowsMessage))
    else FinishSpec(FetchSpec(StartSpec(s, isEf), isEf, table, keys), isEf)
  }

  /** `LoadAsync` with a positive row limit, up to the call to `GetTableDataAsync`. */
  function StartSpec(s: ViewState, isEf: bool): ViewState {
    ClearSelectionSpec(ResetSpec(s, isEf).(isLoading := true, headerStatusText := LoadingText, errorText := None), isEf)
  }

  /** The `catch` block, when the fetch threw, and then the `finally` block. */
  function FinishSpec(fetched: (Outcome<Failure>, ViewState), isEf: bool): ViewState {
    var finished := if fetched.0.Fail? then CatchSpec(fetched.1, fetched.0.error, isEf) else fetched.1;
    finished.(isLoading := false)
  }

  /** A load leaves the inputs alone. A load while one is running does nothing else; any
      other load ends with no load running, no selected row, no details and no session. A
      non-positive row limit clears the table and reports the limit. Otherwise the table is
      shown exactly when both queries succeeded (the key query is skipped when an input is
      blank); a failure of either is reported by its message, a failed table query leaves
      the keys as they were, and the header ends on the key availability under EF and empty
      otherwise. */
  lemma LoadOutcomes(s: ViewState, isEf: bool, table: Result<DataAccessResult<DataTable>, Failure>,
                     keys: Result<DataAccessResult<seq<string>>, Failure>)
    requires s.trackingSession != null ==> s.selectedRow != null
    ensures var r := LoadSpec(s, isEf, table, keys);
      && r.connectionString == s.connectionString && r.databaseName == s.databaseName
      && r.tableName == s.tableName && r.maxRows == s.maxRows
      && (s.isLoading ==> r == s)
      && (!s.isLoading ==> !r.isLoading && r.selectedRow == null && r.rowDetails == []
                           && r.trackingSession == null && (s.maxRows > 0 ==> r.efTrackingStateText == ""))
      && (!s.isLoading && s.maxRows <= 0 ==> r.tableData == None && r.errorText == Some(MaxRowsMessage)
                                             && r.keys == s.keys)
  {
    if !s.isLoading && s.maxRows > 0 {
      var started := StartSpec(s, isEf);
      assert started.selectedRow == null && started.rowDetails == [] && started.trackingSession == null;
      var fetched := FetchSpec(started, isEf, table, keys);
      assert fetched.1.selectedRow == null && fetched.1.trackingSession == null && fetched.1.efTrackingStateText == "";
    }
  }

  lemma LoadOutcomesWithLimit(s: ViewState, isEf: bool, table: Result<DataAccessResult<DataTable>, Failure>,
                              keys: Result<DataAccessResult<seq<string>>, Failure>)
    requires !s.isLoading && s.maxRows > 0
    ensures var r := LoadSpec(s, isEf, table, keys);
      var blank := IsBlank(s.connectionString) || IsBlank(s.databaseName) || IsBlank(s.tableName);
      && r.headerStatusText == (if isEf then r.keys.availabilityText else "")
      && (r.tableData.Some? <==> table.Success? && (blank || keys.Success?))
      && (table.Failure? ==> r.errorText == Some(table.error.Message()) && r.keys == s.keys)
      && (table.Success? && !blank && keys.Failure? ==> r.errorText == Some(keys.error.Message()) && r.keys == NoKeys)
      && (table.Success? && blank ==> r.tableData == Some(table.value.data) && r.errorText == None && r.keys == NoKeys)
      && (table.Success? && !blank && keys.Success? ==>
            r.tableData == Some(table.value.data) && r.errorText == None && r.keys == LoadedKeys(keys.value.data))
  {
    var started := StartSpec(s, isEf);
    assert started.keys == s.keys && started.connectionString == s.connectionString
      && started.databaseName == s.databaseName && started.tableName == s.tableName;
  }

  /** What `EfDatabaseAdminService` reads from outside the program: the connection-string
      parser, `Convert.ChangeType`, and the rows `FindAsync` can find in each table. */
  datatype EfEnvironment = EfEnvironment(
    parse: string -> ConnectionSettings,
    convert: (Value, ClrType) -> Result<Value, Failure>,
    find: (string, string) -> map<Value, map<string, Value>>)

  class TableDataViewModel {
    const dataAccess: DataAccessRouterService
    const ef: EfEnvironment
    const dateText: Ticks -> string

    var connectionString: string
    var databaseName: string
    var tableName: string
    var maxRows: Int32
    var tableData: Option<DataTable>
    var headerStatusText: string
    var isLoading: bool
    var errorText: Option<string>
    var selectedRow: DataRowView?
    var rowDetails: seq<RowDetailItem>
    var primaryKeyColumns: CiSet
    var hasPrimaryKey: bool
    var trackingAvailabilityText: string
    var efTrackingStateText: string
    var trackingSession: EfRowTrackingSession?

    function Keys(): KeyInfo
      reads this
    {
      KeyInfo(primaryKeyColumns, hasPrimaryKey, trackingAvailabilityText)
    }

    function Model(): ViewState
      reads this
    {
      ViewState(connectionString, databaseName, tableName, maxRows, tableData, headerStatusText, isLoading,
                errorText, selectedRow, rowDetails, Keys(), efTrackingStateText, trackingSession)
    }

    /** `ProviderName.Equals("EF", StringComparison.OrdinalIgnoreCase)` as of now. */
    predicate IsEf()
      reads dataAccess.modeService
    {
      EqualsIgnoreCase(dataAccess.ProviderName(), EfProviderName)
    }

    /** The objects `ResetTracking` may dispose. */
    function SessionContext(): set<object>
      reads this
    {
      if trackingSession == null then {} else {trackingSession.context}
    }

    /** `HasPrimaryKey` follows the key set; a session exists only for a selected row, and
        without one there is no state text. */
    ghost predicate Valid()
      reads this, trackingSession
    {
      Sound() && (trackingSession != null ==> selectedRow != null)
    }

    /** `Valid` except for the link between session and selection, which the `SelectedRow`
        setter breaks for the moment between storing a new row and restarting tracking. */
    ghost predicate Sound()
      reads this, trackingSession
    {
      && primaryKeyColumns.Valid()
      && (hasPrimaryKey <==> primaryKeyColumns.Count() > 0)
      && (selectedRow != null ==> selectedRow.Valid())
      && (trackingSession != null ==> trackingSession.Valid())
      && (trackingSession == null ==> efTrackingStateText == "")
    }

    constructor (dataAccess: DataAccessRouterService, ef: EfEnvironment, dateText: Ticks -> string)
      ensures this.dataAccess == dataAccess && this.ef == ef && this.dateText == dateText
      ensures Model() == ViewState("", "", "", 100, None, "", false, None, null, [], NoKeys, "", null)
      ensures Valid()
    {
      this.dataAccess := dataAccess;
      this.ef := ef;
      this.dateText := dateText;
      connectionString := "";
      databaseName := "";
      tableName := "";
      maxRows := 100;
      tableData := None;
      headerStatusText := "";
      isLoading := false;
      errorText := None;
      selectedRow := null;
      rowDetails := [];
      primaryKeyColumns := EmptySet;
      hasPrimaryKey := false;
      trackingAvailabilityText := "";
      efTrackingStateText := "";
      trackingSession := null;
    }

    /** `Initialize`: sets the four inputs of the screen. */
    method Initialize(connectionString: string, databaseName: string, tableName: string, maxRows: Int32)
      requires Valid()
      modifies this
      ensures Valid()
      ensures Model() == old(Model()).(connectionString := connectionString, databaseName := databaseName,
                                       tableName := tableName, maxRows := maxRows)
    {
      this.connectionString := connectionString;
      this.databaseName := databaseName;
      this.tableName := tableName;
      this.maxRows := maxRows;
    }

    /** `ResetTracking`: disposes the session and forgets it. */
    method ResetTracking()
      requires Sound()
      modifies this, SessionContext()
      ensures Valid()
      ensures Model() == ResetSpec(old(Model()), IsEf())
      ensures old(trackingSession) != null ==> old(trackingSession).context.disposed
    {
      if trackingSession != null {
        trackingSession.Dispose();
      }
      ForgetSession();
    }

    /** The part of `ResetTracking` after the dispose call. */
    method ForgetSession()
      requires Sound()
      modifies this
      ensures Valid() && Model() == ResetSpec(old(Model()), IsEf())
    {
      trackingSession, efTrackingStateText, headerStatusText :=
        null, "", if IsEf() then trackingAvailabilityText else "";
    }

    /** `UpdateRowDetails`: one item per column of `row`, none without a row. */
    method UpdateRowDetails(row: DataRowView?)
      requires row != null ==> row.Valid()
      modifies this
      ensures Model() == old(Model()).(rowDetails :=
                if row == null then [] else RowDetails(row.columns, row.values, primaryKeyColumns, dateText))
    {
      rowDetails := [];
      if row == null {
        return;
      }
      var details := [];
      var i := 0;
      while i < |row.columns|
        invariant 0 <= i <= |row.columns|
        invariant |details| == i
        invariant forall k | 0 <= k < i :: details[k] == DetailFor(row.columns[k], row.values[k], primaryKeyColumns, dateText)
      {
        var column := row.columns[i];
        var rawValue := row.values[i];
        var isPrimaryKey := primaryKeyColumns.Contains(column.name);
        var displayName := if isPrimaryKey then column.name + PrimaryKeyMarker else column.name;
        details := details + [RowDetailItem(displayName, DisplayValue(rawValue, dateText), isPrimaryKey)];
        i := i + 1;
      }
      rowDetails := details;
    }

    /** `LoadPrimaryKeyColumnsAsync`: clears the key set, then fills it from the data-access
        service unless a name is blank. A failing query propagates. */
    method LoadPrimaryKeyColumns() returns (outcome: Outcome<Failure>)
      requires Valid()
      modifies this
      ensures Valid()
      ensures Model() == old(Model()).(keys := Keys())
      ensures var after := KeysAfter(connectionString, databaseName, tableName,
                                     dataAccess.GetPrimaryKeyColumns(connectionString, databaseName, tableName));
        outcome == after.0 && Keys() == after.1
    {
      StoreKeys(NoKeys);
      if IsBlank(connectionString) || IsBlank(databaseName) || IsBlank(tableName) {
        return Pass;
      }
      var result := dataAccess.GetPrimaryKeyColumns(connectionString, databaseName, tableName);
      if result.Failure? {
        return Fail(result.error);
      }
      var keys := CollectNames(result.value.data);
      SetOfShape(result.value.data);
      var hasKey := keys.Count() > 0;
      var text;
      if !hasKey {
        text := NoPrimaryKeyText;
      } else if keys.Count() > 1 {
        text := CompositeKeyText;
      } else {
        text := SingleKeyText;
      }
      StoreKeys(KeyInfo(keys, hasKey, text));
      outcome := Pass;
    }

    /** Sets `_primaryKeyColumns`, `HasPrimaryKey` and `TrackingAvailabilityText`. */
    method StoreKeys(keys: KeyInfo)
      requires Valid() && keys.columns.Valid() && (keys.hasPrimaryKey <==> keys.columns.Count() > 0)
      modifies this
      ensures Valid() && Model() == old(Model()).(keys := keys)
    {
      primaryKeyColumns := keys.columns;
      hasPrimaryKey := keys.hasPrimaryKey;
      trackingAvailabilityText := keys.availabilityText;
    }

    /** `TryStartEfTrackingAsync(row)`: always resets first; starts a session only when
        `TrackingKey` allows, and reports a failure to start in the error text. */
    method TryStartEfTracking(row: DataRowView?)
      requires Sound() && row == selectedRow
      modifies this, SessionContext()
      ensures Valid()
      ensures old(trackingSession) != null ==> old(trackingSession).context.disposed
      ensures trackingSession != null ==> fresh(trackingSession)
      ensures ShowsStart(ResetSpec(old(Model()), IsEf()), row)
    {
      ResetTracking();
      if row == null {
        return;
      }
      if !IsEf() {
        return;
      }
      if !hasPrimaryKey {
        return;
      }
      if primaryKeyColumns.Count() != 1 {
        return;
      }
      var pkColumn := primaryKeyColumns.items[0];
      if !row.HasColumn(pkColumn) {
        return;
      }
      var pkValue := row.Get(pkColumn);
      if pkValue == DbNull {
        return;
      }
      StartSession(row, pkColumn, pkValue);
    }

    /** The screen after `TryStartEfTrackingAsync(row)` from the state `reset` that
        `ResetTracking` left: unchanged when `TrackingKey` refuses; the message of the
        failure when the EF service could not start a session; otherwise a session on the
        loaded entry, whose "Unchanged" state is shown as the tracking state and in the
        header. */
    ghost predicate ShowsStart(reset: ViewState, row: DataRowView?)
      requires row != null ==> row.Valid()
      reads this, trackingSession, dataAccess.modeService
    {
      var key := TrackingKey(row, dataAccess.ProviderName(), hasPrimaryKey, primaryKeyColumns);
      && (key.None? ==> Model() == reset)
      && (key.Some? ==>
            var o := PlanStart(databaseName, tableName, key.value.0, key.value.1, row.columns,
                               ef.convert, ef.find(databaseName, tableName));
            && (!o.Loaded? ==> Model() == reset.(errorText := Some(StartFailure(o).Message())))
            && (o.Loaded? ==>
                  && trackingSession != null
                  && trackingSession.Model() == o.entry
                  && efTrackingStateText == StatePrefix + Unchanged.Name()
                  && Model() == reset.(trackingSession := trackingSession,
                                       efTrackingStateText := efTrackingStateText,
                                       headerStatusText := efTrackingStateText)))
    }

    /** The `try` block of `TryStartEfTrackingAsync`: asks the EF service for a session on
        the key and shows its state, or shows why none could be started. */
    method StartSession(row: DataRowView, pkColumn: string, pkValue: Value)
      requires Sound() && trackingSession == null && row == selectedRow
      modifies this
      ensures Valid()
      ensures var o := PlanStart(databaseName, tableName, pkColumn, pkValue, row.columns,
                                 ef.convert, ef.find(databaseName, tableName));
        && (!o.Loaded? ==> Model() == old(Model()).(errorText := Some(StartFailure(o).Message())))
        && (o.Loaded? ==>
              && trackingSession != null && fresh(trackingSession)
              && trackingSession.Model() == o.entry
              && efTrackingStateText == StatePrefix + Unchanged.Name()
              && Model() == old(Model()).(trackingSession := trackingSession,
                                          efTrackingStateText := efTrackingStateText,
                                          headerStatusText := efTrackingStateText))
    {
      var result := RequestSession(row, pkColumn, pkValue);
      if result.Failure? {
        errorText := Some(result.error.Message());
        return;
      }
      var session := result.value;
      var snapshot := session.GetSnapshot();
      AdoptSession(session, StatePrefix + snapshot.value.state);
    }

    /** Stores a started session and shows its state text. */
    method AdoptSession(session: EfRowTrackingSession, text: string)
      requires Sound() && trackingSession == null && selectedRow != null && session.Valid()
      modifies this
      ensures Valid()
      ensures Model() == old(Model()).(trackingSession := session, efTrackingStateText := text, headerStatusText := text)
    {
      trackingSession := session;
      efTrackingStateText := text;
      headerStatusText := text;
    }

    /** The call `StartRowTrackingAsync(ConnectionString, DatabaseName, TableName, pkColumn,
        pkValue, row.Row.Table)`: a clean session on the row, or the exception it throws. */
    method RequestSession(row: DataRowView, pkColumn: string, pkValue: Value)
      returns (result: Result<EfRowTrackingSession, Failure>)
      ensures var o := PlanStart(databaseName, tableName, pkColumn, pkValue, row.columns,
                                 ef.convert, ef.find(databaseName, tableName));
        && (!o.Loaded? ==> result == Failure(StartFailure(o)))
        && (o.Loaded? ==> && result.Success? && fresh(result.value) && result.value.Valid()
                          && result.value.Model() == o.entry
                          && SnapshotSpec(o.entry) == (Success(Snapshot("Unchanged", [])), o.entry))
    {
      var rows := ef.find(databaseName, tableName);
      var context;
      context, result := StartRowTracking(ef.parse(connectionString), databaseName, tableName, pkColumn,
                                          pkValue, row.columns, ef.convert, rows);
      if result.Success? {
        LoadedEntryIsClean(databaseName, tableName, pkColumn, pkValue, row.columns, ef.convert, rows);
      }
    }

    /** The `SelectedRow` setter and its change hook: a different row is stored, its details
        shown and tracking restarted for it; the same row changes nothing. */
    method SetSelectedRow(row: DataRowView?)
      requires Valid() && (row != null ==> row.Valid())
      modifies this, SessionContext()
      ensures Valid() && selectedRow == row
      ensures row == old(selectedRow) ==> Model() == old(Model())
      ensures row != old(selectedRow) && row == null ==>
                Model() == ResetSpec(old(Model()).(selectedRow := null, rowDetails := []), IsEf())
      ensures row != old(selectedRow) && row != null ==>
                ShowsStart(ResetSpec(old(Model()).(selectedRow := row,
                                                   rowDetails := RowDetails(row.columns, row.values, primaryKeyColumns, dateText)),
                                     IsEf()), row)
      ensures row != old(selectedRow) && trackingSession != null ==> fresh(trackingSession)
      ensures row != old(selectedRow) && old(trackingSession) != null ==> old(trackingSession).context.disposed
    {
      if row == selectedRow {
        return;
      }
      selectedRow := row;
      UpdateRowDetails(row);
      TryStartEfTracking(row);
    }

    /** `SimulateChange`: writes the demo value into the demo column of the tracked row and
        shows the new state. An exception from `AddSeconds` or `SetValue` escapes before the
        text is updated. */
    method SimulateChange() returns (outcome: Outcome<Failure>)
      requires Valid()
      modifies this, trackingSession
      ensures Valid() && trackingSession == old(trackingSession)
      ensures old(trackingSession) == null || old(selectedRow) == null ==> outcome == Pass && Model() == old(Model())
      ensures old(trackingSession) != null && old(selectedRow) != null ==>
        var (column, value) := DemoEdit(selectedRow, primaryKeyColumns);
        && (IsBlank(column) ==> outcome == Pass && Model() == old(Model()) && unchanged(trackingSession))
        && (!IsBlank(column) && value.Failure? ==>
              outcome == Fail(value.error) && Model() == old(Model()) && unchanged(trackingSession))
        && (!IsBlank(column) && value.Success? ==> ShowsWrite(old(Model()), old(trackingSession.Model()), column, value.value, outcome))
    {
      if trackingSession == null || selectedRow == null {
        return Pass;
      }
      var (columnName, newValue) := DemoEdit(selectedRow, primaryKeyColumns);
      if IsBlank(columnName) {
        return Pass;
      }
      if newValue.Failure? {
        return Fail(newValue.error);
      }
      outcome := WriteDemoValue(columnName, newValue.value);
    }

    /** The tracked entry and the screen after `SetValue(column, value)` on an entry `e`:
        the entry as `SetValueSpec` leaves it, and, when the call did not throw, the state
        text of the new entry in the header. */
    ghost predicate ShowsWrite(before: ViewState, e: Entry, column: string, value: Value, outcome: Outcome<Failure>)
      reads this, trackingSession
    {
      && trackingSession != null
      && (outcome, trackingSession.Model()) == SetValueSpec(e, column, value)
      && (outcome.Fail? ==> Model() == before)
      && (outcome.Pass? ==>
            var text := BuildTrackingStateText(SnapshotOf(trackingSession.Model()));
            Model() == before.(efTrackingStateText := text, headerStatusText := text))
    }

    /** `_trackingSession.SetValue(columnName, newValue)` and the state text that follows. */
    method WriteDemoValue(column: string, value: Value) returns (outcome: Outcome<Failure>)
      requires Valid() && trackingSession != null
      modifies this, trackingSession
      ensures Valid() && trackingSession == old(trackingSession)
      ensures ShowsWrite(old(Model()), old(trackingSession.Model()), column, value, outcome)
    {
      outcome := trackingSession.SetValue(column, value);
      if outcome.Fail? {
        return;
      }
      SetValuePassIsSound(old(trackingSession.Model()), column, value);
      SnapshotOfSound(trackingSession.Model());
      var snapshot := trackingSession.GetSnapshot();
      ShowTrackingState(BuildTrackingStateText(snapshot.value));
    }

    /** Shows `text` as the tracking state and in the header. */
    method ShowTrackingState(text: string)
      requires Valid() && trackingSession != null
      modifies this
      ensures Valid()
      ensures Model() == old(Model()).(efTrackingStateText := text, headerStatusText := text)
    {
      efTrackingStateText := text;
      headerStatusText := text;
    }

    /** `RevertChange`: reverts the tracked row and shows its (unchanged) state. An
        exception from `RevertChanges` escapes before the text is updated. */
    method RevertChange() returns (outcome: Outcome<Failure>)
      requires Valid()
      modifies this, trackingSession
      ensures Valid() && trackingSession == old(trackingSession)
      ensures old(trackingSession) == null ==> outcome == Pass && Model() == old(Model())
      ensures old(trackingSession) != null ==>
                && (outcome, old(trackingSession).Model()) == RevertSpec(old(trackingSession.Model()))
                && (outcome.Fail? ==> Model() == old(Model()))
                && (outcome.Pass? ==>
                      Model() == old(Model()).(efTrackingStateText := StatePrefix + Unchanged.Name(),
                                               headerStatusText := StatePrefix + Unchanged.Name()))
    {
      if trackingSession == null {
        return Pass;
      }
      outcome := trackingSession.RevertChanges();
      if outcome.Fail? {
        return;
      }
      RevertPassIsClean(old(trackingSession.Model()));
      var snapshot := trackingSession.GetSnapshot();
      StateTextOfEntry(trackingSession.Model());
      ShowTrackingState(BuildTrackingStateText(snapshot.value));
    }

    /** `LoadAsync`: ignored while a load is running; with a non-positive row limit it
        clears the table and reports the limit without fetching; otherwise it resets
        tracking, fetches the table and then the key columns, shows an exception from
        either, and clears the loading flag on every exit. */
    method LoadAsync()
      requires Valid()
      modifies this, SessionContext()
      ensures Valid()
      ensures !old(isLoading) && old(trackingSession) != null ==> old(trackingSession).context.disposed
      ensures Model() == LoadSpec(old(Model()), IsEf(),
                                  dataAccess.GetTableData(old(connectionString), old(databaseName), old(tableName), old(maxRows)),
                                  dataAccess.GetPrimaryKeyColumns(old(connectionString), old(databaseName), old(tableName)))
    {
      if isLoading {
        return;
      }
      if maxRows <= 0 {
        ShowLoadError(MaxRowsMessage);
      } else {
        LoadTable();
      }
    }

    /** Clears the table and the selection and shows `message` as the error: all of
        `LoadAsync` for a non-positive row limit, and the start of its `catch` block. */
    method ShowLoadError(message: string)
      requires Valid()
      modifies this, SessionContext()
      ensures Valid()
      ensures old(trackingSession) != null ==> old(trackingSession).context.disposed
      ensures Model() == ClearSelectionSpec(old(Model()).(tableData := None), IsEf()).(errorText := Some(message))
    {
      SetTableData(None);
      ClearSelection();
      SetErrorText(Some(message));
    }

    /** `LoadAsync` with a positive row limit, from `ResetTracking` to the `finally` block. */
    method LoadTable()
      requires Valid()
      modifies this, SessionContext()
      ensures Valid()
      ensures old(trackingSession) != null ==> old(trackingSession).context.disposed
      ensures Model() == FinishSpec(FetchSpec(StartSpec(old(Model()), IsEf()), IsEf(),
                                    dataAccess.GetTableData(connectionString, databaseName, tableName, maxRows),
                                    dataAccess.GetPrimaryKeyColumns(connectionString, databaseName, tableName)), IsEf())
    {
      StartLoading();
      var outcome := FetchTable();
      FinishLoading(outcome);
    }

    /** The `catch` block when the fetch threw, then the `finally` block. */
    method FinishLoading(outcome: Outcome<Failure>)
      requires Valid() && trackingSession == null
      modifies this
      ensures Valid()
      ensures Model() == FinishSpec((outcome, old(Model())), IsEf())
    {
      if outcome.Fail? {
        CatchLoadFailure(outcome.error);
      }
      EndLoading();
    }

    /** `ResetTracking()` and the start of the `try` block of `LoadAsync`. */
    method StartLoading()
      requires Valid()
      modifies this, SessionContext()
      ensures Valid() && trackingSession == null
      ensures old(trackingSession) != null ==> old(trackingSession).context.disposed
      ensures Model() == StartSpec(old(Model()), IsEf())
    {
      ResetTracking();
      BeginLoading();
      ClearSelection();
    }

    /** The `try` block of `LoadAsync` after the loading state is shown. */
    method FetchTable() returns (outcome: Outcome<Failure>)
      requires Valid() && trackingSession == null
      modifies this
      ensures Valid() && trackingSession == null
      ensures var r := FetchSpec(old(Model()), IsEf(),
                                 dataAccess.GetTableData(connectionString, databaseName, tableName, maxRows),
                                 dataAccess.GetPrimaryKeyColumns(connectionString, databaseName, tableName));
        outcome == r.0 && Model() == r.1
    {
      var result := dataAccess.GetTableData(connectionString, databaseName, tableName, maxRows);
      if result.Failure? {
        return Fail(result.error);
      }
      outcome := ShowTable(result.value.data);
    }

    /** The `try` block of `LoadAsync` once the table has arrived. */
    method ShowTable(data: DataTable) returns (outcome: Outcome<Failure>)
      requires Valid() && trackingSession == null
      modifies this
      ensures Valid() && trackingSession == null
      ensures var r := ShowTableSpec(old(Model()), IsEf(), data,
                                     dataAccess.GetPrimaryKeyColumns(connectionString, databaseName, tableName));
        outcome == r.0 && Model() == r.1
    {
      SetTableData(Some(data));
      ClearSelection();
      outcome := LoadPrimaryKeyColumns();
      if outcome.Fail? {
        return;
      }
      UpdateRowDetails(selectedRow);
      ShowAvailability();
    }

    /** The `catch` block of `LoadAsync`. */
    method CatchLoadFailure(error: Failure)
      requires Valid()
      modifies this, SessionContext()
      ensures Valid()
      ensures old(trackingSession) != null ==> old(trackingSession).context.disposed
      ensures Model() == CatchSpec(old(Model()), error, IsEf())
    {
      ShowLoadError(error.Message());
      ResetTracking();
    }

    /** `SelectedRow = null; UpdateRowDetails(null);` */
    method ClearSelection()
      requires Valid()
      modifies this, SessionContext()
      ensures Valid() && selectedRow == null
      ensures old(trackingSession) != null ==> old(trackingSession).context.disposed
      ensures Model() == ClearSelectionSpec(old(Model()), IsEf())
    {
      SetSelectedRow(null);
      UpdateRowDetails(null);
    }

    method SetTableData(data: Option<DataTable>)
      requires Valid()
      modifies this
      ensures Valid() && Model() == old(Model()).(tableData := data)
    {
      tableData := data;
    }

    method SetErrorText(text: Option<string>)
      requires Valid()
      modifies this
      ensures Valid() && Model() == old(Model()).(errorText := text)
    {
      errorText := text;
    }

    /** `IsLoading = true; HeaderStatusText = "Loading..."; ErrorText = null;` */
    method BeginLoading()
      requires Valid()
      modifies this
      ensures Valid() && Model() == old(Model()).(isLoading := true, headerStatusText := LoadingText, errorText := None)
    {
      isLoading := true;
      headerStatusText := LoadingText;
      errorText := None;
    }

    /** The `finally` block of `LoadAsync`. */
    method EndLoading()
      requires Valid()
      modifies this
      ensures Valid() && Model() == old(Model()).(isLoading := false)
    {
      isLoading := false;
    }

    /** The header after a load: the key availability under EF, nothing otherwise. */
    method ShowAvailability()
      requires Valid()
      modifies this
      ensures Valid()
      ensures Model() == old(Model()).(headerStatusText := if IsEf() then trackingAvailabilityText else "")
    {
      headerStatusText := if IsEf() then trackingAvailabilityText else "";
    }
  }
}
