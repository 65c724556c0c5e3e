/**
  The runtime values the modelled code handles: the fixed-width integers of C#, the
  `object` values held by a `DataRow` or an EF property bag, the column descriptions of a
  `DataTable`, and one selected row of a `DataView`.
*/
module Values {
  import opened Wrappers
  import opened Text

  type Int16 = x: int | -0x8000 <= x < 0x8000
  type Byte = x: int | 0 <= x < 0x100
  type Int32 = x: int | -0x8000_0000 <= x < 0x8000_0000
  type Int64 = x: int | -0x8000_0000_0000_0000 <= x < 0x8000_0000_0000_0000

  /** `DateTime.MaxValue.Ticks`; `DateTime.MinValue.Ticks` is 0. */
  const MaxTicks: int := 3155378975999999999
  const TicksPerSecond: int := 10_000_000
  type Ticks = x: int | 0 <= x <= MaxTicks

  /** `DataColumn.DataType`, as far as the modelled code distinguishes it. */
  datatype ClrType = Int32Type | Int64Type | StringType | DateTimeType | OtherType(name: string) {
    /** `Type.FullName`. */
    function Name(): string {
      match this
      case Int32Type => "System.Int32"
      case Int64Type => "System.Int64"
      case StringType => "System.String"
      case DateTimeType => "System.DateTime"
      case OtherType(n) => n
    }
  }

  /** A boxed value: C# `null`, `DBNull.Value`, or a value of one of the CLR types above. */
  datatype Value =
    | Null
    | DbNull
    | Int32Value(i: Int32)
    | Int64Value(l: Int64)
    | StringValue(s: string)
    | DateTimeValue(ticks: Ticks)
    | OtherValue(typeName: string, repr: string)

  /** `value.GetType()`; `null` has no type. */
  function RuntimeType(v: Value): Option<ClrType> {
    match v
    case Null => None
    case DbNull => Some(OtherType("System.DBNull"))
    case Int32Value(_) => Some(Int32Type)
    case Int64Value(_) => Some(Int64Type)
    case StringValue(_) => Some(StringType)
    case DateTimeValue(_) => Some(DateTimeType)
    case OtherValue(n, _) => Some(OtherType(n))
  }

  datatype DataColumn = DataColumn(name: string, dataType: ClrType)

  /** A loaded `DataTable`: its columns and, per row, one value per column. */
  datatype DataTable = DataTable(columns: seq<DataColumn>, rows: seq<seq<Value>>)

  function ColumnNames(columns: seq<DataColumn>): (names: seq<string>)
    ensures |names| == |columns|
    ensures forall i | 0 <= i < |columns| :: names[i] == columns[i].name
  {
    seq(|columns|, i requires 0 <= i < |columns| => columns[i].name)
  }

  /**
    The lookup behind `DataColumnCollection.Contains(name)` and `DataRow[name]`: the column
    whose name equals `name` exactly, otherwise the only column whose name equals it
    ignoring case; no column when several do.
  */
  function ColumnIndex(columns: seq<DataColumn>, name: string): (r: Option<nat>)
    ensures r.Some? ==> r.value < |columns| && EqualsIgnoreCase(columns[r.value].name, name)
    ensures (exists i | 0 <= i < |columns| :: columns[i].name == name) ==>
              r.Some? && columns[r.value].name == name
    ensures (forall i | 0 <= i < |columns| :: columns[i].name != name) ==>
              (r.Some? <==> CountIgnoreCase(ColumnNames(columns), name) == 1)
  {
    var names := ColumnNames(columns);
    match IndexOf(names, name, false)
    case Some(i) => Some(i)
    case None =>
      if CountIgnoreCase(names, name) == 1 then IndexOf(names, name, true) else None
  }

  /** One row of a loaded table, as the grid hands it over (`DataRowView`). */
  class DataRowView {
    const columns: seq<DataColumn>
    const values: seq<Value>

    predicate Valid() {
      |columns| == |values|
    }

    constructor (columns: seq<DataColumn>, values: seq<Value>)
      requires |columns| == |values|
      ensures this.columns == columns && this.values == values && Valid()
    {
      this.columns := columns;
      this.values := values;
    }

    /** `Row.Table.Columns.Contains(name)`. */
    predicate HasColumn(name: string) {
      ColumnIndex(columns, name).Some?
    }

    /** `Row[name]` for a column that `HasColumn` found. */
    function Get(name: string): (v: Value)
      requires Valid() && HasColumn(name)
      ensures v == values[ColumnIndex(columns, name).value]
    {
      values[ColumnIndex(columns, name).value]
    }
  }
}
