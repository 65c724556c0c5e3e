/**
  The EF Core admin service: how it scopes connections, formats column types for display,
  names the runtime entity type of a tracked row, checks the arguments of its public
  operations, and folds the rows its introspection queries return into case-insensitive
  dictionaries and sets.
*/
module EfDatabaseAdmin {
  import opened Wrappers
  import opened Text
  import opened Failures
  import opened Values
  import opened Connection
  import opened CaseInsensitive
  import SqlServerAdmin

  // ---------------------------------------------------------------------------------------
  // Connection scope

  /** `BuildConnectionString(connectionString, databaseName = null)`: the named database,
      or `master` when the name is null or blank; the attach-file setting is always cleared
      and nothing else is touched. */
  function BuildConnectionString(cs: ConnectionSettings, databaseName: Option<string>): (r: ConnectionSettings)
    ensures IsNullOrWhiteSpace(databaseName) ==> r.initialCatalog == MasterCatalog
    ensures !IsNullOrWhiteSpace(databaseName) ==> r.initialCatalog == databaseName.value
    ensures r.attachDbFilename == "" && r.otherSettings == cs.otherSettings
  {
    cs.(initialCatalog := if IsNullOrWhiteSpace(databaseName) then MasterCatalog else databaseName.value,
        attachDbFilename := "")
  }

  /** Without a database name (or with a blank one) the EF service scopes exactly as the raw
      SQL service's `BuildMasterConnectionString` does. */
  lemma NoDatabaseMeansMaster(cs: ConnectionSettings, databaseName: Option<string>)
    requires IsNullOrWhiteSpace(databaseName)
    ensures BuildConnectionString(cs, databaseName) == SqlServerAdmin.BuildMasterConnectionString(cs)
  {
  }

  /** Two scopes to the same database agree whatever catalog or file the original strings
      named; rescoping an already scoped string changes nothing. */
  lemma DatabaseScopeIgnoresTarget(a: ConnectionSettings, b: ConnectionSettings, databaseName: Option<string>)
    requires a.otherSettings == b.otherSettings
    ensures BuildConnectionString(a, databaseName) == BuildConnectionString(b, databaseName)
    ensures BuildConnectionString(BuildConnectionString(a, databaseName), databaseName) == BuildConnectionString(a, databaseName)
  {
  }

  // ---------------------------------------------------------------------------------------
  // Display types

  predicate IsUnicodeTextType(typeName: string) {
    EqualsIgnoreCase(typeName, "nvarchar") || EqualsIgnoreCase(typeName, "nchar")
  }

  predicate IsAnsiTextType(typeName: string) {
    EqualsIgnoreCase(typeName, "varchar") || EqualsIgnoreCase(typeName, "char")
  }

  predicate IsExactNumericType(typeName: string) {
    EqualsIgnoreCase(typeName, "decimal") || EqualsIgnoreCase(typeName, "numeric")
  }

  /** C#'s integer `/`, which truncates toward zero. */
  function TruncatingDivide(a: int, b: int): (q: int)
    requires b > 0
    ensures a >= 0 ==> 0 <= a - q * b < b
    ensures a < 0 ==> -b < a - q * b <= 0
  {
    if a >= 0 then a / b else -((-a) / b)
  }

  /** `FormatSqlType`: the type name as the caller spelled it, followed by `(max)`, a length
      in characters (half the byte length for the national types), or `(precision,scale)`. */
  function FormatSqlType(typeName: string, maxLength: Int16, precision: Byte, scale: Byte): string {
    if IsUnicodeTextType(typeName) then
      if maxLength == -1 then typeName + "(max)"
      else typeName + "(" + IntToDecimal(TruncatingDivide(maxLength, 2)) + ")"
    else if IsAnsiTextType(typeName) then
      if maxLength == -1 then typeName + "(max)"
      else typeName + "(" + IntToDecimal(maxLength) + ")"
    else if IsExactNumericType(typeName) then
      typeName + "(" + IntToDecimal(precision) + "," + IntToDecimal(scale) + ")"
    else typeName
  }

  /** What the suffix of a display type says about the column. */
  datatype TypeSuffix = Bare | MaxLength | Length(n: int) | PrecisionScale(p: int, s: int)

  /** Reads a display-type suffix back: nothing, `(max)`, `(n)` or `(p,s)`. */
  function ParseTypeSuffix(suffix: string): Option<TypeSuffix> {
    if suffix == "" then Some(Bare)
    else if suffix == "(max)" then Some(MaxLength)
    else if |suffix| < 2 || suffix[0] != '(' || suffix[|suffix| - 1] != ')' then None
    else
      var inner := suffix[1..|suffix| - 1];
      var first := TakeUntil(inner, ',');
      if |first| == |inner| then
        match ParseInt(inner)
        case Some(n) => Some(Length(n))
        case None => None
      else
        match (ParseInt(first), ParseInt(inner[|first| + 1..]))
        case (Some(p), Some(s)) => Some(PrecisionScale(p, s))
        case _ => None
  }

  /** The suffix `FormatSqlType` is meant to write for a column of the given metadata. */
  function IntendedSuffix(typeName: string, maxLength: Int16, precision: Byte, scale: Byte): TypeSuffix {
    if IsUnicodeTextType(typeName) then
      if maxLength == -1 then MaxLength else Length(TruncatingDivide(maxLength, 2))
    else if IsAnsiTextType(typeName) then
      if maxLength == -1 then MaxLength else Length(maxLength)
    else if IsExactNumericType(typeName) then PrecisionScale(precision, scale)
    else Bare
  }

  lemma DecimalHasNoComma(i: int)
    ensures ',' !in IntToDecimal(i)
    ensures |IntToDecimal(i)| >= 1 && IntToDecimal(i)[0] != 'm'
  {
    var s := IntToDecimal(i);
    if i < 0 {
      assert s[1..] == NatToDecimal(-i);
      forall k | 0 <= k < |s| ensures s[k] != ',' {
        if k > 0 { assert s[k] == s[1..][k - 1]; }
      }
    } else {
      assert forall k | 0 <= k < |s| :: IsDigit(s[k]);
    }
  }

  /** A parenthesised number is read back as that number. */
  lemma ParseLengthSuffix(n: int)
    ensures ParseTypeSuffix("(" + IntToDecimal(n) + ")") == Some(Length(n))
  {
    var d := IntToDecimal(n);
    var suffix := "(" + d + ")";
    DecimalHasNoComma(n);
    assert suffix != "(max)" by { assert suffix[1] == d[0]; }
    assert suffix[1..|suffix| - 1] == d;
    TakeUntilWhole(d, ',');
    ParseIntToDecimal(n);
  }

  /** A parenthesised pair is read back as that pair. */
  lemma ParsePrecisionScaleSuffix(p: int, s: int)
    ensures ParseTypeSuffix("(" + IntToDecimal(p) + "," + IntToDecimal(s) + ")") == Some(PrecisionScale(p, s))
  {
    DecimalHasNoComma(p);
    PairSuffixSplits(IntToDecimal(p), IntToDecimal(s));
    ParseIntToDecimal(p);
    ParseIntToDecimal(s);
  }

  /** A parenthesised pair whose first part holds no comma is split at that comma. */
  lemma PairSuffixSplits(a: string, b: string)
    requires ',' !in a && |a| >= 1 && a[0] != 'm'
    ensures ParseTypeSuffix("(" + a + "," + b + ")") ==
              match (ParseInt(a), ParseInt(b))
              case (Some(p), Some(s)) => Some(PrecisionScale(p, s))
              case _ => None
  {
    var suffix := "(" + a + "," + b + ")";
    assert suffix != "(max)" by { assert suffix[1] == a[0]; }
    var inner := suffix[1..|suffix| - 1];
    assert inner == a + [','] + b;
    TakeUntilQuoted(a, ',', b);
    assert inner[|a| + 1..] == b;
  }

  lemma TakeUntilWhole(s: string, c: char)
    requires c !in s
    ensures TakeUntil(s, c) == s
  {
  }

  /** The suffix `FormatSqlType` appends to the type name. */
  function FormattedSuffix(typeName: string, maxLength: Int16, precision: Byte, scale: Byte): string {
    if IsUnicodeTextType(typeName) || IsAnsiTextType(typeName) then
      if maxLength == -1 then "(max)"
      else if IsUnicodeTextType(typeName) then "(" + IntToDecimal(TruncatingDivide(maxLength, 2)) + ")"
      else "(" + IntToDecimal(maxLength) + ")"
    else if IsExactNumericType(typeName) then
      "(" + IntToDecimal(precision) + "," + IntToDecimal(scale) + ")"
    else ""
  }

  lemma SuffixReadsBack(typeName: string, maxLength: Int16, precision: Byte, scale: Byte)
    ensures ParseTypeSuffix(FormattedSuffix(typeName, maxLength, precision, scale))
              == Some(IntendedSuffix(typeName, maxLength, precision, scale))
  {
    if IsUnicodeTextType(typeName) || IsAnsiTextType(typeName) {
      if maxLength != -1 {
        ParseLengthSuffix(if IsUnicodeTextType(typeName) then TruncatingDivide(maxLength, 2) else maxLength);
      }
    } else if IsExactNumericType(typeName) {
      ParsePrecisionScaleSuffix(precision, scale);
    }
  }

  /** The display type keeps the caller's spelling of the type name, and what follows it
      reads back as exactly the size the metadata describes: `(max)` for -1, the byte length
      halved with truncation toward zero for `nvarchar`/`nchar`, the byte length for
      `varchar`/`char`, the precision and scale for `decimal`/`numeric`, nothing otherwise. */
  lemma FormatSqlTypeReadsBack(typeName: string, maxLength: Int16, precision: Byte, scale: Byte)
    ensures var r := FormatSqlType(typeName, maxLength, precision, scale);
      && |typeName| <= |r| && r[..|typeName|] == typeName
      && ParseTypeSuffix(r[|typeName|..]) == Some(IntendedSuffix(typeName, maxLength, precision, scale))
  {
    var r := FormatSqlType(typeName, maxLength, precision, scale);
    var suffix := FormattedSuffix(typeName, maxLength, precision, scale);
    FormatIsNamePlusSuffix(typeName, maxLength, precision, scale);
    assert r[..|typeName|] == typeName;
    assert r[|typeName|..] == suffix;
    SuffixReadsBack(typeName, maxLength, precision, scale);
  }

  lemma FormatIsNamePlusSuffix(typeName: string, maxLength: Int16, precision: Byte, scale: Byte)
    ensures FormatSqlType(typeName, maxLength, precision, scale)
              == typeName + FormattedSuffix(typeName, maxLength, precision, scale)
  {
    if IsUnicodeTextType(typeName) || IsAnsiTextType(typeName) {
      if maxLength != -1 {
        AppendParenthesised(typeName, IntToDecimal(if IsUnicodeTextType(typeName) then TruncatingDivide(maxLength, 2) else maxLength));
      }
    } else if IsExactNumericType(typeName) {
      AppendParenthesisedPair(typeName, IntToDecimal(precision), IntToDecimal(scale));
    } else {
      assert typeName == typeName + "";
    }
  }

  lemma AppendParenthesised(t: string, n: string)
    ensures t + "(" + n + ")" == t + ("(" + n + ")")
  {
  }

  lemma AppendParenthesisedPair(t: string, p: string, q: string)
    ensures t + "(" + p + "," + q + ")" == t + ("(" + p + "," + q + ")")
  {
  }

  /** Worked case: a national type's byte length is halved. */
  lemma FormatNationalLength()
    ensures FormatSqlType("nvarchar", 100, 0, 0) == "nvarchar(50)"
  {
    assert IsUnicodeTextType("nvarchar");
    assert IntToDecimal(50) == "50";
  }

  /** Worked case: `-1` is `max`, and the caller's casing is kept. */
  lemma FormatMaxKeepsCasing()
    ensures FormatSqlType("VARCHAR", -1, 0, 0) == "VARCHAR(max)"
  {
    assert FoldString("VARCHAR") == FoldString("varchar");
    assert !IsUnicodeTextType("VARCHAR") by {
      assert FoldString("VARCHAR")[0] != FoldString("nvarchar")[0];
      assert |FoldString("VARCHAR")| != |FoldString("nchar")|;
    }
  }

  /** Worked case: exact numerics show precision and scale. */
  lemma FormatPrecisionScale()
    ensures FormatSqlType("decimal", 9, 18, 2) == "decimal(18,2)"
  {
    assert !IsUnicodeTextType("decimal") && !IsAnsiTextType("decimal") by {
      assert FoldString("decimal")[0] != FoldString("nvarchar")[0];
      assert |FoldString("decimal")| != |FoldString("nchar")|;
      assert FoldString("decimal")[0] != FoldString("varchar")[0];
      assert |FoldString("decimal")| != |FoldString("char")|;
    }
    assert IntToDecimal(18) == "18";
    assert IntToDecimal(2) == "2";
  }

  /** Worked case: an odd negative byte length is halved toward zero as C# does, giving -1
      where a flooring division would give -2. */
  lemma FormatTruncatesTowardZero()
    ensures FormatSqlType("nchar", -3, 0, 0) == "nchar(-1)"
  {
    assert IsUnicodeTextType("nchar");
    assert TruncatingDivide(-3, 2) == -1;
    assert IntToDecimal(-1) == "-1";
  }

  /** Worked case: any other type passes through. */
  lemma FormatOtherType()
    ensures FormatSqlType("int", 4, 10, 0) == "int"
  {
    assert !IsUnicodeTextType("int") && !IsAnsiTextType("int") && !IsExactNumericType("int") by {
      assert |FoldString("int")| != |FoldString("nvarchar")| && |FoldString("int")| != |FoldString("nchar")|;
      assert |FoldString("int")| != |FoldString("varchar")| && |FoldString("int")| != |FoldString("char")|;
      assert |FoldString("int")| != |FoldString("decimal")| && |FoldString("int")| != |FoldString("numeric")|;
    }
  }

  // ---------------------------------------------------------------------------------------
  // Runtime entity names

  const EntityNamePrefix: string := "TrackedRow_"

  /** `Regex.Replace(value, "[^A-Za-z0-9_]", "_")`: every character outside the class becomes
      an underscore. */
  function Sanitize(value: string): (r: string)
    ensures |r| == |value|
    ensures forall i | 0 <= i < |value| :: r[i] == if IsWordChar(value[i]) then value[i] else '_'
  {
    seq(|value|, i requires 0 <= i < |value| => if IsWordChar(value[i]) then value[i] else '_')
  }

  /** The sanitized text is an identifier, already-safe text is left as it is, and
      sanitizing twice is sanitizing once. */
  lemma SanitizeProperties(value: string)
    ensures IsWord(Sanitize(value))
    ensures IsWord(value) ==> Sanitize(value) == value
    ensures Sanitize(Sanitize(value)) == Sanitize(value)
  {
  }

  /** `BuildSafeEntityName`. */
  function BuildSafeEntityName(databaseName: string, tableName: string): string {
    EntityNamePrefix + Sanitize(databaseName) + "_" + Sanitize(tableName)
  }

  /** The entity name is a valid identifier made of the prefix, the two sanitized names and
      a separator, and keeps every safe character of both names in place. */
  lemma EntityNameShape(databaseName: string, tableName: string)
    ensures var e := BuildSafeEntityName(databaseName, tableName);
      && IsWord(e)
      && |e| == |EntityNamePrefix| + |databaseName| + 1 + |tableName|
      && e[..|EntityNamePrefix|] == EntityNamePrefix
      && (forall i | 0 <= i < |databaseName| && IsWordChar(databaseName[i]) ::
            e[|EntityNamePrefix| + i] == databaseName[i])
      && (forall i | 0 <= i < |tableName| && IsWordChar(tableName[i]) ::
            e[|EntityNamePrefix| + |databaseName| + 1 + i] == tableName[i])
  {
    SanitizeProperties(databaseName);
    SanitizeProperties(tableName);
    assert IsWord(EntityNamePrefix);
    JoinedWords(EntityNamePrefix, Sanitize(databaseName), Sanitize(tableName));
  }

  /** `p + a + "_" + b` holds each part at its offset, and is an identifier when the parts
      are. */
  lemma JoinedWords(p: string, a: string, b: string)
    ensures var e := p + a + "_" + b;
      && |e| == |p| + |a| + 1 + |b|
      && e[..|p|] == p
      && (forall i | 0 <= i < |a| :: e[|p| + i] == a[i])
      && (forall i | 0 <= i < |b| :: e[|p| + |a| + 1 + i] == b[i])
      && (IsWord(p) && IsWord(a) && IsWord(b) ==> IsWord(e))
  {
    var e := p + a + "_" + b;
    if IsWord(p) && IsWord(a) && IsWord(b) {
      forall i | 0 <= i < |e| ensures IsWordChar(e[i]) {
        if i < |p| {
          assert e[i] == p[i];
        } else if i < |p| + |a| {
          assert e[i] == a[i - |p|];
        } else if i > |p| + |a| {
          assert e[i] == b[i - |p| - |a| - 1];
        }
      }
    }
  }

  /** The name is not injective: the underscore separator can also come from either name,
      and any unsafe character maps to the same underscore. */
  lemma EntityNamesCollide()
    ensures BuildSafeEntityName("a_b", "c") == BuildSafeEntityName("a", "b_c")
    ensures BuildSafeEntityName("x-y", "t") == BuildSafeEntityName("x y", "t")
  {
    assert Sanitize("a_b") == "a_b";
    assert Sanitize("b_c") == "b_c";
    assert Sanitize("c") == "c";
    assert Sanitize("a") == "a";
    assert Sanitize("x-y") == "x_y";
    assert Sanitize("x y") == "x_y";
    assert Sanitize("t") == "t";
  }

  // ---------------------------------------------------------------------------------------
  // Argument checks and commands

  const DatabaseNameEmpty: string := "Database name must not be empty."
  const TableNameEmpty: string := "Table name must not be empty."
  const PrimaryKeyColumnEmpty: string := "Primary key column must not be empty."
  const MaxRowsNotPositive: string := "Max rows must be greater than 0."

  /** `if (string.IsNullOrWhiteSpace(value)) throw new ArgumentException(message, paramName)`. */
  function RequireName(value: string, paramName: string, message: string): (r: Outcome<Failure>)
    ensures r.Fail? <==> IsBlank(value)
    ensures r.Fail? ==> r.error == ArgumentException(paramName, message)
  {
    if IsBlank(value) then Fail(ArgumentException(paramName, message)) else Pass
  }

  /** The database-then-table checks that open every table-level operation. */
  function RequireDatabaseAndTable(databaseName: string, tableName: string): (r: Outcome<Failure>)
    ensures r.Pass? <==> !IsBlank(databaseName) && !IsBlank(tableName)
    ensures IsBlank(databaseName) ==> r == Fail(ArgumentException("databaseName", DatabaseNameEmpty))
    ensures !IsBlank(databaseName) && IsBlank(tableName) ==> r == Fail(ArgumentException("tableName", TableNameEmpty))
  {
    match RequireName(databaseName, "databaseName", DatabaseNameEmpty)
    case Fail(e) => Fail(e)
    case Pass => RequireName(tableName, "tableName", TableNameEmpty)
  }

  /** A bound parameter of a command. */
  datatype Parameter = Parameter(name: string, value: Value)

  /** A command the service would send: where, what text, which bound parameters. */
  datatype Command = Command(connection: ConnectionSettings, sql: string, parameters: seq<Parameter>)

  const TablesSql: string := "\nSELECT [name]\nFROM sys.tables\nORDER BY [name];"
  const ColumnTypesSql: string :=
    "\nSELECT \n    c.[name] AS ColumnName,\n    t.[name] AS TypeName,\n    c.max_length,\n" +
    "    c.[precision],\n    c.[scale]\nFROM sys.columns c\n" +
    "INNER JOIN sys.tables tb ON tb.[object_id] = c.[object_id]\n" +
    "INNER JOIN sys.types t ON t.user_type_id = c.user_type_id\n" +
    "WHERE tb.[name] = @TableName\nORDER BY c.column_id;"
  const PrimaryKeySql: string :=
    "\nSELECT c.[name]\nFROM sys.tables t\nINNER JOIN sys.schemas s ON s.[schema_id] = t.[schema_id]\n" +
    "INNER JOIN sys.indexes i ON i.[object_id] = t.[object_id] AND i.[is_primary_key] = 1\n" +
    "INNER JOIN sys.index_columns ic ON ic.[object_id] = i.[object_id] AND ic.[index_id] = i.[index_id]\n" +
    "INNER JOIN sys.columns c ON c.[object_id] = t.[object_id] AND c.[column_id] = ic.[column_id]\n" +
    "WHERE s.[name] = N'dbo'\n  AND t.[name] = @TableName\nORDER BY ic.[key_ordinal];"
  const ForeignKeySql: string :=
    "\nSELECT DISTINCT pc.[name]\nFROM sys.tables t\nINNER JOIN sys.schemas s ON s.[schema_id] = t.[schema_id]\n" +
    "INNER JOIN sys.foreign_key_columns fkc ON fkc.[parent_object_id] = t.[object_id]\n" +
    "INNER JOIN sys.columns pc ON pc.[object_id] = fkc.[parent_object_id] AND pc.[column_id] = fkc.[parent_column_id]\n" +
    "WHERE s.[name] = N'dbo'\n  AND t.[name] = @TableName\nORDER BY pc.[name];"
  const TableDataHead: string := "\nSELECT TOP (@MaxRows) *\nFROM dbo.["
  const TableDataTail: string := "];"

  /** `GetTablesAsync`: the database name is checked, then the catalog query runs scoped to
      that database. */
  function TablesCommand(cs: ConnectionSettings, databaseName: string): (r: Result<Command, Failure>)
    ensures r.Failure? <==> IsBlank(databaseName)
    ensures r.Failure? ==> r.error == ArgumentException("databaseName", DatabaseNameEmpty)
    ensures r.Success? ==> r.value.connection.initialCatalog == databaseName && r.value.parameters == []
  {
    match RequireName(databaseName, "databaseName", DatabaseNameEmpty)
    case Fail(e) => Failure(e)
    case Pass => Success(Command(BuildConnectionString(cs, Some(databaseName)), TablesSql, []))
  }

  /** The three metadata queries: checked names, the database's scope, and the table name
      bound as `@TableName` rather than spliced into the text. */
  function MetadataCommand(cs: ConnectionSettings, databaseName: string, tableName: string, sql: string)
    : (r: Result<Command, Failure>)
    ensures r.Failure? <==> RequireDatabaseAndTable(databaseName, tableName).Fail?
    ensures r.Failure? ==> r.error == RequireDatabaseAndTable(databaseName, tableName).error
    ensures r.Success? ==> && r.value.connection == BuildConnectionString(cs, Some(databaseName))
                           && r.value.connection.initialCatalog == databaseName
                           && r.value.sql == sql
                           && r.value.parameters == [Parameter("@TableName", StringValue(tableName))]
  {
    match RequireDatabaseAndTable(databaseName, tableName)
    case Fail(e) => Failure(e)
    case Pass =>
      Success(Command(BuildConnectionString(cs, Some(databaseName)), sql,
                      [Parameter("@TableName", StringValue(tableName))]))
  }

  /** `GetTableDataAsync`: names and row limit are checked before any connection exists; the
      limit is bound as `@MaxRows`, but the table name is spliced between `dbo.[` and `]`
      with only the blank check in front of it. */
  function TableDataCommand(cs: ConnectionSettings, databaseName: string, tableName: string, maxRows: Int32)
    : (r: Result<Command, Failure>)
    ensures r.Failure? <==> IsBlank(databaseName) || IsBlank(tableName) || maxRows <= 0
    ensures r.Failure? && !IsBlank(databaseName) && !IsBlank(tableName) ==>
              r.error == ArgumentOutOfRangeException("maxRows", MaxRowsNotPositive)
    ensures r.Failure? && (IsBlank(databaseName) || IsBlank(tableName)) ==>
              r.error == RequireDatabaseAndTable(databaseName, tableName).error
    ensures r.Success? ==> && r.value.connection.initialCatalog == databaseName
                           && r.value.parameters == [Parameter("@MaxRows", Int32Value(maxRows))]
                           && |r.value.sql| == |TableDataHead| + |tableName| + |TableDataTail|
                           && r.value.sql[..|TableDataHead|] == TableDataHead
                           && r.value.sql[|TableDataHead|..|TableDataHead| + |tableName|] == tableName
  {
    match RequireDatabaseAndTable(databaseName, tableName)
    case Fail(e) => Failure(e)
    case Pass =>
      if maxRows <= 0 then Failure(ArgumentOutOfRangeException("maxRows", MaxRowsNotPositive))
      else
        var sql := TableDataHead + tableName + TableDataTail;
        assert sql[|TableDataHead|..|TableDataHead| + |tableName|] == tableName;
        Success(Command(BuildConnectionString(cs, Some(databaseName)), sql,
                        [Parameter("@MaxRows", Int32Value(maxRows))]))
  }

  /** Unlike the database names of the raw SQL service, a table name holding `]` is accepted
      and closes the bracketed identifier early: the server reads a different identifier
      followed by whatever the rest of the name says. */
  lemma TableNameIsNotGuarded(cs: ConnectionSettings, databaseName: string, tableName: string, maxRows: Int32)
    requires !IsBlank(databaseName) && !IsBlank(tableName) && maxRows > 0
    requires ']' in tableName
    ensures TableDataCommand(cs, databaseName, tableName, maxRows).Success?
    ensures var sql := TableDataCommand(cs, databaseName, tableName, maxRows).value.sql;
      TakeUntil(sql[|TableDataHead|..], ']') != tableName
  {
  }

  // ---------------------------------------------------------------------------------------
  // Introspection folds

  /** One row of the column metadata query. */
  datatype ColumnMetadata = ColumnMetadata(columnName: string, typeName: string, maxLength: Int16, precision: Byte, scale: Byte)

  function FormatColumn(row: ColumnMetadata): string {
    FormatSqlType(row.typeName, row.maxLength, row.precision, row.scale)
  }

  /** The dictionary that assigning `result[columnName] = formattedType` row by row builds. */
  function ColumnTypesOf(rows: seq<ColumnMetadata>): CiDictionary<string> {
    if |rows| == 0 then CiDictionary([])
    else ColumnTypesOf(rows[..|rows| - 1]).Set(rows[|rows| - 1].columnName, FormatColumn(rows[|rows| - 1]))
  }

  function ColumnNamesOf(rows: seq<ColumnMetadata>): (names: seq<string>)
    ensures |names| == |rows|
    ensures forall i | 0 <= i < |rows| :: names[i] == rows[i].columnName
  {
    seq(|rows|, i requires 0 <= i < |rows| => rows[i].columnName)
  }

  /** The index of the last row whose column name equals `name` ignoring case. */
  function LastRowFor(rows: seq<ColumnMetadata>, name: string): (r: Option<nat>)
    ensures r.Some? ==> r.value < |rows| && EqualsIgnoreCase(rows[r.value].columnName, name)
    ensures r.Some? ==> forall j | r.value < j < |rows| :: !EqualsIgnoreCase(rows[j].columnName, name)
    ensures r.None? ==> forall j | 0 <= j < |rows| :: !EqualsIgnoreCase(rows[j].columnName, name)
  {
    if |rows| == 0 then None
    else if EqualsIgnoreCase(rows[|rows| - 1].columnName, name) then Some(|rows| - 1)
    else LastRowFor(rows[..|rows| - 1], name)
  }

  /** The folded dictionary's keys are the column names, each in the casing it first
      appeared, and no two of them differ only in case. */
  lemma {:induction false} ColumnTypesShape(rows: seq<ColumnMetadata>)
    ensures ColumnTypesOf(rows).Valid()
    ensures ColumnTypesOf(rows).Keys() == SetOf(ColumnNamesOf(rows)).items
  {
    if |rows| > 0 {
      var init := rows[..|rows| - 1];
      var last := rows[|rows| - 1];
      var d := ColumnTypesOf(init);
      ColumnTypesShape(init);
      SetThenLookup(d, last.columnName, FormatColumn(last), last.columnName);
      assert ColumnNamesOf(rows)[..|rows| - 1] == ColumnNamesOf(init);
      var known := SetOf(ColumnNamesOf(init));
      assert d.TryGetValue(last.columnName).Some? <==> known.Contains(last.columnName) by {
        if d.TryGetValue(last.columnName).None? {
          assert forall j | 0 <= j < |d.Keys()| :: !Matches(d.Keys()[j], last.columnName, true);
        }
      }
    }
  }

  /** Looking a column up in the folded dictionary finds the type of the last row that
      named it in any casing (later rows overwrite earlier ones), and nothing for a name no
      row carries. */
  lemma {:induction false} ColumnTypesLookup(rows: seq<ColumnMetadata>, probe: string)
    ensures ColumnTypesOf(rows).TryGetValue(probe) ==
              match LastRowFor(rows, probe)
              case Some(i) => Some(FormatColumn(rows[i]))
              case None => None
  {
    if |rows| > 0 {
      var init := rows[..|rows| - 1];
      var last := rows[|rows| - 1];
      ColumnTypesLookup(init, probe);
      ColumnTypesShape(init);
      SetThenLookup(ColumnTypesOf(init), last.columnName, FormatColumn(last), probe);
    }
  }

  /** The dictionary-filling loop of `GetColumnDataTypesAsync`. */
  method CollectColumnTypes(reader: seq<ColumnMetadata>) returns (result: CiDictionary<string>)
    ensures result == ColumnTypesOf(reader)
  {
    result := CiDictionary([]);
    var i := 0;
    while i < |reader|
      invariant 0 <= i <= |reader|
      invariant result == ColumnTypesOf(reader[..i])
    {
      assert reader[..i + 1][..i] == reader[..i];
      result := result.Set(reader[i].columnName, FormatColumn(reader[i]));
      i := i + 1;
    }
    assert reader[..i] == reader;
  }

  /** `GetColumnDataTypesAsync` against a server whose metadata query yields `reader`. */
  method GetColumnDataTypes(cs: ConnectionSettings, databaseName: string, tableName: string, reader: seq<ColumnMetadata>)
    returns (command: Result<Command, Failure>, result: Result<CiDictionary<string>, Failure>)
    ensures command == MetadataCommand(cs, databaseName, tableName, ColumnTypesSql)
    ensures command.Failure? ==> result == Failure(command.error)
    ensures command.Success? ==> result == Success(ColumnTypesOf(reader))
  {
    command := MetadataCommand(cs, databaseName, tableName, ColumnTypesSql);
    if command.Failure? {
      return command, Failure(command.error);
    }
    var types := CollectColumnTypes(reader);
    result := Success(types);
  }

  /** The set-filling loop shared by the key-column queries and the table screen's
      `LoadPrimaryKeyColumnsAsync`. */
  method CollectNames(reader: seq<string>) returns (result: CiSet)
    ensures result == SetOf(reader)
  {
    result := EmptySet;
    var i := 0;
    while i < |reader|
      invariant 0 <= i <= |reader|
      invariant result == SetOf(reader[..i])
    {
      assert reader[..i + 1][..i] == reader[..i];
      result := result.Add(reader[i]);
      i := i + 1;
    }
    assert reader[..i] == reader;
  }

  /** `GetPrimaryKeyColumnsAsync` against a server whose key query yields `reader`. */
  method GetPrimaryKeyColumns(cs: ConnectionSettings, databaseName: string, tableName: string, reader: seq<string>)
    returns (command: Result<Command, Failure>, result: Result<CiSet, Failure>)
    ensures command == MetadataCommand(cs, databaseName, tableName, PrimaryKeySql)
    ensures command.Failure? ==> result == Failure(command.error)
    ensures command.Success? ==> result == Success(SetOf(reader))
  {
    command := MetadataCommand(cs, databaseName, tableName, PrimaryKeySql);
    if command.Failure? {
      return command, Failure(command.error);
    }
    var names := CollectNames(reader);
    result := Success(names);
  }

  /** `GetForeignKeyColumnsAsync` against a server whose key query yields `reader`. */
  method GetForeignKeyColumns(cs: ConnectionSettings, databaseName: string, tableName: string, reader: seq<string>)
    returns (command: Result<Command, Failure>, result: Result<CiSet, Failure>)
    ensures command == MetadataCommand(cs, databaseName, tableName, ForeignKeySql)
    ensures command.Failure? ==> result == Failure(command.error)
    ensures command.Success? ==> result == Success(SetOf(reader))
  {
    command := MetadataCommand(cs, databaseName, tableName, ForeignKeySql);
    if command.Failure? {
      return command, Failure(command.error);
    }
    var names := CollectNames(reader);
    result := Success(names);
  }

  /** `GetDatabasesAsync` of the EF service: the same master scope and the same filtered,
      ordered listing as the raw SQL service. */
  function GetDatabases(cs: ConnectionSettings, catalog: seq<string>): (r: (ConnectionSettings, seq<string>))
    ensures r.0 == SqlServerAdmin.BuildMasterConnectionString(cs)
    ensures r.1 == SqlServerAdmin.DatabaseListing(catalog)
  {
    (BuildConnectionString(cs, None), SqlServerAdmin.DatabaseListing(catalog))
  }
}
