/**
  `DataAccessRouterService`: the data-access service the screens talk to. It sends every
  call to the SQL or the EF backend according to the mode it reads at that moment, and
  hands back what that backend returned.
*/
module DataAccessRouter {
  import opened Wrappers
  import opened Text
  import opened Failures
  import opened Values
  import opened DataAccessModeState

  /** `DataAccessResult<T>`: the data together with the name of the provider that read it. */
  datatype DataAccessResult<T> = DataAccessResult(provider: string, data: T)

  const SqlProviderName: string := "SQL"
  const EfProviderName: string := "EF"

  /**
    One backend (`SqlDataAccessService` or `EfDataAccessService`) as the router sees it: its
    provider name and its six operations, each a function of its arguments that returns
    the backend's result or the exception it throws. Key columns come back in the order
    the backend's collection enumerates them.
  */
  datatype DataAccessService = DataAccessService(
    providerName: string,
    getDatabases: string -> Result<DataAccessResult<seq<string>>, Failure>,
    getTables: (string, string) -> Result<DataAccessResult<seq<string>>, Failure>,
    getColumnDataTypes: (string, string, string) -> Result<DataAccessResult<seq<(string, string)>>, Failure>,
    getPrimaryKeyColumns: (string, string, string) -> Result<DataAccessResult<seq<string>>, Failure>,
    getForeignKeyColumns: (string, string, string) -> Result<DataAccessResult<seq<string>>, Failure>,
    getTableData: (string, string, string, Int32) -> Result<DataAccessResult<DataTable>, Failure>)

  /** Both backends stamp every result they return with their own provider name. */
  ghost predicate StampsResults(s: DataAccessService) {
    && (forall cs :: s.getDatabases(cs).Success? ==> s.getDatabases(cs).value.provider == s.providerName)
    && (forall cs, db :: s.getTables(cs, db).Success? ==> s.getTables(cs, db).value.provider == s.providerName)
    && (forall cs, db, t :: s.getColumnDataTypes(cs, db, t).Success? ==>
          s.getColumnDataTypes(cs, db, t).value.provider == s.providerName)
    && (forall cs, db, t :: s.getPrimaryKeyColumns(cs, db, t).Success? ==>
          s.getPrimaryKeyColumns(cs, db, t).value.provider == s.providerName)
    && (forall cs, db, t :: s.getForeignKeyColumns(cs, db, t).Success? ==>
          s.getForeignKeyColumns(cs, db, t).value.provider == s.providerName)
    && (forall cs, db, t, n :: s.getTableData(cs, db, t, n).Success? ==>
          s.getTableData(cs, db, t, n).value.provider == s.providerName)
  }

  /** The backend a mode selects: EF for `Ef`, SQL for every other mode. */
  function Select<S>(mode: DataAccessMode, sql: S, ef: S): S {
    if mode == Ef then ef else sql
  }

  class DataAccessRouterService {
    const modeService: DataAccessModeService
    const sqlService: DataAccessService
    const efService: DataAccessService

    /** The two backends are the ones the application registers. */
    ghost predicate Valid() {
      && sqlService.providerName == SqlProviderName && StampsResults(sqlService)
      && efService.providerName == EfProviderName && StampsResults(efService)
    }

    constructor (modeService: DataAccessModeService, sqlService: DataAccessService, efService: DataAccessService)
      ensures this.modeService == modeService && this.sqlService == sqlService && this.efService == efService
    {
      this.modeService := modeService;
      this.sqlService := sqlService;
      this.efService := efService;
    }

    /** `GetActiveService`, evaluated against the mode as it is now. */
    function GetActiveService(): DataAccessService
      reads modeService
    {
      Select(modeService.currentMode, sqlService, efService)
    }

    function ProviderName(): string
      reads modeService
    {
      GetActiveService().providerName
    }

    function GetDatabases(connectionString: string): Result<DataAccessResult<seq<string>>, Failure>
      reads modeService
    {
      GetActiveService().getDatabases(connectionString)
    }

    function GetTables(connectionString: string, databaseName: string): Result<DataAccessResult<seq<string>>, Failure>
      reads modeService
    {
      GetActiveService().getTables(connectionString, databaseName)
    }

    function GetColumnDataTypes(connectionString: string, databaseName: string, tableName: string)
      : Result<DataAccessResult<seq<(string, string)>>, Failure>
      reads modeService
    {
      GetActiveService().getColumnDataTypes(connectionString, databaseName, tableName)
    }

    function GetPrimaryKeyColumns(connectionString: string, databaseName: string, tableName: string)
      : Result<DataAccessResult<seq<string>>, Failure>
      reads modeService
    {
      GetActiveService().getPrimaryKeyColumns(connectionString, databaseName, tableName)
    }

    function GetForeignKeyColumns(connectionString: string, databaseName: string, tableName: string)
      : Result<DataAccessResult<seq<string>>, Failure>
      reads modeService
    {
      GetActiveService().getForeignKeyColumns(connectionString, databaseName, tableName)
    }

    function GetTableData(connectionString: string, databaseName: string, tableName: string, maxRows: Int32)
      : Result<DataAccessResult<DataTable>, Failure>
      reads modeService
    {
      GetActiveService().getTableData(connectionString, databaseName, tableName, maxRows)
    }
  }

  /** The provider name is "EF" exactly in mode `Ef` and "SQL" in every other mode; the
      case-insensitive test the screens apply to it therefore reads the mode back. */
  lemma ProviderNameFollowsMode(router: DataAccessRouterService)
    requires router.Valid()
    ensures router.ProviderName() == (if router.modeService.currentMode == Ef then "EF" else "SQL")
    ensures EqualsIgnoreCase(router.ProviderName(), "EF") <==> router.modeService.currentMode == Ef
  {
    if router.modeService.currentMode != Ef {
      assert |FoldString("SQL")| != |FoldString("EF")|;
    }
  }

  /** Every call goes, with the same arguments, to the backend the current mode selects,
      and returns that backend's result untouched. */
  lemma ForwardsToSelectedBackend(router: DataAccessRouterService, cs: string, db: string, t: string, n: Int32)
    ensures var b := if router.modeService.currentMode == Ef then router.efService else router.sqlService;
      && router.GetDatabases(cs) == b.getDatabases(cs)
      && router.GetTables(cs, db) == b.getTables(cs, db)
      && router.GetColumnDataTypes(cs, db, t) == b.getColumnDataTypes(cs, db, t)
      && router.GetPrimaryKeyColumns(cs, db, t) == b.getPrimaryKeyColumns(cs, db, t)
      && router.GetForeignKeyColumns(cs, db, t) == b.getForeignKeyColumns(cs, db, t)
      && router.GetTableData(cs, db, t, n) == b.getTableData(cs, db, t, n)
  {
  }

  /** Whatever the mode, a result the router returns carries the provider name the router
      reports at that moment. */
  lemma ResultsCarryProviderName(router: DataAccessRouterService, cs: string, db: string, t: string, n: Int32)
    requires router.Valid()
    ensures router.GetDatabases(cs).Success? ==> router.GetDatabases(cs).value.provider == router.ProviderName()
    ensures router.GetTables(cs, db).Success? ==> router.GetTables(cs, db).value.provider == router.ProviderName()
    ensures router.GetColumnDataTypes(cs, db, t).Success? ==>
              router.GetColumnDataTypes(cs, db, t).value.provider == router.ProviderName()
    ensures router.GetPrimaryKeyColumns(cs, db, t).Success? ==>
              router.GetPrimaryKeyColumns(cs, db, t).value.provider == router.ProviderName()
    ensures router.GetForeignKeyColumns(cs, db, t).Success? ==>
              router.GetForeignKeyColumns(cs, db, t).value.provider == router.ProviderName()
    ensures router.GetTableData(cs, db, t, n).Success? ==>
              router.GetTableData(cs, db, t, n).value.provider == router.ProviderName()
  {
  }

  /** A router over a freshly created mode service talks to SQL. */
  method NewRouterUsesSql(sqlService: DataAccessService, efService: DataAccessService)
    returns (router: DataAccessRouterService)
    requires sqlService.providerName == SqlProviderName && StampsResults(sqlService)
    requires efService.providerName == EfProviderName && StampsResults(efService)
    ensures router.Valid() && router.ProviderName() == SqlProviderName
    ensures forall cs :: router.GetDatabases(cs) == sqlService.getDatabases(cs)
  {
    var modes := new DataAccessModeService();
    router := new DataAccessRouterService(modes, sqlService, efService);
  }
}
