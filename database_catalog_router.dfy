/**
  `DatabaseCatalogRouter`: the catalog service that lists databases through the SQL or
  the EF catalog backend, chosen by the mode it reads at each call.
*/
module DatabaseCatalogRouter {
  import opened Wrappers
  import opened Text
  import opened Failures
  import opened DataAccessModeState
  import opened DataAccessRouter

  /** A catalog backend (`SqlDatabaseCatalogService` or `EfDatabaseCatalogService`). */
  datatype CatalogService = CatalogService(
    providerName: string,
    getDatabases: string -> Result<DataAccessResult<seq<string>>, Failure>)

  ghost predicate StampsDatabases(s: CatalogService) {
    forall cs :: s.getDatabases(cs).Success? ==> s.getDatabases(cs).value.provider == s.providerName
  }

  class DatabaseCatalogRouter {
    const modeService: DataAccessModeService
    const sqlCatalogService: CatalogService
    const efCatalogService: CatalogService

    ghost predicate Valid() {
      && sqlCatalogService.providerName == SqlProviderName && StampsDatabases(sqlCatalogService)
      && efCatalogService.providerName == EfProviderName && StampsDatabases(efCatalogService)
    }

    constructor (modeService: DataAccessModeService, sqlCatalogService: CatalogService, efCatalogService: CatalogService)
      ensures this.modeService == modeService
      ensures this.sqlCatalogService == sqlCatalogService && this.efCatalogService == efCatalogService
    {
      this.modeService := modeService;
      this.sqlCatalogService := sqlCatalogService;
      this.efCatalogService := efCatalogService;
    }

    function GetActiveService(): CatalogService
      reads modeService
    {
      Select(modeService.currentMode, sqlCatalogService, efCatalogService)
    }

    function ProviderName(): string
      reads modeService
    {
      GetActiveService().providerName
    }

    function GetDatabases(connectionString: string): Result<DataAccessResult<seq<string>>, Failure>
      reads modeService
    {
      GetActiveService().getDatabases(connectionString)
    }
  }

  /** Mode `Ef` lists through EF, every other mode through SQL; the connection string is
      passed on as given and the result comes back untouched, stamped with the provider
      name the router reports. */
  lemma CatalogFollowsMode(router: DatabaseCatalogRouter, cs: string)
    requires router.Valid()
    ensures router.ProviderName() == (if router.modeService.currentMode == Ef then "EF" else "SQL")
    ensures router.GetDatabases(cs) ==
              if router.modeService.currentMode == Ef then router.efCatalogService.getDatabases(cs)
              else router.sqlCatalogService.getDatabases(cs)
    ensures router.GetDatabases(cs).Success? ==> router.GetDatabases(cs).value.provider == router.ProviderName()
  {
  }

  /** Both routers read the same mode service, so they always agree on the provider. */
  lemma RoutersAgree(data: DataAccessRouterService, catalog: DatabaseCatalogRouter)
    requires data.Valid() && catalog.Valid() && data.modeService == catalog.modeService
    ensures data.ProviderName() == catalog.ProviderName()
  {
  }
}
