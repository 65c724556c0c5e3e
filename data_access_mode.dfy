/**
  The data-access mode the user picks, held by one shared service that both routers read
  on every call.
*/
module DataAccessModeState {

  /** `DataAccessMode`: raw SQL through SqlClient, or EF Core. */
  datatype DataAccessMode = Sql | Ef

  /** `DataAccessModeService`: a settable current mode that starts at `Sql`. */
  class DataAccessModeService {
    var currentMode: DataAccessMode

    constructor ()
      ensures currentMode == Sql
    {
      currentMode := Sql;
    }

    /** The `CurrentMode` setter. */
    method SetMode(mode: DataAccessMode)
      modifies this
      ensures currentMode == mode
    {
      currentMode := mode;
    }
  }
}
