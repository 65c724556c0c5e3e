/**
  A connection string, as the `SqlConnectionStringBuilder` that parses it exposes it: the
  two settings the modelled code writes, and every other keyword with its value.
*/
module Connection {

  datatype ConnectionSettings = ConnectionSettings(
    initialCatalog: string,
    attachDbFilename: string,
    otherSettings: map<string, string>)

  /** The administrative root database that server-wide operations connect to. */
  const MasterCatalog: string := "master"
}
