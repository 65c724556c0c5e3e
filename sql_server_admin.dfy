/**
  The raw-SQL admin service: the identifier guard that is the only protection of the
  statements it builds by interpolation, the master-scoped connection, the text of the
  CREATE DATABASE and DROP DATABASE statements, and the database listing.
*/
module SqlServerAdmin {
  import opened Wrappers
  import opened Text
  import opened Failures
  import opened Connection

  /** A statement run with `ExecuteNonQueryAsync` on a connection opened for it alone. */
  datatype NonQuery = NonQuery(connection: ConnectionSettings, sql: string)

  /** `BuildMasterConnectionString`: administrative work always targets `master` and never
      attaches a database file; every other setting is kept as parsed. */
  function BuildMasterConnectionString(cs: ConnectionSettings): (r: ConnectionSettings)
    ensures r.initialCatalog == MasterCatalog && r.attachDbFilename == ""
    ensures r.otherSettings == cs.otherSettings
  {
    cs.(initialCatalog := MasterCatalog, attachDbFilename := "")
  }

  /** The master scope does not depend on the catalog or file the caller named, and
      rescoping is idempotent. */
  lemma MasterScopeIgnoresTarget(a: ConnectionSettings, b: ConnectionSettings)
    requires a.otherSettings == b.otherSettings
    ensures BuildMasterConnectionString(a) == BuildMasterConnectionString(b)
    ensures BuildMasterConnectionString(BuildMasterConnectionString(a)) == BuildMasterConnectionString(a)
  {
  }

  // ---------------------------------------------------------------------------------------
  // The identifier guard

  const EmptyNameMessage: string := "Name must not be empty."
  const BadCharacterMessage: string := "Only letters, digits and underscore are allowed."

  /** The length of the longest prefix of `s` made of `[A-Za-z0-9_]`. */
  function WordRunLength(s: string): (n: nat)
    ensures n <= |s| && IsWord(s[..n])
    ensures n < |s| ==> !IsWordChar(s[n])
  {
    if |s| == 0 || !IsWordChar(s[0]) then 0
    else
      var n := 1 + WordRunLength(s[1..]);
      assert s[..n] == [s[0]] + s[1..][..n - 1];
      n
  }

  /** `Regex.IsMatch(name, "^[A-Za-z0-9_]+$")`. The greedy run must reach the end of the
      input, or stop just before a final line feed: in .NET `$` also matches there. */
  predicate MatchesIdentifierPattern(name: string) {
    var n := WordRunLength(name);
    n >= 1 && (n == |name| || (n == |name| - 1 && name[n] == '\n'))
  }

  /** `EnsureSafeIdentifier`: blank names first, then the character pattern. */
  function EnsureSafeIdentifier(name: string): Outcome<Failure> {
    if IsBlank(name) then Fail(ArgumentException("name", EmptyNameMessage))
    else if !MatchesIdentifierPattern(name) then Fail(ArgumentException("name", BadCharacterMessage))
    else Pass
  }

  /** The names the guard accepts, stated without the regular expression: a non-empty run of
      `[A-Za-z0-9_]`, optionally followed by one line feed. */
  predicate IsAcceptedName(name: string) {
    || (|name| >= 1 && IsWord(name))
    || (|name| >= 2 && IsWord(name[..|name| - 1]) && name[|name| - 1] == '\n')
  }

  lemma {:induction false} WordRunOfWord(s: string)
    requires IsWord(s)
    ensures WordRunLength(s) == |s|
  {
    if |s| > 0 {
      WordRunOfWord(s[1..]);
    }
  }

  lemma {:induction false} WordRunOfWordThenNewline(w: string)
    requires IsWord(w)
    ensures WordRunLength(w + "\n") == |w|
  {
    if |w| > 0 {
      assert (w + "\n")[1..] == w[1..] + "\n";
      WordRunOfWordThenNewline(w[1..]);
    }
  }

  /** The guard passes exactly the accepted names; any other name fails with an
      `ArgumentException` on parameter `name`. */
  lemma GuardAcceptsExactly(name: string)
    ensures EnsureSafeIdentifier(name).Pass? <==> IsAcceptedName(name)
    ensures EnsureSafeIdentifier(name).Fail? ==> EnsureSafeIdentifier(name).error.ArgumentException?
    ensures EnsureSafeIdentifier(name).Fail? ==> EnsureSafeIdentifier(name).error.paramName == "name"
  {
    var n := WordRunLength(name);
    if IsAcceptedName(name) {
      if |name| >= 1 && IsWord(name) {
        WordRunOfWord(name);
        WordIsNotBlank(name);
      } else {
        var w := name[..|name| - 1];
        assert name == w + "\n";
        WordRunOfWordThenNewline(w);
        WordIsNotBlank(w);
        assert !IsBlank(name) by { assert !IsWhiteSpace(name[0]); }
      }
    }
    if EnsureSafeIdentifier(name).Pass? {
      assert name[..n] == name || name[..n] == name[..|name| - 1];
    }
  }

  /** A name that passes the guard holds none of the characters that end a bracketed
      identifier or a string literal, separate statements or separate tokens. */
  lemma AcceptedNameIsInert(name: string)
    requires EnsureSafeIdentifier(name).Pass?
    ensures ']' !in name && '\'' !in name && ';' !in name && ' ' !in name && '[' !in name
  {
    GuardAcceptsExactly(name);
    forall i | 0 <= i < |name|
      ensures name[i] != ']' && name[i] != '\'' && name[i] != ';' && name[i] != ' ' && name[i] != '['
    {
      if i < |name| - 1 || IsWord(name) {
        assert IsWordChar(name[i]) by {
          if !IsWord(name) {
            assert name[..|name| - 1][i] == name[i];
          }
        }
      }
    }
  }

  /** The pattern is looser than its comment ("only letters, digits and underscore"): a
      name ending in a line feed passes, a lone line feed is rejected as blank. */
  lemma TrailingLineFeedPasses()
    ensures EnsureSafeIdentifier("abc\n") == Pass
    ensures EnsureSafeIdentifier("\n") == Fail(ArgumentException("name", EmptyNameMessage))
    ensures EnsureSafeIdentifier("a-b") == Fail(ArgumentException("name", BadCharacterMessage))
  {
    GuardAcceptsExactly("abc\n");
    assert "abc\n"[..3] == "abc";
    assert !IsBlank("a-b") by { assert !IsWhiteSpace("a-b"[0]); }
    assert !IsAcceptedName("a-b") by {
      assert !IsWordChar("a-b"[1]);
      assert "a-b"[..2][1] == '-';
    }
    GuardAcceptsExactly("a-b");
  }

  // ---------------------------------------------------------------------------------------
  // CREATE DATABASE and DROP DATABASE

  const CreatePrefix: string := "CREATE DATABASE ["
  const CreateSuffix: string := "];"

  function CreateDatabaseSql(name: string): string {
    CreatePrefix + name + CreateSuffix
  }

  /** `CreateDatabaseAsync`: the guard runs before any statement is built or connection
      opened; an accepted name gives `CREATE DATABASE [name];` on the master scope. */
  function CreateDatabase(cs: ConnectionSettings, name: string): (r: Result<NonQuery, Failure>)
    ensures r.Failure? <==> EnsureSafeIdentifier(name).Fail?
    ensures r.Failure? ==> r.error == EnsureSafeIdentifier(name).error
    ensures r.Success? ==> r.value.connection == BuildMasterConnectionString(cs)
    ensures r.Success? ==> r.value.sql == "CREATE DATABASE [" + name + "];"
  {
    match EnsureSafeIdentifier(name)
    case Fail(e) => Failure(e)
    case Pass => Success(NonQuery(BuildMasterConnectionString(cs), CreateDatabaseSql(name)))
  }

  /** The server reads the bracketed identifier of the CREATE statement back as exactly the
      name that was validated: the interpolation cannot be closed early. */
  lemma CreateDatabaseQuotesName(cs: ConnectionSettings, name: string)
    requires CreateDatabase(cs, name).Success?
    ensures var sql := CreateDatabase(cs, name).value.sql;
      && sql[..|CreatePrefix|] == CreatePrefix
      && TakeUntil(sql[|CreatePrefix|..], ']') == name
  {
    AcceptedNameIsInert(name);
    var sql := CreateDatabaseSql(name);
    assert sql[|CreatePrefix|..] == name + "]" + ";";
    TakeUntilQuoted(name, ']', ";");
  }

  const DropOpen: string := "\nIF DB_ID(N'"
  const DropExistsThenAlter: string := ") IS NOT NULL\nBEGIN\n    ALTER DATABASE ["
  const DropAlterThenDrop: string := " SET SINGLE_USER WITH ROLLBACK IMMEDIATE;\n    DROP DATABASE ["
  const DropClose: string := ";\nEND"

  function DeleteDatabaseSql(name: string): string {
    DropBatch(DropOpen, DropExistsThenAlter, DropAlterThenDrop, DropClose, name)
  }

  /** The DROP batch with its fixed texts as parameters. */
  function DropBatch(open: string, alter: string, drop: string, close: string, name: string): string {
    open + name + "'" + alter + name + "]" + drop + name + "]" + close
  }

  /** `DeleteDatabaseAsync`: the guard runs first; an accepted name gives the batch that,
      only when `DB_ID(N'name')` is not null, forces single-user mode with immediate
      rollback and then drops the database, on the master scope. */
  function DeleteDatabase(cs: ConnectionSettings, name: string): (r: Result<NonQuery, Failure>)
    ensures r.Failure? <==> EnsureSafeIdentifier(name).Fail?
    ensures r.Failure? ==> r.error == EnsureSafeIdentifier(name).error
    ensures r.Success? ==> r.value.connection == BuildMasterConnectionString(cs)
    ensures r.Success? ==> r.value.sql == DeleteDatabaseSql(name)
  {
    match EnsureSafeIdentifier(name)
    case Fail(e) => Failure(e)
    case Pass => Success(NonQuery(BuildMasterConnectionString(cs), DeleteDatabaseSql(name)))
  }

  /** A DROP batch reads back as `name` in all three places it is interpolated: after
      `open` up to the closing quote of the `N'...'` literal, and after `alter` and after
      `drop` up to the closing bracket, each fixed text standing where it was put. */
  ghost predicate ReadsBackDrop(sql: string, open: string, alter: string, drop: string, name: string) {
    var literalAt := |open|;
    var alterAt := literalAt + |name| + 1 + |alter|;
    var dropAt := alterAt + |name| + 1 + |drop|;
    && dropAt <= |sql|
    && sql[..literalAt] == open
    && TakeUntil(sql[literalAt..], '\'') == name
    && sql[alterAt - |alter|..alterAt] == alter
    && TakeUntil(sql[alterAt..], ']') == name
    && sql[dropAt - |drop|..dropAt] == drop
    && TakeUntil(sql[dropAt..], ']') == name
  }

  /** All three interpolations of the DROP batch read back as the validated name: the
      `N'...'` literal of the existence check and both bracketed identifiers. */
  lemma DeleteDatabaseQuotesName(cs: ConnectionSettings, name: string)
    requires DeleteDatabase(cs, name).Success?
    ensures ReadsBackDrop(DeleteDatabase(cs, name).value.sql, DropOpen, DropExistsThenAlter, DropAlterThenDrop, name)
  {
    AcceptedNameIsInert(name);
    DropBatchReadsBack(DropOpen, DropExistsThenAlter, DropAlterThenDrop, DropClose, name);
  }

  /** A name without a quote or a closing bracket reads back from any DROP batch. */
  lemma DropBatchReadsBack(open: string, alter: string, drop: string, close: string, name: string)
    requires '\'' !in name && ']' !in name
    ensures ReadsBackDrop(DropBatch(open, alter, drop, close, name), open, alter, drop, name)
  {
    ReadsExistenceLiteral(open, alter, drop, close, name);
    ReadsAlterTarget(open, alter, drop, close, name);
    ReadsDropTarget(open, alter, drop, close, name);
  }

  // The DROP batch's shape with its fixed text abstracted away, one interpolation at a time.

  lemma ReadsExistenceLiteral(open: string, alter: string, drop: string, close: string, name: string)
    requires '\'' !in name
    ensures var sql := open + name + "'" + alter + name + "]" + drop + name + "]" + close;
      sql[..|open|] == open && TakeUntil(sql[|open|..], '\'') == name
  {
    var sql := open + name + "'" + alter + name + "]" + drop + name + "]" + close;
    var tail := alter + name + "]" + drop + name + "]" + close;
    assert sql == "" + open + name + ['\''] + tail;
    QuotedAfter("", open, name, '\'', tail);
  }

  lemma ReadsAlterTarget(open: string, alter: string, drop: string, close: string, name: string)
    requires ']' !in name
    ensures var sql := open + name + "'" + alter + name + "]" + drop + name + "]" + close;
      var at := |open| + |name| + 1 + |alter|;
      sql[at - |alter|..at] == alter && TakeUntil(sql[at..], ']') == name
  {
    var sql := open + name + "'" + alter + name + "]" + drop + name + "]" + close;
    var head := open + name + "'";
    var tail := drop + name + "]" + close;
    assert sql == head + alter + name + [']'] + tail;
    QuotedAfter(head, alter, name, ']', tail);
  }

  lemma ReadsDropTarget(open: string, alter: string, drop: string, close: string, name: string)
    requires ']' !in name
    ensures var sql := open + name + "'" + alter + name + "]" + drop + name + "]" + close;
      var at := |open| + |name| + 1 + |alter| + |name| + 1 + |drop|;
      sql[at - |drop|..at] == drop && TakeUntil(sql[at..], ']') == name
  {
    var sql := open + name + "'" + alter + name + "]" + drop + name + "]" + close;
    var head := open + name + "'" + alter + name + "]";
    assert sql == head + drop + name + [']'] + close;
    QuotedAfter(head, drop, name, ']', close);
  }

  // ---------------------------------------------------------------------------------------
  // Listing databases

  /** The four system databases the listing query excludes. */
  const SystemDatabases: seq<string> := ["master", "model", "msdb", "tempdb"]

  /** `[name] NOT IN ('master', 'model', 'msdb', 'tempdb')` under a case-insensitive
      collation. */
  predicate IsSystemDatabase(name: string) {
    exists k | 0 <= k < |SystemDatabases| :: EqualsIgnoreCase(name, SystemDatabases[k])
  }

  function WithoutSystemDatabases(names: seq<string>): (r: seq<string>)
    ensures forall i | 0 <= i < |r| :: !IsSystemDatabase(r[i])
    ensures multiset(r) <= multiset(names)
    ensures forall x :: x in names && !IsSystemDatabase(x) ==> x in r
  {
    if |names| == 0 then []
    else if IsSystemDatabase(names[0]) then
      assert names == [names[0]] + names[1..];
      WithoutSystemDatabases(names[1..])
    else
      assert names == [names[0]] + names[1..];
      [names[0]] + WithoutSystemDatabases(names[1..])
  }

  /** `ORDER BY [name]` under a case-insensitive collation: code-unit order of the folded
      names. */
  predicate NameLessOrEqual(a: string, b: string) {
    LexLessOrEqual(FoldString(a), FoldString(b))
  }

  ghost predicate SortedByName(s: seq<string>) {
    forall i, j | 0 <= i < j < |s| :: NameLessOrEqual(s[i], s[j])
  }

  function InsertByName(x: string, s: seq<string>): (r: seq<string>)
    requires SortedByName(s)
    ensures SortedByName(r)
    ensures multiset(r) == multiset(s) + multiset{x}
  {
    if |s| == 0 then [x]
    else if NameLessOrEqual(x, s[0]) then
      assert forall j | 0 <= j < |s| :: NameLessOrEqual(x, s[j]) by {
        forall j | 0 <= j < |s| ensures NameLessOrEqual(x, s[j]) {
          if j > 0 {
            LexTransitive(FoldString(x), FoldString(s[0]), FoldString(s[j]));
          }
        }
      }
      [x] + s
    else
      var rest := InsertByName(x, s[1..]);
      LexTotal(FoldString(x), FoldString(s[0]));
      assert multiset(rest) == multiset(s[1..]) + multiset{x};
      assert forall k | 0 <= k < |rest| :: NameLessOrEqual(s[0], rest[k]) by {
        forall k | 0 <= k < |rest| ensures NameLessOrEqual(s[0], rest[k]) {
          assert rest[k] in multiset(rest);
          assert rest[k] == x || rest[k] in s[1..];
        }
      }
      assert s == [s[0]] + s[1..];
      [s[0]] + rest
  }

  function SortByName(s: seq<string>): (r: seq<string>)
    ensures SortedByName(r)
    ensures multiset(r) == multiset(s)
  {
    if |s| == 0 then []
    else
      assert s == s[..|s| - 1] + [s[|s| - 1]];
      InsertByName(s[|s| - 1], SortByName(s[..|s| - 1]))
  }

  /** What the listing query returns for a server whose catalog holds `catalog`. */
  function DatabaseListing(catalog: seq<string>): seq<string> {
    SortByName(WithoutSystemDatabases(catalog))
  }

  /** The listing holds every user database of the catalog and no system database, as a
      rearrangement of the catalog's entries, ordered by name. */
  lemma DatabaseListingSpec(catalog: seq<string>)
    ensures var r := DatabaseListing(catalog);
      && SortedByName(r)
      && multiset(r) <= multiset(catalog)
      && (forall x :: x in r <==> x in catalog && !IsSystemDatabase(x))
  {
    var filtered := WithoutSystemDatabases(catalog);
    var r := DatabaseListing(catalog);
    forall x ensures x in r <==> x in catalog && !IsSystemDatabase(x) {
      assert x in r <==> x in multiset(r);
      assert x in filtered <==> x in multiset(filtered);
      if x in filtered {
        assert x in multiset(catalog);
        var i :| 0 <= i < |filtered| && filtered[i] == x;
      }
    }
  }

  /** `GetDatabasesAsync`: opens the master scope and appends each name the reader yields,
      in the order the server sends them. */
  method GetDatabases(cs: ConnectionSettings, catalog: seq<string>)
    returns (connection: ConnectionSettings, result: seq<string>)
    ensures connection == BuildMasterConnectionString(cs)
    ensures result == DatabaseListing(catalog)
  {
    connection := BuildMasterConnectionString(cs);
    var reader := DatabaseListing(catalog);
    result := [];
    var i := 0;
    while i < |reader|
      invariant 0 <= i <= |reader|
      invariant result == reader[..i]
    {
      result := result + [reader[i]];
      i := i + 1;
    }
  }
}
