/** MySQLUserManager: the privileges that a server of some version supports on each kind of object. */
module MySQLUserManager {
  import opened UserManager

  const GRANT := "GRANT"

  /** A privilege known from some version on. */
  function Since(version: int, first: int, name: string): seq<string>
  {
    if version >= first then [name] else []
  }

  function ReadGlobal(version: int): seq<string>
  {
    Since(version, 40002, "EXECUTE") + ["PROCESS", "SELECT"]
    + Since(version, 40002, "SHOW DATABASES") + Since(version, 50001, "SHOW VIEW")
  }

  // What can be written in a database, from ALTER to CREATE ROUTINE and from CREATE
  // TEMPORARY TABLES on; creating tablespaces is for the server alone and comes in between.
  function WriteFirst(version: int): seq<string>
  {
    ["ALTER"] + Since(version, 50003, "ALTER ROUTINE") + ["CREATE"] + Since(version, 50003, "CREATE ROUTINE")
  }

  function WriteLast(version: int): seq<string>
  {
    Since(version, 40002, "CREATE TEMPORARY TABLES") + Since(version, 50001, "CREATE VIEW") + ["DELETE", "DROP"]
    + Since(version, 50106, "EVENT") + ["INDEX", "INSERT", "REFERENCES"] + Since(version, 50106, "TRIGGER") + ["UPDATE"]
  }

  function WriteGlobal(version: int): seq<string>
  {
    WriteFirst(version) + Since(version, 50404, "CREATE TABLESPACE") + WriteLast(version)
  }

  function AdminGlobal(version: int): seq<string>
  {
    Since(version, 50003, "CREATE USER") + ["FILE", GRANT] + Since(version, 40002, "LOCK TABLES") + ["RELOAD"]
    + Since(version, 40002, "REPLICATION CLIENT") + Since(version, 40002, "REPLICATION SLAVE") + ["SHUTDOWN"]
    + Since(version, 40002, "SUPER")
  }

  function OnDatabases(version: int): seq<string>
  {
    Since(version, 40002, "EXECUTE") + ["SELECT"] + Since(version, 50001, "SHOW VIEW")
    + WriteFirst(version) + WriteLast(version) + [GRANT] + Since(version, 40002, "LOCK TABLES")
  }

  function OnTables(version: int): seq<string>
  {
    ["SELECT"] + Since(version, 50001, "SHOW VIEW") + ["ALTER", "CREATE"] + Since(version, 50001, "CREATE VIEW")
    + ["DELETE", "DROP", "INDEX", "INSERT", "REFERENCES"] + Since(version, 50106, "TRIGGER") + ["UPDATE", GRANT]
  }

  function OnRoutines(version: int): seq<string>
  {
    Since(version, 40002, "EXECUTE") + Since(version, 50003, "ALTER ROUTINE") + [GRANT]
  }

  const ON_COLUMNS := ["SELECT", "INSERT", "REFERENCES", "UPDATE"]

  function SupportedOn(version: int, t: Target): seq<string>
  {
    match t
    case Global => ReadGlobal(version) + WriteGlobal(version) + AdminGlobal(version)
    case OfDatabase(_) => OnDatabases(version)
    case OfTable(_, _) => OnTables(version)
    case OfColumn(_, _, _) => ON_COLUMNS
    case OfProcedure(_, _) => OnRoutines(version)
    case OfFunction(_, _) => OnRoutines(version)
  }

  // ---- the same by privilege ----

  datatype Scope = ForServer | ForDatabases | ForTables | ForColumns | ForRoutines

  function ScopeOf(t: Target): Scope
  {
    match t
    case Global => ForServer
    case OfDatabase(_) => ForDatabases
    case OfTable(_, _) => ForTables
    case OfColumn(_, _, _) => ForColumns
    case OfProcedure(_, _) => ForRoutines
    case OfFunction(_, _) => ForRoutines
  }

  /** The kinds of object that a privilege can be given on. */
  function ScopesOf(name: string): set<Scope>
  {
    if name == "GRANT" then {ForServer, ForDatabases, ForTables, ForRoutines}
    else if name in ["SELECT", "INSERT", "REFERENCES", "UPDATE"] then {ForServer, ForDatabases, ForTables, ForColumns}
    else if name in ["ALTER", "CREATE", "CREATE VIEW", "DELETE", "DROP", "INDEX", "SHOW VIEW", "TRIGGER"] then
      {ForServer, ForDatabases, ForTables}
    else if name in ["ALTER ROUTINE", "EXECUTE"] then {ForServer, ForDatabases, ForRoutines}
    else if name in ["CREATE ROUTINE", "CREATE TEMPORARY TABLES", "EVENT", "LOCK TABLES"] then
      {ForServer, ForDatabases}
    else if name in ["CREATE TABLESPACE", "CREATE USER", "FILE", "PROCESS", "RELOAD", "REPLICATION CLIENT",
                     "REPLICATION SLAVE", "SHOW DATABASES", "SHUTDOWN", "SUPER"] then {ForServer}
    else {}
  }

  /** Whether a server of the version knows a privilege. */
  predicate IsKnown(version: int, name: string)
  {
    if name in ["CREATE TEMPORARY TABLES", "EXECUTE", "LOCK TABLES", "REPLICATION CLIENT", "REPLICATION SLAVE",
                "SHOW DATABASES", "SUPER"] then version >= 40002
    else if name in ["CREATE VIEW", "SHOW VIEW"] then version >= 50001
    else if name in ["ALTER ROUTINE", "CREATE ROUTINE", "CREATE USER"] then version >= 50003
    else if name in ["EVENT", "TRIGGER"] then version >= 50106
    else name == "CREATE TABLESPACE" ==> version >= 50404
  }

  const READING := ["EXECUTE", "PROCESS", "SELECT", "SHOW DATABASES", "SHOW VIEW"]

  const WRITING := ["ALTER", "ALTER ROUTINE", "CREATE", "CREATE ROUTINE"]

  const ALSO_WRITING := ["CREATE TEMPORARY TABLES", "CREATE VIEW", "DELETE", "DROP", "EVENT", "INDEX", "INSERT",
                         "REFERENCES", "TRIGGER", "UPDATE"]

  const ADMINISTERING := ["CREATE USER", "FILE", "GRANT", "LOCK TABLES", "RELOAD", "REPLICATION CLIENT",
                          "REPLICATION SLAVE", "SHUTDOWN", "SUPER"]

  lemma ReadingIff(version: int, name: string)
    ensures name in ReadGlobal(version) <==> name in READING && IsKnown(version, name)
  {
  }

  lemma WritingIff(version: int, name: string)
    ensures name in WriteFirst(version) <==> name in WRITING && IsKnown(version, name)
  {
  }

  lemma AlsoWritingIff(version: int, name: string)
    ensures name in WriteLast(version) <==> name in ALSO_WRITING && IsKnown(version, name)
  {
  }

  lemma WritingOnServerIff(version: int, name: string)
    ensures name in WriteGlobal(version)
       <==> (name in WRITING || name == "CREATE TABLESPACE" || name in ALSO_WRITING) && IsKnown(version, name)
  {
    WritingIff(version, name);
    AlsoWritingIff(version, name);
  }

  lemma AdministeringIff(version: int, name: string)
    ensures name in AdminGlobal(version) <==> name in ADMINISTERING && IsKnown(version, name)
  {
  }

  lemma OfServer(name: string)
    ensures ForServer in ScopesOf(name)
       <==> name in READING || name in WRITING || name == "CREATE TABLESPACE" || name in ALSO_WRITING
            || name in ADMINISTERING
  {
  }

  lemma OfDatabases(name: string)
    ensures ForDatabases in ScopesOf(name)
       <==> name in ["EXECUTE", "SELECT", "SHOW VIEW", GRANT, "LOCK TABLES"] || name in WRITING || name in ALSO_WRITING
  {
  }

  lemma OnDatabasesIff(version: int, name: string)
    ensures name in OnDatabases(version) <==> ForDatabases in ScopesOf(name) && IsKnown(version, name)
  {
    WritingIff(version, name);
    AlsoWritingIff(version, name);
    OfDatabases(name);
  }

  lemma OnTablesIff(version: int, name: string)
    ensures name in OnTables(version) <==> ForTables in ScopesOf(name) && IsKnown(version, name)
  {
  }

  lemma OnColumnsIff(version: int, name: string)
    ensures name in ON_COLUMNS <==> ForColumns in ScopesOf(name) && IsKnown(version, name)
  {
  }

  lemma OnRoutinesIff(version: int, name: string)
    ensures name in OnRoutines(version) <==> ForRoutines in ScopesOf(name) && IsKnown(version, name)
  {
  }

  /** Every list has exactly the privileges that can be given on such an object and that the
      version knows. */
  lemma SupportedIff(version: int, t: Target, name: string)
    ensures name in SupportedOn(version, t)
       <==> ScopeOf(t) in ScopesOf(name) && IsKnown(version, name)
  {
    ReadingIff(version, name);
    WritingOnServerIff(version, name);
    AdministeringIff(version, name);
    OfServer(name);
    OnDatabasesIff(version, name);
    OnTablesIff(version, name);
    OnColumnsIff(version, name);
    OnRoutinesIff(version, name);
  }

  /** The words that statements use beside names of privileges. */
  predicate IsWord(name: string)
  {
    name == "ALL" || name == "USAGE" || name == "GRANT OPTION"
  }

  predicate AreNoWords(names: seq<string>)
  {
    forall n | n in names :: !IsWord(n)
  }

  /** The grant option is listed for everything but columns, and no word is. */
  predicate IsListFor(t: Target, names: seq<string>)
  {
    && (GRANT in names <==> !t.OfColumn?)
    && forall n | n in names :: !IsWord(n)
  }

  ghost predicate AreLists(lists: Target -> seq<string>)
  {
    forall t {:trigger IsListFor(t, lists(t))} :: IsListFor(t, lists(t))
  }

  /** Lists of supported privileges, which each version has some of. */
  type Supported = lists: Target -> seq<string> | AreLists(lists) ghost witness SupportedPrivileges(0)

  lemma FirstAreNoWords(version: int)
    ensures AreNoWords(WriteFirst(version))
  {
  }

  lemma LastAreNoWords(version: int)
    ensures AreNoWords(WriteLast(version))
  {
  }

  lemma WrittenAreNoWords(version: int)
    ensures AreNoWords(WriteFirst(version)) && AreNoWords(WriteLast(version)) && AreNoWords(WriteGlobal(version))
  {
    FirstAreNoWords(version);
    LastAreNoWords(version);
    assert forall n | n in Since(version, 50404, "CREATE TABLESPACE") :: !IsWord(n);
  }

  lemma AdminAreNoWords(version: int)
    ensures AreNoWords(AdminGlobal(version))
  {
  }

  lemma NamesAreNoWords(version: int, t: Target)
    ensures AreNoWords(SupportedOn(version, t))
  {
    WrittenAreNoWords(version);
    AdminAreNoWords(version);
    assert t.Global? ==> AreNoWords(ReadGlobal(version));
  }

  /** Whatever the version, the grant option is supported on everything but columns. */
  lemma GrantIsSupported(version: int, t: Target)
    ensures GRANT in SupportedOn(version, t) <==> !t.OfColumn?
  {
  }

  lemma SupportedIsList(version: int, t: Target)
    ensures IsListFor(t, SupportedOn(version, t))
  {
    GrantIsSupported(version, t);
    NamesAreNoWords(version, t);
  }

  /** supportedPrivilegesForScope */
  function SupportedPrivileges(version: int): (lists: Target -> seq<string>)
    ensures AreLists(lists)
  {
    var lists := t => SupportedOn(version, t);
    assert AreLists(lists) by {
      forall t
        ensures IsListFor(t, lists(t))
      {
        SupportedIsList(version, t);
      }
    }
    lists
  }
}
