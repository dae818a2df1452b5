/** MySQLUserEditor: the REVOKE and GRANT statements that turn the privileges of a user into
    edited ones, and what the server makes of them.
 */
module MySQLUserEditor {
  import opened QtStrings
  import opened MySQLUserManager
  import opened UserManager

  // The object named after ON.
  datatype Level = EveryDatabase | Database(db: string) | Table(db: string, name: string)
    | Procedure(db: string, name: string) | Function(db: string, name: string)

  // One privilege in a statement, for a column or not; or one of the words ALL, USAGE, GRANT OPTION.
  datatype Item = Item(name: string, column: Option<string>)

  datatype Statement =
    | Grant(items: seq<Item>, on: Level, withGrantOption: bool)
    | Revoke(items: seq<Item>, on: Level)

  const ALL := Item("ALL", None)
  const USAGE := Item("USAGE", None)

  function LevelOf(t: Target): Level
  {
    match t
    case Global => EveryDatabase
    case OfDatabase(db) => Database(db)
    case OfTable(db, name) => Table(db, name)
    case OfColumn(db, name, _) => Table(db, name)
    case OfProcedure(db, name) => Procedure(db, name)
    case OfFunction(db, name) => Function(db, name)
  }

  // ---- the server ----

  /** Whether an item of a statement is about a target, as the server reads it. */
  predicate IsAbout(item: Item, on: Level, t: Target)
  {
    match on
    case EveryDatabase => item.column.None? && t == Global
    case Database(db) => item.column.None? && t == OfDatabase(db)
    case Table(db, name) =>
      t == if item.column.Some? then OfColumn(db, name, item.column.value) else OfTable(db, name)
    case Procedure(db, name) => item.column.None? && t == OfProcedure(db, name)
    case Function(db, name) => item.column.None? && t == OfFunction(db, name)
  }

  function NamesIn(s: seq<string>): set<string>
  {
    set x | x in s
  }

  /** What a GRANT adds to the privileges on a target. ALL does not include the grant option. */
  function Added(stmt: Statement, t: Target, supported: Supported): set<string>
    requires stmt.Grant?
  {
    (set item | item in stmt.items && IsAbout(item, stmt.on, t) && item != ALL && item != USAGE :: item.name)
    + (if ALL in stmt.items && IsAbout(ALL, stmt.on, t) then NamesIn(supported(t)) - {GRANT} else {})
    + (if stmt.withGrantOption && IsAbout(ALL, stmt.on, t) then {GRANT} else {})
  }

  /** What a REVOKE takes from the privileges on a target. */
  function Taken(stmt: Statement, t: Target): set<string>
    requires stmt.Revoke?
  {
    set item | item in stmt.items && IsAbout(item, stmt.on, t) :: RevokedName(item)
  }

  function RevokedName(item: Item): string
  {
    if item == Item("GRANT OPTION", None) then GRANT else item.name
  }

  /** A list of items is not empty, the word ALL stands alone, and the grant option is not granted
      as an item. */
  predicate IsWellFormed(stmt: Statement)
  {
    && stmt.items != []
    && (ALL in stmt.items ==> |stmt.items| == 1)
    && (stmt.Grant? ==> forall x | x in stmt.items :: x.name != GRANT)
  }

  /** The server refuses to grant what does not exist and to revoke what was not granted. */
  ghost predicate IsAccepted(grants: Target -> set<string>, stmt: Statement, supported: Supported)
  {
    && IsWellFormed(stmt)
    && match stmt
       case Grant(_, _, _) => forall t :: Added(stmt, t, supported) - {GRANT} <= NamesIn(supported(t))
       case Revoke(_, _) => forall t :: Taken(stmt, t) <= grants(t)
  }

  class Server {
    const supported: Supported
    var grants: Target -> set<string>
    var sent: seq<Statement>

    constructor (version: int, grants: Target -> set<string>)
      ensures supported == SupportedPrivileges(version) && this.grants == grants && sent == []
    {
      this.supported, this.grants, this.sent := SupportedPrivileges(version), grants, [];
    }

    method Query(stmt: Statement)
      requires IsAccepted(grants, stmt, supported)
      modifies this
      ensures sent == old(sent) + [stmt]
      ensures stmt.Grant? ==> forall t :: grants(t) == old(grants)(t) + Added(stmt, t, supported)
      ensures stmt.Revoke? ==> forall t :: grants(t) == old(grants)(t) - Taken(stmt, t)
    {
      var before, known := grants, supported;
      sent := sent + [stmt];
      if stmt.Grant? {
        grants := t => before(t) + Added(stmt, t, known);
      } else {
        grants := t => before(t) - Taken(stmt, t);
      }
    }
  }

  // ---- the editor ----

  /** Privileges the server supports on a target. */
  ghost predicate ArePrivileges(names: set<string>, t: Target, supported: Supported)
  {
    names <= NamesIn(supported(t))
  }

  /** None of the words with a meaning of their own, and no grant option for a column. */
  ghost predicate AreNamesFor(names: set<string>, t: Target)
  {
    && (forall n | n in names :: !IsWord(n))
    && (t.OfColumn? ==> GRANT !in names)
  }

  lemma PrivilegesAreNames(names: set<string>, t: Target, supported: Supported)
    requires ArePrivileges(names, t, supported)
    ensures AreNamesFor(names, t)
  {
    assert IsListFor(t, supported(t));
  }

  function ItemFor(t: Target, name: string): Item
  {
    if t.OfColumn? then Item(name, Some(t.field)) else Item(name, None)
  }

  function RevokedItem(t: Target, name: string): Item
  {
    if name == GRANT then Item("GRANT OPTION", None) else ItemFor(t, name)
  }

  lemma AboutOne(t: Target, name: string, other: Target)
    ensures IsAbout(ItemFor(t, name), LevelOf(t), other) <==> t == other
    ensures !t.OfColumn? ==> (IsAbout(ALL, LevelOf(t), other) <==> t == other)
  {
  }

  /** The items are those of the names, in any order. */
  ghost predicate ListsRevoked(items: seq<Item>, t: Target, names: set<string>)
  {
    && (forall x | x in items :: RevokedName(x) in names && x == RevokedItem(t, RevokedName(x)))
    && forall n | n in names :: RevokedItem(t, n) in items
  }

  ghost predicate ListsGranted(items: seq<Item>, t: Target, names: set<string>)
  {
    && (forall x | x in items :: x.name in names && x == ItemFor(t, x.name))
    && forall n | n in names :: ItemFor(t, n) in items
  }

  lemma TakenIs(t: Target, names: set<string>, items: seq<Item>, x: Target)
    requires ListsRevoked(items, t, names) && AreNamesFor(names, t)
    ensures Taken(Revoke(items, LevelOf(t)), x) == if x == t then names else {}
  {
    var stmt := Revoke(items, LevelOf(t));
    forall n | n in names
      ensures IsAbout(RevokedItem(t, n), LevelOf(t), x) <==> x == t
    {
      AboutOne(t, n, x);
    }
    forall n | n in Taken(stmt, x)
      ensures n in names && x == t
    {
      var item :| item in items && IsAbout(item, stmt.on, x) && RevokedName(item) == n;
      assert item == RevokedItem(t, n);
    }
    forall n | n in names && x == t
      ensures n in Taken(stmt, x)
    {
      assert RevokedItem(t, n) in stmt.items;
    }
  }

  /** The grant option is revoked under a name of its own, and only by that. */
  lemma GrantOptionRevoked(t: Target, names: set<string>, items: seq<Item>)
    requires ListsRevoked(items, t, names) && AreNamesFor(names, t)
    ensures "GRANT" in names <==> Item("GRANT OPTION", None) in items
    ensures forall n | n in names && n != "GRANT" :: Item(n, if t.OfColumn? then Some(t.field) else None) in items
    ensures Item("GRANT", None) !in items
  {
  }

  /** The server refuses to revoke what a user does not have and to grant what it does not know. */
  lemma OthersAreRefused(grants: Target -> set<string>, t: Target, name: string, supported: Supported)
    requires AreNamesFor({name}, t)
    ensures name !in grants(t) ==> !IsAccepted(grants, Revoke([RevokedItem(t, name)], LevelOf(t)), supported)
    ensures name != GRANT && name !in supported(t)
            ==> !IsAccepted(grants, Grant([ItemFor(t, name)], LevelOf(t), false), supported)
  {
    AboutOne(t, name, t);
    assert name in {name};
    var revoke, grant := Revoke([RevokedItem(t, name)], LevelOf(t)), Grant([ItemFor(t, name)], LevelOf(t), false);
    TakenIs(t, {name}, revoke.items, t);
    assert ItemFor(t, name) in grant.items && name in Added(grant, t, supported) - {GRANT} <==> name != GRANT;
  }

  function RemoveAll(items: seq<Item>, x: Item): (r: seq<Item>)
    ensures forall y :: y in r <==> y in items && y != x
  {
    if items == [] then []
    else (if items[0] == x then [] else [items[0]]) + RemoveAll(items[1..], x)
  }

  /** MySQLUserEditor::grant: the grant option is a clause of its own, and goes with ALL. */
  function GrantStatement(items: seq<Item>, on: Level): Statement
  {
    var hasGrantOption := Item(GRANT, None) in items || ALL in items;
    var grantList := if hasGrantOption then RemoveAll(items, Item(GRANT, None)) else items;
    Grant(if grantList == [] then [USAGE] else grantList, on, hasGrantOption)
  }

  lemma GrantIsWellFormed(t: Target, names: set<string>, items: seq<Item>)
    requires ListsGranted(items, t, names) && AreNamesFor(names, t)
    ensures IsWellFormed(GrantStatement(items, LevelOf(t)))
  {
    forall x | x in GrantStatement(items, LevelOf(t)).items
      ensures x.name != GRANT && x != ALL
    {
      if x in items {
        assert x.name in names && x == ItemFor(t, x.name);
      }
    }
  }

  lemma AllIsWellFormed(on: Level)
    ensures IsWellFormed(GrantStatement([ALL], on))
  {
    assert RemoveAll([ALL], Item(GRANT, None)) == [ALL];
  }

  lemma AddedIs(t: Target, names: set<string>, items: seq<Item>, x: Target, supported: Supported)
    requires ListsGranted(items, t, names) && AreNamesFor(names, t)
    ensures Added(GrantStatement(items, LevelOf(t)), x, supported) == if x == t then names else {}
  {
    var stmt := GrantStatement(items, LevelOf(t));
    forall n | n in names
      ensures IsAbout(ItemFor(t, n), LevelOf(t), x) <==> x == t
    {
      AboutOne(t, n, x);
    }
    AboutOne(t, GRANT, x);
    assert ALL !in stmt.items;
    assert stmt.withGrantOption <==> GRANT in names;
    forall n | n in names && n != GRANT && x == t
      ensures n in Added(stmt, x, supported)
    {
      assert ItemFor(t, n) in stmt.items;
    }
  }

  lemma AddedByAll(t: Target, x: Target, supported: Supported)
    requires !t.OfColumn?
    ensures Added(GrantStatement([ALL], LevelOf(t)), x, supported)
            == if x == t then NamesIn(supported(t)) + {GRANT} else {}
  {
    var stmt := GrantStatement([ALL], LevelOf(t));
    AboutOne(t, GRANT, x);
    assert RemoveAll([ALL], Item(GRANT, None)) == [ALL];
    assert stmt == Grant([ALL], LevelOf(t), true);
  }

  /** Whether the names are all there are, which is granted with the word ALL. */
  predicate AreAll(t: Target, names: set<string>, supported: Supported)
  {
    !t.OfColumn? && multiset(names) == multiset(supported(t))
  }

  lemma AllAreSupported(t: Target, names: set<string>, supported: Supported)
    requires AreAll(t, names, supported)
    ensures names == NamesIn(supported(t))
  {
    forall n
      ensures n in names <==> n in supported(t)
    {
      assert n in multiset(names) <==> n in multiset(supported(t));
    }
  }

  method GrantedItems(t: Target, names: set<string>) returns (items: seq<Item>)
    ensures ListsGranted(items, t, names) && (items == [] <==> names == {})
  {
    items := [];
    var rest := names;
    while rest != {}
      invariant rest <= names && ListsGranted(items, t, names - rest)
      invariant items == [] <==> names - rest == {}
      decreases |rest|
    {
      var name :| name in rest;
      items := items + [ItemFor(t, name)];
      assert name in names - (rest - {name});
      rest := rest - {name};
    }
    assert names - rest == names;
  }

  method RevokedItems(t: Target, oldList: set<string>, newList: set<string>) returns (items: seq<Item>)
    requires "GRANT OPTION" !in oldList && (t.OfColumn? ==> GRANT !in oldList)
    ensures ListsRevoked(items, t, oldList - newList) && (items == [] <==> oldList - newList == {})
  {
    items := [];
    var rest := oldList;
    while rest != {}
      invariant rest <= oldList && ListsRevoked(items, t, oldList - rest - newList)
      invariant items == [] <==> oldList - rest - newList == {}
      decreases |rest|
    {
      var privName :| privName in rest;
      if privName !in newList {
        assert RevokedName(RevokedItem(t, privName)) == privName;
        items := items + [RevokedItem(t, privName)];
        assert privName in oldList - (rest - {privName}) - newList;
      } else {
        assert oldList - (rest - {privName}) - newList == oldList - rest - newList;
      }
      rest := rest - {privName};
    }
    assert oldList - rest == oldList;
  }

  /** Granting everything with the word ALL, which brings the grant option along, adds exactly
      what was asked for, because the grant option is supported wherever ALL is used. */
  lemma AllIsExact(t: Target, names: set<string>, x: Target, supported: Supported)
    requires AreAll(t, names, supported)
    ensures Added(GrantStatement([ALL], LevelOf(t)), x, supported) == if x == t then names else {}
  {
    AddedByAll(t, x, supported);
    AllAreSupported(t, names, supported);
    assert IsListFor(t, supported(t));
    assert NamesIn(supported(t)) + {GRANT} == names;
  }

  class Editor {
    const server: Server

    constructor (server: Server)
      ensures this.server == server
    {
      this.server := server;
    }

    /** The privileges to grant on a target: exactly those are added. */
    method GrantPrivileges(t: Target, names: set<string>)
      requires ArePrivileges(names, t, server.supported)
      modifies server
      ensures forall x :: server.grants(x) == old(server.grants)(x) + if x == t then names else {}
      ensures |server.sent| == |old(server.sent)| + if names == {} then 0 else 1
    {
      var grantedPrivileges := GrantedItems(t, names);
      if grantedPrivileges == [] {
        return;
      }
      if AreAll(t, names, server.supported) {
        grantedPrivileges := [ALL];
      }
      forall x
        ensures Added(GrantStatement(grantedPrivileges, LevelOf(t)), x, server.supported)
                == if x == t then names else {}
      {
        if AreAll(t, names, server.supported) {
          AllIsExact(t, names, x, server.supported);
        } else {
          PrivilegesAreNames(names, t, server.supported);
          AddedIs(t, names, grantedPrivileges, x, server.supported);
        }
      }
      if grantedPrivileges == [ALL] {
        AllIsWellFormed(LevelOf(t));
      } else {
        PrivilegesAreNames(names, t, server.supported);
        GrantIsWellFormed(t, names, grantedPrivileges);
      }
      server.Query(GrantStatement(grantedPrivileges, LevelOf(t)));
    }

    /** Revoking what is no longer granted and granting what is new. */
    method EditPrivilege(t: Target, oldList: set<string>, newList: set<string>)
      requires ArePrivileges(oldList, t, server.supported) && ArePrivileges(newList, t, server.supported)
      requires server.grants(t) == oldList
      modifies server
      ensures forall x :: server.grants(x) == if x == t then newList else old(server.grants)(x)
      ensures |server.sent|
           == |old(server.sent)| + (if oldList <= newList then 0 else 1) + if newList <= oldList then 0 else 1
    {
      PrivilegesAreNames(oldList, t, server.supported);
      var revokedPrivileges := RevokedItems(t, oldList, newList);
      if revokedPrivileges != [] {
        RevokeList(t, oldList - newList, revokedPrivileges);
      }
      assert server.grants(t) == oldList - (oldList - newList);
      var grantList := newList - oldList;
      if grantList != {} {
        GrantPrivileges(t, grantList);
      }
      assert (oldList - (oldList - newList)) + (newList - oldList) == newList;
    }

    method RevokeList(t: Target, names: set<string>, items: seq<Item>)
      requires ListsRevoked(items, t, names) && AreNamesFor(names, t) && names <= server.grants(t) && items != []
      modifies server
      ensures |server.sent| == |old(server.sent)| + 1
      ensures forall x :: server.grants(x) == if x == t then old(server.grants)(x) - names else old(server.grants)(x)
    {
      forall x
        ensures Taken(Revoke(items, LevelOf(t)), x) == if x == t then names else {}
      {
        TakenIs(t, names, items, x);
      }
      assert ALL !in items;
      server.Query(Revoke(items, LevelOf(t)));
    }

    /** Replaying the statements sent for an edit turns the privileges the user had into the
        edited ones, on every object. */
    method EditPrivileges(user: User, newData: User) returns (changed: bool)
      requires IsEdit(Entries(user.privileges), Entries(newData.privileges), server.supported)
      requires forall t :: server.grants(t) == GrantedOn(Entries(user.privileges), t)
      modifies server
      ensures forall t :: server.grants(t) == GrantedOn(Entries(newData.privileges), t)
      ensures !changed ==> server.grants == old(server.grants) && server.sent == old(server.sent)
      ensures !changed <==> IsUnedited(Entries(user.privileges), Entries(newData.privileges))
    {
      ghost var ps, qs := Entries(user.privileges), Entries(newData.privileges);
      changed := EditBoth(user, newData, ps, qs);
      assert Entries(newData.privileges) == qs && Entries(user.privileges) == ps;
    }

    /** Both loops. */
    method EditBoth(user: User, newData: User, ghost ps: seq<Entry>, ghost qs: seq<Entry>) returns (changed: bool)
      requires AreEntries(ps, user.privileges) && AreEntries(qs, newData.privileges) && IsEdit(ps, qs, server.supported)
      requires forall t :: server.grants(t) == GrantedOn(ps, t)
      modifies server
      ensures AreEntries(ps, user.privileges) && AreEntries(qs, newData.privileges)
      ensures forall t :: server.grants(t) == GrantedOn(qs, t)
      ensures !changed ==> server.grants == old(server.grants) && server.sent == old(server.sent)
      ensures !changed <==> IsUnedited(ps, qs)
    {
      var edited := EditKnown(user, newData, ps, qs);
      AllAreEdited(server.grants, ps, qs);
      var granted := GrantUnknown(user, newData, ps, qs);
      NewCoversAll(ps, qs, server.grants);
      UneditedIff(ps, qs);
      changed := edited || granted;
    }

    /** The first loop: objects the user had privileges on. */
    method EditKnown(user: User, newData: User, ghost ps: seq<Entry>, ghost qs: seq<Entry>) returns (changed: bool)
      requires AreEntries(ps, user.privileges) && AreEntries(qs, newData.privileges) && IsEdit(ps, qs, server.supported)
      requires IsEditedUpTo(server.grants, ps, qs, 0)
      modifies server
      ensures IsEditedUpTo(server.grants, ps, qs, |ps|)
      ensures !changed ==> server.grants == old(server.grants) && server.sent == old(server.sent)
      ensures !changed <==> AreKept(ps, qs, |ps|)
    {
      changed := false;
      ghost var grants, sent := server.grants, server.sent;
      for i := 0 to |user.privileges|
        invariant !changed ==> server.grants == grants && server.sent == sent
        invariant AreEntries(ps, user.privileges) && AreEntries(qs, newData.privileges)
        invariant !changed <==> AreKept(ps, qs, i)
        invariant IsEditedUpTo(server.grants, ps, qs, i)
      {
        changed := EditOne(user, newData, i, changed, ps, qs);
      }
    }

    method EditOne(user: User, newData: User, i: nat, before: bool, ghost ps: seq<Entry>, ghost qs: seq<Entry>)
        returns (changed: bool)
      requires AreEntries(ps, user.privileges) && AreEntries(qs, newData.privileges) && IsEdit(ps, qs, server.supported)
      requires i < |ps| && (!before <==> AreKept(ps, qs, i)) && IsEditedUpTo(server.grants, ps, qs, i)
      modifies server
      ensures AreEntries(ps, user.privileges) && AreEntries(qs, newData.privileges)
      ensures IsEditedUpTo(server.grants, ps, qs, i + 1)
      ensures before ==> changed
      ensures !changed ==> server.grants == old(server.grants) && server.sent == old(server.sent)
      ensures !changed <==> AreKept(ps, qs, i + 1)
    {
      ghost var grants := server.grants;
      NotYet(ps, i);
      GrantedAt(ps, i);
      var oldPriv := user.privileges[i];
      var newPriv := newData.PrivilegeById(Id(oldPriv.target));
      assert ps[i] == Entry(oldPriv.target, oldPriv.granted);
      OldIsFound(newData.privileges, ps, qs, i, newPriv);
      changed := before;
      if newPriv.granted != oldPriv.granted {
        changed := true;
        EditPrivilege(oldPriv.target, oldPriv.granted, newPriv.granted);
      }
      NextIsEdited(grants, server.grants, ps, qs, i);
    }

    /** The second loop: objects that are new. */
    method GrantUnknown(user: User, newData: User, ghost ps: seq<Entry>, ghost qs: seq<Entry>) returns (changed: bool)
      requires AreEntries(ps, user.privileges) && AreEntries(qs, newData.privileges) && IsEdit(ps, qs, server.supported)
      requires IsReached(server.grants, ps, qs, 0)
      modifies server
      ensures IsReached(server.grants, ps, qs, |qs|)
      ensures !changed ==> server.grants == old(server.grants) && server.sent == old(server.sent)
      ensures !changed <==> AreKnown(ps, qs, |qs|)
    {
      changed := false;
      for j := 0 to |newData.privileges|
        invariant !changed ==> server.grants == old(server.grants) && server.sent == old(server.sent)
        invariant AreEntries(ps, user.privileges) && AreEntries(qs, newData.privileges)
        invariant !changed <==> AreKnown(ps, qs, j)
        invariant IsReached(server.grants, ps, qs, j)
      {
        changed := GrantIfNew(user, newData, j, changed, ps, qs);
      }
    }

    method GrantIfNew(user: User, newData: User, j: nat, before: bool, ghost ps: seq<Entry>, ghost qs: seq<Entry>)
        returns (changed: bool)
      requires AreEntries(ps, user.privileges) && AreEntries(qs, newData.privileges) && IsEdit(ps, qs, server.supported)
      requires j < |qs| && (!before <==> AreKnown(ps, qs, j)) && IsReached(server.grants, ps, qs, j)
      modifies server
      ensures AreEntries(ps, user.privileges) && AreEntries(qs, newData.privileges)
      ensures before ==> changed
      ensures IsReached(server.grants, ps, qs, j + 1)
      ensures !changed ==> server.grants == old(server.grants) && server.sent == old(server.sent)
      ensures !changed <==> AreKnown(ps, qs, j + 1)
    {
      ghost var grants := server.grants;
      NotYetReached(grants, ps, qs, j);
      var newPriv := newData.privileges[j];
      var oldPriv := user.PrivilegeById(Id(newPriv.target));
      assert qs[j] == Entry(newPriv.target, newPriv.granted);
      GrantedAt(qs, j);
      IsNewIff(user.privileges, ps, qs, j, oldPriv);
      changed := before;
      if oldPriv == null {
        GrantPrivileges(newPriv.target, newPriv.granted);
        changed := true;
      }
      NextIsReached(grants, server.grants, ps, qs, j);
    }
  }

  // ---- lists of privileges ----

  // A UserPrivilege as a value.
  datatype Entry = Entry(target: Target, granted: set<string>)

  function Entries(privileges: seq<UserPrivilege>): seq<Entry>
    reads privileges
  {
    seq(|privileges|, i requires 0 <= i < |privileges| reads privileges => Entry(privileges[i].target,
      privileges[i].granted))
  }

  ghost predicate AreEntries(entries: seq<Entry>, privileges: seq<UserPrivilege>)
    reads privileges
  {
    && |entries| == |privileges|
    && forall i | 0 <= i < |entries| :: entries[i] == Entry(privileges[i].target, privileges[i].granted)
  }

  /** The privileges a list grants on a target. */
  function GrantedOn(entries: seq<Entry>, t: Target): set<string>
  {
    if entries == [] then {}
    else if entries[0].target == t then entries[0].granted
    else GrantedOn(entries[1..], t)
  }

  function TargetsUpTo(entries: seq<Entry>, n: nat): set<Target>
    requires n <= |entries|
  {
    if n == 0 then {} else TargetsUpTo(entries, n - 1) + {entries[n - 1].target}
  }

  /** Each list is of real privileges, with one entry for each object. */
  ghost predicate ArePossible(entries: seq<Entry>, supported: Supported)
  {
    && (forall i, j | 0 <= i < j < |entries| :: entries[i].target != entries[j].target)
    && forall i | 0 <= i < |entries| :: ArePrivileges(entries[i].granted, entries[i].target, supported)
  }

  /** Entries with the same id are about the same object. */
  ghost predicate AreIdentified(ps: seq<Entry>, qs: seq<Entry>)
  {
    forall i, j | 0 <= i < |ps| && 0 <= j < |qs| && Id(ps[i].target) == Id(qs[j].target) :: ps[i].target == qs[j].target
  }

  /** What the user interface can turn a list of privileges into: no object disappears. */
  ghost predicate IsEdit(ps: seq<Entry>, qs: seq<Entry>, supported: Supported)
  {
    && ArePossible(ps, supported) && ArePossible(qs, supported) && AreIdentified(ps, qs)
    && TargetsUpTo(ps, |ps|) <= TargetsUpTo(qs, |qs|)
  }

  ghost predicate IsKept(p: Entry, qs: seq<Entry>)
  {
    p.granted == GrantedOn(qs, p.target)
  }

  /** The first n objects of the old list have what they had. */
  ghost predicate AreKept(ps: seq<Entry>, qs: seq<Entry>, n: nat)
    requires n <= |ps|
  {
    n == 0 || (AreKept(ps, qs, n - 1) && IsKept(ps[n - 1], qs))
  }

  lemma {:induction false} AreKeptIff(ps: seq<Entry>, qs: seq<Entry>, n: nat)
    requires n <= |ps|
    ensures AreKept(ps, qs, n) <==> forall i | 0 <= i < n :: IsKept(ps[i], qs)
  {
    if n > 0 {
      AreKeptIff(ps, qs, n - 1);
    }
  }

  ghost predicate IsKnown(ps: seq<Entry>, t: Target)
  {
    t in TargetsUpTo(ps, |ps|)
  }

  /** The first n objects of the new list are in the old one. */
  ghost predicate AreKnown(ps: seq<Entry>, qs: seq<Entry>, n: nat)
    requires n <= |qs|
  {
    n == 0 || (AreKnown(ps, qs, n - 1) && IsKnown(ps, qs[n - 1].target))
  }

  lemma {:induction false} AreKnownIff(ps: seq<Entry>, qs: seq<Entry>, n: nat)
    requires n <= |qs|
    ensures AreKnown(ps, qs, n) <==> forall j | 0 <= j < n :: IsKnown(ps, qs[j].target)
  {
    if n > 0 {
      AreKnownIff(ps, qs, n - 1);
    }
  }

  /** The same objects, with the same privileges. */
  ghost predicate IsUnedited(ps: seq<Entry>, qs: seq<Entry>)
  {
    && TargetsUpTo(ps, |ps|) == TargetsUpTo(qs, |qs|)
    && forall t :: GrantedOn(ps, t) == GrantedOn(qs, t)
  }

  lemma UneditedIff(ps: seq<Entry>, qs: seq<Entry>)
    requires TargetsUpTo(ps, |ps|) <= TargetsUpTo(qs, |qs|)
    requires forall j, k | 0 <= j < k < |ps| :: ps[j].target != ps[k].target
    ensures IsUnedited(ps, qs) <==> AreKept(ps, qs, |ps|) && AreKnown(ps, qs, |qs|)
  {
    AreKeptIff(ps, qs, |ps|);
    AreKnownIff(ps, qs, |qs|);
    forall t
      ensures t in TargetsUpTo(ps, |ps|) <==> exists i | 0 <= i < |ps| :: ps[i].target == t
      ensures t in TargetsUpTo(qs, |qs|) <==> exists i | 0 <= i < |qs| :: qs[i].target == t
    {
      TargetsAre(ps, |ps|, t);
      TargetsAre(qs, |qs|, t);
    }
    forall i | 0 <= i < |ps|
      ensures GrantedOn(ps, ps[i].target) == ps[i].granted
    {
      GrantedAt(ps, i);
    }
    forall t | t !in TargetsUpTo(ps, |ps|)
      ensures GrantedOn(ps, t) == {}
    {
      NothingElsewhere(ps, t);
    }
    forall t | t !in TargetsUpTo(qs, |qs|)
      ensures GrantedOn(qs, t) == {}
    {
      NothingElsewhere(qs, t);
    }
  }

  /** Ids tell the entries of both lists apart when each object of one of them has an id of
      its own, which is when no colon is in the way. */
  lemma PlainPartsIdentifyEntries(ps: seq<Entry>, qs: seq<Entry>)
    requires forall i | 0 <= i < |ps| :: HasPlainParts(ps[i].target)
    ensures AreIdentified(ps, qs)
  {
    forall i, j | 0 <= i < |ps| && 0 <= j < |qs| && Id(ps[i].target) == Id(qs[j].target)
      ensures ps[i].target == qs[j].target
    {
      IdIdentifiesIff(ps[i].target);
    }
  }

  lemma {:induction false} GrantedAt(entries: seq<Entry>, i: nat)
    requires i < |entries| && forall j, k | 0 <= j < k < |entries| :: entries[j].target != entries[k].target
    ensures GrantedOn(entries, entries[i].target) == entries[i].granted
  {
    if i > 0 {
      assert entries[0].target != entries[i].target;
      GrantedAt(entries[1..], i - 1);
    }
  }

  lemma {:induction false} TargetsAre(entries: seq<Entry>, n: nat, t: Target)
    requires n <= |entries|
    ensures t in TargetsUpTo(entries, n) <==> exists i | 0 <= i < n :: entries[i].target == t
  {
    if n > 0 {
      TargetsAre(entries, n - 1, t);
    }
  }

  lemma {:induction false} NoneGranted(entries: seq<Entry>, t: Target)
    requires forall i | 0 <= i < |entries| :: entries[i].target != t
    ensures GrantedOn(entries, t) == {}
  {
    if entries != [] {
      NoneGranted(entries[1..], t);
    }
  }

  /** The first i old objects have their new privileges. */
  ghost predicate IsEditedUpTo(grants: Target -> set<string>, ps: seq<Entry>, qs: seq<Entry>, i: nat)
    requires i <= |ps|
  {
    forall t :: grants(t) == if t in TargetsUpTo(ps, i) then GrantedOn(qs, t) else GrantedOn(ps, t)
  }

  lemma NextIsEdited(before: Target -> set<string>, after: Target -> set<string>, ps: seq<Entry>, qs: seq<Entry>,
                     i: nat)
    requires i < |ps| && IsEditedUpTo(before, ps, qs, i)
    requires forall t :: after(t) == if t == ps[i].target then GrantedOn(qs, t) else before(t)
    ensures IsEditedUpTo(after, ps, qs, i + 1)
  {
    assert TargetsUpTo(ps, i + 1) == TargetsUpTo(ps, i) + {ps[i].target};
  }

  lemma AllAreEdited(grants: Target -> set<string>, ps: seq<Entry>, qs: seq<Entry>)
    requires IsEditedUpTo(grants, ps, qs, |ps|)
    ensures IsReached(grants, ps, qs, 0)
  {
    forall t | t !in TargetsUpTo(ps, |ps|)
      ensures GrantedOn(ps, t) == {}
    {
      NothingElsewhere(ps, t);
    }
  }

  /** The old objects and the first j new ones have their privileges. */
  ghost predicate IsReached(grants: Target -> set<string>, ps: seq<Entry>, qs: seq<Entry>, j: nat)
    requires j <= |qs|
  {
    forall t :: grants(t) == if IsKnown(ps, t) || t in TargetsUpTo(qs, j) then GrantedOn(qs, t) else {}
  }

  lemma NotYetReached(grants: Target -> set<string>, ps: seq<Entry>, qs: seq<Entry>, j: nat)
    requires j < |qs| && IsReached(grants, ps, qs, j)
    requires forall i, k | 0 <= i < k < |qs| :: qs[i].target != qs[k].target
    ensures grants(qs[j].target) == if qs[j].target in TargetsUpTo(ps, |ps|) then GrantedOn(qs, qs[j].target) else {}
  {
    NotYet(qs, j);
  }

  lemma NextIsReached(before: Target -> set<string>, after: Target -> set<string>, ps: seq<Entry>, qs: seq<Entry>,
                      j: nat)
    requires j < |qs| && IsReached(before, ps, qs, j)
    requires forall t :: after(t) == if t == qs[j].target then GrantedOn(qs, t) else before(t)
    ensures IsReached(after, ps, qs, j + 1)
  {
    assert TargetsUpTo(qs, j + 1) == TargetsUpTo(qs, j) + {qs[j].target};
  }

  /** Objects that neither list has an entry for have no privileges. */
  lemma NewCoversAll(ps: seq<Entry>, qs: seq<Entry>, grants: Target -> set<string>)
    requires TargetsUpTo(ps, |ps|) <= TargetsUpTo(qs, |qs|)
    requires IsReached(grants, ps, qs, |qs|)
    ensures forall t :: grants(t) == GrantedOn(qs, t)
  {
    forall t
      ensures grants(t) == GrantedOn(qs, t)
    {
      if t !in TargetsUpTo(qs, |qs|) {
        NothingElsewhere(qs, t);
      }
    }
  }

  lemma NothingElsewhere(entries: seq<Entry>, t: Target)
    requires t !in TargetsUpTo(entries, |entries|)
    ensures GrantedOn(entries, t) == {}
  {
    TargetsAre(entries, |entries|, t);
    NoneGranted(entries, t);
  }

  lemma NotYet(entries: seq<Entry>, i: nat)
    requires i < |entries| && forall j, k | 0 <= j < k < |entries| :: entries[j].target != entries[k].target
    ensures entries[i].target !in TargetsUpTo(entries, i)
  {
    TargetsAre(entries, i, entries[i].target);
  }

  /** Looking up the id of an old entry finds the new entry for the same object. */
  lemma OldIsFound(privileges: seq<UserPrivilege>, ps: seq<Entry>, qs: seq<Entry>, i: nat, q: UserPrivilege?)
    requires AreEntries(qs, privileges) && i < |ps| && AreIdentified(ps, qs)
    requires TargetsUpTo(ps, |ps|) <= TargetsUpTo(qs, |qs|) && q == ById(privileges, Id(ps[i].target))
    requires forall j, k | 0 <= j < k < |ps| :: ps[j].target != ps[k].target
    requires forall j, k | 0 <= j < k < |qs| :: qs[j].target != qs[k].target
    ensures q != null && q.target == ps[i].target && q.granted == GrantedOn(qs, q.target)
    ensures Entry(q.target, q.granted) in qs
  {
    TargetsAre(ps, |ps|, ps[i].target);
    TargetsAre(qs, |qs|, ps[i].target);
    var k :| 0 <= k < |qs| && qs[k].target == ps[i].target;
    assert privileges[k] in privileges && Id(privileges[k].target) == Id(ps[i].target);
    var j :| 0 <= j < |privileges| && privileges[j] == q;
    assert qs[j] == Entry(q.target, q.granted);
    GrantedAt(qs, j);
  }

  /** Looking up the id of a new entry finds something exactly when the object was known. */
  lemma IsNewIff(privileges: seq<UserPrivilege>, ps: seq<Entry>, qs: seq<Entry>, j: nat, p: UserPrivilege?)
    requires AreEntries(ps, privileges) && j < |qs| && AreIdentified(ps, qs) && p == ById(privileges, Id(qs[j].target))
    ensures p == null <==> qs[j].target !in TargetsUpTo(ps, |ps|)
  {
    TargetsAre(ps, |ps|, qs[j].target);
    if p != null {
      var i :| 0 <= i < |privileges| && privileges[i] == p;
      assert ps[i].target == qs[j].target;
    } else {
      forall i | 0 <= i < |ps|
        ensures ps[i].target != qs[j].target
      {
        assert privileges[i] in privileges;
      }
    }
  }
}
