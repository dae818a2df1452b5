/** UserPrivilege and User: sets of privileges on the objects of a server, found by ids that
    are put together from the objects' names.
 */
module UserManager {
  // What a set of privileges applies to: the scope with the names that go with it.
  datatype Target =
    | Global
    | OfDatabase(database: string)
    | OfTable(database: string, entity: string)
    | OfColumn(database: string, entity: string, field: string)
    | OfProcedure(database: string, entity: string)
    | OfFunction(database: string, entity: string)

  /** UserPrivilege::id */
  function Id(t: Target): string
  {
    match t
    case Global => "global"
    case OfDatabase(db) => "db:" + db
    case OfTable(db, entity) => "table:" + (db + (":" + entity))
    case OfFunction(db, entity) => "func:" + (db + (":" + entity))
    case OfProcedure(db, entity) => "proc:" + (db + (":" + entity))
    case OfColumn(db, entity, field) => "col:" + (db + (":" + (entity + (":" + field))))
  }

  /** Names that are put together with colons hold none themselves. */
  predicate HasPlainParts(t: Target)
  {
    match t
    case Global => true
    case OfDatabase(_) => true
    case OfTable(db, entity) => ':' !in db && ':' !in entity
    case OfFunction(db, entity) => ':' !in db && ':' !in entity
    case OfProcedure(db, entity) => ':' !in db && ':' !in entity
    case OfColumn(db, entity, field) => ':' !in db && ':' !in entity && ':' !in field
  }

  lemma SameHead(head: string, x: string, y: string)
    requires head + x == head + y
    ensures x == y
  {
    assert (head + x)[|head|..] == x && (head + y)[|head|..] == y;
  }

  lemma SameIdHead(p: Target, q: Target)
    requires Id(p) == Id(q)
    ensures p.Global? == q.Global? && p.OfDatabase? == q.OfDatabase? && p.OfTable? == q.OfTable?
    ensures p.OfColumn? == q.OfColumn? && p.OfProcedure? == q.OfProcedure? && p.OfFunction? == q.OfFunction?
  {
    assert Id(p)[0] == Id(q)[0];
  }

  // ---- parts without colons can be told apart ----

  /** A text with a single colon is split in one way only. */
  lemma OneColon(a: string, x: string, b: string, y: string)
    requires ':' !in a && ':' !in x && a + (":" + x) == b + (":" + y)
    ensures a == b && x == y
  {
    var s := a + (":" + x);
    assert s == b + (":" + y) && s[|b|] == ':';
    assert forall k | 0 <= k < |s| && k != |a| :: s[k] != ':' by {
      assert forall k | |a| < k < |s| :: s[k] == x[k - |a| - 1] && s[k] in x;
    }
    assert s[..|a|] == a && s[..|b|] == b;
    assert s[|a| + 1..] == x && s[|b| + 1..] == y;
  }

  /** Before the first colon there is only one way to go on. */
  lemma FirstColon(a: string, x: string, b: string, y: string)
    requires ':' !in a && ':' !in b && a + (":" + x) == b + (":" + y)
    ensures a == b && x == y
  {
    var s := a + (":" + x);
    assert s == b + (":" + y) && s[|a|] == ':' && s[|b|] == ':';
    assert s[..|a|] == a && s[..|b|] == b;
    assert |a| == |b|;
    assert s[|a| + 1..] == x && s[|b| + 1..] == y;
  }

  /** A text with two colons is split in one way only. */
  lemma TwoColons(a: string, b: string, c: string, x: string, y: string, z: string)
    requires ':' !in a && ':' !in b && ':' !in c
    requires a + (":" + (b + (":" + c))) == x + (":" + (y + (":" + z)))
    ensures a == x && b == y && c == z
  {
    if ':' in x {
      var i :| 0 <= i < |x| && x[i] == ':';
      TooManyColons(a, b, c, x, y, z, i);
    }
    FirstColon(a, b + (":" + c), x, y + (":" + z));
    OneColon(b, c, y, z);
  }

  lemma TooManyColons(a: string, b: string, c: string, x: string, y: string, z: string, i: nat)
    requires ':' !in a && ':' !in b && ':' !in c && i < |x| && x[i] == ':'
    ensures a + (":" + (b + (":" + c))) != x + (":" + (y + (":" + z)))
  {
    var s := a + (":" + (b + (":" + c)));
    var m, n := |a|, |a| + 1 + |b|;
    assert forall k | 0 <= k < |s| && k != m && k != n :: s[k] != ':' by {
      assert forall k | m < k < n :: s[k] == b[k - m - 1] && s[k] in b;
      assert forall k | n < k < |s| :: s[k] == c[k - n - 1] && s[k] in c;
    }
    var t := x + (":" + (y + (":" + z)));
    assert t[i] == ':' && t[|x|] == ':' && t[|x| + 1 + |y|] == ':';
  }

  lemma PlainPartsIdentify(t: Target, q: Target)
    requires HasPlainParts(t) && Id(q) == Id(t)
    ensures q == t
  {
    SameIdHead(q, t);
    match t {
      case Global =>
      case OfDatabase(db) => SameHead("db:", db, q.database);
      case OfTable(db, entity) =>
        SameHead("table:", db + (":" + entity), q.database + (":" + q.entity));
        OneColon(db, entity, q.database, q.entity);
      case OfFunction(db, entity) =>
        SameHead("func:", db + (":" + entity), q.database + (":" + q.entity));
        OneColon(db, entity, q.database, q.entity);
      case OfProcedure(db, entity) =>
        SameHead("proc:", db + (":" + entity), q.database + (":" + q.entity));
        OneColon(db, entity, q.database, q.entity);
      case OfColumn(db, entity, field) =>
        SameHead("col:", db + (":" + (entity + (":" + field))), q.database + (":" + (q.entity + (":" + q.field))));
        TwoColons(db, entity, field, q.database, q.entity, q.field);
    }
  }

  // ---- a colon can be moved to the other part ----

  lemma CutBehind(a: string, x: string, i: nat)
    requires i < |a| && a[i] == ':'
    ensures a + (":" + x) == a[..i] + (":" + (a[i + 1..] + (":" + x)))
  {
    assert a == a[..i] + (":" + a[i + 1..]);
  }

  lemma CutAhead(a: string, x: string, i: nat)
    requires i < |x| && x[i] == ':'
    ensures a + (":" + x) == (a + (":" + x[..i])) + (":" + x[i + 1..])
  {
    assert x == x[..i] + (":" + x[i + 1..]);
  }

  /** Another pair with the same text. */
  lemma OtherPair(a: string, x: string) returns (b: string, y: string)
    requires ':' in a || ':' in x
    ensures b != a && b + (":" + y) == a + (":" + x)
  {
    if i :| 0 <= i < |a| && a[i] == ':' {
      CutBehind(a, x, i);
      b, y := a[..i], a[i + 1..] + (":" + x);
    } else {
      var j :| 0 <= j < |x| && x[j] == ':';
      CutAhead(a, x, j);
      b, y := a + (":" + x[..j]), x[j + 1..];
    }
  }

  lemma OtherTriple(a: string, x: string, u: string) returns (b: string, y: string, v: string)
    requires ':' in a || ':' in x || ':' in u
    ensures (b != a || y != x) && b + (":" + (y + (":" + v))) == a + (":" + (x + (":" + u)))
  {
    if ':' in x || ':' in u {
      b := a;
      y, v := OtherPair(x, u);
    } else {
      var i :| 0 <= i < |a| && a[i] == ':';
      b, y, v := a[..i], a[i + 1..] + (":" + x), u;
      CutBehind(a, x + (":" + u), i);
      assert (a[i + 1..] + (":" + x)) + (":" + u) == a[i + 1..] + (":" + (x + (":" + u)));
    }
  }

  lemma SharedId(t: Target) returns (q: Target)
    requires !HasPlainParts(t)
    ensures q != t && Id(q) == Id(t)
  {
    match t {
      case OfTable(db, entity) =>
        var b, y := OtherPair(db, entity);
        q := OfTable(b, y);
      case OfFunction(db, entity) =>
        var b, y := OtherPair(db, entity);
        q := OfFunction(b, y);
      case OfProcedure(db, entity) =>
        var b, y := OtherPair(db, entity);
        q := OfProcedure(b, y);
      case OfColumn(db, entity, field) =>
        var b, y, v := OtherTriple(db, entity, field);
        q := OfColumn(b, y, v);
    }
  }

  ghost predicate IsIdentified(t: Target)
  {
    forall q :: Id(q) == Id(t) ==> q == t
  }

  /** An id belongs to one object exactly when no part of its name that is followed or preceded
      by a colon in the id holds one itself. */
  lemma IdIdentifiesIff(t: Target)
    ensures IsIdentified(t) <==> HasPlainParts(t)
  {
    if HasPlainParts(t) {
      forall q | Id(q) == Id(t)
        ensures q == t
      {
        PlainPartsIdentify(t, q);
      }
    } else {
      var q := SharedId(t);
      assert !IsIdentified(t);
    }
  }

  /** For example, these two tables have one id. */
  lemma ColonsConfuse()
    ensures Id(OfTable("a:b", "c")) == Id(OfTable("a", "b:c")) && OfTable("a:b", "c") != OfTable("a", "b:c")
  {
    assert "a:b" + (":" + "c") == "a" + (":" + "b:c");
    assert "a:b"[0] == 'a' && |"a:b"| == 3;
  }

  class UserPrivilege {
    const target: Target
    var granted: set<string>

    constructor (target: Target, granted: set<string>)
      ensures this.target == target && this.granted == granted
    {
      this.target, this.granted := target, granted;
    }

    method GrantPrivilege(name: string)
      modifies this
      ensures granted == old(granted) + {name}
    {
      granted := granted + {name};
    }

    method InvokePrivilege(name: string) returns (removed: bool)
      modifies this
      ensures granted == old(granted) - {name} && removed == (name in old(granted))
    {
      removed := name in granted;
      granted := granted - {name};
    }

    method DeepCopy() returns (copy: UserPrivilege)
      ensures fresh(copy) && copy.target == target && copy.granted == granted
    {
      copy := new UserPrivilege(target, granted);
    }
  }

  /** The first privilege with an id. */
  function ById(privileges: seq<UserPrivilege>, id: string): (p: UserPrivilege?)
    reads privileges
    ensures p != null ==> p in privileges && Id(p.target) == id
    ensures p == null ==> forall x | x in privileges :: Id(x.target) != id
  {
    if privileges == [] then null
    else if Id(privileges[0].target) == id then privileges[0]
    else ById(privileges[1..], id)
  }

  datatype Status = Normal | EmptyPassword | InvalidPasswordLength | SkipNameResolve | UnknownError

  datatype LimitType = MaxQueriesPerHour | MaxUpdatesPerHour | MaxConnectionsPerHour | MaxUserConnections

  class User {
    var status: Status
    var username: string
    var host: string
    var password: string
    var limits: map<LimitType, int>
    var privileges: seq<UserPrivilege>
    var isNew: bool

    constructor (username: string, host: string, privileges: seq<UserPrivilege>)
      ensures this.username == username && this.host == host && this.privileges == privileges
      ensures status == Normal && password == [] && limits == map[] && !isNew
    {
      this.status, this.username, this.host, this.password := Normal, username, host, [];
      this.limits, this.privileges, this.isNew := map[], privileges, false;
    }

    method PrivilegeById(id: string) returns (p: UserPrivilege?)
      ensures p == ById(privileges, id)
    {
      for i := 0 to |privileges|
        invariant ById(privileges, id) == ById(privileges[i..], id)
      {
        assert privileges[i..][1..] == privileges[i + 1..];
        if Id(privileges[i].target) == id {
          return privileges[i];
        }
      }
      return null;
    }

    /** All data of another user but whether it is new; the privileges are separate objects.
        They are cleared first, so a user copied from itself has none left. */
    method CopyDataFrom(user: User)
      modifies this`status, this`username, this`host, this`password, this`limits, this`privileges
      ensures status == old(user.status) && username == old(user.username) && host == old(user.host)
      ensures password == old(user.password) && limits == old(user.limits)
      ensures |privileges| == if user == this then 0 else |user.privileges|
      ensures forall i | 0 <= i < |privileges| ::
                && fresh(privileges[i]) && privileges[i].target == user.privileges[i].target
                && privileges[i].granted == user.privileges[i].granted
    {
      status, username, host, password, limits := user.status, user.username, user.host, user.password, user.limits;
      privileges := [];
      ghost var from := user.privileges;
      for i := 0 to |user.privileges|
        modifies `privileges
        invariant |privileges| == i && (user != this ==> user.privileges == from)
        invariant forall k | 0 <= k < i ::
                    fresh(privileges[k]) && privileges[k].target == from[k].target
                      && privileges[k].granted == from[k].granted
      {
        var copy := user.privileges[i].DeepCopy();
        privileges := privileges + [copy];
      }
    }
  }
}
