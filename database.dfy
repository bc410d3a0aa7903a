/** server/config/database.js: the process-wide cache `dbConnections` of
    per-database connections, filled lazily by `connectDB`, and the `centralDB`
    connection made once when the module is loaded. */
module Database {
  import opened Common

  /** The database the central connection is scoped to. */
  const CentralDbName := "central_db"

  /** A Mongoose connection. Each one is a distinct object, scoped to one
      database name from the moment it is created. */
  class Connection {
    const dbName: string

    constructor (dbName: string)
      ensures this.dbName == dbName
    {
      this.dbName := dbName;
    }
  }

  /** The error `mongoose.createConnection` throws when the server cannot be
      reached; `connectDB` logs and re-throws it. */
  datatype ConnectError = MongoConnectionError

  class ConnectionCache {
    /** `dbConnections`: database name to its cached connection. */
    var connections: map<string, Connection>
    /** How many connections `connectDB` has opened so far. */
    var opens: nat
    /** `centralDB` */
    const central: Connection

    /** Every cached connection is scoped to the name it is cached under, and
        each miss opens exactly one of them. */
    ghost predicate Valid()
      reads this
    {
      && central.dbName == CentralDbName
      && opens == |connections|
      && forall n :: n in connections ==> connections[n].dbName == n
    }

    /** Loading the module: `centralDB` is created once, the cache starts empty. */
    constructor ()
      ensures Valid()
      ensures fresh(central) && central.dbName == CentralDbName
      ensures connections == map[] && opens == 0
    {
      central := new Connection(CentralDbName);
      connections := map[];
      opens := 0;
    }

    /** `connectDB(dbName)`. `reachable` is the outcome of the abstract open
        step `mongoose.createConnection`, consulted only on a miss. */
    method ConnectDB(dbName: string, reachable: bool) returns (r: Result<Connection, ConnectError>)
      requires Valid()
      modifies this
      ensures Valid()
      // a hit returns the cached handle and opens nothing
      ensures dbName in old(connections) ==>
        r == Ok(old(connections)[dbName]) && connections == old(connections) && opens == old(opens)
      // a miss opens exactly one new connection, scoped to dbName, cached under dbName only
      ensures dbName !in old(connections) && reachable ==>
        && r.Ok? && fresh(r.value) && r.value.dbName == dbName
        && connections == old(connections)[dbName := r.value]
        && opens == old(opens) + 1
      // a failed open leaves the cache as it was and re-throws
      ensures dbName !in old(connections) && !reachable ==>
        r == Err(MongoConnectionError) && connections == old(connections) && opens == old(opens)
      // after success the name is cached, and the handle returned is the cached one
      ensures r.Ok? ==> dbName in connections && connections[dbName] == r.value
      // entries are never removed or replaced
      ensures forall n :: n in old(connections) ==> n in connections && connections[n] == old(connections)[n]
    {
      if dbName !in connections {
        if !reachable {
          return Err(MongoConnectionError);
        }
        var connection := new Connection(dbName);
        assert connections.Keys + {dbName} == connections[dbName := connection].Keys;
        connections := connections[dbName := connection];
        opens := opens + 1;
      }
      r := Ok(connections[dbName]);
    }
  }

  /** Two calls of `connectDB` with the same name, the first successful: the
      second returns the very same handle and opens no new connection. */
  method ConnectTwice(cache: ConnectionCache, dbName: string, firstReachable: bool, secondReachable: bool)
    returns (first: Result<Connection, ConnectError>, second: Result<Connection, ConnectError>)
    requires cache.Valid()
    modifies cache
    ensures cache.Valid()
    ensures first.Ok? ==> second == first && cache.opens <= old(cache.opens) + 1
    ensures first.Ok? && dbName in old(cache.connections) ==> cache.opens == old(cache.opens)
  {
    first := cache.ConnectDB(dbName, firstReachable);
    ghost var between := cache.opens;
    second := cache.ConnectDB(dbName, secondReachable);
    assert first.Ok? ==> cache.opens == between;
  }

  // ---------------------------------------------------------------------------
  // The cache test as written: `!dbConnections[dbName]` on a plain object.

  /** Names every JavaScript object literal inherits from Object.prototype. */
  const ObjectPrototypeNames: set<string> := {
    "constructor", "__proto__", "toString", "toLocaleString", "valueOf",
    "hasOwnProperty", "isPrototypeOf", "propertyIsEnumerable",
    "__defineGetter__", "__defineSetter__", "__lookupGetter__", "__lookupSetter__"
  }

  /** What `dbConnections[dbName]` evaluates to on the `{}` literal of line 4:
      an own entry, an inherited Object.prototype member (a function or an object,
      always truthy), or undefined. */
  datatype CachedValue = OwnEntry(connection: Connection) | Inherited(name: string) | Undefined

  function CachedValueAsWritten(connections: map<string, Connection>, dbName: string): (v: CachedValue)
    ensures v.Undefined? <==> dbName !in connections && dbName !in ObjectPrototypeNames
  {
    if dbName in connections then OwnEntry(connections[dbName])
    else if dbName in ObjectPrototypeNames then Inherited(dbName)
    else Undefined
  }

  /** Line 15 opens a connection only when the value read is falsy. */
  predicate OpensAsWritten(connections: map<string, Connection>, dbName: string)
  {
    CachedValueAsWritten(connections, dbName).Undefined?
  }

  /** On the empty cache, `connectDB("toString")` opens nothing and returns
      `Object.prototype.toString` instead of a connection, although no
      connection by that name exists. */
  lemma PrototypeNameSkipsOpen()
    ensures !OpensAsWritten(map[], "toString")
    ensures CachedValueAsWritten(map[], "toString") == Inherited("toString")
  {
    assert "toString" in ObjectPrototypeNames;
  }

  /** The intended cache test, which `ConnectionCache.ConnectDB` uses: a
      connection is opened exactly for the names not yet cached. The two agree
      on every name that is not an inherited member. */
  lemma AsWrittenAgreesOffPrototype(connections: map<string, Connection>, dbName: string)
    requires dbName !in ObjectPrototypeNames
    ensures OpensAsWritten(connections, dbName) <==> dbName !in connections
  {
  }
}
