/** The local replica of the OVSDB tables and the port transactions of
    server/ovs_driver.go (sections 3.2, 4.1.6, 5.2.1, 5.2.4 and 5.2.5 of RFC 7047). */
module Ovsdb {
  import opened Store

  type Uuid = string
  type Row = map<string, string>
  type Tables = map<string, map<Uuid, Row>>

  /** One row of an update: the new contents, or None if the row was deleted. */
  type Updates = map<string, map<Uuid, Option<Row>>>

  function Table(t: Tables, name: string): map<Uuid, Row> {
    if name in t then t[name] else map[]
  }

  /** A missing table counts as an empty one. */
  ghost predicate Same(a: Tables, b: Tables) {
    forall name :: Table(a, name) == Table(b, name)
  }

  // ---- populateCache

  /** The rows after every row update except those still to do. */
  function RowsExcept(rows: map<Uuid, Row>, u: map<Uuid, Option<Row>>, todo: set<Uuid>): map<Uuid, Row> {
    map id | id in rows.Keys + u.Keys && (if id in u.Keys - todo then u[id].Some? else id in rows) ::
      if id in u.Keys - todo then u[id].value else rows[id]
  }

  function RowsApplied(rows: map<Uuid, Row>, u: map<Uuid, Option<Row>>): map<Uuid, Row> {
    RowsExcept(rows, u, {})
  }

  function PopulatedExcept(cache: Tables, u: Updates, todo: set<string>): Tables {
    map name | name in cache.Keys + (u.Keys - todo) ::
      if name in u.Keys - todo then RowsApplied(Table(cache, name), u[name]) else cache[name]
  }

  function Populated(cache: Tables, u: Updates): Tables {
    PopulatedExcept(cache, u, {})
  }

  lemma RowStep(rows: map<Uuid, Row>, u: map<Uuid, Option<Row>>, todo: set<Uuid>, id: Uuid)
    requires todo <= u.Keys && id in todo
    ensures RowsExcept(rows, u, todo - {id})
         == if u[id].Some? then RowsExcept(rows, u, todo)[id := u[id].value] else RowsExcept(rows, u, todo) - {id}
  {
  }

  lemma NoRowsYet(rows: map<Uuid, Row>, u: map<Uuid, Option<Row>>)
    ensures RowsExcept(rows, u, u.Keys) == rows
  {
  }

  lemma TableStep(cache: Tables, u: Updates, todo: set<string>, name: string)
    requires todo <= u.Keys && name in todo
    ensures Table(PopulatedExcept(cache, u, todo), name) == Table(cache, name)
    ensures PopulatedExcept(cache, u, todo - {name})
         == PopulatedExcept(cache, u, todo)[name := RowsApplied(Table(cache, name), u[name])]
  {
  }

  lemma NoTablesYet(cache: Tables, u: Updates)
    ensures PopulatedExcept(cache, u, u.Keys) == cache
  {
  }

  class Cache {
    var cache: Tables

    /** The inner loop of populateCache over one table update. */
    method ApplyRows(table: map<Uuid, Row>, u: map<Uuid, Option<Row>>) returns (rows: map<Uuid, Row>)
      ensures rows == RowsApplied(table, u)
    {
      rows := table;
      var todo := u.Keys;
      NoRowsYet(table, u);
      while todo != {}
        invariant todo <= u.Keys
        invariant rows == RowsExcept(table, u, todo)
        decreases todo
      {
        var id :| id in todo;
        RowStep(table, u, todo, id);
        if u[id].Some? {
          rows := rows[id := u[id].value];
        } else {
          rows := rows - {id};
        }
        todo := todo - {id};
      }
    }

    method PopulateCache(u: Updates)
      modifies this
      ensures cache == Populated(old(cache), u)
    {
      var todo := u.Keys;
      NoTablesYet(cache, u);
      while todo != {}
        invariant todo <= u.Keys
        invariant cache == PopulatedExcept(old(cache), u, todo)
        decreases todo
      {
        var name :| name in todo;
        TableStep(old(cache), u, todo, name);
        var rows := ApplyRows(if name in cache then cache[name] else map[], u[name]);
        cache := cache[name := rows];
        todo := todo - {name};
      }
    }
  }

  // ---- the replica follows the server

  /** The update the server sends for a change of its tables: every row that differs. */
  function RowChanges(a: map<Uuid, Row>, b: map<Uuid, Row>): map<Uuid, Option<Row>> {
    map id | id in a.Keys + b.Keys && !(id in a && id in b && a[id] == b[id]) ::
      if id in b then Some(b[id]) else None
  }

  function Changes(a: Tables, b: Tables): Updates {
    map name | name in a.Keys + b.Keys && Table(a, name) != Table(b, name) :: RowChanges(Table(a, name), Table(b, name))
  }

  lemma RowsFollow(a: map<Uuid, Row>, b: map<Uuid, Row>)
    ensures RowsApplied(a, RowChanges(a, b)) == b
  {
  }

  lemma UpdateFollows(cache: Tables, a: Tables, b: Tables)
    requires Same(cache, a)
    ensures Same(Populated(cache, Changes(a, b)), b)
  {
    var c := Populated(cache, Changes(a, b));
    forall name
      ensures Table(c, name) == Table(b, name)
    {
      assert Table(cache, name) == Table(a, name);
      RowsFollow(Table(a, name), Table(b, name));
    }
  }

  /** The cache after the initial dump and the updates of a run of server states. */
  function Replica(server: seq<Tables>): Tables
    requires server != []
  {
    if |server| == 1 then Populated(map[], Changes(map[], server[0]))
    else
      var k := |server| - 1;
      Populated(Replica(server[..k]), Changes(server[k - 1], server[k]))
  }

  /** After the initial dump and after every update the cache is, table by table and row by
      row, what the server holds. */
  lemma {:induction false} ReplicaIsFaithful(server: seq<Tables>)
    requires server != []
    ensures Same(Replica(server), server[|server| - 1])
  {
    if |server| == 1 {
      UpdateFollows(map[], map[], server[0]);
    } else {
      var k := |server| - 1;
      ReplicaIsFaithful(server[..k]);
      UpdateFollows(Replica(server[..k]), server[k - 1], server[k]);
    }
  }

  // ---- port transactions

  /** The Port table by name column, and the ports column of the bridge. */
  datatype Db = Db(ports: map<Uuid, string>, bridge: set<Uuid>) {
    ghost predicate UniqueNames() {
      forall a, b :: a in ports && b in ports && ports[a] == ports[b] ==> a == b
    }

    /** Every uuid of the bridge's ports names an existing row. */
    predicate Intact() {
      bridge <= ports.Keys
    }
  }

  /** AddInternalPort: insert a row under a fresh uuid and add it to the bridge; a second
      port of the same name is refused. */
  function Added(db: Db, name: string, id: Uuid): Db {
    if name in db.ports.Values then db else Db(db.ports[id := name], db.bridge + {id})
  }

  /** portUuidForName on the cached Port table. */
  method PortUuidForName(cached: map<Uuid, string>, name: string) returns (r: Option<Uuid>)
    ensures r.Some? <==> name in cached.Values
    ensures r.Some? ==> r.value in cached && cached[r.value] == name
  {
    var todo := cached.Keys;
    while todo != {}
      invariant todo <= cached.Keys
      invariant forall id :: id in cached && id !in todo ==> cached[id] != name
      decreases todo
    {
      var id :| id in todo;
      if cached[id] == name {
        return Some(id);
      }
      todo := todo - {id};
    }
    return None;
  }

  /** What deletePort asks for: the rows go by name, the reference by the uuid the cache gave. */
  function Asked(db: Db, name: string, cachedId: Uuid): Db {
    Db(map id | id in db.ports && db.ports[id] != name :: db.ports[id], db.bridge - {cachedId})
  }

  /** A transaction that would leave a reference to a row that is gone is refused as a whole
      (referential integrity, section 3.2 of RFC 7047); deletePort ignores the answer. */
  function Deleted(db: Db, name: string, cachedId: Option<Uuid>): Db {
    if cachedId.None? || !Asked(db, name, cachedId.value).Intact() then db else Asked(db, name, cachedId.value)
  }

  lemma AddKeepsIntact(db: Db, name: string, id: Uuid)
    requires db.Intact() && db.UniqueNames() && id !in db.ports
    ensures Added(db, name, id).Intact() && Added(db, name, id).UniqueNames()
  {
    var e := Added(db, name, id);
    if name !in db.ports.Values {
      forall a | a in db.ports
        ensures db.ports[a] != name
      {
        assert db.ports[a] in db.ports.Values;
      }
    }
  }

  /** A deletion takes effect exactly when the uuid from the cache is the port's own, or the
      port was not on the bridge; otherwise the server refuses it and the port stays. No
      reference ever dangles. */
  lemma DeleteTakesEffectExactly(db: Db, name: string, id: Uuid, cachedId: Uuid)
    requires db.Intact() && db.UniqueNames() && id in db.ports && db.ports[id] == name
    ensures name !in Deleted(db, name, Some(cachedId)).ports.Values <==> cachedId == id || id !in db.bridge
    ensures Deleted(db, name, Some(cachedId)).Intact() && Deleted(db, name, Some(cachedId)).UniqueNames()
    ensures var e := Deleted(db, name, Some(cachedId));
            if cachedId == id || id !in db.bridge then e == Db(db.ports - {id}, db.bridge - {cachedId}) else e == db
  {
    var e := Asked(db, name, cachedId);
    assert e.ports == db.ports - {id};
    assert name !in e.ports.Values;
    assert name in db.ports.Values;
  }

  /** Deleting a port just added, with the replica caught up, restores the Port table and
      the bridge. */
  lemma AddDeleteRoundTrip(db: Db, name: string, id: Uuid, found: Option<Uuid>)
    requires db.Intact() && db.UniqueNames() && id !in db.ports && name !in db.ports.Values
    requires var cached := Added(db, name, id).ports;
             && (found.Some? <==> name in cached.Values)
             && (found.Some? ==> found.value in cached && cached[found.value] == name)
    ensures Deleted(Added(db, name, id), name, found) == db
  {
    var e := Added(db, name, id);
    assert e.ports[id] == name && name in e.ports.Values;
    AddKeepsIntact(db, name, id);
    assert found.value == id;
    forall a | a in db.ports
      ensures db.ports[a] != name
    {
      assert db.ports[a] in db.ports.Values;
    }
    assert Deleted(e, name, found).ports == db.ports;
    assert Deleted(e, name, found).bridge == db.bridge;
  }

  /** The Port table as the cache holds it: the name column of each row. */
  function PortNames(t: Tables): map<Uuid, string> {
    map id | id in Table(t, "Port") && "name" in Table(t, "Port")[id] :: Table(t, "Port")[id]["name"]
  }

  /** A faithful replica answers portUuidForName as the server would. */
  lemma ReplicaNamesPorts(server: seq<Tables>)
    requires server != []
    ensures PortNames(Replica(server)) == PortNames(server[|server| - 1])
  {
    ReplicaIsFaithful(server);
    assert Table(Replica(server), "Port") == Table(server[|server| - 1], "Port");
  }

  /** The driver: transactions go to the server, names are looked up in the cache. */
  class Driver {
    var db: Db
    var cache: Tables

    /** `id` is the uuid the server picks for the new row. */
    method AddInternalPort(name: string, id: Uuid) returns (ok: bool)
      requires db.Intact() && db.UniqueNames() && id !in db.ports
      modifies this`db
      ensures ok <==> name !in old(db).ports.Values
      ensures db == Added(old(db), name, id) && db.Intact() && db.UniqueNames()
      ensures db == if ok then Db(old(db).ports[id := name], old(db).bridge + {id}) else old(db)
    {
      AddKeepsIntact(db, name, id);
      ok := name !in db.ports.Values;
      if ok {
        db := Db(db.ports[id := name], db.bridge + {id});
      }
    }

    method DeletePort(name: string) returns (found: Option<Uuid>)
      requires db.Intact() && db.UniqueNames()
      modifies this`db
      ensures found.Some? <==> name in PortNames(cache).Values
      ensures db == Deleted(old(db), name, found)
      ensures db.Intact() && db.UniqueNames()
      ensures PortNames(cache) == old(db).ports ==> name !in db.ports.Values
    {
      found := PortUuidForName(PortNames(cache), name);
      if found.Some? {
        if PortNames(cache) == db.ports {
          DeleteTakesEffectExactly(db, name, found.value, found.value);
        }
        db := Deleted(db, name, found);
      }
    }
  }

  datatype Txn = Add(name: string, id: Uuid) | Delete(name: string, found: Option<Uuid>)

  /** The server picks fresh uuids; the cache a deletion consults may be stale. */
  ghost predicate Proper(db: Db, t: Txn) {
    t.Add? ==> t.id !in db.ports
  }

  function Committed(db: Db, t: Txn): Db {
    match t
    case Add(name, id) => Added(db, name, id)
    case Delete(name, found) => Deleted(db, name, found)
  }

  function RunTxns(txns: seq<Txn>): Db {
    if txns == [] then Db(map[], {}) else Committed(RunTxns(txns[..|txns| - 1]), txns[|txns| - 1])
  }

  /** In every run of proper transactions the bridge refers only to existing ports, and no
      two ports share a name. */
  lemma {:induction false} BridgeStaysIntact(txns: seq<Txn>)
    requires forall i :: 0 <= i < |txns| ==> Proper(RunTxns(txns[..i]), txns[i])
    ensures RunTxns(txns).Intact() && RunTxns(txns).UniqueNames()
  {
    if txns != [] {
      var before, t := txns[..|txns| - 1], txns[|txns| - 1];
      forall i | 0 <= i < |before|
        ensures Proper(RunTxns(before[..i]), before[i])
      {
        assert before[..i] == txns[..i];
      }
      BridgeStaysIntact(before);
      var db := RunTxns(before);
      match t
      case Add(name, id) => AddKeepsIntact(db, name, id);
      case Delete(name, found) =>
    }
  }
}
