/**
 * The part of Redis the broker and the worker use: streams with consumer
 * groups. A stream is an append-only sequence of flat string maps; the id of
 * an entry is its position. A consumer group keeps a last-delivered cursor and
 * the set of entries delivered but not yet acknowledged (its pending list).
 *
 * The spec functions work on the whole keyspace as a value; the `Redis` class
 * holds that keyspace as a field and its methods are the client calls.
 */
module Streams {

  /** The field/value pairs of one stream entry. */
  type Fields = map<string, string>

  datatype Group = Group(lastDelivered: nat, pending: set<nat>)

  datatype Stream = Stream(entries: seq<Fields>, groups: map<string, Group>)

  type Db = map<string, Stream>

  /** What `XREADGROUP GROUP g c COUNT 1 STREAMS key >` hands back. */
  datatype Delivery =
    | Delivered(id: nat, fields: Fields)
    | NoNewEntry
    | NoGroup    // the NOGROUP error: no such key or no such group

  predicate GroupValid(g: Group, size: nat)
  {
    g.lastDelivered <= size && forall id :: id in g.pending ==> id < g.lastDelivered
  }

  predicate StreamValid(st: Stream)
  {
    forall name :: name in st.groups ==> GroupValid(st.groups[name], |st.entries|)
  }

  /** Cursors never pass the end of their stream and only delivered entries are pending. */
  predicate Valid(db: Db)
  {
    forall key :: key in db ==> StreamValid(db[key])
  }

  function Entries(db: Db, key: string): seq<Fields>
  {
    if key in db then db[key].entries else []
  }

  predicate HasGroup(db: Db, key: string, group: string)
  {
    key in db && group in db[key].groups
  }

  function GroupOf(db: Db, key: string, group: string): Group
    requires HasGroup(db, key, group)
  {
    db[key].groups[group]
  }

  // ------------------------------------------------------------ the commands

  /** `XADD key * fields`: appends one entry, creating the stream if needed. */
  function Append(db: Db, key: string, f: Fields): (r: (nat, Db))
    ensures r.0 == |Entries(db, key)|
    ensures key in r.1 && r.1[key].entries == Entries(db, key) + [f]
    ensures key in db ==> r.1[key].groups == db[key].groups
    ensures forall k :: k != key && k in db ==> k in r.1 && r.1[k] == db[k]
    ensures r.1.Keys == db.Keys + {key}
  {
    var st := if key in db then db[key] else Stream([], map[]);
    (|st.entries|, db[key := st.(entries := st.entries + [f])])
  }

  /** `XGROUP CREATE key group 0 MKSTREAM`. The flag is false for the BUSYGROUP error. */
  function CreateGroup(db: Db, key: string, group: string): (r: (bool, Db))
    ensures r.0 <==> !HasGroup(db, key, group)
    ensures HasGroup(r.1, key, group)
    ensures !r.0 ==> r.1 == db
    ensures r.0 ==> r.1[key].groups[group] == Group(0, {})
    ensures Entries(r.1, key) == Entries(db, key)
    ensures forall g :: HasGroup(db, key, g) ==> HasGroup(r.1, key, g) && r.1[key].groups[g] == db[key].groups[g]
    ensures forall k :: k != key && k in db ==> k in r.1 && r.1[k] == db[k]
    ensures r.1 == db[key := r.1[key]]
    ensures r.1[key].groups == (if key in db then db[key].groups else map[])[group := r.1[key].groups[group]]
  {
    if HasGroup(db, key, group) then (false, db)
    else
      var st := if key in db then db[key] else Stream([], map[]);
      (true, db[key := st.(groups := st.groups[group := Group(0, {})])])
  }

  /** Reading `>` with `COUNT 1`: the first entry past the cursor, which is then pending. */
  function ReadNext(db: Db, key: string, group: string): (r: (Delivery, Db))
    requires Valid(db)
    ensures r.0.NoGroup? <==> !HasGroup(db, key, group)
    ensures !r.0.Delivered? ==> r.1 == db
    ensures r.0.NoNewEntry? <==> HasGroup(db, key, group) && db[key].groups[group].lastDelivered == |db[key].entries|
    ensures r.0.Delivered? ==>
      var g := db[key].groups[group];
      && r.0.id == g.lastDelivered < |db[key].entries|
      && r.0.fields == db[key].entries[r.0.id]
      && r.1 == db[key := db[key].(groups := db[key].groups[group := Group(g.lastDelivered + 1, g.pending + {r.0.id})])]
  {
    if !HasGroup(db, key, group) then (NoGroup, db)
    else
      var st := db[key];
      var g := st.groups[group];
      if g.lastDelivered == |st.entries| then (NoNewEntry, db)
      else
        var id := g.lastDelivered;
        (Delivered(id, st.entries[id]), db[key := st.(groups := st.groups[group := Group(id + 1, g.pending + {id})])])
  }

  /** `XACK key group id`: the count of entries that left the pending list. */
  function Acknowledge(db: Db, key: string, group: string, id: nat): (r: (nat, Db))
    ensures r.0 == 1 <==> HasGroup(db, key, group) && id in db[key].groups[group].pending
    ensures r.0 <= 1
    ensures HasGroup(db, key, group) ==>
      (var g := db[key].groups[group];
       key in r.1 && r.1[key] == db[key].(groups := db[key].groups[group := g.(pending := g.pending - {id})]))
    ensures !HasGroup(db, key, group) ==> r.1 == db
    ensures r.1.Keys == db.Keys
    ensures key in db ==> r.1 == db[key := r.1[key]]
  {
    if !HasGroup(db, key, group) then (0, db)
    else
      var st := db[key];
      var g := st.groups[group];
      (if id in g.pending then 1 else 0, db[key := st.(groups := st.groups[group := g.(pending := g.pending - {id})])])
  }

  // ------------------------------------------------------------ what they keep

  lemma AppendValid(db: Db, key: string, f: Fields)
    requires Valid(db)
    ensures Valid(Append(db, key, f).1)
  {
    var r := Append(db, key, f).1;
    forall k | k in r
      ensures StreamValid(r[k])
    {
      if k == key && key in db {
        assert StreamValid(db[key]);
      }
    }
  }

  lemma CreateGroupValid(db: Db, key: string, group: string)
    requires Valid(db)
    ensures Valid(CreateGroup(db, key, group).1)
  {
    var r := CreateGroup(db, key, group).1;
    forall k | k in r
      ensures StreamValid(r[k])
    {
      if k == key && key in db {
        assert StreamValid(db[key]);
      }
    }
  }

  lemma ReadNextValid(db: Db, key: string, group: string)
    requires Valid(db)
    ensures Valid(ReadNext(db, key, group).1)
  {
    var r := ReadNext(db, key, group);
    if r.0.Delivered? {
      forall k | k in r.1
        ensures StreamValid(r.1[k])
      {
        assert k in db && StreamValid(db[k]);
      }
    }
  }

  lemma AcknowledgeValid(db: Db, key: string, group: string, id: nat)
    requires Valid(db)
    ensures Valid(Acknowledge(db, key, group, id).1)
  {
    var r := Acknowledge(db, key, group, id).1;
    forall k | k in r
      ensures StreamValid(r[k])
    {
      assert k in db && StreamValid(db[k]);
    }
  }

  /** Creating a group twice leaves the keyspace as creating it once. */
  lemma CreateGroupIdempotent(db: Db, key: string, group: string)
    ensures CreateGroup(CreateGroup(db, key, group).1, key, group) == (false, CreateGroup(db, key, group).1)
  {
  }

  /** Acknowledging twice leaves the keyspace as acknowledging once, and the second call counts nothing. */
  lemma AcknowledgeIdempotent(db: Db, key: string, group: string, id: nat)
    ensures var once := Acknowledge(db, key, group, id).1;
      Acknowledge(once, key, group, id) == (0, once)
  {
    var once := Acknowledge(db, key, group, id).1;
    if HasGroup(db, key, group) {
      var st := once[key];
      var g := st.groups[group];
      assert g.pending - {id} == g.pending;
      assert g.(pending := g.pending - {id}) == g;
      assert st.groups[group := g] == st.groups;
      assert once[key := st] == once;
    }
  }

  /** Reading never changes what any stream holds. */
  lemma ReadNextKeepsEntries(db: Db, key: string, group: string, k: string)
    requires Valid(db)
    ensures Entries(ReadNext(db, key, group).1, k) == Entries(db, k)
  {
  }

  // ------------------------------------------------------------ the client

  /** The server's keyspace as seen through one client connection. */
  class Redis {
    var db: Db

    /** A connection to a server whose keyspace is `server`: connecting changes nothing
        on the server, whatever streams and groups earlier runs left there. */
    constructor(server: Db)
      ensures db == server
    {
      db := server;
    }

    method XAdd(key: string, f: Fields) returns (id: nat)
      modifies this
      ensures (id, db) == Append(old(db), key, f)
    {
      id := |Entries(db, key)|;
      db := Append(db, key, f).1;
    }

    method XGroupCreate(key: string, group: string) returns (created: bool)
      modifies this
      ensures (created, db) == CreateGroup(old(db), key, group)
    {
      created := !HasGroup(db, key, group);
      db := CreateGroup(db, key, group).1;
    }

    method XReadGroup(key: string, group: string) returns (d: Delivery)
      requires Valid(db)
      modifies this
      ensures (d, db) == ReadNext(old(db), key, group)
      ensures Valid(db)
    {
      ReadNextValid(db, key, group);
      var r := ReadNext(db, key, group);
      d := r.0;
      db := r.1;
    }

    method XAck(key: string, group: string, id: nat) returns (n: nat)
      requires Valid(db)
      modifies this
      ensures (n, db) == Acknowledge(old(db), key, group, id)
      ensures Valid(db)
    {
      AcknowledgeValid(db, key, group, id);
      var r := Acknowledge(db, key, group, id);
      n := r.0;
      db := r.1;
    }
  }
}
