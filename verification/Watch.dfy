/**
 Optimistic transactions (multi.c): the two-way index between clients and the keys they watch, and
 what the commands of other clients do to it. Clients are numbered; keys belong to a database.
 */
module Watch {
  import opened Bytes
  import opened Keyspace
  import opened Sequences
  import opened Wrappers

  datatype Place = Place(db: nat, key: bytes)

  /** What a transaction queues: commands on the keyspace, and UNWATCH, which is queued like them. */
  datatype Entry = Data(cmd: Command) | UnwatchLater

  datatype Client = Client(sel: nat, watched: seq<Place>, multi: bool, dirtyCas: bool, dirtyExec: bool,
      queue: seq<Entry>)

  /** All clients, for every database the lists of clients that watch its keys, and the keyspace. */
  datatype State = State(clients: map<nat, Client>, watchers: seq<map<bytes, seq<nat>>>, dbs: seq<Db>)

  // The index ------------------------------------------------------------------------------------

  predicate Watches(s: State, id: nat, p: Place) {
    id in s.clients && p in s.clients[id].watched
  }

  predicate Listed(s: State, id: nat, p: Place) {
    p.db < |s.watchers| && p.key in s.watchers[p.db] && id in s.watchers[p.db][p.key]
  }

  /** The two halves of the index are inverse to one another, without duplicates or empty lists, and
      every client is in a database. */
  ghost predicate Inverse(s: State) {
    && |s.watchers| == |s.dbs|
    && (forall id: nat, p: Place :: Watches(s, id, p) <==> Listed(s, id, p))
    && (forall id :: id in s.clients ==> Distinct(s.clients[id].watched) && s.clients[id].sel < |s.dbs|)
    && (forall db, k :: 0 <= db < |s.watchers| && k in s.watchers[db] ==>
          s.watchers[db][k] != [] && Distinct(s.watchers[db][k]))
  }

  function WithClient(s: State, id: nat, c: Client): State {
    s.(clients := s.clients[id := c])
  }

  /** watchForKey */
  function WatchForKey(s: State, id: nat, k: bytes): State
    requires id in s.clients && s.clients[id].sel < |s.watchers|
  {
    var c := s.clients[id];
    var p, list := Place(c.sel, k), if k in s.watchers[c.sel] then s.watchers[c.sel][k] else [];
    if p in c.watched then s
    else
      WithClient(s, id, c.(watched := c.watched + [p]))
      .(watchers := s.watchers[c.sel := s.watchers[c.sel][k := list + [id]]])
  }

  function Without<T(==)>(s: seq<T>, x: T): seq<T> {
    if s == [] then [] else if s[0] == x then Without(s[1..], x) else [s[0]] + Without(s[1..], x)
  }

  /** A table of lists without a client, and without the lists it leaves empty. */
  function Dropped(m: map<bytes, seq<nat>>, id: nat): map<bytes, seq<nat>> {
    map k | k in m && Without(m[k], id) != [] :: Without(m[k], id)
  }

  /** unwatchAllKeys */
  function UnwatchAllKeys(s: State, id: nat): State
    requires id in s.clients
  {
    WithClient(s, id, s.clients[id].(watched := []))
    .(watchers := seq(|s.watchers|, i requires 0 <= i < |s.watchers| => Dropped(s.watchers[i], id)))
  }

  lemma DistinctTail<T>(s: seq<T>)
    requires s != [] && Distinct(s)
    ensures Distinct(s[1..]) && s[0] !in s[1..]
  {}

  lemma {:induction false} WithoutMembers<T>(s: seq<T>, x: T)
    ensures forall y :: y in Without(s, x) <==> y in s && y != x
    ensures Distinct(s) ==> Distinct(Without(s, x))
  {
    if s != [] {
      WithoutMembers(s[1..], x);
      if Distinct(s) {
        DistinctTail(s);
      }
    }
  }

  lemma WatchKeepsInverse(s: State, id: nat, k: bytes)
    requires Inverse(s) && id in s.clients
    ensures Inverse(WatchForKey(s, id, k))
  {
    var s', c := WatchForKey(s, id, k), s.clients[id];
    var p := Place(c.sel, k);
    if p !in c.watched {
      assert !Watches(s, id, p) && !Listed(s, id, p);
      forall i: nat, q: Place
        ensures Watches(s', i, q) <==> Listed(s', i, q)
      {
        assert Watches(s, i, q) <==> Listed(s, i, q);
      }
    }
  }

  lemma UnwatchKeepsInverse(s: State, id: nat)
    requires Inverse(s) && id in s.clients
    ensures Inverse(UnwatchAllKeys(s, id))
  {
    var s' := UnwatchAllKeys(s, id);
    forall i: nat, q: Place
      ensures Watches(s', i, q) <==> Listed(s', i, q)
    {
      assert Watches(s, i, q) <==> Listed(s, i, q);
      if q.db < |s.watchers| && q.key in s.watchers[q.db] {
        WithoutMembers(s.watchers[q.db][q.key], id);
      }
    }
    forall db, k | 0 <= db < |s'.watchers| && k in s'.watchers[db]
      ensures s'.watchers[db][k] != [] && Distinct(s'.watchers[db][k])
    {
      WithoutMembers(s.watchers[db][k], id);
    }
  }

  // Touching keys --------------------------------------------------------------------------------

  predicate WatchesAny(c: Client, ps: set<Place>) {
    exists p :: p in c.watched && p in ps
  }

  /** The clients that watch one of some keys are marked. */
  function Marked(clients: map<nat, Client>, ps: set<Place>): (r: map<nat, Client>)
    ensures r.Keys == clients.Keys
  {
    map id | id in clients ::
      if WatchesAny(clients[id], ps) then clients[id].(dirtyCas := true) else clients[id]
  }

  function Lookup(dbs: seq<Db>, p: Place): Option<Value> {
    if p.db < |dbs| && p.key in dbs[p.db].dict then Some(dbs[p.db].dict[p.key]) else None
  }

  function Present(dbs: seq<Db>, i: nat): set<Place>
    requires i < |dbs|
  {
    set k | k in dbs[i].dict :: Place(i, k)
  }

  /** The keys for which a command calls signalModifiedKey, and for a flush those that it deletes;
      `dbs` is the keyspace after the command's lookups. Neither MOVE nor PERSIST signals anything. */
  function Signals(c: Command, dbs: seq<Db>, sel: nat, clock: Clock): set<Place>
    requires sel < |dbs|
  {
    var db := dbs[sel];
    match c
    case SetCmd(k, _) => {Place(sel, k)}
    case SetNx(k, _) => if k in db.dict then {} else {Place(sel, k)}
    case SetEx(k, ttl, _, _) => if ttl <= 0 then {} else {Place(sel, k)}
    case Expire(k, _, _, _) => if k in db.dict then {Place(sel, k)} else {}
    case Del(ks) => set k | k in ks && k in db.dict :: Place(sel, k)
    case Rename(src, dst, nx) =>
      if src == dst || src !in db.dict || (dst in db.dict && nx) then {} else {Place(sel, src), Place(sel, dst)}
    case RPush(k, items) => if items == [] || (k in db.dict && !db.dict[k].List?) then {} else {Place(sel, k)}
    case SAdd(k, items) =>
      if DbBody(c, db, clock).dirty then {Place(sel, k)} else {}
    case HMSet(k, args) => if DbBody(c, db, clock).dirty then {Place(sel, k)} else {}
    case FlushDb => Present(dbs, sel)
    case FlushAll => set i, k | 0 <= i < |dbs| && k in dbs[i].dict :: Place(i, k)
    case _ => {}
  }

  /** A MOVE that moves: the two places it changes. */
  function MovedPlaces(c: Command, dbs: seq<Db>, sel: nat): set<Place>
    requires sel < |dbs|
  {
    if c.Move? && 0 <= c.db < |dbs| && c.db != sel && c.key in dbs[sel].dict && c.key !in dbs[c.db].dict then
      {Place(sel, c.key), Place(c.db, c.key)}
    else {}
  }

  lemma {:induction false} DeleteAllElsewhere(db: Db, ks: seq<bytes>, k: bytes)
    ensures k in DeleteAll(db, ks).dict <==> k in db.dict && k !in ks
    ensures k in DeleteAll(db, ks).dict ==> DeleteAll(db, ks).dict[k] == db.dict[k]
    decreases |ks|
  {
    if ks != [] {
      DeleteAllElsewhere(DbDelete(db, ks[0]), ks[1..], k);
    }
  }

  lemma AddNothing(c: Command, db: Db, clock: Clock)
    requires c.SAdd?
    ensures !DbBody(c, db, clock).dirty && c.key in db.dict ==> DbBody(c, db, clock).data == db
    ensures !DbBody(c, db, clock).dirty ==> c.items == [] || c.key in db.dict
  {
    if c.items != [] && c.key !in db.dict {
      assert c.items[0] in ToSet(c.items);
    }
    if c.key in db.dict && db.dict[c.key].Set? && ToSet(c.items) <= db.dict[c.key].members {
      assert db.dict[c.key].members + ToSet(c.items) == db.dict[c.key].members;
    }
  }

  predicate Differs(db: Db, after: Db, k: bytes) {
    (k in db.dict) != (k in after.dict) || (k in db.dict && db.dict[k] != after.dict[k])
  }

  /** What a command does to a key of its own database shows in its signals. */
  lemma OwnChangeSignalled(c: Command, dbs: seq<Db>, sel: nat, clock: Clock, k: bytes)
    requires sel < |dbs| && !c.Move? && !c.FlushAll?
    requires Differs(dbs[sel], DbBody(c, dbs[sel], clock).data, k)
    ensures Place(sel, k) in Signals(c, dbs, sel, clock)
  {
    if c.Del? {
      DeleteAllElsewhere(dbs[sel], c.keys, k);
    } else if c.SAdd? {
      AddNothing(c, dbs[sel], clock);
    } else if c.FlushDb? {
      assert Place(sel, k) in Present(dbs, sel);
    }
  }

  lemma MoveUnsignalled(c: Command, dbs: seq<Db>, sel: nat, clock: Clock, p: Place)
    requires sel < |dbs| && c.Move?
    ensures Signals(c, dbs, sel, clock) == {}
    ensures Lookup(Body(c, dbs, sel, clock).data, p) != Lookup(dbs, p) <==> p in MovedPlaces(c, dbs, sel)
  {}

  /** What a command body does to the value of a key shows in its signals, unless it is a MOVE; and a
      MOVE that moves changes both its places and signals neither. */
  lemma ChangesAreSignalled(c: Command, dbs: seq<Db>, sel: nat, clock: Clock, p: Place)
    requires sel < |dbs|
    ensures var after := Body(c, dbs, sel, clock).data;
            && (Lookup(after, p) != Lookup(dbs, p) ==>
               p in Signals(c, dbs, sel, clock) || p in MovedPlaces(c, dbs, sel))
            && (p in MovedPlaces(c, dbs, sel) ==>
               Lookup(after, p) != Lookup(dbs, p) && p !in Signals(c, dbs, sel, clock))
  {
    hide DbBody, MoveTo;
    if c.Move? {
      hide Lookup, Body, MovedPlaces, Signals;
      MoveUnsignalled(c, dbs, sel, clock, p);
    } else if !c.FlushAll? && Lookup(Body(c, dbs, sel, clock).data, p) != Lookup(dbs, p) {
      OwnChangeSignalled(c, dbs, sel, clock, p.key);
    }
  }
}
