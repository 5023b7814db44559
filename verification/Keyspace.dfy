/**
 The keyspace and the commands on it (db.c and the write commands of t_string.c, t_list.c, t_set.c and
 t_hash.c that a rewritten log is made of), executed either by a live master or by the loader of an
 append only file.
 */
module Keyspace {
  import opened Bytes

  datatype Value =
    | Str(s: bytes)
    | List(items: seq<bytes>)
    | Set(members: set<bytes>)
    | Hash(fields: map<bytes, bytes>)

  datatype Db = Db(dict: map<bytes, Value>, expires: map<bytes, int>)

  const EMPTY_DB := Db(map[], map[])

  datatype Unit = Seconds | Milliseconds

  datatype Command =
    | SetCmd(key: bytes, val: bytes)
    | SetNx(key: bytes, val: bytes)
    | SetEx(key: bytes, ttl: int, unit: Unit, val: bytes)               // SETEX, PSETEX
    | Expire(key: bytes, arg: int, unit: Unit, relative: bool)          // (P)EXPIRE, (P)EXPIREAT
    | Persist(key: bytes)
    | Del(keys: seq<bytes>)
    | Rename(src: bytes, dst: bytes, nx: bool)                          // RENAME, RENAMENX
    | Move(key: bytes, db: int)
    | RPush(key: bytes, items: seq<bytes>)
    | SAdd(key: bytes, items: seq<bytes>)
    | HMSet(key: bytes, args: seq<bytes>)
    | FlushDb
    | FlushAll
    | Select(id: int)
    | Get(key: bytes)
    | Multi
    | Exec

  /** The time during one command, and whether a log is being loaded. */
  datatype Clock = Clock(now: int, loading: bool)

  // Primitives of db.c ---------------------------------------------------------------------------

  function GetExpire(db: Db, k: bytes): int {
    if k in db.expires then db.expires[k] else -1
  }

  function DbDelete(db: Db, k: bytes): Db {
    Db(db.dict - {k}, db.expires - {k})
  }

  function SetKey(db: Db, k: bytes, v: Value): Db {
    Db(db.dict[k := v], db.expires - {k})
  }

  function SetExpire(db: Db, k: bytes, when: int): Db {
    db.(expires := db.expires[k := when])
  }

  /** expireIfNeeded on a master: nothing expires while loading, nor at the very expiry time. */
  predicate IsExpired(db: Db, k: bytes, clock: Clock) {
    var when := GetExpire(db, k);
    when >= 0 && !clock.loading && clock.now > when
  }

  function InMs(arg: int, unit: Unit): int {
    if unit == Seconds then arg * 1000 else arg
  }

  // Lookups that may expire keys -----------------------------------------------------------------

  /** A key deleted because it had expired; each is announced to the log as a DEL in its database. */
  datatype Expiry = Expiry(db: nat, key: bytes)

  function ExpireIfNeeded(dbs: seq<Db>, id: nat, k: bytes, clock: Clock): (r: (seq<Db>, seq<Expiry>))
    requires id < |dbs|
    ensures |r.0| == |dbs|
  {
    if IsExpired(dbs[id], k, clock) then (dbs[id := DbDelete(dbs[id], k)], [Expiry(id, k)])
    else (dbs, [])
  }

  function Then(first: seq<Expiry>, second: (seq<Db>, seq<Expiry>)): (r: (seq<Db>, seq<Expiry>))
    ensures first == [] ==> r == second
  {
    if first == [] then second else (second.0, first + second.1)
  }

  /** The keys a command looks up with expiry, in order, before it changes anything. */
  function LookUp(c: Command, dbs: seq<Db>, sel: nat, clock: Clock): (r: (seq<Db>, seq<Expiry>))
    requires sel < |dbs|
    ensures |r.0| == |dbs|
  {
    match c
    case SetCmd(k, _) => ExpireIfNeeded(dbs, sel, k, clock)
    case SetNx(k, _) => ExpireIfNeeded(dbs, sel, k, clock)
    case SetEx(k, ttl, _, _) => if ttl <= 0 then (dbs, []) else ExpireIfNeeded(dbs, sel, k, clock)
    case RPush(k, items) => if items == [] then (dbs, []) else ExpireIfNeeded(dbs, sel, k, clock)
    case SAdd(k, items) => if items == [] then (dbs, []) else ExpireIfNeeded(dbs, sel, k, clock)
    case HMSet(k, args) => if args == [] || |args| % 2 == 1 then (dbs, []) else ExpireIfNeeded(dbs, sel, k, clock)
    case Get(k) => ExpireIfNeeded(dbs, sel, k, clock)
    case Rename(src, dst, _) =>
      if src == dst then (dbs, [])
      else
        var first := ExpireIfNeeded(dbs, sel, src, clock);
        if src !in first.0[sel].dict then first
        else
          var second := ExpireIfNeeded(first.0, sel, dst, clock);
          Then(first.1, second)
    case Move(k, d) =>
      if !(0 <= d < |dbs|) || d == sel then (dbs, [])
      else
        var first := ExpireIfNeeded(dbs, sel, k, clock);
        if k !in first.0[sel].dict then first
        else
          var second := ExpireIfNeeded(first.0, d, k, clock);
          Then(first.1, second)
    case _ => (dbs, [])
  }

  // Command bodies -------------------------------------------------------------------------------

  function DeleteAll(db: Db, ks: seq<bytes>): Db
    decreases |ks|
  {
    if ks == [] then db else DeleteAll(DbDelete(db, ks[0]), ks[1..])
  }

  function ToSet(items: seq<bytes>): set<bytes> {
    set i | i in items
  }

  function Pairs(args: seq<bytes>): map<bytes, bytes>
    requires |args| % 2 == 0
    decreases |args|
  {
    if args == [] then map[]
    else Pairs(args[..|args| - 2])[args[|args| - 2] := args[|args| - 1]]
  }

  function RenameIn(db: Db, src: bytes, dst: bytes): Db
    requires src in db.dict
  {
    var when := GetExpire(db, src);
    var cleared := if dst in db.dict then DbDelete(db, dst) else db;
    var added := cleared.(dict := cleared.dict[dst := db.dict[src]]);
    var kept := if when != -1 then SetExpire(added, dst, when) else added;
    DbDelete(kept, src)
  }

  /** The effect of a command on the selected database: its new contents, whether the command counts
      as a change (server.dirty grew), and the command vector as the command left it. */
  datatype Effect<A> = Effect(data: A, dirty: bool, sent: Command)

  function DbBody(c: Command, db: Db, clock: Clock): Effect<Db> {
    var nothing := Effect(db, false, c);
    match c
    case SetCmd(k, v) => Effect(SetKey(db, k, Str(v)), true, c)
    case SetNx(k, v) => if k in db.dict then nothing else Effect(SetKey(db, k, Str(v)), true, c)
    case SetEx(k, ttl, unit, v) =>
      if ttl <= 0 then nothing
      else Effect(SetExpire(SetKey(db, k, Str(v)), k, clock.now + InMs(ttl, unit)), true, c)
    case Expire(k, arg, unit, relative) =>
      var when := InMs(arg, unit) + if relative then clock.now else 0;
      if k !in db.dict then nothing
      else if when <= clock.now && !clock.loading then Effect(DbDelete(db, k), true, Del([k]))
      else Effect(SetExpire(db, k, when), true, c)
    case Persist(k) =>
      if k in db.dict && k in db.expires then Effect(db.(expires := db.expires - {k}), true, c)
      else nothing
    case Del(ks) => Effect(DeleteAll(db, ks), exists k :: k in ks && k in db.dict, c)
    case Rename(src, dst, nx) =>
      if src == dst || src !in db.dict || (dst in db.dict && nx) then nothing
      else Effect(RenameIn(db, src, dst), true, c)
    case RPush(k, items) =>
      if items == [] || (k in db.dict && !db.dict[k].List?) then nothing
      else
        var was := if k in db.dict then db.dict[k].items else [];
        Effect(db.(dict := db.dict[k := List(was + items)]), true, c)
    case SAdd(k, items) =>
      if items == [] || (k in db.dict && !db.dict[k].Set?) then nothing
      else
        var was := if k in db.dict then db.dict[k].members else {};
        Effect(db.(dict := db.dict[k := Set(was + ToSet(items))]), !(ToSet(items) <= was), c)
    case HMSet(k, args) =>
      if args == [] || |args| % 2 == 1 || (k in db.dict && !db.dict[k].Hash?) then nothing
      else
        var was := if k in db.dict then db.dict[k].fields else map[];
        Effect(db.(dict := db.dict[k := Hash(was + Pairs(args))]), true, c)
    case FlushDb => Effect(EMPTY_DB, db.dict != map[], c)
    case _ => nothing
  }

  function MoveTo(dbs: seq<Db>, sel: nat, k: bytes, d: nat): (r: seq<Db>)
    requires sel < |dbs| && d < |dbs| && d != sel && k in dbs[sel].dict
    ensures |r| == |dbs|
  {
    var target := dbs[d].(dict := dbs[d].dict[k := dbs[sel].dict[k]]);
    dbs[d := target][sel := DbDelete(dbs[sel], k)]
  }

  function Body(c: Command, dbs: seq<Db>, sel: nat, clock: Clock): (e: Effect<seq<Db>>)
    requires sel < |dbs|
    ensures |e.data| == |dbs|
  {
    match c
    case Move(k, d) =>
      if !(0 <= d < |dbs|) || d == sel || k !in dbs[sel].dict || k in dbs[d].dict then
        Effect(dbs, false, c)
      else Effect(MoveTo(dbs, sel, k, d), true, c)
    case FlushAll => Effect(seq(|dbs|, _ => EMPTY_DB), true, c)
    case _ =>
      var e := DbBody(c, dbs[sel], clock);
      Effect(dbs[sel := e.data], e.dirty, e.sent)
  }

  /** A whole command: its lookups, then its body. */
  function Execute(c: Command, dbs: seq<Db>, sel: nat, clock: Clock): (e: Effect<seq<Db>>)
    requires sel < |dbs|
    ensures |e.data| == |dbs|
  {
    Body(c, LookUp(c, dbs, sel, clock).0, sel, clock)
  }

  /** The selected database after a command. */
  function Selected(c: Command, sel: nat, n: nat): (r: nat)
    requires sel < n
    ensures r < n
  {
    if c.Select? && 0 <= c.id < n then c.id else sel
  }

  // What always holds of a database --------------------------------------------------------------

  predicate NonEmpty(v: Value) {
    match v
    case Str(_) => true
    case List(items) => items != []
    case Set(members) => members != {}
    case Hash(fields) => fields != map[]
  }

  /** Only existing keys expire, and no set, list or hash is empty. */
  ghost predicate DbValid(db: Db) {
    && db.expires.Keys <= db.dict.Keys
    && (forall k :: k in db.dict ==> NonEmpty(db.dict[k]))
    && (forall k :: k in db.expires ==> db.expires[k] >= 0)
  }

  ghost predicate AllValid(dbs: seq<Db>) {
    forall i :: 0 <= i < |dbs| ==> DbValid(dbs[i])
  }
}
