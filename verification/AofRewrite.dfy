/**
 The rewrite of an append only file (aof.c): the shortest log that rebuilds a snapshot, with lists,
 sets and hashes emitted by commands of at most 64 items, and with the expiry of every key that is
 not already past it.
 */
module AofRewrite {
  import opened Bytes
  import opened Sequences
  import opened Wrappers
  import opened Keyspace
  import opened AofReplay

  const ITEMS_PER_CMD: nat := 64

  /** A value in the order in which an iterator visits it. */
  datatype Listing =
    | AsStr(s: bytes)
    | AsList(items: seq<bytes>)
    | AsSet(members: seq<bytes>)
    | AsHash(args: seq<bytes>)  // field, value, field, value, ...

  /** The iterator visits every element; a dictionary iterator visits none twice, in any order. */
  ghost predicate Shows(l: Listing, v: Value) {
    match l
    case AsStr(s) => v == Str(s)
    case AsList(items) => v == List(items)
    case AsSet(members) => v == Set(ToSet(members)) && Distinct(members)
    case AsHash(args) => |args| % 2 == 0 && v == Hash(Pairs(args)) && |Pairs(args)| * 2 == |args|
  }

  datatype Entry = Entry(key: bytes, listing: Listing, expire: int)

  /** One visit of the dictionary of a database, with the expiry of each key (-1 for none). */
  ghost predicate ListsDb(es: seq<Entry>, db: Db) {
    && (forall i, j :: 0 <= i < j < |es| ==> es[i].key != es[j].key)
    && (forall i :: 0 <= i < |es| ==> es[i].key in db.dict)
    && (forall k :: k in db.dict ==> exists i :: 0 <= i < |es| && es[i].key == k)
    && (forall i :: 0 <= i < |es| ==> Shows(es[i].listing, db.dict[es[i].key]))
    && (forall i :: 0 <= i < |es| ==> es[i].expire == GetExpire(db, es[i].key))
  }

  // Emission -------------------------------------------------------------------------------------

  /** Pieces of `width` arguments, the last one possibly shorter. */
  function Pieces(items: seq<bytes>, width: nat): (r: seq<seq<bytes>>)
    requires width > 0
    ensures forall p :: p in r ==> 0 < |p| <= width
    ensures items != [] ==> r != []
    decreases |items|
  {
    if items == [] then []
    else if |items| <= width then [items]
    else [items[..width]] + Pieces(items[width..], width)
  }

  datatype Kind = Lists | Sets | Hashes

  function Push(kind: Kind, key: bytes, items: seq<bytes>): Command {
    match kind
    case Lists => RPush(key, items)
    case Sets => SAdd(key, items)
    case Hashes => HMSet(key, items)
  }

  function Pushes(kind: Kind, key: bytes, pieces: seq<seq<bytes>>): (r: seq<Command>)
    ensures |r| == |pieces|
  {
    seq(|pieces|, i requires 0 <= i < |pieces| => Push(kind, key, pieces[i]))
  }

  /** Hashes are cut at 64 pairs, that is at 128 arguments. */
  function Width(kind: Kind): nat {
    if kind == Hashes then 2 * ITEMS_PER_CMD else ITEMS_PER_CMD
  }

  function RewriteObject(key: bytes, l: Listing): seq<Command> {
    match l
    case AsStr(s) => [SetCmd(key, s)]
    case AsList(items) => Pushes(Lists, key, Pieces(items, Width(Lists)))
    case AsSet(members) => Pushes(Sets, key, Pieces(members, Width(Sets)))
    case AsHash(args) => Pushes(Hashes, key, Pieces(args, Width(Hashes)))
  }

  /** A key that is already past its expiry keeps its value in the log and loses its expiry. */
  function RewriteEntry(e: Entry, now: int): seq<Command> {
    RewriteObject(e.key, e.listing) +
    if e.expire != -1 && !(e.expire < now) then [Expire(e.key, e.expire, Milliseconds, false)] else []
  }

  function RewriteEntries(es: seq<Entry>, now: int): seq<Command>
    decreases |es|
  {
    if es == [] then [] else RewriteEntries(es[..|es| - 1], now) + RewriteEntry(es[|es| - 1], now)
  }

  function RewriteDb(id: nat, es: seq<Entry>, now: int): seq<Command> {
    if es == [] then [] else [Select(id)] + RewriteEntries(es, now)
  }

  function Rewrite(dump: seq<seq<Entry>>, now: int): seq<Command>
    decreases |dump|
  {
    if dump == [] then []
    else Rewrite(dump[..|dump| - 1], now) + RewriteDb(|dump| - 1, dump[|dump| - 1], now)
  }

  ghost predicate ListsAll(dump: seq<seq<Entry>>, dbs: seq<Db>) {
    |dump| == |dbs| && forall i :: 0 <= i < |dbs| ==> ListsDb(dump[i], dbs[i])
  }

  // What loading a rewritten log builds ----------------------------------------------------------

  /** The snapshot without the expiries that were past at time `now`. */
  function Unstale(db: Db, now: int): Db {
    Db(db.dict, map k | k in db.expires && !(db.expires[k] < now) :: db.expires[k])
  }

  function UnstaleAll(dbs: seq<Db>, now: int): (r: seq<Db>)
    ensures |r| == |dbs|
  {
    seq(|dbs|, i requires 0 <= i < |dbs| => Unstale(dbs[i], now))
  }

  /** A loader that stands in database r.sel and adds one value to it. */
  function With(r: Loader, key: bytes, v: Value): Loader
    requires r.Valid()
  {
    r.(dbs := r.dbs[r.sel := r.dbs[r.sel].(dict := r.dbs[r.sel].dict[key := v])])
  }

  /** The value after adding items to one of the kind, or to none. */
  function Grow(kind: Kind, was: Option<Value>, items: seq<bytes>): Value
    requires kind == Hashes ==> |items| % 2 == 0
  {
    match kind
    case Lists => List((if was.Some? && was.value.List? then was.value.items else []) + items)
    case Sets => Set((if was.Some? && was.value.Set? then was.value.members else {}) + ToSet(items))
    case Hashes => Hash((if was.Some? && was.value.Hash? then was.value.fields else map[]) + Pairs(items))
  }

  predicate OfKind(kind: Kind, v: Value) {
    match kind
    case Lists => v.List?
    case Sets => v.Set?
    case Hashes => v.Hash?
  }

  /** The value at `key` in the database where the loader stands is `was`. */
  ghost predicate At(r: Loader, key: bytes, was: Option<Value>)
    requires r.Valid()
  {
    var dict := r.dbs[r.sel].dict;
    if was.Some? then key in dict && dict[key] == was.value else key !in dict
  }

  lemma WithHolds(r: Loader, key: bytes, v: Value)
    requires r.Valid()
    ensures With(r, key, v).Valid() && At(With(r, key, v), key, Some(v))
  {}

  lemma WithTwice(r: Loader, key: bytes, v: Value, w: Value)
    requires r.Valid()
    ensures With(r, key, v).Valid() && With(With(r, key, v), key, w) == With(r, key, w)
  {
    var db := r.dbs[r.sel];
    assert db.dict[key := v][key := w] == db.dict[key := w];
  }

  lemma LoadPush(r: Loader, kind: Kind, key: bytes, was: Option<Value>, items: seq<bytes>, t: int)
    requires r.Valid() && At(r, key, was) && (was.Some? ==> OfKind(kind, was.value))
    requires items != [] && (kind == Hashes ==> |items| % 2 == 0)
    ensures Load([Push(kind, key, items)], r, t) == With(r, key, Grow(kind, was, items))
  {
    var c := Push(kind, key, items);
    LoadSingle(c, r, t);
    NothingExpiresWhileLoading(c, r.dbs, r.sel, t);
  }

  lemma {:induction false} PairsConcat(a: seq<bytes>, b: seq<bytes>)
    requires |a| % 2 == 0 && |b| % 2 == 0
    ensures Pairs(a + b) == Pairs(a) + Pairs(b)
    decreases |b|
  {
    if b == [] {
      assert a + b == a;
    } else {
      var init := b[..|b| - 2];
      assert (a + b)[..|a + b| - 2] == a + init;
      PairsConcat(a, init);
    }
  }

  lemma ToSetConcat(a: seq<bytes>, b: seq<bytes>)
    ensures ToSet(a + b) == ToSet(a) + ToSet(b)
  {}

  lemma GrowTwice(kind: Kind, was: Option<Value>, a: seq<bytes>, b: seq<bytes>)
    requires kind == Hashes ==> |a| % 2 == 0 && |b| % 2 == 0
    ensures Grow(kind, Some(Grow(kind, was, a)), b) == Grow(kind, was, a + b)
  {
    hide Pairs, ToSet;
    match kind
    case Lists =>
      var w: seq<bytes> := if was.Some? && was.value.List? then was.value.items else [];
      assert w + a + b == w + (a + b);
    case Sets => ToSetConcat(a, b);
    case Hashes => PairsConcat(a, b);
  }

  lemma PushesConcat(kind: Kind, key: bytes, a: seq<bytes>, b: seq<seq<bytes>>)
    ensures Pushes(kind, key, [a] + b) == [Push(kind, key, a)] + Pushes(kind, key, b)
  {}

  lemma GrowKind(kind: Kind, was: Option<Value>, items: seq<bytes>)
    requires kind == Hashes ==> |items| % 2 == 0
    ensures OfKind(kind, Grow(kind, was, items))
  {}

  /** Loading the pieces, at most 64 items each, adds all the items. */
  lemma {:induction false} LoadPieces(r: Loader, kind: Kind, key: bytes, was: Option<Value>,
                                      items: seq<bytes>, t: int)
    requires r.Valid() && At(r, key, was) && (was.Some? ==> OfKind(kind, was.value))
    requires items != [] && (kind == Hashes ==> |items| % 2 == 0)
    ensures Load(Pushes(kind, key, Pieces(items, Width(kind))), r, t) == With(r, key, Grow(kind, was, items))
    decreases |items|
  {
    hide Grow, Push, Load, With;
    var w := Width(kind);
    var first := if |items| <= w then items else items[..w];
    var rest := items[|first|..];
    PushesConcat(kind, key, first, Pieces(rest, w));
    assert Pieces(items, w) == [first] + Pieces(rest, w);
    LoadPush(r, kind, key, was, first, t);
    if rest == [] {
      assert Pushes(kind, key, Pieces(items, w)) == [Push(kind, key, first)];
    } else {
      var v := Grow(kind, was, first);
      GrowKind(kind, was, first);
      var r1 := With(r, key, v);
      WithHolds(r, key, v);
      LoadConcat([Push(kind, key, first)], Pushes(kind, key, Pieces(rest, w)), r, t);
      LoadPieces(r1, kind, key, Some(v), rest, t);
      GrowTwice(kind, was, first, rest);
      assert items == first + rest;
      WithTwice(r, key, v, Grow(kind, was, items));
    }
  }

  lemma GrownFromNothing(kind: Kind, items: seq<bytes>)
    ensures kind == Lists ==> Grow(kind, None, items) == List(items)
    ensures kind == Sets ==> Grow(kind, None, items) == Set(ToSet(items))
    ensures kind == Hashes && |items| % 2 == 0 ==> Grow(kind, None, items) == Hash(Pairs(items))
  {
    assert [] + items == items && {} + ToSet(items) == ToSet(items);
    if |items| % 2 == 0 {
      assert map[] + Pairs(items) == Pairs(items);
    }
  }

  lemma LoadStr(r: Loader, key: bytes, s: bytes, t: int)
    requires r.Valid() && key !in r.dbs[r.sel].dict && key !in r.dbs[r.sel].expires
    ensures Load([SetCmd(key, s)], r, t) == With(r, key, Str(s))
  {
    LoadSingle(SetCmd(key, s), r, t);
    NothingExpiresWhileLoading(SetCmd(key, s), r.dbs, r.sel, t);
    assert r.dbs[r.sel].expires - {key} == r.dbs[r.sel].expires;
  }

  /** The commands for an object rebuild exactly the object, whatever its size and in whatever order
      its elements were visited. */
  lemma LoadObject(r: Loader, key: bytes, l: Listing, v: Value, t: int)
    requires r.Valid() && Shows(l, v) && NonEmpty(v)
    requires key !in r.dbs[r.sel].dict && key !in r.dbs[r.sel].expires
    ensures Load(RewriteObject(key, l), r, t) == With(r, key, v)
  {
    hide Load, Pieces, Pushes, With, Grow;
    match l
    case AsStr(s) => LoadStr(r, key, s, t);
    case AsList(items) =>
      GrownFromNothing(Lists, items);
      LoadPieces(r, Lists, key, None, items, t);
    case AsSet(members) =>
      GrownFromNothing(Sets, members);
      LoadPieces(r, Sets, key, None, members, t);
    case AsHash(args) =>
      GrownFromNothing(Hashes, args);
      LoadPieces(r, Hashes, key, None, args, t);
  }

  // Whole databases ------------------------------------------------------------------------------

  ghost predicate Visited(es: seq<Entry>, n: nat, k: bytes)
    requires n <= |es|
  {
    exists i :: 0 <= i < n && es[i].key == k
  }

  lemma VisitedMore(es: seq<Entry>, n: nat)
    requires n < |es|
    ensures forall k :: Visited(es, n + 1, k) <==> Visited(es, n, k) || es[n].key == k
  {
    forall k ensures Visited(es, n + 1, k) <==> Visited(es, n, k) || es[n].key == k {
      if Visited(es, n, k) {
        var i :| 0 <= i < n && es[i].key == k;
      }
    }
  }

  /** The part of a database that the first `n` entries account for. */
  ghost predicate Rebuilt(db: Db, es: seq<Entry>, n: nat, snapshot: Db, now: int)
    requires n <= |es|
  {
    && (forall k :: k in db.dict <==> Visited(es, n, k))
    && (forall k :: k in db.dict ==> k in snapshot.dict && db.dict[k] == snapshot.dict[k])
    && (forall k :: k in db.expires <==> k in db.dict && k in snapshot.expires && !(snapshot.expires[k] < now))
    && (forall k :: k in db.expires ==> db.expires[k] == snapshot.expires[k])
  }

  /** The database after one more entry. */
  function WithEntry(db: Db, e: Entry, v: Value, now: int): Db {
    Db(db.dict[e.key := v],
       if e.expire != -1 && !(e.expire < now) then db.expires[e.key := e.expire] else db.expires)
  }

  lemma LoadEntry(r: Loader, e: Entry, v: Value, now: int, t: int)
    requires r.Valid() && Shows(e.listing, v) && NonEmpty(v)
    requires e.key !in r.dbs[r.sel].dict && e.key !in r.dbs[r.sel].expires
    ensures Load(RewriteEntry(e, now), r, t) == r.(dbs := r.dbs[r.sel := WithEntry(r.dbs[r.sel], e, v, now)])
  {
    hide Load, RewriteObject;
    var build := RewriteObject(e.key, e.listing);
    LoadObject(r, e.key, e.listing, v, t);
    if e.expire != -1 && !(e.expire < now) {
      var c := Expire(e.key, e.expire, Milliseconds, false);
      LoadConcat(build, [c], r, t);
      PlainLoads(c, With(r, e.key, v), t);
    } else {
      assert build + [] == build;
    }
  }

  lemma NextKeyIsNew(db: Db, es: seq<Entry>, n: nat, snapshot: Db, now: int)
    requires n < |es| && ListsDb(es, snapshot) && Rebuilt(db, es, n, snapshot, now)
    ensures var k := es[n].key;
            k !in db.dict && k !in db.expires && k in snapshot.dict && es[n].expire == GetExpire(snapshot, k)
  {}

  /** One key more, with the expiry that it keeps. */
  lemma RebuiltWith(db: Db, db': Db, es: seq<Entry>, n: nat, snapshot: Db, now: int)
    requires n < |es| && Rebuilt(db, es, n, snapshot, now)
    requires forall k :: Visited(es, n + 1, k) <==> Visited(es, n, k) || es[n].key == k
    requires var k := es[n].key;
             && k in snapshot.dict && k !in db.dict && k !in db.expires
             && db'.dict == db.dict[k := snapshot.dict[k]]
             && db'.expires == if k in snapshot.expires && !(snapshot.expires[k] < now)
                               then db.expires[k := snapshot.expires[k]] else db.expires
    ensures Rebuilt(db', es, n + 1, snapshot, now)
  {
    hide Visited;
  }

  lemma RebuiltMore(db: Db, es: seq<Entry>, n: nat, snapshot: Db, now: int)
    requires n < |es| && ListsDb(es, snapshot) && Rebuilt(db, es, n, snapshot, now) && DbValid(snapshot)
    ensures es[n].key !in db.dict && es[n].key !in db.expires && es[n].key in snapshot.dict
    ensures Rebuilt(WithEntry(db, es[n], snapshot.dict[es[n].key], now), es, n + 1, snapshot, now)
  {
    hide ListsDb, Visited, Rebuilt;
    NextKeyIsNew(db, es, n, snapshot, now);
    VisitedMore(es, n);
    RebuiltWith(db, WithEntry(db, es[n], snapshot.dict[es[n].key], now), es, n, snapshot, now);
  }

  lemma LoadNothing(r: Loader, t: int)
    requires r.Valid()
    ensures Load([], r, t) == r
  {}

  lemma NothingRebuilt(es: seq<Entry>, snapshot: Db, now: int)
    ensures Rebuilt(EMPTY_DB, es, 0, snapshot, now)
  {}

  lemma EntryShows(es: seq<Entry>, n: nat, snapshot: Db)
    requires n < |es| && ListsDb(es, snapshot) && DbValid(snapshot)
    ensures es[n].key in snapshot.dict
    ensures Shows(es[n].listing, snapshot.dict[es[n].key]) && NonEmpty(snapshot.dict[es[n].key])
  {}

  lemma {:induction false} LoadEntries(r: Loader, es: seq<Entry>, n: nat, snapshot: Db, now: int, t: int)
    returns (db: Db)
    requires r.Valid() && r.dbs[r.sel] == EMPTY_DB && n <= |es|
    requires ListsDb(es, snapshot) && DbValid(snapshot)
    ensures Load(RewriteEntries(es[..n], now), r, t) == r.(dbs := r.dbs[r.sel := db])
    ensures Rebuilt(db, es, n, snapshot, now)
    decreases n
  {
    hide Load, Rebuilt, ListsDb, WithEntry, RewriteEntry, DbValid;
    if n == 0 {
      db := EMPTY_DB;
      LoadNothing(r, t);
      NothingRebuilt(es, snapshot, now);
      assert r.dbs[r.sel := EMPTY_DB] == r.dbs;
    } else {
      var init := LoadEntries(r, es, n - 1, snapshot, now, t);
      var e := es[n - 1];
      RebuiltMore(init, es, n - 1, snapshot, now);
      EntryShows(es, n - 1, snapshot);
      assert es[..n][..n - 1] == es[..n - 1];
      LoadConcat(RewriteEntries(es[..n - 1], now), RewriteEntry(e, now), r, t);
      var r1 := r.(dbs := r.dbs[r.sel := init]);
      LoadEntry(r1, e, snapshot.dict[e.key], now, t);
      db := WithEntry(init, e, snapshot.dict[e.key], now);
      assert r1.dbs[r.sel := db] == r.dbs[r.sel := db];
    }
  }

  lemma AllVisited(es: seq<Entry>, snapshot: Db)
    requires ListsDb(es, snapshot)
    ensures forall k :: Visited(es, |es|, k) <==> k in snapshot.dict
  {
    hide Shows;
    forall k | k in snapshot.dict
      ensures Visited(es, |es|, k)
    {
      var i :| 0 <= i < |es| && es[i].key == k;
    }
  }

  lemma RebuiltAll(db: Db, es: seq<Entry>, snapshot: Db, now: int)
    requires Rebuilt(db, es, |es|, snapshot, now) && ListsDb(es, snapshot) && DbValid(snapshot)
    ensures db == Unstale(snapshot, now)
  {
    hide Shows;
    AllVisited(es, snapshot);
    hide ListsDb, Visited;
    assert db.dict == snapshot.dict;
    assert db.expires == Unstale(snapshot, now).expires;
  }

  lemma EmptyListing(snapshot: Db)
    requires ListsDb([], snapshot) && DbValid(snapshot)
    ensures snapshot == EMPTY_DB && forall now :: Unstale(snapshot, now) == EMPTY_DB
  {
    assert snapshot.dict == map[] && snapshot.expires == map[];
  }

  lemma LoadDb(r: Loader, id: nat, es: seq<Entry>, snapshot: Db, now: int, t: int)
    requires r.Valid() && id < |r.dbs| && r.dbs[id] == EMPTY_DB
    requires ListsDb(es, snapshot) && DbValid(snapshot)
    ensures var r' := Load(RewriteDb(id, es, now), r, t);
            r'.dbs == r.dbs[id := Unstale(snapshot, now)] && r'.multi == r.multi
  {
    hide Load, Rebuilt, ListsDb;
    if es == [] {
      LoadNothing(r, t);
      EmptyListing(snapshot);
      assert r.dbs[id := EMPTY_DB] == r.dbs;
    } else {
      LoadConcat([Select(id)], RewriteEntries(es, now), r, t);
      LoadSingle(Select(id), r, t);
      assert r.dbs[r.sel := r.dbs[r.sel]] == r.dbs;
      var r1 := r.(sel := id);
      var db := LoadEntries(r1, es, |es|, snapshot, now, t);
      assert es[..|es|] == es;
      RebuiltAll(db, es, snapshot, now);
    }
  }

  // The whole rewrite ----------------------------------------------------------------------------

  function PartlyUnstale(dbs: seq<Db>, n: nat, now: int): (r: seq<Db>)
    ensures |r| == |dbs|
  {
    seq(|dbs|, i requires 0 <= i < |dbs| => if i < n then Unstale(dbs[i], now) else EMPTY_DB)
  }

  lemma {:induction false} LoadRewriteTo(dump: seq<seq<Entry>>, dbs: seq<Db>, n: nat, now: int, t: int)
    requires ListsAll(dump, dbs) && AllValid(dbs) && dbs != [] && n <= |dbs|
    ensures var r := Load(Rewrite(dump[..n], now), Empty(|dbs|), t);
            r.dbs == PartlyUnstale(dbs, n, now) && !r.multi
    decreases n
  {
    hide Load, RewriteDb, ListsDb, DbValid;
    var r := Empty(|dbs|);
    if n == 0 {
      LoadNothing(r, t);
    } else {
      LoadRewriteTo(dump, dbs, n - 1, now, t);
      assert dump[..n][..n - 1] == dump[..n - 1];
      var log := RewriteDb(n - 1, dump[n - 1], now);
      LoadConcat(Rewrite(dump[..n - 1], now), log, r, t);
      LoadDb(Load(Rewrite(dump[..n - 1], now), r, t), n - 1, dump[n - 1], dbs[n - 1], now, t);
      assert PartlyUnstale(dbs, n - 1, now)[n - 1 := Unstale(dbs[n - 1], now)] == PartlyUnstale(dbs, n, now);
    }
  }

  /** Loading a rewritten log, at any time, rebuilds every database of the snapshot, except that the
      keys that were past their expiry when the rewrite ran have lost it. */
  lemma LoadRewrite(dump: seq<seq<Entry>>, dbs: seq<Db>, now: int, t: int)
    requires ListsAll(dump, dbs) && AllValid(dbs) && dbs != []
    ensures var r := Load(Rewrite(dump, now), Empty(|dbs|), t);
            r.dbs == UnstaleAll(dbs, now) && !r.multi
  {
    LoadRewriteTo(dump, dbs, |dbs|, now, t);
    assert dump[..|dbs|] == dump;
    assert PartlyUnstale(dbs, |dbs|, now) == UnstaleAll(dbs, now);
  }

  /** No key is past its expiry at `now`. */
  ghost predicate Fresh(dbs: seq<Db>, now: int) {
    forall i, k :: 0 <= i < |dbs| && k in dbs[i].expires ==> dbs[i].expires[k] >= now
  }

  /** A rewrite is exact if and only if no key is past its expiry when it runs. */
  lemma RewriteExactlyWhenFresh(dump: seq<seq<Entry>>, dbs: seq<Db>, now: int, t: int)
    requires ListsAll(dump, dbs) && AllValid(dbs) && dbs != []
    ensures Load(Rewrite(dump, now), Empty(|dbs|), t).dbs == dbs <==> Fresh(dbs, now)
  {
    LoadRewrite(dump, dbs, now, t);
    var u := UnstaleAll(dbs, now);
    if Fresh(dbs, now) {
      forall i | 0 <= i < |dbs| ensures u[i] == dbs[i] {
        assert u[i].expires == dbs[i].expires;
      }
    }
    if u == dbs {
      forall i, k | 0 <= i < |dbs| && k in dbs[i].expires ensures dbs[i].expires[k] >= now {
        assert k in u[i].expires;
      }
    }
  }

  /** A concrete failure: one volatile key whose time has passed is written as a persistent key. */
  lemma StaleKeyBecomesPersistent(key: bytes, v: bytes, t: int)
    ensures var dbs := [Db(map[key := Str(v)], map[key := 10])];
            var dump := [[Entry(key, AsStr(v), 10)]];
            ListsAll(dump, dbs) && AllValid(dbs) &&
            Load(Rewrite(dump, 11), Empty(1), t).dbs == [Db(map[key := Str(v)], map[])]
  {
    var dbs := [Db(map[key := Str(v)], map[key := 10])];
    var dump := [[Entry(key, AsStr(v), 10)]];
    assert ListsDb(dump[0], dbs[0]) by {
      assert dump[0][0].key == key;
    }
    LoadRewrite(dump, dbs, 11, t);
    assert UnstaleAll(dbs, 11)[0] == Db(map[key := Str(v)], map[]);
  }

  /** The loaded rewrite agrees with the snapshot up to the expiries that were past. */
  lemma RewriteAgrees(dump: seq<seq<Entry>>, dbs: seq<Db>, now: int, t: int)
    requires ListsAll(dump, dbs) && AllValid(dbs) && dbs != []
    ensures var r := Load(Rewrite(dump, now), Empty(|dbs|), t);
            Agrees(dbs, r.dbs, if Fresh(dbs, now) then 0 else now) && !r.multi
  {
    hide Load, Rewrite, ListsDb, Fresh;
    LoadRewrite(dump, dbs, now, t);
    RewriteExactlyWhenFresh(dump, dbs, now, t);
  }
}
