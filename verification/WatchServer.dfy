/** The routines of multi.c on the index that they change in place. */
module WatchServer {
  import opened Bytes
  import opened Keyspace
  import opened KeyspaceValid
  import opened Watch
  import opened WatchRuns
  import opened Sequences
  import opened Wrappers

  // The index while a client leaves ------------------------------------------------------------

  /** One table, after the client left the lists of some keys. */
  function LeftOne(m: map<bytes, seq<nat>>, db: nat, id: nat, done: seq<Place>): map<bytes, seq<nat>> {
    map k | k in m && (Place(db, k) in done ==> Without(m[k], id) != []) ::
      if Place(db, k) in done then Without(m[k], id) else m[k]
  }

  function LeftLists(watchers: seq<map<bytes, seq<nat>>>, id: nat, done: seq<Place>): (r: seq<map<bytes, seq<nat>>>)
    ensures |r| == |watchers|
  {
    seq(|watchers|, i requires 0 <= i < |watchers| => LeftOne(watchers[i], i, id, done))
  }

  lemma NothingLeft(watchers: seq<map<bytes, seq<nat>>>, id: nat)
    ensures forall ps: seq<Place> :: LeftLists(watchers, id, ps[..0]) == watchers
  {
    forall ps: seq<Place>
      ensures LeftLists(watchers, id, ps[..0]) == watchers
    {
      forall i | 0 <= i < |watchers|
        ensures LeftOne(watchers[i], i, id, ps[..0]) == watchers[i]
      {}
    }
  }

  /** The next key that is left still has its list, with the client in it. */
  lemma StillListed(s: State, id: nat, keys: seq<Place>, i: nat)
    requires Inverse(s) && id in s.clients && keys == s.clients[id].watched && i < |keys|
    ensures var p, w := keys[i], LeftLists(s.watchers, id, keys[..i]);
            && p.db < |w| && p.key in s.watchers[p.db] && p.key in w[p.db]
            && w[p.db][p.key] == s.watchers[p.db][p.key] && Distinct(w[p.db][p.key])
  {
    assert Watches(s, id, keys[i]) && Listed(s, id, keys[i]);
    assert keys[i] !in keys[..i];
  }

  function Shortened(m: map<bytes, seq<nat>>, k: bytes, list: seq<nat>): map<bytes, seq<nat>> {
    if list == [] then m - {k} else m[k := list]
  }

  lemma LeavesTable(m: map<bytes, seq<nat>>, db: nat, id: nat, keys: seq<Place>, i: nat)
    requires i < |keys| && keys[i] !in keys[..i]
    ensures keys[i].db != db ==> LeftOne(m, db, id, keys[..i + 1]) == LeftOne(m, db, id, keys[..i])
    ensures keys[i].db == db && keys[i].key in m ==>
              LeftOne(m, db, id, keys[..i + 1])
                  == Shortened(LeftOne(m, db, id, keys[..i]), keys[i].key, Without(m[keys[i].key], id))
  {
    var p := keys[i];
    assert forall q :: q in keys[..i + 1] <==> q in keys[..i] || q == p;
    if p.db == db && p.key in m {
      var a, b := LeftOne(m, db, id, keys[..i + 1]),
          Shortened(LeftOne(m, db, id, keys[..i]), p.key, Without(m[p.key], id));
      forall k
        ensures k in a <==> k in b
        ensures k in a && k in b ==> a[k] == b[k]
      {}
      assert a == b;
    }
  }

  lemma LeavesOne(watchers: seq<map<bytes, seq<nat>>>, id: nat, keys: seq<Place>, i: nat)
    requires i < |keys| && keys[i].db < |watchers| && keys[i].key in watchers[keys[i].db] && keys[i] !in keys[..i]
    ensures var p, w := keys[i], LeftLists(watchers, id, keys[..i]);
            var list := Without(watchers[p.db][p.key], id);
            LeftLists(watchers, id, keys[..i + 1])
            == w[p.db := if list == [] then w[p.db] - {p.key} else w[p.db][p.key := list]]
  {
    hide LeftOne;
    forall j | 0 <= j < |watchers|
      ensures LeftOne(watchers[j], j, id, keys[..i + 1]) ==
                if j != keys[i].db then LeftOne(watchers[j], j, id, keys[..i])
                else Shortened(LeftOne(watchers[j], j, id, keys[..i]), keys[i].key,
                       Without(watchers[j][keys[i].key], id))
    {
      LeavesTable(watchers[j], j, id, keys, i);
    }
  }

  lemma {:induction false} WithoutNone(s: seq<nat>, x: nat)
    requires x !in s
    ensures Without(s, x) == s
    decreases |s|
  {
    if s != [] {
      WithoutNone(s[1..], x);
    }
  }

  /** After all its keys, the client is in no list. */
  lemma AllLeft(s: State, id: nat)
    requires Inverse(s) && id in s.clients
    ensures LeftLists(s.watchers, id, s.clients[id].watched) == UnwatchAllKeys(s, id).watchers
  {
    var keys := s.clients[id].watched;
    forall i | 0 <= i < |s.watchers|
      ensures LeftOne(s.watchers[i], i, id, keys) == Dropped(s.watchers[i], id)
    {
      forall k | k in s.watchers[i] && Place(i, k) !in keys
        ensures Without(s.watchers[i][k], id) == s.watchers[i][k] != []
      {
        assert !Watches(s, id, Place(i, k)) && !Listed(s, id, Place(i, k));
        WithoutNone(s.watchers[i][k], id);
      }
    }
  }

  lemma PerformFirst(w: World, id: nat, es: seq<Entry>, now: int)
    requires Ok(w) && id in w.s.clients && es != [] && now >= 0
    ensures w.s.clients[id].sel < |w.s.dbs|
    ensures Ok(PerformEntry(w, id, es[0], now)) && id in PerformEntry(w, id, es[0], now).s.clients
    ensures PerformAll(w, id, es, now) == PerformAll(PerformEntry(w, id, es[0], now), id, es[1..], now)
  {
    hide Ok, PerformEntry;
    EntryOk(w, id, es[0], now);
  }

  /** A client that watches nothing has nothing to leave. */
  lemma UnwatchNothing(w: World, id: nat, multi: bool, dirtyExec: bool, queue: seq<Entry>)
    requires Ok(w) && id in w.s.clients && w.s.clients[id].watched == []
    ensures Reset(w, id, multi, dirtyExec, queue) ==
              World(WithClient(w.s, id,
                  w.s.clients[id].(multi := multi, dirtyCas := false, dirtyExec := dirtyExec, queue := queue)),
                    w.past[id := NO_HISTORY])
  {
    AllLeft(w.s, id);
    NothingLeft(w.s.watchers, id);
    assert w.s.clients[id].watched[..0] == w.s.clients[id].watched;
    assert UnwatchAllKeys(w.s, id) == w.s;
  }

  lemma WatchFirst(w: World, id: nat, ks: seq<bytes>)
    requires Ok(w) && id in w.s.clients && ks != []
    ensures Ok(WatchOne(w, id, ks[0])) && id in WatchOne(w, id, ks[0]).s.clients
    ensures WatchEach(w, id, ks) == WatchEach(WatchOne(w, id, ks[0]), id, ks[1..])
  {
    hide Ok, WatchOne;
    WatchOneOk(w, id, ks[0]);
  }

  lemma NoneMarked(clients: map<nat, Client>)
    ensures Marked(clients, {}) == clients
  {}

  lemma MarkedTwice(clients: map<nat, Client>, a: set<Place>, b: set<Place>)
    ensures Marked(Marked(clients, a), b) == Marked(clients, a + b)
  {
    forall id | id in clients
      ensures WatchesAny(clients[id], a + b) <==> WatchesAny(clients[id], a) || WatchesAny(clients[id], b)
    {
      if WatchesAny(clients[id], a) {
        var p :| p in clients[id].watched && p in a;
        assert p in a + b;
      }
      if WatchesAny(clients[id], b) {
        var p :| p in clients[id].watched && p in b;
        assert p in a + b;
      }
    }
  }

  /** The keys that a flush of one database, or of all for -1, deletes. */
  function Flushed(dbs: seq<Db>, dbid: int): set<Place> {
    set i, k | 0 <= i < |dbs| && (dbid == -1 || i == dbid) && k in dbs[i].dict :: Place(i, k)
  }

  function MarkedIds(clients: map<nat, Client>, ids: seq<nat>): map<nat, Client> {
    map id | id in clients :: if id in ids then clients[id].(dirtyCas := true) else clients[id]
  }

  /** The list of a key names exactly the clients to mark. */
  lemma ListIsMarked(s: State, p: Place)
    requires Inverse(s) && p.db < |s.watchers|
    ensures Marked(s.clients, {p}) ==
              if p.key in s.watchers[p.db] then MarkedIds(s.clients, s.watchers[p.db][p.key]) else s.clients
    ensures MarkedIds(s.clients, []) == s.clients
  {
    forall id | id in s.clients
      ensures WatchesAny(s.clients[id], {p}) <==> Listed(s, id, p)
    {
      assert Watches(s, id, p) <==> Listed(s, id, p);
    }
  }

  /** Marking does not change the index. */
  lemma TouchedIndex(s: State, ps: set<Place>)
    requires Inverse(s)
    ensures Inverse(s.(clients := Marked(s.clients, ps)))
    ensures forall id, p :: id in s.clients && p in s.clients[id].watched ==> p.db < |s.dbs|
  {
    InverseFrame(s, s.(clients := Marked(s.clients, ps)));
    forall id, p | id in s.clients && p in s.clients[id].watched
      ensures p.db < |s.dbs|
    {
      assert Watches(s, id, p) && Listed(s, id, p);
    }
  }

  lemma {:induction false} WithoutOne(a: seq<nat>, b: seq<nat>, x: nat)
    requires x !in a && Distinct(a + [x] + b)
    ensures Without(a + [x] + b, x) == a + b
    decreases |a|
  {
    var s := a + [x] + b;
    if a == [] {
      DistinctTail(s);
      assert s[1..] == b && s[0] == x;
      WithoutNone(b, x);
    } else {
      assert s[1..] == a[1..] + [x] + b;
      assert Distinct(s[1..]);
      WithoutOne(a[1..], b, x);
      assert a + b == [a[0]] + (a[1..] + b);
    }
  }

  /** listDelNode of what listSearchKey finds. */
  method RemoveFirst(list: seq<nat>, id: nat) returns (rest: seq<nat>)
    requires Distinct(list)
    ensures rest == Without(list, id)
  {
    var i := 0;
    while i < |list| && list[i] != id
      invariant i <= |list| && id !in list[..i]
    {
      i := i + 1;
    }
    if i == |list| {
      assert list[..i] == list;
      WithoutNone(list, id);
      return list;
    }
    WithoutOne(list[..i], list[i + 1..], id);
    assert list == list[..i] + [id] + list[i + 1..];
    rest := list[..i] + list[i + 1..];
  }

  class Server {
    var clients: map<nat, Client>
    var watchers: seq<map<bytes, seq<nat>>>
    var dbs: seq<Db>
    ghost var past: map<nat, History>

    function View(): State
      reads this
    {
      State(clients, watchers, dbs)
    }

    ghost function Whole(): World
      reads this
    {
      World(View(), past)
    }

    constructor (dbs: seq<Db>)
      requires dbs != [] && AllValid(dbs)
      ensures Whole() == Start(dbs) && Ok(Whole())
    {
      clients, watchers, past := map[], seq(|dbs|, _ => map[]), map[];
      this.dbs := dbs;
      new;
      StartOk(dbs);
    }

    // The index ----------------------------------------------------------------------------------

    /** watchForKey */
    method WatchKey(id: nat, key: bytes)
      requires Inverse(View()) && id in clients
      modifies this`clients, this`watchers
      ensures View() == WatchForKey(old(View()), id, key)
    {
      var c := clients[id];
      var i := 0;
      while i < |c.watched|
        invariant i <= |c.watched| && Place(c.sel, key) !in c.watched[..i]
      {
        if c.watched[i].db == c.sel && c.watched[i].key == key {
          return;  // in the list already, and by the index also in that of the key
        }
        i := i + 1;
      }
      assert c.watched[..i] == c.watched;
      var list := if key in watchers[c.sel] then watchers[c.sel][key] else [];
      watchers := watchers[c.sel := watchers[c.sel][key := list + [id]]];
      clients := clients[id := c.(watched := c.watched + [Place(c.sel, key)])];
    }

    /** unwatchAllKeys: the client leaves the list of every key it watches, and lists left empty go. */
    method UnwatchKeys(id: nat)
      requires Inverse(View()) && id in clients
      modifies this`clients, this`watchers
      ensures View() == UnwatchAllKeys(old(View()), id)
    {
      ghost var s := View();
      var keys := clients[id].watched;
      NothingLeft(watchers, id);
      var i := 0;
      while i < |keys|
        invariant i <= |keys| && clients == s.clients && dbs == s.dbs
                    && watchers == LeftLists(s.watchers, id, keys[..i])
      {
        var p := keys[i];
        StillListed(s, id, keys, i);
        var list := RemoveFirst(watchers[p.db][p.key], id);
        LeavesOne(s.watchers, id, keys, i);
        if list == [] {
          watchers := watchers[p.db := watchers[p.db] - {p.key}];
        } else {
          watchers := watchers[p.db := watchers[p.db][p.key := list]];
        }
        i := i + 1;
      }
      assert keys[..i] == keys;
      AllLeft(s, id);
      clients := clients[id := clients[id].(watched := [])];
    }

    // Touching keys ------------------------------------------------------------------------------

    /** touchWatchedKey: every client in the list of the key is marked. */
    method TouchWatchedKey(db: nat, key: bytes)
      requires Inverse(View()) && db < |dbs|
      modifies this`clients
      ensures clients == Marked(old(clients), {Place(db, key)})
      ensures Inverse(View())
    {
      ghost var s := View();
      ListIsMarked(s, Place(db, key));
      TouchedIndex(s, {Place(db, key)});
      if key !in watchers[db] {
        return;
      }
      var list := watchers[db][key];
      var i := 0;
      while i < |list|
        invariant i <= |list| && clients == MarkedIds(s.clients, list[..i])
      {
        var id := list[i];
        assert id in s.clients by {
          assert Listed(s, id, Place(db, key)) && Watches(s, id, Place(db, key));
        }
        clients := clients[id := clients[id].(dirtyCas := true)];
        i := i + 1;
      }
      assert list[..i] == list;
    }

    /** The inner loop: whether a flush deletes one of the keys a client watches. */
    method ClientLoses(id: nat, dbid: int) returns (dirty: bool)
      requires id in clients && (forall p :: p in clients[id].watched ==> p.db < |dbs|)
      ensures dirty == WatchesAny(clients[id], Flushed(dbs, dbid))
    {
      dirty := false;
      var keys := clients[id].watched;
      var j := 0;
      while j < |keys|
        invariant j <= |keys| && dirty == exists i :: 0 <= i < j && keys[i] in Flushed(dbs, dbid)
      {
        if dbid == -1 || keys[j].db == dbid {
          if keys[j].key in dbs[keys[j].db].dict {
            dirty := true;
          }
        }
        j := j + 1;
      }
    }

    /** touchWatchedKeysOnFlush: every client that watches a key about to be deleted is marked. */
    method TouchWatchedKeysOnFlush(dbid: int)
      requires Inverse(View()) && (dbid == -1 || 0 <= dbid < |dbs|)
      modifies this`clients
      ensures clients == Marked(old(clients), Flushed(dbs, dbid))
      ensures Inverse(View())
    {
      ghost var s := View();
      TouchedIndex(s, Flushed(dbs, dbid));
      var ids := clients.Keys;
      while ids != {}
        invariant clients.Keys == s.clients.Keys && ids <= clients.Keys
        invariant forall i :: i in clients ==>
                    clients[i] == if i in ids then s.clients[i] else Marked(s.clients, Flushed(dbs, dbid))[i]
      {
        var id :| id in ids;
        var dirty := ClientLoses(id, dbid);
        if dirty {
          clients := clients[id := clients[id].(dirtyCas := true)];
        }
        ids := ids - {id};
      }
    }

    // Commands -----------------------------------------------------------------------------------

    method SignalDeleted(sel: nat, ks: seq<bytes>)
      requires Inverse(View()) && sel < |dbs|
      modifies this`clients
      ensures clients == Marked(old(clients), set k | k in ks && k in dbs[sel].dict :: Place(sel, k))
      ensures Inverse(View())
    {
      hide Inverse, Marked;
      NoneMarked(clients);
      ghost var done: set<Place> := {};
      var j := 0;
      while j < |ks|
        invariant j <= |ks| && Inverse(View()) && clients == Marked(old(clients), done)
        invariant done == set k | k in ks[..j] && k in dbs[sel].dict :: Place(sel, k)
      {
        if ks[j] in dbs[sel].dict {
          TouchWatchedKey(sel, ks[j]);
          MarkedTwice(old(clients), done, {Place(sel, ks[j])});
          done := done + {Place(sel, ks[j])};
        }
        j := j + 1;
      }
      assert ks[..j] == ks;
    }

    static lemma FlushSignals(c: Command, dbs: seq<Db>, sel: nat, clock: Clock)
      requires sel < |dbs|
      ensures c.FlushDb? ==> Flushed(dbs, sel) == Signals(c, dbs, sel, clock)
      ensures c.FlushAll? ==> Flushed(dbs, -1) == Signals(c, dbs, sel, clock)
    {}

    /** The calls of signalModifiedKey and signalFlushedDb that a command makes. */
    method SignalModified(sel: nat, c: Command, clock: Clock)
      requires Inverse(View()) && sel < |dbs|
      modifies this`clients
      ensures clients == Marked(old(clients), Signals(c, dbs, sel, clock))
      ensures Inverse(View())
    {
      hide Inverse, Marked, DbBody, Present, Flushed;
      NoneMarked(clients);
      FlushSignals(c, dbs, sel, clock);
      var db := dbs[sel];
      match c
      case SetCmd(k, _) => TouchWatchedKey(sel, k);
      case SetNx(k, _) =>
        if k !in db.dict {
          TouchWatchedKey(sel, k);
        }
      case SetEx(k, ttl, _, _) =>
        if ttl > 0 {
          TouchWatchedKey(sel, k);
        }
      case Expire(k, _, _, _) =>
        if k in db.dict {
          TouchWatchedKey(sel, k);
        }
      case Del(ks) => SignalDeleted(sel, ks);
      case Rename(src, dst, nx) =>
        if src != dst && src in db.dict && !(dst in db.dict && nx) {
          TouchWatchedKey(sel, src);
          TouchWatchedKey(sel, dst);
          MarkedTwice(old(clients), {Place(sel, src)}, {Place(sel, dst)});
          assert {Place(sel, src)} + {Place(sel, dst)} == {Place(sel, src), Place(sel, dst)};
        }
      case RPush(k, items) =>
        if items != [] && !(k in db.dict && !db.dict[k].List?) {
          TouchWatchedKey(sel, k);
        }
      case SAdd(k, _) =>
        if DbBody(c, db, clock).dirty {
          TouchWatchedKey(sel, k);
        }
      case HMSet(k, _) =>
        if DbBody(c, db, clock).dirty {
          TouchWatchedKey(sel, k);
        }
      case FlushDb => TouchWatchedKeysOnFlush(sel);
      case FlushAll => TouchWatchedKeysOnFlush(-1);
      case _ =>
    }

    /** call: the lookups of a command, its signals and its effect on the keyspace. */
    method Call(id: nat, c: Command, now: int)
      requires Ok(Whole()) && id in clients && now >= 0
      modifies this
      ensures Whole() == Perform(old(Whole()), id, c, now)
      ensures Ok(Whole()) && id in clients && clients[id].watched == old(clients)[id].watched
    {
      hide LookUp, Body, Signals, Ok, Marked, ClientOk;
      ghost var w := Whole();
      Usable(w, id);
      OkIndex(w);
      PerformOk(w, id, c, now);
      Performed(w, id, c, now, id);
      var sel := clients[id].sel;
      var clock := Clock(now, false);
      dbs := LookUp(c, dbs, sel, clock).0;
      InverseFrame(w.s, View());
      past := Remember(past, Touches(c, w.s.dbs, sel, now), Slips(c, w.s.dbs, sel, now));
      SignalModified(sel, c, clock);
      dbs := Body(c, dbs, sel, clock).data;
      clients := clients[id := clients[id].(sel := Selected(c, sel, |dbs|))];
    }

    /** unwatchAllKeys, and new flags and a new queue. */
    method ResetTo(id: nat, multi: bool, dirtyExec: bool, queue: seq<Entry>)
      requires Ok(Whole()) && id in clients
      modifies this
      ensures Whole() == Reset(old(Whole()), id, multi, dirtyExec, queue)
      ensures Ok(Whole())
    {
      hide Ok, Inverse, UnwatchAllKeys;
      OkIndex(Whole());
      ResetOk(Whole(), id, multi, dirtyExec, queue);
      IndexUnwatched(View(), id);
      UnwatchKeys(id);
      clients := clients[id := clients[id].(multi := multi, dirtyCas := false, dirtyExec := dirtyExec, queue := queue)];
      past := past[id := NO_HISTORY];
    }

    method CreateClient(id: nat)
      requires Ok(Whole()) && id !in clients
      modifies this
      ensures Whole() == Next(old(Whole()), Join(id)) && Ok(Whole())
    {
      hide Ok;
      StepOk(Whole(), Join(id));
      clients := clients[id := Client(0, [], false, false, false, [])];
      past := past[id := NO_HISTORY];
    }

    method FreeClient(id: nat)
      requires Ok(Whole()) && id in clients
      modifies this
      ensures Whole() == Next(old(Whole()), Leave(id)) && Ok(Whole())
    {
      hide Ok, Reset;
      StepOk(Whole(), Leave(id));
      ResetTo(id, false, false, []);
      clients := clients - {id};
      past := past - {id};
    }

    /** activeExpireCycle, for one key: nobody is told but the log. */
    method ActiveExpireKey(db: nat, key: bytes, now: int)
      requires Ok(Whole()) && db < |dbs|
      modifies this`dbs, this`past
      ensures Whole()
                == if IsExpired(old(dbs)[db], key, Clock(now, false))
                    then Next(old(Whole()), ActiveExpire(db, key, now)) else old(Whole())
      ensures Ok(Whole())
    {
      hide Ok;
      var when := GetExpire(dbs[db], key);
      if when >= 0 && now > when {
        StepOk(Whole(), ActiveExpire(db, key, now));
        past := Remember(past, {}, {Place(db, key)});
        dbs := dbs[db := DbDelete(dbs[db], key)];
      }
    }

    /** watchForKey, and what the client saw. */
    method WatchAndRemember(id: nat, key: bytes)
      requires Ok(Whole()) && id in clients
      modifies this
      ensures old(clients)[id].sel < |old(watchers)| && id in old(past)
      ensures Whole() == WatchOne(old(Whole()), id, key)
    {
      hide Ok, Inverse;
      OkIndex(Whole());
      Usable(Whole(), id);
      var p := Place(clients[id].sel, key);
      ghost var seen := Lookup(dbs, p);
      ghost var c := clients[id];
      WatchKey(id, key);
      if p !in c.watched {
        past := past[id := History(past[id].seen[p := seen], past[id].touched - {p}, past[id].silent - {p})];
      }
    }

    /** WATCH: refused inside MULTI. */
    method WatchCommand(id: nat, keys: seq<bytes>)
      requires Ok(Whole()) && id in clients
      modifies this
      ensures Whole() == Next(old(Whole()), WatchKeys(id, keys)) && Ok(Whole())
    {
      hide Ok, WatchOne;
      if clients[id].multi {
        return;
      }
      ghost var w := Whole();
      var j := 0;
      while j < |keys|
        invariant j <= |keys| && Ok(Whole()) && id in clients
        invariant WatchEach(w, id, keys) == WatchEach(Whole(), id, keys[j..])
      {
        WatchOneOk(Whole(), id, keys[j]);
        WatchFirst(Whole(), id, keys[j..]);
        assert keys[j..][1..] == keys[j + 1..];
        WatchAndRemember(id, keys[j]);
        j := j + 1;
      }
    }

    method CallEntry(id: nat, e: Entry, now: int)
      requires Ok(Whole()) && id in clients && clients[id].sel < |dbs| && now >= 0
      modifies this
      ensures Whole() == PerformEntry(old(Whole()), id, e, now)
      ensures id in clients && (old(clients)[id].watched == [] ==> clients[id].watched == [])
    {
      hide Ok, Perform;
      if e.Data? {
        Call(id, e.cmd, now);
      } else {
        ResetTo(id, clients[id].multi, clients[id].dirtyExec, clients[id].queue);
      }
    }

    /** EXEC: refused outside MULTI; drops the transaction if a watched key was touched or a command
        could not be queued, and otherwise executes the queue and forgets it. */
    method ExecCommand(id: nat, now: int)
      requires Ok(Whole()) && id in clients && now >= 0
      modifies this
      ensures Whole() == Next(old(Whole()), ExecTransaction(id, now)) && Ok(Whole())
    {
      hide Ok, PerformEntry, Reset;
      ghost var w := Whole();
      StepOk(w, ExecTransaction(id, now));
      if !clients[id].multi {
        return;
      }
      if clients[id].dirtyCas || clients[id].dirtyExec {
        ResetTo(id, false, false, []);
        return;
      }
      var queue := clients[id].queue;
      ResetOk(w, id, true, false, queue);
      ResetWatchesNothing(w, id, true, false, queue);
      ResetTo(id, true, false, queue);
      ghost var r := Whole();
      var j := 0;
      while j < |queue|
        invariant j <= |queue| && Ok(Whole()) && id in clients && clients[id].watched == []
        invariant PerformAll(r, id, queue, now) == PerformAll(Whole(), id, queue[j..], now)
      {
        ResetWatchesNothing(Whole(), id, clients[id].multi, clients[id].dirtyExec, clients[id].queue);
        EntryOk(Whole(), id, queue[j], now);
        PerformFirst(Whole(), id, queue[j..], now);
        assert queue[j..][1..] == queue[j + 1..];
        CallEntry(id, queue[j], now);
        j := j + 1;
      }
      assert queue[j..] == [];
      ResetOk(Whole(), id, false, false, []);
      UnwatchNothing(Whole(), id, false, false, []);
      clients := clients[id := clients[id].(multi := false, dirtyCas := false, dirtyExec := false, queue := [])];
      past := past[id := NO_HISTORY];
    }

    /** The queue-or-execute branch of processCommand, and the errors before it that flag a transaction:
        inside MULTI, everything but EXEC, DISCARD, MULTI and WATCH is queued. */
    method ProcessCommand(id: nat, r: Request, now: int)
      requires Ok(Whole()) && id in clients && now >= 0
      modifies this
      ensures Enabled(old(Whole()), StepOf(id, old(clients)[id], r, now))
      ensures Whole() == Next(old(Whole()), StepOf(id, old(clients)[id], r, now)) && Ok(Whole())
    {
      hide Ok, Perform, Reset;
      StepOk(Whole(), StepOf(id, clients[id], r, now));
      var c := clients[id];
      if r.Refused? {
        if c.multi {
          clients := clients[id := c.(dirtyExec := true)];
        }
        return;
      }
      if c.multi && (r.Unwatching? || r.Running?) {
        clients := clients[id := c.(queue := c.queue + [if r.Running? then Data(r.cmd) else UnwatchLater])];
        return;
      }
      match r
      case Watching(keys) => WatchCommand(id, keys);
      case Unwatching => ResetTo(id, c.multi, c.dirtyExec, c.queue);
      case Beginning =>
        if c.multi {
          assert clients == clients[id := c.(multi := true)];
          return;
        }
        clients := clients[id := c.(multi := true)];
      case Discarding =>
        if c.multi {
          ResetTo(id, false, false, []);
        }
      case Executing => ExecCommand(id, now);
      case Running(cmd) => Call(id, cmd, now);
    }
  }
}
