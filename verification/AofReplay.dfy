/**
 Loading an append only file, and what a master has to feed it (aof.c): every command that changed
 the keyspace, with a SELECT when the database differs from the last one fed, with relative expiry
 times made absolute, and with a DEL for every key that expired on the way.
 */
module AofReplay {
  import opened Bytes
  import opened Keyspace

  // Loading --------------------------------------------------------------------------------------

  /** The fake client that runs a log: its database, whether it is inside MULTI, and the keyspace. */
  datatype Loader = Loader(dbs: seq<Db>, sel: nat, multi: bool) {
    ghost predicate Valid() { sel < |dbs| }
  }

  /** One logged command. The loader calls command procedures directly, so that a command inside
      MULTI runs at once and EXEC finds an empty queue. */
  function LoadOne(c: Command, r: Loader, now: int): (r': Loader)
    requires r.Valid()
    ensures r'.Valid() && |r'.dbs| == |r.dbs|
  {
    match c
    case Multi => r.(multi := true)
    case Exec => r.(multi := false)
    case _ =>
      Loader(Execute(c, r.dbs, r.sel, Clock(now, true)).data, Selected(c, r.sel, |r.dbs|), r.multi)
  }

  function Load(log: seq<Command>, r: Loader, now: int): (r': Loader)
    requires r.Valid()
    ensures r'.Valid() && |r'.dbs| == |r.dbs|
    decreases |log|
  {
    if log == [] then r else LoadOne(log[|log| - 1], Load(log[..|log| - 1], r, now), now)
  }

  function Empty(n: nat): Loader {
    Loader(seq(n, _ => EMPTY_DB), 0, false)
  }

  lemma {:induction false} LoadConcat(a: seq<Command>, b: seq<Command>, r: Loader, now: int)
    requires r.Valid()
    ensures Load(a + b, r, now) == Load(b, Load(a, r, now), now)
    decreases |b|
  {
    if b == [] {
      assert a + b == a;
    } else {
      var init := b[..|b| - 1];
      assert (a + b)[..|a + b| - 1] == a + init;
      LoadConcat(a, init, r, now);
    }
  }

  lemma LoadSingle(c: Command, r: Loader, now: int)
    requires r.Valid()
    ensures Load([c], r, now) == LoadOne(c, r, now)
  {
    assert [c][..0] == [];
  }

  // Feeding --------------------------------------------------------------------------------------

  /** How a command vector is written to the log at time `now`. */
  function Translate(c: Command, now: int): seq<Command> {
    match c
    case Expire(k, arg, unit, relative) =>
      if unit == Milliseconds && !relative then [c]
      else [Expire(k, InMs(arg, unit) + (if relative then now else 0), Milliseconds, false)]
    case SetEx(k, ttl, unit, v) => [SetCmd(k, v), Expire(k, InMs(ttl, unit) + now, Milliseconds, false)]
    case _ => [c]
  }

  /** What feedAppendOnlyFile appends for a command in database `id`, when `selected` is the database
      of the last command fed (-1 for none). */
  function Feed(c: Command, id: nat, selected: int, now: int): seq<Command> {
    (if id != selected then [Select(id)] else []) + Translate(c, now)
  }

  // Agreement ------------------------------------------------------------------------------------

  /** The loaded database has the same values as the live one, no expiry that the live one has not,
      and lacks only expiries that were already past at time `cut`. */
  ghost predicate DbAgrees(live: Db, rep: Db, cut: int) {
    && rep.dict == live.dict
    && (forall k :: k in rep.expires ==> k in live.expires && rep.expires[k] == live.expires[k])
    && (forall k :: k in live.expires && k !in rep.expires ==> live.expires[k] < cut)
  }

  ghost predicate Agrees(live: seq<Db>, rep: seq<Db>, cut: int) {
    |rep| == |live| && forall i :: 0 <= i < |live| ==> DbAgrees(live[i], rep[i], cut)
  }

  /** When every expiry is later than the cut, agreement is equality. */
  lemma AgreesExactly(live: seq<Db>, rep: seq<Db>, cut: int)
    requires Agrees(live, rep, cut)
    requires forall i, k :: 0 <= i < |live| && k in live[i].expires ==> live[i].expires[k] >= cut
    ensures rep == live
  {
    forall i | 0 <= i < |live| ensures rep[i] == live[i] {
      assert DbAgrees(live[i], rep[i], cut);
      forall k ensures k in live[i].expires <==> k in rep[i].expires {
        if k in live[i].expires {
          assert live[i].expires[k] >= cut;
        }
      }
      assert rep[i].expires == live[i].expires;
    }
  }

  // One command, live and loaded -----------------------------------------------------------------

  lemma NothingExpiresWhileLoading(c: Command, dbs: seq<Db>, sel: nat, now: int)
    requires sel < |dbs|
    ensures LookUp(c, dbs, sel, Clock(now, true)) == (dbs, [])
  {}

  /** A deletion on both sides. */
  lemma DeleteAgrees(live: Db, rep: Db, k: bytes, cut: int)
    requires DbAgrees(live, rep, cut)
    ensures DbAgrees(DbDelete(live, k), DbDelete(rep, k), cut)
  {}

  lemma {:induction false} DeleteAllAgrees(live: Db, rep: Db, ks: seq<bytes>, cut: int)
    requires DbAgrees(live, rep, cut)
    ensures DbAgrees(DeleteAll(live, ks), DeleteAll(rep, ks), cut)
    decreases |ks|
  {
    if ks != [] {
      DeleteAgrees(live, rep, ks[0], cut);
      DeleteAllAgrees(DbDelete(live, ks[0]), DbDelete(rep, ks[0]), ks[1..], cut);
    }
  }

  /** Commands whose log form is the command itself. */
  predicate Plain(c: Command) {
    !c.Expire? && !c.SetEx? && !c.Multi? && !c.Exec?
  }

  lemma RenameAgrees(live: Db, rep: Db, src: bytes, dst: bytes, cut: int)
    requires DbAgrees(live, rep, cut) && DbValid(live) && src in live.dict && src != dst
    ensures DbAgrees(RenameIn(live, src, dst), RenameIn(rep, src, dst), cut)
  {}

  lemma EmptyAgrees(cut: int)
    ensures DbAgrees(EMPTY_DB, EMPTY_DB, cut)
  {}

  lemma StoreAgrees(live: Db, rep: Db, k: bytes, v: Value, cut: int)
    requires DbAgrees(live, rep, cut)
    ensures DbAgrees(SetKey(live, k, v), SetKey(rep, k, v), cut)
  {}

  lemma ExpireAgrees(live: Db, rep: Db, k: bytes, when: int, cut: int)
    requires DbAgrees(live, rep, cut)
    ensures DbAgrees(SetExpire(live, k, when), SetExpire(rep, k, when), cut)
  {}

  lemma ValuesAgree(live: Db, rep: Db, dict: map<bytes, Value>, cut: int)
    requires DbAgrees(live, rep, cut)
    ensures rep.dict == live.dict
    ensures DbAgrees(live.(dict := dict), rep.(dict := dict), cut)
  {}

  lemma PersistAgrees(live: Db, rep: Db, k: bytes, cut: int)
    requires DbAgrees(live, rep, cut)
    ensures DbAgrees(live.(expires := live.expires - {k}), rep.(expires := rep.expires - {k}), cut)
    ensures k !in rep.expires ==> DbAgrees(live.(expires := live.expires - {k}), rep, cut)
    ensures k in rep.expires ==> k in live.expires
  {}

  lemma PlainDbAgrees(c: Command, live: Db, rep: Db, now: int, t: int, cut: int)
    requires DbAgrees(live, rep, cut) && Plain(c) && DbValid(live)
    ensures DbAgrees(DbBody(c, live, Clock(now, false)).data, DbBody(c, rep, Clock(t, true)).data, cut)
  {
    hide DbAgrees, SetKey, DeleteAll, RenameIn;
    var dict := DbBody(c, live, Clock(now, false)).data.dict;
    ValuesAgree(live, rep, dict, cut);
    match c
    case SetCmd(k, v) => StoreAgrees(live, rep, k, Str(v), cut);
    case SetNx(k, v) => StoreAgrees(live, rep, k, Str(v), cut);
    case Persist(k) => PersistAgrees(live, rep, k, cut);
    case Del(ks) => DeleteAllAgrees(live, rep, ks, cut);
    case Rename(src, dst, nx) =>
      if src != dst && src in live.dict {
        RenameAgrees(live, rep, src, dst, cut);
      }
    case FlushDb => EmptyAgrees(cut);
    case _ =>
  }

  lemma MoveAgrees(live: seq<Db>, rep: seq<Db>, sel: nat, k: bytes, d: nat, cut: int)
    requires Agrees(live, rep, cut) && sel < |live| && d < |live| && d != sel && k in live[sel].dict
    requires k !in live[d].dict && AllValid(live)
    ensures k in rep[sel].dict && k !in rep[d].dict
    ensures Agrees(MoveTo(live, sel, k, d), MoveTo(rep, sel, k, d), cut)
  {
    assert DbAgrees(live[sel], rep[sel], cut) && DbAgrees(live[d], rep[d], cut);
    assert DbValid(live[d]);
    DeleteAgrees(live[sel], rep[sel], k, cut);
  }

  lemma SameKeys(live: seq<Db>, rep: seq<Db>, cut: int)
    requires Agrees(live, rep, cut)
    ensures forall i :: 0 <= i < |live| ==> rep[i].dict == live[i].dict
  {
    forall i | 0 <= i < |live| ensures rep[i].dict == live[i].dict {
      assert DbAgrees(live[i], rep[i], cut);
    }
  }

  lemma PlainAgrees(c: Command, live: seq<Db>, rep: seq<Db>, sel: nat, now: int, t: int, cut: int)
    requires Agrees(live, rep, cut) && sel < |live| && Plain(c) && AllValid(live)
    ensures Agrees(Body(c, live, sel, Clock(now, false)).data, Body(c, rep, sel, Clock(t, true)).data, cut)
  {
    hide DbBody, DbAgrees, DbValid, MoveTo;
    SameKeys(live, rep, cut);
    if c.Move? {
      var k, d := c.key, c.db;
      if 0 <= d < |live| && d != sel && k in live[sel].dict && k !in live[d].dict {
        MoveAgrees(live, rep, sel, k, d, cut);
      }
    } else if c.FlushAll? {
      EmptyAgrees(cut);
    } else {
      PlainDbAgrees(c, live[sel], rep[sel], now, t, cut);
    }
  }

  lemma StoredIsThere(db: Db, k: bytes, v: Value)
    ensures k in SetKey(db, k, v).dict
  {}

  lemma DeleteOne(db: Db, k: bytes)
    ensures DeleteAll(db, [k]) == DbDelete(db, k)
  {
    var ks := [k];
    assert ks[1..] == [];
  }

  /** EXPIRE in any of its four forms is logged as an absolute PEXPIREAT, or as a DEL when it deleted
      the key; SETEX is logged as a SET and a PEXPIREAT. */
  lemma TranslatedAgrees(c: Command, live: Db, rep: Db, now: int, t: int, cut: int)
    requires DbAgrees(live, rep, cut) && (c.Expire? || c.SetEx?)
    requires DbBody(c, live, Clock(now, false)).dirty
    ensures var e := DbBody(c, live, Clock(now, false));
            var log := Translate(e.sent, now);
            (|log| == 1 && Plain(log[0]) == log[0].Del? &&
             DbAgrees(e.data, DbBody(log[0], rep, Clock(t, true)).data, cut)) ||
            (|log| == 2 &&
             DbAgrees(e.data, DbBody(log[1], DbBody(log[0], rep, Clock(t, true)).data, Clock(t, true)).data, cut))
  {
    hide DbAgrees, SetKey, SetExpire, DeleteAll;
    var k := c.key;
    ValuesAgree(live, rep, live.dict, cut);
    if c.SetEx? {
      StoreAgrees(live, rep, k, Str(c.val), cut);
      StoredIsThere(rep, k, Str(c.val));
      ExpireAgrees(SetKey(live, k, Str(c.val)), SetKey(rep, k, Str(c.val)), k, now + InMs(c.ttl, c.unit), cut);
    } else if DbBody(c, live, Clock(now, false)).sent.Del? {
      DeleteOne(rep, k);
      DeleteAgrees(live, rep, k, cut);
    } else {
      ExpireAgrees(live, rep, k, InMs(c.arg, c.unit) + if c.relative then now else 0, cut);
    }
  }

  // One event, live and loaded -------------------------------------------------------------------

  /** A loader that has run the log so far agrees with the live keyspace, and stands in the database
      that the next SELECT-less command would be meant for. */
  ghost predicate Tracks(r: Loader, dbs: seq<Db>, selected: int, multi: bool, cut: int) {
    && r.Valid() && r.multi == multi
    && Agrees(dbs, r.dbs, cut)
    && (selected == -1 || selected == r.sel)
  }

  lemma LoadSelect(id: nat, r: Loader, t: int)
    requires r.Valid() && id < |r.dbs|
    ensures LoadOne(Select(id), r, t) == r.(sel := id)
  {
    assert r.dbs[r.sel := r.dbs[r.sel]] == r.dbs;
  }

  /** Feeding moves the loader to the database of the command; what follows runs there. */
  lemma FeedSelects(c: Command, id: nat, selected: int, now: int, r: Loader, t: int)
    requires r.Valid() && id < |r.dbs| && (selected == -1 || selected == r.sel)
    ensures Load(Feed(c, id, selected, now), r, t) == Load(Translate(c, now), r.(sel := id), t)
  {
    hide Load, LoadOne, Translate;
    var log := Translate(c, now);
    if id != selected {
      LoadConcat([Select(id)], log, r, t);
      LoadSingle(Select(id), r, t);
      LoadSelect(id, r, t);
    } else {
      assert Feed(c, id, selected, now) == log;
    }
  }

  lemma PlainLoads(c: Command, r: Loader, t: int)
    requires r.Valid() && (c.Expire? || (Plain(c) && !c.Select?))
    ensures Load([c], r, t) == r.(dbs := Body(c, r.dbs, r.sel, Clock(t, true)).data)
  {
    hide Body;
    LoadSingle(c, r, t);
    NothingExpiresWhileLoading(c, r.dbs, r.sel, t);
  }

  lemma TrackExpiry(r: Loader, dbs: seq<Db>, selected: int, multi: bool, cut: int, x: Expiry, now: int, t: int)
    requires Tracks(r, dbs, selected, multi, cut) && x.db < |dbs|
    ensures Tracks(Load(Feed(Del([x.key]), x.db, selected, now), r, t),
                   dbs[x.db := DbDelete(dbs[x.db], x.key)], x.db, multi, cut)
  {
    var c := Del([x.key]);
    FeedSelects(c, x.db, selected, now, r, t);
    var r1 := r.(sel := x.db);
    PlainLoads(c, r1, t);
    assert [x.key][1..] == [];
    assert DeleteAll(r.dbs[x.db], [x.key]) == DbDelete(r.dbs[x.db], x.key);
    DeleteAgrees(dbs[x.db], r.dbs[x.db], x.key, cut);
  }

  lemma SentForm(c: Command, dbs: seq<Db>, sel: nat, now: int)
    requires sel < |dbs|
    ensures var e := Body(c, dbs, sel, Clock(now, false));
            && (Plain(c) ==> e.sent == c && Translate(c, now) == [c])
            && (c.Expire? ==> e.sent == c || e.sent == Del([c.key]))
            && (c.SetEx? ==> e.sent == c)
  {}

  /** A command that changed the keyspace, after its lookups. */
  lemma TrackChange(r: Loader, dbs: seq<Db>, sel: nat, selected: int, multi: bool, cut: int,
                    c: Command, now: int, t: int)
    requires Tracks(r, dbs, selected, multi, cut) && sel < |dbs| && AllValid(dbs)
    requires !c.Select? && !c.Multi? && !c.Exec? && Body(c, dbs, sel, Clock(now, false)).dirty
    ensures var e := Body(c, dbs, sel, Clock(now, false));
            Tracks(Load(Feed(e.sent, sel, selected, now), r, t), e.data, sel, multi, cut)
  {
    hide DbAgrees, DbValid, Load, Feed, MoveTo;
    var e := Body(c, dbs, sel, Clock(now, false));
    SentForm(c, dbs, sel, now);
    FeedSelects(e.sent, sel, selected, now, r, t);
    var r1 := r.(sel := sel);
    var log := Translate(e.sent, now);
    if Plain(c) {
      PlainAgrees(c, dbs, r.dbs, sel, now, t, cut);
      PlainLoads(c, r1, t);
    } else {
      TranslatedAgrees(c, dbs[sel], r.dbs[sel], now, t, cut);
      if |log| == 1 {
        PlainLoads(log[0], r1, t);
        assert log == [log[0]];
      } else {
        assert log == [log[0]] + [log[1]];
        LoadConcat([log[0]], [log[1]], r1, t);
        PlainLoads(log[0], r1, t);
        PlainLoads(log[1], Load([log[0]], r1, t), t);
      }
    }
  }

  // What a change leaves alone -------------------------------------------------------------------

  lemma {:induction false} DeleteAbsent(db: Db, ks: seq<bytes>)
    requires DbValid(db) && forall k :: k in ks ==> k !in db.dict
    ensures DeleteAll(db, ks) == db
    decreases |ks|
  {
    if ks != [] {
      assert ks[0] !in db.dict;
      assert DbDelete(db, ks[0]) == db by {
        assert db.dict - {ks[0]} == db.dict && db.expires - {ks[0]} == db.expires;
      }
      DeleteAbsent(db, ks[1..]);
    }
  }

  lemma DbCleanUnchanged(c: Command, db: Db, now: int)
    requires c.SAdd?
    ensures var e := DbBody(c, db, Clock(now, false)); !e.dirty ==> e.data == db
  {
    var k := c.key;
    if c.items != [] && k !in db.dict {
      assert c.items[0] in ToSet(c.items);
    } else if c.items != [] && db.dict[k].Set? && ToSet(c.items) <= db.dict[k].members {
      assert db.dict[k].members + ToSet(c.items) == db.dict[k].members;
      assert db.dict[k := db.dict[k]] == db.dict;
    }
  }

  /** A command that does not count as a change is one. */
  lemma CleanUnchanged(c: Command, dbs: seq<Db>, sel: nat, now: int)
    requires sel < |dbs| && AllValid(dbs)
    ensures var e := Body(c, dbs, sel, Clock(now, false)); !e.dirty ==> e.data == dbs
  {
    assert DbValid(dbs[sel]);
    if c.Del? && !Body(c, dbs, sel, Clock(now, false)).dirty {
      DeleteAbsent(dbs[sel], c.keys);
    }
    if c.SAdd? {
      DbCleanUnchanged(c, dbs[sel], now);
    }
  }
}
