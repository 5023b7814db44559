/**
 What WATCH does not notice: MOVE, and keys that expire, during a look-up or in the background. For each,
 all the worlds in which a transaction is executed nevertheless, and a run that leads to one.
 */
module WatchEscapes {
  import opened Bytes
  import opened Keyspace
  import opened KeyspaceValid
  import opened Watch
  import opened WatchRuns
  import opened WatchLaws
  import KeyspaceLaws
  import opened Wrappers

  /** A client has watched a key that is there, and its transaction would be executed. */
  predicate Relies(w: World, id: nat, p: Place) {
    id in w.s.clients && p in w.s.clients[id].watched && Executes(w.s.clients[id]) && Lookup(w.s.dbs, p) != None
  }

  /** The value has gone, and the transaction would be executed all the same. */
  predicate Deceived(w: World, id: nat, p: Place) {
    id in w.s.clients && p in w.s.clients[id].watched && Executes(w.s.clients[id]) && Lookup(w.s.dbs, p) == None
  }

  /** Another client may run commands. */
  predicate Acts(w: World, other: nat, id: nat) {
    other in w.s.clients && other != id && !w.s.clients[other].multi
  }

  lemma ValidAt(dbs: seq<Db>, i: nat)
    requires AllValid(dbs) && i < |dbs|
    ensures DbValid(dbs[i])
  {}

  lemma MoveTakes(dbs: seq<Db>, sel: nat, key: bytes, d: nat, now: int)
    requires sel < |dbs| && d < |dbs| && d != sel && key in dbs[sel].dict && key !in dbs[d].dict
    requires DbValid(dbs[d]) && !IsExpired(dbs[sel], key, Clock(now, false))
    ensures Touches(Move(key, d), dbs, sel, now) == {}
    ensures Lookup(After(Move(key, d), dbs, sel, now), Place(sel, key)) == None
  {}

  lemma FlagsStay(w: World, id: nat, c: Command, now: int, j: nat)
    requires id in w.s.clients && w.s.clients[id].sel < |w.s.dbs| && j in w.s.clients && j != id
    ensures var w' := Perform(w, id, c, now);
            && j in w'.s.clients && w'.s.clients[j].multi == w.s.clients[j].multi
            && w'.s.clients[j].dirtyExec == w.s.clients[j].dirtyExec
  {
    hide Touches, Slips, After;
  }

  /** A command that touches no key a client watches leaves its watched keys and flags alone. */
  lemma StaysRelying(w: World, id: nat, other: nat, c: Command, now: int)
    requires Ok(w) && id in w.s.clients && Acts(w, other, id) && now >= 0 && w.s.clients[other].sel < |w.s.dbs|
    requires !WatchesAny(w.s.clients[id], Touches(c, w.s.dbs, w.s.clients[other].sel, now))
    requires Executes(w.s.clients[id])
    ensures var w' := Next(w, RunCommand(other, c, now));
            && id in w'.s.clients && Executes(w'.s.clients[id])
            && w'.s.clients[id].watched == w.s.clients[id].watched
            && w'.s.dbs == After(c, w.s.dbs, w.s.clients[other].sel, now)
  {
    hide Inverse, Touches, Slips, After, Perform, ClientOk, AllValid, WatchesAny, Lookup;
    Performed(w, other, c, now, id);
    PerformFrame(w, other, c, now);
    FlagsStay(w, other, c, now, id);
  }

  /** MOVE does not touch the key it takes. */
  lemma MoveEscapes(w: World, id: nat, other: nat, key: bytes, d: nat, now: int)
    requires Ok(w) && Acts(w, other, id) && Relies(w, id, Place(w.s.clients[other].sel, key)) && now >= 0
    requires var sel := w.s.clients[other].sel;
             && d < |w.s.dbs| && d != sel && key !in w.s.dbs[d].dict
             && !IsExpired(w.s.dbs[sel], key, Clock(now, false))
    ensures Deceived(Next(w, RunCommand(other, Move(key, d), now)), id, Place(w.s.clients[other].sel, key))
  {
    hide Inverse, Touches, Slips, After, Perform, ClientOk, AllValid;
    var sel := w.s.clients[other].sel;
    Usable(w, other);
    assert DbValid(w.s.dbs[d]) by {
      ValidAt(w.s.dbs, d);
    }
    MoveTakes(w.s.dbs, sel, key, d, now);
    StaysRelying(w, id, other, Move(key, d), now);
  }

  lemma GoneForGood(c: Command, dbs: seq<Db>, sel: nat, now: int, p: Place)
    requires sel < |dbs| && p in Expired(c, dbs, sel, now) && p !in Touches(c, dbs, sel, now)
    requires p !in MovedPlaces(c, Looked(c, dbs, sel, now), sel)
    ensures Lookup(After(c, dbs, sel, now), p) == None
  {
    hide LookUp, Body, Signals, MovedPlaces, Lookup;
    LookUpsExpire(c, dbs, sel, now, p);
    ChangesAreSignalled(c, Looked(c, dbs, sel, now), sel, Clock(now, false), p);
  }

  /** Nor does any command touch a key that it finds expired and does not write anew. */
  lemma ExpiryEscapes(w: World, id: nat, other: nat, p: Place, c: Command, now: int)
    requires Ok(w) && Acts(w, other, id) && Relies(w, id, p) && now >= 0 && w.s.clients[other].sel < |w.s.dbs|
    requires var sel, dbs := w.s.clients[other].sel, w.s.dbs;
             && p in Expired(c, dbs, sel, now) && p !in MovedPlaces(c, Looked(c, dbs, sel, now), sel)
             && !WatchesAny(w.s.clients[id], Touches(c, dbs, sel, now))
    ensures Deceived(Next(w, RunCommand(other, c, now)), id, p)
  {
    hide Inverse, Touches, Slips, Looked, Expired, After, Perform, ClientOk, AllValid, Lookup, MovedPlaces;
    var sel, dbs := w.s.clients[other].sel, w.s.dbs;
    assert p !in Touches(c, dbs, sel, now);
    StaysRelying(w, id, other, c, now);
    GoneForGood(c, dbs, sel, now, p);
  }

  /** In particular GET, for every key whose time has passed. */
  lemma GetEscapes(w: World, id: nat, other: nat, key: bytes, now: int)
    requires Ok(w) && Acts(w, other, id) && Relies(w, id, Place(w.s.clients[other].sel, key)) && now >= 0
    requires w.s.clients[other].sel < |w.s.dbs| && IsExpired(w.s.dbs[w.s.clients[other].sel], key, Clock(now, false))
    ensures Deceived(Next(w, RunCommand(other, Get(key), now)), id, Place(w.s.clients[other].sel, key))
  {
    hide Ok, Lookup;
    var sel, dbs := w.s.clients[other].sel, w.s.dbs;
    assert LookUp(Get(key), dbs, sel, Clock(now, false)).1 == [Expiry(sel, key)];
    assert Touches(Get(key), dbs, sel, now) == {};
    ExpiryEscapes(w, id, other, Place(sel, key), Get(key), now);
  }

  /** Background expiry touches nothing either. */
  lemma ActiveExpiryEscapes(w: World, id: nat, db: nat, key: bytes, now: int)
    requires Ok(w) && Relies(w, id, Place(db, key)) && Enabled(w, ActiveExpire(db, key, now))
    ensures Deceived(Next(w, ActiveExpire(db, key, now)), id, Place(db, key))
  {
    hide Ok;
  }

  /** Being deceived means just that: the EXEC applies the queue. */
  lemma DeceivedExecutes(w: World, id: nat, p: Place, now: int) returns (dbsAt: seq<seq<Db>>, selAt: seq<nat>)
    requires Ok(w) && Deceived(w, id, p) && now >= 0
    ensures var queue := w.s.clients[id].queue;
            && |dbsAt| == |selAt| == |queue| + 1 && Applied(queue, now, dbsAt, selAt)
            && dbsAt[0] == w.s.dbs && Lookup(w.s.dbs, p) == None
            && selAt[0] == w.s.clients[id].sel && Next(w, ExecTransaction(id, now)).s.dbs == dbsAt[|queue|]
  {
    MarkedIffTouched(w, id);
    hide Ok, Next, Applied;
    dbsAt, selAt := ExecApplies(w, id, now);
  }

  // Runs that lead there -------------------------------------------------------------------------

  const DONE: bytes := [100]

  /** Client 1 watches a key, opens a transaction and queues SET d d; something happens; client 1 sends EXEC. */
  function Story(key: bytes, event: Step, now: int): seq<Step> {
    [Join(1), Join(2), WatchKeys(1, [key]), BeginMulti(1), Queue(1, Data(SetCmd(DONE, DONE))), event,
     ExecTransaction(1, now)]
  }

  const QUEUED: seq<Entry> := [Data(SetCmd(DONE, DONE))]

  const NEW_CLIENT := Client(0, [], false, false, false, [])

  lemma TwoClients(dbs: seq<Db>) returns (w1: World, w2: World)
    requires dbs != [] && AllValid(dbs)
    ensures Follows(Start(dbs), Join(1), w1) && Follows(w1, Join(2), w2)
    ensures Ok(w2) && w2.s.dbs == dbs && w2.s.clients == map[1 := NEW_CLIENT, 2 := NEW_CLIENT]
  {
    hide AllValid;
    StartOk(dbs);
    w1 := Next(Start(dbs), Join(1));
    StepOk(Start(dbs), Join(1));
    w2 := Next(w1, Join(2));
    StepOk(w1, Join(2));
  }

  lemma WatchesOnly(w: World, id: nat, key: bytes)
    requires Ok(w) && id in w.s.clients && !w.s.clients[id].multi
    ensures w.s.clients[id].sel < |w.s.watchers| && id in w.past
    ensures Next(w, WatchKeys(id, [key])) == WatchOne(w, id, key)
  {
    hide Ok, WatchOne;
    Usable(w, id);
    WatchOneOk(w, id, key);
    var ks := [key];
    assert WatchEach(w, id, ks) == WatchEach(WatchOne(w, id, ks[0]), id, ks[1..]) && ks[1..] == [];
  }

  /** Client 1 watches the key and opens a transaction. */
  lemma Watching(w2: World, key: bytes) returns (w3: World, w4: World, w5: World)
    requires Ok(w2) && w2.s.clients == map[1 := NEW_CLIENT, 2 := NEW_CLIENT]
    ensures Follows(w2, WatchKeys(1, [key]), w3) && Follows(w3, BeginMulti(1), w4)
    ensures Follows(w4, Queue(1, Data(SetCmd(DONE, DONE))), w5)
    ensures Ok(w5) && w5.s.dbs == w2.s.dbs && Acts(w5, 2, 1) && w5.s.clients[2].sel == 0
    ensures 1 in w5.s.clients && w5.s.clients[1] == Client(0, [Place(0, key)], true, false, false, QUEUED)
  {
    hide Ok, AllValid;
    WatchOneOk(w2, 1, key);
    WatchesOnly(w2, 1, key);
    w3 := WatchOne(w2, 1, key);
    w4 := Next(w3, BeginMulti(1));
    StepOk(w3, BeginMulti(1));
    w5 := Next(w4, Queue(1, Data(SetCmd(DONE, DONE))));
    StepOk(w4, Queue(1, Data(SetCmd(DONE, DONE))));
    assert [] + QUEUED == QUEUED;
  }

  /** Client 1 has queued its command. */
  predicate Waits(w: World) {
    w.s.dbs != [] && 1 in w.s.clients && w.s.clients[1].sel == 0 && w.s.clients[1].queue == QUEUED
  }

  /** The world before the event. */
  lemma StoryBegins(key: bytes, dbs: seq<Db>) returns (worlds: seq<World>)
    requires dbs != [] && AllValid(dbs) && key in dbs[0].dict
    ensures |worlds| == 6 && worlds[0] == Start(dbs)
    ensures forall i :: 0 <= i < 5 ==> Follows(worlds[i], Story(key, Join(3), 0)[i], worlds[i + 1])
    ensures Ok(worlds[5]) && worlds[5].s.dbs == dbs && Relies(worlds[5], 1, Place(0, key)) && Acts(worlds[5], 2, 1)
    ensures worlds[5].s.clients[2].sel == 0 && Waits(worlds[5])
  {
    hide Ok, AllValid, Follows;
    var w1, w2 := TwoClients(dbs);
    var w3, w4, w5 := Watching(w2, key);
    worlds := [Start(dbs), w1, w2, w3, w4, w5];
  }

  /** A run that ends with an EXEC: the value of a key that the client watches has gone by then, and the
      command that it queued is executed. */
  ghost predicate EndsDeceived(worlds: seq<World>, steps: seq<Step>, dbs: seq<Db>, id: nat, p: Place) {
    && Path(worlds, steps, dbs) && steps != [] && steps[|steps| - 1].ExecTransaction? && steps[|steps| - 1].id == id
    && Deceived(worlds[|steps| - 1], id, p)
    && Lookup(dbs, p) != None && Lookup(worlds[|steps| - 1].s.dbs, p) == None
    && Lookup(dbs, Place(0, DONE)) == None && Lookup(worlds[|steps|].s.dbs, Place(0, DONE)) == Some(Str(DONE))
  }

  lemma StillWaits(w: World, c: Command, now: int)
    requires Ok(w) && Waits(w) && Acts(w, 2, 1) && now >= 0
    ensures Waits(Next(w, RunCommand(2, c, now)))
  {
    hide Ok, Touches, Next;
    RunLaw(w, 2, c, now);
  }

  lemma QueueDone(w: World, p: Place, now: int)
    requires Ok(w) && Deceived(w, 1, p) && Waits(w) && now >= 0
    ensures Lookup(Next(w, ExecTransaction(1, now)).s.dbs, Place(0, DONE)) == Some(Str(DONE))
  {
    hide Ok, Next, Keyspace.Execute;
    var dbsAt, selAt := DeceivedExecutes(w, 1, p, now);
    assert EntryApplied(QUEUED[0], now, dbsAt[0], selAt[0], dbsAt[0 + 1], selAt[0 + 1]);
    KeyspaceLaws.SetLaw(w.s.dbs, 0, Clock(now, false), DONE, DONE, 0, DONE);
  }

  lemma GoneByThen(w: World, p: Place)
    requires Deceived(w, 1, p)
    ensures Lookup(w.s.dbs, p) == None
  {}

  lemma EndEnabled(w: World, id: nat, p: Place, now: int)
    requires Deceived(w, id, p) && now >= 0
    ensures Enabled(w, ExecTransaction(id, now))
  {}

  lemma StoryEnds(key: bytes, dbs: seq<Db>, worlds: seq<World>, event: Step, now: int) returns (all: seq<World>)
    requires |worlds| == 6 && worlds[0] == Start(dbs) && Ok(worlds[5]) && Enabled(worlds[5], event) && now >= 0
    requires forall i :: 0 <= i < 5 ==> Follows(worlds[i], Story(key, Join(3), 0)[i], worlds[i + 1])
    requires Deceived(Next(worlds[5], event), 1, Place(0, key)) && Waits(Next(worlds[5], event))
    requires Lookup(dbs, Place(0, key)) != None && Lookup(dbs, Place(0, DONE)) == None
    ensures EndsDeceived(all, Story(key, event, now), dbs, 1, Place(0, key))
  {
    hide Ok, Enabled, Next, Deceived, Lookup, Waits;
    var w6 := Next(worlds[5], event);
    StepOk(worlds[5], event);
    EndEnabled(w6, 1, Place(0, key), now);
    QueueDone(w6, Place(0, key), now);
    GoneByThen(w6, Place(0, key));
    all := worlds + [w6, Next(w6, ExecTransaction(1, now))];
    var steps := Story(key, event, now);
    forall i | 0 <= i < 7
      ensures Follows(all[i], steps[i], all[i + 1])
    {
      if i < 5 {
        assert Follows(worlds[i], Story(key, Join(3), 0)[i], worlds[i + 1]);
      }
    }
  }

  lemma VanishWaits(w: World, key: bytes, now: int)
    requires Ok(w) && Waits(w) && Enabled(w, ActiveExpire(0, key, now))
    ensures Waits(Next(w, ActiveExpire(0, key, now)))
  {
    hide Ok;
  }

  lemma StartsWith(dbs: seq<Db>, key: bytes)
    requires dbs != [] && key == [107] && dbs[0].dict == map[key := Str(key)]
    ensures Lookup(dbs, Place(0, key)) != None && Lookup(dbs, Place(0, DONE)) == None
  {
    assert key[0] != DONE[0];
  }

  lemma OneKeyValid(key: bytes)
    ensures AllValid([Db(map[key := Str(key)], map[]), EMPTY_DB])
    ensures AllValid([Db(map[key := Str(key)], map[key := 10])])
  {}

  /** Client 2 moves the key away. */
  lemma MoveExample() returns (worlds: seq<World>, steps: seq<Step>, dbs: seq<Db>, key: bytes)
    ensures dbs == [Db(map[key := Str(key)], map[]), EMPTY_DB] && steps == Story(key, RunCommand(2, Move(key, 1), 0), 0)
    ensures EndsDeceived(worlds, steps, dbs, 1, Place(0, key))
  {
    hide Ok, Next, Deceived, AllValid, Relies, Lookup, Path;
    key := [107];
    dbs := [Db(map[key := Str(key)], map[]), EMPTY_DB];
    OneKeyValid(key);
    var event := RunCommand(2, Move(key, 1), 0);
    steps := Story(key, event, 0);
    worlds := StoryBegins(key, dbs);
    MoveEscapes(worlds[5], 1, 2, key, 1, 0);
    StillWaits(worlds[5], Move(key, 1), 0);
    StartsWith(dbs, key);
    worlds := StoryEnds(key, dbs, worlds, event, 0);
  }

  /** The key is volatile, and client 2 reads it after its time. */
  lemma ExpiryExample() returns (worlds: seq<World>, steps: seq<Step>, dbs: seq<Db>, key: bytes)
    ensures dbs == [Db(map[key := Str(key)], map[key := 10])] && steps == Story(key, RunCommand(2, Get(key), 11), 11)
    ensures EndsDeceived(worlds, steps, dbs, 1, Place(0, key))
  {
    hide Ok, Next, Deceived, AllValid, Relies, Lookup, Path;
    key := [107];
    dbs := [Db(map[key := Str(key)], map[key := 10])];
    OneKeyValid(key);
    var event := RunCommand(2, Get(key), 11);
    steps := Story(key, event, 11);
    worlds := StoryBegins(key, dbs);
    GetEscapes(worlds[5], 1, 2, key, 11);
    StillWaits(worlds[5], Get(key), 11);
    StartsWith(dbs, key);
    worlds := StoryEnds(key, dbs, worlds, event, 11);
  }

  /** The server deletes it before anyone reads it. */
  lemma ActiveExpiryExample() returns (worlds: seq<World>, steps: seq<Step>, dbs: seq<Db>, key: bytes)
    ensures dbs == [Db(map[key := Str(key)], map[key := 10])] && steps == Story(key, ActiveExpire(0, key, 11), 11)
    ensures EndsDeceived(worlds, steps, dbs, 1, Place(0, key))
  {
    hide Ok, Next, Deceived, AllValid, Relies, Lookup, Path;
    key := [107];
    dbs := [Db(map[key := Str(key)], map[key := 10])];
    OneKeyValid(key);
    var event := ActiveExpire(0, key, 11);
    steps := Story(key, event, 11);
    worlds := StoryBegins(key, dbs);
    ActiveExpiryEscapes(worlds[5], 1, 0, key, 11);
    VanishWaits(worlds[5], key, 11);
    StartsWith(dbs, key);
    worlds := StoryEnds(key, dbs, worlds, event, 11);
  }
}
