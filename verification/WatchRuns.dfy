/**
 Runs of clients that watch, queue and execute: a transaction is executed just when none of the keys it
 watches was touched since it began to watch them. Every change that a command makes to a value
 touches its key, with two exceptions: MOVE, and a key that expires when it is looked up.
 */
module WatchRuns {
  import opened Bytes
  import opened Keyspace
  import opened KeyspaceValid
  import opened Watch
  import opened Wrappers

  /** What happened to the keys a client watches: their values when it began to, the keys touched since
      then, and the keys whose values changed without a touch. */
  datatype History = History(seen: map<Place, Option<Value>>, touched: set<Place>, silent: set<Place>)

  const NO_HISTORY := History(map[], {}, {})

  datatype World = World(s: State, past: map<nat, History>)

  datatype Step =
    | Join(id: nat)
    | Leave(id: nat)
    | WatchKeys(id: nat, keys: seq<bytes>)
    | Unwatch(id: nat)
    | BeginMulti(id: nat)
    | Queue(id: nat, entry: Entry)
    | QueueError(id: nat)
    | Discard(id: nat)
    | RunCommand(id: nat, cmd: Command, now: int)
    | ExecTransaction(id: nat, now: int)
    | ActiveExpire(db: nat, key: bytes, now: int)

  // Commands -------------------------------------------------------------------------------------

  function Looked(c: Command, dbs: seq<Db>, sel: nat, now: int): (r: seq<Db>)
    requires sel < |dbs|
    ensures |r| == |dbs|
  {
    LookUp(c, dbs, sel, Clock(now, false)).0
  }

  /** The keys that expire while a command looks them up. */
  function Expired(c: Command, dbs: seq<Db>, sel: nat, now: int): set<Place>
    requires sel < |dbs|
  {
    set x | x in LookUp(c, dbs, sel, Clock(now, false)).1 :: Place(x.db, x.key)
  }

  function Touches(c: Command, dbs: seq<Db>, sel: nat, now: int): set<Place>
    requires sel < |dbs|
  {
    Signals(c, Looked(c, dbs, sel, now), sel, Clock(now, false))
  }

  function Slips(c: Command, dbs: seq<Db>, sel: nat, now: int): set<Place>
    requires sel < |dbs|
  {
    Expired(c, dbs, sel, now) + MovedPlaces(c, Looked(c, dbs, sel, now), sel)
  }

  function After(c: Command, dbs: seq<Db>, sel: nat, now: int): (r: seq<Db>)
    requires sel < |dbs|
    ensures |r| == |dbs|
  {
    Body(c, Looked(c, dbs, sel, now), sel, Clock(now, false)).data
  }

  lemma TwoLookUps(c: Command, dbs: seq<Db>, sel: nat, now: int, p: Place)
    requires sel < |dbs| && (c.Rename? || c.Move?)
    ensures Lookup(Looked(c, dbs, sel, now), p) == if p in Expired(c, dbs, sel, now) then None else Lookup(dbs, p)
  {
    var clock := Clock(now, false);
    var k1 := if c.Rename? then c.src else c.key;
    var db2, k2 := if c.Move? then c.db else sel as int, if c.Rename? then c.dst else c.key;
    var r := LookUp(c, dbs, sel, clock);
    var first := ExpireIfNeeded(dbs, sel, k1, clock);
    if r != (dbs, []) && r != first {
      var second := ExpireIfNeeded(first.0, db2, k2, clock);
      assert r == Then(first.1, second);
      assert r.1 == first.1 + second.1 && r.0 == second.0;
    }
  }

  lemma LookUpsExpire(c: Command, dbs: seq<Db>, sel: nat, now: int, p: Place)
    requires sel < |dbs|
    ensures Lookup(Looked(c, dbs, sel, now), p) == if p in Expired(c, dbs, sel, now) then None else Lookup(dbs, p)
  {
    var r := LookUp(c, dbs, sel, Clock(now, false));
    if c.Rename? || c.Move? {
      TwoLookUps(c, dbs, sel, now, p);
    } else {
      assert r.1 == [] || r.1 == [r.1[0]];
    }
  }

  /** A MOVE finds that its target has expired, and puts an equal value in its place. */
  predicate MovedBack(c: Command, dbs: seq<Db>, sel: nat, now: int, p: Place)
    requires sel < |dbs|
  {
    && c.Move? && 0 <= c.db < |dbs| && c.db != sel && p == Place(c.db, c.key)
    && c.key in dbs[sel].dict && !IsExpired(dbs[sel], c.key, Clock(now, false))
    && c.key in dbs[c.db].dict && IsExpired(dbs[c.db], c.key, Clock(now, false))
    && dbs[c.db].dict[c.key] == dbs[sel].dict[c.key]
  }

  lemma ExpiredWasThere(c: Command, dbs: seq<Db>, sel: nat, now: int, p: Place)
    requires sel < |dbs| && AllValid(dbs) && p in Expired(c, dbs, sel, now)
    ensures Lookup(dbs, p) != None
  {}

  lemma MovedAnew(c: Command, dbs: seq<Db>, sel: nat, now: int, p: Place)
    requires sel < |dbs| && AllValid(dbs) && p in Expired(c, dbs, sel, now)
    requires p in MovedPlaces(c, Looked(c, dbs, sel, now), sel)
    ensures Lookup(After(c, dbs, sel, now), p) == Lookup(dbs, p) <==> MovedBack(c, dbs, sel, now, p)
  {}

  lemma MovedBackIsMoved(c: Command, dbs: seq<Db>, sel: nat, now: int, p: Place)
    requires sel < |dbs| && MovedBack(c, dbs, sel, now, p)
    ensures p in Expired(c, dbs, sel, now) && p in MovedPlaces(c, Looked(c, dbs, sel, now), sel)
  {
    var r := LookUp(c, dbs, sel, Clock(now, false));
    assert r.1 == [Expiry(c.db, c.key)];
  }

  /** The value of a key that a command does not touch changes if and only if the key expires during a
      look-up or a MOVE takes or brings it, unless it expires and is brought back at once. */
  lemma ChangesUntouched(c: Command, dbs: seq<Db>, sel: nat, now: int, p: Place)
    requires sel < |dbs| && AllValid(dbs)
    ensures p !in Touches(c, dbs, sel, now) ==>
              (Lookup(After(c, dbs, sel, now), p) != Lookup(dbs, p) <==>
               p in Slips(c, dbs, sel, now) && !MovedBack(c, dbs, sel, now, p))
  {
    hide LookUp, Body, Signals, MovedPlaces, Lookup, AllValid, MovedBack;
    if MovedBack(c, dbs, sel, now, p) {
      MovedBackIsMoved(c, dbs, sel, now, p);
    }
    LookUpsExpire(c, dbs, sel, now, p);
    ChangesAreSignalled(c, Looked(c, dbs, sel, now), sel, Clock(now, false), p);
    if p in Expired(c, dbs, sel, now) {
      ExpiredWasThere(c, dbs, sel, now, p);
      if p in MovedPlaces(c, Looked(c, dbs, sel, now), sel) {
        MovedAnew(c, dbs, sel, now, p);
      }
    }
  }

  lemma AfterValid(c: Command, dbs: seq<Db>, sel: nat, now: int)
    requires sel < |dbs| && AllValid(dbs) && now >= 0
    ensures AllValid(After(c, dbs, sel, now))
  {
    hide LookUp, Body, AllValid;
    LookUpExpires(c, dbs, sel, now);
    ApplyExpiriesValid(dbs, LookUp(c, dbs, sel, Clock(now, false)).1);
    BodyValid(c, Looked(c, dbs, sel, now), sel, now);
  }

  // Transitions ----------------------------------------------------------------------------------

  function Remember(past: map<nat, History>, touched: set<Place>, slipped: set<Place>): (r: map<nat, History>)
    ensures r.Keys == past.Keys
  {
    map id | id in past :: past[id].(touched := past[id].touched + touched, silent := past[id].silent + slipped)
  }

  /** A command of client `id` is executed. */
  function Perform(w: World, id: nat, c: Command, now: int): World
    requires id in w.s.clients && w.s.clients[id].sel < |w.s.dbs|
  {
    var sel, dbs := w.s.clients[id].sel, w.s.dbs;
    var touched := Touches(c, dbs, sel, now);
    var clients := Marked(w.s.clients, touched);
    World(w.s.(clients := clients[id := clients[id].(sel := Selected(c, sel, |dbs|))], dbs := After(c, dbs, sel, now)),
          Remember(w.past, touched, Slips(c, dbs, sel, now)))
  }

  /** unwatchAllKeys, with the flags and the queue of the client set anew. */
  function Reset(w: World, id: nat, multi: bool, dirtyExec: bool, queue: seq<Entry>): World
    requires id in w.s.clients
  {
    var s := UnwatchAllKeys(w.s, id);
    World(WithClient(s, id, s.clients[id].(multi := multi, dirtyCas := false, dirtyExec := dirtyExec, queue := queue)),
          w.past[id := NO_HISTORY])
  }

  /** UNWATCH, executed. */
  function Unwatched(w: World, id: nat): World
    requires id in w.s.clients
  {
    var c := w.s.clients[id];
    Reset(w, id, c.multi, c.dirtyExec, c.queue)
  }

  function PerformEntry(w: World, id: nat, e: Entry, now: int): World
    requires id in w.s.clients && w.s.clients[id].sel < |w.s.dbs|
  {
    if e.Data? then Perform(w, id, e.cmd, now) else Unwatched(w, id)
  }

  // What always holds, and the transitions that rely on it ---------------------------------------

  ghost predicate ClientOk(c: Client, h: History, dbs: seq<Db>) {
    && (forall p :: p in h.seen <==> p in c.watched)
    && (c.dirtyCas <==> WatchesAny(c, h.touched))
    && forall p :: p in c.watched && p !in h.touched && p !in h.silent ==> Lookup(dbs, p) == h.seen[p]
  }

  ghost predicate Ok(w: World) {
    && Inverse(w.s) && w.s.dbs != [] && AllValid(w.s.dbs) && w.past.Keys == w.s.clients.Keys
    && forall id :: id in w.s.clients ==> ClientOk(w.s.clients[id], w.past[id], w.s.dbs)
  }

  /** The index is about who watches what, and about nothing else. */
  lemma InverseFrame(s: State, s': State)
    requires Inverse(s) && s'.watchers == s.watchers && |s'.dbs| == |s.dbs| && s'.clients.Keys == s.clients.Keys
    requires forall id :: id in s.clients ==>
               s'.clients[id].watched == s.clients[id].watched && s'.clients[id].sel < |s.dbs|
    ensures Inverse(s')
  {
    forall id: nat, p: Place
      ensures Watches(s', id, p) <==> Listed(s', id, p)
    {
      assert Watches(s, id, p) <==> Listed(s, id, p);
    }
  }

  lemma PerformFrame(w: World, id: nat, c: Command, now: int)
    requires id in w.s.clients && w.s.clients[id].sel < |w.s.dbs|
    ensures var w' := Perform(w, id, c, now);
            && w'.s.clients.Keys == w.s.clients.Keys && w'.past.Keys == w.past.Keys
            && w'.s.watchers == w.s.watchers && |w'.s.dbs| == |w.s.dbs|
            && w'.s.dbs == After(c, w.s.dbs, w.s.clients[id].sel, now)
  {
    hide Touches, Slips, After;
  }

  lemma Usable(w: World, id: nat)
    requires Ok(w) && id in w.s.clients
    ensures w.s.clients[id].sel < |w.s.dbs| == |w.s.watchers| && id in w.past
  {}

  /** One client, before and after a command of client `id`. */
  lemma Performed(w: World, id: nat, c: Command, now: int, j: nat)
    requires Ok(w) && id in w.s.clients && j in w.s.clients
    ensures w.s.clients[id].sel < |w.s.dbs| && j in w.past
    ensures var sel, dbs, w' := w.s.clients[id].sel, w.s.dbs, Perform(w, id, c, now);
            && j in w'.s.clients && j in w'.past && w'.s.clients[j].sel < |dbs|
            && w'.s.clients[j].watched == w.s.clients[j].watched && w'.past[j].seen == w.past[j].seen
            && (w'.s.clients[j].dirtyCas
               <==> w.s.clients[j].dirtyCas || WatchesAny(w.s.clients[j], Touches(c, dbs, sel, now)))
            && w'.past[j].touched == w.past[j].touched + Touches(c, dbs, sel, now)
            && w'.past[j].silent == w.past[j].silent + Slips(c, dbs, sel, now)
  {
    hide Touches, Slips, After, Lookup, ClientOk, WatchesAny;
    Usable(w, id);
    Usable(w, j);
    hide Ok;
  }

  /** A client and its history after a command of anyone. */
  lemma Remembered(c: Client, h: History, dbs: seq<Db>, cmd: Command, sel: nat, now: int, c': Client, h': History)
    requires ClientOk(c, h, dbs) && sel < |dbs| && AllValid(dbs)
    requires c'.watched == c.watched && h'.seen == h.seen
    requires c'.dirtyCas <==> c.dirtyCas || WatchesAny(c, Touches(cmd, dbs, sel, now))
    requires h'.touched == h.touched + Touches(cmd, dbs, sel, now) && h'.silent == h.silent + Slips(cmd, dbs, sel, now)
    ensures ClientOk(c', h', After(cmd, dbs, sel, now))
  {
    hide Touches, Slips, After, Lookup, AllValid, MovedBack;
    forall p | p in c'.watched && p !in h'.touched && p !in h'.silent
      ensures Lookup(After(cmd, dbs, sel, now), p) == h'.seen[p]
    {
      ChangesUntouched(cmd, dbs, sel, now, p);
    }
  }

  lemma PerformOk(w: World, id: nat, c: Command, now: int)
    requires Ok(w) && id in w.s.clients && now >= 0
    ensures Ok(Perform(w, id, c, now)) && id in Perform(w, id, c, now).s.clients
  {
    hide Touches, Slips, After, Lookup, Inverse, Perform, ClientOk, AllValid;
    Usable(w, id);
    var sel, dbs := w.s.clients[id].sel, w.s.dbs;
    var w' := Perform(w, id, c, now);
    PerformFrame(w, id, c, now);
    forall j | j in w.s.clients
      ensures w'.s.clients[j].watched == w.s.clients[j].watched && w'.s.clients[j].sel < |dbs|
      ensures ClientOk(w'.s.clients[j], w'.past[j], w'.s.dbs)
    {
      Performed(w, id, c, now, j);
      Remembered(w.s.clients[j], w.past[j], dbs, c, sel, now, w'.s.clients[j], w'.past[j]);
    }
    InverseFrame(w.s, w'.s);
    AfterValid(c, dbs, sel, now);
  }

  lemma IndexUnwatched(s: State, id: nat)
    requires Inverse(s) && id in s.clients
    ensures var r := UnwatchAllKeys(s, id);
            && r.clients == s.clients[id := s.clients[id].(watched := [])] && r.dbs == s.dbs
            && forall j :: j in r.clients ==> r.clients[j].sel < |s.dbs|
  {}

  lemma ResetOk(w: World, id: nat, multi: bool, dirtyExec: bool, queue: seq<Entry>)
    requires Ok(w) && id in w.s.clients
    ensures Ok(Reset(w, id, multi, dirtyExec, queue)) && id in Reset(w, id, multi, dirtyExec, queue).s.clients
  {
    hide Inverse, UnwatchAllKeys, Lookup;
    var s := UnwatchAllKeys(w.s, id);
    UnwatchKeepsInverse(w.s, id);
    IndexUnwatched(w.s, id);
    InverseFrame(s, Reset(w, id, multi, dirtyExec, queue).s);
  }

  lemma EntryOk(w: World, id: nat, e: Entry, now: int)
    requires Ok(w) && id in w.s.clients && now >= 0
    ensures w.s.clients[id].sel < |w.s.dbs|
    ensures Ok(PerformEntry(w, id, e, now)) && id in PerformEntry(w, id, e, now).s.clients
  {
    hide Perform, Ok, Reset;
    Usable(w, id);
    if e.Data? {
      PerformOk(w, id, e.cmd, now);
    } else {
      ResetOk(w, id, w.s.clients[id].multi, w.s.clients[id].dirtyExec, w.s.clients[id].queue);
    }
  }

  ghost function PerformAll(w: World, id: nat, es: seq<Entry>, now: int): World
    requires Ok(w) && id in w.s.clients && now >= 0
    decreases |es|
  {
    if es == [] then w
    else
      EntryOk(w, id, es[0], now);
      PerformAll(PerformEntry(w, id, es[0], now), id, es[1..], now)
  }

  function WatchOne(w: World, id: nat, k: bytes): World
    requires id in w.s.clients && w.s.clients[id].sel < |w.s.watchers| && id in w.past
  {
    var p, h := Place(w.s.clients[id].sel, k), w.past[id];
    if p in w.s.clients[id].watched then w
    else
      World(WatchForKey(w.s, id, k),
            w.past[id := History(h.seen[p := Lookup(w.s.dbs, p)], h.touched - {p}, h.silent - {p})])
  }

  lemma WatchersSize(s: State)
    requires Inverse(s)
    ensures |s.watchers| == |s.dbs|
  {}

  lemma NewlyWatched(c: Client, h: History, dbs: seq<Db>, p: Place)
    requires ClientOk(c, h, dbs) && p !in c.watched
    ensures ClientOk(c.(watched := c.watched + [p]),
              History(h.seen[p := Lookup(dbs, p)], h.touched - {p}, h.silent - {p}), dbs)
  {
    hide Lookup;
    var h', c' := History(h.seen[p := Lookup(dbs, p)], h.touched - {p}, h.silent - {p}), c.(watched := c.watched + [p]);
    if WatchesAny(c, h.touched) {
      var q :| q in c.watched && q in h.touched;
      assert q in c'.watched && q in h'.touched;
    }
  }

  lemma OkIndex(w: World)
    requires Ok(w)
    ensures Inverse(w.s) && forall j :: j in w.s.clients ==> w.s.clients[j].sel < |w.s.dbs|
  {}

  lemma WatchOneOk(w: World, id: nat, k: bytes)
    requires Ok(w) && id in w.s.clients
    ensures Ok(WatchOne(w, id, k)) && id in WatchOne(w, id, k).s.clients
  {
    hide Inverse, Lookup;
    WatchKeepsInverse(w.s, id, k);
    OkIndex(w);
    WatchersSize(w.s);
    var w', p := WatchOne(w, id, k), Place(w.s.clients[id].sel, k);
    if p !in w.s.clients[id].watched {
      NewlyWatched(w.s.clients[id], w.past[id], w.s.dbs, p);
    }
  }

  ghost function WatchEach(w: World, id: nat, ks: seq<bytes>): World
    requires Ok(w) && id in w.s.clients
    decreases |ks|
  {
    if ks == [] then w
    else
      WatchOneOk(w, id, ks[0]);
      WatchEach(WatchOne(w, id, ks[0]), id, ks[1..])
  }

  /** Whether EXEC executes the queue. */
  predicate Executes(c: Client) {
    c.multi && !c.dirtyCas && !c.dirtyExec
  }

  ghost predicate Enabled(w: World, step: Step) {
    match step
    case Join(id) => id !in w.s.clients
    case ActiveExpire(db, k, now) => db < |w.s.dbs| && IsExpired(w.s.dbs[db], k, Clock(now, false))
    case Queue(id, _) => id in w.s.clients && w.s.clients[id].multi
    case Unwatch(id) => id in w.s.clients && !w.s.clients[id].multi
    case RunCommand(id, _, now) => id in w.s.clients && !w.s.clients[id].multi && now >= 0
    case ExecTransaction(id, now) => id in w.s.clients && now >= 0
    case _ => step.id in w.s.clients
  }

  /** The server deletes a key that has expired, without a command. */
  function Vanish(w: World, db: nat, k: bytes): World
    requires db < |w.s.dbs|
  {
    World(w.s.(dbs := w.s.dbs[db := DbDelete(w.s.dbs[db], k)]), Remember(w.past, {}, {Place(db, k)}))
  }

  lemma {:induction false} PerformAllOk(w: World, id: nat, es: seq<Entry>, now: int)
    requires Ok(w) && id in w.s.clients && now >= 0
    ensures Ok(PerformAll(w, id, es, now)) && id in PerformAll(w, id, es, now).s.clients
    decreases |es|
  {
    hide PerformEntry, Ok;
    Usable(w, id);
    if es != [] {
      EntryOk(w, id, es[0], now);
      PerformAllOk(PerformEntry(w, id, es[0], now), id, es[1..], now);
    }
  }

  ghost function Next(w: World, step: Step): World
    requires Ok(w) && Enabled(w, step)
  {
    match step
    case Join(id) => World(WithClient(w.s, id, Client(0, [], false, false, false, [])), w.past[id := NO_HISTORY])
    case Leave(id) => var r := Reset(w, id, false, false, []); World(r.s.(clients := r.s.clients - {id}), r.past - {id})
    case WatchKeys(id, ks) => if w.s.clients[id].multi then w else WatchEach(w, id, ks)
    case Unwatch(id) => Unwatched(w, id)
    case BeginMulti(id) => w.(s := WithClient(w.s, id, w.s.clients[id].(multi := true)))
    case Queue(id, e) => w.(s := WithClient(w.s, id, w.s.clients[id].(queue := w.s.clients[id].queue + [e])))
    case QueueError(id) =>
      if w.s.clients[id].multi then w.(s := WithClient(w.s, id, w.s.clients[id].(dirtyExec := true))) else w
    case Discard(id) => if w.s.clients[id].multi then Reset(w, id, false, false, []) else w
    case RunCommand(id, c, now) => Perform(w, id, c, now)
    case ExecTransaction(id, now) =>
      var c := w.s.clients[id];
      if !c.multi then w
      else if Executes(c) then
        ResetOk(w, id, true, false, c.queue);
        var r := PerformAll(Reset(w, id, true, false, c.queue), id, c.queue, now);
        PerformAllOk(Reset(w, id, true, false, c.queue), id, c.queue, now);
        Reset(r, id, false, false, [])
      else Reset(w, id, false, false, [])
    case ActiveExpire(db, k, _) => Vanish(w, db, k)
  }

  lemma {:induction false} WatchEachOk(w: World, id: nat, ks: seq<bytes>)
    requires Ok(w) && id in w.s.clients
    ensures Ok(WatchEach(w, id, ks))
    decreases |ks|
  {
    hide WatchOne, Ok;
    Usable(w, id);
    if ks != [] {
      WatchOneOk(w, id, ks[0]);
      WatchEachOk(WatchOne(w, id, ks[0]), id, ks[1..]);
    }
  }

  // Steps ----------------------------------------------------------------------------------------

  /** Changing nothing but the flags of a transaction and its queue. */
  lemma FlagsOk(w: World, id: nat, c: Client)
    requires Ok(w) && id in w.s.clients
    requires c.watched == w.s.clients[id].watched && c.dirtyCas == w.s.clients[id].dirtyCas
               && c.sel == w.s.clients[id].sel
    ensures Ok(w.(s := WithClient(w.s, id, c)))
  {
    hide Inverse, Lookup;
    Usable(w, id);
    OkIndex(w);
    InverseFrame(w.s, WithClient(w.s, id, c));
  }

  lemma JoinOk(w: World, id: nat)
    requires Ok(w) && id !in w.s.clients
    ensures Ok(Next(w, Join(id)))
  {
    hide Lookup;
    var s' := Next(w, Join(id)).s;
    forall j: nat, p: Place
      ensures Watches(s', j, p) <==> Listed(s', j, p)
    {
      assert Watches(w.s, j, p) <==> Listed(w.s, j, p);
    }
  }

  lemma ResetWatchesNothing(w: World, id: nat, multi: bool, dirtyExec: bool, queue: seq<Entry>)
    requires id in w.s.clients
    ensures var r := Reset(w, id, multi, dirtyExec, queue); id in r.s.clients && r.s.clients[id].watched == []
  {}

  lemma GoneInverse(s: State, id: nat)
    requires Inverse(s) && id in s.clients && s.clients[id].watched == []
    ensures Inverse(s.(clients := s.clients - {id}))
  {
    var s' := s.(clients := s.clients - {id});
    forall j: nat, p: Place
      ensures Watches(s', j, p) <==> Listed(s', j, p)
    {
      assert Watches(s, j, p) <==> Listed(s, j, p);
    }
  }

  lemma GoneOk(w: World, id: nat)
    requires Ok(w) && id in w.s.clients && w.s.clients[id].watched == []
    ensures Ok(World(w.s.(clients := w.s.clients - {id}), w.past - {id}))
  {
    hide Inverse, AllValid, Lookup;
    GoneInverse(w.s, id);
  }

  lemma LeaveOk(w: World, id: nat)
    requires Ok(w) && id in w.s.clients
    ensures Ok(Next(w, Leave(id)))
  {
    ResetOk(w, id, false, false, []);
    ResetWatchesNothing(w, id, false, false, []);
    hide Ok, Reset;
    GoneOk(Reset(w, id, false, false, []), id);
  }

  lemma VanishedValid(dbs: seq<Db>, db: nat, k: bytes)
    requires AllValid(dbs) && db < |dbs|
    ensures AllValid(dbs[db := DbDelete(dbs[db], k)])
    ensures forall p: Place :: p != Place(db, k) ==> Lookup(dbs[db := DbDelete(dbs[db], k)], p) == Lookup(dbs, p)
  {
    assert DbValid(dbs[db]);
  }

  lemma VanishOk(w: World, db: nat, k: bytes)
    requires Ok(w) && db < |w.s.dbs|
    ensures Ok(Vanish(w, db, k))
  {
    hide Inverse, AllValid, Lookup;
    var w' := Vanish(w, db, k);
    OkIndex(w);
    VanishedValid(w.s.dbs, db, k);
    InverseFrame(w.s, w'.s);
    forall id | id in w.s.clients
      ensures ClientOk(w'.s.clients[id], w'.past[id], w'.s.dbs)
    {
      assert w'.past[id].touched == w.past[id].touched;
    }
  }

  lemma ExecOk(w: World, id: nat, now: int)
    requires Ok(w) && id in w.s.clients && now >= 0
    ensures Ok(Next(w, ExecTransaction(id, now)))
  {
    hide Ok, Perform, Reset, WithClient;
    var c := w.s.clients[id];
    ResetOk(w, id, false, false, []);
    ResetOk(w, id, true, false, c.queue);
    var r := Reset(w, id, true, false, c.queue);
    PerformAllOk(r, id, c.queue, now);
    ResetOk(PerformAll(r, id, c.queue, now), id, false, false, []);
  }

  lemma StepOk(w: World, step: Step)
    requires Ok(w) && Enabled(w, step)
    ensures Ok(Next(w, step))
  {
    hide Ok, Perform, Reset, WithClient;
    match step
    case Join(id) => JoinOk(w, id);
    case Leave(id) => LeaveOk(w, id);
    case WatchKeys(id, ks) =>
      if !w.s.clients[id].multi {
        WatchEachOk(w, id, ks);
      }
    case Unwatch(id) => ResetOk(w, id, w.s.clients[id].multi, w.s.clients[id].dirtyExec, w.s.clients[id].queue);
    case BeginMulti(id) => FlagsOk(w, id, w.s.clients[id].(multi := true));
    case Queue(id, e) => FlagsOk(w, id, w.s.clients[id].(queue := w.s.clients[id].queue + [e]));
    case QueueError(id) =>
      if w.s.clients[id].multi {
        FlagsOk(w, id, w.s.clients[id].(dirtyExec := true));
      }
    case Discard(id) => ResetOk(w, id, false, false, []);
    case RunCommand(id, c, now) => PerformOk(w, id, c, now);
    case ExecTransaction(id, now) => ExecOk(w, id, now);
    case ActiveExpire(db, k, _) => VanishOk(w, db, k);
  }

  // Requests -----------------------------------------------------------------------------------

  /** What a client may send; `Refused` stands for a command that is unknown, has a wrong number of
      arguments or may not be executed. */
  datatype Request =
    | Watching(keys: seq<bytes>)
    | Unwatching
    | Beginning
    | Discarding
    | Executing
    | Running(cmd: Command)
    | Refused

  function StepOf(id: nat, c: Client, r: Request, now: int): Step {
    match r
    case Watching(keys) => WatchKeys(id, keys)
    case Unwatching => if c.multi then Queue(id, UnwatchLater) else Unwatch(id)
    case Beginning => BeginMulti(id)
    case Discarding => Discard(id)
    case Executing => ExecTransaction(id, now)
    case Running(cmd) => if c.multi then Queue(id, Data(cmd)) else RunCommand(id, cmd, now)
    case Refused => QueueError(id)
  }

  // Runs -----------------------------------------------------------------------------------------

  /** A server without clients. */
  function Start(dbs: seq<Db>): World {
    World(State(map[], seq(|dbs|, _ => map[]), dbs), map[])
  }

  /** Worlds that are not `Ok` are never met, as `AlwaysOk` shows. */
  ghost predicate Follows(w: World, step: Step, w': World) {
    Ok(w) ==> Enabled(w, step) && w' == Next(w, step)
  }

  ghost predicate Path(worlds: seq<World>, steps: seq<Step>, dbs: seq<Db>) {
    && |worlds| == |steps| + 1 && worlds[0] == Start(dbs)
    && forall i :: 0 <= i < |steps| ==> Follows(worlds[i], steps[i], worlds[i + 1])
  }

  lemma StartOk(dbs: seq<Db>)
    requires dbs != [] && AllValid(dbs)
    ensures Ok(Start(dbs))
  {}

  lemma {:induction false} AlwaysOk(worlds: seq<World>, steps: seq<Step>, dbs: seq<Db>, n: nat)
    requires dbs != [] && AllValid(dbs) && Path(worlds, steps, dbs) && n <= |steps|
    ensures Ok(worlds[n])
    decreases n
  {
    hide Ok, Next, Enabled;
    if n == 0 {
      StartOk(dbs);
    } else {
      AlwaysOk(worlds, steps, dbs, n - 1);
      assert Follows(worlds[n - 1], steps[n - 1], worlds[n - 1 + 1]);
      StepOk(worlds[n - 1], steps[n - 1]);
    }
  }
}
