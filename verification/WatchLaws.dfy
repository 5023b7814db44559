/**
 What the commands of optimistic transactions do to the keyspace and to the clients, step by step and in
 whole runs, told by the keys that were touched and by what each queued command does.
 */
module WatchLaws {
  import opened Bytes
  import opened Keyspace
  import opened KeyspaceValid
  import opened Watch
  import opened WatchRuns
  import opened Wrappers

  // The queue ------------------------------------------------------------------------------------

  /** The keyspace and the selected database before and after one queued entry. */
  ghost predicate EntryApplied(e: Entry, now: int, dbs: seq<Db>, sel: nat, dbs': seq<Db>, sel': nat) {
    && sel < |dbs|
    && match e
       case Data(c) =>
         dbs' == Keyspace.Execute(c, dbs, sel, Clock(now, false)).data && sel' == Selected(c, sel, |dbs|)
       case UnwatchLater => dbs' == dbs && sel' == sel
  }

  /** All entries of a queue, one after the other: each works on what the one before it left. */
  ghost predicate Applied(queue: seq<Entry>, now: int, dbsAt: seq<seq<Db>>, selAt: seq<nat>) {
    && |dbsAt| == |selAt| == |queue| + 1
    && forall i :: 0 <= i < |queue| ==>
         EntryApplied(queue[i], now, dbsAt[i], selAt[i], dbsAt[i + 1], selAt[i + 1])
  }

  predicate EntryMeets(e: Entry, now: int, dbs: seq<Db>, sel: nat, c: Client)
  {
    e.Data? && sel < |dbs| && WatchesAny(c, Touches(e.cmd, dbs, sel, now))
  }

  /** One of the queued commands touches a key that a client watches. */
  ghost predicate Meets(queue: seq<Entry>, now: int, dbsAt: seq<seq<Db>>, selAt: seq<nat>, c: Client)
    requires |dbsAt| == |selAt| == |queue| + 1
  {
    exists i :: 0 <= i < |queue| && EntryMeets(queue[i], now, dbsAt[i], selAt[i], c)
  }

  lemma ResetFrame(w: World, id: nat, multi: bool, dirtyExec: bool, queue: seq<Entry>)
    requires id in w.s.clients
    ensures var r := Reset(w, id, multi, dirtyExec, queue);
            && r.s.dbs == w.s.dbs && r.s.clients.Keys == w.s.clients.Keys
            && r.s.clients[id] == Client(w.s.clients[id].sel, [], multi, false, dirtyExec, queue)
            && forall j :: j in w.s.clients && j != id ==> r.s.clients[j] == w.s.clients[j]
  {}

  lemma MeetsFirst(e: Entry, es: seq<Entry>, now: int, dbs: seq<Db>, sel: nat, dbsAt: seq<seq<Db>>, selAt: seq<nat>,
                   c: Client)
    requires |dbsAt| == |selAt| == |es| + 1
    ensures Meets([e] + es, now, [dbs] + dbsAt, [sel] + selAt, c)
            <==> EntryMeets(e, now, dbs, sel, c) || Meets(es, now, dbsAt, selAt, c)
  {
    hide EntryMeets;
    var all, dbsAll, selAll := [e] + es, [dbs] + dbsAt, [sel] + selAt;
    if EntryMeets(e, now, dbs, sel, c) {
      assert EntryMeets(all[0], now, dbsAll[0], selAll[0], c);
    }
    if Meets(es, now, dbsAt, selAt, c) {
      var i :| 0 <= i < |es| && EntryMeets(es[i], now, dbsAt[i], selAt[i], c);
      assert EntryMeets(all[i + 1], now, dbsAll[i + 1], selAll[i + 1], c);
    }
    if Meets(all, now, dbsAll, selAll, c) {
      var i :| 0 <= i < |all| && EntryMeets(all[i], now, dbsAll[i], selAll[i], c);
      if i > 0 {
        assert EntryMeets(es[i - 1], now, dbsAt[i - 1], selAt[i - 1], c);
      }
    }
  }

  lemma AppliedFirst(e: Entry, es: seq<Entry>, now: int, dbs: seq<Db>, sel: nat, dbsAt: seq<seq<Db>>, selAt: seq<nat>)
    requires Applied(es, now, dbsAt, selAt) && EntryApplied(e, now, dbs, sel, dbsAt[0], selAt[0])
    ensures Applied([e] + es, now, [dbs] + dbsAt, [sel] + selAt)
  {
    hide EntryApplied;
  }

  lemma NothingApplied(now: int, dbsAt: seq<seq<Db>>, selAt: seq<nat>)
    requires |dbsAt| == |selAt| == 1
    ensures Applied([], now, dbsAt, selAt) && forall c :: !Meets([], now, dbsAt, selAt, c)
  {}

  lemma MarkIgnored(queue: seq<Entry>, now: int, dbsAt: seq<seq<Db>>, selAt: seq<nat>, c: Client, mark: bool)
    requires |dbsAt| == |selAt| == |queue| + 1
    ensures Meets(queue, now, dbsAt, selAt, c.(dirtyCas := mark)) == Meets(queue, now, dbsAt, selAt, c)
  {
    assert forall i :: 0 <= i < |queue| ==>
        EntryMeets(queue[i], now, dbsAt[i], selAt[i], c.(dirtyCas := mark))
        == EntryMeets(queue[i], now, dbsAt[i], selAt[i], c);
  }

  lemma MarkedInTurn(e: Entry, es: seq<Entry>, now: int, dbs: seq<Db>, sel: nat, dbsAt: seq<seq<Db>>, selAt: seq<nat>,
                     c: Client, c1: Client)
    requires |dbsAt| == |selAt| == |es| + 1
    requires c1 == c.(dirtyCas := c.dirtyCas || EntryMeets(e, now, dbs, sel, c))
    ensures c1.(dirtyCas := c1.dirtyCas || Meets(es, now, dbsAt, selAt, c1))
         == c.(dirtyCas := c.dirtyCas || Meets([e] + es, now, [dbs] + dbsAt, [sel] + selAt, c))
  {
    hide Meets, EntryMeets;
    MeetsFirst(e, es, now, dbs, sel, dbsAt, selAt, c);
    MarkIgnored(es, now, dbsAt, selAt, c, c1.dirtyCas);
  }

  /** What a queue of client `id` has done: the commands have had their effect one after the other, and another
      client is marked exactly if it was, or one of them touches a key that it watches. */
  ghost predicate Ran(w: World, w': World, id: nat, es: seq<Entry>, now: int, dbsAt: seq<seq<Db>>, selAt: seq<nat>) {
    && |dbsAt| == |selAt| == |es| + 1 && Applied(es, now, dbsAt, selAt)
    && id in w.s.clients && dbsAt[0] == w.s.dbs && selAt[0] == w.s.clients[id].sel
    && w'.s.clients.Keys == w.s.clients.Keys
    && w'.s.dbs == dbsAt[|es|] && w'.s.clients[id].sel == selAt[|es|]
    && forall j :: j in w.s.clients && j != id ==>
         w'.s.clients[j]
         == w.s.clients[j].(dirtyCas := w.s.clients[j].dirtyCas || Meets(es, now, dbsAt, selAt, w.s.clients[j]))
  }

  /** What one entry has done. */
  ghost predicate RanOne(w: World, w': World, id: nat, e: Entry, now: int) {
    && id in w.s.clients && w'.s.clients.Keys == w.s.clients.Keys
    && EntryApplied(e, now, w.s.dbs, w.s.clients[id].sel, w'.s.dbs, w'.s.clients[id].sel)
    && forall j :: j in w.s.clients && j != id ==>
         w'.s.clients[j]
         == w.s.clients[j].(dirtyCas := w.s.clients[j].dirtyCas
                                        || EntryMeets(e, now, w.s.dbs, w.s.clients[id].sel, w.s.clients[j]))
  }

  lemma EntryFrame(w: World, id: nat, e: Entry, now: int)
    requires Ok(w) && id in w.s.clients && now >= 0
    ensures w.s.clients[id].sel < |w.s.dbs| && RanOne(w, PerformEntry(w, id, e, now), id, e, now)
  {
    hide Inverse, ClientOk, AllValid, Touches, LookUp, Body, Slips, WatchesAny, Reset;
    Usable(w, id);
    if e.UnwatchLater? {
      var c := w.s.clients[id];
      ResetFrame(w, id, c.multi, c.dirtyExec, c.queue);
    }
  }

  lemma RanFirst(w: World, w1: World, w2: World, id: nat, e: Entry, es: seq<Entry>, now: int,
                 dbsAt: seq<seq<Db>>, selAt: seq<nat>)
    requires RanOne(w, w1, id, e, now) && Ran(w1, w2, id, es, now, dbsAt, selAt)
    ensures Ran(w, w2, id, [e] + es, now, [w.s.dbs] + dbsAt, [w.s.clients[id].sel] + selAt)
  {
    hide EntryApplied, EntryMeets, Applied, Meets;
    var dbs, sel := w.s.dbs, w.s.clients[id].sel;
    AppliedFirst(e, es, now, dbs, sel, dbsAt, selAt);
    forall j | j in w.s.clients && j != id
      ensures w2.s.clients[j]
           == w.s.clients[j].(dirtyCas := w.s.clients[j].dirtyCas
                                          || Meets([e] + es, now, [dbs] + dbsAt, [sel] + selAt, w.s.clients[j]))
    {
      MarkedInTurn(e, es, now, dbs, sel, dbsAt, selAt, w.s.clients[j], w1.s.clients[j]);
    }
  }

  lemma RanNothing(w: World, id: nat, now: int)
    requires id in w.s.clients
    ensures Ran(w, w, id, [], now, [w.s.dbs], [w.s.clients[id].sel])
  {
    NothingApplied(now, [w.s.dbs], [w.s.clients[id].sel]);
  }

  lemma {:induction false} QueueApplied(w: World, id: nat, es: seq<Entry>, now: int)
    returns (dbsAt: seq<seq<Db>>, selAt: seq<nat>)
    requires Ok(w) && id in w.s.clients && now >= 0
    ensures Ran(w, PerformAll(w, id, es, now), id, es, now, dbsAt, selAt)
    decreases |es|
  {
    hide Ok, PerformEntry, Ran, RanOne;
    if es == [] {
      dbsAt, selAt := [w.s.dbs], [w.s.clients[id].sel];
      RanNothing(w, id, now);
    } else {
      EntryOk(w, id, es[0], now);
      EntryFrame(w, id, es[0], now);
      var w1 := PerformEntry(w, id, es[0], now);
      var dbsRest, selRest := QueueApplied(w1, id, es[1..], now);
      RanFirst(w, w1, PerformAll(w1, id, es[1..], now), id, es[0], es[1..], now, dbsRest, selRest);
      assert [es[0]] + es[1..] == es;
      dbsAt, selAt := [w.s.dbs] + dbsRest, [w.s.clients[id].sel] + selRest;
    }
  }

  // What is touched ------------------------------------------------------------------------------

  /** The keys that a command names, or for a flush all that there are. */
  predicate Named(c: Command, sel: nat, p: Place) {
    match c
    case Del(ks) => p.db == sel && p.key in ks
    case Rename(src, dst, _) => p.db == sel && (p.key == src || p.key == dst)
    case FlushDb => p.db == sel
    case FlushAll => true
    case Select(_) => false
    case Multi => false
    case Exec => false
    case _ => p.db == sel && p.key == c.key
  }

  /** A command touches a key only if it names it and counts as a change. */
  lemma OnlyWritesTouch(c: Command, dbs: seq<Db>, sel: nat, now: int, p: Place)
    requires sel < |dbs| && p in Touches(c, dbs, sel, now)
    ensures Named(c, sel, p) && Keyspace.Execute(c, dbs, sel, Clock(now, false)).dirty
    ensures !c.Get? && !c.Persist? && !c.Move?
  {
    hide LookUp;
  }

  // EXEC -----------------------------------------------------------------------------------------

  predicate Touched(c: Client, h: History) {
    exists p :: p in c.watched && p in h.touched
  }

  lemma MarkedIffTouched(w: World, id: nat)
    requires Ok(w) && id in w.s.clients
    ensures id in w.past && (w.s.clients[id].dirtyCas <==> Touched(w.s.clients[id], w.past[id]))
  {
    hide Inverse, AllValid, Lookup;
    assert ClientOk(w.s.clients[id], w.past[id], w.s.dbs);
  }

  /** A transaction that is dropped changes nothing but its client, which has left MULTI. */
  lemma ExecDrops(w: World, id: nat, now: int)
    requires Ok(w) && id in w.s.clients && now >= 0 && w.s.clients[id].multi && id in w.past
    requires w.s.clients[id].dirtyExec || Touched(w.s.clients[id], w.past[id])
    ensures var w', c := Next(w, ExecTransaction(id, now)), w.s.clients[id];
            && w'.s.dbs == w.s.dbs && w'.s.clients.Keys == w.s.clients.Keys
            && w'.s.clients[id] == Client(c.sel, [], false, false, false, [])
            && forall j :: j in w.s.clients && j != id ==> w'.s.clients[j] == w.s.clients[j]
  {
    MarkedIffTouched(w, id);
    hide Ok, Reset, Touched, PerformAll;
    ResetFrame(w, id, false, false, []);
  }

  lemma ExecPerforms(w: World, id: nat, now: int)
    requires Ok(w) && id in w.s.clients && now >= 0 && w.s.clients[id].multi
    requires !w.s.clients[id].dirtyExec && !w.s.clients[id].dirtyCas
    ensures var queue := w.s.clients[id].queue;
            var r := Reset(w, id, true, false, queue);
            && Ok(r) && id in r.s.clients && id in PerformAll(r, id, queue, now).s.clients
            && Next(w, ExecTransaction(id, now)) == Reset(PerformAll(r, id, queue, now), id, false, false, [])
  {
    hide Ok, Reset, PerformAll;
    var queue := w.s.clients[id].queue;
    ResetOk(w, id, true, false, queue);
    PerformAllOk(Reset(w, id, true, false, queue), id, queue, now);
  }

  /** A transaction that is executed applies its commands in order, each to what the one before it left. */
  lemma ExecApplies(w: World, id: nat, now: int) returns (dbsAt: seq<seq<Db>>, selAt: seq<nat>)
    requires Ok(w) && id in w.s.clients && now >= 0 && w.s.clients[id].multi && id in w.past
    requires !w.s.clients[id].dirtyExec && !Touched(w.s.clients[id], w.past[id])
    ensures var w', c := Next(w, ExecTransaction(id, now)), w.s.clients[id];
            && |dbsAt| == |selAt| == |c.queue| + 1
            && Applied(c.queue, now, dbsAt, selAt) && dbsAt[0] == w.s.dbs && selAt[0] == c.sel
            && w'.s.dbs == dbsAt[|c.queue|] && w'.s.clients.Keys == w.s.clients.Keys
            && w'.s.clients[id] == Client(selAt[|c.queue|], [], false, false, false, [])
            && forall j :: j in w.s.clients && j != id ==>
                 w'.s.clients[j]
                 == w.s.clients[j].(dirtyCas := w.s.clients[j].dirtyCas
                                                || Meets(c.queue, now, dbsAt, selAt, w.s.clients[j]))
  {
    MarkedIffTouched(w, id);
    hide Ok, Reset, Touched, PerformAll, Applied, Meets, Next;
    var c := w.s.clients[id];
    ExecPerforms(w, id, now);
    ResetFrame(w, id, true, false, c.queue);
    var r := Reset(w, id, true, false, c.queue);
    dbsAt, selAt := QueueApplied(r, id, c.queue, now);
    ResetFrame(PerformAll(r, id, c.queue, now), id, false, false, []);
  }

  lemma ExecAlone(w: World, id: nat, now: int)
    requires Ok(w) && id in w.s.clients && now >= 0 && !w.s.clients[id].multi
    ensures Next(w, ExecTransaction(id, now)) == w
  {}

  /** In every interleaving: an EXEC inside MULTI applies its queue, every command once and in order, if
      and only if no command was refused while queueing and no key that the client watches was touched
      since it began to watch it. If it does, each of these keys still had the value it had then, unless it
      slipped away by a MOVE or by expiring; if it does not, nothing changes but the client. In both cases
      the client has left MULTI and watches nothing. */
  lemma ExecIffUntouched(worlds: seq<World>, steps: seq<Step>, dbs: seq<Db>, n: nat)
    returns (dbsAt: seq<seq<Db>>, selAt: seq<nat>)
    requires dbs != [] && AllValid(dbs) && Path(worlds, steps, dbs) && n < |steps| && steps[n].ExecTransaction?
    ensures var id, now, w, w' := steps[n].id, steps[n].now, worlds[n], worlds[n + 1];
            id in w.s.clients && id in w.past && w'.s.clients.Keys == w.s.clients.Keys &&
            var c, h := w.s.clients[id], w.past[id];
            if !c.multi then w' == w
            else if c.dirtyExec || exists p :: p in c.watched && p in h.touched then
              && w'.s.dbs == w.s.dbs
              && w'.s.clients[id] == Client(c.sel, [], false, false, false, [])
              && forall j :: j in w.s.clients && j != id ==> w'.s.clients[j] == w.s.clients[j]
            else
              && |dbsAt| == |selAt| == |c.queue| + 1
              && Applied(c.queue, now, dbsAt, selAt) && dbsAt[0] == w.s.dbs && selAt[0] == c.sel
              && w'.s.dbs == dbsAt[|c.queue|]
              && w'.s.clients[id] == Client(selAt[|c.queue|], [], false, false, false, [])
              && (forall j :: j in w.s.clients && j != id ==>
                    w'.s.clients[j]
                    == w.s.clients[j].(dirtyCas := w.s.clients[j].dirtyCas
                                                   || Meets(c.queue, now, dbsAt, selAt, w.s.clients[j])))
              && (forall p :: p in c.watched && p !in h.silent ==>
                    p in h.seen && Lookup(w.s.dbs, p) == h.seen[p])
  {
    hide Next, Inverse, Lookup, Applied, Meets, AllValid;
    AlwaysOk(worlds, steps, dbs, n);
    var w := worlds[n];
    assert Follows(w, steps[n], worlds[n + 1]);
    var id, now := steps[n].id, steps[n].now;
    assert ClientOk(w.s.clients[id], w.past[id], w.s.dbs);
    var c, h := w.s.clients[id], w.past[id];
    dbsAt, selAt := [], [];
    if !c.multi {
      ExecAlone(w, id, now);
    } else if c.dirtyExec || Touched(c, h) {
      ExecDrops(w, id, now);
    } else {
      dbsAt, selAt := ExecApplies(w, id, now);
    }
  }

  // Requests in and out of a transaction -----------------------------------------------------------

  /** From `h` on, the keys in `before` keep their history and every other watched key begins one. */
  ghost predicate Begun(h: History, h': History, before: seq<Place>, after: seq<Place>, dbs: seq<Db>) {
    forall p :: p in after ==>
      if p in before then
        && (p in h'.seen <==> p in h.seen) && (p in h.seen ==> h'.seen[p] == h.seen[p])
        && (p in h'.touched <==> p in h.touched) && (p in h'.silent <==> p in h.silent)
      else p in h'.seen && h'.seen[p] == Lookup(dbs, p) && p !in h'.touched && p !in h'.silent
  }

  predicate Names(ks: seq<bytes>, sel: nat, p: Place) {
    p.db == sel && p.key in ks
  }

  /** The client also watches the keys named, each from now on, in the database that it has selected; nothing
      else changes. */
  ghost predicate NowWatches(w: World, w': World, id: nat, ks: seq<bytes>) {
    && id in w.s.clients && id in w.past && id in w'.past
    && w'.s.dbs == w.s.dbs && w'.s.clients.Keys == w.s.clients.Keys && w'.past.Keys == w.past.Keys
    && w'.s.clients[id] == w.s.clients[id].(watched := w'.s.clients[id].watched)
    && (forall p :: p in w'.s.clients[id].watched <==>
                    p in w.s.clients[id].watched || Names(ks, w.s.clients[id].sel, p))
    && (forall j :: j in w.s.clients && j != id ==>
          w'.s.clients[j] == w.s.clients[j] && j in w.past && w'.past[j] == w.past[j])
    && Begun(w.past[id], w'.past[id], w.s.clients[id].watched, w'.s.clients[id].watched, w.s.dbs)
  }

  lemma WatchOneBegun(w: World, id: nat, k: bytes)
    requires Ok(w) && id in w.s.clients
    ensures w.s.clients[id].sel < |w.s.watchers| && id in w.past
    ensures var w' := WatchOne(w, id, k);
            && id in w'.s.clients && id in w'.past
            && Begun(w.past[id], w'.past[id], w.s.clients[id].watched, w'.s.clients[id].watched, w.s.dbs)
  {
    hide Inverse, ClientOk, AllValid, Lookup;
    Usable(w, id);
  }

  lemma WatchOneFrame(w: World, id: nat, k: bytes)
    requires Ok(w) && id in w.s.clients
    ensures w.s.clients[id].sel < |w.s.watchers| && id in w.past && NowWatches(w, WatchOne(w, id, k), id, [k])
  {
    hide Inverse, ClientOk, AllValid, Lookup, Begun;
    Usable(w, id);
    WatchOneBegun(w, id, k);
  }

  lemma OkKeys(w: World)
    requires Ok(w)
    ensures w.past.Keys == w.s.clients.Keys
  {}

  lemma BegunTwice(h: History, h1: History, h2: History, a: seq<Place>, b: seq<Place>, c: seq<Place>, dbs: seq<Db>)
    requires Begun(h, h1, a, b, dbs) && Begun(h1, h2, b, c, dbs)
    requires forall p :: p in a ==> p in b
    ensures Begun(h, h2, a, c, dbs)
  {
    hide Lookup;
  }

  lemma NowWatchesTwice(w: World, w1: World, w2: World, id: nat, k: bytes, ks: seq<bytes>)
    requires NowWatches(w, w1, id, [k]) && NowWatches(w1, w2, id, ks)
    ensures NowWatches(w, w2, id, [k] + ks)
  {
    hide Begun;
    BegunTwice(w.past[id], w1.past[id], w2.past[id], w.s.clients[id].watched, w1.s.clients[id].watched,
        w2.s.clients[id].watched, w.s.dbs);
  }

  lemma WatchesNone(w: World, id: nat)
    requires Ok(w) && id in w.s.clients
    ensures NowWatches(w, w, id, [])
  {
    hide Inverse, ClientOk, AllValid, Lookup;
  }

  lemma SameFlags(w: World, w': World, id: nat, ks: seq<bytes>)
    requires NowWatches(w, w', id, ks)
    ensures id in w'.s.clients && w'.s.clients[id].multi == w.s.clients[id].multi
    ensures w'.s.clients.Keys == w.s.clients.Keys
  {}

  /** WATCH outside MULTI. */
  lemma {:induction false} WatchLaw(w: World, id: nat, ks: seq<bytes>)
    requires Ok(w) && id in w.s.clients && !w.s.clients[id].multi
    ensures NowWatches(w, Next(w, WatchKeys(id, ks)), id, ks)
    decreases |ks|
  {
    hide Ok, WatchOne, NowWatches;
    if ks == [] {
      WatchesNone(w, id);
    } else {
      WatchOneOk(w, id, ks[0]);
      WatchOneFrame(w, id, ks[0]);
      var w1 := WatchOne(w, id, ks[0]);
      SameFlags(w, w1, id, [ks[0]]);
      WatchLaw(w1, id, ks[1..]);
      NowWatchesTwice(w, w1, Next(w1, WatchKeys(id, ks[1..])), id, ks[0], ks[1..]);
      assert ks == [ks[0]] + ks[1..];
    }
  }

  lemma ClientStays(w: World, step: Step)
    requires Ok(w) && Enabled(w, step) && !step.Leave?
    ensures w.s.clients.Keys <= Next(w, step).s.clients.Keys
  {
    hide Ok, Reset;
    match step
    case Join(_) =>
    case WatchKeys(id, ks) =>
      if !w.s.clients[id].multi {
        WatchLaw(w, id, ks);
        SameFlags(w, Next(w, step), id, ks);
      }
    case RunCommand(id, c, now) =>
      Usable(w, id);
      PerformFrame(w, id, c, now);
    case ExecTransaction(id, now) =>
      MarkedIffTouched(w, id);
      if !w.s.clients[id].multi {
        ExecAlone(w, id, now);
      } else if w.s.clients[id].dirtyExec || Touched(w.s.clients[id], w.past[id]) {
        ExecDrops(w, id, now);
      } else {
        var dbsAt, selAt := ExecApplies(w, id, now);
      }
    case Unwatch(id) => ResetFrame(w, id, w.s.clients[id].multi, w.s.clients[id].dirtyExec, w.s.clients[id].queue);
    case Discard(id) => ResetFrame(w, id, false, false, []);
    case _ =>
  }

  /** Requests of one client, one after the other, with nobody in between. */
  ghost function Ask(w: World, id: nat, rs: seq<Request>, now: int): (w': World)
    requires Ok(w) && id in w.s.clients && now >= 0
    ensures Ok(w') && id in w'.s.clients
    decreases |rs|
  {
    if rs == [] then w
    else
      var step := StepOf(id, w.s.clients[id], rs[0], now);
      StepOk(w, step);
      ClientStays(w, step);
      Ask(Next(w, step), id, rs[1..], now)
  }

  predicate Queueable(rs: seq<Request>) {
    forall r :: r in rs ==> r.Running? || r.Unwatching?
  }

  function EntryOf(r: Request): Entry {
    if r.Running? then Data(r.cmd) else UnwatchLater
  }

  function Entries(rs: seq<Request>): seq<Entry> {
    seq(|rs|, i requires 0 <= i < |rs| => EntryOf(rs[i]))
  }

  lemma AskFirst(w: World, id: nat, r: Request, rs: seq<Request>, now: int)
    requires Ok(w) && id in w.s.clients && now >= 0
    ensures var step := StepOf(id, w.s.clients[id], r, now);
            && Enabled(w, step) && Ok(Next(w, step)) && id in Next(w, step).s.clients
            && Ask(w, id, [r] + rs, now) == Ask(Next(w, step), id, rs, now)
  {
    hide Ok, Next;
    StepOk(w, StepOf(id, w.s.clients[id], r, now));
    ClientStays(w, StepOf(id, w.s.clients[id], r, now));
    assert ([r] + rs)[1..] == rs;
  }

  lemma AskOne(w: World, id: nat, r: Request, now: int)
    requires Ok(w) && id in w.s.clients && now >= 0
    ensures var step := StepOf(id, w.s.clients[id], r, now);
            Enabled(w, step) && Ask(w, id, [r], now) == Next(w, step)
  {
    hide Ok, Next;
    var none: seq<Request> := [];
    AskFirst(w, id, r, none, now);
    assert [r] + none == [r];
  }

  lemma {:induction false} AskConcat(w: World, id: nat, a: seq<Request>, b: seq<Request>, now: int)
    requires Ok(w) && id in w.s.clients && now >= 0
    ensures Ask(w, id, a + b, now) == Ask(Ask(w, id, a, now), id, b, now)
    decreases |a|
  {
    hide Ok, Next, StepOf;
    if a == [] {
      assert a + b == b;
    } else {
      AskFirst(w, id, a[0], a[1..] + b, now);
      AskFirst(w, id, a[0], a[1..], now);
      assert [a[0]] + a[1..] == a && [a[0]] + (a[1..] + b) == a + b;
      AskConcat(Next(w, StepOf(id, w.s.clients[id], a[0], now)), id, a[1..], b, now);
    }
  }

  /** Inside MULTI a command only joins the queue. */
  lemma QueuedInside(w: World, id: nat, r: Request, now: int)
    requires Ok(w) && id in w.s.clients && w.s.clients[id].multi && now >= 0 && (r.Running? || r.Unwatching?)
    ensures var c := w.s.clients[id];
            Enabled(w, StepOf(id, c, r, now)) &&
            Next(w, StepOf(id, c, r, now))
            == w.(s := w.s.(clients := w.s.clients[id := c.(queue := c.queue + [EntryOf(r)])]))
  {}

  lemma {:induction false} AllQueued(w: World, id: nat, rs: seq<Request>, now: int)
    requires Ok(w) && id in w.s.clients && w.s.clients[id].multi && now >= 0 && Queueable(rs)
    ensures var c := w.s.clients[id];
            Ask(w, id, rs, now) == w.(s := w.s.(clients := w.s.clients[id := c.(queue := c.queue + Entries(rs))]))
    decreases |rs|
  {
    hide Ok, Next;
    var c := w.s.clients[id];
    if rs == [] {
      assert c.queue + Entries(rs) == c.queue && w.s.clients[id := c] == w.s.clients;
    } else {
      var step := StepOf(id, c, rs[0], now);
      StepOk(w, step);
      QueuedInside(w, id, rs[0], now);
      var w1 := Next(w, step);
      AllQueued(w1, id, rs[1..], now);
      assert c.queue + [EntryOf(rs[0])] + Entries(rs[1..]) == c.queue + Entries(rs);
    }
  }

  /** A client outside MULTI with nothing left over from an earlier transaction. */
  predicate Fresh(c: Client) {
    !c.multi && !c.dirtyExec && c.queue == []
  }

  ghost predicate Outside(w: World, w': World, id: nat)
    requires id in w.s.clients
  {
    && w'.s.clients.Keys == w.s.clients.Keys
    && w'.s.clients[id] == Client(w'.s.clients[id].sel, [], false, false, false, [])
  }

  lemma Begins(w: World, id: nat, rs: seq<Request>, last: Request, now: int) returns (w1: World)
    requires Ok(w) && id in w.s.clients && now >= 0 && Fresh(w.s.clients[id]) && Queueable(rs)
    ensures Ok(w1) && w1.past == w.past && w1.s.dbs == w.s.dbs && id in w.past
    ensures w1.s.clients == w.s.clients[id := w.s.clients[id].(multi := true, queue := Entries(rs))]
    ensures Ask(w, id, [Beginning] + rs + [last], now) == Ask(w1, id, [last], now)
  {
    hide Ok;
    OkKeys(w);
    var step := StepOf(id, w.s.clients[id], Beginning, now);
    StepOk(w, step);
    var wb := Next(w, step);
    AllQueued(wb, id, rs, now);
    AskConcat(wb, id, rs, [last], now);
    w1 := Ask(wb, id, rs, now);
    AskFirst(w, id, Beginning, rs + [last], now);
    assert [Beginning] + rs + [last] == [Beginning] + (rs + [last]);
    assert [] + Entries(rs) == Entries(rs);
  }

  /** MULTI, requests, EXEC, and no key touched that the client watches: the requests take effect in order,
      when EXEC is called and not before. */
  lemma TransactionLaw(w: World, id: nat, rs: seq<Request>, now: int)
    returns (dbsAt: seq<seq<Db>>, selAt: seq<nat>)
    requires Ok(w) && id in w.s.clients && now >= 0 && Fresh(w.s.clients[id]) && Queueable(rs)
    requires id in w.past && !Touched(w.s.clients[id], w.past[id])
    ensures var w' := Ask(w, id, [Beginning] + rs + [Executing], now);
            && |dbsAt| == |selAt| == |rs| + 1
            && Applied(Entries(rs), now, dbsAt, selAt) && dbsAt[0] == w.s.dbs && selAt[0] == w.s.clients[id].sel
            && w'.s.dbs == dbsAt[|rs|] && Outside(w, w', id) && w'.s.clients[id].sel == selAt[|rs|]
  {
    hide Ok, Next, Applied;
    var w1 := Begins(w, id, rs, Executing, now);
    dbsAt, selAt := ExecApplies(w1, id, now);
    AskOne(w1, id, Executing, now);
  }

  /** MULTI, requests, DISCARD: nothing has happened. */
  lemma DiscardLaw(w: World, id: nat, rs: seq<Request>, now: int)
    requires Ok(w) && id in w.s.clients && now >= 0 && Fresh(w.s.clients[id]) && Queueable(rs)
    ensures var w' := Ask(w, id, [Beginning] + rs + [Discarding], now);
            && w'.s.dbs == w.s.dbs && Outside(w, w', id)
            && forall j :: j in w.s.clients && j != id ==> w'.s.clients[j] == w.s.clients[j]
  {
    hide Ok;
    var w1 := Begins(w, id, rs, Discarding, now);
    AskOne(w1, id, Discarding, now);
    ResetFrame(w1, id, false, false, []);
  }

  lemma RefusedInside(w: World, id: nat, now: int) returns (w1: World)
    requires Ok(w) && id in w.s.clients && now >= 0 && w.s.clients[id].multi
    ensures Enabled(w, StepOf(id, w.s.clients[id], Refused, now))
    ensures w1 == Next(w, StepOf(id, w.s.clients[id], Refused, now)) && Ok(w1)
    ensures w1 == w.(s := w.s.(clients := w.s.clients[id := w.s.clients[id].(dirtyExec := true)]))
  {
    hide Ok;
    StepOk(w, QueueError(id));
    w1 := Next(w, QueueError(id));
  }

  /** A request that is refused inside MULTI spoils the transaction: EXEC then changes nothing. */
  lemma ErrorAborts(w: World, id: nat, rs: seq<Request>, now: int)
    requires Ok(w) && id in w.s.clients && now >= 0 && w.s.clients[id].multi && Queueable(rs)
    ensures var w' := Ask(w, id, [Refused] + rs + [Executing], now);
            && w'.s.dbs == w.s.dbs && Outside(w, w', id)
            && forall j :: j in w.s.clients && j != id ==> w'.s.clients[j] == w.s.clients[j]
  {
    hide Ok, Next;
    var w1 := RefusedInside(w, id, now);
    AllQueued(w1, id, rs, now);
    AskConcat(w1, id, rs, [Executing], now);
    AskFirst(w, id, Refused, rs + [Executing], now);
    assert [Refused] + rs + [Executing] == [Refused] + (rs + [Executing]);
    var w2 := Ask(w1, id, rs, now);
    OkKeys(w2);
    ExecDrops(w2, id, now);
    AskOne(w2, id, Executing, now);
  }

  /** A command outside MULTI takes effect at once, and marks exactly the clients that watch a key it
      touches. */
  lemma RunLaw(w: World, id: nat, c: Command, now: int)
    requires Ok(w) && id in w.s.clients && now >= 0 && !w.s.clients[id].multi
    ensures w.s.clients[id].sel < |w.s.dbs|
    ensures var sel := w.s.clients[id].sel;
            var w' := Next(w, StepOf(id, w.s.clients[id], Running(c), now));
            && w'.s.dbs == Keyspace.Execute(c, w.s.dbs, sel, Clock(now, false)).data
            && w'.s.clients.Keys == w.s.clients.Keys && w'.s.clients[id].sel == Selected(c, sel, |w.s.dbs|)
            && forall j :: j in w.s.clients && j != id ==>
                 w'.s.clients[j]
                 == w.s.clients[j].(dirtyCas := w.s.clients[j].dirtyCas
                                                || WatchesAny(w.s.clients[j], Touches(c, w.s.dbs, sel, now)))
  {
    hide Ok, Perform, Touches, WatchesAny, Keyspace.Execute;
    EntryFrame(w, id, Data(c), now);
  }

  /** What changes nothing: WATCH and MULTI inside MULTI; EXEC, DISCARD and a refused request outside. */
  lemma IdleRequests(w: World, id: nat, r: Request, now: int)
    requires Ok(w) && id in w.s.clients && now >= 0
    requires if w.s.clients[id].multi then r.Watching? || r.Beginning?
             else r.Executing? || r.Discarding? || r.Refused?
    ensures Enabled(w, StepOf(id, w.s.clients[id], r, now)) && Next(w, StepOf(id, w.s.clients[id], r, now)) == w
  {
    hide Ok;
    assert w.s.clients[id := w.s.clients[id]] == w.s.clients;
  }

  /** UNWATCH outside MULTI: the client watches nothing and is not marked; nothing else changes. */
  lemma UnwatchLaw(w: World, id: nat, now: int)
    requires Ok(w) && id in w.s.clients && now >= 0 && !w.s.clients[id].multi
    ensures var c := w.s.clients[id]; var w' := Next(w, StepOf(id, c, Unwatching, now));
            && w'.s.dbs == w.s.dbs && w'.s.clients == w.s.clients[id := c.(watched := [], dirtyCas := false)]
  {
    hide Ok;
    var c := w.s.clients[id];
    ResetFrame(w, id, c.multi, c.dirtyExec, c.queue);
  }
}
