/**
 The server object: command procedures that look keys up, change the keyspace and count changes, the
 propagation of what they did to the log, and the handlers around a background rewrite. Every method
 is proved to make exactly the corresponding transition of `AofMachine`.
 */
module AofServer {
  import opened Bytes
  import opened Wrappers
  import opened Keyspace
  import opened AofReplay
  import opened AofRun
  import opened AofRewrite
  import M = AofMachine

  class Client {
    var db: nat
    var cmd: Command

    constructor (db: nat, cmd: Command)
      ensures this.db == db && this.cmd == cmd
    {
      this.db, this.cmd := db, cmd;
    }
  }

  class Server {
    var dbs: seq<Db>
    var dirty: nat
    var mode: M.Mode
    var file: seq<Command>
    var buf: seq<Command>
    var selected: int
    var child: Option<seq<Command>>
    var rewriteBuf: seq<Command>
    ghost var fileCut: int
    ghost var childCut: int

    ghost function View(): M.State
      reads this
    {
      M.State(dbs, mode, file, buf, selected, child, rewriteBuf, fileCut, childCut)
    }

    constructor (n: nat)
      ensures View() == M.Init(n)
    {
      dbs, dirty, mode, file, buf, selected := seq(n, _ => EMPTY_DB), 0, M.On, [], [], -1;
      child, rewriteBuf, fileCut, childCut := None, [], 0, 0;
    }

    // Feeding the log ----------------------------------------------------------------------------

    /** catAppendOnlyExpireAtCommand: any expiry time as an absolute PEXPIREAT. */
    static function ExpireAt(k: bytes, arg: int, unit: Unit, relative: bool, now: int): Command {
      var ms := if unit == Seconds then arg * 1000 else arg;
      var when := if relative then ms + now else ms;
      Expire(k, when, Milliseconds, false)
    }

    /** The commands to append: a SELECT if the database changes, and the translated command. */
    method FormatForLog(c: Command, dictid: nat, now: int) returns (out: seq<Command>)
      ensures out == Feed(c, dictid, selected, now)
    {
      out := [];
      if dictid != selected {
        out := [Select(dictid)];
      }
      if c.Expire? && !(c.unit == Milliseconds && !c.relative) {
        out := out + [ExpireAt(c.key, c.arg, c.unit, c.relative, now)];
      } else if c.SetEx? {
        out := out + [SetCmd(c.key, c.val)];
        out := out + [ExpireAt(c.key, c.ttl, c.unit, true, now)];
      } else {
        out := out + [c];
      }
    }

    method FeedAppendOnlyFile(c: Command, dictid: nat, now: int)
      requires mode != M.Off
      modifies this`buf, this`rewriteBuf, this`selected
      ensures View() == M.Fed(old(View()), Run(dbs, dictid, Fed(Feed(c, dictid, old(selected), now), dictid)))
    {
      hide Feed;
      var out := FormatForLog(c, dictid, now);
      selected := dictid;
      if mode == M.On {
        buf := buf + out;
      }
      if child.Some? {
        rewriteBuf := rewriteBuf + out;
      }
    }

    method PropagateExpire(id: nat, k: bytes, now: int)
      modifies this`buf, this`rewriteBuf, this`selected
      ensures View() == M.Fed(old(View()), Run(dbs, id, FeedExpiries([Expiry(id, k)], old(selected), now)))
    {
      assert [Expiry(id, k)][1..] == [];
      if mode != M.Off {
        FeedAppendOnlyFile(Del([k]), id, now);
      }
    }

    // Keyspace access ----------------------------------------------------------------------------

    static lemma NothingFed(s: M.State)
      ensures forall sel :: M.Fed(s, Run(s.dbs, sel, Fed([], s.selected))) == s
      ensures forall selected, now :: FeedExpiries([], selected, now) == Fed([], selected)
    {
      assert s.buf + [] == s.buf && s.rewriteBuf + [] == s.rewriteBuf;
      assert forall selected, now :: FeedExpiries([], selected, now) == Fed([], selected);
    }

    /** Deletes the key when its time has passed, and says so to the log. */
    method ExpireKeyIfNeeded(id: nat, k: bytes, now: int) returns (deleted: bool)
      requires id < |dbs|
      modifies this`dbs, this`buf, this`rewriteBuf, this`selected
      ensures var r := ExpireIfNeeded(old(dbs), id, k, Clock(now, false));
              View() == M.Fed(old(View()), Run(r.0, id, FeedExpiries(r.1, old(selected), now)))
      ensures deleted == IsExpired(old(dbs)[id], k, Clock(now, false))
    {
      var when := GetExpire(dbs[id], k);
      if when < 0 {
        NothingFed(View());
        return false;
      }
      if now <= when {
        NothingFed(View());
        return false;
      }
      PropagateExpire(id, k, now);
      dbs := dbs[id := DbDelete(dbs[id], k)];
      return true;
    }

    /** Everything but the keyspace and the change counter. */
    ghost function Rest(): M.State
      reads this
    {
      View().(dbs := [])
    }

    /** lookupKeyWrite: the value of a key that has not expired. */
    method LookupKeyWrite(id: nat, k: bytes, now: int) returns (val: Option<Value>)
      requires id < |dbs|
      modifies this`dbs, this`buf, this`rewriteBuf, this`selected
      ensures var r := ExpireIfNeeded(old(dbs), id, k, Clock(now, false));
              View() == M.Fed(old(View()), Run(r.0, id, FeedExpiries(r.1, old(selected), now)))
      ensures val == if k in dbs[id].dict then Some(dbs[id].dict[k]) else None
      ensures |dbs| == old(|dbs|)
    {
      var deleted := ExpireKeyIfNeeded(id, k, now);
      val := if k in dbs[id].dict then Some(dbs[id].dict[k]) else None;
    }

    method DeleteKey(id: nat, k: bytes) returns (deleted: bool)
      requires id < |dbs|
      modifies this`dbs
      ensures dbs == old(dbs)[id := DbDelete(old(dbs)[id], k)] && deleted == (k in old(dbs)[id].dict)
    {
      deleted := k in dbs[id].dict;
      dbs := dbs[id := DbDelete(dbs[id], k)];
    }

    /** setKey, after the lookup: replaces the value and makes the key persistent. */
    method StoreKey(id: nat, k: bytes, v: Value)
      requires id < |dbs|
      modifies this`dbs
      ensures dbs == old(dbs)[id := SetKey(old(dbs)[id], k, v)]
      ensures dbs[id].dict == old(dbs)[id].dict[k := v] && dbs[id].expires == old(dbs)[id].expires - {k}
    {
      var db := dbs[id];
      db := db.(dict := db.dict[k := v]);
      db := db.(expires := db.expires - {k});
      dbs := dbs[id := db];
    }

    // Command procedures -------------------------------------------------------------------------

    /** What a command procedure has to do: the lookups of `cmd`, then its body; the client holds the
        command vector as the procedure left it, and the counter has grown iff something changed. */
    twostate predicate Performed(c: Client, cmd: Command, now: int)
      reads this, c
    {
      var clock := Clock(now, false);
      old(c.db) < |old(dbs)| &&
      (var looked := LookUp(cmd, old(dbs), old(c.db), clock);
       var e := Body(cmd, looked.0, old(c.db), clock);
       && View() == M.Fed(old(View()), Run(e.data, old(c.db), FeedExpiries(looked.1, old(selected), now)))
       && c.cmd == e.sent
       && old(dirty) <= dirty && (old(dirty) < dirty <==> e.dirty)
       && c.db == Selected(cmd, old(c.db), |old(dbs)|))
    }

    /** What SET, SETNX, SETEX and PSETEX look up, and what they do then. */
    static lemma SetEffect(c: Command, dbs: seq<Db>, sel: nat, now: int, key: bytes)
      requires sel < |dbs| && (c.SetCmd? || c.SetNx? || c.SetEx?) && key == c.key
      ensures var clock := Clock(now, false);
              var looked := LookUp(c, dbs, sel, clock);
              var e, db := Body(c, looked.0, sel, clock), looked.0[sel];
              && Selected(c, sel, |dbs|) == sel && e.sent == c
              && looked == (if c.SetEx? && c.ttl <= 0 then (dbs, []) else ExpireIfNeeded(dbs, sel, key, clock))
              && e.dirty == !((c.SetEx? && c.ttl <= 0) || (c.SetNx? && key in db.dict))
              && e.data == if !e.dirty then looked.0
                           else if c.SetEx? then
                             looked.0[sel := SetExpire(SetKey(db, key, Str(c.val)), key, now + InMs(c.ttl, c.unit))]
                           else looked.0[sel := SetKey(db, key, Str(c.val))]
    {}

    /** setKey, and setExpire if there is a time. */
    method StoreUntil(id: nat, k: bytes, v: Value, until: Option<int>)
      requires id < |dbs|
      modifies this`dbs
      ensures var db := SetKey(old(dbs)[id], k, v);
              dbs == old(dbs)[id := if until.Some? then SetExpire(db, k, until.value) else db]
    {
      StoreKey(id, k, v);
      if until.Some? {
        dbs := dbs[id := SetExpire(dbs[id], k, until.value)];
      }
    }

    /** SET, SETNX, SETEX and PSETEX. */
    method SetGenericCommand(c: Client, nx: bool, key: bytes, val: bytes, expire: Option<int>, unit: Unit, now: int)
      requires c.db < |dbs|
      requires c.cmd == if expire.Some? then SetEx(key, expire.value, unit, val)
                        else if nx then SetNx(key, val) else SetCmd(key, val)
      requires expire.Some? ==> !nx
      modifies this
      ensures Performed(c, old(c.cmd), now)
    {
      hide Feed, FeedExpiries, LookUp, Body, ExpireIfNeeded, SetKey, SetExpire, Selected;
      SetEffect(c.cmd, dbs, c.db, now, key);
      NothingFed(View());
      var milliseconds := 0;
      if expire.Some? {
        milliseconds := expire.value;
        if milliseconds <= 0 {
          return;
        }
        if unit == Seconds {
          milliseconds := milliseconds * 1000;
        }
      }
      var was := LookupKeyWrite(c.db, key, now);
      if nx && was.Some? {
        return;
      }
      StoreUntil(c.db, key, Str(val), if expire.Some? then Some(now + milliseconds) else None);
      dirty := dirty + 1;
    }

    static lemma ExpireEffect(c: Command, dbs: seq<Db>, sel: nat, now: int)
      requires sel < |dbs| && c.Expire?
      ensures var clock := Clock(now, false);
              var when := InMs(c.arg, c.unit) + if c.relative then now else 0;
              && Selected(c, sel, |dbs|) == sel && LookUp(c, dbs, sel, clock) == (dbs, [])
              && var e := Body(c, dbs, sel, clock);
                 && e.dirty == (c.key in dbs[sel].dict)
                 && e.sent == (if e.dirty && when <= now then Del([c.key]) else c)
                 && e.data == if !e.dirty then dbs
                              else if when <= now then dbs[sel := DbDelete(dbs[sel], c.key)]
                              else dbs[sel := SetExpire(dbs[sel], c.key, when)]
    {
      hide DbDelete, SetExpire;
    }

    /** EXPIRE, PEXPIRE, EXPIREAT and PEXPIREAT; a time that has passed deletes the key, and the command
        goes to the log as a DEL. */
    method ExpireGenericCommand(c: Client, key: bytes, arg: int, unit: Unit, relative: bool, now: int)
      requires c.db < |dbs| && c.cmd == Expire(key, arg, unit, relative)
      modifies this, c`cmd
      ensures Performed(c, old(c.cmd), now)
    {
      hide Feed, FeedExpiries, LookUp, Body, Selected, DbDelete, SetExpire;
      ExpireEffect(c.cmd, dbs, c.db, now);
      NothingFed(View());
      var when := arg;
      if unit == Seconds {
        when := when * 1000;
      }
      when := when + if relative then now else 0;
      if key !in dbs[c.db].dict {
        return;
      }
      if when <= now {
        var deleted := DeleteKey(c.db, key);
        dirty := dirty + 1;
        c.cmd := Del([key]);
      } else {
        dbs := dbs[c.db := SetExpire(dbs[c.db], key, when)];
        dirty := dirty + 1;
      }
    }

    method PersistCommand(c: Client, key: bytes, now: int)
      requires c.db < |dbs| && c.cmd == Persist(key)
      modifies this
      ensures Performed(c, old(c.cmd), now)
    {
      hide Feed, FeedExpiries;
      NothingFed(View());
      if key in dbs[c.db].dict && key in dbs[c.db].expires {
        dbs := dbs[c.db := dbs[c.db].(expires := dbs[c.db].expires - {key})];
        dirty := dirty + 1;
      }
    }

    static lemma DelEffect(c: Command, dbs: seq<Db>, sel: nat, now: int)
      requires sel < |dbs| && c.Del?
      ensures var clock := Clock(now, false);
              && Selected(c, sel, |dbs|) == sel && LookUp(c, dbs, sel, clock) == (dbs, [])
              && var e := Body(c, dbs, sel, clock);
                 && e.sent == c && e.data == dbs[sel := DeleteAll(dbs[sel], c.keys)]
                 && e.dirty == exists k :: k in c.keys && k in dbs[sel].dict
    {
      hide DeleteAll;
    }

    /** After the first `j` of some keys, of which one was there if `any`. */
    static ghost predicate Deleting(db0: Db, db: Db, ks: seq<bytes>, j: nat, any: bool) {
      && j <= |ks| && DeleteAll(db0, ks) == DeleteAll(db, ks[j..])
      && db.dict.Keys == db0.dict.Keys - (set i | 0 <= i < j :: ks[i])
      && (any <==> exists i :: 0 <= i < j && ks[i] in db0.dict)
    }

    static lemma DeletingNone(db0: Db, ks: seq<bytes>)
      ensures Deleting(db0, db0, ks, 0, false)
    {
      assert ks[0..] == ks;
    }

    static lemma DeletingStep(db0: Db, db: Db, ks: seq<bytes>, j: nat, any: bool)
      requires Deleting(db0, db, ks, j, any) && j < |ks|
      ensures Deleting(db0, DbDelete(db, ks[j]), ks, j + 1, any || ks[j] in db.dict)
    {
      assert ks[j..][1..] == ks[j + 1..];
    }

    static lemma DeletingDone(db0: Db, db: Db, ks: seq<bytes>, any: bool)
      requires Deleting(db0, db, ks, |ks|, any)
      ensures db == DeleteAll(db0, ks) && (any <==> exists k :: k in ks && k in db0.dict)
    {}

    method DelCommand(c: Client, keys: seq<bytes>, now: int)
      requires c.db < |dbs| && c.cmd == Del(keys)
      modifies this
      ensures Performed(c, old(c.cmd), now)
    {
      hide Feed, FeedExpiries, LookUp, Body, Selected, DeleteAll, DbDelete, Deleting;
      DelEffect(c.cmd, dbs, c.db, now);
      NothingFed(View());
      ghost var db0 := dbs[c.db];
      DeletingNone(db0, keys);
      var j := 0;
      while j < |keys|
        invariant j <= |keys| && |dbs| == |old(dbs)| && dbs == old(dbs)[c.db := dbs[c.db]]
        invariant old(dirty) <= dirty && Deleting(db0, dbs[c.db], keys, j, old(dirty) < dirty)
        invariant Rest() == old(Rest())
      {
        DeletingStep(db0, dbs[c.db], keys, j, old(dirty) < dirty);
        var deleted := DeleteKey(c.db, keys[j]);
        if deleted {
          dirty := dirty + 1;
        }
        j := j + 1;
      }
      DeletingDone(db0, dbs[c.db], keys, old(dirty) < dirty);
    }

    /** Replaces the target by the source, value and expiry. */
    method RenameKey(id: nat, src: bytes, dst: bytes, o: Value, expire: int)
      requires id < |dbs| && src != dst && src in dbs[id].dict && dbs[id].dict[src] == o
      requires expire == GetExpire(dbs[id], src)
      modifies this`dbs
      ensures dbs == old(dbs)[id := RenameIn(old(dbs)[id], src, dst)]
    {
      if dst in dbs[id].dict {
        var deleted := DeleteKey(id, dst);
      }
      dbs := dbs[id := dbs[id].(dict := dbs[id].dict[dst := o])];
      if expire != -1 {
        dbs := dbs[id := SetExpire(dbs[id], dst, expire)];
      }
      var gone := DeleteKey(id, src);
    }

    /** A second lookup after one that found its key: at most one of the two expired anything. */
    static lemma OneExpiry(s0: M.State, s1: M.State, s2: M.State, id1: nat, k1: bytes, id2: nat, k2: bytes, now: int)
      requires id1 < |s0.dbs| && id2 < |s0.dbs|
      requires var r := ExpireIfNeeded(s0.dbs, id1, k1, Clock(now, false));
               s1 == M.Fed(s0, Run(r.0, id1, FeedExpiries(r.1, s0.selected, now)))
      requires k1 in s1.dbs[id1].dict
      requires var r := ExpireIfNeeded(s1.dbs, id2, k2, Clock(now, false));
               s2 == M.Fed(s1, Run(r.0, id2, FeedExpiries(r.1, s1.selected, now)))
      ensures s1 == s0
    {
      NothingFed(s0);
    }

    /** Two look-ups in turn, the second only if the first finds its key. */
    static ghost function TwoLooks(dbs: seq<Db>, id1: nat, k1: bytes, id2: nat, k2: bytes, clock: Clock)
      : (seq<Db>, seq<Expiry>)
      requires id1 < |dbs| && id2 < |dbs|
    {
      var first := ExpireIfNeeded(dbs, id1, k1, clock);
      if k1 !in first.0[id1].dict then first
      else
        var second := ExpireIfNeeded(first.0, id2, k2, clock);
        Then(first.1, second)
    }

    static lemma RenameEffect(c: Command, dbs: seq<Db>, sel: nat, now: int)
      requires sel < |dbs| && c.Rename?
      ensures var clock := Clock(now, false);
              && Selected(c, sel, |dbs|) == sel
              && var looked := LookUp(c, dbs, sel, clock);
                 var e := Body(c, looked.0, sel, clock);
                 && e.sent == c
                 && looked == (if c.src == c.dst then (dbs, []) else TwoLooks(dbs, sel, c.src, sel, c.dst, clock))
                 && e.dirty == (c.src != c.dst && c.src in looked.0[sel].dict
                                && !(c.dst in looked.0[sel].dict && c.nx))
                 && e.data == if e.dirty then looked.0[sel := RenameIn(looked.0[sel], c.src, c.dst)] else looked.0
    {
      hide RenameIn, ExpireIfNeeded;
    }

    method RenameGenericCommand(c: Client, src: bytes, dst: bytes, nx: bool, now: int)
      requires c.db < |dbs| && c.cmd == Rename(src, dst, nx)
      modifies this
      ensures Performed(c, old(c.cmd), now)
    {
      hide Feed, FeedExpiries, LookUp, Body, Selected, RenameIn;
      RenameEffect(c.cmd, dbs, c.db, now);
      NothingFed(View());
      if src == dst {
        return;
      }
      ghost var s0 := View();
      var o := LookupKeyWrite(c.db, src, now);
      if o.None? {
        return;
      }
      var expire := GetExpire(dbs[c.db], src);
      ghost var s1 := View();
      var target := LookupKeyWrite(c.db, dst, now);
      OneExpiry(s0, s1, View(), c.db, src, c.db, dst, now);
      if target.Some? {
        if nx {
          return;
        }
      }
      RenameKey(c.db, src, dst, o.value, expire);
      dirty := dirty + 1;
    }

    static lemma MoveEffect(c: Command, dbs: seq<Db>, sel: nat, now: int)
      requires sel < |dbs| && c.Move?
      ensures var clock := Clock(now, false);
              && Selected(c, sel, |dbs|) == sel
              && var looked := LookUp(c, dbs, sel, clock);
                 var e := Body(c, looked.0, sel, clock);
                 && e.sent == c
                 && looked == (if !(0 <= c.db < |dbs|) || c.db == sel then (dbs, [])
                               else TwoLooks(dbs, sel, c.key, c.db, c.key, clock))
                 && e.dirty == (0 <= c.db < |dbs| && c.db != sel && c.key in looked.0[sel].dict
                                && c.key !in looked.0[c.db].dict)
                 && e.data == if e.dirty then MoveTo(looked.0, sel, c.key, c.db) else looked.0
    {
      hide MoveTo, ExpireIfNeeded;
    }

    /** Takes the value over to the other database, where the key was absent. */
    method MoveKey(id: nat, k: bytes, dst: nat, o: Value)
      requires id < |dbs| && dst < |dbs| && dst != id && k in dbs[id].dict && dbs[id].dict[k] == o
      modifies this`dbs
      ensures dbs == MoveTo(old(dbs), id, k, dst)
    {
      dbs := dbs[dst := dbs[dst].(dict := dbs[dst].dict[k := o])];
      var gone := DeleteKey(id, k);
    }

    method MoveCommand(c: Client, key: bytes, dst: int, now: int)
      requires c.db < |dbs| && c.cmd == Move(key, dst)
      modifies this
      ensures Performed(c, old(c.cmd), now)
    {
      hide Feed, FeedExpiries, LookUp, Body, Selected, MoveTo;
      MoveEffect(c.cmd, dbs, c.db, now);
      NothingFed(View());
      if !(0 <= dst < |dbs|) || dst == c.db {
        return;
      }
      ghost var s0 := View();
      var o := LookupKeyWrite(c.db, key, now);
      if o.None? {
        return;
      }
      ghost var s1 := View();
      var target := LookupKeyWrite(dst, key, now);
      OneExpiry(s0, s1, View(), c.db, key, dst, key, now);
      if target.Some? {
        return;
      }
      MoveKey(c.db, key, dst, o.value);
      dirty := dirty + 1;
    }

    static lemma RpushEffect(c: Command, dbs: seq<Db>, sel: nat, now: int)
      requires sel < |dbs| && c.RPush? && c.items != []
      ensures var clock := Clock(now, false);
              var looked := ExpireIfNeeded(dbs, sel, c.key, clock);
              var e, db := Body(c, looked.0, sel, clock), looked.0[sel];
              var was := if c.key in db.dict && db.dict[c.key].List? then db.dict[c.key].items else [];
              && Selected(c, sel, |dbs|) == sel && e.sent == c && LookUp(c, dbs, sel, clock) == looked
              && e.dirty == !(c.key in db.dict && !db.dict[c.key].List?)
              && e.data == if !e.dirty then looked.0
                           else looked.0[sel := db.(dict := db.dict[c.key := List(was + c.items)])]
    {
      hide ExpireIfNeeded;
    }

    /** listTypePush of one item after the other. */
    static method PushItems(was: seq<bytes>, items: seq<bytes>) returns (list: seq<bytes>, pushed: nat)
      ensures list == was + items && pushed == |items|
    {
      list, pushed := was, 0;
      while pushed < |items|
        invariant pushed <= |items| && list == was + items[..pushed]
      {
        list := list + [items[pushed]];
        pushed := pushed + 1;
      }
      assert items[..pushed] == items;
    }

    method RpushCommand(c: Client, key: bytes, items: seq<bytes>, now: int)
      requires c.db < |dbs| && c.cmd == RPush(key, items) && items != []
      modifies this
      ensures Performed(c, old(c.cmd), now)
    {
      hide Feed, FeedExpiries, LookUp, Body, Selected, ExpireIfNeeded;
      RpushEffect(c.cmd, dbs, c.db, now);
      var lobj := LookupKeyWrite(c.db, key, now);
      if lobj.Some? && !lobj.value.List? {
        return;
      }
      var list, pushed := PushItems(if lobj.Some? then lobj.value.items else [], items);
      if pushed > 0 {
        dbs := dbs[c.db := dbs[c.db].(dict := dbs[c.db].dict[key := List(list)])];
      }
      dirty := dirty + pushed;
    }

    static lemma SaddEffect(c: Command, dbs: seq<Db>, sel: nat, now: int)
      requires sel < |dbs| && c.SAdd? && c.items != []
      ensures var clock := Clock(now, false);
              var looked := ExpireIfNeeded(dbs, sel, c.key, clock);
              var e, db := Body(c, looked.0, sel, clock), looked.0[sel];
              var was := if c.key in db.dict && db.dict[c.key].Set? then db.dict[c.key].members else {};
              && Selected(c, sel, |dbs|) == sel && e.sent == c && LookUp(c, dbs, sel, clock) == looked
              && if c.key in db.dict && !db.dict[c.key].Set? then e.data == looked.0 && !e.dirty
                 else && e.data == looked.0[sel := db.(dict := db.dict[c.key := Set(was + ToSet(c.items))])]
                      && e.dirty == !(ToSet(c.items) <= was)
    {
      hide ExpireIfNeeded, ToSet;
    }

    /** setTypeAdd of one item after the other. */
    static method AddMembers(was: set<bytes>, items: seq<bytes>) returns (members: set<bytes>, added: nat)
      ensures members == was + ToSet(items) && (added > 0 <==> !(ToSet(items) <= was))
    {
      members, added := was, 0;
      var j := 0;
      while j < |items|
        invariant j <= |items| && members == was + ToSet(items[..j])
        invariant added > 0 <==> !(ToSet(items[..j]) <= was)
      {
        assert ToSet(items[..j + 1]) == ToSet(items[..j]) + {items[j]};
        if items[j] !in members {
          members := members + {items[j]};
          added := added + 1;
        }
        j := j + 1;
      }
      assert items[..j] == items;
    }

    method SaddCommand(c: Client, key: bytes, items: seq<bytes>, now: int)
      requires c.db < |dbs| && c.cmd == SAdd(key, items) && items != []
      modifies this
      ensures Performed(c, old(c.cmd), now)
    {
      hide Feed, FeedExpiries, LookUp, Body, Selected, ExpireIfNeeded, ToSet;
      SaddEffect(c.cmd, dbs, c.db, now);
      var obj := LookupKeyWrite(c.db, key, now);
      if obj.Some? && !obj.value.Set? {
        return;
      }
      var members, added := AddMembers(if obj.Some? then obj.value.members else {}, items);
      dbs := dbs[c.db := dbs[c.db].(dict := dbs[c.db].dict[key := Set(members)])];
      dirty := dirty + added;
    }

    static method SetFields(was: map<bytes, bytes>, args: seq<bytes>) returns (fields: map<bytes, bytes>)
      requires |args| % 2 == 0
      ensures fields == was + Pairs(args)
    {
      fields := was;
      var i := 0;
      while i < |args|
        invariant i <= |args| && i % 2 == 0 && fields == was + Pairs(args[..i])
      {
        fields := fields[args[i] := args[i + 1]];
        assert args[..i + 2][..i] == args[..i];
        i := i + 2;
      }
      assert args[..i] == args;
    }

    static lemma HmsetEffect(c: Command, dbs: seq<Db>, sel: nat, now: int)
      requires sel < |dbs| && c.HMSet? && c.args != []
      ensures var clock := Clock(now, false);
              var looked := LookUp(c, dbs, sel, clock);
              var e, db := Body(c, looked.0, sel, clock), looked.0[sel];
              var was := if c.key in db.dict && db.dict[c.key].Hash? then db.dict[c.key].fields else map[];
              && Selected(c, sel, |dbs|) == sel && e.sent == c
              && looked == (if |c.args| % 2 == 1 then (dbs, []) else ExpireIfNeeded(dbs, sel, c.key, clock))
              && e.dirty == !(|c.args| % 2 == 1 || (c.key in db.dict && !db.dict[c.key].Hash?))
              && e.data == if !e.dirty then looked.0
                           else looked.0[sel := db.(dict := db.dict[c.key := Hash(was + Pairs(c.args))])]
    {
      hide ExpireIfNeeded, Pairs;
    }

    method HmsetCommand(c: Client, key: bytes, args: seq<bytes>, now: int)
      requires c.db < |dbs| && c.cmd == HMSet(key, args) && args != []
      modifies this
      ensures Performed(c, old(c.cmd), now)
    {
      hide Feed, FeedExpiries, LookUp, Body, Selected, ExpireIfNeeded, Pairs;
      HmsetEffect(c.cmd, dbs, c.db, now);
      NothingFed(View());
      if |args| % 2 == 1 {
        return;
      }
      var o := LookupKeyWrite(c.db, key, now);
      if o.Some? && !o.value.Hash? {
        return;
      }
      var fields: map<bytes, bytes> := if o.Some? then o.value.fields else map[];
      fields := SetFields(fields, args);
      dbs := dbs[c.db := dbs[c.db].(dict := dbs[c.db].dict[key := Hash(fields)])];
      dirty := dirty + 1;
    }

    method FlushdbCommand(c: Client, now: int)
      requires c.db < |dbs| && c.cmd == Command.FlushDb
      modifies this
      ensures Performed(c, old(c.cmd), now)
    {
      hide Feed, FeedExpiries;
      NothingFed(View());
      assert dbs[c.db].dict == map[] <==> |dbs[c.db].dict| == 0;
      dirty := dirty + |dbs[c.db].dict|;
      dbs := dbs[c.db := EMPTY_DB];
    }

    /** emptyDb: every database, and how many keys there were. */
    method EmptyDb() returns (removed: nat)
      modifies this`dbs
      ensures dbs == seq(|old(dbs)|, _ => EMPTY_DB)
    {
      removed := 0;
      var j := 0;
      while j < |dbs|
        invariant j <= |dbs| == |old(dbs)|
        invariant forall i :: 0 <= i < j ==> dbs[i] == EMPTY_DB
      {
        removed := removed + |dbs[j].dict|;
        dbs := dbs[j := EMPTY_DB];
        j := j + 1;
      }
    }

    method FlushallCommand(c: Client, now: int)
      requires c.db < |dbs| && c.cmd == Command.FlushAll
      modifies this
      ensures Performed(c, old(c.cmd), now)
    {
      hide Feed, FeedExpiries;
      NothingFed(View());
      var removed := EmptyDb();
      dirty := dirty + removed + 1;
    }

    method SelectCommand(c: Client, id: int, now: int)
      requires c.db < |dbs| && c.cmd == Command.Select(id)
      modifies c`db
      ensures Performed(c, old(c.cmd), now)
    {
      hide Feed, FeedExpiries;
      NothingFed(View());
      if 0 <= id < |dbs| {
        c.db := id;
      }
    }

    method GetCommand(c: Client, key: bytes, now: int) returns (val: Option<Value>)
      requires c.db < |dbs| && c.cmd == Command.Get(key)
      modifies this
      ensures Performed(c, old(c.cmd), now)
    {
      hide Feed, FeedExpiries;
      val := LookupKeyWrite(c.db, key, now);
    }

    /** Runs the procedure of a command; too few arguments for its arity are refused before that. */
    method Proc(c: Client, now: int)
      requires c.db < |dbs| && Ordinary(c.cmd)
      modifies this, c
      ensures Performed(c, old(c.cmd), now)
    {
      hide Feed, FeedExpiries;
      NothingFed(View());
      match c.cmd {
        case SetCmd(k, v) => SetGenericCommand(c, false, k, v, None, Seconds, now);
        case SetNx(k, v) => SetGenericCommand(c, true, k, v, None, Seconds, now);
        case SetEx(k, ttl, unit, v) => SetGenericCommand(c, false, k, v, Some(ttl), unit, now);
        case Expire(k, arg, unit, relative) => ExpireGenericCommand(c, k, arg, unit, relative, now);
        case Persist(k) => PersistCommand(c, k, now);
        case Del(ks) => DelCommand(c, ks, now);
        case Rename(src, dst, nx) => RenameGenericCommand(c, src, dst, nx, now);
        case Move(k, d) => MoveCommand(c, k, d, now);
        case RPush(k, items) => if items != [] { RpushCommand(c, k, items, now); }
        case SAdd(k, items) => if items != [] { SaddCommand(c, k, items, now); }
        case HMSet(k, args) => if args != [] { HmsetCommand(c, k, args, now); }
        case FlushDb => FlushdbCommand(c, now);
        case FlushAll => FlushallCommand(c, now);
        case Select(id) => SelectCommand(c, id, now);
        case Get(k) => var val := GetCommand(c, k, now);
        case _ => assert false;
      }
    }

    // Propagation --------------------------------------------------------------------------------

    /** One fed piece after another is one fed run. */
    static lemma FedTwice(s: M.State, a: Run, sel: nat, more: Fed)
      ensures M.Fed(M.Fed(s, a), Run(a.dbs, sel, more)) ==
              M.Fed(s, Run(a.dbs, sel, Fed(a.fed.log + more.log, more.selected)))
    {
      assert s.buf + a.fed.log + more.log == s.buf + (a.fed.log + more.log);
      assert s.rewriteBuf + a.fed.log + more.log == s.rewriteBuf + (a.fed.log + more.log);
    }

    /** call: runs a command and feeds it to the log if it changed anything. */
    method Call(c: Client, now: int)
      requires c.db < |dbs| && Ordinary(c.cmd)
      modifies this, c
      ensures View() == M.Fed(old(View()), CallOne(old(c.cmd), now, M.Begin(old(View()), old(c.db))))
      ensures c.db == Selected(old(c.cmd), old(c.db), old(|dbs|)) && |dbs| == old(|dbs|)
    {
      hide Feed, FeedExpiries, LookUp, Body;
      ghost var s0, cmd, sel := View(), c.cmd, c.db;
      var before := dirty;
      Proc(c, now);
      ghost var looked := LookUp(cmd, s0.dbs, sel, Clock(now, false));
      ghost var expired := FeedExpiries(looked.1, s0.selected, now);
      ghost var half := Run(dbs, sel, expired);
      assert [] + expired.log == expired.log;
      if dirty != before && mode != M.Off {
        ghost var own := Feed(c.cmd, c.db, expired.selected, now);
        FeedAppendOnlyFile(c.cmd, c.db, now);
        FedTwice(s0, half, c.db, Fed(own, c.db));
        assert [] + (expired.log + own) == expired.log + own;
      }
    }

    static lemma CallOneAppends(c: Command, now: int, r: Run)
      requires r.sel < |r.dbs|
      ensures var q, p := CallOne(c, now, Run(r.dbs, r.sel, Fed([], r.fed.selected))), CallOne(c, now, r);
              p == Run(q.dbs, q.sel, Fed(r.fed.log + q.fed.log, q.fed.selected))
    {
      hide Feed, FeedExpiries, LookUp, Body;
      var q := CallOne(c, now, Run(r.dbs, r.sel, Fed([], r.fed.selected)));
      assert forall log: seq<Command> :: [] + log == log;
    }

    /** The next command of a transaction continues the run so far. */
    static lemma FedThenCall(s: M.State, r: Run, c: Command, now: int)
      requires r.sel < |r.dbs|
      ensures var s1 := M.Fed(s, r);
              M.Fed(s1, CallOne(c, now, M.Begin(s1, r.sel))) == M.Fed(s, CallOne(c, now, r))
    {
      hide Feed, FeedExpiries, LookUp, Body;
      if s.mode != M.Off {
        var s1 := M.Fed(s, r);
        var q := CallOne(c, now, M.Begin(s1, r.sel));
        FedTwice(s, Run(q.dbs, r.sel, r.fed), q.sel, q.fed);
        CallOneAppends(c, now, r);
      }
    }

    static lemma CallSelects(c: Command, now: int, r: Run)
      requires r.sel < |r.dbs|
      ensures CallOne(c, now, r).sel == Selected(c, r.sel, |r.dbs|)
    {}

    /** EXEC of a transaction that is not to be aborted. */
    method ExecCommand(c: Client, commands: seq<Timed>, now: int)
      requires c.db < |dbs| && forall t :: t in commands ==> Ordinary(t.cmd) && t.now >= 0
      modifies this, c
      ensures View() == M.Next(old(View()), M.ExecTransaction(old(c.db), commands, now))
    {
      hide CallOne, Feed;
      ghost var s0, sel := View(), c.db;
      ghost var r := FeedMark(Multi, now, M.Begin(s0, sel));
      assert [] + Feed(Multi, sel, s0.selected, now) == Feed(Multi, sel, s0.selected, now);
      if mode != M.Off {
        FeedAppendOnlyFile(Multi, c.db, now);
      }
      var j := 0;
      while j < |commands|
        invariant j <= |commands| && c.db == r.sel < |r.dbs| == |dbs|
        invariant View() == M.Fed(s0, r)
        invariant CallAll(commands, FeedMark(Multi, now, M.Begin(s0, sel))) == CallAll(commands[j..], r)
      {
        c.cmd := commands[j].cmd;
        FedThenCall(s0, r, commands[j].cmd, commands[j].now);
        CallSelects(commands[j].cmd, commands[j].now, r);
        Call(c, commands[j].now);
        r := CallOne(commands[j].cmd, commands[j].now, r);
        j := j + 1;
      }
      dirty := dirty + 1;
      if mode != M.Off {
        FeedAppendOnlyFile(Exec, c.db, now);
      }
      FedTwice(s0, r, c.db, Fed(Feed(Exec, c.db, r.fed.selected, now), c.db));
    }

    // The file and the rewrite -------------------------------------------------------------------

    /** Writes the pending buffer in one piece; a failed write ends the process. */
    method FlushAppendOnlyFile()
      modifies this`file, this`buf
      ensures View() == M.Next(old(View()), M.Flush)
    {
      if buf == [] {
        assert file + buf == file;
        return;
      }
      file := file + buf;
      buf := [];
    }

    /** Forks a child that writes what it finds in `dump`, a visit of the keyspace at this moment, at time
        `now`. */
    method RewriteAppendOnlyFileBackground(dump: seq<seq<Entry>>, now: int) returns (ok: bool)
      requires child.None? ==> ListsAll(dump, dbs)
      modifies this`child, this`selected, this`childCut
      ensures ok == old(child).None?
      ensures ok ==> View() == M.Next(old(View()), M.Fork(dump, now))
      ensures !ok ==> View() == old(View())
    {
      if child.Some? {
        return false;
      }
      child := Some(Rewrite(dump, now));
      childCut := if Fresh(dbs, now) then 0 else now;
      selected := -1;  // so that the rewrite buffer begins with a SELECT
      return true;
    }

    method StartAppendOnly(dump: seq<seq<Entry>>, now: int) returns (ok: bool)
      requires mode == M.Off && ListsAll(dump, dbs)
      modifies this`child, this`selected, this`childCut, this`mode
      ensures View() == M.Next(old(View()), M.Start(dump, now))
    {
      hide ListsAll, Rewrite, Fresh;
      ok := RewriteAppendOnlyFileBackground(dump, now);
      if ok {
        mode := M.WaitRewrite;
      }
    }

    method StopAppendOnly()
      requires mode != M.Off && (child.None? ==> rewriteBuf == [])
      modifies this
      ensures View() == M.Next(old(View()), M.Stop)
      ensures dirty == old(dirty)
    {
      FlushAppendOnlyFile();
      assert old(View()).(file := file, buf := []) == View();
      selected := -1;
      mode := M.Off;
      if child.Some? {
        rewriteBuf := [];
        child := None;
      }
    }

    static lemma RewriteDone(s: M.State)
      requires s.child.Some?
      ensures var done :=
                s.(file := s.child.value + s.rewriteBuf, fileCut := s.childCut, rewriteBuf := [], child := None);
              M.Next(s, M.ChildSucceeded)
              == if s.mode == M.Off then done else done.(selected := -1, buf := [], mode := M.On)
      ensures M.Next(s, M.ChildFailed) == s.(rewriteBuf := [], child := None)
    {}

    /** The child has ended; `success` also stands for the writes and the rename of the parent. */
    method BackgroundRewriteDoneHandler(success: bool)
      requires child.Some?
      modifies this
      ensures View() == M.Next(old(View()), if success then M.ChildSucceeded else M.ChildFailed)
    {
      hide M.Next;
      RewriteDone(View());
      if success {
        file := child.value + rewriteBuf;
        fileCut := childCut;
        if mode != M.Off {
          selected := -1;  // what follows in the new file must not rely on the old one's last SELECT
          buf := [];       // the rewrite buffer, now in the file, holds all of it
        }
        if mode == M.WaitRewrite {
          mode := M.On;
        }
      }
      rewriteBuf := [];
      child := None;
    }
  }
}
