/**
 What each command does, key by key, as its documentation promises it: which value and which expiry
 every key of every database has afterwards, and whether the command counts as a change.
 */
module KeyspaceLaws {
  import opened Bytes
  import opened Keyspace
  import opened Wrappers

  /** What a key holds: its value, and the time at which it expires, if it does. */
  datatype Held = Held(value: Value, until: Option<int>)

  function At(dbs: seq<Db>, i: nat, k: bytes): Option<Held> {
    if i < |dbs| && k in dbs[i].dict then
      Some(Held(dbs[i].dict[k], if k in dbs[i].expires then Some(dbs[i].expires[k]) else None))
    else None
  }

  /** The time of a key has passed; while a log is loaded no time passes. */
  predicate Over(dbs: seq<Db>, i: nat, k: bytes, clock: Clock) {
    i < |dbs| && k in dbs[i].expires && dbs[i].expires[k] < clock.now && !clock.loading
  }

  /** What a command finds that looks the key up. */
  function Alive(dbs: seq<Db>, i: nat, k: bytes, clock: Clock): Option<Held> {
    if Over(dbs, i, k, clock) then None else At(dbs, i, k)
  }

  function Ms(arg: int, unit: Unit): int {
    match unit
    case Seconds => 1000 * arg
    case Milliseconds => arg
  }

  lemma ValidAt(dbs: seq<Db>, i: nat)
    requires AllValid(dbs) && i < |dbs|
    ensures DbValid(dbs[i])
  {}

  /** SET: the value, and no expiry. */
  lemma SetLaw(dbs: seq<Db>, sel: nat, clock: Clock, k: bytes, v: bytes, i: nat, q: bytes)
    requires sel < |dbs|
    ensures var e := Execute(SetCmd(k, v), dbs, sel, clock);
            && e.dirty && e.sent == SetCmd(k, v)
            && At(e.data, i, q) == if i == sel && q == k then Some(Held(Str(v), None)) else At(dbs, i, q)
  {}

  /** SETNX: the same, but only where nothing is. */
  lemma SetNxLaw(dbs: seq<Db>, sel: nat, clock: Clock, k: bytes, v: bytes, i: nat, q: bytes)
    requires sel < |dbs| && AllValid(dbs)
    ensures var e := Execute(SetNx(k, v), dbs, sel, clock);
            && e.sent == SetNx(k, v) && e.dirty == Alive(dbs, sel, k, clock).None?
            && At(e.data, i, q)
               == if e.dirty && i == sel && q == k then Some(Held(Str(v), None)) else At(dbs, i, q)
  {
    ValidAt(dbs, sel);
  }

  /** SETEX and PSETEX: the value, until the time to live is over; a time to live that is not positive
      is refused. */
  lemma SetExLaw(dbs: seq<Db>, sel: nat, clock: Clock, k: bytes, ttl: int, unit: Unit, v: bytes, i: nat, q: bytes)
    requires sel < |dbs|
    ensures var e := Execute(SetEx(k, ttl, unit, v), dbs, sel, clock);
            && e.sent == SetEx(k, ttl, unit, v) && e.dirty == (ttl > 0)
            && At(e.data, i, q)
               == if e.dirty && i == sel && q == k then Some(Held(Str(v), Some(clock.now + Ms(ttl, unit))))
                  else At(dbs, i, q)
  {}

  /** EXPIRE and its three sisters: a key that is there, even past its time, gets the new time; a time that
      is not in the future deletes it and turns the command into a DEL, except while loading. */
  lemma ExpireLaw(dbs: seq<Db>, sel: nat, clock: Clock, k: bytes, arg: int, unit: Unit, relative: bool,
                  i: nat, q: bytes)
    requires sel < |dbs|
    ensures var e := Execute(Expire(k, arg, unit, relative), dbs, sel, clock);
            var when := if relative then clock.now + Ms(arg, unit) else Ms(arg, unit);
            var late := when <= clock.now && !clock.loading;
            && e.dirty == At(dbs, sel, k).Some?
            && e.sent == (if e.dirty && late then Del([k]) else Expire(k, arg, unit, relative))
            && At(e.data, i, q)
               == if !e.dirty || i != sel || q != k then At(dbs, i, q)
                  else if late then None
                  else Some(Held(At(dbs, sel, k).value.value, Some(when)))
  {}

  /** PERSIST: the value stays, for ever. */
  lemma PersistLaw(dbs: seq<Db>, sel: nat, clock: Clock, k: bytes, i: nat, q: bytes)
    requires sel < |dbs|
    ensures var e := Execute(Persist(k), dbs, sel, clock);
            && e.sent == Persist(k)
            && e.dirty == (At(dbs, sel, k).Some? && At(dbs, sel, k).value.until.Some?)
            && At(e.data, i, q)
               == if e.dirty && i == sel && q == k then Some(Held(At(dbs, sel, k).value.value, None)) else At(dbs, i, q)
  {}

  lemma {:induction false} DeletedAll(db: Db, ks: seq<bytes>, q: bytes)
    ensures var r := DeleteAll(db, ks);
            && (q in r.dict <==> q in db.dict && q !in ks) && (q in r.dict ==> r.dict[q] == db.dict[q])
            && (q in r.expires <==> q in db.expires && q !in ks) && (q in r.expires ==> r.expires[q] == db.expires[q])
    decreases |ks|
  {
    if ks != [] {
      DeletedAll(DbDelete(db, ks[0]), ks[1..], q);
    }
  }

  /** DEL: the keys named are gone. */
  lemma DelLaw(dbs: seq<Db>, sel: nat, clock: Clock, ks: seq<bytes>, i: nat, q: bytes)
    requires sel < |dbs|
    ensures var e := Execute(Del(ks), dbs, sel, clock);
            && e.sent == Del(ks) && e.dirty == (exists k :: k in ks && At(dbs, sel, k).Some?)
            && At(e.data, i, q) == if i == sel && q in ks then None else At(dbs, i, q)
  {
    DeletedAll(dbs[sel], ks, q);
    var e := Execute(Del(ks), dbs, sel, clock);
    if e.dirty {
      var k :| k in ks && k in dbs[sel].dict;
      assert At(dbs, sel, k).Some?;
    }
  }

  /** RENAME and RENAMENX: the target holds what the source held, value and expiry, and the source is
      gone; nothing happens if both are the same, the source is not there, or RENAMENX finds the target. */
  lemma RenameLaw(dbs: seq<Db>, sel: nat, clock: Clock, src: bytes, dst: bytes, nx: bool, i: nat, q: bytes)
    requires sel < |dbs| && AllValid(dbs)
    ensures var e := Execute(Rename(src, dst, nx), dbs, sel, clock);
            var found := Alive(dbs, sel, src, clock);
            && e.sent == Rename(src, dst, nx)
            && e.dirty == (src != dst && found.Some? && (nx ==> Alive(dbs, sel, dst, clock).None?))
            && At(e.data, i, q)
               == if i != sel || src == dst then At(dbs, i, q)
                  else if q == src then (if e.dirty then None else found)
                  else if q == dst && e.dirty then found
                  else At(dbs, i, q)
  {
    hide AllValid, NonEmpty;
    ValidAt(dbs, sel);
  }

  /** MOVE: the value leaves the selected database for another one, where the key was not, and is
      persistent there. */
  lemma MoveLaw(dbs: seq<Db>, sel: nat, clock: Clock, k: bytes, d: int, i: nat, q: bytes)
    requires sel < |dbs| && AllValid(dbs)
    ensures var e := Execute(Move(k, d), dbs, sel, clock);
            var sensible := 0 <= d < |dbs| && d != sel;
            var found := Alive(dbs, sel, k, clock);
            && e.sent == Move(k, d)
            && e.dirty == (sensible && found.Some? && Alive(dbs, d, k, clock).None?)
            && At(e.data, i, q)
               == if q != k || !sensible then At(dbs, i, q)
                  else if i == sel then (if e.dirty then None else found)
                  else if i == d && e.dirty then Some(Held(found.value.value, None))
                  else At(dbs, i, q)
  {
    hide AllValid, NonEmpty, DbBody;
    ValidAt(dbs, sel);
    if 0 <= d < |dbs| {
      ValidAt(dbs, d);
    }
  }

  /** A value found where a command adds to it, or a new one without an expiry. */
  function Grown(found: Option<Held>, v: Value): Option<Held> {
    Some(Held(v, if found.Some? then found.value.until else None))
  }

  /** RPUSH: the items go to the end, in order. */
  lemma RPushLaw(dbs: seq<Db>, sel: nat, clock: Clock, k: bytes, items: seq<bytes>, i: nat, q: bytes)
    requires sel < |dbs| && AllValid(dbs) && items != []
    ensures var e := Execute(RPush(k, items), dbs, sel, clock);
            var found := Alive(dbs, sel, k, clock);
            var was := if found.Some? && found.value.value.List? then found.value.value.items else [];
            && e.sent == RPush(k, items) && e.dirty == (found.Some? ==> found.value.value.List?)
            && At(e.data, i, q)
               == if e.dirty && i == sel && q == k then Grown(found, List(was + items)) else At(dbs, i, q)
  {
    ValidAt(dbs, sel);
  }

  /** SADD: a member is whatever was one or is named. */
  lemma SAddLaw(dbs: seq<Db>, sel: nat, clock: Clock, k: bytes, items: seq<bytes>, i: nat, q: bytes)
    requires sel < |dbs| && AllValid(dbs) && items != []
    ensures var e := Execute(SAdd(k, items), dbs, sel, clock);
            var found := Alive(dbs, sel, k, clock);
            var fits := found.Some? ==> found.value.value.Set?;
            var was := if found.Some? && found.value.value.Set? then found.value.value.members else {};
            && e.sent == SAdd(k, items) && e.dirty == (fits && exists x :: x in items && x !in was)
            && At(e.data, i, q)
               == if fits && i == sel && q == k then Grown(found, Set(was + set x | x in items)) else At(dbs, i, q)
  {
    ValidAt(dbs, sel);
  }

  /** Field `f` is set at the pair that starts at `j`, and at none after it. */
  predicate LastSet(args: seq<bytes>, f: bytes, j: nat) {
    && j + 1 < |args| && j % 2 == 0 && args[j] == f
    && forall m :: j < m < |args| && m % 2 == 0 ==> args[m] != f
  }

  lemma {:induction false} PairsLast(args: seq<bytes>, f: bytes)
    requires |args| % 2 == 0
    ensures f in Pairs(args) <==> exists j :: LastSet(args, f, j)
    ensures forall j :: LastSet(args, f, j) ==> f in Pairs(args) && Pairs(args)[f] == args[j + 1]
    decreases |args|
  {
    if args != [] {
      var n := |args| - 2;
      var init := args[..n];
      PairsLast(init, f);
      if args[n] == f {
        assert LastSet(args, f, n);
      } else {
        forall j: nat
          ensures LastSet(args, f, j) <==> LastSet(init, f, j)
        {
          if j < n && LastSet(init, f, j) {
            assert forall m :: j < m < |args| && m % 2 == 0 ==> m < n || m == n;
          }
        }
      }
    }
  }

  /** The fields named have the values given last, and the others those they had. */
  ghost predicate FieldsSet(was: map<bytes, bytes>, args: seq<bytes>, fields: map<bytes, bytes>) {
    && (forall f, j :: LastSet(args, f, j) ==> f in fields && fields[f] == args[j + 1])
    && (forall f :: !(exists j :: LastSet(args, f, j)) ==>
          (f in fields <==> f in was) && (f in was ==> fields[f] == was[f]))
  }

  lemma PairsSet(was: map<bytes, bytes>, args: seq<bytes>)
    requires |args| % 2 == 0
    ensures FieldsSet(was, args, was + Pairs(args))
  {
    hide Pairs, LastSet;
    forall f {
      PairsLast(args, f);
    }
  }

  /** HMSET: every field named has the value given last, and the other fields stay. */
  lemma HMSetLaw(dbs: seq<Db>, sel: nat, clock: Clock, k: bytes, args: seq<bytes>, i: nat, q: bytes)
    requires sel < |dbs| && AllValid(dbs) && args != []
    ensures var e := Execute(HMSet(k, args), dbs, sel, clock);
            var found := Alive(dbs, sel, k, clock);
            var was := if found.Some? && found.value.value.Hash? then found.value.value.fields else map[];
            && e.sent == HMSet(k, args)
            && e.dirty == (|args| % 2 == 0 && (found.Some? ==> found.value.value.Hash?))
            && (if e.dirty && i == sel && q == k then
                  && At(e.data, i, q).Some? && At(e.data, i, q).value.value.Hash?
                  && At(e.data, i, q) == Grown(found, At(e.data, i, q).value.value)
                  && FieldsSet(was, args, At(e.data, i, q).value.value.fields)
                else At(e.data, i, q) == At(dbs, i, q))
  {
    hide AllValid, NonEmpty, Pairs, FieldsSet;
    ValidAt(dbs, sel);
    if |args| % 2 == 0 {
      var found := Alive(dbs, sel, k, clock);
      PairsSet(if found.Some? && found.value.value.Hash? then found.value.value.fields else map[], args);
    }
  }

  /** FLUSHDB empties the selected database, FLUSHALL all of them. */
  lemma FlushLaw(dbs: seq<Db>, sel: nat, clock: Clock, i: nat, q: bytes)
    requires sel < |dbs|
    ensures var e := Execute(FlushDb, dbs, sel, clock);
            && e.sent == FlushDb && e.dirty == (exists k :: At(dbs, sel, k).Some?)
            && At(e.data, i, q) == if i == sel then None else At(dbs, i, q)
    ensures var e := Execute(FlushAll, dbs, sel, clock);
            e.sent == FlushAll && e.dirty && At(e.data, i, q) == None
  {
    if dbs[sel].dict != map[] {
      var k :| k in dbs[sel].dict;
      assert At(dbs, sel, k).Some?;
    }
  }

  /** GET deletes the key if its time has passed, and changes nothing else; nor do the others. */
  lemma ReadLaw(c: Command, dbs: seq<Db>, sel: nat, clock: Clock, i: nat, q: bytes)
    requires sel < |dbs| && AllValid(dbs) && (c.Get? || c.Select? || c.Multi? || c.Exec?)
    ensures var e := Execute(c, dbs, sel, clock);
            && !e.dirty && e.sent == c
            && At(e.data, i, q) == if c.Get? && i == sel && q == c.key then Alive(dbs, i, q, clock) else At(dbs, i, q)
  {
    ValidAt(dbs, sel);
  }

  /** A key expires by itself just when its time has passed. */
  lemma ExpiredExactly(dbs: seq<Db>, i: nat, k: bytes, clock: Clock)
    requires AllValid(dbs) && i < |dbs|
    ensures IsExpired(dbs[i], k, clock) <==> Over(dbs, i, k, clock)
  {
    ValidAt(dbs, i);
  }

  /** EXPIRE and PERSIST do not ask whether the time of a key has passed: a key that nobody has looked up since
      is given a new time, or none, by them, and is there again. */
  lemma StaleKeyRevived(dbs: seq<Db>, sel: nat, k: bytes, seconds: int, now: int)
    requires sel < |dbs| && At(dbs, sel, k).Some? && seconds > 0
    ensures var clock, v := Clock(now, false), At(dbs, sel, k).value.value;
            && At(Execute(Expire(k, seconds, Seconds, true), dbs, sel, clock).data, sel, k)
               == Some(Held(v, Some(now + 1000 * seconds)))
            && At(Execute(Persist(k), dbs, sel, clock).data, sel, k) == Some(Held(v, None))
            && Alive(Execute(Expire(k, seconds, Seconds, true), dbs, sel, clock).data, sel, k, clock).Some?
            && Alive(Execute(Persist(k), dbs, sel, clock).data, sel, k, clock).Some?
  {
    hide Execute;
    var clock := Clock(now, false);
    ExpireLaw(dbs, sel, clock, k, seconds, Seconds, true, sel, k);
    PersistLaw(dbs, sel, clock, k, sel, k);
  }
}
