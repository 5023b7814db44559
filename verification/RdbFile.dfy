/** Saving and loading whole dumps (rdbSave and rdbLoad, and the routines between them and strings). */
module RdbFile {
  import opened Bytes
  import opened Endian
  import opened Objects
  import opened Reading
  import opened Wrappers
  import opened RdbFormat
  import opened RdbSnapshot
  import opened RdbStrings
  import Crc64
  import Decimal
  import Intset
  import Keyspace
  import Rio

  // Saving ---------------------------------------------------------------------------------------

  /** What a string object must be to be saved: its length fits 32 bits, its number 64. */
  predicate Savable(o: StringObject) {
    |Text(o)| < LENERR && (o.Number? ==> Decimal.InRange(o.v))
  }

  predicate AllSavable(os: seq<StringObject>) {
    forall i :: 0 <= i < |os| ==> Savable(os[i])
  }

  predicate SavableObject(o: Object) {
    match o
    case StringValue(s) => Savable(s)
    case LinkedList(items) => |items| < LENERR && AllSavable(items)
    case TableSet(members) => |members| < LENERR && AllSavable(members)
    case TableHash(args) => |args| % 2 == 0 && |args| / 2 < LENERR && AllSavable(args)
    case Block(_, block) => |block| < LENERR
  }

  predicate SavableEntry(e: Entry) {
    |e.key| < LENERR && SavableObject(e.value)
  }

  lemma SaveStringDefined(f: Form, s: bytes)
    requires FormOf(f, s)
    ensures |s| < LENERR && (f.Integer? ==> EncodeInteger(f.v).Some?) && (f.Compressed? ==> |f.c| < LENERR)
  {}

  /** rdbSaveStringObject */
  method RdbSaveStringObject(rio: Rio.Stream, o: StringObject, compression: bool) returns (ghost e: bytes)
    requires rio.AtEnd() && Savable(o)
    modifies rio`data, rio`pos, rio`cksum
    ensures rio.AtEnd() && StringCode(e, Text(o)) && rio.data == old(rio.data) + e
  {
    hide Rio.Stream.Sum, FormOf, SaveString;
    ghost var f;
    match o {
      case Number(v) => f := RdbSaveLongLongAsStringObject(rio, v);
      case Raw(s) => f := RdbSaveRawString(rio, s, compression);
    }
    SaveStringDefined(f, Text(o));
    e := SaveString(f, Text(o));
  }

  lemma {:induction false} ConcatMore(es: seq<bytes>, e: bytes)
    ensures Concat(es + [e]) == Concat(es) + e
    decreases |es|
  {
    if es == [] {
      assert es + [e] == [e] && [e][1..] == [] && Concat([e]) == e + Concat([]);
    } else {
      assert (es + [e])[1..] == es[1..] + [e];
      ConcatMore(es[1..], e);
      assert es[0] + (Concat(es[1..]) + e) == (es[0] + Concat(es[1..])) + e;
    }
  }

  lemma NoneConcat()
    ensures Concat([]) == []
  {}

  /** The elements of a list, a set or a hash, in the order of the iterator. */
  method SaveElements(rio: Rio.Stream, os: seq<StringObject>, compression: bool) returns (ghost es: seq<bytes>)
    requires rio.AtEnd() && AllSavable(os)
    modifies rio`data, rio`pos, rio`cksum
    ensures rio.AtEnd() && StringCodes(es, Texts(os)) && rio.data == old(rio.data) + Concat(es)
  {
    hide Rio.Stream.Sum, Concat, StringCode, Savable;
    ghost var d0 := rio.data;
    es := [];
    NoneConcat();
    var i := 0;
    while i < |os|
      invariant i <= |os| && rio.AtEnd() && |es| == i && rio.data == d0 + Concat(es)
      invariant forall j :: 0 <= j < i ==> StringCode(es[j], Text(os[j]))
    {
      ghost var e := RdbSaveStringObject(rio, os[i], compression);
      ConcatMore(es, e);
      es := es + [e];
      i := i + 1;
    }
  }

  /** A count and the elements. */
  method SaveList(rio: Rio.Stream, count: u32, os: seq<StringObject>, compression: bool) returns (ghost e: bytes)
    requires rio.AtEnd() && AllSavable(os) && count < LENERR
    modifies rio`data, rio`pos, rio`cksum
    ensures rio.AtEnd() && ListCode(e, count, Texts(os)) && rio.data == old(rio.data) + e
  {
    hide Rio.Stream.Sum, Concat, StringCodes, AllSavable, SaveLen;
    RdbSaveLen(rio, count);
    ghost var es := SaveElements(rio, os, compression);
    e := SaveLen(count) + Concat(es);
  }

  /** rdbSaveObject */
  method RdbSaveObject(rio: Rio.Stream, o: Object, compression: bool) returns (ghost e: bytes)
    requires rio.AtEnd() && SavableObject(o)
    modifies rio`data, rio`pos, rio`cksum
    ensures rio.AtEnd() && ObjectCode(e, o) && rio.data == old(rio.data) + e
  {
    hide Rio.Stream.Sum, ListCode, FormOf, SaveString, AllSavable, Savable;
    match o {
      case StringValue(s) =>
        e := RdbSaveStringObject(rio, s, compression);
      case LinkedList(items) =>
        e := SaveList(rio, |items|, items, compression);
      case TableSet(members) =>
        e := SaveList(rio, |members|, members, compression);
      case TableHash(args) =>
        e := SaveList(rio, |args| / 2, args, compression);
      case Block(_, block) =>
        ghost var f := RdbSaveRawString(rio, block, compression);
        SaveStringDefined(f, block);
        e := SaveString(f, block);
    }
  }

  method SaveTyped(rio: Rio.Stream, e: Entry, compression: bool) returns (ghost k: bytes, ghost v: bytes)
    requires rio.AtEnd() && SavableEntry(e)
    modifies rio`data, rio`pos, rio`cksum
    ensures rio.AtEnd() && StringCode(k, e.key) && ObjectCode(v, e.value)
    ensures rio.data == old(rio.data) + ([TypeOf(e.value)] + (k + v))
  {
    hide Rio.Stream.Sum, SavableObject, StringCode, ObjectCode;
    rio.Write([TypeOf(e.value)]);
    k := RdbSaveStringObject(rio, Raw(e.key), compression);
    v := RdbSaveObject(rio, e.value, compression);
  }

  /** rdbSaveKeyValuePair: a key that has already expired is left out. */
  method RdbSaveKeyValuePair(rio: Rio.Stream, e: Entry, now: int, compression: bool)
    returns (saved: bool, ghost c: bytes)
    requires rio.AtEnd() && SavableEntry(e)
    modifies rio`data, rio`pos, rio`cksum
    ensures rio.AtEnd() && rio.data == old(rio.data) + c && saved == !Stale(e, now)
    ensures if saved then EntryCode(c, e) else c == []
  {
    hide Rio.Stream.Sum, SavableObject, StringCode, ObjectCode, LittleEndian;
    ghost var d0 := rio.data;
    if e.expire != -1 {
      if e.expire < now {
        return false, [];
      }
      rio.Write([OPCODE_EXPIRETIME_MS]);
      rio.Write(LittleEndian(e.expire, 8));
    }
    assert rio.data == d0 + ExpireCode(e.expire);
    ghost var k, v := SaveTyped(rio, e, compression);
    c := ExpireCode(e.expire) + ([TypeOf(e.value)] + (k + v));
    saved := true;
  }

  /** One database: nothing at all if it is empty. */
  method SaveDb(rio: Rio.Stream, id: u32, es: seq<Entry>, now: int, compression: bool) returns (ghost c: bytes)
    requires rio.AtEnd() && forall i :: 0 <= i < |es| ==> SavableEntry(es[i])
    modifies rio`data, rio`pos, rio`cksum
    ensures rio.AtEnd() && DbCode(c, id, es, now) && rio.data == old(rio.data) + c
  {
    hide Rio.Stream.Sum, SavableEntry, SaveLen, EntryCode, Concat;
    if es == [] {
      return [];
    }
    rio.Write([OPCODE_SELECTDB]);
    RdbSaveLen(rio, id);
    ghost var d0, cs := rio.data, [];
    NoneConcat();
    var i := 0;
    while i < |es|
      invariant i <= |es| && rio.AtEnd() && |cs| == i && rio.data == d0 + Concat(cs)
      invariant forall j :: 0 <= j < i ==> if Stale(es[j], now) then cs[j] == [] else EntryCode(cs[j], es[j])
    {
      var saved; ghost var kv;
      saved, kv := RdbSaveKeyValuePair(rio, es[i], now, compression);
      ConcatMore(cs, kv);
      cs := cs + [kv];
      i := i + 1;
    }
    assert EntryCodes(cs, es, now);
    c := [OPCODE_SELECTDB] + (SaveLen(id) + Concat(cs));
  }

  lemma SumOf(rio: Rio.Stream)
    requires rio.AtEnd()
    ensures rio.cksum as int == Checksum(rio.data, rio.summed)
  {
    hide Crc64.Crc;
    assert rio.data[..rio.pos] == rio.data;
  }

  /** rdbSave: the contents of the file. */
  method RdbSave(dump: seq<seq<Entry>>, now: int, compression: bool, summed: bool) returns (file: bytes)
    requires |dump| <= LENERR
    requires forall i, j :: 0 <= i < |dump| && 0 <= j < |dump[i]| ==> SavableEntry(dump[i][j])
    ensures FileCode(file, dump, now, summed)
  {
    hide Rio.Stream.Sum, SavableEntry, DbCode, Concat, LittleEndian;
    var rio := new Rio.Stream([], summed);
    rio.Write(MAGIC + VERSION);
    ghost var d0, cs := rio.data, [];
    NoneConcat();
    var j := 0;
    while j < |dump|
      invariant j <= |dump| && rio.AtEnd() && rio.summed == summed && |cs| == j && rio.data == d0 + Concat(cs)
      invariant forall i :: 0 <= i < j ==> DbCode(cs[i], i, dump[i], now)
    {
      ghost var c := SaveDb(rio, j, dump[j], now, compression);
      ConcatMore(cs, c);
      cs := cs + [c];
      j := j + 1;
    }
    rio.Write([OPCODE_EOF]);
    ghost var body := rio.data;
    assert body == MAGIC + VERSION + (Concat(cs) + [OPCODE_EOF]);
    SumOf(rio);
    var sum := LittleEndian(rio.cksum as int, 8);
    rio.Write(sum);
    file := rio.data;
    assert DbCodes(cs, dump, now) && FileParts(file, cs, summed);
  }

  // Loading --------------------------------------------------------------------------------------

  /** The whole is what was read so far and the rest. */
  ghost predicate Continues(whole: Option<Read<seq<bytes>>>, items: seq<bytes>, rest: Option<Read<seq<bytes>>>) {
    match rest
    case None => whole == None
    case Some(r) => whole == Some(Read(items + r.value, r.pos))
  }

  /** `n` strings, one after the other. */
  method LoadElements(rio: Rio.Stream, n: nat) returns (o: Option<seq<bytes>>)
    requires rio.Valid()
    modifies rio`pos, rio`cksum
    ensures rio.Valid() && Loaded(LoadStrings(rio.data, old(rio.pos), n), o, rio.pos)
  {
    hide Rio.Stream.Sum, LoadString;
    var items: seq<bytes>, len: int := [], n;
    ghost var whole := LoadStrings(rio.data, rio.pos, n);
    assert whole.Some? ==> [] + whole.value.value == whole.value.value;
    while len > 0
      invariant rio.Valid() && 0 <= len <= n
      invariant Continues(whole, items, LoadStrings(rio.data, rio.pos, len))
    {
      ghost var rest := LoadStrings(rio.data, rio.pos, len);
      var ele := RdbLoadStringObject(rio);
      if ele.None? {
        return None;
      }
      assert rest.Some? ==> items + rest.value.value == (items + [ele.value]) + rest.value.value[1..];
      items := items + [ele.value];
      len := len - 1;
    }
    assert items + [] == items;
    o := Some(items);
  }

  /** A count, and that many strings or pairs. */
  method LoadCounted(rio: Rio.Stream, each: nat) returns (o: Option<seq<bytes>>)
    requires rio.Valid()
    modifies rio`pos, rio`cksum
    ensures rio.Valid() && Loaded(LoadList(rio.data, old(rio.pos), each), o, rio.pos)
  {
    hide Rio.Stream.Sum, LoadLen, LoadStrings;
    var len, isencoded := RdbLoadLen(rio);
    if len == LENERR {
      return None;
    }
    o := LoadElements(rio, each * len);
  }

  /** rdbLoadObject: what the object means, whichever encoding it gets in memory. */
  method RdbLoadObject(kind: u8, rio: Rio.Stream, zip: Ziplists) returns (o: Option<Keyspace.Value>)
    requires rio.Valid()
    modifies rio`pos, rio`cksum
    ensures rio.Valid() && Loaded(LoadObject(rio.data, old(rio.pos), kind, zip), o, rio.pos)
  {
    hide Rio.Stream.Sum, LoadString, LoadList, HashOf, Intset.BlockNumbers;
    var s, items;
    if kind == TYPE_STRING {
      s := RdbLoadStringObject(rio);
      o := if s.None? then None else Some(Keyspace.Str(s.value));
    } else if kind == TYPE_LIST {
      items := LoadCounted(rio, 1);
      o := if items.None? then None else Some(Keyspace.List(items.value));
    } else if kind == TYPE_SET {
      items := LoadCounted(rio, 1);
      o := if items.None? then None else Some(Keyspace.Set(Keyspace.ToSet(items.value)));
    } else if kind == TYPE_HASH {
      items := LoadCounted(rio, 2);
      o := if items.None? then None else HashOf(items.value);
    } else if kind == TYPE_LIST_ZIPLIST || kind == TYPE_SET_INTSET || kind == TYPE_HASH_ZIPLIST {
      s := RdbLoadStringObject(rio);
      o := if s.None? then None else BlockValue(kind, s.value, zip);
    } else {
      o := None;
    }
  }

  /** The expiry in front of a key, and the type after it. */
  method LoadOpcode(rio: Rio.Stream) returns (o: Option<Header>)
    requires rio.Valid()
    modifies rio`pos, rio`cksum
    ensures rio.Valid() && Loaded(LoadHeader(rio.data, old(rio.pos)), o, rio.pos)
  {
    hide Rio.Stream.Sum, Signed;
    var expiretime := -1;
    var ok, buf := rio.Read(1);
    if !ok {
      return None;
    }
    var kind := buf[0];
    if kind == OPCODE_EXPIRETIME {
      ok, buf := rio.Read(4);
      if !ok || Signed(buf) == -1 {
        return None;
      }
      expiretime := Signed(buf);
      ok, buf := rio.Read(1);
      if !ok {
        return None;
      }
      kind := buf[0];
      expiretime := expiretime * 1000;
    } else if kind == OPCODE_EXPIRETIME_MS {
      ok, buf := rio.Read(8);
      if !ok || Signed(buf) == -1 {
        return None;
      }
      expiretime := Signed(buf);
      ok, buf := rio.Read(1);
      if !ok {
        return None;
      }
      kind := buf[0];
    }
    o := Some(Header(expiretime, kind));
  }

  /** The loop of rdbLoad. */
  method LoadAll(rio: Rio.Stream, dbs0: seq<Keyspace.Db>, now: int, master: bool, zip: Ziplists)
    returns (o: Option<seq<Keyspace.Db>>)
    requires rio.Valid() && 0 < |dbs0| < LENERR
    modifies rio`pos, rio`cksum
    ensures rio.Valid() && Loaded(LoadFrom(rio.data, old(rio.pos), dbs0, 0, now, master, zip), o, rio.pos)
  {
    hide Rio.Stream.Sum, LoadHeader, LoadString, LoadObject, LoadLen, AddKey;
    ghost var whole := LoadFrom(rio.data, rio.pos, dbs0, 0, now, master, zip);
    var dbs, db := dbs0, 0;
    while true
      invariant rio.Valid() && 0 <= db < |dbs| == |dbs0|
      invariant whole == LoadFrom(rio.data, rio.pos, dbs, db, now, master, zip)
      decreases |rio.data| - rio.pos
    {
      var header := LoadOpcode(rio);
      if header.None? {
        return None;
      }
      if header.value.kind == OPCODE_EOF {
        break;
      }
      if header.value.kind == OPCODE_SELECTDB {
        var dbid, isencoded := RdbLoadLen(rio);
        if dbid == LENERR || dbid >= |dbs| {
          return None;
        }
        db := dbid;
        continue;
      }
      var key := RdbLoadStringObject(rio);
      if key.None? {
        return None;
      }
      var val := RdbLoadObject(header.value.kind, rio, zip);
      if val.None? {
        return None;
      }
      var added := AddKey(dbs[db], key.value, val.value, header.value.expire, now, master);
      if added.None? {
        return None;
      }
      dbs := dbs[db := added.value];
    }
    o := Some(dbs);
  }

  /** The last eight octets against the checksum of everything before. */
  method VerifyChecksum(rio: Rio.Stream) returns (accepted: bool)
    requires rio.Valid() && rio.summed
    modifies rio`pos, rio`cksum
    ensures accepted == ChecksumAccepted(rio.data, old(rio.pos))
  {
    hide FromLittleEndian, Crc64.Crc;
    var expected := rio.cksum;
    var ok, buf := rio.Read(8);
    if !ok {
      return false;
    }
    var cksum := FromLittleEndian(buf);
    accepted := cksum == 0 || cksum == expected as int;
  }

  /** rdbLoad: the databases after loading a file into those of the server; nothing when it refuses the
      file or gives up. */
  method RdbLoad(file: bytes, dbs0: seq<Keyspace.Db>, now: int, master: bool, summed: bool, zip: Ziplists)
    returns (o: Option<seq<Keyspace.Db>>)
    requires 0 < |dbs0| < LENERR
    ensures o == LoadFile(file, dbs0, now, master, summed, zip)
  {
    hide Rio.Stream.Sum, LoadFrom, Decimal.Atoi;
    var rio := new Rio.Stream(file, summed);
    var ok, buf := rio.Read(9);
    if !ok || buf[..5] != MAGIC {
      return None;
    }
    var rdbver := Decimal.Atoi(buf[5..]);
    if rdbver < 1 || rdbver > 6 {
      return None;
    }
    var dbs := LoadAll(rio, dbs0, now, master, zip);
    if dbs.None? {
      return None;
    }
    if rdbver >= 5 && summed {
      var accepted := VerifyChecksum(rio);
      if !accepted {
        return None;
      }
    }
    o := dbs;
  }
}
