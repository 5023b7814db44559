/**
 Whole dumps (rdb.c): how objects, keys with their expiries and databases stand in a dump file, what
 loading a file builds, and that loading what was saved gives back every database, less the keys
 that expired meanwhile.
 */
module RdbSnapshot {
  import opened Bytes
  import opened Endian
  import opened Reading
  import opened Wrappers
  import opened RdbFormat
  import opened Keyspace
  import opened Objects
  import Crc64
  import Decimal
  import Intset

  const TYPE_STRING: u8 := 0
  const TYPE_LIST: u8 := 1
  const TYPE_SET: u8 := 2
  const TYPE_HASH: u8 := 4
  const TYPE_LIST_ZIPLIST: u8 := 10
  const TYPE_SET_INTSET: u8 := 11
  const TYPE_HASH_ZIPLIST: u8 := 13
  const OPCODE_EXPIRETIME_MS: u8 := 252
  const OPCODE_EXPIRETIME: u8 := 253
  const OPCODE_SELECTDB: u8 := 254
  const OPCODE_EOF: u8 := 255

  // Objects --------------------------------------------------------------------------------------

  /** Objects in their encodings in memory: plain ones, in the order of their iterators, and those kept
      as one block of octets (a ziplist or an intset), whose type says what the block means. */
  datatype Object =
    | StringValue(text: StringObject)
    | LinkedList(items: seq<StringObject>)
    | TableSet(members: seq<StringObject>)
    | TableHash(args: seq<StringObject>)  // field, value, field, value, ...
    | Block(kind: u8, block: bytes)

  function TypeOf(o: Object): u8 {
    match o
    case StringValue(_) => TYPE_STRING
    case LinkedList(_) => TYPE_LIST
    case TableSet(_) => TYPE_SET
    case TableHash(_) => TYPE_HASH
    case Block(kind, _) => kind
  }

  /** The entries of a ziplist, for which ziplist.c is the reference. */
  type Ziplists = bytes -> seq<bytes>

  function HashOf(args: seq<bytes>): Option<Value> {
    if |args| % 2 == 0 && |Pairs(args)| * 2 == |args| then Some(Hash(Pairs(args))) else None
  }

  function Printed(vs: seq<int>): seq<bytes> {
    seq(|vs|, i requires 0 <= i < |vs| => Decimal.Print(vs[i]))
  }

  function BlockValue(kind: u8, block: bytes, zip: Ziplists): Option<Value> {
    if kind == TYPE_LIST_ZIPLIST then Some(List(zip(block)))
    else if kind == TYPE_SET_INTSET then Some(Set(ToSet(Printed(Intset.BlockNumbers(block)))))
    else if kind == TYPE_HASH_ZIPLIST then HashOf(zip(block))
    else None
  }

  /** What an object means; nothing if it is damaged. */
  function Meaning(o: Object, zip: Ziplists): Option<Value> {
    match o
    case StringValue(s) => Some(Str(Text(s)))
    case LinkedList(items) => Some(List(Texts(items)))
    case TableSet(members) => Some(Set(ToSet(Texts(members))))
    case TableHash(args) => HashOf(Texts(args))
    case Block(kind, block) => BlockValue(kind, block, zip)
  }

  // How they stand in a dump ---------------------------------------------------------------------

  ghost predicate StringCode(e: bytes, s: bytes) {
    exists f :: FormOf(f, s) && e == SaveString(f, s)
  }

  function Concat(es: seq<bytes>): bytes {
    if es == [] then [] else es[0] + Concat(es[1..])
  }

  ghost predicate StringCodes(es: seq<bytes>, ss: seq<bytes>) {
    |es| == |ss| && forall i :: 0 <= i < |es| ==> StringCode(es[i], ss[i])
  }

  /** A count, and as many strings. */
  ghost predicate ListCode(e: bytes, count: int, ss: seq<bytes>) {
    0 <= count < LENERR && exists es :: StringCodes(es, ss) && e == SaveLen(count) + Concat(es)
  }

  ghost predicate ObjectCode(e: bytes, o: Object) {
    match o
    case StringValue(s) => StringCode(e, Text(s))
    case LinkedList(items) => ListCode(e, |items|, Texts(items))
    case TableSet(members) => ListCode(e, |members|, Texts(members))
    case TableHash(args) => |args| % 2 == 0 && ListCode(e, |args| / 2, Texts(args))
    case Block(_, block) => StringCode(e, block)
  }

  /** A key with its value and its expiry, -1 for none. */
  datatype Entry = Entry(key: bytes, value: Object, expire: int)

  predicate Stale(e: Entry, now: int) {
    e.expire != -1 && e.expire < now
  }

  function ExpireCode(expire: int): bytes {
    if expire == -1 then [] else [OPCODE_EXPIRETIME_MS] + LittleEndian(expire, 8)
  }

  ghost predicate EntryCode(c: bytes, e: Entry) {
    exists k, v :: StringCode(k, e.key) && ObjectCode(v, e.value)
                   && c == ExpireCode(e.expire) + ([TypeOf(e.value)] + (k + v))
  }

  /** The entries of a database, of which those already stale are left out. */
  ghost predicate EntryCodes(cs: seq<bytes>, es: seq<Entry>, now: int) {
    |cs| == |es| && forall i :: 0 <= i < |es| ==> if Stale(es[i], now) then cs[i] == [] else EntryCode(cs[i], es[i])
  }

  ghost predicate DbCode(c: bytes, id: u32, es: seq<Entry>, now: int) {
    if es == [] then c == []
    else exists cs :: EntryCodes(cs, es, now) && c == [OPCODE_SELECTDB] + (SaveLen(id) + Concat(cs))
  }

  ghost predicate DbCodes(cs: seq<bytes>, dump: seq<seq<Entry>>, now: int) {
    |cs| == |dump| <= LENERR && forall i :: 0 <= i < |dump| ==> DbCode(cs[i], i, dump[i], now)
  }

  const MAGIC: bytes := [82, 69, 68, 73, 83]  // REDIS
  const VERSION: bytes := [48, 48, 48, 54]    // 0006

  function Checksum(body: bytes, summed: bool): nat {
    if summed then Crc64.Crc(0, body) as nat else 0
  }

  ghost predicate FileParts(file: bytes, cs: seq<bytes>, summed: bool) {
    var body := MAGIC + VERSION + (Concat(cs) + [OPCODE_EOF]);
    file == body + LittleEndian(Checksum(body, summed), 8)
  }

  /** A dump file: its name and version, the databases, and the checksum of all that (or 0). */
  ghost predicate FileCode(file: bytes, dump: seq<seq<Entry>>, now: int, summed: bool) {
    exists cs :: DbCodes(cs, dump, now) && FileParts(file, cs, summed)
  }

  // Loading --------------------------------------------------------------------------------------

  function LoadStrings(src: bytes, pos: nat, n: nat): (r: Option<Read<seq<bytes>>>)
    ensures r.Some? ==> |r.value.value| == n && pos <= r.value.pos && (pos <= |src| ==> r.value.pos <= |src|)
    decreases n
  {
    if n == 0 then Some(Read([], pos))
    else
      var first := LoadString(src, pos);
      if first.None? then None
      else
        var rest := LoadStrings(src, first.value.pos, n - 1);
        if rest.None? then None else Some(Read([first.value.value] + rest.value.value, rest.value.pos))
  }

  function With<T>(v: Option<T>, pos: nat): Option<Read<T>> {
    if v.None? then None else Some(Read(v.value, pos))
  }

  /** A count and that many strings, or pairs of strings. */
  function LoadList(src: bytes, pos: nat, each: nat): (r: Option<Read<seq<bytes>>>)
    ensures r.Some? ==> pos < r.value.pos <= |src|
  {
    var len := LoadLen(src, pos);
    if len.None? || AnyLength(len.value.value) == LENERR then None
    else LoadStrings(src, len.value.pos, each * AnyLength(len.value.value))
  }

  /** rdbLoadObject, up to the encoding in memory that it chooses for what it read. */
  function LoadObject(src: bytes, pos: nat, kind: u8, zip: Ziplists): (r: Option<Read<Value>>)
    ensures r.Some? ==> pos < r.value.pos <= |src|
  {
    if kind == TYPE_STRING then
      var s := LoadString(src, pos);
      if s.None? then None else Some(Read(Str(s.value.value), s.value.pos))
    else if kind == TYPE_LIST then
      var items := LoadList(src, pos, 1);
      if items.None? then None else Some(Read(List(items.value.value), items.value.pos))
    else if kind == TYPE_SET then
      var items := LoadList(src, pos, 1);
      if items.None? then None else Some(Read(Set(ToSet(items.value.value)), items.value.pos))
    else if kind == TYPE_HASH then
      var items := LoadList(src, pos, 2);
      if items.None? then None else With(HashOf(items.value.value), items.value.pos)
    else if kind == TYPE_LIST_ZIPLIST || kind == TYPE_SET_INTSET || kind == TYPE_HASH_ZIPLIST then
      var s := LoadString(src, pos);
      if s.None? then None else With(BlockValue(kind, s.value.value, zip), s.value.pos)
    else None
  }

  /** What precedes a key: its expiry, and the type of its value or an opcode. */
  datatype Header = Header(expire: int, kind: u8)

  function LoadExpire(src: bytes, pos: nat): Option<Read<int>> {
    if pos >= |src| then None
    else if src[pos] == OPCODE_EXPIRETIME || src[pos] == OPCODE_EXPIRETIME_MS then
      var ms := src[pos] == OPCODE_EXPIRETIME_MS;
      var raw := Take(src, pos + 1, if ms then 8 else 4);
      if raw.None? || Signed(raw.value) == -1 then None
      else Some(Read(if ms then Signed(raw.value) else Signed(raw.value) * 1000, pos + 1 + |raw.value|))
    else Some(Read(-1, pos))
  }

  function LoadHeader(src: bytes, pos: nat): (r: Option<Read<Header>>)
    ensures r.Some? ==> pos < r.value.pos <= |src|
  {
    var e := LoadExpire(src, pos);
    if e.None? || e.value.pos >= |src| then None
    else Some(Read(Header(e.value.value, src[e.value.pos]), e.value.pos + 1))
  }

  /** Adds a key to a database, unless it has expired; a key twice is fatal. */
  function AddKey(db: Db, key: bytes, v: Value, expire: int, now: int, master: bool): Option<Db> {
    if master && expire != -1 && expire < now then Some(db)
    else if key in db.dict then None
    else Some(Db(db.dict[key := v], if expire != -1 then db.expires[key := expire] else db.expires))
  }

  /** The loop of rdbLoad from `pos` to the end marker. */
  function LoadFrom(src: bytes, pos: nat, dbs: seq<Db>, sel: nat, now: int, master: bool,
                    zip: Ziplists): Option<Read<seq<Db>>>
    requires sel < |dbs|
    decreases |src| - pos
  {
    var h := LoadHeader(src, pos);
    if h.None? then None
    else if h.value.value.kind == OPCODE_EOF then Some(Read(dbs, h.value.pos))
    else if h.value.value.kind == OPCODE_SELECTDB then
      var id := LoadLen(src, h.value.pos);
      if id.None? || AnyLength(id.value.value) >= |dbs| then None
      else LoadFrom(src, id.value.pos, dbs, AnyLength(id.value.value), now, master, zip)
    else
      var key := LoadString(src, h.value.pos);
      if key.None? then None
      else
        var v := LoadObject(src, key.value.pos, h.value.value.kind, zip);
        if v.None? then None
        else
          var db := AddKey(dbs[sel], key.value.value, v.value.value, h.value.value.expire, now, master);
          if db.None? then None else LoadFrom(src, v.value.pos, dbs[sel := db.value], sel, now, master, zip)
  }

  /** Zero means that the file was saved without a checksum. */
  function ChecksumAccepted(src: bytes, pos: nat): bool {
    var raw := Take(src, pos, 8);
    raw.Some? && (FromLittleEndian(raw.value) == 0 || FromLittleEndian(raw.value) == Checksum(src[..pos], true))
  }

  /** rdbLoad: the databases after loading a file into `dbs`, or nothing when it refuses or gives up. */
  function LoadFile(src: bytes, dbs: seq<Db>, now: int, master: bool, summed: bool, zip: Ziplists): Option<seq<Db>>
    requires dbs != []
  {
    if |src| < 9 || src[..5] != MAGIC || !(1 <= Decimal.Atoi(src[5..9]) <= 6) then None
    else
      var loaded := LoadFrom(src, 9, dbs, 0, now, master, zip);
      if loaded.None? then None
      else if Decimal.Atoi(src[5..9]) >= 5 && summed && !ChecksumAccepted(src, loaded.value.pos) then None
      else Some(loaded.value.value)
  }

  // Loading what was saved -----------------------------------------------------------------------

  lemma CodeLoads(e: bytes, s: bytes, src: bytes, pos: nat)
    requires StringCode(e, s) && Stands(src, pos, e)
    ensures LoadString(src, pos) == Some(Read(s, pos + |e|))
  {
    hide LoadString;
    var f :| FormOf(f, s) && e == SaveString(f, s);
    StringRoundTrip(f, s, src, pos);
  }

  lemma {:induction false} CodesLoad(es: seq<bytes>, ss: seq<bytes>, src: bytes, pos: nat)
    requires StringCodes(es, ss) && Stands(src, pos, Concat(es))
    ensures LoadStrings(src, pos, |ss|) == Some(Read(ss, pos + |Concat(es)|))
    decreases |es|
  {
    hide LoadString, StringCode;
    if es != [] {
      StandsApart(src, pos, es[0], Concat(es[1..]));
      assert StringCode(es[0], ss[0]);
      CodeLoads(es[0], ss[0], src, pos);
      assert forall i :: 0 <= i < |es| - 1 ==> es[1..][i] == es[i + 1] && ss[1..][i] == ss[i + 1];
      CodesLoad(es[1..], ss[1..], src, pos + |es[0]|);
      assert ss == [ss[0]] + ss[1..];
    } else {
      assert ss == [];
    }
  }

  lemma ListLoads(e: bytes, count: int, each: nat, ss: seq<bytes>, src: bytes, pos: nat)
    requires ListCode(e, count, ss) && |ss| == each * count && Stands(src, pos, e)
    ensures LoadList(src, pos, each) == Some(Read(ss, pos + |e|))
  {
    hide LoadLen, SaveLen, LoadStrings, Concat, StringCodes;
    var es :| StringCodes(es, ss) && e == SaveLen(count) + Concat(es);
    StandsApart(src, pos, SaveLen(count), Concat(es));
    LenRoundTrip(count, src, pos);
    CodesLoad(es, ss, src, pos + |SaveLen(count)|);
  }

  /** An object loads as what it means. */
  lemma ObjectLoads(e: bytes, o: Object, src: bytes, pos: nat, zip: Ziplists)
    requires ObjectCode(e, o) && Stands(src, pos, e) && Meaning(o, zip).Some?
    ensures LoadObject(src, pos, TypeOf(o), zip) == Some(Read(Meaning(o, zip).value, pos + |e|))
  {
    hide LoadString, StringCode, LoadList, ListCode, HashOf, Stands, Texts, Intset.BlockNumbers;
    match o
    case StringValue(s) => CodeLoads(e, Text(s), src, pos);
    case LinkedList(items) => ListLoads(e, |items|, 1, Texts(items), src, pos);
    case TableSet(members) => ListLoads(e, |members|, 1, Texts(members), src, pos);
    case TableHash(args) => ListLoads(e, |args| / 2, 2, Texts(args), src, pos);
    case Block(_, block) => CodeLoads(e, block, src, pos);
  }

  /** An entry that can be restored: its value is not damaged, and its expiry is a time. */
  predicate Sound(e: Entry, zip: Ziplists) {
    && Meaning(e.value, zip).Some?
    && (e.expire == -1 || 0 <= e.expire <= Decimal.LLONG_MAX)
  }

  ghost predicate AllSound(es: seq<Entry>, zip: Ziplists) {
    forall i :: 0 <= i < |es| ==> Sound(es[i], zip)
  }

  lemma TypeByte(src: bytes, pos: nat, kind: u8, k: bytes, v: bytes)
    requires Stands(src, pos, [kind] + (k + v))
    ensures src[pos] == kind && Stands(src, pos + 1, k) && Stands(src, pos + 1 + |k|, v)
  {
    StandsApart(src, pos, [kind], k + v);
    StandsApart(src, pos + 1, k, v);
    assert src[pos] == src[pos..pos + 1][0];
  }

  lemma Power256Of8()
    ensures Power256(8) == TWO_TO_THE_64
  {
    assert Power256(2) == 0x1_0000 && Power256(4) == 0x1_0000 * Power256(2);
    assert Power256(8) == 0x1_0000 * (0x1_0000 * Power256(4));
  }

  lemma HeaderLoads(src: bytes, pos: nat, expire: int, kind: u8, rest: bytes)
    requires expire == -1 || 0 <= expire <= Decimal.LLONG_MAX
    requires kind < OPCODE_EXPIRETIME_MS || kind > OPCODE_EXPIRETIME
    requires Stands(src, pos, ExpireCode(expire) + ([kind] + rest))
    ensures LoadHeader(src, pos) == Some(Read(Header(expire, kind), pos + |ExpireCode(expire)| + 1))
  {
    hide Signed, LittleEndian, Power256;
    StandsApart(src, pos, ExpireCode(expire), [kind] + rest);
    TypeByte(src, pos + |ExpireCode(expire)|, kind, rest, []) by {
      assert rest + [] == rest;
    }
    if expire != -1 {
      StandsApart(src, pos, [OPCODE_EXPIRETIME_MS], LittleEndian(expire, 8));
      assert src[pos] == src[pos..pos + 1][0];
      Power256Of8();
      SignedInverse(expire, 8);
    }
  }

  /** The three parts of an entry: what precedes it, its key, and its value at position `at`. */
  lemma EntryParts(c: bytes, e: Entry, src: bytes, pos: nat, zip: Ziplists) returns (key: nat, at: nat)
    requires EntryCode(c, e) && Sound(e, zip) && Stands(src, pos, c)
    ensures LoadHeader(src, pos) == Some(Read(Header(e.expire, TypeOf(e.value)), key))
    ensures LoadString(src, key) == Some(Read(e.key, at))
    ensures LoadObject(src, at, TypeOf(e.value), zip) == Some(Read(Meaning(e.value, zip).value, pos + |c|))
  {
    hide LoadString, LoadObject, LoadHeader, StringCode, ObjectCode, ExpireCode, Stands;
    var k, v :| StringCode(k, e.key) && ObjectCode(v, e.value)
        && c == ExpireCode(e.expire) + ([TypeOf(e.value)] + (k + v));
    HeaderLoads(src, pos, e.expire, TypeOf(e.value), k + v);
    var x := ExpireCode(e.expire);
    StandsApart(src, pos, x, [TypeOf(e.value)] + (k + v));
    TypeByte(src, pos + |x|, TypeOf(e.value), k, v);
    key := pos + |x| + 1;
    at := key + |k|;
    CodeLoads(k, e.key, src, key);
    ObjectLoads(v, e.value, src, at, zip);
  }

  /** One entry is one step of the loader. */
  lemma EntryLoads(c: bytes, e: Entry, src: bytes, pos: nat, dbs: seq<Db>, sel: nat, now: int, master: bool,
                   zip: Ziplists)
    requires sel < |dbs| && EntryCode(c, e) && Sound(e, zip) && Stands(src, pos, c)
    ensures var db := AddKey(dbs[sel], e.key, Meaning(e.value, zip).value, e.expire, now, master);
            LoadFrom(src, pos, dbs, sel, now, master, zip)
            == if db.None? then None else LoadFrom(src, pos + |c|, dbs[sel := db.value], sel, now, master, zip)
  {
    hide LoadString, LoadObject, LoadHeader, EntryCode, Stands, AddKey;
    var key, at := EntryParts(c, e, src, pos, zip);
  }

  lemma SelectHeader(src: bytes, pos: nat)
    requires pos < |src| && src[pos] == OPCODE_SELECTDB
    ensures LoadHeader(src, pos) == Some(Read(Header(-1, OPCODE_SELECTDB), pos + 1))
  {}

  lemma SelectLoads(id: u32, rest: bytes, src: bytes, pos: nat, dbs: seq<Db>, sel: nat, now: int, master: bool,
                    zip: Ziplists)
    requires sel < |dbs| && id < |dbs| && Stands(src, pos, [OPCODE_SELECTDB] + (SaveLen(id) + rest))
    ensures var next := pos + 1 + |SaveLen(id)|;
            && Stands(src, next, rest)
            && LoadFrom(src, pos, dbs, sel, now, master, zip) == LoadFrom(src, next, dbs, id, now, master, zip)
  {
    hide LoadLen, SaveLen, Stands, LoadHeader, LoadString, LoadObject, AddKey;
    TypeByte(src, pos, OPCODE_SELECTDB, SaveLen(id), rest);
    InRange(src, pos, [OPCODE_SELECTDB] + (SaveLen(id) + rest));
    SelectHeader(src, pos);
    InRange(src, pos + 1, SaveLen(id));
    LenRoundTrip(id, src, pos + 1);
  }

  // A database ------------------------------------------------------------------------------------

  /** What is left of some entries at time `now`. */
  function Restored(es: seq<Entry>, now: int, zip: Ziplists): Db
    requires AllSound(es, zip)
  {
    if es == [] then EMPTY_DB
    else
      var e := es[|es| - 1];
      var db := Restored(es[..|es| - 1], now, zip);
      if Stale(e, now) then db
      else
        Db(db.dict[e.key := Meaning(e.value, zip).value],
           if e.expire != -1 then db.expires[e.key := e.expire] else db.expires)
  }

  ghost predicate DistinctKeys(es: seq<Entry>) {
    forall i, j :: 0 <= i < j < |es| ==> es[i].key != es[j].key
  }

  lemma {:induction false} RestoredKeys(es: seq<Entry>, now: int, zip: Ziplists, k: bytes)
    requires AllSound(es, zip) && (forall i :: 0 <= i < |es| ==> es[i].key != k)
    ensures k !in Restored(es, now, zip).dict && k !in Restored(es, now, zip).expires
    decreases |es|
  {
    if es != [] {
      RestoredKeys(es[..|es| - 1], now, zip, k);
    }
  }

  /** Up to when a loader drops what has expired: a replica leaves that to its master, and gets what had
      not expired when the dump was saved. */
  function Cut(saved: int, now: int, master: bool): int {
    if master then now else saved
  }

  lemma RestoredMore(done: seq<Entry>, e: Entry, saved: int, now: int, master: bool, zip: Ziplists)
    requires AllSound(done + [e], zip) && DistinctKeys(done + [e]) && Sound(e, zip) && saved <= now
    ensures AllSound(done, zip)
    ensures var cut := Cut(saved, now, master);
            if Stale(e, saved) then Restored(done + [e], cut, zip) == Restored(done, cut, zip)
            else AddKey(Restored(done, cut, zip), e.key, Meaning(e.value, zip).value, e.expire, now, master)
                 == Some(Restored(done + [e], cut, zip))
  {
    var es := done + [e];
    assert es[..|es| - 1] == done && es[|es| - 1] == e;
    assert forall i :: 0 <= i < |done| ==> done[i] == es[i];
    RestoredKeys(done, Cut(saved, now, master), zip, e.key);
  }

  /** The entries of a database, one after the other; those left out of the dump would not have
      survived either. */
  lemma {:induction false} EntriesLoad(cs: seq<bytes>, es: seq<Entry>, done: seq<Entry>, src: bytes, pos: nat,
                                       dbs: seq<Db>, sel: nat,
                                       saved: int, now: int, master: bool, zip: Ziplists)
    requires sel < |dbs| && saved <= now && EntryCodes(cs, es, saved) && Stands(src, pos, Concat(cs))
    requires AllSound(done + es, zip) && DistinctKeys(done + es)
    requires AllSound(done, zip) && dbs[sel] == Restored(done, Cut(saved, now, master), zip)
    ensures LoadFrom(src, pos, dbs, sel, now, master, zip)
            == LoadFrom(src, pos + |Concat(cs)|, dbs[sel := Restored(done + es, Cut(saved, now, master), zip)], sel,
                        now, master, zip)
    decreases |es|
  {
    hide EntryCode, Stands, LoadFrom, Restored, AddKey;
    if es == [] {
      assert done + es == done && dbs[sel := dbs[sel]] == dbs;
    } else {
      var c, e, more := cs[0], es[0], done + [es[0]];
      StandsApart(src, pos, c, Concat(cs[1..]));
      assert done + es == more + es[1..];
      assert forall i :: 0 <= i < |more| ==> more[i] == (done + es)[i];
      assert (done + es)[|done|] == e;
      RestoredMore(done, e, saved, now, master, zip);
      var dbs' := dbs[sel := Restored(more, Cut(saved, now, master), zip)];
      if Stale(e, saved) {
        assert dbs' == dbs && c == [];
      } else {
        EntryLoads(c, e, src, pos, dbs, sel, now, master, zip);
      }
      assert forall i :: 0 <= i < |es| - 1 ==> es[1..][i] == es[i + 1] && cs[1..][i] == cs[i + 1];
      EntriesLoad(cs[1..], es[1..], more, src, pos + |c|, dbs', sel, saved, now, master, zip);
      var all := Restored(done + es, Cut(saved, now, master), zip);
      assert dbs'[sel := all] == dbs[sel := all];
    }
  }

  // All databases --------------------------------------------------------------------------------

  ghost predicate DumpSound(dump: seq<seq<Entry>>, zip: Ziplists) {
    forall i :: 0 <= i < |dump| ==> AllSound(dump[i], zip) && DistinctKeys(dump[i])
  }

  /** The first `n` databases are restored, the others still empty. */
  ghost predicate Partly(dbs: seq<Db>, dump: seq<seq<Entry>>, n: nat, now: int, zip: Ziplists)
    requires DumpSound(dump, zip)
  {
    && |dbs| == |dump|
    && forall i :: 0 <= i < |dbs| ==> dbs[i] == if i < n then Restored(dump[i], now, zip) else EMPTY_DB
  }

  lemma PartlyMore(dbs: seq<Db>, dump: seq<seq<Entry>>, n: nat, now: int, zip: Ziplists)
    requires n < |dump| && DumpSound(dump, zip) && Partly(dbs, dump, n, now, zip)
    ensures AllSound(dump[n], zip) && DistinctKeys(dump[n]) && |dbs| == |dump| && dbs[n] == EMPTY_DB
    ensures Partly(dbs[n := Restored(dump[n], now, zip)], dump, n + 1, now, zip)
  {}

  lemma NothingRestored(dbs: seq<Db>, n: nat, now: int, zip: Ziplists)
    requires n < |dbs| && dbs[n] == EMPTY_DB && AllSound([], zip)
    ensures dbs[n := Restored([], now, zip)] == dbs
  {}

  lemma EntriesFromStart(cs: seq<bytes>, es: seq<Entry>, src: bytes, pos: nat, dbs: seq<Db>, sel: nat, saved: int,
                         now: int, master: bool, zip: Ziplists)
    requires sel < |dbs| && saved <= now && EntryCodes(cs, es, saved) && Stands(src, pos, Concat(cs))
    requires AllSound(es, zip) && DistinctKeys(es) && dbs[sel] == EMPTY_DB
    ensures LoadFrom(src, pos, dbs, sel, now, master, zip)
            == LoadFrom(src, pos + |Concat(cs)|, dbs[sel := Restored(es, Cut(saved, now, master), zip)], sel,
                        now, master, zip)
  {
    hide LoadFrom, Stands, Concat, EntryCodes;
    assert [] + es == es;
    EntriesLoad(cs, es, [], src, pos, dbs, sel, saved, now, master, zip);
  }

  /** One database of the dump. */
  lemma DbLoads(c: bytes, es: seq<Entry>, n: nat, src: bytes, pos: nat, dbs: seq<Db>, sel: nat, saved: int, now: int,
                master: bool, zip: Ziplists) returns (sel': nat)
    requires n < |dbs| < LENERR && AllSound(es, zip) && DistinctKeys(es) && dbs[n] == EMPTY_DB
    requires sel < |dbs| && saved <= now && DbCode(c, n, es, saved) && Stands(src, pos, c)
    ensures sel' < |dbs|
    ensures LoadFrom(src, pos, dbs, sel, now, master, zip)
            == LoadFrom(src, pos + |c|, dbs[n := Restored(es, Cut(saved, now, master), zip)], sel', now, master, zip)
  {
    hide LoadFrom, SaveLen, Stands, Restored, Concat, EntryCodes, AllSound, DistinctKeys;
    if es == [] {
      sel' := sel;
      NothingRestored(dbs, n, Cut(saved, now, master), zip);
    } else {
      var cs :| EntryCodes(cs, es, saved) && c == [OPCODE_SELECTDB] + (SaveLen(n) + Concat(cs));
      SelectLoads(n, Concat(cs), src, pos, dbs, sel, now, master, zip);
      EntriesFromStart(cs, es, src, pos + 1 + |SaveLen(n)|, dbs, n, saved, now, master, zip);
      sel' := n;
    }
  }

  lemma EndLoads(src: bytes, pos: nat, dbs: seq<Db>, sel: nat, now: int, master: bool, zip: Ziplists)
    requires sel < |dbs| && Stands(src, pos, [] + [OPCODE_EOF])
    ensures LoadFrom(src, pos, dbs, sel, now, master, zip) == Some(Read(dbs, pos + 1))
  {
    assert src[pos] == src[pos..pos + 1][0];
  }

  lemma RestOfDump(cs: seq<bytes>)
    requires cs != []
    ensures Concat(cs) + [OPCODE_EOF] == cs[0] + (Concat(cs[1..]) + [OPCODE_EOF])
    ensures |Concat(cs)| == |cs[0]| + |Concat(cs[1..])|
  {}

  /** The rest of the dump, from database `n` on. */
  lemma {:induction false} DumpLoads(cs: seq<bytes>, dump: seq<seq<Entry>>, n: nat, src: bytes, pos: nat,
                                     dbs: seq<Db>, sel: nat,
                                     saved: int, now: int, master: bool, zip: Ziplists) returns (loaded: seq<Db>)
    requires n <= |dump| < LENERR && DumpSound(dump, zip) && Partly(dbs, dump, n, Cut(saved, now, master), zip)
    requires sel < |dbs| && saved <= now && DbCodes(cs, dump, saved)
    requires Stands(src, pos, Concat(cs[n..]) + [OPCODE_EOF])
    ensures Partly(loaded, dump, |dump|, Cut(saved, now, master), zip)
    ensures LoadFrom(src, pos, dbs, sel, now, master, zip) == Some(Read(loaded, pos + |Concat(cs[n..])| + 1))
    decreases |dump| - n
  {
    hide LoadFrom, Stands, DbCode, Restored, Partly;
    if n == |dump| {
      EndLoads(src, pos, dbs, sel, now, master, zip);
      loaded := dbs;
    } else {
      RestOfDump(cs[n..]);
      PartlyMore(dbs, dump, n, Cut(saved, now, master), zip);
      assert cs[n..][1..] == cs[n + 1..] && cs[n..][0] == cs[n];
      hide Concat, DumpSound;
      StandsApart(src, pos, cs[n], Concat(cs[n + 1..]) + [OPCODE_EOF]);
      var sel' := DbLoads(cs[n], dump[n], n, src, pos, dbs, sel, saved, now, master, zip);
      var dbs' := dbs[n := Restored(dump[n], Cut(saved, now, master), zip)];
      loaded := DumpLoads(cs, dump, n + 1, src, pos + |cs[n]|, dbs', sel', saved, now, master, zip);
    }
  }

  // The round trip -------------------------------------------------------------------------------

  predicate Visits(e: Entry, db: Db, zip: Ziplists) {
    && e.key in db.dict && Meaning(e.value, zip) == Some(db.dict[e.key])
    && e.expire == GetExpire(db, e.key)
  }

  /** One visit of a database by its iterator: every key once, with its value and its expiry. */
  ghost predicate ListsDb(es: seq<Entry>, db: Db, zip: Ziplists) {
    && DistinctKeys(es)
    && (forall i :: 0 <= i < |es| ==> Visits(es[i], db, zip))
    && (forall k :: k in db.dict ==> exists i :: 0 <= i < |es| && es[i].key == k)
  }

  /** The keys that have not expired by `now`, at their very expiry time included. */
  function Live(db: Db, now: int): Db {
    Db(map k | k in db.dict && !(k in db.expires && db.expires[k] < now) :: db.dict[k],
       map k | k in db.expires && !(db.expires[k] < now) :: db.expires[k])
  }

  function LiveAll(dbs: seq<Db>, now: int): (r: seq<Db>)
    ensures |r| == |dbs|
  {
    seq(|dbs|, i requires 0 <= i < |dbs| => Live(dbs[i], now))
  }

  /** A database as it can be: Keyspace's invariant, and expiries of 64 bits. */
  ghost predicate Storable(db: Db) {
    DbValid(db) && forall k :: k in db.expires ==> db.expires[k] <= Decimal.LLONG_MAX
  }

  lemma {:induction false} RestoredEntry(es: seq<Entry>, now: int, zip: Ziplists, i: nat)
    requires AllSound(es, zip) && DistinctKeys(es) && i < |es|
    ensures var db, e := Restored(es, now, zip), es[i];
            if Stale(e, now) then e.key !in db.dict && e.key !in db.expires
            else && e.key in db.dict && db.dict[e.key] == Meaning(e.value, zip).value
                 && if e.expire == -1 then e.key !in db.expires
                    else e.key in db.expires && db.expires[e.key] == e.expire
    decreases |es|
  {
    hide Meaning;
    var init := es[..|es| - 1];
    if i == |es| - 1 {
      RestoredKeys(init, now, zip, es[i].key);
    } else {
      RestoredEntry(init, now, zip, i);
    }
  }

  lemma ListedSound(es: seq<Entry>, db: Db, zip: Ziplists)
    requires ListsDb(es, db, zip) && Storable(db)
    ensures AllSound(es, zip) && DistinctKeys(es)
  {
    hide Meaning;
    forall i | 0 <= i < |es|
      ensures Sound(es[i], zip)
    {
      assert Visits(es[i], db, zip);
    }
  }

  predicate SameAt(a: Db, b: Db, k: bytes) {
    && (k in a.dict <==> k in b.dict) && (k in a.dict ==> a.dict[k] == b.dict[k])
    && (k in a.expires <==> k in b.expires) && (k in a.expires ==> a.expires[k] == b.expires[k])
  }

  lemma RestoredKey(es: seq<Entry>, db: Db, now: int, zip: Ziplists, k: bytes)
    requires ListsDb(es, db, zip) && Storable(db) && AllSound(es, zip)
    ensures SameAt(Restored(es, now, zip), Live(db, now), k)
  {
    hide Restored, Meaning;
    if k in db.dict {
      var i :| 0 <= i < |es| && es[i].key == k;
      assert Visits(es[i], db, zip);
      RestoredEntry(es, now, zip, i);
    } else {
      forall i | 0 <= i < |es|
        ensures es[i].key != k
      {
        assert Visits(es[i], db, zip);
      }
      RestoredKeys(es, now, zip, k);
    }
  }

  lemma RestoredIsLive(es: seq<Entry>, db: Db, now: int, zip: Ziplists)
    requires ListsDb(es, db, zip) && Storable(db) && AllSound(es, zip)
    ensures Restored(es, now, zip) == Live(db, now)
  {
    hide Restored, Meaning, Live, AllSound, ListsDb, Storable;
    var r, l := Restored(es, now, zip), Live(db, now);
    forall k
      ensures (k in r.dict <==> k in l.dict) && (k in r.dict ==> r.dict[k] == l.dict[k])
      ensures (k in r.expires <==> k in l.expires) && (k in r.expires ==> r.expires[k] == l.expires[k])
    {
      RestoredKey(es, db, now, zip, k);
    }
  }

  lemma VersionReads()
    ensures Decimal.Atoi(VERSION) == 6
  {
    var d := VERSION;
    assert Decimal.LeadingDigits(d[1..][1..][1..][1..], 6) == 6;
    assert Decimal.LeadingDigits(d[1..][1..][1..], 0) == 6;
    assert Decimal.LeadingDigits(d[1..][1..], 0) == 6;
    assert Decimal.LeadingDigits(d[1..], 0) == 6;
  }

  lemma Slices(m: bytes, v: bytes, dump: bytes, sum: bytes)
    requires |m| == 5 && |v| == 4
    ensures var body := m + v + dump; var file := body + sum;
            && |body| == 9 + |dump| && file[..5] == m && file[5..9] == v && file[9..9 + |dump|] == dump
            && file[..|body|] == body && file[|body|..|body| + |sum|] == sum
  {}

  lemma ChecksumSmall(body: bytes, summed: bool)
    ensures Checksum(body, summed) < TWO_TO_THE_64
  {
    hide Crc64.Crc;
  }

  lemma SumAccepted(file: bytes, body: bytes, summed: bool)
    requires |file| == |body| + 8 && file[..|body|] == body
    requires file[|body|..|body| + 8] == LittleEndian(Checksum(body, summed), 8)
    ensures ChecksumAccepted(file, |body|)
  {
    hide Crc64.Crc, LittleEndian, FromLittleEndian;
    Power256Of8();
    LittleEndianInverse(Checksum(body, summed), 8);
    ChecksumSmall(body, summed);
  }

  lemma FileStands(file: bytes, cs: seq<bytes>, summed: bool)
    requires FileParts(file, cs, summed)
    ensures |file| >= 9 && file[..5] == MAGIC && Decimal.Atoi(file[5..9]) == 6
    ensures Stands(file, 9, Concat(cs[0..]) + [OPCODE_EOF])
    ensures ChecksumAccepted(file, 9 + |Concat(cs[0..])| + 1)
  {
    hide Concat, Checksum, LittleEndian, FromLittleEndian, Decimal.Atoi, ChecksumAccepted;
    VersionReads();
    assert cs[0..] == cs;
    var dump := Concat(cs) + [OPCODE_EOF];
    var body := MAGIC + VERSION + dump;
    Slices(MAGIC, VERSION, dump, LittleEndian(Checksum(body, summed), 8));
    SumAccepted(file, body, summed);
  }

  function EmptyDbs(n: nat): (r: seq<Db>)
    ensures |r| == n
  {
    seq(n, _ => EMPTY_DB)
  }

  ghost predicate ListsAll(dump: seq<seq<Entry>>, dbs: seq<Db>, zip: Ziplists) {
    |dump| == |dbs| && forall i :: 0 <= i < |dbs| ==> ListsDb(dump[i], dbs[i], zip) && Storable(dbs[i])
  }

  lemma AllListedSound(dump: seq<seq<Entry>>, dbs: seq<Db>, zip: Ziplists)
    requires ListsAll(dump, dbs, zip)
    ensures DumpSound(dump, zip)
  {
    hide ListsDb, Storable, AllSound, DistinctKeys;
    forall i | 0 <= i < |dump|
      ensures AllSound(dump[i], zip) && DistinctKeys(dump[i])
    {
      ListedSound(dump[i], dbs[i], zip);
    }
  }

  lemma AllRestoredLive(loaded: seq<Db>, dump: seq<seq<Entry>>, dbs: seq<Db>, now: int, zip: Ziplists)
    requires ListsAll(dump, dbs, zip) && DumpSound(dump, zip) && Partly(loaded, dump, |dump|, now, zip)
    ensures loaded == LiveAll(dbs, now)
  {
    hide ListsDb, Storable, Restored, AllSound, DistinctKeys, Live;
    forall i | 0 <= i < |dbs|
      ensures loaded[i] == Live(dbs[i], now)
    {
      RestoredIsLive(dump[i], dbs[i], now, zip);
    }
  }

  lemma ListsEach(dump: seq<seq<Entry>>, dbs: seq<Db>, zip: Ziplists)
    requires ListsAll(dump, dbs, zip)
    ensures |dump| == |dbs|
  {}

  lemma NoneYet(dump: seq<seq<Entry>>, now: int, zip: Ziplists)
    requires DumpSound(dump, zip)
    ensures Partly(EmptyDbs(|dump|), dump, 0, now, zip)
  {}

  lemma DumpRestores(file: bytes, cs: seq<bytes>, dump: seq<seq<Entry>>, dbs: seq<Db>, saved: int, now: int,
                     master: bool, zip: Ziplists)
    requires 0 < |dump| < LENERR && ListsAll(dump, dbs, zip) && saved <= now && DbCodes(cs, dump, saved)
    requires Stands(file, 9, Concat(cs[0..]) + [OPCODE_EOF])
    ensures LoadFrom(file, 9, EmptyDbs(|dbs|), 0, now, master, zip)
            == Some(Read(LiveAll(dbs, Cut(saved, now, master)), 9 + |Concat(cs[0..])| + 1))
  {
    hide ListsAll, LoadFrom, DbCodes, DumpSound, Concat, LiveAll, Stands, Partly, Restored, EmptyDbs;
    ListsEach(dump, dbs, zip);
    AllListedSound(dump, dbs, zip);
    NoneYet(dump, Cut(saved, now, master), zip);
    var loaded := DumpLoads(cs, dump, 0, file, 9, EmptyDbs(|dbs|), 0, saved, now, master, zip);
    AllRestoredLive(loaded, dump, dbs, Cut(saved, now, master), zip);
  }

  /** Loading, at any later time, what was saved gives every database back exactly, less the keys that
      had expired by then, or on a replica less those that had expired when it was saved; with or without
      checksums. */
  lemma SnapshotRoundTrip(file: bytes, dump: seq<seq<Entry>>, dbs: seq<Db>, saved: int, now: int, master: bool,
                          summed: bool, checked: bool, zip: Ziplists)
    requires FileCode(file, dump, saved, summed) && saved <= now
    requires 0 < |dbs| < LENERR && ListsAll(dump, dbs, zip)
    ensures LoadFile(file, EmptyDbs(|dbs|), now, master, checked, zip) == Some(LiveAll(dbs, Cut(saved, now, master)))
  {
    ListsEach(dump, dbs, zip);
    hide ListsAll, LoadFile, DbCodes, Concat, LiveAll, ChecksumAccepted, Stands, Decimal.Atoi, EmptyDbs;
    var cs :| DbCodes(cs, dump, saved) && FileParts(file, cs, summed);
    FileStands(file, cs, summed);
    hide FileParts;
    DumpRestores(file, cs, dump, dbs, saved, now, master, zip);
  }
}
