/**
 Dumps that are damaged or cut short (rdb.c): what the loader refuses, whatever it has read by then. And
 what a dump of nothing is.
 */
module RdbLaws {
  import opened Bytes
  import opened Endian
  import opened Reading
  import opened Wrappers
  import opened RdbFormat
  import opened RdbSnapshot
  import opened Keyspace
  import opened Objects
  import Crc64
  import Decimal
  import LzfFormat

  // The checksum ---------------------------------------------------------------------------------

  /** Where the loop of the loader ends, if it does. */
  function LoopEnd(src: bytes, dbs: seq<Db>, now: int, master: bool, zip: Ziplists): Option<nat>
    requires dbs != []
  {
    var r := LoadFrom(src, 9, dbs, 0, now, master, zip);
    if r.None? then None else Some(r.value.pos)
  }

  const NO_SUM: bytes := [0, 0, 0, 0, 0, 0, 0, 0]

  function SumOf(body: bytes): bytes {
    LittleEndian(Crc64.Crc(0, body) as nat, 8)
  }

  lemma {:induction false} FromInjective(a: bytes, b: bytes)
    requires |a| == |b|
    ensures FromLittleEndian(a) == FromLittleEndian(b) ==> a == b
    decreases |a|
  {
    if a != [] && FromLittleEndian(a) == FromLittleEndian(b) {
      FromInjective(a[1..], b[1..]);
      assert a == [a[0]] + a[1..] && b == [b[0]] + b[1..];
    }
  }

  lemma NoSumIsZero()
    ensures FromLittleEndian(NO_SUM) == 0
  {
    assert FromLittleEndian(NO_SUM[1..][1..][1..][1..][1..][1..][1..][1..]) == 0;
    assert FromLittleEndian(NO_SUM[1..][1..][1..][1..][1..][1..][1..]) == 0;
    assert FromLittleEndian(NO_SUM[1..][1..][1..][1..][1..][1..]) == 0;
    assert FromLittleEndian(NO_SUM[1..][1..][1..][1..][1..]) == 0;
    assert FromLittleEndian(NO_SUM[1..][1..][1..][1..]) == 0;
    assert FromLittleEndian(NO_SUM[1..][1..][1..]) == 0;
    assert FromLittleEndian(NO_SUM[1..][1..]) == 0;
    assert FromLittleEndian(NO_SUM[1..]) == 0;
  }

  lemma SumIsChecksum(body: bytes)
    ensures SumOf(body) == LittleEndian(Checksum(body, true), 8)
  {}

  lemma SumRead(body: bytes)
    ensures FromLittleEndian(SumOf(body)) == Checksum(body, true)
  {
    hide Checksum, SumOf, LittleEndian, FromLittleEndian, Power256;
    Power256Of8();
    SumIsChecksum(body);
    ChecksumSmall(body, true);
    LittleEndianInverse(Checksum(body, true), 8);
  }

  lemma SumLength(body: bytes)
    ensures |SumOf(body)| == 8
  {}

  /** The eight octets at the end decide. */
  lemma AcceptedIff(src: bytes, end: nat)
    ensures ChecksumAccepted(src, end) <==>
            end + 8 <= |src| && (src[end..end + 8] == NO_SUM || src[end..end + 8] == SumOf(src[..end]))
  {
    hide Crc64.Crc, LittleEndian, FromLittleEndian, Checksum, SumOf;
    if end + 8 <= |src| {
      var raw := src[end..end + 8];
      NoSumIsZero();
      FromInjective(raw, NO_SUM);
      SumRead(src[..end]);
      SumLength(src[..end]);
      FromInjective(raw, SumOf(src[..end]));
    }
  }

  /** A loader that checks accepts a file exactly if it is a dump of a version it knows, its loop comes to
      an end marker, and, from version 5 on, the eight octets behind the marker are zeros or the checksum of
      everything before them. */
  lemma AcceptedExactly(src: bytes, dbs: seq<Db>, now: int, master: bool, zip: Ziplists)
    requires dbs != []
    ensures LoadFile(src, dbs, now, master, true, zip).Some? <==>
            && |src| >= 9 && src[..5] == [82, 69, 68, 73, 83] && 1 <= Decimal.Atoi(src[5..9]) <= 6
            && LoopEnd(src, dbs, now, master, zip).Some?
            && (Decimal.Atoi(src[5..9]) >= 5 ==>
                  var end := LoopEnd(src, dbs, now, master, zip).value;
                  end + 8 <= |src| && (src[end..end + 8] == NO_SUM || src[end..end + 8] == SumOf(src[..end])))
  {
    hide LoadFrom, SumOf, ChecksumAccepted, Decimal.Atoi;
    if LoopEnd(src, dbs, now, master, zip).Some? {
      AcceptedIff(src, LoopEnd(src, dbs, now, master, zip).value);
    }
  }

  // Damage ---------------------------------------------------------------------------------------

  /** Two files that differ, and only within `n` octets from `lo` on. */
  predicate DiffersWithin(a: bytes, b: bytes, lo: nat, n: nat) {
    lo + n <= |a| == |b| && a != b && a[..lo] == b[..lo] && a[lo + n..] == b[lo + n..]
  }

  lemma SavedParts(file: bytes, dump: seq<seq<Entry>>, saved: int) returns (body: bytes)
    requires FileCode(file, dump, saved, true)
    ensures file == body + SumOf(body) && |body| >= 9 && |file| == |body| + 8
    ensures body[..5] == MAGIC && body[5..9] == VERSION
  {
    hide DbCodes, Concat, SumOf;
    var cs :| DbCodes(cs, dump, saved) && FileParts(file, cs, true);
    body := MAGIC + VERSION + (Concat(cs) + [OPCODE_EOF]);
    SumIsChecksum(body);
    SumLength(body);
  }

  lemma WindowOf(body: bytes, other: bytes, lo: nat, n: nat)
    requires DiffersWithin(body, other, lo, n) && n <= 8
    ensures Crc64.Crc(0, body) != Crc64.Crc(0, other)
  {
    hide Crc64.Crc;
    var before, after := body[..lo], body[lo + n..];
    var s, t := body[lo..lo + n], other[lo..lo + n];
    assert body == before + s + after && other == before + t + after;
    Crc64.DifferenceDetected(before, s, t, after);
  }

  lemma NumberBack(x: bv64)
    ensures (x as nat) as bv64 == x
  {}

  lemma NumberIdentifies(x: bv64, y: bv64)
    requires x as nat == y as nat
    ensures x == y
  {
    NumberBack(x);
    NumberBack(y);
  }

  lemma SumsDiffer(body: bytes, other: bytes)
    requires Crc64.Crc(0, body) != Crc64.Crc(0, other)
    ensures SumOf(body) != SumOf(other)
  {
    hide Crc64.Crc, LittleEndian, FromLittleEndian;
    SumRead(body);
    SumRead(other);
    if SumOf(body) == SumOf(other) {
      NumberIdentifies(Crc64.Crc(0, body), Crc64.Crc(0, other));
    }
  }

  lemma SameLength(a: bytes, b: bytes, lo: nat, n: nat)
    requires DiffersWithin(a, b, lo, n)
    ensures |a| == |b|
  {}

  lemma SameVersion(a: bytes, b: bytes, lo: nat, n: nat)
    requires DiffersWithin(a, b, lo, n) && 9 <= lo
    ensures |a| >= 9 && b[5..9] == a[5..9]
  {
    assert b[5..9] == b[..lo][5..9] == a[..lo][5..9] == a[5..9];
  }

  lemma SumBehind(body: bytes, sum: bytes)
    requires |body| >= 9
    ensures (body + sum)[..|body|] == body && (body + sum)[|body|..|body| + |sum|] == sum
    ensures (body + sum)[5..9] == body[5..9]
  {}

  /** A file with a checksum in which up to eight consecutive octets behind the version were changed is not
      loaded by a loader that checks, unless the damage has moved the end marker. */
  lemma DamageRefused(body: bytes, other: bytes, lo: nat, n: nat, dbs: seq<Db>, now: int, master: bool, zip: Ziplists)
    requires |body| >= 9 && Decimal.Atoi(body[5..9]) >= 5 && SumOf(body) != NO_SUM && dbs != []
    requires DiffersWithin(body, other, lo, n) && n <= 8 && 9 <= lo
    ensures var damaged := other + SumOf(body);
            LoadFile(damaged, dbs, now, master, true, zip).Some? ==>
              LoopEnd(damaged, dbs, now, master, zip).Some? && LoopEnd(damaged, dbs, now, master, zip).value != |other|
  {
    hide LoadFrom, SumOf, LoadFile, Decimal.Atoi, DiffersWithin;
    var damaged := other + SumOf(body);
    SameLength(body, other, lo, n);
    SameVersion(body, other, lo, n);
    SumLength(body);
    SumBehind(other, SumOf(body));
    WindowOf(body, other, lo, n);
    SumsDiffer(body, other);
    AcceptedExactly(damaged, dbs, now, master, zip);
  }

  /** So it is for every file that was saved with a checksum (other than 0, which stands for none). */
  lemma SavedDamageRefused(file: bytes, damaged: bytes, lo: nat, n: nat, dump: seq<seq<Entry>>, saved: int,
                           dbs: seq<Db>, now: int, master: bool, zip: Ziplists)
    requires FileCode(file, dump, saved, true) && dbs != [] && file[|file| - 8..] != NO_SUM
    requires DiffersWithin(file, damaged, lo, n) && n <= 8 && 9 <= lo && lo + n <= |file| - 8
    ensures LoadFile(damaged, dbs, now, master, true, zip).Some? ==>
              && LoopEnd(damaged, dbs, now, master, zip).Some?
              && LoopEnd(damaged, dbs, now, master, zip).value != |file| - 8
  {
    hide LoadFrom, SumOf, FileCode, LoadFile, Decimal.Atoi;
    var body := SavedParts(file, dump, saved);
    var end := |body|;
    var other := damaged[..end];
    assert damaged[end..] == damaged[lo + n..][end - lo - n..] == file[lo + n..][end - lo - n..] == file[end..];
    assert file[end..] == SumOf(body) && damaged == other + SumOf(body);
    assert body[..lo] == file[..lo] && other[..lo] == damaged[..lo];
    assert body[lo + n..] == file[lo + n..][..end - lo - n] && other[lo + n..] == damaged[lo + n..][..end - lo - n];
    VersionReads();
    DamageRefused(body, other, lo, n, dbs, now, master, zip);
  }

  // Files cut short ------------------------------------------------------------------------------

  lemma TakeCut(src: bytes, n: nat, pos: nat, k: nat)
    requires n <= |src| && Take(src[..n], pos, k).Some?
    ensures Take(src, pos, k) == Take(src[..n], pos, k)
  {
    assert src[..n][pos..pos + k] == src[pos..pos + k];
  }

  lemma LenCut(src: bytes, n: nat, pos: nat)
    requires n <= |src| && LoadLen(src[..n], pos).Some?
    ensures LoadLen(src, pos) == LoadLen(src[..n], pos)
  {}

  lemma CompressedCut(src: bytes, n: nat, pos: nat)
    requires n <= |src| && LoadCompressed(src[..n], pos).Some?
    ensures LoadCompressed(src, pos) == LoadCompressed(src[..n], pos)
  {
    hide LoadLen, LzfFormat.Decode, Take;
    var cut := src[..n];
    LenCut(src, n, pos);
    var first := LoadLen(cut, pos).value;
    LenCut(src, n, first.pos);
    var second := LoadLen(cut, first.pos).value;
    TakeCut(src, n, second.pos, AnyLength(first.value));
  }

  lemma StringCut(src: bytes, n: nat, pos: nat)
    requires n <= |src| && LoadString(src[..n], pos).Some?
    ensures LoadString(src, pos) == LoadString(src[..n], pos)
  {
    hide LoadLen, LoadCompressed, Take, Signed, Decimal.Print;
    var cut := src[..n];
    LenCut(src, n, pos);
    var len := LoadLen(cut, pos).value;
    match len.value
    case Special(enc) =>
      if enc == ENC_LZF {
        CompressedCut(src, n, len.pos);
      } else {
        TakeCut(src, n, len.pos, IntegerWidth(enc));
      }
    case Len(k) => TakeCut(src, n, len.pos, k);
  }

  lemma {:induction false} StringsCut(src: bytes, n: nat, pos: nat, count: nat)
    requires n <= |src| && LoadStrings(src[..n], pos, count).Some?
    ensures LoadStrings(src, pos, count) == LoadStrings(src[..n], pos, count)
    decreases count
  {
    hide LoadString;
    if count > 0 {
      StringCut(src, n, pos);
      StringsCut(src, n, LoadString(src[..n], pos).value.pos, count - 1);
    }
  }

  lemma ListCut(src: bytes, n: nat, pos: nat, each: nat)
    requires n <= |src| && LoadList(src[..n], pos, each).Some?
    ensures LoadList(src, pos, each) == LoadList(src[..n], pos, each)
  {
    hide LoadLen, LoadStrings;
    LenCut(src, n, pos);
    var len := LoadLen(src[..n], pos).value;
    StringsCut(src, n, len.pos, each * AnyLength(len.value));
  }

  lemma ObjectCut(src: bytes, n: nat, pos: nat, kind: u8, zip: Ziplists)
    requires n <= |src| && LoadObject(src[..n], pos, kind, zip).Some?
    ensures LoadObject(src, pos, kind, zip) == LoadObject(src[..n], pos, kind, zip)
  {
    hide LoadString, LoadList, HashOf, BlockValue;
    if kind == TYPE_LIST || kind == TYPE_SET {
      ListCut(src, n, pos, 1);
    } else if kind == TYPE_HASH {
      ListCut(src, n, pos, 2);
    } else {
      StringCut(src, n, pos);
    }
  }

  lemma HeaderCut(src: bytes, n: nat, pos: nat)
    requires n <= |src| && LoadHeader(src[..n], pos).Some?
    ensures LoadHeader(src, pos) == LoadHeader(src[..n], pos)
  {
    hide Take, Signed;
    var cut := src[..n];
    if cut[pos] == OPCODE_EXPIRETIME || cut[pos] == OPCODE_EXPIRETIME_MS {
      TakeCut(src, n, pos + 1, if cut[pos] == OPCODE_EXPIRETIME_MS then 8 else 4);
    }
  }

  /** What the loader has read of a file whose tail is missing it reads of the whole file too. */
  lemma {:induction false} LoopCut(src: bytes, n: nat, pos: nat, dbs: seq<Db>, sel: nat, now: int, master: bool,
                                   zip: Ziplists)
    requires n <= |src| && sel < |dbs| && LoadFrom(src[..n], pos, dbs, sel, now, master, zip).Some?
    ensures LoadFrom(src, pos, dbs, sel, now, master, zip) == LoadFrom(src[..n], pos, dbs, sel, now, master, zip)
    ensures LoadFrom(src[..n], pos, dbs, sel, now, master, zip).value.pos <= n
    decreases n - pos
  {
    hide LoadHeader, LoadString, LoadObject, LoadLen, AddKey;
    var cut := src[..n];
    HeaderCut(src, n, pos);
    var h := LoadHeader(cut, pos).value;
    if h.value.kind == OPCODE_SELECTDB {
      LenCut(src, n, h.pos);
      var id := LoadLen(cut, h.pos).value;
      LoopCut(src, n, id.pos, dbs, AnyLength(id.value), now, master, zip);
    } else if h.value.kind != OPCODE_EOF {
      StringCut(src, n, h.pos);
      var key := LoadString(cut, h.pos).value;
      ObjectCut(src, n, key.pos, h.value.kind, zip);
      var v := LoadObject(cut, key.pos, h.value.kind, zip).value;
      var db := AddKey(dbs[sel], key.value, v.value, h.value.expire, now, master);
      LoopCut(src, n, v.pos, dbs[sel := db.value], sel, now, master, zip);
    }
  }

  lemma FileLength(file: bytes, cs: seq<bytes>, summed: bool)
    requires FileParts(file, cs, summed)
    ensures |file| == 9 + |Concat(cs[0..])| + 1 + 8
  {
    hide Concat, Checksum;
    assert cs[0..] == cs;
  }

  lemma ShortRefused(src: bytes, dbs: seq<Db>, now: int, master: bool, checked: bool, zip: Ziplists)
    requires dbs != []
    requires |src| < 9 || LoopEnd(src, dbs, now, master, zip).None?
             || (checked && Decimal.Atoi(src[5..9]) >= 5 && LoopEnd(src, dbs, now, master, zip).value + 8 > |src|)
    ensures LoadFile(src, dbs, now, master, checked, zip) == None
  {
    hide LoadFrom, Decimal.Atoi, Checksum;
  }

  /** No file that was saved is loaded when its tail is missing; only a loader that does not check can do
      without the checksum itself. */
  lemma TruncatedRefused(file: bytes, n: nat, dump: seq<seq<Entry>>, dbs: seq<Db>, saved: int, now: int, master: bool,
                         summed: bool, checked: bool, zip: Ziplists)
    requires FileCode(file, dump, saved, summed) && saved <= now
    requires 0 < |dbs| < LENERR && RdbSnapshot.ListsAll(dump, dbs, zip)
    requires n < if checked then |file| else |file| - 8
    ensures LoadFile(file[..n], EmptyDbs(|dbs|), now, master, checked, zip) == None
  {
    hide LoadFrom, LoadFile, FileParts, ListsAll, DbCodes, Concat, LiveAll, Stands, Decimal.Atoi, ChecksumAccepted,
      EmptyDbs;
    ListsEach(dump, dbs, zip);
    var cs :| DbCodes(cs, dump, saved) && FileParts(file, cs, summed);
    FileStands(file, cs, summed);
    FileLength(file, cs, summed);
    DumpRestores(file, cs, dump, dbs, saved, now, master, zip);
    var cut, empty := file[..n], EmptyDbs(|dbs|);
    if n >= 9 && LoadFrom(cut, 9, empty, 0, now, master, zip).Some? {
      LoopCut(file, n, 9, empty, 0, now, master, zip);
      assert cut[5..9] == file[5..9];
    }
    ShortRefused(cut, empty, now, master, checked, zip);
  }

  // Nothing to save ------------------------------------------------------------------------------

  lemma {:induction false} NothingJoined(cs: seq<bytes>)
    requires forall i :: 0 <= i < |cs| ==> cs[i] == []
    ensures Concat(cs) == []
    decreases |cs|
  {
    if cs != [] {
      NothingJoined(cs[1..]);
    }
  }

  /** Empty databases leave nothing in the file: it holds its name and version, the end marker and the
      checksum. */
  lemma EmptyDump(file: bytes, dump: seq<seq<Entry>>, saved: int, summed: bool)
    requires FileCode(file, dump, saved, summed) && forall i :: 0 <= i < |dump| ==> dump[i] == []
    ensures |file| == 5 + 4 + 1 + 8 && file[..10] == MAGIC + VERSION + [OPCODE_EOF]
  {
    hide Concat, Checksum;
    var cs :| DbCodes(cs, dump, saved) && FileParts(file, cs, summed);
    assert forall i :: 0 <= i < |cs| ==> DbCode(cs[i], i, dump[i], saved);
    NothingJoined(cs);
    assert MAGIC + VERSION + ([] + [OPCODE_EOF]) == MAGIC + VERSION + [OPCODE_EOF];
  }

  // A key twice ----------------------------------------------------------------------------------

  /** A key that stands twice in a database is refused. */
  lemma DuplicateRefused(c1: bytes, e1: Entry, c2: bytes, e2: Entry, src: bytes, pos: nat, dbs: seq<Db>, sel: nat,
                         now: int, zip: Ziplists)
    requires sel < |dbs| && EntryCode(c1, e1) && EntryCode(c2, e2) && Stands(src, pos, c1 + c2)
    requires Sound(e1, zip) && Sound(e2, zip) && e1.key == e2.key && !Stale(e1, now) && !Stale(e2, now)
    ensures LoadFrom(src, pos, dbs, sel, now, true, zip) == None
  {
    hide LoadFrom, EntryCode, Stands, Meaning;
    StandsApart(src, pos, c1, c2);
    EntryLoads(c1, e1, src, pos, dbs, sel, now, true, zip);
    var db := AddKey(dbs[sel], e1.key, Meaning(e1.value, zip).value, e1.expire, now, true);
    if db.Some? {
      EntryLoads(c2, e2, src, pos + |c1|, dbs[sel := db.value], sel, now, true, zip);
    }
  }

  // Older files ----------------------------------------------------------------------------------

  lemma Power256Of4()
    ensures Power256(4) == TWO_TO_THE_32
  {
    assert Power256(2) == 0x1_0000 && Power256(4) == 0x1_0000 * Power256(2);
  }

  /** An expiry that an older server has saved in seconds is loaded in milliseconds. */
  lemma SecondsLoad(src: bytes, pos: nat, seconds: nat, kind: u8, rest: bytes)
    requires seconds < 0x8000_0000 && Stands(src, pos, [253] + (LittleEndian(seconds, 4) + ([kind] + rest)))
    ensures LoadHeader(src, pos) == Some(Read(Header(1000 * seconds, kind), pos + 6))
  {
    hide LittleEndian, Signed, Power256;
    var x: bytes, time := [253], LittleEndian(seconds, 4);
    StandsApart(src, pos, x, time + ([kind] + rest));
    StandsApart(src, pos + 1, time, [kind] + rest);
    StandsApart(src, pos + 5, [kind], rest);
    assert src[pos] == src[pos..pos + 1][0] && src[pos + 5] == src[pos + 5..pos + 6][0];
    InRange(src, pos + 1, time);
    Power256Of4();
    SignedInverse(seconds, 4);
  }
}
