/**
 The RDB dump format (rdb.h, rdb.c) as functions on octets: lengths, integers and strings in their
 three encodings, and how each is read back from a position in a stream.
 */
module RdbFormat {
  import opened Bytes
  import opened Endian
  import opened Reading
  import opened Wrappers
  import Decimal
  import LzfFormat

  const LENERR: int := 0xffff_ffff
  const ENC_INT8: int := 0
  const ENC_INT16: int := 1
  const ENC_INT32: int := 2
  const ENC_LZF: int := 3

  // Lengths --------------------------------------------------------------------------------------

  /** 6 bits, 14 bits, or 32 bits in network order. */
  function SaveLen(len: u32): (r: bytes)
    ensures 1 <= |r| <= 5
  {
    if len < 0x40 then [len]
    else if len < 0x4000 then [len / 0x100 + 0x40, len % 0x100]
    else [0x80, len / 0x100_0000, len / 0x1_0000 % 0x100, len / 0x100 % 0x100, len % 0x100]
  }

  /** A length, or the number of a special encoding. */
  datatype Length = Len(n: u32) | Special(enc: u32)

  /** Callers that do not ask which of the two it is take either for a length. */
  function AnyLength(l: Length): u32 {
    match l
    case Len(n) => n
    case Special(enc) => enc
  }

  function LoadLen(src: bytes, pos: nat): (r: Option<Read<Length>>)
    ensures r.Some? ==> pos < r.value.pos <= |src|
  {
    if pos >= |src| then None
    else
      var b: int := src[pos];
      var kind := b / 0x40;
      if kind == 3 then Some(Read(Special(b % 0x40), pos + 1))
      else if kind == 0 then Some(Read(Len(b % 0x40), pos + 1))
      else if kind == 1 then
        if pos + 1 >= |src| then None
        else Some(Read(Len(b % 0x40 * 0x100 + src[pos + 1] as int), pos + 2))
      else if pos + 4 >= |src| then None
      else
        var n := src[pos + 1] as int * 0x100_0000 + src[pos + 2] as int * 0x1_0000
                 + src[pos + 3] as int * 0x100 + src[pos + 4] as int;
        Some(Read(Len(n), pos + 5))
  }

  lemma FourOctets(len: u32)
    ensures len / 0x100_0000 * 0x100_0000 + len / 0x1_0000 % 0x100 * 0x1_0000
            + len / 0x100 % 0x100 * 0x100 + len % 0x100 == len
  {
    assert len / 0x1_0000 == len / 0x100_0000 * 0x100 + len / 0x1_0000 % 0x100;
    assert len / 0x100 == len / 0x1_0000 * 0x100 + len / 0x100 % 0x100;
  }

  lemma WideRoundTrip(len: u32, src: bytes, pos: nat)
    requires len >= 0x4000 && pos + 5 <= |src| && src[pos..pos + 5] == SaveLen(len)
    ensures LoadLen(src, pos) == Some(Read(Len(len), pos + 5))
  {
    var e, s := SaveLen(len), src[pos..pos + 5];
    assert src[pos] == s[0] && src[pos + 1] == s[1] && src[pos + 2] == s[2] && src[pos + 3] == s[3]
        && src[pos + 4] == s[4];
    FourOctets(len);
  }

  lemma LenRoundTrip(len: u32, src: bytes, pos: nat)
    requires pos + |SaveLen(len)| <= |src| && src[pos..pos + |SaveLen(len)|] == SaveLen(len)
    ensures LoadLen(src, pos) == Some(Read(Len(len), pos + |SaveLen(len)|))
  {
    if len >= 0x4000 {
      WideRoundTrip(len, src, pos);
    } else {
      var e := SaveLen(len);
      assert src[pos] == src[pos..pos + |e|][0] == e[0];
      if len >= 0x40 {
        assert src[pos + 1] == src[pos..pos + |e|][1] == e[1];
      }
    }
  }

  // Integers in place of strings -----------------------------------------------------------------

  /** rdbEncodeInteger: 1, 2 or 4 octets, or nothing for a number that needs more. */
  function EncodeInteger(v: int): Option<bytes> {
    if -0x80 <= v <= 0x7f then Some([0xC0 + ENC_INT8] + LittleEndian(v, 1))
    else if -0x8000 <= v <= 0x7fff then Some([0xC0 + ENC_INT16] + LittleEndian(v, 2))
    else if -0x8000_0000 <= v <= 0x7fff_ffff then Some([0xC0 + ENC_INT32] + LittleEndian(v, 4))
    else None
  }

  function IntegerWidth(enc: int): nat {
    if enc == ENC_INT8 then 1 else if enc == ENC_INT16 then 2 else 4
  }

  function LoadInteger(src: bytes, pos: nat, enc: int): (r: Option<Read<bytes>>)
    ensures r.Some? ==> pos < r.value.pos <= |src|
  {
    var raw := Take(src, pos, IntegerWidth(enc));
    if raw.None? then None else Some(Read(Decimal.Print(Signed(raw.value)), pos + IntegerWidth(enc)))
  }

  // Strings --------------------------------------------------------------------------------------

  /** The three ways in which a string may stand in a dump. */
  datatype Form = Integer(v: int) | Compressed(c: bytes) | Verbatim

  ghost predicate FormOf(f: Form, s: bytes) {
    && |s| < LENERR
    && match f
       case Integer(v) => EncodeInteger(v).Some? && s == Decimal.Print(v)
       case Compressed(c) => 0 < |c| < LENERR && LzfFormat.Represents(c, s)
       case Verbatim => true
  }

  function SaveString(f: Form, s: bytes): bytes
    requires |s| < LENERR && (f.Integer? ==> EncodeInteger(f.v).Some?) && (f.Compressed? ==> |f.c| < LENERR)
  {
    match f
    case Integer(v) => EncodeInteger(v).value
    case Compressed(c) => [0xC0 + ENC_LZF] + SaveLen(|c|) + SaveLen(|s|) + c
    case Verbatim => SaveLen(|s|) + s
  }

  function Zeros(n: int): bytes {
    if n <= 0 then [] else seq(n, _ => 0)
  }

  /** What a compressed string means; the buffer that it is decompressed into is zeroed before. */
  function Decompressed(c: bytes, len: nat): Option<bytes> {
    if c == [] then None
    else
      match LzfFormat.Decode(c, len)
      case Ok(data) => Some(data + Zeros(len - |data|))
      case _ => None
  }

  function LoadCompressed(src: bytes, pos: nat): (r: Option<Read<bytes>>)
    ensures r.Some? ==> pos < r.value.pos <= |src|
  {
    var first := LoadLen(src, pos);
    if first.None? then None
    else
      var second := LoadLen(src, first.value.pos);
      if second.None? then None
      else
        var clen, len := AnyLength(first.value.value), AnyLength(second.value.value);
        var c := Take(src, second.value.pos, clen);
        if clen == LENERR || len == LENERR || c.None? then None
        else
          var s := Decompressed(c.value, len);
          if s.None? then None else Some(Read(s.value, second.value.pos + clen))
  }

  /** rdbGenericLoadStringObject: the string that stands at `pos`, whichever way it was saved. */
  function LoadString(src: bytes, pos: nat): (r: Option<Read<bytes>>)
    ensures r.Some? ==> pos < r.value.pos <= |src|
  {
    var len := LoadLen(src, pos);
    if len.None? then None
    else
      var next := len.value.pos;
      match len.value.value
      case Special(enc) =>
        if enc == ENC_INT8 || enc == ENC_INT16 || enc == ENC_INT32 then LoadInteger(src, next, enc)
        else if enc == ENC_LZF then LoadCompressed(src, next)
        else None
      case Len(n) =>
        if n == LENERR then None
        else
          var raw := Take(src, next, n);
          if raw.None? then None else Some(Read(raw.value, next + n))
  }

  lemma IntegerRoundTrip(v: int, src: bytes, pos: nat)
    requires EncodeInteger(v).Some?
    requires var e := EncodeInteger(v).value; pos + |e| <= |src| && src[pos..pos + |e|] == e
    ensures LoadString(src, pos) == Some(Read(Decimal.Print(v), pos + |EncodeInteger(v).value|))
  {
    var e := EncodeInteger(v).value;
    var enc := e[0] as int - 0xC0;
    var n := IntegerWidth(enc);
    assert e == [0xC0 + enc] + LittleEndian(v, n);
    SliceAt(src, pos, [0xC0 + enc], LittleEndian(v, n));
    assert src[pos] == src[pos..pos + 1][0] == 0xC0 + enc;
    assert Power256(1) == 0x100 && Power256(2) == 0x1_0000;
    assert Power256(4) == 0x100 * (0x100 * Power256(2));
    SignedInverse(v, n);
  }

  lemma SpecialLen(src: bytes, pos: nat, enc: int)
    requires pos < |src| && 0 <= enc < 0x40 && src[pos] == 0xC0 + enc
    ensures LoadLen(src, pos) == Some(Read(Special(enc), pos + 1))
  {}

  lemma CompressedLoads(c: bytes, s: bytes, src: bytes, pos: nat)
    requires FormOf(Compressed(c), s)
    requires var e := SaveLen(|c|) + (SaveLen(|s|) + c); pos + |e| <= |src| && src[pos..pos + |e|] == e
    ensures LoadCompressed(src, pos) == Some(Read(s, pos + |SaveLen(|c|)| + |SaveLen(|s|)| + |c|))
  {
    hide LoadLen, SaveLen, LzfFormat.Decode;
    var b, d := SaveLen(|c|), SaveLen(|s|);
    SliceAt(src, pos, b, d + c);
    SliceAt(src, pos + |b|, d, c);
    LenRoundTrip(|c|, src, pos);
    LenRoundTrip(|s|, src, pos + |b|);
    assert LzfFormat.Decode(c, |s|) == LzfFormat.Ok(s);
    assert s + [] == s;
  }

  lemma CompressedRoundTrip(c: bytes, s: bytes, src: bytes, pos: nat)
    requires FormOf(Compressed(c), s)
    requires var e := SaveString(Compressed(c), s); pos + |e| <= |src| && src[pos..pos + |e|] == e
    ensures LoadString(src, pos) == Some(Read(s, pos + |SaveString(Compressed(c), s)|))
  {
    hide LoadLen, SaveLen, LoadCompressed, LzfFormat.Represents;
    var a: bytes, rest := [0xC0 + ENC_LZF], SaveLen(|c|) + (SaveLen(|s|) + c);
    assert SaveString(Compressed(c), s) == a + rest;
    SliceAt(src, pos, a, rest);
    assert src[pos] == src[pos..pos + 1][0];
    SpecialLen(src, pos, ENC_LZF);
    CompressedLoads(c, s, src, pos + 1);
  }

  lemma VerbatimRoundTrip(s: bytes, src: bytes, pos: nat)
    requires |s| < LENERR
    requires var e := SaveLen(|s|) + s; pos + |e| <= |src| && src[pos..pos + |e|] == e
    ensures LoadString(src, pos) == Some(Read(s, pos + |SaveLen(|s|) + s|))
  {
    hide LoadLen, SaveLen;
    SliceAt(src, pos, SaveLen(|s|), s);
    LenRoundTrip(|s|, src, pos);
  }

  /** Self-delimiting: wherever a string was saved, in whichever form, loading from there gives the
      string back and stops exactly at its end. */
  lemma StringRoundTrip(f: Form, s: bytes, src: bytes, pos: nat)
    requires FormOf(f, s)
    requires var e := SaveString(f, s); pos + |e| <= |src| && src[pos..pos + |e|] == e
    ensures LoadString(src, pos) == Some(Read(s, pos + |SaveString(f, s)|))
  {
    hide LoadString;
    match f
    case Integer(v) => IntegerRoundTrip(v, src, pos);
    case Compressed(c) => CompressedRoundTrip(c, s, src, pos);
    case Verbatim => VerbatimRoundTrip(s, src, pos);
  }
}
