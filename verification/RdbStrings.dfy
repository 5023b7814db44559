/** The routines of rdb.c that write and read lengths, integers and strings on a stream. */
module RdbStrings {
  import opened Bytes
  import opened Endian
  import opened Reading
  import opened Wrappers
  import opened RdbFormat
  import Decimal
  import LzfCompress
  import LzfDecompress
  import LzfFormat
  import LzfSearch
  import Rio

  // Writing --------------------------------------------------------------------------------------

  method RdbSaveLen(rio: Rio.Stream, len: u32)
    requires rio.AtEnd()
    modifies rio`data, rio`pos, rio`cksum
    ensures rio.AtEnd() && rio.data == old(rio.data) + SaveLen(len)
  {
    hide Rio.Stream.Sum;
    var n: int := len;
    if n < 0x40 {
      rio.Write([n]);
    } else if n < 0x4000 {
      rio.Write([n / 0x100 + 0x40, n % 0x100]);
    } else {
      rio.Write([0x80]);
      rio.Write([n / 0x100_0000, n / 0x1_0000 % 0x100, n / 0x100 % 0x100, n % 0x100]);
    }
  }

  lemma Quotients(v: int)
    ensures LittleEndian(v, 1) == [v % 0x100] && LittleEndian(v, 2) == [v % 0x100, v / 0x100 % 0x100]
    ensures LittleEndian(v, 4) == [v % 0x100, v / 0x100 % 0x100, v / 0x1_0000 % 0x100, v / 0x100_0000 % 0x100]
  {
    assert LittleEndian(v, 1) == [v % 0x100] + LittleEndian(v / 0x100, 0);
    assert LittleEndian(v, 2) == [v % 0x100] + LittleEndian(v / 0x100, 1);
    assert LittleEndian(v, 4) == [v % 0x100] + LittleEndian(v / 0x100, 3);
    assert LittleEndian(v / 0x100, 3) == [v / 0x100 % 0x100] + LittleEndian(v / 0x100 / 0x100, 2);
    assert v / 0x100 / 0x100 == v / 0x1_0000 && v / 0x1_0000 / 0x100 == v / 0x100_0000;
  }

  /** rdbEncodeInteger: the octets, or none. */
  method RdbEncodeInteger(value: int) returns (enc: bytes)
    ensures EncodeInteger(value) == if enc == [] then None else Some(enc)
  {
    Quotients(value);
    if -0x80 <= value <= 0x7f {
      enc := [0xC0 + ENC_INT8] + [value % 0x100];
    } else if -0x8000 <= value <= 0x7fff {
      enc := [0xC0 + ENC_INT16] + [value % 0x100, value / 0x100 % 0x100];
    } else if -0x8000_0000 <= value <= 0x7fff_ffff {
      enc := [0xC0 + ENC_INT32]
          + [value % 0x100, value / 0x100 % 0x100, value / 0x1_0000 % 0x100, value / 0x100_0000 % 0x100];
    } else {
      enc := [];
    }
  }

  predicate IsSpace(b: u8) { b == 32 || 9 <= b <= 13 }

  /** The digits from a position on. */
  method ScanDigits(s: bytes, first: nat) returns (v: nat, end: nat)
    requires first <= |s|
    ensures first <= end <= |s| && Decimal.AllDigits(s[first..end]) && v == Decimal.Value(s[first..end])
    ensures end < |s| ==> !Decimal.IsDigit(s[end])
  {
    v, end := 0, first;
    while end < |s| && Decimal.IsDigit(s[end])
      invariant first <= end <= |s| && Decimal.AllDigits(s[first..end]) && v == Decimal.Value(s[first..end])
    {
      ghost var longer := s[first..end + 1];
      assert longer == s[first..end] + [s[end]] && longer[..|longer| - 1] == s[first..end];
      v := v * 10 + (s[end] as int - 48);
      end := end + 1;
    }
  }

  lemma PrintedShape(w: int)
    ensures var s := Decimal.Print(w); var first := if w < 0 then 1 else 0;
            && first < |s| && (w < 0 ==> s[0] == Decimal.MINUS) && !IsSpace(s[0]) && s[0] != 43
            && (w >= 0 ==> s[0] != Decimal.MINUS)
            && Decimal.AllDigits(s[first..]) && Decimal.Value(s[first..]) == if w < 0 then -w else w
  {
    var d := Decimal.Digits(if w < 0 then -w else w);
    Decimal.DigitsCanonical(if w < 0 then -w else w);
    assert Decimal.IsDigit(d[0]);
    assert Decimal.Print(w)[if w < 0 then 1 else 0..] == d;
  }

  /** What strtoll (base 10) makes of a string that an octet 0 follows: a number, and how far it
      read. */
  method Strtoll(s: bytes) returns (value: int, end: nat)
    ensures end <= |s| && Decimal.InRange(value)
    ensures forall v :: Decimal.InRange(v) && s == Decimal.Print(v) ==> value == v && end == |s|
  {
    var i := 0;
    while i < |s| && IsSpace(s[i])
      invariant 0 <= i <= |s| && (i > 0 ==> IsSpace(s[0]))
    {
      i := i + 1;
    }
    var negative := i < |s| && s[i] == Decimal.MINUS;
    if i < |s| && (s[i] == Decimal.MINUS || s[i] == 43) {
      i := i + 1;
    }
    var digits;
    digits, end := ScanDigits(s, i);
    var v: int := digits;
    forall w | Decimal.InRange(w) && s == Decimal.Print(w)
      ensures end == |s| && i < end && w == if negative then -v else v
    {
      PrintedShape(w);
      assert i == if w < 0 then 1 else 0;
      assert s[i..end] == s[i..];
    }
    if end == i {
      return 0, 0;  // no digits
    }
    value := if negative then -v else v;
    if value > Decimal.LLONG_MAX {
      value := Decimal.LLONG_MAX;
    } else if value < -Decimal.LLONG_MAX - 1 {
      value := -Decimal.LLONG_MAX - 1;
    }
  }

  /** The integer that may stand for a string: only one that prints back as the same string. */
  function AsInteger(s: bytes): Option<bytes> {
    match Decimal.Parse(s)
    case Some(v) => EncodeInteger(v)
    case None => None
  }

  method RdbTryIntegerEncoding(s: bytes) returns (enc: bytes)
    ensures AsInteger(s) == if enc == [] then None else Some(enc)
  {
    hide Decimal.Parse, EncodeInteger;
    var value, end := Strtoll(s);
    forall v { Decimal.ParseIffPrinted(s, v); }
    if end < |s| && s[end] != 0 {
      return [];
    }
    var buf := Decimal.Ll2string(value);
    if |buf| != |s| || buf != s {
      return [];
    }
    enc := RdbEncodeInteger(value);
  }

  /** The compressor on buffers of its own: the octets it produced, or none. The string's address,
      which is part of its arithmetic, may be any; its hash table starts with whatever the memory
      holds. */
  method CompressString(s: bytes, outlen: nat) returns (c: bytes)
    requires 4 < |s| < LENERR
    ensures |c| <= outlen && (c != [] ==> LzfFormat.Represents(c, s))
    ensures c == [] ==> LzfCompress.GivesUp(outlen, s)
    ensures LzfSearch.AllEqual(s) && |s| >= 25 && outlen >= |s| - 4 ==>
              c != [] && |c| <= 3 * ((|s| + 261) / 264) + 12
  {
    hide LzfFormat.Represents, LzfCompress.GivesUp, LzfCompress.Parsed, LzfSearch.AllEqual;
    var address: u64 :| LzfFormat.MAX_OFF <= address && address + |s| < TWO_TO_THE_64;
    var inp := new u8[|s|](i requires 0 <= i < |s| => s[i]);
    var out := new u8[outlen + 1];
    var htab := new u64[LzfSearch.HSIZE];
    assert inp[..] == s;
    var comprlen := LzfCompress.Compress(inp, out, outlen, htab, address);
    c := out[..comprlen];
  }

  /** How many octets a length takes. */
  function LenOctets(len: u32): (n: nat)
    ensures n == |SaveLen(len)|
  {
    if len < 0x40 then 1 else if len < 0x4000 then 2 else 5
  }

  method WriteCompressed(rio: Rio.Stream, c: bytes, len: u32)
    requires rio.AtEnd() && |c| < LENERR
    modifies rio`data, rio`pos, rio`cksum
    ensures rio.AtEnd() && rio.data == old(rio.data) + ([0xC0 + ENC_LZF] + SaveLen(|c|) + SaveLen(len) + c)
  {
    hide Rio.Stream.Sum, SaveLen;
    ghost var d0 := rio.data;
    ghost var e: bytes := [0xC0 + ENC_LZF];
    rio.Write([0xC0 + ENC_LZF]);
    RdbSaveLen(rio, |c|);
    assert rio.data == d0 + (e + SaveLen(|c|));
    RdbSaveLen(rio, len);
    assert rio.data == d0 + (e + SaveLen(|c|) + SaveLen(len));
    rio.Write(c);
  }

  /** rdbSaveLzfStringObject: nothing is written when the string does not shrink by four octets. */
  method RdbSaveLzfStringObject(rio: Rio.Stream, s: bytes) returns (nwritten: nat, ghost c: bytes)
    requires rio.AtEnd() && |s| < LENERR
    modifies rio`data, rio`pos, rio`cksum
    ensures rio.AtEnd()
    ensures nwritten == 0 ==> rio.data == old(rio.data)
    ensures nwritten > 0 ==> |c| + 4 <= |s| && FormOf(Compressed(c), s)
                             && rio.data == old(rio.data) + SaveString(Compressed(c), s)
    ensures nwritten == |rio.data| - |old(rio.data)|
    // not compressed means that the compressor found no room in four octets less
    ensures nwritten == 0 && |s| > 4 ==> LzfCompress.GivesUp(|s| - 4, s)
    ensures LzfSearch.AllEqual(s) && |s| >= 25 ==> nwritten > 0 && |c| <= 3 * ((|s| + 261) / 264) + 12
  {
    hide Rio.Stream.Sum, LzfFormat.Represents, SaveLen, LzfCompress.GivesUp, LzfSearch.AllEqual;
    c := [];
    if |s| <= 4 {
      return 0, c;
    }
    var o := CompressString(s, |s| - 4);
    if o == [] {
      return 0, c;
    }
    c := o;
    WriteCompressed(rio, o, |s|);
    nwritten := 1 + LenOctets(|o|) + LenOctets(|s|) + |o|;
  }

  /** rdbSaveRawString: as an integer, compressed, or verbatim. */
  method RdbSaveRawString(rio: Rio.Stream, s: bytes, compression: bool) returns (ghost form: Form)
    requires rio.AtEnd() && |s| < LENERR
    modifies rio`data, rio`pos, rio`cksum
    ensures rio.AtEnd() && FormOf(form, s) && rio.data == old(rio.data) + SaveString(form, s)
    ensures form.Integer? <==> |s| <= 11 && AsInteger(s).Some?
    ensures form.Compressed? ==> compression && |s| > 20 && |form.c| + 4 <= |s|
    ensures form.Verbatim? && compression && |s| > 20 ==> LzfCompress.GivesUp(|s| - 4, s)
    ensures compression && LzfSearch.AllEqual(s) && |s| >= 25 ==>
              form.Compressed? && |form.c| <= 3 * ((|s| + 261) / 264) + 12
  {
    hide Rio.Stream.Sum, Decimal.Parse, EncodeInteger, SaveLen, LzfFormat.Represents, LzfCompress.GivesUp,
      LzfSearch.AllEqual;
    if |s| <= 11 {
      var buf := RdbTryIntegerEncoding(s);
      if buf != [] {
        Decimal.ParseIffPrinted(s, Decimal.Parse(s).value);
        rio.Write(buf);
        return Integer(Decimal.Parse(s).value);
      }
    }
    if compression && |s| > 20 {
      var n; ghost var c;
      n, c := RdbSaveLzfStringObject(rio, s);
      if n > 0 {
        return Compressed(c);
      }
    }
    RdbSaveLen(rio, |s|);
    if |s| > 0 {
      rio.Write(s);
    }
    form := Verbatim;
  }

  /** rdbSaveLongLongAsStringObject */
  method RdbSaveLongLongAsStringObject(rio: Rio.Stream, value: int) returns (ghost form: Form)
    requires rio.AtEnd() && Decimal.InRange(value)
    modifies rio`data, rio`pos, rio`cksum
    ensures rio.AtEnd() && FormOf(form, Decimal.Print(value))
    ensures rio.data == old(rio.data) + SaveString(form, Decimal.Print(value))
  {
    hide Rio.Stream.Sum, EncodeInteger, SaveLen, Decimal.Print;
    ghost var d0 := rio.data;
    Decimal.PrintedLength(value);
    var enc := RdbEncodeInteger(value);
    if enc != [] {
      rio.Write(enc);
      return Integer(value);
    }
    var buf := Decimal.Ll2string(value);
    RdbSaveLen(rio, |buf|);
    rio.Write(buf);
    assert rio.data == d0 + (SaveLen(|buf|) + buf);
    form := Verbatim;
  }

  // Reading --------------------------------------------------------------------------------------

  /** rdbLoadLen; LENERR also stands for the end of the file. */
  method RdbLoadLen(rio: Rio.Stream) returns (len: u32, isencoded: bool)
    requires rio.Valid()
    modifies rio`pos, rio`cksum
    ensures rio.Valid()
    ensures match LoadLen(rio.data, old(rio.pos))
            case None => len == LENERR && !isencoded
            case Some(r) => rio.pos == r.pos && len == AnyLength(r.value) && isencoded == r.value.Special?
  {
    hide Rio.Stream.Sum;
    var ok, buf := rio.Read(1);
    if !ok {
      return LENERR, false;
    }
    var b: int := buf[0];
    var kind := b / 0x40;
    if kind == 3 {
      return b % 0x40, true;
    } else if kind == 0 {
      return b % 0x40, false;
    } else if kind == 1 {
      ok, buf := rio.Read(1);
      if !ok {
        return LENERR, false;
      }
      return b % 0x40 * 0x100 + buf[0] as int, false;
    } else {
      ok, buf := rio.Read(4);
      if !ok {
        return LENERR, false;
      }
      return buf[0] as int * 0x100_0000 + buf[1] as int * 0x1_0000 + buf[2] as int * 0x100 + buf[3] as int, false;
    }
  }

  /** What a loading routine found: the value and the position after it, or nothing at the end of the
      file and on damaged data. */
  ghost predicate Loaded<T>(expected: Option<Read<T>>, got: Option<T>, pos: nat) {
    match expected
    case None => got == None
    case Some(r) => got == Some(r.value) && pos == r.pos
  }

  method RdbLoadIntegerObject(rio: Rio.Stream, enctype: int) returns (o: Option<bytes>)
    requires rio.Valid() && (enctype == ENC_INT8 || enctype == ENC_INT16 || enctype == ENC_INT32)
    modifies rio`pos, rio`cksum
    ensures rio.Valid() && Loaded(LoadInteger(rio.data, old(rio.pos), enctype), o, rio.pos)
  {
    hide Rio.Stream.Sum, Signed;
    var ok, enc := rio.Read(IntegerWidth(enctype));
    if !ok {
      return None;
    }
    var text := Decimal.Ll2string(Signed(enc));
    o := Some(text);
  }

  /** Decompression into a zeroed buffer of the announced length. */
  method DecompressString(buf: bytes, len: nat) returns (o: Option<bytes>)
    requires buf != []
    ensures o == Decompressed(buf, len)
  {
    hide LzfFormat.Decode;
    var val := new u8[len](_ => 0);
    var c := new u8[|buf|](i requires 0 <= i < |buf| => buf[i]);
    assert c[..] == buf;
    var n, err := LzfDecompress.Decompress(c, val, len);
    if n == 0 {
      return None;
    }
    assert val[n..] == Zeros(len - n);
    assert val[..] == val[..n] + val[n..];
    o := Some(val[..]);
  }

  /** rdbLoadLzfStringObject */
  method RdbLoadLzfStringObject(rio: Rio.Stream) returns (o: Option<bytes>)
    requires rio.Valid()
    modifies rio`pos, rio`cksum
    ensures rio.Valid() && Loaded(LoadCompressed(rio.data, old(rio.pos)), o, rio.pos)
  {
    hide Rio.Stream.Sum, LoadLen, LzfFormat.Decode;
    var clen, len, coded;
    clen, coded := RdbLoadLen(rio);
    if clen == LENERR {
      return None;
    }
    len, coded := RdbLoadLen(rio);
    if len == LENERR {
      return None;
    }
    var ok, buf := rio.Read(clen);
    if !ok {
      return None;
    }
    o := DecompressString(buf, len);
  }

  /** rdbGenericLoadStringObject */
  method RdbLoadStringObject(rio: Rio.Stream) returns (o: Option<bytes>)
    requires rio.Valid()
    modifies rio`pos, rio`cksum
    ensures rio.Valid() && Loaded(LoadString(rio.data, old(rio.pos)), o, rio.pos)
  {
    hide Rio.Stream.Sum, LoadLen, LoadInteger, LoadCompressed;
    var len, isencoded := RdbLoadLen(rio);
    if isencoded {
      if len == ENC_INT8 || len == ENC_INT16 || len == ENC_INT32 {
        o := RdbLoadIntegerObject(rio, len);
        return;
      } else if len == ENC_LZF {
        o := RdbLoadLzfStringObject(rio);
        return;
      } else {
        return None;
      }
    }
    if len == LENERR {
      return None;
    }
    if len == 0 {
      return Some([]);
    }
    var ok, val := rio.Read(len);
    if !ok {
      return None;
    }
    o := Some(val);
  }
}
