/** The writers of rio.c that print parts of commands on a stream. */
module RespStream {
  import opened Bytes
  import opened Resp
  import Decimal
  import Rio

  /** rioWriteBulkCount */
  method RioWriteBulkCount(r: Rio.Stream, prefix: u8, count: int)
    requires r.AtEnd()
    modifies r`data, r`pos, r`cksum
    ensures r.AtEnd() && r.data == old(r.data) + Line(prefix, count)
  {
    hide Rio.Stream.Sum;
    var cbuf := CatLine([], prefix, count);
    assert [] + Line(prefix, count) == Line(prefix, count);
    r.Write(cbuf);
  }

  /** rioWriteBulkString */
  method RioWriteBulkString(r: Rio.Stream, buf: bytes)
    requires r.AtEnd()
    modifies r`data, r`pos, r`cksum
    ensures r.AtEnd() && r.data == old(r.data) + Bulk(buf)
  {
    hide Rio.Stream.Sum, Line;
    ghost var d0 := r.data;
    RioWriteBulkCount(r, DOLLAR, |buf|);
    if |buf| > 0 {
      r.Write(buf);
    }
    assert r.data == d0 + (Line(DOLLAR, |buf|) + buf);
    r.Write(CRLF);
  }

  /** rioWriteBulkLongLong */
  method RioWriteBulkLongLong(r: Rio.Stream, l: int)
    requires r.AtEnd()
    modifies r`data, r`pos, r`cksum
    ensures r.AtEnd() && r.data == old(r.data) + Bulk(Decimal.Print(l))
  {
    var lbuf := Decimal.Ll2string(l);
    RioWriteBulkString(r, lbuf);
  }
}
