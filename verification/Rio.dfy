/** Streams (rio.h, rio.c): what is written or read also runs through the checksum, if one is kept. */
module Rio {
  import opened Bytes
  import Crc64

  class Stream {
    var data: bytes
    var pos: nat
    var summed: bool
    var cksum: bv64

    ghost function Sum(s: bytes): bv64
      reads this`summed
    {
      if summed then Crc64.Crc(0, s) else 0
    }

    /** The running checksum is that of everything that passed, however it was divided. */
    ghost predicate Valid()
      reads this
    {
      pos <= |data| && cksum == Sum(data[..pos])
    }

    /** Everything so far was written, nothing is left to read. */
    ghost predicate AtEnd()
      reads this
    {
      Valid() && pos == |data|
    }

    constructor (contents: bytes, summed: bool)
      ensures Valid() && data == contents && pos == 0 && this.summed == summed
    {
      this.data, this.pos, this.summed, this.cksum := contents, 0, summed, 0;
      new;
      assert data[..0] == [];
    }

    /** rioWrite, on a stream that is only written to. */
    method Write(buf: bytes)
      requires AtEnd()
      modifies this`data, this`pos, this`cksum
      ensures AtEnd() && data == old(data) + buf
    {
      hide Crc64.Crc;
      assert data[..pos] == data && (data + buf)[..pos + |buf|] == data + buf;
      if summed {
        Crc64.CrcAppend(0, data, buf);
        cksum := Crc64.Crc64(cksum, buf);
      }
      data := data + buf;
      pos := pos + |buf|;
    }

    /** rioRead, from a file: reading nothing counts as a failure, and a short read, too. (A short
        read leaves a file at its end, but no caller goes on after it.) */
    method Read(len: nat) returns (ok: bool, buf: bytes)
      requires Valid()
      modifies this`pos, this`cksum
      ensures Valid()
      ensures ok <==> len > 0 && old(pos) + len <= |data|
      ensures if ok then pos == old(pos) + len && buf == data[old(pos)..pos] else pos == old(pos) && buf == []
    {
      hide Crc64.Crc;
      if len == 0 || pos + len > |data| {
        return false, [];
      }
      ok, buf := true, data[pos..pos + len];
      assert data[..pos] + buf == data[..pos + len];
      if summed {
        Crc64.CrcAppend(0, data[..pos], buf);
        cksum := Crc64.Crc64(cksum, buf);
      }
      pos := pos + len;
    }
  }
}
