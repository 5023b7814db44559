/**
 The LZF decompressor (lzf_d.c): expands arbitrary octets into a buffer of given size, copying back
 references octet by octet so that a reference may overlap what it produces.
 */
module LzfDecompress {
  import opened Bytes
  import opened LzfFormat

  datatype ErrNo = NoError | E2BIG | EINVAL

  /** Copies `n` octets forward inside `out`, from `ref` to `op`. */
  method CopyReference(out: array<u8>, op: nat, ref: nat, n: nat)
    requires ref < op && op + n <= out.Length
    modifies out
    ensures out[..op + n] == CopyFrom(old(out[..op]), ref, n)
    ensures out[op + n..] == old(out[op + n..])
  {
    ghost var result := CopyFrom(out[..op], ref, n);
    var k := 0;
    while k < n
      invariant k <= n
      invariant CopyFrom(out[..op + k], ref + k, n - k) == result
      invariant out[op + n..] == old(out[op + n..])
    {
      ghost var done := out[..op + k];
      out[op + k] := out[ref + k];
      assert out[..op + k + 1] == done + [done[ref + k]];
      k := k + 1;
    }
  }

  /** Copies a run of `n` literal octets. */
  method CopyRun(inp: array<u8>, ip: nat, out: array<u8>, op: nat, n: nat)
    requires inp != out && ip + n <= inp.Length && op + n <= out.Length
    modifies out
    ensures out[..op + n] == old(out[..op]) + inp[ip..ip + n]
    ensures out[op + n..] == old(out[op + n..])
  {
    var k := 0;
    while k < n
      invariant k <= n
      invariant out[..op + k] == old(out[..op]) + inp[ip..ip + k]
      invariant out[op + n..] == old(out[op + n..])
    {
      ghost var done := out[..op + k];
      out[op + k] := inp[ip + k];
      assert out[..op + k + 1] == done + [inp[ip + k]];
      k := k + 1;
    }
  }

  /** What expanding from a control octet at `ip0` did: an error, or some output and a new position. */
  ghost predicate Expanded(src: bytes, ip0: nat, done0: bytes, cap: nat, err: ErrNo, ip: nat, done: bytes) {
    && ip0 <= |src| && |done0| <= cap
    && match err
       case NoError => ip0 < ip <= |src| && |done0| < |done| <= cap
                       && DecodeFrom(src, ip0, done0, cap) == DecodeFrom(src, ip, done, cap)
       case E2BIG => DecodeFrom(src, ip0, done0, cap) == TooBig
       case EINVAL => DecodeFrom(src, ip0, done0, cap) == Invalid
  }

  /** Expands the literal run at `ip0`. */
  method ExpandRun(inp: array<u8>, out: array<u8>, outLen: nat, ip0: nat, op0: nat)
    returns (err: ErrNo, ip: nat, op: nat)
    requires inp != out && ip0 < inp.Length && inp[ip0] < 32 && op0 <= outLen <= out.Length
    modifies out
    ensures op <= outLen && Expanded(inp[..], ip0, old(out[..op0]), outLen, err, ip, out[..op])
    ensures err != NoError ==> out[..] == old(out[..])
    ensures op0 <= op && out[..][op..] == old(out[..])[op..]
  {
    var ctrl: int := inp[ip0];
    ip, op := ip0 + 1, op0;
    ctrl := ctrl + 1;
    if op + ctrl > outLen {
      return E2BIG, ip, op;
    }
    if ip + ctrl > inp.Length {
      return EINVAL, ip, op;
    }
    assert inp[..][ip..ip + ctrl] == inp[ip..ip + ctrl];
    CopyRun(inp, ip, out, op, ctrl);
    op, ip := op + ctrl, ip + ctrl;
    err := NoError;
  }

  /** Expands the back reference at `ip0`. */
  method ExpandReference(inp: array<u8>, out: array<u8>, outLen: nat, ip0: nat, op0: nat)
    returns (err: ErrNo, ip: nat, op: nat)
    requires inp != out && ip0 < inp.Length && inp[ip0] >= 32 && op0 <= outLen <= out.Length
    modifies out
    ensures op <= outLen && Expanded(inp[..], ip0, old(out[..op0]), outLen, err, ip, out[..op])
    ensures err != NoError ==> out[..] == old(out[..])
    ensures op0 <= op && out[..][op..] == old(out[..])[op..]
  {
    hide CopyFrom;
    var ctrl: int := inp[ip0];
    ip, op := ip0 + 1, op0;
    var len: int := ctrl / 32;
    var ref: int := op - ctrl % 32 * 256 - 1;
    if ip >= inp.Length {
      return EINVAL, ip, op;
    }
    if len == 7 {
      len := len + inp[ip] as int;
      ip := ip + 1;
      if ip >= inp.Length {
        return EINVAL, ip, op;
      }
    }
    ref := ref - inp[ip] as int;
    ip := ip + 1;
    if op + len + 2 > outLen {
      return E2BIG, ip, op;
    }
    if ref < 0 {
      return EINVAL, ip, op;
    }
    CopyReference(out, op, ref, len + 2);
    op := op + len + 2;
    err := NoError;
  }

  lemma DecodeDone(src: bytes, done: bytes, cap: nat)
    requires |done| <= cap
    ensures DecodeFrom(src, |src|, done, cap) == Ok(done)
  {}

  /**
   Expands `inp` into the first `outLen` octets of `out`. Returns the number of octets produced, or 0
   with the reason. The first control octet is read before the first bounds test, so the input is not
   empty; otherwise it is arbitrary.
   */
  method Decompress(inp: array<u8>, out: array<u8>, outLen: nat) returns (n: nat, err: ErrNo)
    requires inp != out && inp.Length > 0 && outLen <= out.Length
    modifies out
    ensures match Decode(inp[..], outLen) {
              case Ok(data) => err == NoError && n == |data| && 0 < n <= outLen && out[..n] == data
                  && out[..][n..] == old(out[..])[n..]
              case TooBig => n == 0 && err == E2BIG
              case Invalid => n == 0 && err == EINVAL
            }
    ensures out[..][outLen..] == old(out[..])[outLen..]
  {
    hide DecodeFrom;
    ghost var src, was := inp[..], out[..];
    ghost var answer := Decode(src, outLen);
    var ip, op := 0, 0;
    while true
      invariant 0 <= ip < inp.Length && 0 <= op <= outLen
      invariant DecodeFrom(src, ip, out[..op], outLen) == answer
      invariant out[..][op..] == was[op..]
      decreases inp.Length - ip
    {
      if inp[ip] < 32 {
        err, ip, op := ExpandRun(inp, out, outLen, ip, op);
      } else {
        err, ip, op := ExpandReference(inp, out, outLen, ip, op);
      }
      if err != NoError {
        return 0, err;
      }
      if ip >= inp.Length {
        break;
      }
    }
    DecodeDone(src, out[..op], outLen);
    return op, NoError;
  }
}
