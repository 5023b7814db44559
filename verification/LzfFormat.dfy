/**
 The LZF byte format as a language of tokens, and the decoder of lzf_d.c as a function.

 A token is either a run of 1 to 32 literal octets, or a reference of 3 to 264 octets that starts
 `off + 1` octets before the end of what has been produced so far. A reference may reach past the end
 of the data it starts from: it then re-reads octets that it has itself produced.
 */
module LzfFormat {
  import opened Bytes
  import opened Wrappers

  const MAX_LIT: int := 32
  const MAX_OFF: int := 8192
  const MAX_REF: int := 264

  datatype RawToken =
    | Literal(run: bytes)
    | BackRef(off: nat, len: nat)
  {
    predicate WellFormed() {
      match this
      case Literal(run) => 1 <= |run| <= MAX_LIT
      case BackRef(off, len) => off < MAX_OFF && 3 <= len <= MAX_REF
    }
  }

  type Token = t: RawToken | t.WellFormed() witness Literal([0])

  /** Appends `n` octets to `data`, each a copy of the octet at a source position that starts at
      `from` and advances with the end of the data. */
  function CopyFrom(data: bytes, from: nat, n: nat): (r: bytes)
    requires from < |data|
    ensures |r| == |data| + n && data <= r
    decreases n
  {
    if n == 0 then data else CopyFrom(data + [data[from]], from + 1, n - 1)
  }

  /** A reference must start inside the data it follows. */
  predicate Applies(t: Token, done: bytes) {
    t.BackRef? ==> t.off < |done|
  }

  function Apply(done: bytes, t: Token): bytes
    requires Applies(t, done)
  {
    match t
    case Literal(run) => done + run
    case BackRef(off, len) => CopyFrom(done, |done| - off - 1, len)
  }

  /** What a token sequence stands for; None when one of its references starts before the data. */
  function Meaning(ts: seq<Token>): Option<bytes> {
    if ts == [] then Some([])
    else
      var init := Meaning(ts[..|ts| - 1]);
      var t := ts[|ts| - 1];
      if init.Some? && Applies(t, init.value) then Some(Apply(init.value, t)) else None
  }

  /** The octets of one token (the three forms documented at the head of the compressor). */
  function Encode(t: Token): bytes {
    match t
    case Literal(run) => [|run| - 1] + run
    case BackRef(off, len) =>
      if len < 9 then [off / 256 + (len - 2) * 32, off % 256]
      else [off / 256 + 7 * 32, len - 9, off % 256]
  }

  function Serialize(ts: seq<Token>): bytes {
    if ts == [] then [] else Serialize(ts[..|ts| - 1]) + Encode(ts[|ts| - 1])
  }

  datatype Outcome =
    | Ok(data: bytes)
    | TooBig   // E2BIG: the output does not fit
    | Invalid  // EINVAL: the input is malformed

  /** The decoder from input position `ip`, with `done` already produced and room for `cap` octets. */
  function DecodeFrom(src: bytes, ip: nat, done: bytes, cap: nat): (r: Outcome)
    requires ip <= |src| && |done| <= cap
    ensures r.Ok? ==> done <= r.data && |r.data| <= cap
    decreases |src| - ip
  {
    if ip == |src| then Ok(done)
    else
      var ctrl: int := src[ip];
      if ctrl < 32 then
        var n := ctrl + 1;
        if |done| + n > cap then TooBig
        else if ip + 1 + n > |src| then Invalid
        else DecodeFrom(src, ip + 1 + n, done + src[ip + 1..ip + 1 + n], cap)
      else
        var long := ctrl / 32 == 7;
        if ip + 1 >= |src| || (long && ip + 2 >= |src|) then Invalid
        else
          var len: nat := if long then 7 + src[ip + 1] as int else ctrl / 32;
          var last := if long then ip + 2 else ip + 1;
          var ref: int := |done| - ctrl % 32 * 256 - 1 - src[last] as int;
          if |done| + len + 2 > cap then TooBig
          else if ref < 0 then Invalid
          else DecodeFrom(src, last + 1, CopyFrom(done, ref, len + 2), cap)
  }

  function Decode(src: bytes, cap: nat): Outcome {
    DecodeFrom(src, 0, [], cap)
  }

  /** A copy is self-referential: every new octet equals the one `|data| - from` positions earlier in
      the result, whether or not that position was itself written by the copy. */
  lemma {:induction false} CopyFromRepeats(data: bytes, from: nat, n: nat)
    requires from < |data|
    ensures var r := CopyFrom(data, from, n);
            data <= r && forall i :: |data| <= i < |r| ==> r[i] == r[i - (|data| - from)]
    decreases n
  {
    if n > 0 {
      var longer := data + [data[from]];
      CopyFromRepeats(longer, from + 1, n - 1);
      var r := CopyFrom(data, from, n);
      assert r[|data|] == longer[|data|] && r[from] == longer[from];
    }
  }

  /** Copying a stretch that the text repeats at distance `ip - ref` reproduces the text, even when
      the stretch overlaps itself. */
  lemma {:induction false} CopyFromReproduces(s: bytes, ref: nat, ip: nat, n: nat)
    requires ref < ip && ip + n <= |s|
    requires forall i :: ip <= i < ip + n ==> s[i] == s[i - (ip - ref)]
    ensures CopyFrom(s[..ip], ref, n) == s[..ip + n]
    decreases n
  {
    if n > 0 {
      assert s[ip] == s[ip - (ip - ref)];
      assert s[..ip] + [s[ip]] == s[..ip + 1];
      CopyFromReproduces(s, ref + 1, ip + 1, n - 1);
    }
  }

  lemma AppendToken(ts: seq<Token>, t: Token)
    ensures Serialize(ts + [t]) == Serialize(ts) + Encode(t)
    ensures Meaning(ts).Some? && Applies(t, Meaning(ts).value) ==>
              Meaning(ts + [t]) == Some(Apply(Meaning(ts).value, t))
  {
    assert (ts + [t])[..|ts|] == ts;
  }

  lemma DecodeLiteral(src: bytes, ip: nat, run: bytes, done: bytes, cap: nat)
    requires 1 <= |run| <= MAX_LIT && |done| <= cap && ip + 1 + |run| <= |src|
    requires src[ip] == |run| - 1 && src[ip + 1..ip + 1 + |run|] == run
    ensures DecodeFrom(src, ip, done, cap) ==
            if |done| + |run| <= cap then DecodeFrom(src, ip + 1 + |run|, done + run, cap) else TooBig
  {}

  lemma DecodeShortRef(src: bytes, ip: nat, off: nat, len: nat, done: bytes, cap: nat)
    requires ip + 2 <= |src| && off < MAX_OFF && 3 <= len < 9 && off < |done| <= cap
    requires src[ip] == off / 256 + (len - 2) * 32 && src[ip + 1] == off % 256
    ensures DecodeFrom(src, ip, done, cap) ==
            if |done| + len > cap then TooBig
            else DecodeFrom(src, ip + 2, CopyFrom(done, |done| - off - 1, len), cap)
  {
    var ctrl: int := src[ip];
    assert ctrl / 32 == len - 2 && ctrl % 32 == off / 256;
  }

  lemma LongControl(off: nat)
    requires off < MAX_OFF
    ensures (off / 256 + 224) / 32 == 7 && (off / 256 + 224) % 32 == off / 256
    ensures off / 256 * 256 + off % 256 == off
  {}

  lemma DecodeLongRef(src: bytes, ip: nat, off: nat, len: nat, done: bytes, cap: nat)
    requires ip + 3 <= |src| && off < MAX_OFF && 9 <= len <= MAX_REF && off < |done| <= cap
    requires src[ip] == off / 256 + 224 && src[ip + 1] == len - 9 && src[ip + 2] == off % 256
    ensures DecodeFrom(src, ip, done, cap) ==
            if |done| + len > cap then TooBig
            else DecodeFrom(src, ip + 3, CopyFrom(done, |done| - off - 1, len), cap)
  {
    hide CopyFrom;
    LongControl(off);
  }

  /** The decoder undoes one token wherever it stands in the input. */
  lemma DecodeToken(src: bytes, ip: nat, t: Token, done: bytes, cap: nat)
    requires Applies(t, done) && |done| <= cap && ip + |Encode(t)| <= |src|
    requires src[ip..ip + |Encode(t)|] == Encode(t)
    ensures DecodeFrom(src, ip, done, cap) ==
            if |Apply(done, t)| <= cap then DecodeFrom(src, ip + |Encode(t)|, Apply(done, t), cap) else TooBig
  {
    hide DecodeFrom, CopyFrom;
    var e := Encode(t);
    assert src[ip] == e[0] && src[ip + 1] == e[1];
    match t
    case Literal(run) =>
      assert src[ip + 1..ip + 1 + |run|] == e[1..];
      DecodeLiteral(src, ip, run, done, cap);
    case BackRef(off, len) =>
      if len < 9 {
        DecodeShortRef(src, ip, off, len, done, cap);
      } else {
        assert src[ip + 2] == e[2];
        DecodeLongRef(src, ip, off, len, done, cap);
      }
  }

  /** Decoding a serialized token sequence yields its meaning exactly when the output buffer can hold
      it, and otherwise reports that the output is too big. */
  lemma {:induction false} DecodeSerialized(ts: seq<Token>, src: bytes, cap: nat)
    requires Meaning(ts).Some? && Serialize(ts) <= src
    ensures var m := Meaning(ts).value;
            Decode(src, cap) ==
            if |m| <= cap then DecodeFrom(src, |Serialize(ts)|, m, cap) else TooBig
    decreases |ts|
  {
    if ts != [] {
      var init, t := ts[..|ts| - 1], ts[|ts| - 1];
      var ip, end := |Serialize(init)|, |Serialize(ts)|;
      assert Serialize(init) <= src;
      DecodeSerialized(init, src, cap);
      var done := Meaning(init).value;
      if |done| <= cap {
        assert src[ip..end] == Encode(t) by {
          assert src[ip..end] == src[..end][ip..];
        }
        DecodeToken(src, ip, t, done, cap);
      }
    }
  }

  /** The octets `o` are a compressed form of `s`: every sufficient output buffer receives `s`, and
      every smaller one is reported as too small. */
  ghost predicate Represents(o: bytes, s: bytes) {
    forall cap: nat :: Decode(o, cap) == if |s| <= cap then Ok(s) else TooBig
  }

  lemma SerializedRepresents(ts: seq<Token>)
    requires Meaning(ts).Some?
    ensures Represents(Serialize(ts), Meaning(ts).value)
  {
    forall cap: nat {
      DecodeSerialized(ts, Serialize(ts), cap);
    }
  }

  /** Compressed forms are unambiguous. */
  lemma RepresentsUnique(o: bytes, s: bytes, t: bytes)
    requires Represents(o, s) && Represents(o, t)
    ensures s == t
  {
    var cap := |s| + |t|;
    assert Decode(o, cap) == Ok(s) && Decode(o, cap) == Ok(t);
  }

  // Malformed input ------------------------------------------------------------------------------

  lemma CutToken(src: bytes, ip: nat, t: Token, done: bytes, cap: nat)
    requires ip < |src| < ip + |Encode(t)| && src[ip..] == Encode(t)[..|src| - ip]
    requires |done| + (if t.Literal? then |t.run| else t.len) <= cap
    ensures DecodeFrom(src, ip, done, cap) == Invalid
  {
    var e := Encode(t);
    assert src[ip] == src[ip..][0] == e[0];
    if t.BackRef? && t.len >= 9 {
      LongControl(t.off);
    }
  }

  /** Input that ends in the middle of a token is reported as malformed. */
  lemma TruncatedInvalid(ts: seq<Token>, t: Token, k: nat, cap: nat)
    requires Meaning(ts).Some? && 0 < k < |Encode(t)|
    requires |Meaning(ts).value| + (if t.Literal? then |t.run| else t.len) <= cap
    ensures Decode(Serialize(ts) + Encode(t)[..k], cap) == Invalid
  {
    hide DecodeFrom, Encode, Serialize, Meaning;
    var front, part := Serialize(ts), Encode(t)[..k];
    var src := front + part;
    DecodeSerialized(ts, src, cap);
    assert src[|front|..] == part;
    CutToken(src, |front|, t, Meaning(ts).value, cap);
  }

  lemma FarToken(src: bytes, ip: nat, off: nat, len: nat, done: bytes, cap: nat)
    requires off < MAX_OFF && 3 <= len <= MAX_REF && |done| <= off && |done| + len <= cap
    requires var e := Encode(BackRef(off, len)); ip + |e| <= |src| && src[ip..ip + |e|] == e
    ensures DecodeFrom(src, ip, done, cap) == Invalid
  {
    var e := Encode(BackRef(off, len));
    assert src[ip] == e[0] && src[ip + 1] == e[1] && (len >= 9 ==> src[ip + 2] == e[2]);
    LongControl(off);
    if len < 9 {
      var ctrl: int := src[ip];
      assert ctrl / 32 == len - 2 && ctrl % 32 == off / 256;
    }
  }

  /** So is a reference to something before the beginning of the data. */
  lemma FarReferenceInvalid(ts: seq<Token>, off: nat, len: nat, rest: bytes, cap: nat)
    requires Meaning(ts).Some? && off < MAX_OFF && 3 <= len <= MAX_REF
    requires |Meaning(ts).value| <= off && |Meaning(ts).value| + len <= cap
    ensures Decode(Serialize(ts) + Encode(BackRef(off, len)) + rest, cap) == Invalid
  {
    hide DecodeFrom, Encode, Serialize, Meaning;
    var front, e := Serialize(ts), Encode(BackRef(off, len));
    var src := front + e + rest;
    assert src == front + (e + rest);
    DecodeSerialized(ts, src, cap);
    assert src[|front|..|front| + |e|] == e;
    FarToken(src, |front|, off, len, Meaning(ts).value, cap);
  }
}
