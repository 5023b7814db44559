/**
 The LZF compressor (lzf_c.c): one pass over the input that appends to the output buffer, keeps the
 header octet of the run being collected unwritten until the run ends, and looks for repeats through
 a hash table of addresses that nobody has initialised.
 */
module LzfCompress {
  import opened Bytes
  import opened Wrappers
  import opened LzfFormat
  import opened LzfSearch

  // States ---------------------------------------------------------------------------------------

  /** The state between two tokens: the first `op` octets of the output are whole tokens that stand
      for the first `ip` octets of the input. */
  ghost predicate Closed(o: bytes, s: bytes, ip: nat, op: nat, ts: seq<Token>) {
    && ip <= |s| && op <= |o|
    && Serialize(ts) == o[..op]
    && Meaning(ts) == Some(s[..ip])
  }

  /** The state inside a run: the header octet is reserved at `op - lit - 1` but not yet written. */
  ghost predicate InRun(o: bytes, s: bytes, ip: nat, op: nat, lit: nat, ts: seq<Token>) {
    && lit <= MAX_LIT && lit <= ip <= |s| && lit < op
    && Closed(o, s, ip - lit, op - lit - 1, ts)
    && (lit > 0 ==> op <= |o| && o[op - lit..op] == s[ip - lit..ip])
  }

  lemma ClosedFrame(o: bytes, o': bytes, s: bytes, ip: nat, op: nat, ts: seq<Token>)
    requires Closed(o, s, ip, op, ts) && op <= |o'| && o'[..op] == o[..op]
    ensures Closed(o', s, ip, op, ts)
  {}

  /** One more token, already present in the output, that accounts for the next stretch of input. */
  lemma ClosedSnoc(o: bytes, s: bytes, ip: nat, op: nat, ts: seq<Token>, t: Token, ip': nat, op': nat)
    requires Closed(o, s, ip, op, ts) && ip' <= |s| && op <= op' <= |o|
    requires Applies(t, s[..ip]) && Apply(s[..ip], t) == s[..ip']
    requires o[op..op'] == Encode(t)
    ensures Closed(o, s, ip', op', ts + [t])
  {
    AppendToken(ts, t);
    assert o[..op] + o[op..op'] == o[..op'];
  }

  lemma TokenMoves(ts: seq<Token>, t: Token)
    ensures Moves(ts + [t]) == Moves(ts) + MovesOf(t)
  {
    assert (ts + [t])[..|ts|] == ts;
  }

  lemma LitMoves(ts: seq<Token>, run: bytes)
    requires 1 <= |run| <= MAX_LIT
    ensures Moves(ts + [Literal(run)]) == Moves(ts) + Lits(|run|)
  {
    TokenMoves(ts, Literal(run));
  }

  lemma PutLiteral(o: bytes, s: bytes, ip: nat, op: nat, lit: nat, ts: seq<Token>)
    requires InRun(o, s, ip, op, lit, ts) && ip < |s| && op < |o| && lit < MAX_LIT
    ensures InRun(o[op := s[ip]], s, ip + 1, op + 1, lit + 1, ts)
  {
    hide Closed, Serialize, Meaning;
    var o' := o[op := s[ip]];
    assert o'[..op - lit - 1] == o[..op - lit - 1];
    ClosedFrame(o, o', s, ip - lit, op - lit - 1, ts);
    assert o'[op - lit..op] == o[op - lit..op];
    assert o'[op - lit..op + 1] == o'[op - lit..op] + [s[ip]];
  }

  lemma NoLits(ms: seq<Move>)
    ensures ms + Lits(0) == ms
  {}

  /** Writing the header ends a run. An empty run is undone by stepping back over its header. */
  lemma StopRun(o: bytes, s: bytes, ip: nat, op: nat, lit: nat, ts: seq<Token>, header: u8)
    returns (ts': seq<Token>)
    requires InRun(o, s, ip, op, lit, ts) && op - lit - 1 < |o|
    requires lit > 0 ==> header == lit - 1
    ensures Closed(o[op - lit - 1 := header], s, ip, if lit == 0 then op - 1 else op, ts')
    ensures Moves(ts') == Moves(ts) + Lits(lit)
  {
    hide Meaning, Serialize, Moves, Lits;
    var k := op - lit - 1;
    var o' := o[k := header];
    assert o'[..k] == o[..k];
    ClosedFrame(o, o', s, ip - lit, k, ts);
    if lit == 0 {
      ts' := ts;
      NoLits(Moves(ts));
    } else {
      var t: Token := Literal(s[ip - lit..ip]);
      ts' := ts + [t];
      LitMoves(ts, t.run);
      assert s[..ip - lit] + t.run == s[..ip];
      assert o'[k + 1..op] == o[op - lit..op];
      assert o'[k..op] == [header] + o'[k + 1..op];
      ClosedSnoc(o', s, ip - lit, k, ts, t, ip, op);
    }
  }

  lemma ReferenceMeans(s: bytes, ip: nat, off: nat, len: nat)
    requires off < MAX_OFF && off < ip && 3 <= len <= MAX_REF && ip + len <= |s|
    requires forall i :: ip <= i < ip + len ==> s[i] == s[i - off - 1]
    ensures Applies(BackRef(off, len), s[..ip]) && Apply(s[..ip], BackRef(off, len)) == s[..ip + len]
  {
    forall i | ip <= i < ip + len ensures s[i] == s[i - (ip - (ip - off - 1))] {
      assert s[i] == s[i - off - 1];
    }
    CopyFromReproduces(s, ip - off - 1, ip, len);
  }

  lemma WithinInput(o: bytes, s: bytes, ip: nat, op: nat, ts: seq<Token>)
    requires Closed(o, s, ip, op, ts)
    ensures ip <= |s| && op <= |o|
  {}

  lemma PutReference(o: bytes, s: bytes, ip: nat, op: nat, ts: seq<Token>, off: nat, len: nat, o': bytes)
    returns (ts': seq<Token>)
    requires Closed(o, s, ip, op, ts)
    requires off < MAX_OFF && off < ip && 3 <= len <= MAX_REF && ip + len <= |s|
    requires forall i :: ip <= i < ip + len ==> s[i] == s[i - off - 1]
    requires |o'| == |o| && op + |Encode(BackRef(off, len))| <= |o|
    requires o'[..op] == o[..op]
    requires o'[op..op + |Encode(BackRef(off, len))|] == Encode(BackRef(off, len))
    ensures Closed(o', s, ip + len, op + |Encode(BackRef(off, len))|, ts')
    ensures Moves(ts') == Moves(ts) + [Ref(off, len)]
  {
    hide Closed, Applies, Apply, Encode;
    var t: Token := BackRef(off, len);
    ts' := ts + [t];
    TokenMoves(ts, t);
    WithinInput(o, s, ip, op, ts);
    ReferenceMeans(s, ip, off, len);
    ClosedFrame(o, o', s, ip, op, ts);
    ClosedSnoc(o', s, ip, op, ts, t, ip + len, op + |Encode(t)|);
  }

  /** The whole tokens so far take at most 33 octets for every 32 of input. */
  ghost predicate Compact(ip: nat, op: nat, lit: nat) {
    32 * (op - lit - 1) <= 33 * (ip - lit)
  }

  lemma FirstRun(o: bytes, s: bytes)
    ensures InRun(o, s, 0, 1, 0, []) && Compact(0, 1, 0)
  {
    assert o[..0] == [] && s[..0] == [];
  }

  /** Inside a run the output is never further ahead of the input than the worst case allows. */
  lemma RoomUsed(o: bytes, s: bytes, ip: nat, op: nat, lit: nat, ts: seq<Token>)
    requires InRun(o, s, ip, op, lit, ts) && Compact(ip, op, lit)
    ensures lit < op <= ip + ip / 32 + 1 && lit <= ip
    ensures op <= ip + (ip - lit) / 32 + 1
  {}

  // The compressor -------------------------------------------------------------------------------

  /** The comparison of one octet after the other. */
  method MatchRest(inp: array<u8>, ref: nat, ip: nat, maxlen: nat, done: nat) returns (len: nat)
    requires ref < ip && ip + 4 < inp.Length && ip + maxlen <= inp.Length && 3 <= done
    requires done <= maxlen || (maxlen > 16 && done == 19)
    requires ip + done <= inp.Length
    requires forall i :: ip <= i < ip + done ==> inp[i] == inp[i - (ip - ref)]
    ensures len == done || done <= len <= maxlen
    ensures forall i :: ip <= i < ip + len ==> inp[i] == inp[i - (ip - ref)]
    ensures len < maxlen ==> inp[ref + len] != inp[ip + len]
  {
    len := done;
    while len < maxlen && inp[ref + len] == inp[ip + len]
      invariant len == done || done <= len <= maxlen
      invariant forall i :: ip <= i < ip + len ==> inp[i] == inp[i - (ip - ref)]
    {
      len := len + 1;
    }
  }

  /** The number of octets, at least three, that repeat at `ref` what stands at `ip`. The first 16
      comparisons are not bounded by `maxlen` individually; a single test for maxlen > 16 covers
      them. `len` may therefore exceed `maxlen`, but never what is left of the input. */
  method MatchLength(inp: array<u8>, ref: nat, ip: nat, maxlen: nat) returns (len: nat)
    requires ref < ip && ip + 4 < inp.Length
    requires maxlen == if inp.Length - ip - 2 > MAX_REF then MAX_REF else inp.Length - ip - 2
    requires inp[ref] == inp[ip] && inp[ref + 1] == inp[ip + 1] && inp[ref + 2] == inp[ip + 2]
    ensures 3 <= len <= MAX_REF && ip + len <= inp.Length
    ensures forall i :: ip <= i < ip + len ==> inp[i] == inp[i - (ip - ref)]
    ensures len < maxlen ==> inp[ref + len] != inp[ip + len]
  {
    len := 2;
    if maxlen > 16 {
      var k := 0;
      while k < 16
        invariant k <= 16 && len == 2 + k
        invariant forall i :: ip <= i <= ip + len ==> inp[i] == inp[i - (ip - ref)]
      {
        len := len + 1;
        if inp[ref + len] != inp[ip + len] {
          return;
        }
        k := k + 1;
      }
    }
    len := len + 1;
    len := MatchRest(inp, ref, ip, maxlen, len);
  }

  /** Writes the two or three octets of a reference of `len` octets at distance `off + 1`. */
  method EmitReference(out: array<u8>, op: nat, off: nat, len: nat) returns (op': nat)
    requires off < MAX_OFF && 3 <= len <= MAX_REF && op + 3 <= out.Length
    modifies out
    ensures op' == op + |Encode(BackRef(off, len))|
    ensures out[..op] == old(out[..op]) && out[op..op'] == Encode(BackRef(off, len))
    ensures out[op'..] == old(out[op'..])
  {
    var l := len - 2;  // octets of the reference, less two
    op' := op;
    if l < 7 {
      out[op'] := off / 256 + l * 32;
      op' := op' + 1;
    } else {
      out[op'] := off / 256 + 7 * 32;
      op' := op' + 1;
      out[op'] := l - 7;
      op' := op' + 1;
    }
    out[op'] := off % 256;
    op' := op' + 1;
  }

  /** Writes the header of the current run; the header of an empty run is taken back. */
  method EndRun(inp: array<u8>, out: array<u8>, ip: nat, op: nat, lit: nat, ghost ts: seq<Token>)
    returns (op': nat, ghost ts': seq<Token>)
    requires inp != out && op - lit - 1 < out.Length
    requires InRun(out[..], inp[..], ip, op, lit, ts)
    modifies out
    ensures Closed(out[..], inp[..], ip, op', ts') && Moves(ts') == Moves(ts) + Lits(lit)
    ensures op' == if lit == 0 then op - 1 else op
    ensures forall i :: op <= i < out.Length ==> out[i] == old(out[i])
  {
    hide Meaning, Serialize, Moves, Lits;
    var header: u8 := (lit - 1) % 0x100;
    ts' := StopRun(out[..], inp[..], ip, op, lit, ts, header);
    ghost var o := out[..];
    out[op - lit - 1] := header;
    assert out[..] == o[op - lit - 1 := header];
    op' := if lit == 0 then op - 1 else op;
  }

  lemma OneMoreLit(ms: seq<Move>, lit: nat)
    ensures ms + Lits(lit + 1) == ms + Lits(lit) + [Lit]
  {
    assert Lits(lit + 1) == Lits(lit) + [Lit];
  }

  /** Copies one octet into the current run, and closes the run when it has reached MAX_LIT. */
  method CopyLiteral(inp: array<u8>, out: array<u8>, outLen: nat, ip: nat, op: nat, lit: nat,
                     ghost ts: seq<Token>)
    returns (ip': nat, op': nat, lit': nat, ghost ts': seq<Token>)
    requires inp != out && ip < inp.Length && op < outLen < out.Length && lit < MAX_LIT
    requires InRun(out[..], inp[..], ip, op, lit, ts) && Compact(ip, op, lit)
    modifies out
    ensures ip' == ip + 1 && lit' == (lit + 1) % MAX_LIT
    ensures op' == if lit' == 0 then op + 2 else op + 1
    ensures InRun(out[..], inp[..], ip', op', lit', ts') && Compact(ip', op', lit')
    ensures Moves(ts') + Lits(lit') == Moves(ts) + Lits(lit) + [Lit]
    ensures forall i :: outLen < i < out.Length ==> out[i] == old(out[i])
  {
    hide Meaning, Serialize, Moves, Lits;
    OneMoreLit(Moves(ts), lit);
    ghost var o, s := out[..], inp[..];
    PutLiteral(o, s, ip, op, lit, ts);
    ts' := ts;
    out[op] := inp[ip];
    assert out[..] == o[op := s[ip]];
    ip', op', lit' := ip + 1, op + 1, lit + 1;
    if lit' == MAX_LIT {
      op', ts' := EndRun(inp, out, ip', op', lit', ts);
      lit', op' := 0, op' + 1;  // start run
      NoLits(Moves(ts'));
    }
  }

  lemma AllRead(o: bytes, s: bytes, op: nat, ts: seq<Token>)
    requires Closed(o, s, |s|, op, ts) && s != []
    ensures Represents(o[..op], s) && op > 0
  {
    assert s[..|s|] == s;
    SerializedRepresents(ts);
  }

  lemma CompactRun(o: bytes, s: bytes, ip: nat, op: nat, lit: nat, ts: seq<Token>)
    requires InRun(o, s, ip, op, lit, ts) && Compact(ip, op, lit)
    ensures 32 * (op - lit - 1) <= 33 * (ip - lit) && lit <= ip && lit < op
  {}

  /** A new run begins after a finished token. */
  lemma NewRun(o: bytes, s: bytes, ip: nat, op: nat, ts: seq<Token>)
    requires Closed(o, s, ip, op, ts) && 32 * op <= 33 * ip
    ensures InRun(o, s, ip, op + 1, 0, ts) && Compact(ip, op + 1, 0)
  {}

  lemma ReferenceLength(off: nat, len: nat)
    requires off < MAX_OFF && 3 <= len <= MAX_REF
    ensures 2 <= |Encode(BackRef(off, len))| <= 3 && 32 * |Encode(BackRef(off, len))| + 32 <= 33 * len
  {}

  /** Ends the current run and emits a reference to `ref`, unless the output is too short for it. */
  method PutMatch(inp: array<u8>, out: array<u8>, outLen: nat, ip: nat, op: nat, lit: nat, ref: nat,
                  ghost ts: seq<Token>)
    returns (ok: bool, ip': nat, op': nat, ghost ts': seq<Token>)
    requires inp != out && lit < MAX_LIT && op <= outLen + 1 && outLen < out.Length
    requires InRun(out[..], inp[..], ip, op, lit, ts) && Compact(ip, op, lit)
    requires ref < ip && ip + 4 < inp.Length && ip - ref <= MAX_OFF
    requires inp[ref] == inp[ip] && inp[ref + 1] == inp[ip + 1] && inp[ref + 2] == inp[ip + 2]
    modifies out
    ensures !ok ==> op + 4 >= outLen
    ensures ok ==> ip + 3 <= ip' <= inp.Length && op' <= outLen
    ensures ok ==> InRun(out[..], inp[..], ip', op', 0, ts') && Compact(ip', op', 0)
    ensures ok ==> Moves(ts') == Moves(ts) + Lits(lit) + [Ref(ip - ref - 1, ip' - ip)]
    ensures ok ==> Repeats(inp[..], ip, ref, ip' - ip)
    ensures forall i :: outLen < i < out.Length ==> out[i] == old(out[i])
  {
    hide Meaning, Serialize, InRun, Closed, Compact, Encode, Moves, Lits;
    var maxlen := if inp.Length - ip - 2 > MAX_REF then MAX_REF else inp.Length - ip - 2;
    assert 32 * (op - lit - 1) <= 33 * (ip - lit) && lit <= ip && lit < op by {
      CompactRun(out[..], inp[..], ip, op, lit, ts);
    }
    op', ts' := EndRun(inp, out, ip, op, lit, ts);
    ip' := ip;
    if op' + 3 + 1 >= outLen {
      return false, ip', op', ts';
    }
    var len := MatchLength(inp, ref, ip, maxlen);
    var off := ip - ref - 1;
    ghost var o, op0 := out[..], op';
    ReferenceLength(off, len);
    op' := EmitReference(out, op', off, len);
    assert out[..][..op0] == o[..op0] && out[..][op0..op'] == out[op0..op'];
    ts' := PutReference(o, inp[..], ip, op0, ts', off, len, out[..]);
    forall i | outLen < i < out.Length ensures out[i] == old(out[i]) {
      assert out[i] == out[op'..][i - op'];
    }
    ip' := ip + len;
    NewRun(out[..], inp[..], ip', op', ts');
    op' := op' + 1;  // start run
    ok := true;
  }

  /** The distance of a candidate, as the difference of two addresses in 64-bit arithmetic. */
  function Distance(ip: nat, ref: int): (r: nat) {
    (ip - ref - 1) % TWO_TO_THE_64
  }

  /** Whatever address the table held: a distance in range and an address after the start of the
      input identify an earlier position of the input. */
  lemma DistanceIdentifies(ip: nat, ref: int, base: u64)
    requires MAX_OFF <= base && base + ip < TWO_TO_THE_64
    requires 0 < ref && ref + base < TWO_TO_THE_64 && Distance(ip, ref) < MAX_OFF
    ensures ref < ip && Distance(ip, ref) == ip - ref - 1
  {}

  /** The table after a move, and the position that the search has come to. */
  ghost predicate Searched(htab: seq<u64>, base: nat, ms: seq<Move>, s: bytes, ip: nat) {
    Greedy(ms, s) && Reach(ms) == ip && Tabled(htab, base, Noted(ms, |s|), s)
  }

  lemma SearchStarts(htab: seq<u64>, base: nat, s: bytes)
    requires |htab| == HSIZE
    ensures Searched(htab, base, [], s, 0) && Moves([]) + Lits(0) == []
  {}

  lemma SearchedMoves(htab: seq<u64>, base: nat, ms: seq<Move>, s: bytes, ip: nat)
    requires Searched(htab, base, ms, s, ip)
    ensures Greedy(ms, s) && Reach(ms) == ip
  {}

  /** The test of a candidate that the table gives. */
  predicate Matches(s: bytes, ip: nat, ref: int) {
    && Distance(ip, ref) < MAX_OFF && ip + 4 < |s| && ref > 0
    && ref < ip && s[ref] == s[ip] && s[ref + 1] == s[ip + 1] && s[ref + 2] == s[ip + 2]
  }

  /** An octet becomes a literal only if the table gives nothing that could be referred to. */
  lemma LiteralSearched(htab: seq<u64>, base: u64, ms: seq<Move>, s: bytes, ip: nat)
    requires Searched(htab, base, ms, s, ip) && ip + 2 < |s| && base + |s| < TWO_TO_THE_64
    requires !Matches(s, ip, htab[SlotAt(s, ip)] - base)
    ensures Searched(htab[SlotAt(s, ip) := base + ip], base, ms + [Lit], s, ip + 1)
  {
    hide Greedy, Tabled, SlotAt, Noted, Latest, Reach;
    forall q | Latest(Noted(ms, |s|), s, ip, q)
      ensures !Usable(s, ip, q)
    {
      TableGives(htab, base, Noted(ms, |s|), s, ip, q);
    }
    MoreGreedy(ms, s, Lit);
    MoreMoves(ms, Lit, |s|);
    assert Marks(Lit, ip, |s|) == {ip};
    NotedBefore(ms, s);
    Entered(htab, base, Noted(ms, |s|), s, ip);
  }

  lemma RepeatsLength(s: bytes, ip: nat, ref: nat, len: nat)
    requires Repeats(s, ip, ref, len)
    ensures 3 <= len <= MAX_REF && ip + len <= |s|
  {}

  /** A match follows the rule; the table then lacks only the last two positions of the reference. */
  lemma MatchSearched(htab: seq<u64>, base: u64, ms: seq<Move>, s: bytes, ip: nat, ref: nat, m: Move)
    requires Searched(htab, base, ms, s, ip) && ip + 2 < |s| && base + |s| < TWO_TO_THE_64
    requires Matches(s, ip, ref) && htab[SlotAt(s, ip)] == base + ref && ip - ref <= MAX_OFF
    requires m.Ref? && m.off == ip - ref - 1 && Repeats(s, ip, ref, m.len)
    ensures Greedy(ms + [m], s) && Reach(ms + [m]) == ip + m.len
    ensures Noted(ms + [m], |s|) == Noted(ms, |s|) + Marks(m, ip, |s|)
    ensures Tabled(htab[SlotAt(s, ip) := base + ip], base, Noted(ms, |s|) + {ip}, s)
    ensures forall q :: q in Noted(ms, |s|) + {ip} ==> q < ip + m.len - 2
  {
    hide Greedy, Tabled, SlotAt, Noted, Latest, Reach, Repeats, Marks;
    RepeatsLength(s, ip, ref, m.len);
    forall q | Latest(Noted(ms, |s|), s, ip, q)
      ensures q == ref
    {
      TableGives(htab, base, Noted(ms, |s|), s, ip, q);
    }
    MoreGreedy(ms, s, m);
    MoreMoves(ms, m, |s|);
    NotedBefore(ms, s);
    Entered(htab, base, Noted(ms, |s|), s, ip);
  }

  function LastTwo(ip: nat): set<nat>
    requires ip >= 2
  {
    {ip - 2, ip - 1}
  }

  lemma RefMarks(noted: set<nat>, m: Move, ip: nat, n: nat)
    requires m.Ref? && m.len >= 3 && ip + m.len + 2 < n
    ensures noted + Marks(m, ip, n) == noted + {ip} + LastTwo(ip + m.len)
  {}

  lemma FirstHolds(s: bytes, i: nat)
    requires i + 1 < |s|
    ensures Holds(First(s[i], s[i + 1]), s, i)
  {}

  /** Enters the last two positions before `ip` into the table and returns the current hash value. */
  method EnterLastTwo(inp: array<u8>, htab: array<u64>, base: u64, ip: nat, ghost noted: set<nat>) returns (hval: u32)
    requires 2 <= ip < inp.Length - 2 && htab.Length == HSIZE && base + inp.Length < TWO_TO_THE_64
    requires Tabled(htab[..], base, noted, inp[..]) && forall q :: q in noted ==> q < ip - 2
    modifies htab
    ensures Holds(hval, inp[..], ip)
    ensures Tabled(htab[..], base, noted + LastTwo(ip), inp[..])
  {
    hide Next, Slot, Tabled, SlotAt;
    ghost var s := inp[..];
    hval := First(inp[ip - 2], inp[ip - 1]);
    FirstHolds(s, ip - 2);
    NextSlot(hval, s, ip - 2);
    hval := Next(hval, inp[ip]);
    ghost var t0: seq<u64> := htab[..];
    var address: u64 := base + (ip - 2);
    Entered(t0, base, noted, s, ip - 2);
    htab[Slot(hval)] := address;
    ghost var t1: seq<u64> := htab[..];
    assert t1 == t0[SlotAt(s, ip - 2) := address];
    NextSlot(hval, s, ip - 1);
    hval := Next(hval, inp[ip + 1]);
    Entered(t1, base, noted + {ip - 2}, s, ip - 1);
    address := base + (ip - 1);
    htab[Slot(hval)] := address;
    assert htab[..] == t1[SlotAt(s, ip - 1) := address];
    assert noted + {ip - 2} + {ip - 1} == noted + LastTwo(ip);
  }

  /** The octets are the tokens of a parse of `s` that follows the rule. */
  ghost predicate Parsed(o: bytes, s: bytes) {
    exists ts :: Serialize(ts) == o && Meaning(ts) == Some(s) && Greedy(Moves(ts), s)
  }

  lemma ParsedBy(o: bytes, s: bytes, op: nat, ts: seq<Token>)
    requires Closed(o, s, |s|, op, ts) && Greedy(Moves(ts), s)
    ensures Parsed(o[..op], s)
  {
    hide Greedy, Moves;
    assert s[..|s|] == s;
  }

  /** What is left when no room is: a front of such a parse, its last `lit` literals still in an open run,
      that leaves fewer than five octets. */
  ghost predicate GivesUp(outLen: nat, s: bytes) {
    exists ts, lit :: Greedy(Moves(ts) + Lits(lit), s) && |Serialize(ts)| + lit + 5 >= outLen
  }

  lemma GaveUp(o: bytes, s: bytes, ip: nat, op: nat, lit: nat, ts: seq<Token>, outLen: nat)
    requires InRun(o, s, ip, op, lit, ts) && Greedy(Moves(ts) + Lits(lit), s) && op + 4 >= outLen
    ensures GivesUp(outLen, s)
  {
    hide Greedy, Moves, Lits, Meaning, Serialize;
    assert |Serialize(ts)| == op - lit - 1;
  }

  lemma NothingParsed(s: bytes)
    ensures GivesUp(0, s)
  {
    assert Greedy(Moves([]) + Lits(0), s);
  }

  /** From `ip + 4` on no reference may start. */
  lemma TailLiteral(ms: seq<Move>, s: bytes)
    requires Greedy(ms, s) && Reach(ms) < |s| <= Reach(ms) + 2
    ensures Greedy(ms + [Lit], s) && Reach(ms + [Lit]) == Reach(ms) + 1
  {
    hide Greedy, Reach, Noted;
    MoreGreedy(ms, s, Lit);
    MoreMoves(ms, Lit, |s|);
  }

  /** A run of equal octets is compressed whenever the output is at most four octets shorter. */
  lemma EqualCompressed(o: bytes, s: bytes, outLen: nat)
    requires AllEqual(s) && |s| >= 25 && outLen >= |s| - 4
    ensures !GivesUp(outLen, s)
    ensures Parsed(o, s) ==> |o| <= 3 * ((|s| + 261) / 264) + 12
  {
    hide Greedy, Moves, Lits, Serialize, Meaning, AllEqual;
    if GivesUp(outLen, s) {
      var ts, lit :| Greedy(Moves(ts) + Lits(lit), s) && |Serialize(ts)| + lit + 5 >= outLen;
      EqualSmall(ts, lit, s);
    }
    if Parsed(o, s) {
      var ts :| Serialize(ts) == o && Meaning(ts) == Some(s) && Greedy(Moves(ts), s);
      NoLits(Moves(ts));
      EqualSmall(ts, 0, s);
    }
  }

  /** Copies the last octets, at most two, and ends the last run. */
  method CopyTail(inp: array<u8>, out: array<u8>, outLen: nat, ip0: nat, op0: nat, lit0: nat,
                  ghost ts0: seq<Token>)
    returns (op: nat)
    requires inp != out && 0 < inp.Length <= ip0 + 2 && ip0 <= inp.Length && lit0 < MAX_LIT
    requires op0 + 3 <= outLen < out.Length
    requires InRun(out[..], inp[..], ip0, op0, lit0, ts0) && Compact(ip0, op0, lit0)
    requires Greedy(Moves(ts0) + Lits(lit0), inp[..]) && Reach(Moves(ts0) + Lits(lit0)) == ip0
    modifies out
    ensures 0 < op <= outLen && op <= inp.Length + inp.Length / 32 + 1
    ensures Represents(out[..][..op], inp[..]) && Parsed(out[..][..op], inp[..])
    ensures forall i :: outLen < i < out.Length ==> out[i] == old(out[i])
  {
    hide InRun, Closed, Compact, Meaning, Serialize, Greedy, Reach, Moves, Lits, Parsed;
    var ip: nat, lit: nat := ip0, lit0;
    ghost var ts := ts0;
    op := op0;
    while ip < inp.Length
      invariant ip <= inp.Length && inp.Length - ip <= 2 && lit < MAX_LIT
      invariant op + (inp.Length - ip) + (if lit + (inp.Length - ip) >= 32 then 1 else 0) <= outLen
      invariant InRun(out[..], inp[..], ip, op, lit, ts) && Compact(ip, op, lit)
      invariant Greedy(Moves(ts) + Lits(lit), inp[..]) && Reach(Moves(ts) + Lits(lit)) == ip
      invariant forall i :: outLen < i < out.Length ==> out[i] == old(out[i])
    {
      TailLiteral(Moves(ts) + Lits(lit), inp[..]);
      ip, op, lit, ts := CopyLiteral(inp, out, outLen, ip, op, lit, ts);
    }
    RoomUsed(out[..], inp[..], ip, op, lit, ts);
    op, ts := EndRun(inp, out, ip, op, lit, ts);  // end run
    AllRead(out[..], inp[..], op, ts);
    ParsedBy(out[..], inp[..], op, ts);
  }

  /** What the result means for a run of equal octets. */
  lemma Result(o: bytes, s: bytes, n: nat, outLen: nat)
    requires |o| == n && (n > 0 ==> Parsed(o, s)) && (n == 0 ==> GivesUp(outLen, s))
    ensures AllEqual(s) && |s| >= 25 && outLen >= |s| - 4 ==> 0 < n <= 3 * ((|s| + 261) / 264) + 12
  {
    hide Parsed, GivesUp, AllEqual;
    if AllEqual(s) && |s| >= 25 && outLen >= |s| - 4 {
      EqualCompressed(o, s, outLen);
    }
  }

  /** The rest of a round when the table gives a match: the reference, and the table after it. */
  method TakeMatch(inp: array<u8>, out: array<u8>, outLen: nat, htab: array<u64>, base: u64, ip: nat, op: nat,
                   lit: nat, ref: nat, hval: u32, ghost ts: seq<Token>, ghost tab: seq<u64>)
    returns (ok: bool, ip': nat, op': nat, hval': u32, ghost ts': seq<Token>)
    requires inp != out && lit < MAX_LIT && op <= outLen + 1 && outLen < out.Length && htab.Length == HSIZE
    requires InRun(out[..], inp[..], ip, op, lit, ts) && Compact(ip, op, lit)
    requires ip + 4 < inp.Length && base + inp.Length < TWO_TO_THE_64
    requires Searched(tab, base, Moves(ts) + Lits(lit), inp[..], ip)
    requires |tab| == HSIZE && htab[..] == tab[SlotAt(inp[..], ip) := base + ip]
    requires tab[SlotAt(inp[..], ip)] == base + ref
    requires ip - ref <= MAX_OFF && Matches(inp[..], ip, ref)
    modifies out, htab
    ensures !ok ==> GivesUp(outLen, inp[..]) && op + 4 >= outLen
    ensures ok ==> ip + 3 <= ip' <= inp.Length && op' <= outLen
    ensures ok ==> InRun(out[..], inp[..], ip', op', 0, ts') && Compact(ip', op', 0)
    ensures ok ==> Greedy(Moves(ts') + Lits(0), inp[..]) && Reach(Moves(ts') + Lits(0)) == ip'
    ensures ok && ip' < inp.Length - 2 ==>
              Searched(htab[..], base, Moves(ts') + Lits(0), inp[..], ip') && Holds(hval', inp[..], ip')
    ensures forall i :: outLen < i < out.Length ==> out[i] == old(out[i])
  {
    hide InRun, Closed, Compact, Meaning, Serialize, Greedy, Reach, Moves, Lits, SlotAt, GivesUp, Tabled, Noted,
      Repeats, Holds, Marks;
    ghost var o, s, ms := out[..], inp[..], Moves(ts) + Lits(lit);
    hval' := hval;
    ok, ip', op', ts' := PutMatch(inp, out, outLen, ip, op, lit, ref, ts);
    if !ok {
      GaveUp(o, s, ip, op, lit, ts, outLen);
      return;
    }
    ghost var m := Ref(ip - ref - 1, ip' - ip);
    MatchSearched(tab, base, ms, s, ip, ref, m);
    NoLits(Moves(ts'));
    if ip' < inp.Length - 2 {
      RefMarks(Noted(ms, |s|), m, ip, |s|);
      hval' := EnterLastTwo(inp, htab, base, ip', Noted(ms, |s|) + {ip});
    }
  }

  /** The rest of a round when the table gives no match: the octet joins the current run. */
  method TakeLiteral(inp: array<u8>, out: array<u8>, outLen: nat, htab: array<u64>, base: u64, ip: nat, op: nat,
                     lit: nat, ghost ts: seq<Token>, ghost tab: seq<u64>)
    returns (ok: bool, ip': nat, op': nat, lit': nat, ghost ts': seq<Token>)
    requires inp != out && lit < MAX_LIT && op <= outLen + 1 && outLen < out.Length && htab.Length == HSIZE
    requires InRun(out[..], inp[..], ip, op, lit, ts) && Compact(ip, op, lit)
    requires ip + 2 < inp.Length && base + inp.Length < TWO_TO_THE_64
    requires Searched(tab, base, Moves(ts) + Lits(lit), inp[..], ip)
    requires |tab| == HSIZE && htab[..] == tab[SlotAt(inp[..], ip) := base + ip]
    requires !Matches(inp[..], ip, tab[SlotAt(inp[..], ip)] - base)
    modifies out
    ensures !ok ==> GivesUp(outLen, inp[..]) && op >= outLen
    ensures ok ==> ip' == ip + 1 && op' <= outLen + 1 && lit' < MAX_LIT
    ensures ok ==> InRun(out[..], inp[..], ip', op', lit', ts') && Compact(ip', op', lit')
    ensures ok ==> Searched(htab[..], base, Moves(ts') + Lits(lit'), inp[..], ip')
    ensures forall i :: outLen < i < out.Length ==> out[i] == old(out[i])
  {
    hide InRun, Closed, Compact, Meaning, Serialize, Moves, Lits, SlotAt, GivesUp, Tabled, Noted, Matches, Greedy,
      Reach;
    ip', op', lit', ts' := ip, op, lit, ts;
    ok := op < outLen;
    if !ok {
      GaveUp(out[..], inp[..], ip, op, lit, ts, outLen);
      return;
    }
    LiteralSearched(tab, base, Moves(ts) + Lits(lit), inp[..], ip);
    ip', op', lit', ts' := CopyLiteral(inp, out, outLen, ip, op, lit, ts);
  }

  /** What follows the search: the last octets, if there is room for them. */
  method Finish(inp: array<u8>, out: array<u8>, outLen: nat, ip: nat, op: nat, lit: nat, ghost ts: seq<Token>)
    returns (n: nat)
    requires inp != out && 0 < inp.Length <= ip + 2 && ip <= inp.Length && lit < MAX_LIT && outLen < out.Length
    requires InRun(out[..], inp[..], ip, op, lit, ts) && Compact(ip, op, lit)
    requires Greedy(Moves(ts) + Lits(lit), inp[..]) && Reach(Moves(ts) + Lits(lit)) == ip
    modifies out
    ensures n <= outLen && n <= inp.Length + inp.Length / 32 + 1
    ensures n > 0 ==> Represents(out[..n], inp[..]) && Parsed(out[..n], inp[..])
    ensures n == 0 ==> GivesUp(outLen, inp[..]) && outLen < inp.Length + inp.Length / 32 + 5
    ensures forall i :: outLen < i < out.Length ==> out[i] == old(out[i])
  {
    hide InRun, Closed, Compact, Meaning, Serialize, Greedy, Reach, Moves, Lits, Parsed, GivesUp;
    RoomUsed(out[..], inp[..], ip, op, lit, ts);
    if op + 3 > outLen {  // room for two literals and a new header
      GaveUp(out[..], inp[..], ip, op, lit, ts, outLen);
      return 0;
    }
    n := CopyTail(inp, out, outLen, ip, op, lit, ts);
    assert out[..][..n] == out[..n];
  }

  /**
   Compresses `inp` into at most `outLen` octets of `out` and returns how many were written, or 0 when
   they did not fit. `base` is the address of the input; the table holds arbitrary addresses.
   */
  method Compress(inp: array<u8>, out: array<u8>, outLen: nat, htab: array<u64>, base: u64)
    returns (n: nat)
    requires inp != out
    // the first two octets are read before the first bounds test
    requires inp.Length != 1
    // the caller allocates one octet more than it announces
    requires outLen < out.Length
    requires htab.Length == HSIZE
    requires MAX_OFF <= base && base + inp.Length < TWO_TO_THE_64
    modifies out, htab
    ensures n <= outLen && n <= inp.Length + inp.Length / 32 + 1
    ensures n > 0 ==> Represents(out[..n], inp[..])
    ensures forall i :: outLen < i < out.Length ==> out[i] == old(out[i])
    ensures inp.Length >= 2 && outLen >= inp.Length + inp.Length / 32 + 5 ==> n > 0
    // every repeat that the table knows of is used
    ensures n > 0 ==> Parsed(out[..n], inp[..])
    ensures n == 0 && inp.Length >= 2 ==> GivesUp(outLen, inp[..])
    ensures AllEqual(inp[..]) && inp.Length >= 25 && outLen >= inp.Length - 4 ==>
              0 < n <= 3 * ((inp.Length + 261) / 264) + 12
  {
    hide InRun, Closed, Compact, Meaning, Serialize, Next, Slot, Distance, Searched, Greedy, Reach, Moves, Lits,
      SlotAt, Parsed, GivesUp, AllEqual, Holds;
    if inp.Length == 0 || outLen == 0 {
      NothingParsed(inp[..]);
      Result([], inp[..], 0, 0);
      return 0;
    }
    ghost var ts: seq<Token> := [];
    var ip: nat, op: nat, lit: nat := 0, 1, 0;  // op 1: start run
    FirstRun(out[..], inp[..]);
    SearchStarts(htab[..], base, inp[..]);
    var hval := First(inp[0], inp[1]);
    FirstHolds(inp[..], 0);
    SearchedMoves(htab[..], base, Moves(ts) + Lits(lit), inp[..], ip);
    while ip < inp.Length - 2
      invariant ip <= inp.Length && lit < MAX_LIT && op <= outLen + 1
      invariant InRun(out[..], inp[..], ip, op, lit, ts) && Compact(ip, op, lit)
      invariant Greedy(Moves(ts) + Lits(lit), inp[..]) && Reach(Moves(ts) + Lits(lit)) == ip
      invariant ip < inp.Length - 2 ==>
                  Searched(htab[..], base, Moves(ts) + Lits(lit), inp[..], ip) && Holds(hval, inp[..], ip)
      invariant forall i :: outLen < i < out.Length ==> out[i] == old(out[i])
    {
      RoomUsed(out[..], inp[..], ip, op, lit, ts);
      NextSlot(hval, inp[..], ip);
      hval := Next(hval, inp[ip + 2]);
      ghost var tab: seq<u64> := htab[..];
      var slot := Slot(hval);
      var ref := htab[slot] - base;
      htab[slot] := base + ip;
      var off := Distance(ip, ref);
      if ref > 0 && off < MAX_OFF {
        DistanceIdentifies(ip, ref, base);
      }
      if off < MAX_OFF && ip + 4 < inp.Length && ref > 0
         && inp[ref] == inp[ip] && inp[ref + 1] == inp[ip + 1] && inp[ref + 2] == inp[ip + 2] {
        var ok;
        ok, ip, op, hval, ts := TakeMatch(inp, out, outLen, htab, base, ip, op, lit, ref, hval, ts, tab);
        if !ok {
          Result([], inp[..], 0, outLen);
          return 0;
        }
        lit := 0;
        if ip >= inp.Length - 2 {
          break;
        }
      } else {
        var ok;
        ok, ip, op, lit, ts := TakeLiteral(inp, out, outLen, htab, base, ip, op, lit, ts, tab);
        if !ok {
          Result([], inp[..], 0, outLen);
          return 0;
        }
        SearchedMoves(htab[..], base, Moves(ts) + Lits(lit), inp[..], ip);
      }
    }

    n := Finish(inp, out, outLen, ip, op, lit, ts);
    Result(out[..n], inp[..], n, outLen);
  }
}
