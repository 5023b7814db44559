/**
 The output buffers of a client (networking.c): a static buffer, a list of chunks behind it, counts
 that are filled in later, and writes that the network accepts in part. What was sent and what is
 left are together always exactly the replies, in order.
 */
module ReplyQueue {
  import opened Bytes
  import opened Resp
  import Decimal
  import Sequences

  const REPLY_CHUNK_BYTES: nat := 16 * 1024
  const MAX_WRITE_PER_EVENT: nat := 64 * 1024

  /** A reply stream: octets, and counts that are not known yet. */
  datatype Symbol = Octet(b: u8) | Hole(id: nat)

  /** A chunk of the list: some octets, or the place of a count (an object without a string). */
  datatype Chunk = Sds(s: bytes) | Null(id: nat)

  function Octets(s: bytes): (r: seq<Symbol>)
    ensures |r| == |s|
  {
    seq(|s|, i requires 0 <= i < |s| => Octet(s[i]))
  }

  function ChunkSymbols(c: Chunk): seq<Symbol> {
    match c
    case Sds(s) => Octets(s)
    case Null(id) => [Hole(id)]
  }

  function Symbols(cs: seq<Chunk>): seq<Symbol> {
    if cs == [] then [] else ChunkSymbols(cs[0]) + Symbols(cs[1..])
  }

  lemma OctetsConcat(a: bytes, b: bytes)
    ensures Octets(a + b) == Octets(a) + Octets(b)
  {}

  lemma {:induction false} SymbolsConcat(a: seq<Chunk>, b: seq<Chunk>)
    ensures Symbols(a + b) == Symbols(a) + Symbols(b)
    decreases |a|
  {
    if a == [] {
      assert a + b == b;
    } else {
      assert (a + b)[1..] == a[1..] + b;
      SymbolsConcat(a[1..], b);
      assert ChunkSymbols(a[0]) + (Symbols(a[1..]) + Symbols(b)) == (ChunkSymbols(a[0]) + Symbols(a[1..])) + Symbols(b);
    }
  }

  lemma SymbolsOne(c: Chunk)
    ensures Symbols([c]) == ChunkSymbols(c)
  {
    var cs := [c];
    assert cs[1..] == [] && Symbols(cs) == ChunkSymbols(cs[0]) + Symbols(cs[1..]);
  }

  /** A chunk more, or more in the last chunk. */
  lemma SymbolsMore(cs: seq<Chunk>, s: bytes)
    ensures Symbols(cs + [Sds(s)]) == Symbols(cs) + Octets(s)
    ensures cs != [] && cs[|cs| - 1].Sds? ==>
              Symbols(cs[|cs| - 1 := Sds(cs[|cs| - 1].s + s)]) == Symbols(cs) + Octets(s)
  {
    SymbolsConcat(cs, [Sds(s)]);
    SymbolsOne(Sds(s));
    if cs != [] && cs[|cs| - 1].Sds? {
      var init, tail := cs[..|cs| - 1], cs[|cs| - 1];
      assert cs == init + [tail] && cs[|cs| - 1 := Sds(tail.s + s)] == init + [Sds(tail.s + s)];
      SymbolsConcat(init, [tail]);
      SymbolsConcat(init, [Sds(tail.s + s)]);
      SymbolsOne(tail);
      SymbolsOne(Sds(tail.s + s));
      OctetsConcat(tail.s, s);
      assert Symbols(init) + (Octets(tail.s) + Octets(s)) == (Symbols(init) + Octets(tail.s)) + Octets(s);
    }
  }

  // Filling in counts ----------------------------------------------------------------------------

  function Fill(s: seq<Symbol>, id: nat, text: bytes): seq<Symbol> {
    if s == [] then []
    else (if s[0] == Hole(id) then Octets(text) else [s[0]]) + Fill(s[1..], id, text)
  }

  ghost predicate Lacks(s: seq<Symbol>, id: nat) {
    forall i :: 0 <= i < |s| ==> s[i] != Hole(id)
  }

  lemma {:induction false} FillConcat(a: seq<Symbol>, b: seq<Symbol>, id: nat, text: bytes)
    ensures Fill(a + b, id, text) == Fill(a, id, text) + Fill(b, id, text)
    decreases |a|
  {
    if a == [] {
      assert a + b == b;
    } else {
      var first := if a[0] == Hole(id) then Octets(text) else [a[0]];
      assert (a + b)[1..] == a[1..] + b;
      FillConcat(a[1..], b, id, text);
      assert first + (Fill(a[1..], id, text) + Fill(b, id, text))
          == (first + Fill(a[1..], id, text)) + Fill(b, id, text);
    }
  }

  lemma {:induction false} FillNothing(s: seq<Symbol>, id: nat, text: bytes)
    requires Lacks(s, id)
    ensures Fill(s, id, text) == s
    decreases |s|
  {
    if s != [] {
      FillNothing(s[1..], id, text);
    }
  }

  lemma FillOne(id: nat, text: bytes)
    ensures Fill([Hole(id)], id, text) == Octets(text)
  {
    var hole := [Hole(id)];
    assert hole[1..] == [] && Fill(hole, id, text) == Octets(text) + Fill(hole[1..], id, text);
  }

  /** The one hole of that number. */
  lemma FillHole(a: seq<Symbol>, b: seq<Symbol>, id: nat, text: bytes)
    requires Lacks(a, id) && Lacks(b, id)
    ensures Fill(a + [Hole(id)] + b, id, text) == a + Octets(text) + b
  {
    hide Fill, Lacks, Octets;
    FillConcat(a + [Hole(id)], b, id, text);
    FillConcat(a, [Hole(id)], id, text);
    FillNothing(a, id, text);
    FillNothing(b, id, text);
    FillOne(id, text);
  }

  // What is left to send -------------------------------------------------------------------------

  predicate SentOfFirst(front: bytes, cs: seq<Chunk>, sentlen: nat) {
    if front != [] then sentlen < |front|
    else sentlen == 0 || (cs != [] && cs[0].Sds? && sentlen < |cs[0].s|)
  }

  /** The static buffer, the list behind it, less the `sentlen` octets sent of what comes first. */
  function Left(front: bytes, cs: seq<Chunk>, sentlen: nat): seq<Symbol>
    requires SentOfFirst(front, cs, sentlen)
  {
    (Octets(front) + Symbols(cs))[sentlen..]
  }

  lemma LeftGrows(front: bytes, cs: seq<Chunk>, cs': seq<Chunk>, sentlen: nat, more: seq<Symbol>)
    requires SentOfFirst(front, cs, sentlen) && SentOfFirst(front, cs', sentlen)
    requires Symbols(cs') == Symbols(cs) + more
    ensures Left(front, cs', sentlen) == Left(front, cs, sentlen) + more
  {}

  lemma LeftGrowsInFront(front: bytes, s: bytes, sentlen: nat)
    requires SentOfFirst(front, [], sentlen) && SentOfFirst(front + s, [], sentlen)
    ensures Left(front + s, [], sentlen) == Left(front, [], sentlen) + Octets(s)
  {
    OctetsConcat(front, s);
  }

  /** `n` more octets of the static buffer are sent. */
  lemma FrontSent(front: bytes, cs: seq<Chunk>, sentlen: nat, n: nat)
    requires front != [] && sentlen + n <= |front| && sentlen < |front|
    ensures var all := sentlen + n == |front|;
            && SentOfFirst(if all then [] else front, cs, if all then 0 else sentlen + n)
            && Left(front, cs, sentlen)
               == Octets(front[sentlen..sentlen + n])
                   + Left(if all then [] else front, cs, if all then 0 else sentlen + n)
  {
    if sentlen + n == |front| {
      assert Octets([]) + Symbols(cs) == Symbols(cs);
    }
  }

  /** `n` more octets of the first chunk are sent; a chunk that is all sent leaves the list. */
  lemma HeadSent(cs: seq<Chunk>, sentlen: nat, n: nat)
    requires cs != [] && cs[0].Sds? && sentlen + n <= |cs[0].s| && SentOfFirst([], cs, sentlen)
    ensures var all := sentlen + n == |cs[0].s|;
            && SentOfFirst([], if all then cs[1..] else cs, if all then 0 else sentlen + n)
            && Left([], cs, sentlen) == Octets(cs[0].s[sentlen..sentlen + n])
               + Left([], if all then cs[1..] else cs, if all then 0 else sentlen + n)
  {
    assert Symbols(cs) == Octets(cs[0].s) + Symbols(cs[1..]);
    hide Octets, Symbols;
  }

  lemma FillRest(a: seq<Symbol>, b: seq<Symbol>, k: nat, id: nat, text: bytes)
    requires k <= |a| && Lacks(a, id) && Lacks(b, id)
    ensures (a + Octets(text) + b)[k..] == Fill((a + [Hole(id)] + b)[k..], id, text)
  {
    assert Lacks(a[k..], id);
    hide Fill, Lacks, Octets;
    FillHole(a[k..], b, id, text);
    Sequences.DropFirst(a, [Hole(id)] + b, k);
    Sequences.DropFirst(a, Octets(text) + b, k);
    Sequences.Assoc(a, [Hole(id)], b);
    Sequences.Assoc(a, Octets(text), b);
    Sequences.Assoc(a[k..], [Hole(id)], b);
    Sequences.Assoc(a[k..], Octets(text), b);
  }

  predicate DistinctHoles(cs: seq<Chunk>) {
    forall i, j :: 0 <= i < j < |cs| && cs[i].Null? && cs[j].Null? ==> cs[i].id != cs[j].id
  }

  function Glued(cs: seq<Chunk>, i: nat, text: bytes): seq<Chunk>
    requires i < |cs|
  {
    if i + 1 < |cs| && cs[i + 1].Sds? then cs[..i] + [Sds(text + cs[i + 1].s)] + cs[i + 2..]
    else cs[i := Sds(text)]
  }

  lemma Around(cs: seq<Chunk>, i: nat)
    requires i < |cs|
    ensures Symbols(cs) == Symbols(cs[..i]) + ChunkSymbols(cs[i]) + Symbols(cs[i + 1..])
  {
    hide Symbols, ChunkSymbols;
    Sequences.Around(cs, i);
    SymbolsConcat(cs[..i] + [cs[i]], cs[i + 1..]);
    SymbolsConcat(cs[..i], [cs[i]]);
    SymbolsOne(cs[i]);
  }

  lemma GluedSymbols(cs: seq<Chunk>, i: nat, text: bytes)
    requires i < |cs|
    ensures Symbols(Glued(cs, i, text)) == Symbols(cs[..i]) + Octets(text) + Symbols(cs[i + 1..])
  {
    var cs' := Glued(cs, i, text);
    Around(cs', i);
    assert cs'[..i] == cs[..i];
    if i + 1 < |cs| && cs[i + 1].Sds? {
      var next := cs[i + 1].s;
      assert cs'[i] == Sds(text + next) && cs'[i + 1..] == cs[i + 2..] && cs[i + 1..][1..] == cs[i + 2..];
      assert Symbols(cs[i + 1..]) == Octets(next) + Symbols(cs[i + 2..]);
      hide Symbols, Octets, Glued;
      OctetsConcat(text, next);
      Sequences.Assoc4(Symbols(cs[..i]), Octets(text), Octets(next), Symbols(cs[i + 2..]));
    } else {
      assert cs'[i + 1..] == cs[i + 1..];
    }
  }

  lemma {:induction false} LacksWhole(cs: seq<Chunk>, id: nat)
    requires forall k :: 0 <= k < |cs| ==> cs[k] != Null(id)
    ensures Lacks(Symbols(cs), id)
    decreases |cs|
  {
    if cs != [] {
      assert cs[0] != Null(id);
      LacksWhole(cs[1..], id);
    }
  }

  lemma LacksOthers(cs: seq<Chunk>, i: nat)
    requires i < |cs| && cs[i].Null? && DistinctHoles(cs)
    ensures Lacks(Symbols(cs[..i]), cs[i].id) && Lacks(Symbols(cs[i + 1..]), cs[i].id)
  {
    LacksWhole(cs[..i], cs[i].id);
    LacksWhole(cs[i + 1..], cs[i].id);
  }

  /** Filling the hole of a chunk, with or without gluing it to the next chunk. */
  lemma HoleFilled(front: bytes, cs: seq<Chunk>, sentlen: nat, i: nat, text: bytes)
    requires SentOfFirst(front, cs, sentlen) && i < |cs| && cs[i].Null? && DistinctHoles(cs)
    ensures var cs' := Glued(cs, i, text);
            && SentOfFirst(front, cs', sentlen)
            && Left(front, cs', sentlen) == Fill(Left(front, cs, sentlen), cs[i].id, text)
  {
    var id := cs[i].id;
    var a, b := Octets(front) + Symbols(cs[..i]), Symbols(cs[i + 1..]);
    LacksOthers(cs, i);
    assert Lacks(a, id);
    if front == [] && sentlen > 0 {
      assert i > 0 && cs[..i][0] == cs[0];
    }
    assert sentlen <= |a|;
    assert SentOfFirst(front, Glued(cs, i, text), sentlen);
    hide Octets, Symbols, Lacks, Fill, Glued, SentOfFirst;
    Around(cs, i);
    GluedSymbols(cs, i, text);
    Sequences.Assoc(Octets(front), Symbols(cs[..i]) + [Hole(id)], b);
    Sequences.Assoc(Octets(front), Symbols(cs[..i]) + Octets(text), b);
    Sequences.Assoc(Octets(front), Symbols(cs[..i]), [Hole(id)]);
    Sequences.Assoc(Octets(front), Symbols(cs[..i]), Octets(text));
    FillRest(a, b, sentlen, id, text);
  }

  /** The list with one more reply. */
  function Appended(cs: seq<Chunk>, s: bytes): seq<Chunk> {
    if cs != [] && cs[|cs| - 1].Sds? && |cs[|cs| - 1].s| + |s| <= REPLY_CHUNK_BYTES then
      cs[|cs| - 1 := Sds(cs[|cs| - 1].s + s)]
    else cs + [Sds(s)]
  }

  predicate HolesBelow(cs: seq<Chunk>, n: nat) {
    forall i :: 0 <= i < |cs| && cs[i].Null? ==> cs[i].id < n
  }

  lemma ReplyAppended(front: bytes, cs: seq<Chunk>, sentlen: nat, s: bytes, n: nat)
    requires SentOfFirst(front, cs, sentlen) && DistinctHoles(cs) && HolesBelow(cs, n)
    ensures var cs' := Appended(cs, s);
            && SentOfFirst(front, cs', sentlen) && DistinctHoles(cs') && HolesBelow(cs', n)
            && Left(front, cs', sentlen) == Left(front, cs, sentlen) + Octets(s)
  {
    SymbolsMore(cs, s);
    LeftGrows(front, cs, Appended(cs, s), sentlen, Octets(s));
  }

  /** The list with the place of one more count. */
  lemma HoleAppended(front: bytes, cs: seq<Chunk>, sentlen: nat, n: nat)
    requires SentOfFirst(front, cs, sentlen) && DistinctHoles(cs) && HolesBelow(cs, n)
    ensures var cs' := cs + [Null(n)];
            && SentOfFirst(front, cs', sentlen) && DistinctHoles(cs') && HolesBelow(cs', n + 1)
            && Left(front, cs', sentlen) == Left(front, cs, sentlen) + [Hole(n)]
  {
    SymbolsConcat(cs, [Null(n)]);
    SymbolsOne(Null(n));
    LeftGrows(front, cs, cs + [Null(n)], sentlen, [Hole(n)]);
  }

  lemma HolesGlued(cs: seq<Chunk>, i: nat, text: bytes, n: nat)
    requires i < |cs| && DistinctHoles(cs) && HolesBelow(cs, n)
    ensures DistinctHoles(Glued(cs, i, text)) && HolesBelow(Glued(cs, i, text), n)
  {
    var cs' := Glued(cs, i, text);
    forall k | 0 <= k < |cs'| && cs'[k].Null?
      ensures k != i && cs'[k] == cs[if k < i || |cs'| == |cs| then k else k + 1]
    {}
  }
}
