/**
 Which repeats the compressor finds (lzf_c.c): its moves through the input, the positions that it enters
 into its hash table, and the rule by which it prefers a reference to a literal.
 */
module LzfSearch {
  import opened Bytes
  import opened Wrappers
  import opened LzfFormat

  const HSIZE: nat := 0x1_0000

  // The hash -------------------------------------------------------------------------------------

  function First(p0: u8, p1: u8): u32 { p0 * 256 + p1 }

  function Next(hval: u32, p2: u8): u32 { hval * 256 % TWO_TO_THE_32 + p2 }

  /** The slot of a hash value: unsigned wrap-around followed by the mask HSIZE - 1. */
  function Slot(hval: u32): (r: nat)
    ensures r < HSIZE
  {
    (hval / 256 - hval * 5) % HSIZE
  }

  /** The slot of the three octets at a position. */
  function SlotAt(s: bytes, i: nat): (r: nat)
    requires i + 2 < |s|
    ensures r < HSIZE
  {
    Slot(Next(First(s[i], s[i + 1]), s[i + 2]))
  }

  lemma Wraps(x: int, m: int)
    ensures (x + 0x1_0000 * m) % 0x1_0000 == x % 0x1_0000
  {}

  /** Only the last three octets that entered a hash value matter for its slot. */
  lemma SlotLocal(h: u32, l: nat, k: nat)
    requires h == 0x100_0000 * k + l && l < 0x100_0000
    ensures Slot(h) == Slot(l)
  {
    assert h / 256 == 0x1_0000 * k + l / 256;
    assert h / 256 - h * 5 == (l / 256 - l * 5) + 0x1_0000 * (k - 1280 * k);
    Wraps(l / 256 - l * 5, k - 1280 * k);
  }

  /** A hash value whose last two octets are those at `i`. */
  predicate Holds(hval: u32, s: bytes, i: nat)
    requires i + 1 < |s|
  {
    hval % 0x1_0000 == First(s[i], s[i + 1])
  }

  lemma ShiftRest(m: nat, r: nat)
    requires r < TWO_TO_THE_32
    ensures (TWO_TO_THE_32 * m + r) % TWO_TO_THE_32 == r
  {}

  /** The shift of an unsigned 32-bit number by one octet keeps its low octets and drops its highest. */
  lemma Shifted(hval: u32) returns (k: nat)
    ensures hval * 256 % TWO_TO_THE_32 == 0x100_0000 * k + hval % 0x1_0000 * 256
  {
    var h, f := hval / 0x1_0000, hval % 0x1_0000;
    k := h % 256;
    ShiftRest(h / 256, 0x100_0000 * k + f * 256);
    assert hval * 256 == TWO_TO_THE_32 * (h / 256) + (0x100_0000 * k + f * 256);
  }

  lemma LowOctets(m: nat, f: nat)
    requires f < 0x1_0000
    ensures (0x1_0000 * m + f) % 0x1_0000 == f
  {}

  lemma NextSlot(hval: u32, s: bytes, i: nat)
    requires i + 2 < |s| && Holds(hval, s, i)
    ensures Slot(Next(hval, s[i + 2])) == SlotAt(s, i) && Holds(Next(hval, s[i + 2]), s, i + 1)
  {
    hide Slot;
    var f, c := First(s[i], s[i + 1]), s[i + 2];
    var k := Shifted(hval);
    var h := Next(hval, c);
    assert h == 0x100_0000 * k + (f * 256 + c);
    assert Next(f, c) == f * 256 + c;
    SlotLocal(h, f * 256 + c, k);
    LowOctets(256 * k + s[i] as int, First(s[i + 1], c));
    assert h == 0x1_0000 * (256 * k + s[i] as int) + First(s[i + 1], c);
  }

  // Moves ----------------------------------------------------------------------------------------

  /** One step through the input: a single octet that becomes a literal, or a whole reference. */
  datatype Move = Lit | Ref(off: nat, len: nat)

  function Width(m: Move): nat {
    if m.Lit? then 1 else m.len
  }

  function Reach(ms: seq<Move>): nat {
    if ms == [] then 0 else Reach(ms[..|ms| - 1]) + Width(ms[|ms| - 1])
  }

  function Lits(n: nat): seq<Move> {
    seq(n, _ => Lit)
  }

  function MovesOf(t: Token): seq<Move> {
    match t
    case Literal(run) => Lits(|run|)
    case BackRef(off, len) => [Ref(off, len)]
  }

  function Moves(ts: seq<Token>): seq<Move> {
    if ts == [] then [] else Moves(ts[..|ts| - 1]) + MovesOf(ts[|ts| - 1])
  }

  /** The positions that a move enters into the table: where it starts, and the last two of a reference
      unless the search ends there; `n` is the length of the input. */
  function Marks(m: Move, at: nat, n: nat): set<nat> {
    (if at + 2 < n then {at} else {})
    + (if m.Ref? && 2 <= m.len && at + m.len + 2 < n then {at + m.len - 2, at + m.len - 1} else {})
  }

  function Noted(ms: seq<Move>, n: nat): set<nat> {
    if ms == [] then {}
    else Noted(ms[..|ms| - 1], n) + Marks(ms[|ms| - 1], Reach(ms[..|ms| - 1]), n)
  }

  /** The position entered last whose three octets have the slot of those at `i`. */
  ghost predicate Latest(noted: set<nat>, s: bytes, i: nat, q: nat)
    requires i + 2 < |s|
  {
    && q in noted && q + 2 < |s| && SlotAt(s, q) == SlotAt(s, i)
    && forall r :: r in noted && r + 2 < |s| && q < r ==> SlotAt(s, r) != SlotAt(s, i)
  }

  /** A position from which a reference may start: not the very first, not too far back, and with the
      same three octets. */
  predicate Usable(s: bytes, i: nat, q: nat) {
    0 < q < i && i + 4 < |s| && i - q <= MAX_OFF && s[q] == s[i] && s[q + 1] == s[i + 1] && s[q + 2] == s[i + 2]
  }

  function MaxLen(n: nat, i: nat): int {
    if n - i - 2 > MAX_REF then MAX_REF else n - i - 2
  }

  /** What stands at `i` repeats, for `len` octets, what stands at `q`; and it does not go on, or may not. */
  ghost predicate Repeats(s: bytes, i: nat, q: nat, len: nat) {
    && q < i && 3 <= len <= MAX_REF && i + len <= |s|
    && (forall x :: i <= x < i + len ==> s[x] == s[x - (i - q)])
    && (len < MaxLen(|s|, i) ==> s[q + len] != s[i + len])
  }

  /** The rule for the move that follows some others. */
  ghost predicate Chosen(ms: seq<Move>, s: bytes, m: Move) {
    var i := Reach(ms);
    && i < |s|
    && match m
       case Lit => i + 4 < |s| ==> forall q :: Latest(Noted(ms, |s|), s, i, q) ==> !Usable(s, i, q)
       case Ref(off, len) =>
         && off < i && Usable(s, i, i - off - 1) && Repeats(s, i, i - off - 1, len)
         && forall q :: Latest(Noted(ms, |s|), s, i, q) ==> q == i - off - 1
  }

  /** Every move follows the rule. */
  ghost predicate Greedy(ms: seq<Move>, s: bytes) {
    forall k :: 0 <= k < |ms| ==> Chosen(ms[..k], s, ms[k])
  }

  lemma MoreMoves(ms: seq<Move>, m: Move, n: nat)
    ensures Reach(ms + [m]) == Reach(ms) + Width(m)
    ensures Noted(ms + [m], n) == Noted(ms, n) + Marks(m, Reach(ms), n)
  {
    assert (ms + [m])[..|ms|] == ms;
  }

  lemma MoreGreedy(ms: seq<Move>, s: bytes, m: Move)
    requires Greedy(ms, s) && Chosen(ms, s, m)
    ensures Greedy(ms + [m], s)
  {
    hide Chosen;
    forall k | 0 <= k < |ms| + 1
      ensures Chosen((ms + [m])[..k], s, (ms + [m])[k])
    {
      assert (ms + [m])[..k] == ms[..k];
    }
  }

  lemma GreedyInit(ms: seq<Move>, s: bytes)
    requires Greedy(ms, s) && ms != []
    ensures Greedy(ms[..|ms| - 1], s) && Chosen(ms[..|ms| - 1], s, ms[|ms| - 1])
  {
    hide Chosen;
    var init := ms[..|ms| - 1];
    forall k | 0 <= k < |init|
      ensures Chosen(init[..k], s, init[k])
    {
      assert init[..k] == ms[..k];
    }
  }

  lemma ChosenWidth(ms: seq<Move>, s: bytes, m: Move)
    requires Chosen(ms, s, m)
    ensures 1 <= Width(m) && (m.Ref? ==> m.len >= 3) && Reach(ms) + Width(m) <= |s|
  {}

  lemma LastMove(ms: seq<Move>, n: nat)
    requires ms != []
    ensures var init, m := ms[..|ms| - 1], ms[|ms| - 1];
            Reach(ms) == Reach(init) + Width(m) && Noted(ms, n) == Noted(init, n) + Marks(m, Reach(init), n)
  {}

  lemma MarksInside(m: Move, at: nat, n: nat)
    requires 1 <= Width(m) && (m.Ref? ==> m.len >= 3)
    ensures forall q :: q in Marks(m, at, n) ==> at <= q < at + Width(m) && q + 2 < n
  {}

  lemma {:induction false} NotedBefore(ms: seq<Move>, s: bytes)
    requires Greedy(ms, s)
    ensures forall q :: q in Noted(ms, |s|) ==> q < Reach(ms) && q + 2 < |s|
    ensures Reach(ms) <= |s|
    decreases |ms|
  {
    if ms != [] {
      hide Chosen, Greedy, Noted, Reach, Marks;
      GreedyInit(ms, s);
      var init, m := ms[..|ms| - 1], ms[|ms| - 1];
      ChosenWidth(init, s, m);
      NotedBefore(init, s);
      LastMove(ms, |s|);
      MarksInside(m, Reach(init), |s|);
    }
  }

  // The table ------------------------------------------------------------------------------------

  ghost predicate Newest(htab: seq<u64>, base: nat, noted: set<nat>, s: bytes, q: nat)
    requires |htab| == HSIZE && q + 2 < |s|
  {
    exists r :: r in noted && q <= r && r + 2 < |s| && SlotAt(s, r) == SlotAt(s, q) && htab[SlotAt(s, q)] == base + r
  }

  /** The table holds, for the slot of every position entered, the last position with that slot. */
  ghost predicate Tabled(htab: seq<u64>, base: nat, noted: set<nat>, s: bytes) {
    && |htab| == HSIZE
    && forall q :: q in noted && q + 2 < |s| ==> Newest(htab, base, noted, s, q)
  }

  lemma EnteredAt(htab: seq<u64>, base: nat, noted: set<nat>, s: bytes, i: nat, q: nat)
    requires Tabled(htab, base, noted, s) && i + 2 < |s| && base + i < TWO_TO_THE_64
    requires q <= i && q + 2 < |s| && (q in noted || q == i)
    ensures Newest(htab[SlotAt(s, i) := base + i], base, noted + {i}, s, q)
  {
    hide SlotAt;
    if SlotAt(s, q) == SlotAt(s, i) {
      assert i in noted + {i};
    } else {
      assert Newest(htab, base, noted, s, q);
      var r :| r in noted && q <= r && r + 2 < |s| && SlotAt(s, r) == SlotAt(s, q) && htab[SlotAt(s, q)] == base + r;
      assert r in noted + {i};
    }
  }

  lemma Entered(htab: seq<u64>, base: nat, noted: set<nat>, s: bytes, i: nat)
    requires Tabled(htab, base, noted, s) && i + 2 < |s| && base + i < TWO_TO_THE_64
    requires forall q :: q in noted ==> q < i
    ensures Tabled(htab[SlotAt(s, i) := base + i], base, noted + {i}, s)
  {
    hide SlotAt, Newest;
    forall q | q in noted + {i} && q + 2 < |s|
      ensures Newest(htab[SlotAt(s, i) := base + i], base, noted + {i}, s, q)
    {
      EnteredAt(htab, base, noted, s, i, q);
    }
  }

  /** What the table gives for a position is the latest one with its slot, if there is one. */
  lemma TableGives(htab: seq<u64>, base: nat, noted: set<nat>, s: bytes, i: nat, q: nat)
    requires Tabled(htab, base, noted, s) && i + 2 < |s| && Latest(noted, s, i, q)
    ensures htab[SlotAt(s, i)] == base + q
  {
    hide SlotAt;
    assert Newest(htab, base, noted, s, q);
  }

  // Sizes ----------------------------------------------------------------------------------------

  function Refs(ms: seq<Move>): nat {
    if ms == [] then 0 else Refs(ms[..|ms| - 1]) + if ms[|ms| - 1].Ref? then 1 else 0
  }

  function LitCount(ms: seq<Move>): nat {
    if ms == [] then 0 else LitCount(ms[..|ms| - 1]) + if ms[|ms| - 1].Lit? then 1 else 0
  }

  lemma {:induction false} CountsConcat(a: seq<Move>, b: seq<Move>)
    ensures Refs(a + b) == Refs(a) + Refs(b) && LitCount(a + b) == LitCount(a) + LitCount(b)
    decreases |b|
  {
    if b == [] {
      assert a + b == a;
    } else {
      var init := b[..|b| - 1];
      CountsConcat(a, init);
      assert (a + b)[..|a + b| - 1] == a + init;
    }
  }

  lemma {:induction false} LitsCount(n: nat)
    ensures LitCount(Lits(n)) == n && Refs(Lits(n)) == 0
  {
    if n > 0 {
      LitsCount(n - 1);
      assert Lits(n)[..n - 1] == Lits(n - 1);
    }
  }

  lemma OneCount(m: Move)
    ensures LitCount([m]) == (if m.Lit? then 1 else 0) && Refs([m]) == (if m.Ref? then 1 else 0)
  {
    assert [m][..0] == [];
  }

  /** A reference takes at most three octets, a literal at most one besides its own. */
  lemma {:induction false} SerializedSize(ts: seq<Token>)
    ensures |Serialize(ts)| <= 3 * Refs(Moves(ts)) + 2 * LitCount(Moves(ts))
    decreases |ts|
  {
    if ts != [] {
      var init, t := ts[..|ts| - 1], ts[|ts| - 1];
      SerializedSize(init);
      CountsConcat(Moves(init), MovesOf(t));
      match t
      case Literal(run) => LitsCount(|run|);
      case BackRef(off, len) => OneCount(Ref(off, len));
    }
  }

  // A run of equal octets ------------------------------------------------------------------------

  predicate AllEqual(s: bytes) {
    forall i :: 0 <= i < |s| ==> s[i] == s[0]
  }

  lemma SameSlots(s: bytes, i: nat, q: nat)
    requires AllEqual(s) && i + 2 < |s| && q + 2 < |s|
    ensures SlotAt(s, i) == SlotAt(s, q)
  {}

  /** Among equal octets the position just before is a candidate as soon as it has been entered. */
  lemma JustBefore(ms: seq<Move>, s: bytes)
    requires AllEqual(s) && Greedy(ms, s) && 2 <= Reach(ms) && Reach(ms) + 4 < |s| && Reach(ms) - 1 in Noted(ms, |s|)
    ensures Latest(Noted(ms, |s|), s, Reach(ms), Reach(ms) - 1) && Usable(s, Reach(ms), Reach(ms) - 1)
  {
    hide Greedy, SlotAt;
    var i := Reach(ms);
    NotedBefore(ms, s);
    SameSlots(s, i, i - 1);
  }

  lemma LongAsCan(s: bytes, i: nat, q: nat, len: nat)
    requires AllEqual(s) && Repeats(s, i, q, len)
    ensures len >= MaxLen(|s|, i)
  {}

  lemma RefWidth(ms: seq<Move>, s: bytes, m: Move)
    requires Chosen(ms, s, m) && m.Ref?
    ensures 3 <= m.len <= MAX_REF && Reach(ms) + 4 < |s| && m.off < Reach(ms)
    ensures Repeats(s, Reach(ms), Reach(ms) - m.off - 1, m.len)
  {}

  lemma LitRefused(ms: seq<Move>, s: bytes, q: nat)
    requires Reach(ms) + 4 < |s| && Latest(Noted(ms, |s|), s, Reach(ms), q) && Usable(s, Reach(ms), q)
    ensures !Chosen(ms, s, Lit)
  {}

  /** One move through equal octets. */
  lemma EqualStep(ms: seq<Move>, s: bytes, m: Move)
    requires AllEqual(s) && Greedy(ms, s) && |s| >= 6 && Chosen(ms, s, m)
    requires 0 < Reach(ms) && Reach(ms) + 2 < |s| ==> Reach(ms) - 1 in Noted(ms, |s|)
    ensures var i := Reach(ms);
            && 1 <= Width(m) && i + Width(m) <= |s| && (m.Lit? ==> Width(m) == 1) && (m.Ref? ==> Width(m) == m.len)
            && (2 <= i && i + 4 < |s| ==> m.Ref?)
            && (m.Ref? ==> i + 4 < |s| && m.len >= 3 && (m.len == MAX_REF || (m.len < MAX_REF && i + m.len + 2 >= |s|)))
            && (i + Width(m) + 2 < |s| ==> i + Width(m) - 1 in Marks(m, i, |s|))
  {
    hide Greedy, Latest, Usable, Repeats, Chosen, Noted, AllEqual;
    var i := Reach(ms);
    ChosenWidth(ms, s, m);
    if m.Ref? {
      RefWidth(ms, s, m);
      LongAsCan(s, i, i - m.off - 1, m.len);
    } else if 2 <= i && i + 4 < |s| {
      JustBefore(ms, s);
      LitRefused(ms, s, i - 1);
    }
  }

  /** The first two and the last four of `n` octets are literals at most; `at` octets are done. */
  predicate FewMoves(refs: nat, lits: nat, at: nat, n: nat) {
    && at <= n && lits <= at && lits <= 2 + (if at + 4 > n then at + 4 - n else 0)
    && 264 * refs <= at + 261 && (at + 4 < n ==> 264 * refs <= at)
  }

  lemma StillFew(refs: nat, lits: nat, at: nat, n: nat, width: nat, ref: bool)
    requires FewMoves(refs, lits, at, n) && at + width <= n
    requires if ref then at + 4 < n && 3 <= width <= 264 && (width == 264 || at + width + 2 >= n) else width == 1
    requires 2 <= at && at + 4 < n ==> ref
    ensures if ref then FewMoves(refs + 1, lits, at + width, n) else FewMoves(refs, lits + 1, at + width, n)
  {}

  lemma FewAtMost(refs: nat, lits: nat, at: nat, n: nat)
    requires FewMoves(refs, lits, at, n)
    ensures refs <= (n + 261) / 264 && lits <= 6
  {}

  lemma NoMoves(n: nat)
    ensures Reach([]) == 0 && FewMoves(Refs([]), LitCount([]), 0, n)
  {}

  lemma LastCounts(ms: seq<Move>)
    requires ms != []
    ensures Refs(ms) == Refs(ms[..|ms| - 1]) + if ms[|ms| - 1].Ref? then 1 else 0
    ensures LitCount(ms) == LitCount(ms[..|ms| - 1]) + if ms[|ms| - 1].Lit? then 1 else 0
  {}

  /** In a run of equal octets only the first two and the last four octets can be literals, and all
      references but the last are as long as they can be. */
  lemma {:induction false} EqualMoves(ms: seq<Move>, s: bytes)
    requires AllEqual(s) && Greedy(ms, s) && |s| >= 6
    ensures FewMoves(Refs(ms), LitCount(ms), Reach(ms), |s|)
    ensures 0 < Reach(ms) && Reach(ms) + 2 < |s| ==> Reach(ms) - 1 in Noted(ms, |s|)
    decreases |ms|
  {
    hide Greedy, Chosen, AllEqual, Marks, Reach, Refs, LitCount, Noted, FewMoves, Width;
    if ms != [] {
      GreedyInit(ms, s);
      var init, m := ms[..|ms| - 1], ms[|ms| - 1];
      EqualMoves(init, s);
      EqualStep(init, s, m);
      LastMove(ms, |s|);
      LastCounts(ms);
      StillFew(Refs(init), LitCount(init), Reach(init), |s|, Width(m), m.Ref?);
    } else {
      NoMoves(|s|);
    }
  }

  /** So a run of n equal octets takes about three octets in 264, however far the compressor has come. */
  lemma EqualSmall(ts: seq<Token>, lit: nat, s: bytes)
    requires AllEqual(s) && |s| >= 6 && Greedy(Moves(ts) + Lits(lit), s)
    ensures |Serialize(ts)| + lit <= 3 * ((|s| + 261) / 264) + 12
  {
    hide Greedy, AllEqual, Noted, Refs, LitCount, Serialize, Moves, Lits, Reach, FewMoves;
    var ms := Moves(ts) + Lits(lit);
    EqualMoves(ms, s);
    CountsConcat(Moves(ts), Lits(lit));
    LitsCount(lit);
    SerializedSize(ts);
    FewAtMost(Refs(ms), LitCount(ms), Reach(ms), |s|);
  }
}
