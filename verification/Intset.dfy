/**
 Sets of 64-bit integers as sorted octet arrays (intset.c). All elements share the smallest of three
 widths that holds them; a wider element widens the whole array in place, from its end.
 */
module Intset {
  import opened Bytes
  import opened Endian
  import Sequences

  const ENC_INT16: nat := 2
  const ENC_INT32: nat := 4
  const ENC_INT64: nat := 8

  /** The largest number of elements whose size in octets still fits 32 bits at the largest width. */
  const MAX_LENGTH: nat := 0x1fff_ffff

  predicate IsWidth(w: nat) {
    w == ENC_INT16 || w == ENC_INT32 || w == ENC_INT64
  }

  predicate Fits(v: int, w: nat) {
    if w == ENC_INT16 then -0x8000 <= v <= 0x7fff
    else if w == ENC_INT32 then -0x8000_0000 <= v <= 0x7fff_ffff
    else -0x8000_0000_0000_0000 <= v <= 0x7fff_ffff_ffff_ffff
  }

  predicate IsInt64(v: int) { Fits(v, ENC_INT64) }

  /** _intsetValueEncoding: the smallest width that holds a value. */
  function ValueEncoding(v: int): (w: nat)
    requires IsInt64(v)
    ensures IsWidth(w) && Fits(v, w)
    ensures forall u :: IsWidth(u) && Fits(v, u) ==> w <= u
  {
    if v < -0x8000_0000 || v > 0x7fff_ffff then ENC_INT64
    else if v < -0x8000 || v > 0x7fff then ENC_INT32
    else ENC_INT16
  }

  predicate AllFit(vs: seq<int>, w: nat) {
    forall i :: 0 <= i < |vs| ==> Fits(vs[i], w)
  }

  predicate Ascending(vs: seq<int>) {
    forall i, j :: 0 <= i < j < |vs| ==> vs[i] < vs[j]
  }

  predicate Below(vs: seq<int>, v: int) {
    forall i :: 0 <= i < |vs| ==> vs[i] < v
  }

  predicate Above(vs: seq<int>, v: int) {
    forall i :: 0 <= i < |vs| ==> v < vs[i]
  }

  lemma Narrowed(vs: seq<int>, mid: nat, v: int)
    requires Ascending(vs) && mid < |vs|
    ensures v > vs[mid] ==> Below(vs[..mid + 1], v)
    ensures v < vs[mid] ==> Above(vs[mid..], v)
    ensures v == vs[mid] ==> Below(vs[..mid], v)
  {}

  /** Numbers one after the other in a common width. */
  function Packed(vs: seq<int>, w: nat): bytes {
    if vs == [] then [] else Packed(vs[..|vs| - 1], w) + LittleEndian(vs[|vs| - 1], w)
  }

  lemma {:induction false} PackedLength(vs: seq<int>, w: nat)
    ensures |Packed(vs, w)| == |vs| * w
    decreases |vs|
  {
    if vs != [] {
      PackedLength(vs[..|vs| - 1], w);
      assert |vs| * w == (|vs| - 1) * w + w;
    }
  }

  lemma PackedLast(init: seq<int>, v: int, w: nat)
    ensures Packed(init + [v], w) == Packed(init, w) + LittleEndian(v, w)
  {
    assert (init + [v])[..|init|] == init;
  }

  lemma LastApart(a: seq<int>, b: seq<int>)
    requires b != []
    ensures a + b == (a + b[..|b| - 1]) + [b[|b| - 1]] && b == b[..|b| - 1] + [b[|b| - 1]]
  {}

  lemma {:induction false} PackedAppend(a: seq<int>, b: seq<int>, w: nat)
    ensures Packed(a + b, w) == Packed(a, w) + Packed(b, w)
    decreases |b|
  {
    if b == [] {
      assert a + b == a && Packed(b, w) == [];
    } else {
      var init, v := b[..|b| - 1], b[|b| - 1];
      hide Packed;
      LastApart(a, b);
      PackedAppend(a, init, w);
      PackedLast(a + init, v, w);
      PackedLast(init, v, w);
      Sequences.Assoc(Packed(a, w), Packed(init, w), LittleEndian(v, w));
    }
  }

  lemma PackedOne(v: int, w: nat)
    ensures Packed([v], w) == LittleEndian(v, w)
  {
    assert [v][..0] == [];
    assert Packed([v], w) == Packed([], w) + LittleEndian(v, w);
  }

  lemma CutAt(a: bytes, b: bytes)
    ensures (a + b)[..|a|] == a && (a + b)[|a|..] == b
  {}

  /** An array of packed numbers, cut at the number `i`. */
  lemma PackedCut(vs: seq<int>, i: nat, w: nat)
    requires i <= |vs|
    ensures i * w <= |vs| * w == |Packed(vs, w)|
    ensures Packed(vs, w)[..i * w] == Packed(vs[..i], w) && Packed(vs, w)[i * w..] == Packed(vs[i..], w)
  {
    hide Packed;
    PackedAppend(vs[..i], vs[i..], w);
    assert vs[..i] + vs[i..] == vs;
    PackedLength(vs, w);
    PackedLength(vs[..i], w);
    PackedLength(vs[i..], w);
    CutAt(Packed(vs[..i], w), Packed(vs[i..], w));
  }

  /** ... and the number itself. */
  lemma PackedAt(vs: seq<int>, i: nat, w: nat)
    requires i < |vs|
    ensures i * w + w <= |vs| * w == |Packed(vs, w)|
    ensures Packed(vs, w)[i * w..i * w + w] == LittleEndian(vs[i], w)
  {
    PackedCut(vs, i + 1, w);
    PackedLength(vs[..i], w);
    assert (i + 1) * w == i * w + w;
    assert vs[..i + 1][..i] == vs[..i];
    assert Packed(vs, w)[i * w..i * w + w] == Packed(vs, w)[..(i + 1) * w][i * w..];
  }

  lemma Readable(v: int, w: nat)
    requires IsWidth(w) && Fits(v, w)
    ensures Signed(LittleEndian(v, w)) == v
  {
    assert Power256(2) == 0x1_0000 && Power256(4) == 0x1_0000 * Power256(2);
    assert Power256(8) == 0x1_0000 * (0x1_0000 * Power256(4));
    SignedInverse(v, w);
  }

  // Facts about sorted numbers -------------------------------------------------------------------

  function ToSet(vs: seq<int>): set<int> {
    set v | v in vs
  }

  lemma TooWide(vs: seq<int>, v: int, w: nat)
    requires IsWidth(w) && AllFit(vs, w) && IsInt64(v) && ValueEncoding(v) > w
    ensures v !in ToSet(vs)
  {}

  lemma PositionDecides(vs: seq<int>, v: int, found: bool, pos: nat)
    requires pos <= |vs| && Below(vs[..pos], v)
    requires if found then pos < |vs| && vs[pos] == v else Above(vs[pos..], v)
    ensures found <==> v in ToSet(vs)
  {
    forall i | 0 <= i < |vs| && !found
      ensures vs[i] != v
    {
      if i < pos {
        assert vs[..pos][i] == vs[i];
      } else {
        assert vs[pos..][i - pos] == vs[i];
      }
    }
  }

  lemma Inserted(vs: seq<int>, pos: nat, v: int, w: nat)
    requires Ascending(vs) && AllFit(vs, w) && Fits(v, w) && pos <= |vs| && Below(vs[..pos], v) && Above(vs[pos..], v)
    ensures var all := vs[..pos] + [v] + vs[pos..];
            Ascending(all) && AllFit(all, w) && ToSet(all) == ToSet(vs) + {v}
  {
    var all := vs[..pos] + [v] + vs[pos..];
    assert vs == vs[..pos] + vs[pos..];
    assert forall x :: x in all <==> x in vs || x == v;
    forall i, j | 0 <= i < j < |all|
      ensures all[i] < all[j]
    {
      if i < pos && j == pos {
        assert vs[..pos][i] < v;
      } else if i == pos {
        assert vs[pos..][j - pos - 1] > v;
      }
    }
  }

  lemma Deleted(vs: seq<int>, pos: nat, w: nat)
    requires Ascending(vs) && AllFit(vs, w) && pos < |vs|
    ensures var rest := vs[..pos] + vs[pos + 1..];
            Ascending(rest) && AllFit(rest, w) && ToSet(rest) == ToSet(vs) - {vs[pos]}
  {
    var rest := vs[..pos] + vs[pos + 1..];
    assert vs == vs[..pos] + [vs[pos]] + vs[pos + 1..];
    assert forall x :: x in vs <==> x in rest || x == vs[pos];
  }

  lemma WithoutLast(a: seq<int>)
    requires Ascending(a) && a != []
    ensures Ascending(a[..|a| - 1]) && ToSet(a[..|a| - 1]) == ToSet(a) - {a[|a| - 1]}
    ensures forall x :: x in ToSet(a) ==> x <= a[|a| - 1]
  {
    var init, last := a[..|a| - 1], a[|a| - 1];
    assert a == init + [last] && last !in init;
    assert forall x :: x in a <==> x in init || x == last;
  }

  lemma NonEmptySet(b: seq<int>)
    requires b != []
    ensures ToSet(b) != {} && b[|b| - 1] in ToSet(b)
  {
    assert b[|b| - 1] in ToSet(b);
  }

  /** The numbers are determined by their set, and as many. */
  lemma {:induction false} SortedUnique(a: seq<int>, b: seq<int>)
    requires Ascending(a) && Ascending(b) && ToSet(a) == ToSet(b)
    ensures a == b && |ToSet(a)| == |a|
    decreases |a|
  {
    if a == [] {
      if b != [] {
        NonEmptySet(b);
      }
    } else {
      NonEmptySet(a);
      assert b != [];
      hide Ascending, ToSet;
      NonEmptySet(b);
      WithoutLast(a);
      WithoutLast(b);
      SortedUnique(a[..|a| - 1], b[..|b| - 1]);
      assert a == a[..|a| - 1] + [a[|a| - 1]] && b == b[..|b| - 1] + [b[|b| - 1]];
    }
  }

  // Facts about the gap ----------------------------------------------------------------------------

  lemma GapPlaces(vs: seq<int>, pos: nat, w: nat)
    requires pos <= |vs|
    ensures |Packed(vs, w)| == |vs| * w == pos * w + (|vs| - pos) * w
    ensures (|vs| + 1) * w == |vs| * w + w && (pos + 1) * w == pos * w + w
    ensures pos < |vs| ==> (|vs| - 1) * w == |vs| * w - w && (|vs| - pos) * w == (|vs| - (pos + 1)) * w + w
  {
    PackedLength(vs, w);
    assert |vs| * w == (pos + (|vs| - pos)) * w;
  }

  /** `r` is `s` with `piece` written over what was at `at`. */
  ghost predicate Written(s: bytes, r: bytes, at: nat, piece: bytes) {
    && at + |piece| <= |s| == |r| && r[at..at + |piece|] == piece
    && r[..at] == s[..at] && r[at + |piece|..] == s[at + |piece|..]
  }

  /** The octets of a block with a piece put in. */
  lemma PutIn(s: bytes, longer: bytes, moved: bytes, r: bytes, at: nat, piece: bytes)
    requires at <= |s| && |longer| == |s| + |piece| && longer[..|s|] == s
    requires Written(longer, moved, at + |piece|, longer[at..|s|]) || (at == |s| && moved == longer)
    requires Written(moved, r, at, piece)
    ensures r == s[..at] + piece + s[at..]
  {
    var end := at + |piece|;
    assert longer[at..|s|] == s[at..] && longer[..at] == s[..at];
    assert moved[end..] == s[at..] by {
      if moved != longer {
        assert moved[end..] == moved[end..end + |longer[at..|s|]|];
      }
    }
    assert moved[..at] == longer[..at] by {
      if moved != longer {
        assert moved[..at] == moved[..end][..at] == longer[..end][..at];
      }
    }
    assert r == r[..at] + r[at..end] + r[end..];
  }

  lemma GapFilled(s: bytes, longer: bytes, moved: bytes, r: bytes, vs: seq<int>, pos: nat, v: int, w: nat)
    requires pos <= |vs| && s == Packed(vs, w) && |longer| == |s| + w && longer[..|s|] == s
    requires if pos < |vs| then pos * w <= |s| && Written(longer, moved, (pos + 1) * w, longer[pos * w..|s|])
               else moved == longer
    requires Written(moved, r, pos * w, LittleEndian(v, w))
    ensures r == Packed(vs[..pos] + [v] + vs[pos..], w)
  {
    hide Packed, LittleEndian, Written;
    var at := pos * w;
    assert (pos + 1) * w == at + w;
    GapPlaces(vs, pos, w);
    PackedCut(vs, pos, w);
    PackedAppend(vs[..pos], [v], w);
    PackedAppend(vs[..pos] + [v], vs[pos..], w);
    PackedOne(v, w);
    PutIn(s, longer, moved, r, at, LittleEndian(v, w));
  }

  /** The octets of a block with a stretch of `w` taken out. */
  lemma TakenOut(s: bytes, moved: bytes, r: bytes, at: nat, w: nat)
    requires at + w <= |s| && Written(s, moved, at, s[at + w..|s|])
    requires r == moved[..|s| - w]
    ensures r == s[..at] + s[at + w..]
  {
    assert r[..at] == moved[..at] && r[at..] == moved[at..at + |s[at + w..]|];
    assert r == r[..at] + r[at..];
  }

  lemma GapClosed(s: bytes, moved: bytes, r: bytes, vs: seq<int>, pos: nat, w: nat)
    requires pos < |vs| && s == Packed(vs, w) && w <= |s|
    requires if pos < |vs| - 1 then (pos + 1) * w <= |s| && Written(s, moved, pos * w, s[(pos + 1) * w..|s|])
               else moved == s
    requires |r| == |s| - w && |moved| == |s| && r == moved[..|r|]
    ensures r == Packed(vs[..pos] + vs[pos + 1..], w)
  {
    hide Packed, Written;
    var at := pos * w;
    assert (pos + 1) * w == at + w;
    GapPlaces(vs, pos, w);
    PackedCut(vs, pos, w);
    PackedCut(vs, pos + 1, w);
    PackedAppend(vs[..pos], vs[pos + 1..], w);
    if pos < |vs| - 1 {
      TakenOut(s, moved, r, at, w);
    } else {
      assert s[at + w..] == [] && r == s[..at];
    }
  }

  // Facts about the widening ---------------------------------------------------------------------

  ghost predicate At(s: bytes, i: nat, piece: bytes) {
    i + |piece| <= |s| && s[i..i + |piece|] == piece
  }

  /** Halfway through a widening from `w` to `u` octets, the first `k` numbers are still narrow, the
      others already wide, `prepend` places further on. */
  ghost predicate HalfWide(s: bytes, vs: seq<int>, k: nat, prepend: nat, w: nat, u: nat) {
    && k <= |vs| && prepend <= 1 && IsWidth(w) && IsWidth(u) && w <= u && |s| == (|vs| + 1) * u
    && At(s, 0, Packed(vs[..k], w))
    && At(s, (k + prepend) * u, Packed(vs[k..], u))
  }

  lemma SizeFits(len: nat, w: nat)
    requires len <= MAX_LENGTH && IsWidth(w)
    ensures len * w < TWO_TO_THE_32
  {}

  lemma NarrowAt(s: bytes, vs: seq<int>, k: nat, w: nat)
    requires k < |vs| && At(s, 0, Packed(vs[..k + 1], w))
    ensures k * w + w <= |s| && s[k * w..k * w + w] == LittleEndian(vs[k], w)
  {
    PackedAt(vs[..k + 1], k, w);
    var e := Packed(vs[..k + 1], w);
    assert s[k * w..k * w + w] == s[0..|e|][k * w..k * w + w];
  }

  /** What lies before the number just written is as before. */
  lemma NarrowKept(s: bytes, r: bytes, vs: seq<int>, k: nat, w: nat, at: nat)
    requires k < |vs| && At(s, 0, Packed(vs[..k + 1], w))
    requires k * w <= at <= |s| == |r| && r[..at] == s[..at]
    ensures At(r, 0, Packed(vs[..k], w))
  {
    PackedCut(vs[..k + 1], k, w);
    assert vs[..k + 1][..k] == vs[..k];
    PackedLength(vs[..k], w);
    var e := Packed(vs[..k + 1], w);
    assert r[0..k * w] == r[..at][..k * w] == s[..at][..k * w] == s[0..|e|][..k * w];
  }

  /** What lies behind it, too, and the number joins it. */
  lemma WideAt(s: bytes, r: bytes, vs: seq<int>, k: nat, at: nat, w: nat)
    requires k < |vs| && At(s, at + w, Packed(vs[k + 1..], w))
    requires at + w <= |s| == |r| && r[at + w..] == s[at + w..] && r[at..at + w] == LittleEndian(vs[k], w)
    ensures At(r, at, Packed(vs[k..], w))
  {
    hide Packed, LittleEndian;
    assert vs[k..] == [vs[k]] + vs[k + 1..];
    PackedAppend([vs[k]], vs[k + 1..], w);
    PackedOne(vs[k], w);
    var e := Packed(vs[k + 1..], w);
    assert r[at + w..at + w + |e|] == r[at + w..][..|e|] == s[at + w..][..|e|] == s[at + w..at + w + |e|];
    assert r[at..at + w + |e|] == r[at..at + w] + r[at + w..at + w + |e|];
  }

  lemma NextNarrow(s: bytes, vs: seq<int>, k: nat, prepend: nat, w: nat, u: nat)
    requires HalfWide(s, vs, k + 1, prepend, w, u) && AllFit(vs, w)
    ensures k < |vs| && IsWidth(w) && IsWidth(u) && k * w + w <= |s| && Signed(s[k * w..k * w + w]) == vs[k]
    ensures (k + prepend) * u + u <= |s|
  {
    assert Fits(vs[k], w);
    hide Packed, LittleEndian, Signed, AllFit, At;
    NarrowAt(s, vs, k, w);
    Readable(vs[k], w);
  }

  lemma NextWidened(s: bytes, r: bytes, vs: seq<int>, k: nat, prepend: nat, w: nat, u: nat, at: nat)
    requires HalfWide(s, vs, k + 1, prepend, w, u) && at == (k + prepend) * u
    requires Written(s, r, at, LittleEndian(vs[k], u))
    ensures HalfWide(r, vs, k, prepend, w, u)
  {
    hide Packed, LittleEndian, At;
    WideAt(s, r, vs, k, at, u);
    NarrowKept(s, r, vs, k, w, at);
  }

  lemma StartWidening(s: bytes, r: bytes, vs: seq<int>, w: nat, u: nat, prepend: nat)
    requires IsWidth(w) && IsWidth(u) && w <= u && prepend <= 1
    requires s == Packed(vs, w) && |r| == (|vs| + 1) * u
    requires |s| <= |r| ==> r[..|s|] == s
    ensures HalfWide(r, vs, |vs|, prepend, w, u)
  {
    PackedLength(vs, w);
    assert |vs| * w <= |vs| * u <= (|vs| + prepend) * u <= (|vs| + 1) * u;
    assert vs[..|vs|] == vs;
    assert Packed(vs[|vs|..], u) == [];
  }

  lemma AllWide(s: bytes, vs: seq<int>, prepend: nat, w: nat, u: nat)
    requires HalfWide(s, vs, 0, prepend, w, u)
    ensures |s| == (|vs| + 1) * u && At(s, prepend * u, Packed(vs, u))
  {
    assert vs[0..] == vs;
  }

  /** A number too wide for all others lies beyond them, on the side of its sign. */
  lemma Outermost(vs: seq<int>, v: int, w: nat)
    requires IsWidth(w) && AllFit(vs, w) && Ascending(vs) && IsInt64(v) && ValueEncoding(v) > w
    ensures var all := if v < 0 then [v] + vs else vs + [v];
            AllFit(all, ValueEncoding(v)) && Ascending(all)
  {
    forall i | 0 <= i < |vs|
      ensures Fits(vs[i], ValueEncoding(v)) && (if v < 0 then v < vs[i] else vs[i] < v)
    {
    }
  }

  // The array ------------------------------------------------------------------------------------

  method CopyUp(a: array<u8>, dst: nat, src: nat, n: nat)
    requires dst <= src && src + n <= a.Length
    modifies a
    ensures a[dst..dst + n] == old(a[src..src + n])
    ensures a[..dst] == old(a[..dst]) && a[dst + n..] == old(a[dst + n..])
  {
    var k: int := 0;
    while k < n
      invariant 0 <= k <= n && a[dst..dst + k] == old(a[src..src + k])
      invariant a[src + k..] == old(a[src + k..])
      invariant a[..dst] == old(a[..dst]) && a[dst + n..] == old(a[dst + n..])
    {
      assert a[src + k] == a[src + k..][0] == old(a[src + k..])[0];
      a[dst + k] := a[src + k];
      k := k + 1;
    }
  }

  method CopyDown(a: array<u8>, dst: nat, src: nat, n: nat)
    requires src < dst && dst + n <= a.Length
    modifies a
    ensures a[dst..dst + n] == old(a[src..src + n])
    ensures a[..dst] == old(a[..dst]) && a[dst + n..] == old(a[dst + n..])
  {
    ghost var was := a[..];
    var k: int := n;
    while k > 0
      invariant 0 <= k <= n
      invariant forall i :: 0 <= i < a.Length ==> a[i] == was[if dst + k <= i < dst + n then i - (dst - src) else i]
    {
      k := k - 1;
      a[dst + k] := a[src + k];
    }
    assert was[src..src + n] == old(a[src..src + n]);
  }

  /** memmove within one buffer: the direction of the copy keeps what is still to be read. */
  method MemMove(a: array<u8>, dst: nat, src: nat, n: nat)
    requires dst + n <= a.Length && src + n <= a.Length
    modifies a
    ensures Written(old(a[..]), a[..], dst, old(a[..])[src..src + n])
  {
    ghost var was := a[..];
    if dst <= src {
      CopyUp(a, dst, src, n);
    } else {
      CopyDown(a, dst, src, n);
    }
    assert was[src..src + n] == old(a[src..src + n]);
    assert a[..][dst..dst + n] == a[dst..dst + n];
    assert a[..][..dst] == a[..dst] && a[..][dst + n..] == a[dst + n..];
  }

  method CopyInto(a: array<u8>, from: array<u8>, n: nat)
    requires a != from && n <= a.Length && n <= from.Length
    modifies a
    ensures a[..n] == from[..n]
  {
    var k := 0;
    while k < n
      invariant k <= n && a[..k] == from[..k]
    {
      a[k] := from[k];
      k := k + 1;
    }
  }

  class IntSet {
    var encoding: nat
    var length: nat
    var contents: array<u8>
    ghost var vals: seq<int>

    ghost predicate Valid()
      reads this, contents
    {
      && IsWidth(encoding)
      && length == |vals| <= MAX_LENGTH
      && AllFit(vals, encoding) && Ascending(vals)
      && contents[..] == Packed(vals, encoding)
    }

    /** The set that is meant. */
    ghost function Elements(): set<int>
      reads this
    {
      ToSet(vals)
    }

    constructor ()
      ensures Valid() && Elements() == {} && encoding == ENC_INT16 && fresh(contents)
    {
      encoding, length, vals := ENC_INT16, 0, [];
      contents := new u8[0];
    }

    /** _intsetGetEncoded: the number at `pos` of an array of the given width. */
    method GetEncoded(pos: nat, enc: nat) returns (v: int)
      requires IsWidth(enc) && pos * enc + enc <= contents.Length
      ensures v == Signed(contents[..][pos * enc..pos * enc + enc])
    {
      assert contents[..][pos * enc..pos * enc + enc] == contents[pos * enc..pos * enc + enc];
      v := Signed(contents[pos * enc..pos * enc + enc]);
    }

    /** _intsetGet */
    method Get(pos: nat) returns (v: int)
      requires Valid() && pos < length
      ensures v == vals[pos]
    {
      PackedAt(vals, pos, encoding);
      Readable(vals[pos], encoding);
      v := GetEncoded(pos, encoding);
    }

    /** _intsetSet */
    method Set(pos: nat, value: int)
      requires IsWidth(encoding) && pos * encoding + encoding <= contents.Length
      modifies contents
      ensures Written(old(contents[..]), contents[..], pos * encoding, LittleEndian(value, encoding))
    {
      ghost var was := contents[..];
      var octets := LittleEndian(value, encoding);
      var at := pos * encoding;
      var k := 0;
      while k < encoding
        invariant k <= encoding
        invariant forall i :: 0 <= i < contents.Length ==>
                    contents[i] == if at <= i < at + k then octets[i - at] else was[i]
      {
        contents[at + k] := octets[k];
        k := k + 1;
      }
      assert contents[..][at..at + encoding] == contents[at..at + encoding];
      assert contents[..][..at] == contents[..at] && contents[..][at + encoding..] == contents[at + encoding..];
    }

    /** intsetResize: what fits of the old contents stays. */
    method Resize(len: nat)
      requires len * encoding < TWO_TO_THE_32
      modifies this`contents
      ensures fresh(contents) && contents.Length == len * encoding
      ensures var kept := if contents.Length < old(contents.Length) then contents.Length else old(contents.Length);
              contents[..kept] == old(contents[..kept])
    {
      var size := len * encoding;
      var a := new u8[size];
      CopyInto(a, contents, if size < contents.Length then size else contents.Length);
      contents := a;
    }

    /** Where a value is, or where it would be inserted. */
    ghost predicate Position(value: int, found: bool, pos: nat)
      reads this
    {
      && pos <= |vals| && Below(vals[..pos], value)
      && if found then pos < |vals| && vals[pos] == value else Above(vals[pos..], value)
    }

    static lemma NothingAround(vs: seq<int>, value: int)
      ensures Below(vs[..0], value) && Above(vs[|vs|..], value)
    {}

    lemma Ordered()
      requires Valid()
      ensures Ascending(vals) && length == |vals|
    {}

    lemma Placed(value: int, pos: nat)
      requires pos <= |vals| && Below(vals[..pos], value)
      ensures pos < |vals| && vals[pos] == value ==> Position(value, true, pos)
      ensures Above(vals[pos..], value) ==> Position(value, false, pos)
    {}

    /** The loop of intsetSearch. */
    method Halve(value: int) returns (found: bool, pos: nat)
      requires Valid() && length > 0
      ensures Position(value, found, pos)
    {
      hide Packed, Valid, Ascending, Below, Above, Position;
      Ordered();
      NothingAround(vals, value);
      var min: int, max: int, mid: int, cur: int := 0, length - 1, -1, -1;
      while max >= min
        invariant 0 <= min <= max + 1 <= length
        invariant Below(vals[..min], value) && Above(vals[max + 1..], value)
        invariant if mid == -1 then max >= min else cur != value
        decreases max - min
      {
        mid := (min + max) / 2;
        cur := Get(mid);
        Narrowed(vals, mid, value);
        if value > cur {
          min := mid + 1;
        } else if value < cur {
          max := mid - 1;
        } else {
          break;
        }
      }
      Placed(value, if value == cur then mid else min);
      if value == cur {
        return true, mid;
      }
      return false, min;
    }

    /** intsetSearch: binary search, after a look at both ends. */
    method Search(value: int) returns (found: bool, pos: nat)
      requires Valid()
      ensures Position(value, found, pos)
    {
      hide Packed, Ascending;
      if length == 0 {
        return false, 0;
      }
      Narrowed(vals, length - 1, value);
      Narrowed(vals, 0, value);
      var last := Get(length - 1);
      if value > last {
        return false, length;
      }
      var first := Get(0);
      if value < first {
        return false, 0;
      }
      found, pos := Halve(value);
    }

    /** intsetFind */
    method Find(value: int) returns (found: bool)
      requires Valid() && IsInt64(value)
      ensures found <==> value in Elements()
    {
      hide Packed, Ascending, AllFit, Below, Above;
      var valenc := ValueEncoding(value);
      if valenc > encoding {
        TooWide(vals, value, encoding);
        return false;
      }
      var pos;
      found, pos := Search(value);
      PositionDecides(vals, value, found, pos);
    }

    /** intsetMoveTail */
    method MoveTail(from: nat, to: nat)
      requires from <= length && length * encoding <= contents.Length
      requires to * encoding + (length - from) * encoding <= contents.Length
      modifies contents
      ensures from * encoding <= length * encoding
      ensures Written(old(contents[..]), contents[..], to * encoding,
                old(contents[..])[from * encoding..length * encoding])
    {
      hide Written;
      var octets := (length - from) * encoding;
      assert length * encoding == from * encoding + octets;
      MemMove(contents, to * encoding, from * encoding, octets);
    }

    /** The next number to widen, and the place where it goes. */
    method NextToWiden(k: nat, prepend: nat, curenc: nat) returns (v: int)
      requires HalfWide(contents[..], vals, k + 1, prepend, curenc, encoding) && AllFit(vals, curenc)
      ensures k < |vals| && v == vals[k]
      ensures IsWidth(encoding) && (k + prepend) * encoding + encoding <= contents.Length
    {
      hide Packed, LittleEndian, Signed, AllFit, HalfWide, Fits, IsWidth;
      NextNarrow(contents[..], vals, k, prepend, curenc, encoding);
      v := GetEncoded(k, curenc);
    }

    method WidenOne(k: nat, prepend: nat, curenc: nat)
      requires HalfWide(contents[..], vals, k + 1, prepend, curenc, encoding) && AllFit(vals, curenc)
      modifies contents
      ensures HalfWide(contents[..], vals, k, prepend, curenc, encoding)
    {
      hide Packed, LittleEndian, Signed, AllFit, HalfWide, Written, Fits, IsWidth;
      ghost var before := contents[..];
      var v := NextToWiden(k, prepend, curenc);
      Set(k + prepend, v);
      NextWidened(before, contents[..], vals, k, prepend, curenc, encoding, (k + prepend) * encoding);
    }

    /** Fills the place left at one end. */
    method PutBeyond(value: int)
      requires IsWidth(encoding) && length == |vals| && contents.Length == (length + 1) * encoding
      requires At(contents[..], (if value < 0 then 1 else 0) * encoding, Packed(vals, encoding))
      modifies contents
      ensures contents[..] == Packed(if value < 0 then [value] + vals else vals + [value], encoding)
    {
      hide Packed, LittleEndian;
      ghost var wide := Packed(vals, encoding);
      PackedLength(vals, encoding);
      assert contents.Length == length * encoding + encoding;
      ghost var was := contents[..];
      if value < 0 {
        Set(0, value);
        PackedAppend([value], vals, encoding);
        PackedOne(value, encoding);
        assert contents[..] == contents[..][0..encoding] + contents[..][encoding..];
        assert was[encoding..] == was[encoding..encoding + |wide|];
      } else {
        Set(length, value);
        PackedLast(vals, value, encoding);
        assert contents[..] == contents[..][..|wide|] + contents[..][|wide|..|wide| + encoding];
        assert was[..|wide|] == was[0..|wide|];
      }
    }

    /** intsetUpgradeAndAdd: widens the numbers from the last to the first, so that none is overwritten
        before it was read, and puts the new one, which lies beyond all others, at its end. */
    method UpgradeAndAdd(value: int)
      requires Valid() && length < MAX_LENGTH && IsInt64(value) && ValueEncoding(value) > encoding
      modifies this, contents
      ensures Valid() && fresh(contents) && encoding == ValueEncoding(value)
      ensures vals == if value < 0 then [value] + old(vals) else old(vals) + [value]
    {
      hide Packed, Ascending, AllFit, LittleEndian, HalfWide;
      var curenc, newenc := encoding, ValueEncoding(value);
      var k, prepend := length, if value < 0 then 1 else 0;
      ghost var narrow := contents[..];
      encoding := newenc;
      SizeFits(length + 1, newenc);
      Resize(length + 1);
      StartWidening(narrow, contents[..], vals, curenc, newenc, prepend);
      while k > 0
        invariant 0 <= k <= |vals| && HalfWide(contents[..], vals, k, prepend, curenc, encoding)
        invariant encoding == newenc && length == old(length) && vals == old(vals) && fresh(contents)
      {
        k := k - 1;
        WidenOne(k, prepend, curenc);
      }
      AllWide(contents[..], vals, prepend, curenc, newenc);
      PutBeyond(value);
      Outermost(vals, value, curenc);
      length := length + 1;
      vals := if value < 0 then [value] + vals else vals + [value];
    }

    /** Makes room at `pos`, and fills it. */
    method OpenGap(pos: nat, value: int)
      requires pos <= length == |vals| && contents[..] == Packed(vals, encoding)
      requires IsWidth(encoding) && (length + 1) * encoding < TWO_TO_THE_32
      modifies this`contents
      ensures fresh(contents) && contents[..] == Packed(vals[..pos] + [value] + vals[pos..], encoding)
    {
      hide Packed, LittleEndian, Written;
      ghost var narrow := contents[..];
      GapPlaces(vals, pos, encoding);
      Resize(length + 1);
      ghost var longer := contents[..];
      if pos < length {
        MoveTail(pos, pos + 1);
      }
      ghost var moved := contents[..];
      Set(pos, value);
      GapFilled(narrow, longer, moved, contents[..], vals, pos, value, encoding);
    }

    /** intsetAdd */
    method Add(value: int) returns (success: bool)
      requires Valid() && length < MAX_LENGTH && IsInt64(value)
      modifies this, contents
      ensures Valid() && Elements() == old(Elements()) + {value} && success == (value !in old(Elements()))
      ensures encoding == if success && ValueEncoding(value) > old(encoding) then ValueEncoding(value)
                else old(encoding)
      ensures contents == old(contents) || fresh(contents)
      ensures !success ==> vals == old(vals) && contents == old(contents) && contents[..] == old(contents[..])
    {
      hide Packed, Ascending, AllFit, Below, Above, LittleEndian;
      var valenc := ValueEncoding(value);
      if valenc > encoding {
        success := true;
        TooWide(vals, value, encoding);
        hide ToSet;
        UpgradeAndAdd(value);
        return;
      }
      var found, pos := Search(value);
      PositionDecides(vals, value, found, pos);
      if found {
        assert ToSet(vals) + {value} == ToSet(vals);
        return false;
      }
      hide ToSet;
      SizeFits(length + 1, encoding);
      OpenGap(pos, value);
      Inserted(vals, pos, value, encoding);
      length := length + 1;
      vals := vals[..pos] + [value] + vals[pos..];
      success := true;
    }

    /** Overwrites the number at `pos` with those behind it. */
    method CloseGap(pos: nat)
      requires pos < length == |vals| && contents[..] == Packed(vals, encoding)
      requires (length - 1) * encoding < TWO_TO_THE_32
      modifies this`contents, contents
      ensures fresh(contents) && contents[..] == Packed(vals[..pos] + vals[pos + 1..], encoding)
    {
      hide Packed, Written;
      ghost var wide := contents[..];
      GapPlaces(vals, pos, encoding);
      if pos < length - 1 {
        MoveTail(pos + 1, pos);
      }
      ghost var moved := contents[..];
      Resize(length - 1);
      GapClosed(wide, moved, contents[..], vals, pos, encoding);
    }

    /** intsetRemove */
    method Remove(value: int) returns (success: bool)
      requires Valid() && IsInt64(value)
      modifies this, contents
      ensures Valid() && Elements() == old(Elements()) - {value} && success == (value in old(Elements()))
      ensures encoding == old(encoding) && (contents == old(contents) || fresh(contents))
      ensures !success ==> vals == old(vals) && contents == old(contents) && contents[..] == old(contents[..])
    {
      hide Packed, Ascending, AllFit, Below, Above, ToSet, Fits;
      var valenc := ValueEncoding(value);
      success := false;
      if valenc > encoding {
        TooWide(vals, value, encoding);
        return;
      }
      var pos;
      success, pos := Search(value);
      PositionDecides(vals, value, success, pos);
      if success {
        SizeFits(length - 1, encoding);
        CloseGap(pos);
        Deleted(vals, pos, encoding);
        length := length - 1;
        vals := vals[..pos] + vals[pos + 1..];
      }
    }
  }

  // The whole block --------------------------------------------------------------------------------

  /** The block of memory that holds a set: width, length, numbers. */
  function Block(vs: seq<int>, w: nat): bytes {
    LittleEndian(w, 4) + LittleEndian(|vs|, 4) + Packed(vs, w)
  }

  /** `n` numbers from position `i` on. */
  function Numbers(s: bytes, w: nat, n: nat): seq<int>
    decreases n
  {
    if n == 0 || w > |s| then [] else [Signed(s[..w])] + Numbers(s[w..], w, n - 1)
  }

  /** The numbers in a block. */
  function BlockNumbers(b: bytes): seq<int> {
    if |b| < 8 then []
    else Numbers(b[8..], FromLittleEndian(b[..4]), FromLittleEndian(b[4..8]))
  }

  lemma {:induction false} NumbersOfPacked(vs: seq<int>, w: nat)
    requires IsWidth(w) && AllFit(vs, w)
    ensures Numbers(Packed(vs, w), w, |vs|) == vs
    decreases |vs|
  {
    if vs != [] {
      hide Packed, Signed, LittleEndian;
      assert vs == [vs[0]] + vs[1..];
      PackedAppend([vs[0]], vs[1..], w);
      PackedOne(vs[0], w);
      Readable(vs[0], w);
      NumbersOfPacked(vs[1..], w);
      var s := Packed(vs, w);
      assert s[..w] == LittleEndian(vs[0], w) && s[w..] == Packed(vs[1..], w);
    }
  }

  lemma Unsigned32(v: u32)
    ensures FromLittleEndian(LittleEndian(v, 4)) == v
  {
    LittleEndianInverse(v, 4);
    assert Power256(2) == 0x1_0000 && Power256(4) == 0x1_0000 * Power256(2);
  }

  lemma Parts(x: bytes, y: bytes, z: bytes)
    requires |x| == 4 && |y| == 4
    ensures (x + y + z)[..4] == x && (x + y + z)[4..8] == y && (x + y + z)[8..] == z
  {}

  /** A block tells which set it holds. */
  lemma BlockRead(vs: seq<int>, w: nat)
    requires IsWidth(w) && AllFit(vs, w) && |vs| <= MAX_LENGTH
    ensures BlockNumbers(Block(vs, w)) == vs
  {
    hide Packed, LittleEndian, FromLittleEndian, Power256;
    Unsigned32(w);
    Unsigned32(|vs|);
    NumbersOfPacked(vs, w);
    hide Numbers;
    var b, x, y, z := Block(vs, w), LittleEndian(w, 4), LittleEndian(|vs|, 4), Packed(vs, w);
    Parts(x, y, z);
  }
}
