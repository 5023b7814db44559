/**
 The partial quicksort of pqsort.c: Bentley and McIlroy's fat-pivot partition, which gathers the
 elements equal to the pivot at both ends and then moves them to the middle, a switch to insertion
 sort when a partition swapped nothing, and a range of positions outside of which nothing is sorted.
 */
module PqSort {
  import opened Permutations

  /** What qsort demands of its comparison: its sign is a total preorder. */
  ghost predicate Comparison<T(!new)>(cmp: (T, T) -> int) {
    && (forall x, y :: cmp(x, y) < 0 <==> cmp(y, x) > 0)
    && (forall x, y, z :: cmp(x, y) <= 0 && cmp(y, z) <= 0 ==> cmp(x, z) <= 0)
  }

  /** Position `i` of the stretch holds what a full sort of the stretch could leave there. */
  ghost predicate Settled<T>(s: seq<T>, i: nat, lo: nat, hi: nat, cmp: (T, T) -> int)
    requires i < |s| && hi <= |s|
  {
    && (forall j :: lo <= j < i && j < hi ==> cmp(s[j], s[i]) <= 0)
    && (forall j :: i < j < hi && lo <= j ==> cmp(s[i], s[j]) <= 0)
  }

  ghost predicate Sorted<T>(s: seq<T>, lo: nat, hi: nat, cmp: (T, T) -> int)
    requires hi <= |s|
  {
    forall i, j :: lo <= i < j < hi ==> cmp(s[i], s[j]) <= 0
  }

  lemma CompareVia<T(!new)>(cmp: (T, T) -> int, x: T, y: T, z: T)
    requires Comparison(cmp)
    ensures cmp(x, y) < 0 <==> cmp(y, x) > 0
    ensures cmp(x, y) <= 0 && cmp(y, z) <= 0 ==> cmp(x, z) <= 0
    ensures cmp(x, y) <= 0 && cmp(y, z) < 0 ==> cmp(x, z) < 0
    ensures cmp(x, y) < 0 && cmp(y, z) <= 0 ==> cmp(x, z) < 0
  {}

  lemma CountSplit<T>(s: seq<T>, k: nat, P: T -> bool)
    requires k <= |s|
    ensures Count(s, P) == Count(s[..k], P) + Count(s[k..], P)
  {
    assert s == s[..k] + s[k..];
    CountConcat(s[..k], s[k..], P);
  }

  lemma NotBelow<T(!new)>(s: seq<T>, t: seq<T>, i: nat, cmp: (T, T) -> int)
    requires Comparison(cmp) && i < |s| == |t| && multiset(s) == multiset(t)
    requires Settled(s, i, 0, |s|, cmp) && Sorted(t, 0, |t|, cmp)
    ensures cmp(t[i], s[i]) >= 0
  {
    hide Comparison;
    var v := s[i];
    var below := x => cmp(x, v) < 0;
    CountMultiset(s, t, below);
    CountSplit(s, i, below);
    CountSplit(t, i + 1, below);
    var back := s[i..];
    forall j | 0 <= j < |back| ensures !below(back[j]) {
      CompareVia(cmp, back[j], v, v);
    }
    CountAll(back, below);
    if cmp(t[i], v) < 0 {
      var front := t[..i + 1];
      forall j | 0 <= j < |front| ensures below(front[j]) {
        CompareVia(cmp, front[j], t[i], v);
      }
      CountAll(front, below);
    }
  }

  lemma NotAbove<T(!new)>(s: seq<T>, t: seq<T>, i: nat, cmp: (T, T) -> int)
    requires Comparison(cmp) && i < |s| == |t| && multiset(s) == multiset(t)
    requires Settled(s, i, 0, |s|, cmp) && Sorted(t, 0, |t|, cmp)
    ensures cmp(t[i], s[i]) <= 0
  {
    hide Comparison;
    var v := s[i];
    var above := x => cmp(x, v) > 0;
    CountMultiset(s, t, above);
    CountSplit(s, i + 1, above);
    CountSplit(t, i, above);
    var front := s[..i + 1];
    forall j | 0 <= j < |front| ensures !above(front[j]) {
      CompareVia(cmp, v, front[j], v);
    }
    CountAll(front, above);
    if cmp(t[i], v) > 0 {
      var back := t[i..];
      forall j | 0 <= j < |back| ensures above(back[j]) {
        CompareVia(cmp, v, t[i], back[j]);
        CompareVia(cmp, v, back[j], v);
      }
      CountAll(back, above);
    }
  }

  /** A settled position holds an element of exactly the rank that a full sort puts there: it is
      equivalent to the element at that position of every sorted rearrangement. */
  lemma SettledRank<T(!new)>(s: seq<T>, t: seq<T>, i: nat, cmp: (T, T) -> int)
    requires Comparison(cmp) && i < |s| == |t| && multiset(s) == multiset(t)
    requires Settled(s, i, 0, |s|, cmp) && Sorted(t, 0, |t|, cmp)
    ensures cmp(s[i], t[i]) == 0
  {
    if cmp(t[i], s[i]) < 0 {
      NotBelow(s, t, i, cmp);
    }
    if cmp(t[i], s[i]) > 0 {
      NotAbove(s, t, i, cmp);
    }
  }

  // Elementary operations ------------------------------------------------------------------------

  method Swap<T>(a: array<T>, i: nat, j: nat)
    requires i < a.Length && j < a.Length
    modifies a
    ensures a[..] == Swapped(old(a[..]), i, j)
  {
    a[i], a[j] := a[j], a[i];
  }

  /** The median of three positions: its element lies between those of the other two. */
  function Med3<T>(s: seq<T>, a: nat, b: nat, c: nat, cmp: (T, T) -> int): (m: nat)
    requires a < |s| && b < |s| && c < |s|
    ensures m == a || m == b || m == c
  {
    if cmp(s[a], s[b]) < 0 then
      if cmp(s[b], s[c]) < 0 then b else if cmp(s[a], s[c]) < 0 then c else a
    else
      if cmp(s[b], s[c]) > 0 then b else if cmp(s[a], s[c]) < 0 then a else c
  }

  lemma Med3IsMedian<T(!new)>(s: seq<T>, a: nat, b: nat, c: nat, cmp: (T, T) -> int)
    requires a < |s| && b < |s| && c < |s| && Comparison(cmp)
    ensures var m := s[Med3(s, a, b, c, cmp)];
            var x, y, z := s[a], s[b], s[c];
            && (cmp(x, m) <= 0 || cmp(y, m) <= 0) && (cmp(y, m) <= 0 || cmp(z, m) <= 0)
            && (cmp(x, m) <= 0 || cmp(z, m) <= 0)
            && (cmp(m, x) <= 0 || cmp(m, y) <= 0) && (cmp(m, y) <= 0 || cmp(m, z) <= 0)
            && (cmp(m, x) <= 0 || cmp(m, z) <= 0)
  {
    var x, y, z := s[a], s[b], s[c];
    assert cmp(x, x) == 0 && cmp(y, y) == 0 && cmp(z, z) == 0;
  }

  /** The position whose element becomes the pivot: the middle, the median of three from 8 elements
      on, and the median of three medians above 40. */
  function PivotPosition<T>(s: seq<T>, lo: nat, n: nat, cmp: (T, T) -> int): (m: nat)
    requires 7 <= n && lo + n <= |s|
    ensures lo <= m < lo + n
  {
    var pm := lo + n / 2;
    if n > 7 then
      var pl, pn := lo, lo + n - 1;
      if n > 40 then
        var d := n / 8;
        Med3(s, Med3(s, pl, pl + d, pl + 2 * d, cmp),
             Med3(s, pm - d, pm, pm + d, cmp),
             Med3(s, pn - 2 * d, pn - d, pn, cmp), cmp)
      else
        Med3(s, pl, pm, pn, cmp)
    else
      pm
  }

  // Insertion sort -------------------------------------------------------------------------------

  /** Sorted except for the element at `k`, which is strictly below everything after it. */
  ghost predicate SortedBut<T>(s: seq<T>, lo: nat, k: nat, hi: nat, cmp: (T, T) -> int)
    requires hi <= |s|
  {
    && (forall i, j :: lo <= i < j < hi && i != k && j != k ==> cmp(s[i], s[j]) <= 0)
    && (forall j :: k < j < hi ==> cmp(s[k], s[j]) <= 0)
  }

  lemma SinkStart<T(!new)>(s: seq<T>, lo: nat, k: nat, cmp: (T, T) -> int)
    requires k < |s| && Sorted(s, lo, k, cmp)
    ensures SortedBut(s, lo, k, k + 1, cmp)
  {}

  lemma SinkOne<T(!new)>(s: seq<T>, lo: nat, k: nat, hi: nat, cmp: (T, T) -> int)
    requires Comparison(cmp) && lo < k < hi <= |s|
    requires SortedBut(s, lo, k, hi, cmp) && cmp(s[k - 1], s[k]) > 0
    ensures SortedBut(Swapped(s, k, k - 1), lo, k - 1, hi, cmp)
  {}

  lemma SunkSorted<T(!new)>(s: seq<T>, lo: nat, k: nat, hi: nat, cmp: (T, T) -> int)
    requires Comparison(cmp) && lo <= k < hi <= |s| && SortedBut(s, lo, k, hi, cmp)
    requires k == lo || cmp(s[k - 1], s[k]) <= 0
    ensures Sorted(s, lo, hi, cmp)
  {
    forall i, j | lo <= i < j < hi ensures cmp(s[i], s[j]) <= 0 {
      if j == k && i < k - 1 {
        assert cmp(s[i], s[k - 1]) <= 0;
      }
    }
  }

  /** Moves the element at `pm` down to its place among the sorted elements before it. */
  method Sink<T(!new)>(a: array<T>, lo: nat, n: nat, pm: nat, cmp: (T, T) -> int, ghost s0: seq<T>)
    requires Comparison(cmp) && lo < pm < lo + n <= a.Length
    requires Shuffled(s0, a[..], lo, lo + n) && Sorted(a[..], lo, pm, cmp)
    modifies a
    ensures Shuffled(s0, a[..], lo, lo + n) && Sorted(a[..], lo, pm + 1, cmp)
  {
    hide Comparison, Sorted, SortedBut, Swapped, Shuffled;
    var pl := pm;
    SinkStart(a[..], lo, pm, cmp);
    while pl > lo && cmp(a[pl - 1], a[pl]) > 0
      invariant lo <= pl <= pm
      invariant Shuffled(s0, a[..], lo, lo + n)
      invariant SortedBut(a[..], lo, pl, pm + 1, cmp)
    {
      SinkOne(a[..], lo, pl, pm + 1, cmp);
      SwapWithin(s0, a[..], pl, pl - 1, lo, lo + n);
      Swap(a, pl, pl - 1);
      pl := pl - 1;
    }
    SunkSorted(a[..], lo, pl, pm + 1, cmp);
  }

  lemma SortedShort<T>(s: seq<T>, lo: nat, hi: nat, cmp: (T, T) -> int)
    requires lo <= hi <= |s|
    ensures hi - lo <= 1 ==> Sorted(s, lo, hi, cmp)
    ensures lo < hi ==> Sorted(s, lo, lo + 1, cmp)
  {}

  method InsertionSort<T(!new)>(a: array<T>, lo: nat, n: nat, cmp: (T, T) -> int)
    requires Comparison(cmp) && lo + n <= a.Length
    modifies a
    ensures Shuffled(old(a[..]), a[..], lo, lo + n)
    ensures Sorted(a[..], lo, lo + n, cmp)
  {
    hide Comparison, Sorted, SortedBut, Shuffled;
    ghost var s0 := a[..];
    ShuffledReflexive(s0, lo, lo + n);
    SortedShort(s0, lo, lo + n, cmp);
    var pm := lo + 1;
    while pm < lo + n
      invariant lo < pm && (n > 0 ==> pm <= lo + n)
      invariant Shuffled(s0, a[..], lo, lo + n)
      invariant n > 0 ==> Sorted(a[..], lo, pm, cmp)
    {
      Sink(a, lo, n, pm, cmp, s0);
      pm := pm + 1;
    }
    SortedShort(a[..], lo, lo + n, cmp);
  }

  // Partition ------------------------------------------------------------------------------------

  /** Below the pivot, equivalent to it, above it. */
  ghost predicate Partitioned<T>(s: seq<T>, lo: nat, m1: nat, m2: nat, hi: nat, p: T, cmp: (T, T) -> int) {
    && lo <= m1 <= m2 <= hi <= |s|
    && (forall i :: lo <= i < m1 ==> cmp(s[i], p) < 0)
    && (forall i :: m1 <= i < m2 ==> cmp(s[i], p) == 0)
    && (forall i :: m2 <= i < hi ==> cmp(s[i], p) > 0)
  }

  /** The five zones of a partition in progress: equal, below, unknown, above, equal. */
  ghost predicate FiveZones<T>(s: seq<T>, lo: nat, pa: nat, pb: nat, pc: int, pd: int, hi: nat,
                               cmp: (T, T) -> int)
    requires lo < pa <= pb <= pc + 1 <= pd + 1 <= hi <= |s|
  {
    && (forall i :: lo < i < pa ==> cmp(s[i], s[lo]) == 0)
    && (forall i :: pa <= i < pb ==> cmp(s[i], s[lo]) < 0)
    && (forall i :: pc < i <= pd ==> cmp(s[i], s[lo]) > 0)
    && (forall i :: pd < i < hi ==> cmp(s[i], s[lo]) == 0)
  }

  lemma GatherLeft<T>(s: seq<T>, lo: nat, pa: nat, pb: nat, pc: int, pd: int, hi: nat, cmp: (T, T) -> int)
    requires lo < pa <= pb <= pc <= pd && pd + 1 <= hi <= |s| && FiveZones(s, lo, pa, pb, pc, pd, hi, cmp)
    ensures cmp(s[pb], s[lo]) < 0 ==> FiveZones(s, lo, pa, pb + 1, pc, pd, hi, cmp)
    ensures cmp(s[pb], s[lo]) == 0 ==> FiveZones(Swapped(s, pa, pb), lo, pa + 1, pb + 1, pc, pd, hi, cmp)
  {}

  /** Passes over elements not above the pivot, moving equal ones to the left end. */
  method ScanUp<T>(a: array<T>, lo: nat, n: nat, cmp: (T, T) -> int, pa0: nat, pb0: nat, pc: int,
                   pd: int, swapped0: bool, ghost s0: seq<T>)
    returns (pa: nat, pb: nat, swapped: bool)
    requires lo + n <= a.Length && lo < pa0 <= pb0 <= pc + 1 <= pd + 1 <= lo + n
    requires Shuffled(s0, a[..], lo, lo + n)
    requires FiveZones(a[..], lo, pa0, pb0, pc, pd, lo + n, cmp)
    requires !swapped0 ==> a[..] == s0
    modifies a
    ensures lo < pa <= pb <= pc + 1 && pb0 <= pb && Shuffled(s0, a[..], lo, lo + n)
    ensures FiveZones(a[..], lo, pa, pb, pc, pd, lo + n, cmp)
    ensures pb <= pc ==> cmp(a[pb], a[lo]) > 0
    ensures !swapped ==> a[..] == s0
  {
    hide Swapped, FiveZones, Shuffled;
    pa, pb, swapped := pa0, pb0, swapped0;
    while pb <= pc && cmp(a[pb], a[lo]) <= 0
      invariant lo < pa <= pb <= pc + 1 && pb0 <= pb
      invariant Shuffled(s0, a[..], lo, lo + n) && FiveZones(a[..], lo, pa, pb, pc, pd, lo + n, cmp)
      invariant !swapped ==> a[..] == s0
    {
      GatherLeft(a[..], lo, pa, pb, pc, pd, lo + n, cmp);
      if cmp(a[pb], a[lo]) == 0 {
        swapped := true;
        SwapWithin(s0, a[..], pa, pb, lo, lo + n);
        Swap(a, pa, pb);
        pa := pa + 1;
      }
      pb := pb + 1;
    }
  }

  lemma GatherRight<T>(s: seq<T>, lo: nat, pa: nat, pb: nat, pc: int, pd: int, hi: nat, cmp: (T, T) -> int)
    requires lo < pa <= pb <= pc <= pd && pd + 1 <= hi <= |s| && FiveZones(s, lo, pa, pb, pc, pd, hi, cmp)
    ensures cmp(s[pc], s[lo]) > 0 ==> FiveZones(s, lo, pa, pb, pc - 1, pd, hi, cmp)
    ensures cmp(s[pc], s[lo]) == 0 ==>
              FiveZones(Swapped(s, pc, pd), lo, pa, pb, pc - 1, pd - 1, hi, cmp)
    ensures Swapped(s, pc, pd)[lo] == s[lo] && (pb < pc ==> Swapped(s, pc, pd)[pb] == s[pb])
  {}

  /** Passes down over elements not below the pivot, moving equal ones to the right end. */
  method ScanDown<T>(a: array<T>, lo: nat, n: nat, cmp: (T, T) -> int, pa: nat, pb: nat, pc0: int,
                     pd0: int, swapped0: bool, ghost s0: seq<T>)
    returns (pc: int, pd: int, swapped: bool)
    requires lo + n <= a.Length && lo < pa <= pb <= pc0 + 1 <= pd0 + 1 <= lo + n
    requires Shuffled(s0, a[..], lo, lo + n)
    requires FiveZones(a[..], lo, pa, pb, pc0, pd0, lo + n, cmp)
    requires pb <= pc0 ==> cmp(a[pb], a[lo]) > 0
    requires !swapped0 ==> a[..] == s0
    modifies a
    ensures pb <= pc + 1 <= pd + 1 <= lo + n && pc <= pc0 && Shuffled(s0, a[..], lo, lo + n)
    ensures FiveZones(a[..], lo, pa, pb, pc, pd, lo + n, cmp)
    ensures pb <= pc ==> cmp(a[pb], a[lo]) > 0 && cmp(a[pc], a[lo]) < 0
    ensures !swapped ==> a[..] == s0
  {
    hide Swapped, FiveZones, Shuffled;
    pc, pd, swapped := pc0, pd0, swapped0;
    while pb <= pc && cmp(a[pc], a[lo]) >= 0
      invariant pb <= pc + 1 <= pd + 1 <= lo + n && pc <= pc0
      invariant Shuffled(s0, a[..], lo, lo + n) && FiveZones(a[..], lo, pa, pb, pc, pd, lo + n, cmp)
      invariant pb <= pc ==> cmp(a[pb], a[lo]) > 0
      invariant !swapped ==> a[..] == s0
    {
      GatherRight(a[..], lo, pa, pb, pc, pd, lo + n, cmp);
      if cmp(a[pc], a[lo]) == 0 {
        swapped := true;
        SwapWithin(s0, a[..], pc, pd, lo, lo + n);
        Swap(a, pc, pd);
        pd := pd - 1;
      }
      pc := pc - 1;
    }
  }

  lemma NoZones<T>(s: seq<T>, lo: nat, hi: nat, cmp: (T, T) -> int)
    requires lo < hi <= |s|
    ensures FiveZones(s, lo, lo + 1, lo + 1, hi - 1, hi - 1, hi, cmp)
  {}

  lemma Exchange<T>(s: seq<T>, lo: nat, pa: nat, pb: nat, pc: int, pd: int, hi: nat, cmp: (T, T) -> int)
    requires lo < pa <= pb <= pc <= pd && pd + 1 <= hi <= |s| && FiveZones(s, lo, pa, pb, pc, pd, hi, cmp)
    requires cmp(s[pb], s[lo]) > 0 && cmp(s[pc], s[lo]) < 0
    ensures pb < pc && FiveZones(Swapped(s, pb, pc), lo, pa, pb + 1, pc - 1, pd, hi, cmp)
  {}

  /** Gathers elements equal to the pivot a[lo] at both ends; `swapped` tells whether anything moved. */
  method SplitZones<T(!new)>(a: array<T>, lo: nat, n: nat, cmp: (T, T) -> int)
    returns (pa: nat, pb: nat, pc: int, pd: int, swapped: bool)
    requires 7 <= n && lo + n <= a.Length
    modifies a
    ensures Shuffled(old(a[..]), a[..], lo, lo + n)
    ensures lo < pa <= pb == pc + 1 <= pd + 1 <= lo + n
    ensures FiveZones(a[..], lo, pa, pb, pc, pd, lo + n, cmp)
    ensures !swapped ==> a[..] == old(a[..])
  {
    hide Swapped, FiveZones, Shuffled;
    ghost var s0, hi := a[..], lo + n;
    ShuffledReflexive(s0, lo, hi);
    pa, pb, pc, pd, swapped := lo + 1, lo + 1, lo + n - 1, lo + n - 1, false;
    NoZones(s0, lo, hi, cmp);
    while true
      invariant lo < pa <= pb <= pc + 1 <= pd + 1 <= hi
      invariant Shuffled(s0, a[..], lo, hi) && FiveZones(a[..], lo, pa, pb, pc, pd, hi, cmp)
      invariant !swapped ==> a[..] == s0
      decreases pc - pb + 1
    {
      pa, pb, swapped := ScanUp(a, lo, n, cmp, pa, pb, pc, pd, swapped, s0);
      pc, pd, swapped := ScanDown(a, lo, n, cmp, pa, pb, pc, pd, swapped, s0);
      if pb > pc {
        break;
      }
      SwapWithin(s0, a[..], pb, pc, lo, hi);
      Exchange(a[..], lo, pa, pb, pc, pd, hi, cmp);
      Swap(a, pb, pc);
      swapped := true;
      pb, pc := pb + 1, pc - 1;
    }
  }

  // Moving the equal elements to the middle ------------------------------------------------------

  /** The first `k` elements at `i` and at `j` exchanged. */
  function BlocksSwapped<T>(s: seq<T>, i: nat, j: nat, k: nat): (r: seq<T>)
    requires i + k <= j && j + k <= |s|
    ensures |r| == |s|
  {
    seq(|s|, x requires 0 <= x < |s| =>
      if i <= x < i + k then s[x + (j - i)] else if j <= x < j + k then s[x - (j - i)] else s[x])
  }

  lemma NoBlocks<T>(s: seq<T>, i: nat, j: nat)
    requires i <= j <= |s|
    ensures BlocksSwapped(s, i, j, 0) == s
  {}

  lemma BlocksStep<T>(s: seq<T>, i: nat, j: nat, k: nat)
    requires i + k < j && j + k < |s|
    ensures Swapped(BlocksSwapped(s, i, j, k), i + k, j + k) == BlocksSwapped(s, i, j, k + 1)
  {}

  method VecSwap<T>(a: array<T>, i: nat, j: nat, n: nat, ghost lo: nat, ghost hi: nat)
    requires lo <= i && i + n <= j && j + n <= hi <= a.Length
    modifies a
    ensures a[..] == BlocksSwapped(old(a[..]), i, j, n)
    ensures Shuffled(old(a[..]), a[..], lo, hi)
  {
    hide Shuffled, BlocksSwapped, Swapped;
    ghost var s := a[..];
    ShuffledReflexive(s, lo, hi);
    NoBlocks(s, i, j);
    var k := 0;
    while k < n
      invariant k <= n
      invariant a[..] == BlocksSwapped(s, i, j, k)
      invariant Shuffled(s, a[..], lo, hi)
    {
      ghost var now := a[..];
      SwapWithin(s, now, i + k, j + k, lo, hi);
      BlocksStep(s, i, j, k);
      Swap(a, i + k, j + k);
      k := k + 1;
    }
  }

  function Min(a: int, b: int): int { if a < b then a else b }

  /** Exchanging as many elements as the shorter of two adjacent zones holds, at their outer ends,
      exchanges the zones. */
  lemma ZonesExchanged<T>(s: seq<T>, lo: nat, mid: nat, hi: nat, P: T -> bool, Q: T -> bool)
    requires lo <= mid <= hi <= |s|
    requires forall i :: lo <= i < mid ==> P(s[i])
    requires forall i :: mid <= i < hi ==> Q(s[i])
    ensures var r := Min(mid - lo, hi - mid);
            var t := BlocksSwapped(s, lo, hi - r, r);
            && (forall i :: lo <= i < lo + (hi - mid) ==> Q(t[i]))
            && (forall i :: lo + (hi - mid) <= i < hi ==> P(t[i]))
            && (forall i :: 0 <= i < |s| && !(lo <= i < hi) ==> t[i] == s[i])
  {}

  lemma Merge<T(!new)>(s: seq<T>, lo: nat, pa: nat, pb: nat, pd: int, hi: nat, cmp: (T, T) -> int)
    returns (s2: seq<T>)
    requires lo < pa <= pb <= pd + 1 <= hi <= |s| && FiveZones(s, lo, pa, pb, pb - 1, pd, hi, cmp)
    requires cmp(s[lo], s[lo]) == 0
    ensures var r := Min(pa - lo, pb - pa);
            var s1 := BlocksSwapped(s, lo, pb - r, r);
            var r1 := Min(pd - (pb - 1), hi - pd - 1);
            s2 == BlocksSwapped(s1, pb, hi - r1, r1)
    ensures Partitioned(s2, lo, lo + (pb - pa), hi - (pd - (pb - 1)), hi, s[lo], cmp)
  {
    hide BlocksSwapped;
    var p := s[lo];
    var below, equal, above := x => cmp(x, p) < 0, x => cmp(x, p) == 0, x => cmp(x, p) > 0;
    var r := Min(pa - lo, pb - pa);
    var s1 := BlocksSwapped(s, lo, pb - r, r);
    ZonesExchanged(s, lo, pa, pb, equal, below);
    var r1 := Min(pd - (pb - 1), hi - pd - 1);
    s2 := BlocksSwapped(s1, pb, hi - r1, r1);
    ZonesExchanged(s1, pb, pd + 1, hi, above, equal);
    forall i | lo <= i < hi
      ensures i < lo + (pb - pa) ==> below(s2[i])
      ensures lo + (pb - pa) <= i < hi - (pd - (pb - 1)) ==> equal(s2[i])
      ensures hi - (pd - (pb - 1)) <= i ==> above(s2[i])
    {
    }
  }

  /** The elements equal to the pivot, exchanged into the middle. */
  method MergeZones<T(!new)>(a: array<T>, lo: nat, pa: nat, pb: nat, pc: int, pd: int, hi: nat,
                             ghost cmp: (T, T) -> int)
    requires lo < pa <= pb == pc + 1 <= pd + 1 <= hi <= a.Length
    requires FiveZones(a[..], lo, pa, pb, pc, pd, hi, cmp) && cmp(a[lo], a[lo]) == 0
    modifies a
    ensures Shuffled(old(a[..]), a[..], lo, hi)
    ensures Partitioned(a[..], lo, lo + (pb - pa), hi - (pd - pc), hi, old(a[lo]), cmp)
  {
    hide Swapped, FiveZones, Shuffled, BlocksSwapped, Partitioned;
    ghost var s := a[..];
    ghost var merged := Merge(s, lo, pa, pb, pd, hi, cmp);
    var r := Min(pa - lo, pb - pa);
    VecSwap(a, lo, pb - r, r, lo, hi);
    ghost var s1 := a[..];
    r := Min(pd - pc, hi - pd - 1);
    VecSwap(a, pb, hi - r, r, lo, hi);
    ShuffledTransitive(s, s1, a[..], lo, hi);
  }

  /** One round: choose a pivot, partition, and either sort outright or move the equals to the middle. */
  method PartitionStep<T(!new)>(a: array<T>, lo: nat, n: nat, cmp: (T, T) -> int)
    returns (sorted: bool, m1: nat, m2: nat, ghost p: T)
    requires Comparison(cmp) && 7 <= n && lo + n <= a.Length
    modifies a
    ensures Shuffled(old(a[..]), a[..], lo, lo + n)
    ensures sorted ==> Sorted(a[..], lo, lo + n, cmp)
    ensures !sorted ==> m1 < m2 && Partitioned(a[..], lo, m1, m2, lo + n, p, cmp)
  {
    hide Swapped, FiveZones, Shuffled, Sorted, Comparison, BlocksSwapped, Partitioned;
    ghost var s0, hi := a[..], lo + n;
    var pm := PivotPosition(a[..], lo, n, cmp);
    ShuffledReflexive(s0, lo, hi);
    SwapWithin(s0, s0, lo, pm, lo, hi);
    Swap(a, lo, pm);
    ghost var s1 := a[..];
    var pa, pb, pc, pd, swapped := SplitZones(a, lo, n, cmp);
    ShuffledTransitive(s0, s1, a[..], lo, hi);
    sorted, m1, m2, p := !swapped, lo + (pb - pa), lo + n - (pd - pc), a[lo];
    if !swapped {
      s1 := a[..];
      InsertionSort(a, lo, n, cmp);
      ShuffledTransitive(s0, s1, a[..], lo, hi);
      return;
    }
    CompareVia(cmp, p, p, p);
    s1 := a[..];
    MergeZones(a, lo, pa, pb, pc, pd, lo + n, cmp);
    ShuffledTransitive(s0, s1, a[..], lo, hi);
  }

  // Range pruning --------------------------------------------------------------------------------

  /** The address test before a recursive call: the stretch lo..hi of elements of `es` bytes lies
      wholly after or wholly before the requested range of bytes. */
  predicate Pruned(lrange: int, rrange: int, lo: nat, hi: nat, es: nat) {
    var left, right := lo * es, hi * es - 1;
    (lrange < left && rrange < left) || (lrange > right && rrange > right)
  }

  lemma TimesMonotone(x: nat, y: nat, es: nat)
    requires es > 0
    ensures x <= y <==> x * es <= y * es
  {
    if x <= y {
      assert y * es - x * es == (y - x) * es >= 0;
    } else {
      assert x * es - y * es == (x - y) * es > 0;
    }
  }

  /** On byte addresses the test means exactly that the stretch holds no requested position. */
  lemma PrunedExactly(l: nat, r: nat, lo: nat, hi: nat, es: nat)
    requires es > 0 && lo < hi && l <= r
    ensures Pruned(l * es, (r + 1) * es - 1, lo, hi, es) <==> r < lo || l >= hi
  {
    TimesMonotone(l, lo, es);
    TimesMonotone(lo, r + 1, es);
    TimesMonotone(hi, l, es);
    TimesMonotone(r + 1, lo, es);
    TimesMonotone(hi, r + 1, es);
    TimesMonotone(l, r + 1, es);
    assert (r + 1) * es - l * es == (r + 1 - l) * es;
    assert (r + 1 - l) * es >= es;
  }

  // Recursion ------------------------------------------------------------------------------------

  /** Every requested position of the stretch is settled in it. */
  ghost predicate RangeSettled<T>(s: seq<T>, lo: nat, hi: nat, l: nat, r: nat, cmp: (T, T) -> int)
    requires hi <= |s|
  {
    forall i :: lo <= i < hi && l <= i <= r ==> Settled(s, i, lo, hi, cmp)
  }

  /** What the iterations so far have achieved for lo0..lo: it is settled, and below the rest. */
  ghost predicate Done<T>(s: seq<T>, lo0: nat, lo: nat, hi: nat, l: nat, r: nat, cmp: (T, T) -> int) {
    && lo0 <= lo <= hi <= |s|
    && RangeSettled(s, lo0, lo, l, r, cmp)
    && forall i, j :: lo0 <= i < lo <= j < hi ==> cmp(s[i], s[j]) <= 0
  }

  lemma NothingDone<T>(s: seq<T>, lo: nat, hi: nat, l: nat, r: nat, cmp: (T, T) -> int)
    requires lo <= hi <= |s|
    ensures Done(s, lo, lo, hi, l, r, cmp)
  {}

  lemma DoneKept<T>(s: seq<T>, t: seq<T>, lo0: nat, lo: nat, hi: nat, l: nat, r: nat, cmp: (T, T) -> int)
    requires Done(s, lo0, lo, hi, l, r, cmp) && Shuffled(s, t, lo, hi)
    ensures Done(t, lo0, lo, hi, l, r, cmp)
  {
    hide Shuffled;
    ShuffledLength(s, t, lo, hi);
    forall i | 0 <= i < lo ensures t[i] == s[i] {
      ShuffledElsewhere(s, t, lo, hi, i);
    }
    forall i, j | lo0 <= i < lo <= j < hi ensures cmp(t[i], t[j]) <= 0 {
      var k := ShuffledSource(s, t, lo, hi, j);
    }
    forall i | lo0 <= i < lo && l <= i <= r ensures Settled(t, i, lo0, lo, cmp) {
      assert Settled(s, i, lo0, lo, cmp);
    }
  }

  /** Settled parts, one below the other, make a settled whole. */
  lemma DoneFinish<T>(s: seq<T>, lo0: nat, lo: nat, hi: nat, l: nat, r: nat, cmp: (T, T) -> int)
    requires Done(s, lo0, lo, hi, l, r, cmp) && RangeSettled(s, lo, hi, l, r, cmp)
    ensures RangeSettled(s, lo0, hi, l, r, cmp)
  {
    forall i | lo0 <= i < hi && l <= i <= r ensures Settled(s, i, lo0, hi, cmp) {
      if i < lo {
        assert Settled(s, i, lo0, lo, cmp);
      } else {
        assert Settled(s, i, lo, hi, cmp);
      }
    }
  }

  lemma PartitionKept<T>(s: seq<T>, t: seq<T>, lo: nat, m1: nat, m2: nat, hi: nat, p: T, cmp: (T, T) -> int)
    requires Partitioned(s, lo, m1, m2, hi, p, cmp) && Shuffled(s, t, lo, m1)
    ensures Partitioned(t, lo, m1, m2, hi, p, cmp)
  {
    hide Shuffled;
    ShuffledLength(s, t, lo, m1);
    forall i | lo <= i < hi ensures i < m1 ==> cmp(t[i], p) < 0
      ensures i >= m1 ==> t[i] == s[i]
    {
      if i < m1 {
        var k := ShuffledSource(s, t, lo, m1, i);
      } else {
        ShuffledElsewhere(s, t, lo, m1, i);
      }
    }
  }

  /** After the left part, the iteration may go on with what is above the pivot. */
  lemma PartitionDone<T(!new)>(s: seq<T>, lo: nat, m1: nat, m2: nat, hi: nat, p: T, l: nat, r: nat,
                               cmp: (T, T) -> int)
    requires Comparison(cmp)
    requires Partitioned(s, lo, m1, m2, hi, p, cmp) && RangeSettled(s, lo, m1, l, r, cmp)
    ensures Done(s, lo, m2, hi, l, r, cmp)
  {
    hide Comparison;
    forall i, j | lo <= i < j < hi && (i < m1 <= j || m1 <= i) && i < m2
      ensures cmp(s[i], s[j]) <= 0
    {
      CompareVia(cmp, s[i], p, s[j]);
      CompareVia(cmp, s[j], p, s[i]);
      CompareVia(cmp, p, s[j], s[i]);
    }
    forall i | lo <= i < m2 && l <= i <= r ensures Settled(s, i, lo, m2, cmp) {
      if i < m1 {
        assert Settled(s, i, lo, m1, cmp);
      }
    }
  }

  lemma SortedRangeSettled<T>(s: seq<T>, lo: nat, hi: nat, l: nat, r: nat, cmp: (T, T) -> int)
    requires hi <= |s|
    ensures Sorted(s, lo, hi, cmp) || hi <= lo + 1 || hi <= l || r < lo ==> RangeSettled(s, lo, hi, l, r, cmp)
  {}

  lemma PartitionBounds<T>(s: seq<T>, lo: nat, m1: nat, m2: nat, hi: nat, p: T, cmp: (T, T) -> int)
    requires Partitioned(s, lo, m1, m2, hi, p, cmp)
    ensures lo <= m1 <= m2 <= hi <= |s|
  {}

  /** The rest has been sorted: the whole stretch is settled. */
  lemma Finish<T>(s0: seq<T>, s1: seq<T>, s2: seq<T>, lo0: nat, lo: nat, hi: nat, l: nat, r: nat,
                  cmp: (T, T) -> int)
    requires Shuffled(s0, s1, lo0, hi) && Done(s1, lo0, lo, hi, l, r, cmp)
    requires Shuffled(s1, s2, lo, hi) && hi <= |s2| && Sorted(s2, lo, hi, cmp)
    ensures Shuffled(s0, s2, lo0, hi) && hi <= |s2| && RangeSettled(s2, lo0, hi, l, r, cmp)
  {
    ShuffledWider(s1, s2, lo, hi, lo0, hi);
    DoneKept(s1, s2, lo0, lo, hi, l, r, cmp);
    SortedRangeSettled(s2, lo, hi, l, r, cmp);
    DoneFinish(s2, lo0, lo, hi, l, r, cmp);
  }

  lemma DoneGrows<T>(s: seq<T>, lo0: nat, lo: nat, m: nat, hi: nat, l: nat, r: nat, cmp: (T, T) -> int)
    requires Done(s, lo0, lo, hi, l, r, cmp) && Done(s, lo, m, hi, l, r, cmp)
    ensures Done(s, lo0, m, hi, l, r, cmp)
  {
    forall i | lo0 <= i < m && l <= i <= r ensures Settled(s, i, lo0, m, cmp) {
      if i < lo {
        assert Settled(s, i, lo0, lo, cmp);
      } else {
        assert Settled(s, i, lo, m, cmp);
      }
    }
  }

  /** The rest has been partitioned and its left part settled: only the right part remains. */
  lemma Advance<T(!new)>(s0: seq<T>, s1: seq<T>, s2: seq<T>, lo0: nat, lo: nat, m1: nat, m2: nat,
                         hi: nat, p: T, l: nat, r: nat, cmp: (T, T) -> int)
    requires Comparison(cmp) && Shuffled(s0, s1, lo0, hi) && Done(s1, lo0, lo, hi, l, r, cmp)
    requires Shuffled(s1, s2, lo, hi) && Partitioned(s2, lo, m1, m2, hi, p, cmp)
    requires m1 <= |s2| && RangeSettled(s2, lo, m1, l, r, cmp)
    ensures Shuffled(s0, s2, lo0, hi) && Done(s2, lo0, m2, hi, l, r, cmp)
  {
    ShuffledWider(s1, s2, lo, hi, lo0, hi);
    DoneKept(s1, s2, lo0, lo, hi, l, r, cmp);
    PartitionDone(s2, lo, m1, m2, hi, p, l, r, cmp);
    DoneGrows(s2, lo0, lo, m2, hi, l, r, cmp);
  }

  /**
   Rearranges the `n0` elements from `lo0` so that every requested position among them is settled.
   The left part of a partition is handled by recursion, the right part by iteration; `lrange` and
   `rrange` are the first and the last byte of the requested positions l..r.
   */
  method SortRange<T(!new)>(a: array<T>, lo0: nat, n0: nat, es: nat, cmp: (T, T) -> int,
                            lrange: int, rrange: int, ghost l: nat, ghost r: nat)
    requires Comparison(cmp) && lo0 + n0 <= a.Length
    requires es > 0 && l <= r && lrange == l * es && rrange == (r + 1) * es - 1
    modifies a
    ensures Shuffled(old(a[..]), a[..], lo0, lo0 + n0)
    ensures RangeSettled(a[..], lo0, lo0 + n0, l, r, cmp)
    decreases n0
  {
    hide Comparison, Shuffled, Sorted, Partitioned, RangeSettled, Done, Pruned;
    var lo: nat, n: nat, hi: nat := lo0, n0, lo0 + n0;
    ghost var s0 := a[..];
    ShuffledReflexive(s0, lo0, hi);
    NothingDone(s0, lo0, hi, l, r, cmp);
    while true
      invariant lo0 <= lo && lo + n == hi
      invariant Shuffled(s0, a[..], lo0, hi)
      invariant Done(a[..], lo0, lo, hi, l, r, cmp)
      decreases n
    {
      ghost var s1 := a[..];
      if n < 7 {
        InsertionSort(a, lo, n, cmp);
        Finish(s0, s1, a[..], lo0, lo, hi, l, r, cmp);
        return;
      }
      var sorted, m1, m2, p := PartitionStep(a, lo, n, cmp);
      if sorted {
        Finish(s0, s1, a[..], lo0, lo, hi, l, r, cmp);
        return;
      }
      PartitionBounds(a[..], lo, m1, m2, hi, p, cmp);
      if m1 - lo > 1 && !Pruned(lrange, rrange, lo, m1, es) {
        SortLeft(a, lo, n, es, cmp, lrange, rrange, m1, m2, p, l, r, s1);
      } else {
        if m1 - lo > 1 {
          PrunedExactly(l, r, lo, m1, es);
        }
        SortedRangeSettled(a[..], lo, m1, l, r, cmp);
      }
      Advance(s0, s1, a[..], lo0, lo, m1, m2, hi, p, l, r, cmp);
      if hi - m2 > 1 && !Pruned(lrange, rrange, m2, hi, es) {
        // the right part is what remains to be done: the next round of the same loop
        lo, n := m2, hi - m2;
      } else {
        if hi - m2 > 1 {
          PrunedExactly(l, r, m2, hi, es);
        }
        SortedRangeSettled(a[..], m2, hi, l, r, cmp);
        DoneFinish(a[..], lo0, m2, hi, l, r, cmp);
        return;
      }
    }
  }

  /** The recursive call, which leaves the partition standing. */
  method SortLeft<T(!new)>(a: array<T>, lo: nat, n: nat, es: nat, cmp: (T, T) -> int, lrange: int,
                           rrange: int, m1: nat, ghost m2: nat, ghost p: T, ghost l: nat, ghost r: nat,
                           ghost s1: seq<T>)
    requires Comparison(cmp) && lo + n <= a.Length && lo <= m1 < m2 <= lo + n
    requires es > 0 && l <= r && lrange == l * es && rrange == (r + 1) * es - 1
    requires Shuffled(s1, a[..], lo, lo + n) && Partitioned(a[..], lo, m1, m2, lo + n, p, cmp)
    modifies a
    ensures Shuffled(s1, a[..], lo, lo + n)
    ensures RangeSettled(a[..], lo, m1, l, r, cmp)
    ensures Partitioned(a[..], lo, m1, m2, lo + n, p, cmp)
    decreases n, 0
  {
    hide Comparison, Shuffled, Partitioned, RangeSettled;
    ghost var s := a[..];
    SortRange(a, lo, m1 - lo, es, cmp, lrange, rrange, l, r);
    PartitionKept(s, a[..], lo, m1, m2, lo + n, p, cmp);
    ShuffledWider(s, a[..], lo, m1, lo, lo + n);
    ShuffledTransitive(s1, s, a[..], lo, lo + n);
  }

  /** The element at `i` has the rank that a full sort puts there: it is equivalent to the element at
      that position of every sorted rearrangement. */
  ghost predicate Ranked<T(!new)>(s: seq<T>, i: nat, cmp: (T, T) -> int)
    requires i < |s|
  {
    forall t: seq<T> :: multiset(t) == multiset(s) && Sorted(t, 0, |t|, cmp) ==>
      i < |t| && cmp(s[i], t[i]) == 0
  }

  lemma SettledRanked<T(!new)>(s: seq<T>, i: nat, cmp: (T, T) -> int)
    requires Comparison(cmp) && i < |s| && Settled(s, i, 0, |s|, cmp)
    ensures Ranked(s, i, cmp)
  {
    forall t: seq<T> | multiset(t) == multiset(s) && Sorted(t, 0, |t|, cmp)
      ensures i < |t| && cmp(s[i], t[i]) == 0
    {
      assert |t| == |multiset(t)| && |s| == |multiset(s)|;
      SettledRank(s, t, i, cmp);
    }
  }

  /** Sorts exactly the positions l..r of an array of elements of `es` bytes: they end up holding what
      a full sort puts there, with nothing greater before them and nothing smaller after them. */
  method Pqsort<T(!new)>(a: array<T>, es: nat, cmp: (T, T) -> int, l: nat, r: nat)
    requires Comparison(cmp) && es > 0 && l <= r < a.Length
    modifies a
    ensures multiset(a[..]) == multiset(old(a[..]))
    ensures forall i :: l <= i <= r ==> Settled(a[..], i, 0, a.Length, cmp) && Ranked(a[..], i, cmp)
  {
    hide Comparison, Settled, Ranked;
    SortRange(a, 0, a.Length, es, cmp, l * es, (r + 1) * es - 1, l, r);
    assert a[..][0..a.Length] == a[..];
    assert old(a[..])[0..a.Length] == old(a[..]);
    forall i | l <= i <= r ensures Settled(a[..], i, 0, a.Length, cmp) && Ranked(a[..], i, cmp) {
      SettledRanked(a[..], i, cmp);
    }
  }
}
