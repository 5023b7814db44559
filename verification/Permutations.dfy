/** Rearrangements of one stretch of a sequence, and counting under them. */
module Permutations {
  /** `t` is `s` with the elements of positions lo..hi rearranged and everything else in place. */
  ghost predicate Shuffled<T>(s: seq<T>, t: seq<T>, lo: nat, hi: nat) {
    && lo <= hi <= |s| == |t|
    && s[..lo] == t[..lo] && s[hi..] == t[hi..]
    && multiset(s[lo..hi]) == multiset(t[lo..hi])
  }

  function Swapped<T>(s: seq<T>, i: nat, j: nat): (r: seq<T>)
    requires i < |s| && j < |s|
    ensures |r| == |s|
  {
    s[i := s[j]][j := s[i]]
  }

  /** One more swap inside the stretch. */
  lemma SwapWithin<T>(s: seq<T>, t: seq<T>, i: nat, j: nat, lo: nat, hi: nat)
    requires Shuffled(s, t, lo, hi) && lo <= i < hi && lo <= j < hi
    ensures |t| == |s| && hi <= |t| && Shuffled(s, Swapped(t, i, j), lo, hi)
  {
  }

  lemma ShuffledReflexive<T>(s: seq<T>, lo: nat, hi: nat)
    requires lo <= hi <= |s|
    ensures Shuffled(s, s, lo, hi)
  {}

  lemma ShuffledLength<T>(s: seq<T>, t: seq<T>, lo: nat, hi: nat)
    requires Shuffled(s, t, lo, hi)
    ensures lo <= hi <= |s| == |t|
  {}

  lemma ShuffledTransitive<T>(s: seq<T>, t: seq<T>, u: seq<T>, lo: nat, hi: nat)
    requires Shuffled(s, t, lo, hi) && Shuffled(t, u, lo, hi)
    ensures Shuffled(s, u, lo, hi)
  {}

  lemma ShuffledWider<T>(s: seq<T>, t: seq<T>, lo: nat, hi: nat, lo': nat, hi': nat)
    requires Shuffled(s, t, lo, hi) && lo' <= lo && hi <= hi' <= |s|
    ensures Shuffled(s, t, lo', hi')
  {
    assert s[lo'..lo] == s[..lo][lo'..] == t[lo'..lo];
    assert s[hi..hi'] == s[hi..][..hi' - hi] == t[hi..hi'];
    assert s[lo'..hi'] == s[lo'..lo] + s[lo..hi] + s[hi..hi'];
    assert t[lo'..hi'] == t[lo'..lo] + t[lo..hi] + t[hi..hi'];
    assert s[..lo'] == s[..lo][..lo'] == t[..lo'];
    assert s[hi'..] == s[hi..][hi' - hi..] == t[hi'..];
  }

  /** Every element of the stretch comes from the stretch. */
  lemma ShuffledSource<T>(s: seq<T>, t: seq<T>, lo: nat, hi: nat, i: nat) returns (j: nat)
    requires Shuffled(s, t, lo, hi) && lo <= i < hi
    ensures lo <= j < hi && t[i] == s[j]
  {
    assert t[lo..hi][i - lo] in multiset(t[lo..hi]);
    assert t[i] in multiset(s[lo..hi]);
    var k :| 0 <= k < hi - lo && s[lo..hi][k] == t[i];
    j := lo + k;
  }

  lemma ShuffledElsewhere<T>(s: seq<T>, t: seq<T>, lo: nat, hi: nat, i: nat)
    requires Shuffled(s, t, lo, hi) && i < |s| && !(lo <= i < hi)
    ensures t[i] == s[i]
  {
    if i < lo {
      assert s[i] == s[..lo][i] && t[i] == t[..lo][i];
    } else {
      assert s[i] == s[hi..][i - hi] && t[i] == t[hi..][i - hi];
    }
  }

  function Count<T>(s: seq<T>, P: T -> bool): (n: nat)
    ensures n <= |s|
  {
    if s == [] then 0 else (if P(s[0]) then 1 else 0) + Count(s[1..], P)
  }

  lemma {:induction false} CountConcat<T>(s: seq<T>, t: seq<T>, P: T -> bool)
    ensures Count(s + t, P) == Count(s, P) + Count(t, P)
  {
    if s == [] {
      assert s + t == t;
    } else {
      CountConcat(s[1..], t, P);
      assert (s + t)[1..] == s[1..] + t;
    }
  }

  lemma MultisetWithout<T>(t: seq<T>, k: nat)
    requires k < |t|
    ensures multiset(t[..k] + t[k + 1..]) == multiset(t) - multiset{t[k]}
  {
    assert t == t[..k] + [t[k]] + t[k + 1..];
  }

  lemma CountFront<T>(x: T, s: seq<T>, P: T -> bool)
    ensures Count([x] + s, P) == (if P(x) then 1 else 0) + Count(s, P)
  {
    assert ([x] + s)[1..] == s;
  }

  lemma TakenApart<T>(t: seq<T>, k: nat)
    requires k < |t|
    ensures t == t[..k] + ([t[k]] + t[k + 1..])
  {}

  lemma CountWithout<T>(t: seq<T>, k: nat, P: T -> bool)
    requires k < |t|
    ensures Count(t, P) == (if P(t[k]) then 1 else 0) + Count(t[..k] + t[k + 1..], P)
  {
    hide Count;
    var front, back := t[..k], t[k + 1..];
    TakenApart(t, k);
    CountConcat(front, back, P);
    CountConcat(front, [t[k]] + back, P);
    CountFront(t[k], back, P);
  }

  lemma WithoutBoth<T>(s: seq<T>, t: seq<T>, k: nat)
    requires multiset(s) == multiset(t) && s != [] && k < |t| && t[k] == s[0]
    ensures multiset(s[1..]) == multiset(t[..k] + t[k + 1..])
  {
    MultisetWithout(s, 0);
    MultisetWithout(t, k);
    assert s[..0] + s[1..] == s[1..];
  }

  lemma {:induction false} CountMultiset<T>(s: seq<T>, t: seq<T>, P: T -> bool)
    requires multiset(s) == multiset(t)
    ensures Count(s, P) == Count(t, P)
  {
    if s == [] {
      assert |multiset(t)| == 0;
    } else {
      assert s[0] in multiset(t);
      var k :| 0 <= k < |t| && t[k] == s[0];
      CountWithout(t, k, P);
      WithoutBoth(s, t, k);
      CountMultiset(s[1..], t[..k] + t[k + 1..], P);
    }
  }

  lemma {:induction false} CountAll<T>(s: seq<T>, P: T -> bool)
    ensures (forall i :: 0 <= i < |s| ==> P(s[i])) ==> Count(s, P) == |s|
    ensures (forall i :: 0 <= i < |s| ==> !P(s[i])) ==> Count(s, P) == 0
  {
    if s != [] {
      CountAll(s[1..], P);
    }
  }
}
