/**
 Safe iterators of dict.c: dictNext follows saved pointers into the chains while the dictionary is
 being changed, even when a change starts a rehash.
 */
module DictIter {
  import opened Wrappers
  import opened DictModel
  import opened DictOps

  /** The fields of a safe iterator; entry and next are the addresses of entries. */
  datatype Iter = Iter(table: nat, index: int, entry: Option<nat>, next: Option<nat>)

  const NEW_ITER := Iter(0, -1, None, None)

  function TableOf<K, V>(d: Dict<K, V>, table: nat): Table<K, V> {
    if table == 0 then d.ht0 else d.ht1
  }

  /** The chain from the entry at address `a` on. */
  function Suffix<K, V>(c: Chain<K, V>, a: nat): Chain<K, V> {
    if c == [] then [] else if c[0].addr == a then c else Suffix(c[1..], a)
  }

  function Head<K, V>(c: Chain<K, V>): Option<nat> {
    if c == [] then None else Some(c[0].addr)
  }

  function ChainAt<K, V>(d: Dict<K, V>, it: Iter): Chain<K, V> {
    var b := TableOf(d, it.table).buckets;
    if 0 <= it.index < |b| then b[it.index] else []
  }

  // dictNext -------------------------------------------------------------------------------------

  function Left<K, V>(d: Dict<K, V>, it: Iter): nat {
    var n := |TableOf(d, it.table).buckets|;
    (if it.index >= n then 0 else n - it.index) + (if it.table == 0 then |d.ht1.buckets| + 1 else 0)
  }

  /** The loop of dictNext. */
  function Next<K, V>(d: Dict<K, V>, it: Iter): (Iter, Option<Entry<K, V>>)
    decreases Left(d, it), if it.entry.Some? then 1 else 0
  {
    if it.entry.None? then
      var i := it.index + 1;
      if i >= |TableOf(d, it.table).buckets| then
        if d.Rehashing() && it.table == 0 then
          Visit(d, Iter(1, 0, None, None))
        else (it.(index := i), None)
      else Visit(d, it.(index := i))
    else if it.next.Some? && Suffix(ChainAt(d, it), it.next.value) != [] then
      var c := Suffix(ChainAt(d, it), it.next.value);
      (it.(entry := it.next, next := Head(c[1..])), Some(c[0]))
    else Next(d, it.(entry := None, next := None))
  }

  /** The head of the bucket that the iterator has come to, or the next bucket. */
  function Visit<K, V>(d: Dict<K, V>, it: Iter): (Iter, Option<Entry<K, V>>)
    decreases Left(d, it), 1
  {
    var c := ChainAt(d, it);
    if c != [] then (it.(entry := Some(c[0].addr), next := Head(c[1..])), Some(c[0]))
    else Next(d, it.(entry := None, next := None))
  }

  // What is still ahead --------------------------------------------------------------------------

  /** The saved pointer leads into the chain of the current bucket; the second table is only visited
      during a rehash. */
  ghost predicate IterOk<K, V>(d: Dict<K, V>, it: Iter) {
    && it.table <= 1 && it.index >= -1 && (it.table == 1 ==> d.Rehashing() && it.index >= 0)
    && (it.entry.Some? && it.next.Some? ==> Suffix(ChainAt(d, it), it.next.value) != [])
  }

  /** The table that holds a present key. */
  ghost function Home<K(!new), V>(h: K -> nat, d: Dict<K, V>, k: K): nat {
    if TableFind(h, d.ht0, k).Some? then 0 else 1
  }

  ghost predicate Present<K(!new), V>(h: K -> nat, d: Dict<K, V>, k: K) {
    DictFind(h, d, k).Some?
  }

  ghost function AddrOf<K(!new), V>(h: K -> nat, d: Dict<K, V>, k: K): nat
    requires Present(h, d, k)
  {
    DictFind(h, d, k).value.addr
  }

  /** Whether the iterator has still to come to a present key: it is in a later table or bucket, or in
      the rest of the current chain. */
  ghost predicate Ahead<K(!new), V>(h: K -> nat, d: Dict<K, V>, it: Iter, k: K)
    requires Present(h, d, k)
  {
    var t := Home(h, d, k);
    t > it.table ||
    (t == it.table && TableOf(d, t).buckets != [] &&
     (var b := Slot(h, k, |TableOf(d, t).buckets|);
      b > it.index ||
      (b == it.index && it.entry.Some? && it.next.Some? &&
       FindIn(Suffix(ChainAt(d, it), it.next.value), k).Some?)))
  }

  /** No key at all is ahead in the bucket of `k`'s home: unfolding of the definition for one key. */
  lemma HomeBucket<K(!new), V>(h: K -> nat, d: Dict<K, V>, k: K)
    requires Valid(h, d) && Present(h, d, k)
    ensures var t := TableOf(d, Home(h, d, k));
            t.buckets != [] && FindIn(t.buckets[Slot(h, k, |t.buckets|)], k) == DictFind(h, d, k)
            && (Home(h, d, k) == 1 ==> d.Rehashing())
  {}

  lemma {:induction false} SuffixMember<K, V>(c: Chain<K, V>, a: nat, e: Entry<K, V>)
    requires e in Suffix(c, a)
    ensures e in c
    decreases |c|
  {
    if c != [] && c[0].addr != a {
      SuffixMember(c[1..], a, e);
    }
  }

  lemma {:induction false} SuffixParts<K, V>(c: Chain<K, V>, a: nat, k: K)
    requires Unique(c) && forall i, j :: 0 <= i < j < |c| ==> c[i].addr != c[j].addr
    ensures var s := Suffix(c, a);
            && (s != [] ==> s[0].addr == a && s[0] in c)
            && (FindIn(s, k).Some? ==> FindIn(c, k) == FindIn(s, k))
            && (|s| > 1 ==> Suffix(c, s[1].addr) == s[1..])
            && (|s| > 1 ==> s[1].addr != a)
            && Unique(s)
    decreases |c|
  {
    if c != [] {
      if c[0].addr == a {
        if |c| > 1 {
          assert c[0].addr != c[1].addr;
          assert Suffix(c[1..], c[1].addr) == c[1..];
        }
      } else {
        SuffixParts(c[1..], a, k);
        var s := Suffix(c, a);
        if FindIn(s, k).Some? {
          FindInFinds(s, k);
          FindInFinds(c[1..], k);
          assert FindIn(c[1..], k).value in c[1..];
        }
        if |s| > 1 {
          SuffixMember(c[1..], a, s[1]);
          assert s[1] in c[1..];
        }
      }
    }
  }

  lemma {:induction false} SuffixHead<K, V>(c: Chain<K, V>, a: nat)
    ensures Suffix(c, a) != [] ==> Suffix(c, a)[0].addr == a
    decreases |c|
  {
    if c != [] && c[0].addr != a {
      SuffixHead(c[1..], a);
    }
  }

  /** In a valid dictionary the addresses of a chain are all different. */
  lemma ChainAddresses<K(!new), V>(h: K -> nat, d: Dict<K, V>, it: Iter)
    requires Valid(h, d) && it.table <= 1
    ensures var c := ChainAt(d, it); Unique(c) && forall i, j :: 0 <= i < j < |c| ==> c[i].addr != c[j].addr
    ensures forall e :: e in ChainAt(d, it) ==>
              DictFind(h, d, e.key) == Some(e) && Home(h, d, e.key) == it.table
              && Slot(h, e.key, |TableOf(d, it.table).buckets|) == it.index
  {
    var c, t := ChainAt(d, it), TableOf(d, it.table);
    forall e | e in c
      ensures DictFind(h, d, e.key) == Some(e) && Home(h, d, e.key) == it.table
              && Slot(h, e.key, |t.buckets|) == it.index
    {
      TableHolds(h, t, it.index, e);
    }
    forall i, j | 0 <= i < j < |c| ensures c[i].addr != c[j].addr {
      assert c[i] in c && c[j] in c && c[i].key != c[j].key;
    }
  }

  // dictNext returns what is ahead, one entry at a time ------------------------------------------

  /** The relation between a call of dictNext and what is ahead before and after it, for one key. */
  ghost predicate Pops<K(!new), V>(h: K -> nat, d: Dict<K, V>, it: Iter, it': Iter, r: Option<Entry<K, V>>, k: K) {
    && IterOk(d, it')
    && (r.Some? ==>
          && DictFind(h, d, r.value.key) == Some(r.value) && Ahead(h, d, it, r.value.key)
          && it'.next != Some(r.value.addr))
    && (Present(h, d, k) ==>
          (Ahead(h, d, it', k) <==> Ahead(h, d, it, k) && r.Some? && k != r.value.key))
    && (r.None? && Present(h, d, k) ==> !Ahead(h, d, it, k))
  }

  /** The part of a chain from its second entry on. */
  lemma SecondSuffix<K, V>(c: Chain<K, V>, k: K)
    requires c != [] && forall i, j :: 0 <= i < j < |c| ==> c[i].addr != c[j].addr
    ensures |c| > 1 ==> Suffix(c, c[1].addr) == c[1..]
    ensures FindIn(c, k) == if c[0].key == k then Some(c[0]) else FindIn(c[1..], k)
    ensures var e := FindIn(c[1..], k);
            e.Some? ==> e.value in c && e.value.key == k && e.value.addr != c[0].addr
  {
    if |c| > 1 {
      assert c[0].addr != c[1].addr;
    }
    FindInFinds(c[1..], k);
  }

  lemma HeadAhead<K(!new), V>(h: K -> nat, d: Dict<K, V>, it: Iter, k: K)
    requires Valid(h, d) && IterOk(d, it) && ChainAt(d, it) != [] && Present(h, d, k)
    ensures var c := ChainAt(d, it);
            Ahead(h, d, it.(entry := Some(c[0].addr), next := Head(c[1..])), k) <==>
            Ahead(h, d, it.(index := it.index - 1, entry := None), k) && k != c[0].key
  {
    hide TableOk, Addressed, Suffix, FindIn;
    var c := ChainAt(d, it);
    ChainAddresses(h, d, it);
    assert c[0] in c;
    SecondSuffix(c, k);
    HomeBucket(h, d, k);
  }

  /** At the head of a bucket: `from` is the iterator that has finished the bucket before. */
  lemma HeadPops<K(!new), V>(h: K -> nat, d: Dict<K, V>, it: Iter, from: Iter, k: K)
    requires Valid(h, d) && IterOk(d, it) && IterOk(d, from) && ChainAt(d, it) != []
    requires forall k :: Present(h, d, k) ==>
               (Ahead(h, d, from, k) <==> Ahead(h, d, it.(index := it.index - 1, entry := None), k))
    ensures var c := ChainAt(d, it);
            Pops(h, d, from, it.(entry := Some(c[0].addr), next := Head(c[1..])), Some(c[0]), k)
  {
    hide Valid, Suffix, FindIn;
    var c := ChainAt(d, it);
    ChainAddresses(h, d, it);
    assert c[0] in c;
    SecondSuffix(c, k);
    if Present(h, d, k) {
      HeadAhead(h, d, it, k);
    }
    HeadAhead(h, d, it, c[0].key);
  }

  /** An empty bucket, and the end of a chain, hold nothing that is ahead. */
  lemma NothingHere<K(!new), V>(h: K -> nat, d: Dict<K, V>, it: Iter, k: K)
    requires Valid(h, d) && it.table <= 1 && Present(h, d, k)
    ensures ChainAt(d, it) == [] && it.index >= 0 ==>
              (Ahead(h, d, it.(index := it.index - 1, entry := None), k) <==>
               Ahead(h, d, it.(entry := None, next := None), k))
    ensures it.next.None? ==> (Ahead(h, d, it, k) <==> Ahead(h, d, it.(entry := None, next := None), k))
  {
    HomeBucket(h, d, k);
  }

  /** After the last bucket of a table, only the other table can be ahead. */
  lemma TableDone<K(!new), V>(h: K -> nat, d: Dict<K, V>, it: Iter, k: K)
    requires Valid(h, d) && IterOk(d, it) && it.entry.None? && Present(h, d, k)
    requires it.index + 1 >= |TableOf(d, it.table).buckets|
    ensures Ahead(h, d, it, k) <==> it.table == 0 && d.Rehashing() && Ahead(h, d, Iter(1, -1, None, None), k)
    ensures !(d.Rehashing() && it.table == 0) ==> !Ahead(h, d, it, k) && !Ahead(h, d, it.(index := it.index + 1), k)
  {
    HomeBucket(h, d, k);
  }

  lemma FollowPops<K(!new), V>(h: K -> nat, d: Dict<K, V>, it: Iter, k: K)
    requires Valid(h, d) && IterOk(d, it) && it.entry.Some? && it.next.Some?
    ensures var c := Suffix(ChainAt(d, it), it.next.value);
            c != [] && Pops(h, d, it, it.(entry := it.next, next := Head(c[1..])), Some(c[0]), k)
  {
    var chain := ChainAt(d, it);
    var c := Suffix(chain, it.next.value);
    ChainAddresses(h, d, it);
    SuffixParts(chain, it.next.value, k);
    SuffixParts(chain, it.next.value, c[0].key);
    assert FindIn(c, c[0].key) == Some(c[0]);
    if Present(h, d, k) {
      HomeBucket(h, d, k);
      FindInFinds(c[1..], k);
      if FindIn(c, k).Some? {
        assert FindIn(chain, k) == FindIn(c, k);
        FindInFinds(chain, k);
      }
    }
  }

  lemma NoNext<K(!new), V>(h: K -> nat, d: Dict<K, V>, it: Iter)
    requires Valid(h, d) && IterOk(d, it)
    ensures it.next.None? || it.entry.None? ==> forall k :: Present(h, d, k) ==>
              (Ahead(h, d, it, k) <==> Ahead(h, d, it.(entry := None, next := None), k))
    ensures it.entry.None? ==> forall k :: Present(h, d, k) ==>
              (Ahead(h, d, it, k) <==> Ahead(h, d, it.(index := it.index + 1).(index := it.index, entry := None), k))
  {}

  /** Two iterators with the same things ahead of them. */
  lemma NextPopsFrom<K(!new), V>(h: K -> nat, d: Dict<K, V>, it: Iter, from: Iter, it': Iter,
                                 r: Option<Entry<K, V>>, k: K)
    requires Pops(h, d, it, it', r, k)
    requires forall k :: Present(h, d, k) ==> (Ahead(h, d, from, k) <==> Ahead(h, d, it, k))
    ensures Pops(h, d, from, it', r, k)
  {}

  lemma {:induction false} NextPops<K(!new), V>(h: K -> nat, d: Dict<K, V>, it: Iter, k: K)
    requires Valid(h, d) && IterOk(d, it)
    ensures Pops(h, d, it, Next(d, it).0, Next(d, it).1, k)
    decreases Left(d, it), if it.entry.Some? then 1 else 0
  {
    hide Valid, Ahead, Present, DictFind;
    if it.entry.None? {
      var i := it.index + 1;
      if i >= |TableOf(d, it.table).buckets| {
        forall k | Present(h, d, k)
          ensures Ahead(h, d, it, k) <==> it.table == 0 && d.Rehashing() && Ahead(h, d, Iter(1, -1, None, None), k)
          ensures !(d.Rehashing() && it.table == 0) ==> !Ahead(h, d, it, k) && !Ahead(h, d, it.(index := i), k)
        {
          TableDone(h, d, it, k);
        }
        if d.Rehashing() && it.table == 0 {
          VisitPops(h, d, Iter(1, 0, None, None), it, k);
        }
      } else {
        NoNext(h, d, it);
        VisitPops(h, d, it.(index := i), it, k);
      }
    } else if it.next.Some? {
      FollowPops(h, d, it, k);
    } else {
      NoNext(h, d, it);
      NextPops(h, d, it.(entry := None, next := None), k);
      NextPopsFrom(h, d, it.(entry := None, next := None), it, Next(d, it).0, Next(d, it).1, k);
    }
  }

  lemma {:induction false} VisitPops<K(!new), V>(h: K -> nat, d: Dict<K, V>, it: Iter, from: Iter, k: K)
    requires Valid(h, d) && IterOk(d, it) && IterOk(d, from) && it.index >= 0 && it.entry.None?
    requires forall k :: Present(h, d, k) ==>
               (Ahead(h, d, from, k) <==> Ahead(h, d, it.(index := it.index - 1, entry := None), k))
    ensures Pops(h, d, from, Visit(d, it).0, Visit(d, it).1, k)
    decreases Left(d, it), 1
  {
    hide Valid, Ahead, Present, DictFind;
    if ChainAt(d, it) != [] {
      HeadPops(h, d, it, from, k);
    } else {
      var next := it.(entry := None, next := None);
      forall k | Present(h, d, k)
        ensures Ahead(h, d, from, k) <==> Ahead(h, d, next, k)
      {
        NothingHere(h, d, it, k);
      }
      NextPops(h, d, next, k);
      NextPopsFrom(h, d, next, from, Next(d, next).0, Next(d, next).1, k);
    }
  }
}
