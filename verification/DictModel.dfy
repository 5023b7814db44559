/**
 The incrementally rehashed hash table of dict.c as values: two tables of chained buckets, a cursor,
 and what each operation makes of them. A chain lists its entries from the head; an entry keeps its
 address for as long as it lives, and addresses are not reused.
 */
module DictModel {
  import opened Wrappers

  const INITIAL_SIZE: nat := 4
  const FORCE_RESIZE_RATIO: nat := 5

  datatype Entry<K, V> = Entry(addr: nat, key: K, val: V)

  type Chain<K, V> = seq<Entry<K, V>>

  /** A table has no buckets at all as long as none have been allocated. */
  datatype Table<K, V> = Table(buckets: seq<Chain<K, V>>, used: int)

  /** `rehashidx` is -1 when no rehash is in progress; `nextAddr` is the next address. */
  datatype Dict<K, V> = Dict(ht0: Table<K, V>, ht1: Table<K, V>, rehashidx: int, iterators: nat, nextAddr: nat) {
    predicate Rehashing() { rehashidx != -1 }
  }

  function NoTable<K, V>(): Table<K, V> { Table([], 0) }

  function Allocated<K, V>(size: nat): Table<K, V> { Table(seq(size, _ => []), 0) }

  function Init<K, V>(): Dict<K, V> { Dict(NoTable(), NoTable(), -1, 0, 0) }

  /** The bucket of a key: for the power-of-two sizes of tables, masking is the remainder. */
  function Slot<K>(h: K -> nat, k: K, size: nat): (r: nat)
    requires size > 0
    ensures r < size
  {
    h(k) % size
  }

  // Chains ---------------------------------------------------------------------------------------

  function FindIn<K(==), V>(c: Chain<K, V>, k: K): Option<Entry<K, V>> {
    if c == [] then None else if c[0].key == k then Some(c[0]) else FindIn(c[1..], k)
  }

  function RemoveFrom<K(==), V>(c: Chain<K, V>, k: K): (r: Chain<K, V>)
    ensures |r| == if FindIn(c, k).Some? then |c| - 1 else |c|
  {
    if c == [] then [] else if c[0].key == k then c[1..] else [c[0]] + RemoveFrom(c[1..], k)
  }

  function StoreIn<K(==), V>(c: Chain<K, V>, k: K, v: V): (r: Chain<K, V>)
    ensures |r| == |c|
  {
    if c == [] then []
    else if c[0].key == k then [c[0].(val := v)] + c[1..]
    else [c[0]] + StoreIn(c[1..], k, v)
  }

  // Tables ---------------------------------------------------------------------------------------

  function Sum<K, V>(b: seq<Chain<K, V>>): nat {
    if b == [] then 0 else |b[0]| + Sum(b[1..])
  }

  function Push<K, V>(h: K -> nat, t: Table<K, V>, e: Entry<K, V>): (r: Table<K, V>)
    requires t.buckets != []
    ensures |r.buckets| == |t.buckets|
  {
    var i := Slot(h, e.key, |t.buckets|);
    Table(t.buckets[i := [e] + t.buckets[i]], t.used + 1)
  }

  function PushAll<K, V>(h: K -> nat, t: Table<K, V>, c: Chain<K, V>): (r: Table<K, V>)
    requires t.buckets != []
    ensures |r.buckets| == |t.buckets|
    decreases |c|
  {
    if c == [] then t else PushAll(h, Push(h, t, c[0]), c[1..])
  }

  function TableFind<K(==), V>(h: K -> nat, t: Table<K, V>, k: K): Option<Entry<K, V>> {
    if t.buckets == [] then None else FindIn(t.buckets[Slot(h, k, |t.buckets|)], k)
  }

  // Rehashing ------------------------------------------------------------------------------------

  function FirstNonEmpty<K, V>(b: seq<Chain<K, V>>, from: nat): (i: nat)
    requires from <= |b|
    ensures from <= i <= |b| && (i < |b| ==> b[i] != []) && forall j :: from <= j < i ==> b[j] == []
    decreases |b| - from
  {
    if from == |b| || b[from] != [] then from else FirstNonEmpty(b, from + 1)
  }

  /** A rehash is in progress, and its cursor finds another bucket as long as any entry is left. */
  predicate CanStep<K, V>(d: Dict<K, V>) {
    && 0 <= d.rehashidx <= |d.ht0.buckets| && d.ht1.buckets != []
    && (d.ht0.used != 0 ==> FirstNonEmpty(d.ht0.buckets, d.rehashidx) < |d.ht0.buckets|)
  }

  /** One step of dictRehash: the old table is dropped when it is empty, and otherwise its next
      non-empty bucket moves to the new table. */
  function RehashStep<K, V>(h: K -> nat, d: Dict<K, V>): Dict<K, V>
    requires CanStep(d)
  {
    if d.ht0.used == 0 then d.(ht0 := d.ht1, ht1 := NoTable(), rehashidx := -1)
    else
      var i := FirstNonEmpty(d.ht0.buckets, d.rehashidx);
      var c := d.ht0.buckets[i];
      d.(ht0 := Table(d.ht0.buckets[i := []], d.ht0.used - |c|), ht1 := PushAll(h, d.ht1, c),
         rehashidx := i + 1)
  }

  // Well-formed tables ---------------------------------------------------------------------------

  ghost predicate Unique<K, V>(c: Chain<K, V>) {
    forall i, j :: 0 <= i < j < |c| ==> c[i].key != c[j].key
  }

  /** Every entry is in the bucket of its key, no key occurs twice, and the count is exact. */
  ghost predicate TableOk<K, V>(h: K -> nat, t: Table<K, V>) {
    && (forall b :: 0 <= b < |t.buckets| ==> Unique(t.buckets[b]))
    && (forall b, e :: 0 <= b < |t.buckets| && e in t.buckets[b] ==> Slot(h, e.key, |t.buckets|) == b)
    && t.used == Sum(t.buckets)
  }

  lemma {:induction false} FindInFinds<K, V>(c: Chain<K, V>, k: K)
    ensures FindIn(c, k).Some? ==> FindIn(c, k).value in c && FindIn(c, k).value.key == k
    ensures FindIn(c, k).None? ==> forall e :: e in c ==> e.key != k
    decreases |c|
  {
    if c != [] && c[0].key != k {
      FindInFinds(c[1..], k);
      forall e | FindIn(c, k).None? && e in c ensures e.key != k {
        assert e == c[0] || e in c[1..];
      }
    }
  }

  lemma {:induction false} UniqueFinds<K, V>(c: Chain<K, V>, e: Entry<K, V>)
    requires Unique(c) && e in c
    ensures FindIn(c, e.key) == Some(e)
    decreases |c|
  {
    if c[0] != e {
      assert e in c[1..];
      var i :| 0 < i < |c| && c[i] == e;
      assert c[0].key != c[i].key;
      UniqueFinds(c[1..], e);
    }
  }

  lemma {:induction false} SumUpdate<K, V>(b: seq<Chain<K, V>>, i: nat, c: Chain<K, V>)
    requires i < |b|
    ensures Sum(b[i := c]) == Sum(b) - |b[i]| + |c|
    decreases |b|
  {
    if i == 0 {
      assert b[0 := c][1..] == b[1..];
    } else {
      assert b[i := c][1..] == b[1..][i - 1 := c];
      SumUpdate(b[1..], i - 1, c);
    }
  }

  lemma {:induction false} SumAllocated<K, V>(b: seq<Chain<K, V>>)
    requires forall i :: 0 <= i < |b| ==> b[i] == []
    ensures Sum(b) == 0
    decreases |b|
  {
    if b != [] {
      SumAllocated(b[1..]);
    }
  }

  lemma {:induction false} SumBucket<K, V>(b: seq<Chain<K, V>>, i: nat)
    requires i < |b|
    ensures Sum(b) >= |b[i]|
    decreases |b|
  {
    if i > 0 {
      SumBucket(b[1..], i - 1);
    }
  }

  /** A bucket replaced by a chain of its own keys: what the table finds, elsewhere and there. */
  lemma ReplaceBucket<K(!new), V>(h: K -> nat, t: Table<K, V>, i: nat, c: Chain<K, V>)
    requires TableOk(h, t) && i < |t.buckets| && Unique(c)
    requires forall e :: e in c ==> Slot(h, e.key, |t.buckets|) == i
    ensures var t' := Table(t.buckets[i := c], t.used - |t.buckets[i]| + |c|);
            && TableOk(h, t')
            && forall k :: TableFind(h, t', k) ==
                 if Slot(h, k, |t.buckets|) == i then FindIn(c, k) else TableFind(h, t, k)
  {
    SumUpdate(t.buckets, i, c);
  }

  lemma TableHolds<K, V>(h: K -> nat, t: Table<K, V>, b: nat, e: Entry<K, V>)
    requires TableOk(h, t) && b < |t.buckets| && e in t.buckets[b]
    ensures TableFind(h, t, e.key) == Some(e)
  {
    UniqueFinds(t.buckets[b], e);
  }

  lemma PushOk<K(!new), V>(h: K -> nat, t: Table<K, V>, e: Entry<K, V>)
    requires TableOk(h, t) && t.buckets != [] && TableFind(h, t, e.key).None?
    ensures TableOk(h, Push(h, t, e))
    ensures forall k :: TableFind(h, Push(h, t, e), k) == if k == e.key then Some(e) else TableFind(h, t, k)
  {
    var i := Slot(h, e.key, |t.buckets|);
    var c := t.buckets[i];
    FindInFinds(c, e.key);
    assert Unique([e] + c) by {
      assert forall j :: 0 <= j < |c| ==> c[j] in c;
    }
    assert ([e] + c)[1..] == c;
    ReplaceBucket(h, t, i, [e] + c);
  }

  lemma PushUsed<K, V>(h: K -> nat, t: Table<K, V>, e: Entry<K, V>)
    requires t.buckets != []
    ensures Push(h, t, e).used == t.used + 1 && Push(h, t, e).buckets != []
  {}

  lemma {:induction false} PushAllOk<K(!new), V>(h: K -> nat, t: Table<K, V>, c: Chain<K, V>)
    requires TableOk(h, t) && t.buckets != [] && Unique(c)
    requires forall e :: e in c ==> TableFind(h, t, e.key).None?
    ensures TableOk(h, PushAll(h, t, c)) && PushAll(h, t, c).used == t.used + |c|
    ensures forall k :: TableFind(h, PushAll(h, t, c), k) ==
              if FindIn(c, k).Some? then FindIn(c, k) else TableFind(h, t, k)
    decreases |c|
  {
    hide TableOk, TableFind, Push;
    if c != [] {
      var t1 := Push(h, t, c[0]);
      PushUsed(h, t, c[0]);
      PushOk(h, t, c[0]);
      FindInFinds(c[1..], c[0].key);
      PushAllOk(h, t1, c[1..]);
    }
  }

  // Well-formed dictionaries ---------------------------------------------------------------------

  function DictFind<K(==), V>(h: K -> nat, d: Dict<K, V>, k: K): Option<Entry<K, V>> {
    var f := TableFind(h, d.ht0, k);
    if f.Some? then f else TableFind(h, d.ht1, k)
  }

  function Size<K, V>(d: Dict<K, V>): int { d.ht0.used + d.ht1.used }

  /** The tables and the cursor: there is a second table exactly while a rehash is in progress, and
      the buckets below the cursor have been emptied. */
  ghost predicate Shaped<K, V>(h: K -> nat, d: Dict<K, V>) {
    && TableOk(h, d.ht0) && TableOk(h, d.ht1)
    && (d.rehashidx == -1 ==> d.ht1 == NoTable())
    && (d.rehashidx != -1 ==>
          0 <= d.rehashidx <= |d.ht0.buckets| && d.ht0.buckets != [] && d.ht1.buckets != []
          && forall b :: 0 <= b < d.rehashidx ==> d.ht0.buckets[b] == [])
  }

  /** No key is in both tables. */
  ghost predicate Disjoint<K(!new), V>(h: K -> nat, d: Dict<K, V>) {
    forall k :: TableFind(h, d.ht0, k).None? || TableFind(h, d.ht1, k).None?
  }

  /** Different keys have entries at different addresses, all of them below the next one. */
  ghost predicate Addressed<K(!new), V>(h: K -> nat, d: Dict<K, V>) {
    && (forall k :: DictFind(h, d, k).Some? ==> DictFind(h, d, k).value.addr < d.nextAddr)
    && (forall k, k' :: DictFind(h, d, k).Some? && DictFind(h, d, k').Some? && k != k' ==>
          DictFind(h, d, k).value.addr != DictFind(h, d, k').value.addr)
  }

  ghost predicate Valid<K(!new), V>(h: K -> nat, d: Dict<K, V>) {
    Shaped(h, d) && Disjoint(h, d) && Addressed(h, d)
  }

  lemma NoTableFinds<K(!new), V>(h: K -> nat)
    ensures forall k :: TableFind(h, NoTable<K, V>(), k) == None
  {}

  /** An operation that finds the same keys at the same addresses keeps the addresses in order. */
  lemma AddressedKept<K(!new), V>(h: K -> nat, d: Dict<K, V>, d': Dict<K, V>)
    requires Addressed(h, d) && d'.nextAddr >= d.nextAddr
    requires forall k :: DictFind(h, d', k).Some? ==>
               DictFind(h, d, k).Some? && DictFind(h, d', k).value.addr == DictFind(h, d, k).value.addr
    ensures Addressed(h, d')
  {}

  /** The next bucket to move exists as long as the old table is not empty, so that the scan for it
      never runs off the table. */
  lemma ScanStops<K(!new), V>(h: K -> nat, d: Dict<K, V>)
    requires Valid(h, d) && d.Rehashing()
    ensures CanStep(d)
  {
    if FirstNonEmpty(d.ht0.buckets, d.rehashidx) == |d.ht0.buckets| {
      SumAllocated(d.ht0.buckets);
    }
  }

  lemma EmptyFinds<K(!new), V>(h: K -> nat, t: Table<K, V>)
    requires TableOk(h, t) && t.used == 0
    ensures forall k :: TableFind(h, t, k) == None
  {
    forall k ensures TableFind(h, t, k) == None {
      if t.buckets != [] {
        SumBucket(t.buckets, Slot(h, k, |t.buckets|));
      }
    }
  }

  /** A rehash step changes where entries are, and nothing else. */
  lemma StepFinds<K(!new), V>(h: K -> nat, d: Dict<K, V>)
    requires Valid(h, d) && d.Rehashing()
    ensures CanStep(d)
    ensures var r := RehashStep(h, d);
            && TableOk(h, r.ht0) && TableOk(h, r.ht1) && Size(r) == Size(d)
            && (forall k :: DictFind(h, r, k) == DictFind(h, d, k))
            && (forall k :: TableFind(h, r.ht0, k).None? || TableFind(h, r.ht1, k).None?)
  {
    ScanStops(h, d);
    if d.ht0.used == 0 {
      EmptyFinds(h, d.ht0);
      assert Sum<K, V>([]) == 0;
    } else {
      var i := FirstNonEmpty(d.ht0.buckets, d.rehashidx);
      var c := d.ht0.buckets[i];
      ReplaceBucket(h, d.ht0, i, []);
      forall e | e in c ensures TableFind(h, d.ht1, e.key).None? {
        TableHolds(h, d.ht0, i, e);
      }
      PushAllOk(h, d.ht1, c);
      forall k
        ensures FindIn(c, k).Some? ==> Slot(h, k, |d.ht0.buckets|) == i && TableFind(h, d.ht0, k) == FindIn(c, k)
      {
        FindInFinds(c, k);
        if FindIn(c, k).Some? {
          TableHolds(h, d.ht0, i, FindIn(c, k).value);
        }
      }
    }
  }

  lemma StepValid<K(!new), V>(h: K -> nat, d: Dict<K, V>)
    requires Valid(h, d) && d.Rehashing()
    ensures CanStep(d) && Valid(h, RehashStep(h, d)) && Size(RehashStep(h, d)) == Size(d)
    ensures forall k :: DictFind(h, RehashStep(h, d), k) == DictFind(h, d, k)
  {
    hide TableOk, TableFind, PushAll, DictFind, Addressed;
    StepFinds(h, d);
    AddressedKept(h, d, RehashStep(h, d));
  }
}
