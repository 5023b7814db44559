/**
 Whole iterations of a dictionary that is being changed meanwhile: what is still ahead of a safe
 iterator survives every operation, so that nothing is missed and nothing is returned twice.
 */
module DictIterRuns {
  import opened Wrappers
  import opened DictModel
  import opened DictOps
  import opened DictIter

  /** What an operation between two calls of dictNext may do to an entry that it does not delete: it
      stays at its address, and is ahead of the iterator if and only if it was. */
  ghost predicate Keeps<K(!new), V>(h: K -> nat, d: Dict<K, V>, d': Dict<K, V>, it: Iter, k: K) {
    Present(h, d, k) ==>
      Present(h, d', k) && AddrOf(h, d', k) == AddrOf(h, d, k) && (Ahead(h, d', it, k) <==> Ahead(h, d, it, k))
  }

  /** A key that stays in its bucket, in a chain whose saved rest finds what it found. */
  lemma SameAhead<K(!new), V>(h: K -> nat, d: Dict<K, V>, d': Dict<K, V>, it: Iter, k: K)
    requires Present(h, d, k) && Present(h, d', k) && Home(h, d', k) == Home(h, d, k)
    requires |d'.ht0.buckets| == |d.ht0.buckets| && |d'.ht1.buckets| == |d.ht1.buckets|
    requires it.next.Some? ==>
               FindIn(Suffix(ChainAt(d', it), it.next.value), k).Some?
                   == FindIn(Suffix(ChainAt(d, it), it.next.value), k).Some?
    ensures Ahead(h, d', it, k) <==> Ahead(h, d, it, k)
  {}

  lemma ExpandKeeps<K(!new), V>(h: K -> nat, d: Dict<K, V>, it: Iter, canResize: bool, k: K)
    requires Valid(h, d) && IterOk(d, it)
    ensures ExpandIfNeeded(d, canResize).Some?
    ensures var d' := ExpandIfNeeded(d, canResize).value;
            Valid(h, d') && IterOk(d', it) && d'.iterators == d.iterators && Keeps(h, d, d', it, k)
  {
    ExpandValid(h, d, canResize);
    if d.ht0.buckets == [] {
      NoBuckets(h, d.ht0);
      NoTableFinds<K, V>(h);
    } else if Present(h, d, k) {
      HomeBucket(h, d, k);
    }
  }

  /** A new head does not change the rest of a chain from an older entry on. */
  lemma PushedSuffix<K(!new), V>(h: K -> nat, d: Dict<K, V>, it: Iter, e: Entry<K, V>)
    requires Valid(h, d) && IterOk(d, it) && d.ht0.buckets != [] && it.next.Some? && e.addr == d.nextAddr
    requires it.table <= 1
    ensures Suffix(ChainAt(d, it), it.next.value) != [] ==> e.addr != it.next.value
    ensures e.addr != it.next.value ==>
              Suffix([e] + ChainAt(d, it), it.next.value) == Suffix(ChainAt(d, it), it.next.value)
  {
    var c := ChainAt(d, it);
    ChainAddresses(h, d, it);
    if Suffix(c, it.next.value) != [] {
      SuffixHead(c, it.next.value);
      var s := Suffix(c, it.next.value)[0];
      SuffixMember(c, it.next.value, s);
      assert DictFind(h, d, s.key) == Some(s);
    }
    assert ([e] + c)[1..] == c;
  }

  lemma InsertKeeps<K(!new), V>(h: K -> nat, d: Dict<K, V>, it: Iter, k: K, v: V, k': K)
    requires Valid(h, d) && IterOk(d, it) && d.ht0.buckets != [] && DictFind(h, d, k).None?
    ensures var d' := Insert(h, d, k, v);
            IterOk(d', it) && d'.iterators == d.iterators && Keeps(h, d, d', it, k')
  {
    hide TableOk, TableFind, Addressed, Disjoint, Slot, Suffix;
    var d' := Insert(h, d, k, v);
    InsertValid(h, d, k, v);
    var e := Entry(d.nextAddr, k, v);
    if it.next.Some? {
      PushedSuffix(h, d, it, e);
    }
    if Present(h, d, k') {
      HomeBucket(h, d, k');
      HomeBucket(h, d', k');
      PushOk(h, if d.Rehashing() then d.ht1 else d.ht0, e);
    }
  }

  lemma AddKeeps<K(!new), V>(h: K -> nat, d: Dict<K, V>, it: Iter, k: K, v: V, canResize: bool, k': K)
    requires Valid(h, d) && IterOk(d, it) && d.iterators > 0
    ensures var d' := Add(h, d, k, v, canResize).0;
            Valid(h, d') && IterOk(d', it) && d'.iterators == d.iterators && Keeps(h, d, d', it, k')
  {
    hide Valid, IterOk, Ahead, DictFind, AddrOf;
    ExpandKeeps(h, d, it, canResize, k');
    var d2 := ExpandIfNeeded(d, canResize).value;
    AddValid(h, d, k, v, canResize);
    ExpandValid(h, d, canResize);
    if DictFind(h, d2, k).None? {
      InsertKeeps(h, d2, it, k, v, k');
    }
  }

  lemma {:induction false} StoreSuffix<K, V>(c: Chain<K, V>, k: K, v: V, a: nat, k': K)
    ensures (Suffix(StoreIn(c, k, v), a) == []) == (Suffix(c, a) == [])
    ensures FindIn(Suffix(StoreIn(c, k, v), a), k').Some? == FindIn(Suffix(c, a), k').Some?
    decreases |c|
  {
    if c != [] {
      var r := StoreIn(c, k, v);
      StoreInFinds(c, k, v, k');
      assert r[1..] == if c[0].key == k then c[1..] else StoreIn(c[1..], k, v);
      StoreSuffix(c[1..], k, v, a, k');
    }
  }

  lemma StoreHome<K(!new), V>(h: K -> nat, d: Dict<K, V>, k: K, v: V, k': K)
    requires Valid(h, d) && DictFind(h, d, k).Some? && Present(h, d, k')
    ensures Home(h, Store(h, d, k, v), k') == Home(h, d, k')
  {
    hide TableOk, Addressed;
    StoreOk(h, if TableFind(h, d.ht0, k).Some? then d.ht0 else d.ht1, k, v);
  }

  lemma StoreKeeps<K(!new), V>(h: K -> nat, d: Dict<K, V>, it: Iter, k: K, v: V, k': K)
    requires Valid(h, d) && IterOk(d, it) && DictFind(h, d, k).Some?
    ensures var d' := Store(h, d, k, v);
            IterOk(d', it) && d'.iterators == d.iterators && Keeps(h, d, d', it, k')
  {
    hide Ahead, TableOk, Valid, Suffix, FindIn, StoreIn;
    var d' := Store(h, d, k, v);
    StoreValid(h, d, k, v);
    if it.next.Some? {
      StoreSuffix(ChainAt(d, it), k, v, it.next.value, k');
    }
    if Present(h, d, k') {
      StoreHome(h, d, k, v, k');
      SameAhead(h, d, d', it, k');
    }
  }

  lemma ReplaceKeeps<K(!new), V>(h: K -> nat, d: Dict<K, V>, it: Iter, k: K, v: V, canResize: bool, k': K)
    requires Valid(h, d) && IterOk(d, it) && d.iterators > 0
    ensures var d' := Replace(h, d, k, v, canResize).0;
            Valid(h, d') && IterOk(d', it) && d'.iterators == d.iterators && Keeps(h, d, d', it, k')
  {
    hide Valid, IterOk, Ahead, DictFind, AddrOf, Add;
    AddKeeps(h, d, it, k, v, canResize, k');
    AddValid(h, d, k, v, canResize);
    var added := Add(h, d, k, v, canResize);
    if !added.1 {
      var found := Find(h, added.0, k);
      if found.1.Some? {
        FoundHere(h, added.0, k);
        StoreKeeps(h, found.0, it, k, v, k');
        StoreValid(h, found.0, k, v);
      }
    }
  }

  lemma {:induction false} RemoveSuffix<K, V>(c: Chain<K, V>, k: K, a: nat, k': K)
    requires Unique(c) && k' != k
    requires FindIn(c, k).Some? ==> FindIn(c, k).value.addr != a
    ensures Suffix(c, a) != [] ==> Suffix(RemoveFrom(c, k), a) != []
    ensures FindIn(Suffix(RemoveFrom(c, k), a), k') == FindIn(Suffix(c, a), k')
    decreases |c|
  {
    if c != [] {
      var r := RemoveFrom(c, k);
      if c[0].key == k {
      } else if c[0].addr == a {
        RemoveFromFinds(c, k, k');
      } else {
        assert r[1..] == RemoveFrom(c[1..], k);
        RemoveSuffix(c[1..], k, a, k');
      }
    }
  }

  lemma DeleteChain<K(!new), V>(h: K -> nat, d: Dict<K, V>, it: Iter, k: K, k': K)
    requires Valid(h, d) && it.table <= 1 && d.iterators > 0 && k' != k
    ensures var d' := Delete(h, d, k).0;
            && (var c := ChainAt(d', it); c == ChainAt(d, it) || c == RemoveFrom(ChainAt(d, it), k))
            && |d'.ht0.buckets| == |d.ht0.buckets| && |d'.ht1.buckets| == |d.ht1.buckets|
            && d'.rehashidx == d.rehashidx && d'.iterators == d.iterators
            && Home(h, d', k') == Home(h, d, k')
  {
    hide TableOk, Addressed;
    if TableFind(h, d.ht0, k).Some? {
      RemoveOk(h, d.ht0, k);
    } else if TableFind(h, d.ht1, k).Some? {
      RemoveOk(h, d.ht1, k);
    }
  }

  lemma DeleteSuffix<K(!new), V>(h: K -> nat, d: Dict<K, V>, it: Iter, k: K, k': K)
    requires Valid(h, d) && it.table <= 1 && k' != k && it.next.Some?
    requires Present(h, d, k) ==> it.next.value != AddrOf(h, d, k)
    ensures var c, a := ChainAt(d, it), it.next.value;
            && (Suffix(c, a) != [] ==> Suffix(RemoveFrom(c, k), a) != [])
            && FindIn(Suffix(RemoveFrom(c, k), a), k') == FindIn(Suffix(c, a), k')
  {
    hide Valid, Suffix, RemoveFrom;
    var c := ChainAt(d, it);
    ChainAddresses(h, d, it);
    FindInFinds(c, k);
    RemoveSuffix(c, k, it.next.value, k');
  }

  /** Deleting an entry other than the one that the iterator has saved as next. */
  lemma DeleteKeeps<K(!new), V>(h: K -> nat, d: Dict<K, V>, it: Iter, k: K, k': K)
    requires Valid(h, d) && IterOk(d, it) && d.iterators > 0 && k' != k
    requires Present(h, d, k) ==> it.next != Some(AddrOf(h, d, k))
    ensures var d' := Delete(h, d, k).0;
            Valid(h, d') && IterOk(d', it) && d'.iterators == d.iterators && Keeps(h, d, d', it, k')
  {
    hide Valid, Delete, Ahead, Suffix, FindIn, RemoveFrom, Home;
    DeleteValid(h, d, k);
    DeleteChain(h, d, it, k, k');
    if it.next.Some? {
      DeleteSuffix(h, d, it, k, k');
    }
    if Present(h, d, k') {
      SameAhead(h, d, Delete(h, d, k).0, it, k');
    }
  }

  // Runs -----------------------------------------------------------------------------------------

  datatype Op<K, V> =
    | NextOp
    | FindOp(key: K)
    | AddOp(key: K, val: V, canResize: bool)
    | ReplaceOp(key: K, val: V, canResize: bool)
    | DeleteOp(key: K)
    | OtherIterators(n: nat)

  /** The dictionary, the iterator, the addresses returned so far in order, the addresses deleted, and
      whether dictNext has come to the end. */
  datatype Run<K, V> = Run(d: Dict<K, V>, it: Iter, returned: seq<nat>, deleted: set<nat>, ended: bool)

  /** What may be done while the iterator is in use: anything, except deleting the very entry that it
      has saved as the next one. */
  ghost predicate Allowed<K(!new), V>(h: K -> nat, r: Run<K, V>, op: Op<K, V>) {
    match op
    case DeleteOp(k) => Present(h, r.d, k) ==> r.it.next != Some(AddrOf(h, r.d, k))
    case OtherIterators(n) => n > 0
    case _ => true
  }

  ghost function Do<K(!new), V>(h: K -> nat, r: Run<K, V>, op: Op<K, V>): Run<K, V>
    requires Valid(h, r.d)
  {
    match op
    case NextOp =>
      var n := Next(r.d, r.it);
      r.(it := n.0,
         returned := if n.1.Some? then r.returned + [n.1.value.addr] else r.returned,
         ended := r.ended || n.1.None?)
    case FindOp(k) => r.(d := Find(h, r.d, k).0)
    case AddOp(k, v, c) => r.(d := Add(h, r.d, k, v, c).0)
    case ReplaceOp(k, v, c) => r.(d := Replace(h, r.d, k, v, c).0)
    case DeleteOp(k) =>
      r.(d := Delete(h, r.d, k).0,
         deleted := if Present(h, r.d, k) then r.deleted + {AddrOf(h, r.d, k)} else r.deleted)
    case OtherIterators(n) => r.(d := r.d.(iterators := n))
  }

  /** The iteration is on course: what was returned lies behind, no entry was returned twice, and each
      entry of the start is still there, returned or ahead, unless it was deleted. */
  ghost predicate OnCourse<K(!new), V>(h: K -> nat, start: Dict<K, V>, r: Run<K, V>) {
    && Valid(h, r.d) && IterOk(r.d, r.it) && r.d.iterators > 0
    && (forall i, j :: 0 <= i < j < |r.returned| ==> r.returned[i] != r.returned[j])
    && (forall a :: a in r.returned ==> a < r.d.nextAddr)
    && (forall k :: Present(h, r.d, k) && AddrOf(h, r.d, k) in r.returned ==> !Ahead(h, r.d, r.it, k))
    && (forall k :: Present(h, start, k) && AddrOf(h, start, k) !in r.deleted ==>
          Present(h, r.d, k) && AddrOf(h, r.d, k) == AddrOf(h, start, k)
          && (AddrOf(h, start, k) in r.returned || Ahead(h, r.d, r.it, k)))
    && (r.ended ==> forall k :: Present(h, start, k) && AddrOf(h, start, k) !in r.deleted ==>
          AddrOf(h, start, k) in r.returned)
  }

  /** The effect on the dictionary of any operation but dictNext: entries other than `gone` are kept,
      and what is new has a new address. */
  ghost predicate Mutates<K(!new), V>(h: K -> nat, d: Dict<K, V>, d': Dict<K, V>, it: Iter, gone: Option<K>) {
    && Valid(h, d') && IterOk(d', it) && d'.iterators > 0 && d'.nextAddr >= d.nextAddr
    && (forall k :: gone != Some(k) ==> Keeps(h, d, d', it, k))
    && (forall k :: Present(h, d', k) && !Present(h, d, k) ==> AddrOf(h, d', k) >= d.nextAddr)
    && (gone.Some? ==> !Present(h, d', gone.value))
  }

  lemma FindMutates<K(!new), V>(h: K -> nat, d: Dict<K, V>, it: Iter, k: K)
    requires Valid(h, d) && IterOk(d, it) && d.iterators > 0
    ensures Find(h, d, k).0 == d && Mutates(h, d, d, it, None)
  {}

  lemma AddedAddress<K(!new), V>(h: K -> nat, d: Dict<K, V>, k: K, v: V, canResize: bool)
    requires Valid(h, d) && d.iterators > 0
    ensures var d' := Add(h, d, k, v, canResize).0;
            d'.nextAddr >= d.nextAddr &&
            forall k' :: Present(h, d', k') && !Present(h, d, k') ==> AddrOf(h, d', k') >= d.nextAddr
  {
    hide Valid, DictFind;
    ExpandValid(h, d, canResize);
    var d2 := ExpandIfNeeded(d, canResize).value;
    if DictFind(h, d2, k).None? {
      InsertValid(h, d2, k, v);
      assert Insert(h, d2, k, v).nextAddr == d.nextAddr + 1;
    }
  }

  lemma AddMutates<K(!new), V>(h: K -> nat, d: Dict<K, V>, it: Iter, k: K, v: V, canResize: bool)
    requires Valid(h, d) && IterOk(d, it) && d.iterators > 0
    ensures Mutates(h, d, Add(h, d, k, v, canResize).0, it, None)
    ensures Add(h, d, k, v, canResize).0.iterators == d.iterators
  {
    hide Valid, IterOk, Keeps, AddrOf;
    forall k' ensures Keeps(h, d, Add(h, d, k, v, canResize).0, it, k') {
      AddKeeps(h, d, it, k, v, canResize, k');
    }
    AddKeeps(h, d, it, k, v, canResize, k);
    AddedAddress(h, d, k, v, canResize);
  }

  lemma ReplacedAddress<K(!new), V>(h: K -> nat, d: Dict<K, V>, it: Iter, k: K, v: V, canResize: bool)
    requires Valid(h, d) && IterOk(d, it) && d.iterators > 0
    ensures var d' := Replace(h, d, k, v, canResize).0;
            d'.nextAddr >= d.nextAddr &&
            forall k' :: Present(h, d', k') && !Present(h, d, k') ==> AddrOf(h, d', k') >= d.nextAddr
  {
    hide Valid, DictFind, Add, IterOk;
    AddValid(h, d, k, v, canResize);
    AddedAddress(h, d, k, v, canResize);
    AddMutates(h, d, it, k, v, canResize);
    var added := Add(h, d, k, v, canResize);
    if !added.1 {
      FindMutates(h, added.0, it, k);
      FoundHere(h, added.0, k);
      if Find(h, added.0, k).1.Some? {
        StoreValid(h, added.0, k, v);
      }
    }
  }

  lemma ReplaceMutates<K(!new), V>(h: K -> nat, d: Dict<K, V>, it: Iter, k: K, v: V, canResize: bool)
    requires Valid(h, d) && IterOk(d, it) && d.iterators > 0
    ensures Mutates(h, d, Replace(h, d, k, v, canResize).0, it, None)
  {
    hide Valid, IterOk, Keeps, AddrOf, Replace;
    forall k' ensures Keeps(h, d, Replace(h, d, k, v, canResize).0, it, k') {
      ReplaceKeeps(h, d, it, k, v, canResize, k');
    }
    ReplaceKeeps(h, d, it, k, v, canResize, k);
    ReplacedAddress(h, d, it, k, v, canResize);
  }

  lemma DeleteShape<K(!new), V>(h: K -> nat, d: Dict<K, V>, it: Iter, k: K)
    requires Valid(h, d) && it.table <= 1 && d.iterators > 0
    ensures var d' := Delete(h, d, k).0;
            && (var c := ChainAt(d', it); c == ChainAt(d, it) || c == RemoveFrom(ChainAt(d, it), k))
            && d'.rehashidx == d.rehashidx && d'.iterators == d.iterators && d'.nextAddr == d.nextAddr
  {}

  lemma {:induction false} RemoveKeepsSuffix<K, V>(c: Chain<K, V>, k: K, a: nat)
    requires FindIn(c, k).Some? ==> FindIn(c, k).value.addr != a
    ensures Suffix(c, a) != [] ==> Suffix(RemoveFrom(c, k), a) != []
    decreases |c|
  {
    if c != [] && c[0].key != k && c[0].addr != a {
      RemoveKeepsSuffix(c[1..], k, a);
      assert RemoveFrom(c, k)[1..] == RemoveFrom(c[1..], k);
    }
  }

  lemma DeleteSuffixNonEmpty<K(!new), V>(h: K -> nat, d: Dict<K, V>, it: Iter, k: K)
    requires Valid(h, d) && it.table <= 1 && it.next.Some?
    requires Present(h, d, k) ==> it.next.value != AddrOf(h, d, k)
    ensures var c, a := ChainAt(d, it), it.next.value;
            Suffix(c, a) != [] ==> Suffix(RemoveFrom(c, k), a) != []
  {
    hide Valid;
    var c := ChainAt(d, it);
    ChainAddresses(h, d, it);
    FindInFinds(c, k);
    RemoveKeepsSuffix(c, k, it.next.value);
  }

  lemma DeleteRest<K(!new), V>(h: K -> nat, d: Dict<K, V>, it: Iter, k: K)
    requires Valid(h, d) && IterOk(d, it) && d.iterators > 0
    requires Present(h, d, k) ==> it.next != Some(AddrOf(h, d, k))
    ensures var d' := Delete(h, d, k).0;
            Valid(h, d') && IterOk(d', it) && d'.iterators == d.iterators && d'.nextAddr == d.nextAddr
  {
    hide Valid, TableFind, Suffix, FindIn, RemoveFrom, RemoveAt;
    DeleteValid(h, d, k);
    DeleteShape(h, d, it, k);
    if it.next.Some? {
      DeleteSuffixNonEmpty(h, d, it, k);
    }
  }

  lemma DeleteMutates<K(!new), V>(h: K -> nat, d: Dict<K, V>, it: Iter, k: K)
    requires Valid(h, d) && IterOk(d, it) && d.iterators > 0
    requires Present(h, d, k) ==> it.next != Some(AddrOf(h, d, k))
    ensures Mutates(h, d, Delete(h, d, k).0, it, Some(k))
  {
    hide Valid, IterOk, Keeps, AddrOf, Delete, DictFind;
    var d' := Delete(h, d, k).0;
    DeleteValid(h, d, k);
    forall k' | k' != k ensures Keeps(h, d, d', it, k') {
      DeleteKeeps(h, d, it, k, k');
    }
    DeleteRest(h, d, it, k);
  }

  lemma MutatesOnCourse<K(!new), V>(h: K -> nat, start: Dict<K, V>, r: Run<K, V>, d': Dict<K, V>, gone: Option<K>)
    requires OnCourse(h, start, r) && Mutates(h, r.d, d', r.it, gone)
    ensures OnCourse(h, start,
                     r.(d := d', deleted := if gone.Some? && Present(h, r.d, gone.value)
                                            then r.deleted + {AddrOf(h, r.d, gone.value)} else r.deleted))
  {
    hide Valid, IterOk, Ahead, AddrOf, Present;
    forall k | Present(h, d', k) && AddrOf(h, d', k) in r.returned ensures !Ahead(h, d', r.it, k) {
      assert gone != Some(k);
      if Present(h, r.d, k) {
        assert Keeps(h, r.d, d', r.it, k);
      }
    }
    forall k | Present(h, start, k) && AddrOf(h, start, k) !in r.deleted && gone != Some(k)
      ensures Present(h, d', k) && AddrOf(h, d', k) == AddrOf(h, start, k)
              && (AddrOf(h, start, k) in r.returned || Ahead(h, d', r.it, k))
    {
      assert Keeps(h, r.d, d', r.it, k);
    }
  }

  lemma {:induction false} SuffixOfMember<K, V>(c: Chain<K, V>, e: Entry<K, V>)
    requires e in c
    ensures Suffix(c, e.addr) != []
    decreases |c|
  {
    if c[0].addr != e.addr {
      SuffixOfMember(c[1..], e);
    }
  }

  lemma {:induction false} NextIterOk<K, V>(d: Dict<K, V>, it: Iter)
    requires IterOk(d, it)
    ensures IterOk(d, Next(d, it).0)
    decreases Left(d, it), if it.entry.Some? then 1 else 0
  {
    if it.entry.None? {
      var i := it.index + 1;
      if i >= |TableOf(d, it.table).buckets| {
        if d.Rehashing() && it.table == 0 {
          VisitIterOk(d, Iter(1, 0, None, None));
        }
      } else {
        VisitIterOk(d, it.(index := i));
      }
    } else if it.next.Some? {
      var c := Suffix(ChainAt(d, it), it.next.value);
      if |c| > 1 {
        SuffixMember(ChainAt(d, it), it.next.value, c[1]);
        SuffixOfMember(ChainAt(d, it), c[1]);
      }
    } else {
      NextIterOk(d, it.(entry := None, next := None));
    }
  }

  lemma FoundAddress<K(!new), V>(h: K -> nat, d: Dict<K, V>, k: K)
    requires Valid(h, d) && Present(h, d, k)
    ensures AddrOf(h, d, k) < d.nextAddr
    ensures forall k' :: Present(h, d, k') && AddrOf(h, d, k') == AddrOf(h, d, k) ==> k' == k
  {}

  lemma ReturnedPresent<K(!new), V>(h: K -> nat, d: Dict<K, V>, e: Option<Entry<K, V>>)
    ensures e.Some? && DictFind(h, d, e.value.key) == Some(e.value) ==>
              Present(h, d, e.value.key) && AddrOf(h, d, e.value.key) == e.value.addr
  {}

  lemma PopsOnCourse<K(!new), V>(h: K -> nat, start: Dict<K, V>, r: Run<K, V>, it': Iter, e: Option<Entry<K, V>>)
    requires OnCourse(h, start, r) && IterOk(r.d, it') && forall k :: Pops(h, r.d, r.it, it', e, k)
    requires e.Some? ==> DictFind(h, r.d, e.value.key) == Some(e.value) && Ahead(h, r.d, r.it, e.value.key)
    requires e.Some? ==> e.value.addr < r.d.nextAddr
    requires e.Some? ==> forall k' :: Present(h, r.d, k') && AddrOf(h, r.d, k') == e.value.addr ==> k' == e.value.key
    ensures OnCourse(h, start,
                     r.(it := it', returned := if e.Some? then r.returned + [e.value.addr] else r.returned,
                        ended := r.ended || e.None?))
  {
    hide Valid, Ahead, IterOk, DictFind, AddrOf, Present;
    var returned := if e.Some? then r.returned + [e.value.addr] else r.returned;
    ReturnedPresent(h, r.d, e);
    forall k | Present(h, r.d, k) && AddrOf(h, r.d, k) in returned ensures !Ahead(h, r.d, it', k) {
      assert Pops(h, r.d, r.it, it', e, k);
    }
    forall k | Present(h, start, k) && AddrOf(h, start, k) !in r.deleted
      ensures AddrOf(h, start, k) in returned || Ahead(h, r.d, it', k)
      ensures e.None? ==> AddrOf(h, start, k) in returned
    {
      assert Pops(h, r.d, r.it, it', e, k);
    }
  }

  lemma NextOnCourse<K(!new), V>(h: K -> nat, start: Dict<K, V>, r: Run<K, V>)
    requires OnCourse(h, start, r)
    ensures OnCourse(h, start, Do(h, r, NextOp))
  {
    hide Valid, Ahead, Next;
    var it', e := Next(r.d, r.it).0, Next(r.d, r.it).1;
    forall k ensures Pops(h, r.d, r.it, it', e, k) {
      NextPops(h, r.d, r.it, k);
    }
    NextIterOk(r.d, r.it);
    if e.Some? {
      NextPops(h, r.d, r.it, e.value.key);
      FoundAddress(h, r.d, e.value.key);
    }
    PopsOnCourse(h, start, r, it', e);
  }

  lemma {:induction false} VisitIterOk<K, V>(d: Dict<K, V>, it: Iter)
    requires IterOk(d, it) && it.index >= 0 && it.entry.None?
    ensures IterOk(d, Visit(d, it).0)
    decreases Left(d, it), 1
  {
    var c := ChainAt(d, it);
    if c == [] {
      NextIterOk(d, it.(entry := None, next := None));
    } else if |c| > 1 {
      SuffixOfMember(c, c[1]);
    }
  }

  lemma OthersMutate<K(!new), V>(h: K -> nat, d: Dict<K, V>, it: Iter, n: nat)
    requires Valid(h, d) && IterOk(d, it) && n > 0
    ensures Mutates(h, d, d.(iterators := n), it, None)
  {
    var d' := d.(iterators := n);
    assert forall k :: DictFind(h, d', k) == DictFind(h, d, k);
    assert forall k :: Present(h, d, k) ==> (Ahead(h, d', it, k) <==> Ahead(h, d, it, k));
  }

  lemma DoOnCourse<K(!new), V>(h: K -> nat, start: Dict<K, V>, r: Run<K, V>, op: Op<K, V>)
    requires OnCourse(h, start, r) && Allowed(h, r, op)
    ensures OnCourse(h, start, Do(h, r, op))
  {
    hide Valid, IterOk, Add, Find, Replace, Delete;
    match op
    case NextOp => NextOnCourse(h, start, r);
    case FindOp(k) =>
      FindMutates(h, r.d, r.it, k);
      MutatesOnCourse(h, start, r, r.d, None);
    case AddOp(k, v, c) =>
      AddMutates(h, r.d, r.it, k, v, c);
      MutatesOnCourse(h, start, r, Add(h, r.d, k, v, c).0, None);
    case ReplaceOp(k, v, c) =>
      ReplaceMutates(h, r.d, r.it, k, v, c);
      MutatesOnCourse(h, start, r, Replace(h, r.d, k, v, c).0, None);
    case DeleteOp(k) =>
      DeleteMutates(h, r.d, r.it, k);
      MutatesOnCourse(h, start, r, Delete(h, r.d, k).0, Some(k));
    case OtherIterators(n) =>
      OthersMutate(h, r.d, r.it, n);
      MutatesOnCourse(h, start, r, r.d.(iterators := n), None);
  }

  ghost predicate AllAllowed<K(!new), V>(h: K -> nat, r: Run<K, V>, ops: seq<Op<K, V>>)
    decreases |ops|
  {
    ops == [] || (Valid(h, r.d) && Allowed(h, r, ops[0]) && AllAllowed(h, Do(h, r, ops[0]), ops[1..]))
  }

  ghost function DoAll<K(!new), V>(h: K -> nat, r: Run<K, V>, ops: seq<Op<K, V>>): Run<K, V>
    requires AllAllowed(h, r, ops)
    decreases |ops|
  {
    if ops == [] then r else DoAll(h, Do(h, r, ops[0]), ops[1..])
  }

  lemma {:induction false} AllOnCourse<K(!new), V>(h: K -> nat, start: Dict<K, V>, r: Run<K, V>, ops: seq<Op<K, V>>)
    requires OnCourse(h, start, r) && AllAllowed(h, r, ops)
    ensures OnCourse(h, start, DoAll(h, r, ops))
    decreases |ops|
  {
    hide OnCourse, Do;
    if ops != [] {
      DoOnCourse(h, start, r, ops[0]);
      AllOnCourse(h, start, Do(h, r, ops[0]), ops[1..]);
    }
  }

  /** The first dictNext of a safe iterator registers it, which suspends rehash steps. */
  function Begin<K, V>(d: Dict<K, V>): Run<K, V> {
    Run(d.(iterators := d.iterators + 1), NEW_ITER, [], {}, false)
  }

  lemma CountIrrelevant<K(!new), V>(h: K -> nat, d: Dict<K, V>, n: nat)
    requires Valid(h, d)
    ensures Valid(h, d.(iterators := n))
    ensures forall k :: DictFind(h, d.(iterators := n), k) == DictFind(h, d, k)
  {
    assert forall k :: DictFind(h, d.(iterators := n), k) == DictFind(h, d, k);
  }

  lemma AheadOfNew<K(!new), V>(h: K -> nat, d: Dict<K, V>, k: K)
    requires Valid(h, d) && Present(h, d, k)
    ensures Ahead(h, d, NEW_ITER, k)
  {
    HomeBucket(h, d, k);
  }

  lemma BeginOnCourse<K(!new), V>(h: K -> nat, d: Dict<K, V>)
    requires Valid(h, d)
    ensures OnCourse(h, d.(iterators := d.iterators + 1), Begin(d))
    ensures forall k :: DictFind(h, d.(iterators := d.iterators + 1), k) == DictFind(h, d, k)
  {
    hide TableOk, TableFind, Addressed, Disjoint, Slot, Ahead;
    var d' := d.(iterators := d.iterators + 1);
    CountIrrelevant(h, d, d.iterators + 1);
    forall k | Present(h, d', k) ensures Ahead(h, d', NEW_ITER, k) {
      AheadOfNew(h, d', k);
    }
  }

  /** Safe iteration: whatever is added, replaced, found and deleted between the calls of dictNext, and
      even when an addition starts a rehash, no entry is returned twice, and once dictNext has returned
      NULL every entry that was there at the first call and was not deleted has been returned. */
  lemma SafeIteration<K(!new), V>(h: K -> nat, d: Dict<K, V>, ops: seq<Op<K, V>>)
    requires Valid(h, d) && AllAllowed(h, Begin(d), ops)
    ensures var r := DoAll(h, Begin(d), ops);
            && (forall i, j :: 0 <= i < j < |r.returned| ==> r.returned[i] != r.returned[j])
            && (r.ended ==> forall k :: Present(h, d, k) && AddrOf(h, d, k) !in r.deleted ==>
               AddrOf(h, d, k) in r.returned)
  {
    hide Valid, IterOk, Ahead, DoAll, Do, AllAllowed, DictFind;
    BeginOnCourse(h, d);
    var d', r := d.(iterators := d.iterators + 1), DoAll(h, Begin(d), ops);
    AllOnCourse(h, d', Begin(d), ops);
    forall k | r.ended && Present(h, d, k) && AddrOf(h, d, k) !in r.deleted
      ensures AddrOf(h, d, k) in r.returned
    {
      assert DictFind(h, d', k) == DictFind(h, d, k);
      assert Present(h, d', k);
    }
  }

  /** The entry returned last is never the one saved as next: deleting it is always allowed. */
  lemma LastReturnedMayBeDeleted<K(!new), V>(h: K -> nat, d: Dict<K, V>, it: Iter)
    requires Valid(h, d) && IterOk(d, it) && Next(d, it).1.Some?
    ensures var n := Next(d, it);
            Present(h, d, n.1.value.key) && n.0.next != Some(AddrOf(h, d, n.1.value.key))
  {
    NextPops(h, d, it, Next(d, it).1.value.key);
  }
}
