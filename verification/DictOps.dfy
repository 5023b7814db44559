/**
 The operations of dict.c on the two tables, with the rehash step that each of them may take first,
 and their meaning: each acts on the dictionary exactly as its counterpart acts on a map.
 */
module DictOps {
  import opened Wrappers
  import opened DictModel

  // Operations, and what makes additions valid ---------------------------------------------------

  /** _dictRehashStep: iterators that must not be disturbed suspend rehashing. */
  ghost function StepIfFree<K(!new), V>(h: K -> nat, d: Dict<K, V>): (r: Dict<K, V>)
    requires Valid(h, d)
    ensures Valid(h, r) && Size(r) == Size(d) && forall k :: DictFind(h, r, k) == DictFind(h, d, k)
  {
    if d.Rehashing() && d.iterators == 0 then
      StepValid(h, d);
      RehashStep(h, d)
    else d
  }

  function NextPower(size: nat, from: nat): (r: nat)
    requires from > 0
    ensures r >= size && r >= from
    decreases size - from
  {
    if from >= size then from else NextPower(size, 2 * from)
  }

  /** dictExpand: the first table is simply allocated; a later one starts a rehash. None is an error. */
  function Expand<K, V>(d: Dict<K, V>, size: nat): Option<Dict<K, V>> {
    if d.Rehashing() || d.ht0.used > size then None
    else
      var t := Allocated(NextPower(size, INITIAL_SIZE));
      if d.ht0.buckets == [] then Some(d.(ht0 := t)) else Some(d.(ht1 := t, rehashidx := 0))
  }

  /** _dictExpandIfNeeded; resizing can be disabled for as long as a child shares the memory. */
  function ExpandIfNeeded<K, V>(d: Dict<K, V>, canResize: bool): Option<Dict<K, V>> {
    if d.Rehashing() then Some(d)
    else if d.ht0.buckets == [] then Expand(d, INITIAL_SIZE)
    else
      var size, used := |d.ht0.buckets|, d.ht0.used;
      if used >= size && (canResize || used / size > FORCE_RESIZE_RATIO) then
        Expand(d, (if size > used then size else used) * 2)
      else Some(d)
  }

  function Insert<K, V>(h: K -> nat, d: Dict<K, V>, k: K, v: V): Dict<K, V>
    requires (if d.Rehashing() then d.ht1.buckets else d.ht0.buckets) != []
  {
    var e := Entry(d.nextAddr, k, v);
    if d.Rehashing() then d.(ht1 := Push(h, d.ht1, e), nextAddr := d.nextAddr + 1)
    else d.(ht0 := Push(h, d.ht0, e), nextAddr := d.nextAddr + 1)
  }

  lemma AllocatedOk<K(!new), V>(h: K -> nat, size: nat)
    ensures TableOk(h, Allocated<K, V>(size)) && forall k :: TableFind(h, Allocated<K, V>(size), k) == None
    ensures |Allocated<K, V>(size).buckets| == size && Allocated<K, V>(size).used == 0
  {
    SumAllocated(Allocated<K, V>(size).buckets);
  }

  lemma NoBuckets<K(!new), V>(h: K -> nat, t: Table<K, V>)
    requires TableOk(h, t) && t.buckets == []
    ensures t == NoTable()
  {}

  lemma ExpandValid<K(!new), V>(h: K -> nat, d: Dict<K, V>, canResize: bool)
    requires Valid(h, d)
    ensures var r := ExpandIfNeeded(d, canResize);
            r.Some? && Valid(h, r.value) && Size(r.value) == Size(d) && r.value.ht0.buckets != []
            && r.value.nextAddr == d.nextAddr && forall k :: DictFind(h, r.value, k) == DictFind(h, d, k)
  {
    hide TableFind, TableOk, Addressed, Allocated;
    NoTableFinds<K, V>(h);
    if d.Rehashing() {
    } else if d.ht0.buckets == [] {
      var t := Allocated<K, V>(NextPower(INITIAL_SIZE, INITIAL_SIZE));
      AllocatedOk<K, V>(h, NextPower(INITIAL_SIZE, INITIAL_SIZE));
      NoBuckets(h, d.ht0);
      AddressedKept(h, d, d.(ht0 := t));
    } else {
      var size, used := |d.ht0.buckets|, d.ht0.used;
      var size' := NextPower((if size > used then size else used) * 2, INITIAL_SIZE);
      AllocatedOk<K, V>(h, size');
      AddressedKept(h, d, d.(ht1 := Allocated(size'), rehashidx := 0));
    }
  }

  /** dictAdd: the new dictionary, and whether the key was new. */
  ghost function Add<K(!new), V>(h: K -> nat, d: Dict<K, V>, k: K, v: V, canResize: bool): (Dict<K, V>, bool)
    requires Valid(h, d)
  {
    var d1 := StepIfFree(h, d);
    var d2 := ExpandIfNeeded(d1, canResize);
    ExpandValid(h, d1, canResize);
    if d2.None? then (d1, false)
    else if DictFind(h, d2.value, k).Some? then (d2.value, false)
    else (Insert(h, d2.value, k, v), true)
  }

  /** dictFind: no step is taken while there is no table. */
  ghost function Find<K(!new), V>(h: K -> nat, d: Dict<K, V>, k: K): (Dict<K, V>, Option<Entry<K, V>>)
    requires Valid(h, d)
  {
    if d.ht0.buckets == [] then (d, None)
    else
      var d1 := StepIfFree(h, d);
      (d1, DictFind(h, d1, k))
  }

  function StoreAt<K(==), V>(h: K -> nat, t: Table<K, V>, k: K, v: V): Table<K, V>
    requires t.buckets != []
  {
    var i := Slot(h, k, |t.buckets|);
    Table(t.buckets[i := StoreIn(t.buckets[i], k, v)], t.used)
  }

  /** The value of an existing entry overwritten in place. */
  function Store<K(==), V>(h: K -> nat, d: Dict<K, V>, k: K, v: V): Dict<K, V>
    requires DictFind(h, d, k).Some?
  {
    if TableFind(h, d.ht0, k).Some? then d.(ht0 := StoreAt(h, d.ht0, k, v))
    else d.(ht1 := StoreAt(h, d.ht1, k, v))
  }

  lemma InsertAddressed<K(!new), V>(h: K -> nat, d: Dict<K, V>, k: K, v: V)
    requires Addressed(h, d) && (if d.Rehashing() then d.ht1.buckets else d.ht0.buckets) != []
    requires forall k' :: DictFind(h, Insert(h, d, k, v), k') ==
                          if k' == k then Some(Entry(d.nextAddr, k, v)) else DictFind(h, d, k')
    ensures Addressed(h, Insert(h, d, k, v))
  {
    hide DictFind;
  }

  lemma InsertValid<K(!new), V>(h: K -> nat, d: Dict<K, V>, k: K, v: V)
    requires Valid(h, d) && d.ht0.buckets != [] && DictFind(h, d, k).None?
    ensures Valid(h, Insert(h, d, k, v)) && Size(Insert(h, d, k, v)) == Size(d) + 1
    ensures forall k' :: DictFind(h, Insert(h, d, k, v), k') ==
                         if k' == k then Some(Entry(d.nextAddr, k, v)) else DictFind(h, d, k')
  {
    hide TableOk, TableFind, Push, Addressed;
    NoTableFinds<K, V>(h);
    var e := Entry(d.nextAddr, k, v);
    var t := if d.Rehashing() then d.ht1 else d.ht0;
    PushOk(h, t, e);
    PushUsed(h, t, e);
    InsertAddressed(h, d, k, v);
  }

  lemma AddValid<K(!new), V>(h: K -> nat, d: Dict<K, V>, k: K, v: V, canResize: bool)
    requires Valid(h, d)
    ensures var r := Add(h, d, k, v, canResize);
            && Valid(h, r.0) && r.0.ht0.buckets != []
            && r.1 == DictFind(h, d, k).None?
            && Size(r.0) == Size(d) + (if r.1 then 1 else 0)
            && (forall k' :: k' != k || !r.1 ==> DictFind(h, r.0, k') == DictFind(h, d, k'))
            && (r.1 ==> DictFind(h, r.0, k).Some?)
            && (r.1 ==> DictFind(h, r.0, k).value.key == k && DictFind(h, r.0, k).value.val == v)
  {
    hide Valid, DictFind;
    var d1 := StepIfFree(h, d);
    ExpandValid(h, d1, canResize);
    var d2 := ExpandIfNeeded(d1, canResize).value;
    if DictFind(h, d2, k).None? {
      InsertValid(h, d2, k, v);
    }
  }

  /** dictReplace: adds, or else finds the entry (with another step) and overwrites its value. */
  ghost function Replace<K(!new), V>(h: K -> nat, d: Dict<K, V>, k: K, v: V, canResize: bool): (Dict<K, V>, bool)
    requires Valid(h, d)
  {
    var added := Add(h, d, k, v, canResize);
    AddValid(h, d, k, v, canResize);
    if added.1 then added
    else
      var found := Find(h, added.0, k);
      if found.1.Some? then (Store(h, found.0, k, v), false) else (found.0, false)
  }

  function RemoveAt<K(==), V>(h: K -> nat, t: Table<K, V>, k: K): Table<K, V>
    requires t.buckets != []
  {
    var i := Slot(h, k, |t.buckets|);
    Table(t.buckets[i := RemoveFrom(t.buckets[i], k)], t.used - 1)
  }

  /** dictGenericDelete: the new dictionary, and whether the key was there. */
  ghost function Delete<K(!new), V>(h: K -> nat, d: Dict<K, V>, k: K): (Dict<K, V>, bool)
    requires Valid(h, d)
  {
    if d.ht0.buckets == [] then (d, false)
    else
      var d1 := StepIfFree(h, d);
      if TableFind(h, d1.ht0, k).Some? then (d1.(ht0 := RemoveAt(h, d1.ht0, k)), true)
      else if TableFind(h, d1.ht1, k).Some? then (d1.(ht1 := RemoveAt(h, d1.ht1, k)), true)
      else (d1, false)
  }

  // Validity of overwriting and of deletion ------------------------------------------------------

  lemma {:induction false} StoreInFinds<K, V>(c: Chain<K, V>, k: K, v: V, k': K)
    ensures FindIn(StoreIn(c, k, v), k') ==
            if k' == k && FindIn(c, k).Some? then Some(FindIn(c, k).value.(val := v)) else FindIn(c, k')
    ensures Unique(c) ==> Unique(StoreIn(c, k, v))
    ensures forall i :: 0 <= i < |c| ==> StoreIn(c, k, v)[i].key == c[i].key
    decreases |c|
  {
    if c != [] {
      StoreInFinds(c[1..], k, v, k');
      var r := StoreIn(c, k, v);
      assert r[1..] == if c[0].key == k then c[1..] else StoreIn(c[1..], k, v);
      assert forall i :: 0 <= i < |c| ==> r[i].key == c[i].key;
    }
  }

  lemma StoreOk<K(!new), V>(h: K -> nat, t: Table<K, V>, k: K, v: V)
    requires TableOk(h, t) && TableFind(h, t, k).Some?
    ensures t.buckets != [] && TableOk(h, StoreAt(h, t, k, v))
    ensures forall k' :: TableFind(h, StoreAt(h, t, k, v), k') ==
                         if k' == k then Some(TableFind(h, t, k).value.(val := v)) else TableFind(h, t, k')
  {
    var i := Slot(h, k, |t.buckets|);
    var c := t.buckets[i];
    StoreInFinds(c, k, v, k);
    forall e | e in StoreIn(c, k, v) ensures Slot(h, e.key, |t.buckets|) == i {
      var j :| 0 <= j < |c| && StoreIn(c, k, v)[j] == e;
      assert c[j] in c;
    }
    ReplaceBucket(h, t, i, StoreIn(c, k, v));
    forall k' ensures TableFind(h, StoreAt(h, t, k, v), k') ==
                      if k' == k then Some(TableFind(h, t, k).value.(val := v)) else TableFind(h, t, k') {
      StoreInFinds(c, k, v, k');
    }
  }

  lemma StoreBuckets<K(!new), V>(h: K -> nat, d: Dict<K, V>, first: bool, k: K, v: V)
    requires Valid(h, d) && TableFind(h, if first then d.ht0 else d.ht1, k).Some?
    ensures var t := if first then d.ht0 else d.ht1;
            t.buckets != [] && StoreAt(h, t, k, v).used == t.used &&
            |StoreAt(h, t, k, v).buckets| == |t.buckets| &&
            (forall b :: 0 <= b < |t.buckets| && t.buckets[b] == [] ==> StoreAt(h, t, k, v).buckets[b] == [])
  {}

  lemma StoreValid<K(!new), V>(h: K -> nat, d: Dict<K, V>, k: K, v: V)
    requires Valid(h, d) && DictFind(h, d, k).Some?
    ensures Valid(h, Store(h, d, k, v)) && Size(Store(h, d, k, v)) == Size(d)
    ensures forall k' :: DictFind(h, Store(h, d, k, v), k') ==
                         if k' == k then Some(DictFind(h, d, k).value.(val := v)) else DictFind(h, d, k')
  {
    hide TableOk, TableFind, StoreAt, Addressed;
    NoTableFinds<K, V>(h);
    var first := TableFind(h, d.ht0, k).Some?;
    var t := if first then d.ht0 else d.ht1;
    StoreOk(h, t, k, v);
    StoreBuckets(h, d, first, k, v);
    AddressedKept(h, d, Store(h, d, k, v));
  }

  lemma {:induction false} RemoveFromMembers<K, V>(c: Chain<K, V>, k: K)
    requires Unique(c)
    ensures Unique(RemoveFrom(c, k)) && forall e :: e in RemoveFrom(c, k) ==> e in c
    ensures forall e :: e in c && e.key != k ==> e in RemoveFrom(c, k)
    decreases |c|
  {
    if c != [] && c[0].key != k {
      var rest := RemoveFrom(c[1..], k);
      RemoveFromMembers(c[1..], k);
      forall j | 0 <= j < |rest| ensures rest[j].key != c[0].key {
        assert rest[j] in c[1..];
      }
      assert RemoveFrom(c, k) == [c[0]] + rest;
    }
  }

  lemma {:induction false} RemoveFromFinds<K, V>(c: Chain<K, V>, k: K, k': K)
    requires Unique(c)
    ensures FindIn(RemoveFrom(c, k), k') == if k' == k then None else FindIn(c, k')
    decreases |c|
  {
    if c != [] {
      if c[0].key == k {
        FindInFinds(c[1..], k);
      } else {
        RemoveFromFinds(c[1..], k, k');
        assert RemoveFrom(c, k)[1..] == RemoveFrom(c[1..], k);
      }
    }
  }

  lemma RemoveOk<K(!new), V>(h: K -> nat, t: Table<K, V>, k: K)
    requires TableOk(h, t) && TableFind(h, t, k).Some?
    ensures t.buckets != [] && TableOk(h, RemoveAt(h, t, k))
    ensures forall k' :: TableFind(h, RemoveAt(h, t, k), k') == if k' == k then None else TableFind(h, t, k')
    ensures |RemoveAt(h, t, k).buckets| == |t.buckets|
    ensures forall b :: 0 <= b < |t.buckets| && t.buckets[b] == [] ==> RemoveAt(h, t, k).buckets[b] == []
  {
    hide Unique;
    var i := Slot(h, k, |t.buckets|);
    var c := t.buckets[i];
    RemoveFromMembers(c, k);
    ReplaceBucket(h, t, i, RemoveFrom(c, k));
    forall k' ensures FindIn(RemoveFrom(c, k), k') == if k' == k then None else FindIn(c, k') {
      RemoveFromFinds(c, k, k');
    }
  }

  lemma RemoveUsed<K(!new), V>(h: K -> nat, t: Table<K, V>, k: K)
    requires TableFind(h, t, k).Some?
    ensures RemoveAt(h, t, k).used == t.used - 1
  {}

  /** The deletion proper, after the rehash step. */
  lemma DeleteFromValid<K(!new), V>(h: K -> nat, d: Dict<K, V>, k: K)
    requires Valid(h, d) && d.ht0.buckets != []
    ensures TableFind(h, d.ht0, k).Some? || TableFind(h, d.ht1, k).Some? <==> DictFind(h, d, k).Some?
    ensures TableFind(h, d.ht1, k).Some? ==> d.ht1.buckets != []
    ensures DictFind(h, d, k).Some? ==>
              (var r := if TableFind(h, d.ht0, k).Some? then d.(ht0 := RemoveAt(h, d.ht0, k))
                        else d.(ht1 := RemoveAt(h, d.ht1, k));
               && Valid(h, r) && Size(r) == Size(d) - 1
               && (forall k' :: DictFind(h, r, k') == if k' == k then None else DictFind(h, d, k')))
  {
    hide TableOk, TableFind, Addressed, RemoveAt;
    NoTableFinds<K, V>(h);
    if DictFind(h, d, k).Some? {
      var t := if TableFind(h, d.ht0, k).Some? then d.ht0 else d.ht1;
      RemoveOk(h, t, k);
      RemoveUsed(h, t, k);
      AddressedKept(h, d, if TableFind(h, d.ht0, k).Some? then d.(ht0 := RemoveAt(h, d.ht0, k))
                          else d.(ht1 := RemoveAt(h, d.ht1, k)));
    }
  }

  lemma DeleteValid<K(!new), V>(h: K -> nat, d: Dict<K, V>, k: K)
    requires Valid(h, d)
    ensures var r := Delete(h, d, k);
            && Valid(h, r.0) && r.1 == DictFind(h, d, k).Some?
            && Size(r.0) == Size(d) - (if r.1 then 1 else 0)
            && (forall k' :: DictFind(h, r.0, k') == if k' == k then None else DictFind(h, d, k'))
  {
    NoTableFinds<K, V>(h);
    if d.ht0.buckets == [] {
      NoBuckets(h, d.ht0);
    } else {
      hide Valid, TableFind;
      DeleteFromValid(h, StepIfFree(h, d), k);
    }
  }

  // Refinement of a map --------------------------------------------------------------------------

  ghost predicate Represents<K(!new), V>(h: K -> nat, d: Dict<K, V>, m: map<K, V>) {
    && Valid(h, d) && Size(d) == |m|
    && forall k :: if k in m then DictFind(h, d, k).Some? && DictFind(h, d, k).value.val == m[k]
                   else DictFind(h, d, k).None?
  }

  lemma InitRepresents<K(!new), V>(h: K -> nat)
    ensures Represents(h, Init<K, V>(), map[])
  {}

  lemma RehashRefines<K(!new), V>(h: K -> nat, d: Dict<K, V>, m: map<K, V>)
    requires Represents(h, d, m) && d.Rehashing()
    ensures CanStep(d) && Represents(h, RehashStep(h, d), m)
  {
    hide Valid, DictFind;
    StepValid(h, d);
  }

  lemma AddRefines<K(!new), V>(h: K -> nat, d: Dict<K, V>, m: map<K, V>, k: K, v: V, canResize: bool)
    requires Represents(h, d, m)
    ensures var r := Add(h, d, k, v, canResize);
            r.1 == (k !in m) && Represents(h, r.0, if r.1 then m[k := v] else m)
  {
    hide Valid, DictFind, Add;
    AddValid(h, d, k, v, canResize);
  }

  lemma FindRefines<K(!new), V>(h: K -> nat, d: Dict<K, V>, m: map<K, V>, k: K)
    requires Represents(h, d, m)
    ensures var r := Find(h, d, k);
            && Represents(h, r.0, m)
            && r.1.Some? == (k in m) && (k in m ==> r.1.value.val == m[k])
  {
    if d.ht0.buckets == [] {
      NoTableFinds<K, V>(h);
      NoBuckets(h, d.ht0);
    } else {
      hide Valid, DictFind;
    }
  }

  lemma FoundHere<K(!new), V>(h: K -> nat, d: Dict<K, V>, k: K)
    requires Valid(h, d)
    ensures Find(h, d, k).1.Some? ==> DictFind(h, Find(h, d, k).0, k).Some?
  {}

  lemma ReplaceRefines<K(!new), V>(h: K -> nat, d: Dict<K, V>, m: map<K, V>, k: K, v: V, canResize: bool)
    requires Represents(h, d, m)
    ensures var r := Replace(h, d, k, v, canResize);
            r.1 == (k !in m) && Represents(h, r.0, m[k := v])
  {
    hide Valid, DictFind, Add, Find, Store;
    AddValid(h, d, k, v, canResize);
    AddRefines(h, d, m, k, v, canResize);
    var added := Add(h, d, k, v, canResize);
    if !added.1 {
      FindRefines(h, added.0, m, k);
      var found := Find(h, added.0, k);
      FoundHere(h, added.0, k);
      StoreValid(h, found.0, k, v);
    }
  }

  lemma RemovedSize<K, V>(m: map<K, V>, k: K)
    ensures |m - {k}| == |m| - (if k in m then 1 else 0)
  {
    if k in m {
      assert m.Keys == (m - {k}).Keys + {k};
    } else {
      assert m - {k} == m;
    }
  }

  lemma DeleteRefines<K(!new), V>(h: K -> nat, d: Dict<K, V>, m: map<K, V>, k: K)
    requires Represents(h, d, m)
    ensures var r := Delete(h, d, k);
            r.1 == (k in m) && Represents(h, r.0, m - {k})
  {
    hide Valid, DictFind, Delete, Size;
    DeleteValid(h, d, k);
    RemovedSize(m, k);
  }
}
