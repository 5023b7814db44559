/**
 How full a dictionary gets and when it works on a rehash: what its size and the pace of its rehashing are
 for every single operation.
 */
module DictLaws {
  import opened Wrappers
  import opened DictModel
  import opened DictOps
  import opened DictRuns

  lemma {:induction false} NextPowerEnough(size: nat, from: nat)
    requires from > 0
    ensures NextPower(size, from) >= size && NextPower(size, from) >= from
    decreases size - from
  {
    if from < size {
      NextPowerEnough(size, 2 * from);
    }
  }

  /** A dictionary that an addition finds full, or six times full while resizing is to be avoided, starts to
      move to a table at least twice as large as it has entries. */
  lemma FullGrows<K(!new), V>(h: K -> nat, d: Dict<K, V>, k: K, v: V, canResize: bool)
    requires Valid(h, d) && !d.Rehashing() && d.ht0.buckets != []
    requires d.ht0.used >= |d.ht0.buckets| && (canResize || d.ht0.used >= 6 * |d.ht0.buckets|)
    ensures var r := Add(h, d, k, v, canResize).0;
            r.Rehashing() && |r.ht1.buckets| >= 2 * Size(d) && |r.ht0.buckets| == |d.ht0.buckets|
  {
    hide DictFind, Disjoint, Addressed;
    ExpandValid(h, d, canResize);
    NextPowerEnough(d.ht0.used * 2, INITIAL_SIZE);
  }

  lemma Ratio(used: int, size: nat)
    requires size > 0
    ensures used / size > 5 <==> used >= 6 * size
  {}

  lemma EmptyTable<K(!new), V>(h: K -> nat, d: Dict<K, V>)
    requires Valid(h, d)
    ensures d.ht0.buckets == [] ==> d.ht0.used == 0
    ensures !d.Rehashing() ==> d.ht1.used == 0
  {}

  lemma RoomMade<K(!new), V>(h: K -> nat, d: Dict<K, V>, canResize: bool)
    requires Valid(h, d)
    ensures ExpandIfNeeded(d, canResize).Some?
    ensures var d2 := ExpandIfNeeded(d, canResize).value;
            d2.ht0.buckets != [] && (!d2.Rehashing() ==> Size(d2) < (if canResize then 1 else 6) * |d2.ht0.buckets|)
  {
    hide DictFind, Disjoint, Addressed, Valid;
    ExpandValid(h, d, canResize);
    EmptyTable(h, d);
    NextPowerEnough(INITIAL_SIZE, INITIAL_SIZE);
    if d.ht0.buckets != [] {
      Ratio(d.ht0.used, |d.ht0.buckets|);
    }
  }

  lemma Inserted<K(!new), V>(h: K -> nat, d: Dict<K, V>, k: K, v: V)
    requires Valid(h, d) && d.ht0.buckets != [] && DictFind(h, d, k).None?
    ensures var r := Insert(h, d, k, v);
            Size(r) == Size(d) + 1 && r.Rehashing() == d.Rehashing() && |r.ht0.buckets| == |d.ht0.buckets|
  {
    InsertValid(h, d, k, v);
  }

  /** Otherwise it stays as it is: after an addition, a dictionary that is not on the move has at most one
      entry in a bucket on average, or six where resizing is to be avoided. */
  lemma LoadBounded<K(!new), V>(h: K -> nat, d: Dict<K, V>, k: K, v: V, canResize: bool)
    requires Valid(h, d)
    ensures var r := Add(h, d, k, v, canResize).0;
            !r.Rehashing() ==> Size(r) <= (if canResize then 1 else 6) * |r.ht0.buckets|
  {
    hide DictFind, Valid, ExpandIfNeeded, Insert, Size, StepIfFree;
    var d1 := StepIfFree(h, d);
    ExpandValid(h, d1, canResize);
    RoomMade(h, d1, canResize);
    var d2 := ExpandIfNeeded(d1, canResize).value;
    if DictFind(h, d2, k).None? {
      Inserted(h, d2, k, v);
    }
  }

  // The pace of a rehash -------------------------------------------------------------------------

  /** While a safe iterator is at work, nothing is moved. */
  lemma PausedByIterators<K(!new), V>(h: K -> nat, d: Dict<K, V>, op: Op<K, V>)
    requires Valid(h, d) && d.Rehashing() && d.iterators > 0 && !op.RehashOp? && !op.Iterators?
    ensures var r := Do(h, d, op).0;
            && r.rehashidx == d.rehashidx
            && |r.ht0.buckets| == |d.ht0.buckets| && |r.ht1.buckets| == |d.ht1.buckets|
  {
    hide TableOk, TableFind, Addressed;
    match op
    case AddOp(k, v, c) => AddValid(h, d, k, v, c);
    case ReplaceOp(k, v, c) => AddValid(h, d, k, v, c);
    case DeleteOp(k) =>
    case FindOp(k) =>
  }

  lemma LookUpSteps<K(!new), V>(h: K -> nat, d: Dict<K, V>, k: K)
    requires Valid(h, d) && d.Rehashing() && d.iterators == 0
    ensures StepsLeft(Find(h, d, k).0) < StepsLeft(d) && StepsLeft(Delete(h, d, k).0) < StepsLeft(d)
  {
    hide TableOk, TableFind, Addressed, RehashStep;
    StepProgress(h, d);
  }

  lemma AddSteps<K(!new), V>(h: K -> nat, d: Dict<K, V>, k: K, v: V, canResize: bool)
    requires Valid(h, d) && d.Rehashing() && d.iterators == 0
    ensures var r := Add(h, d, k, v, canResize).0;
            && Valid(h, r) && r.iterators == 0
            && if StepIfFree(h, d).Rehashing() then r.Rehashing() && StepsLeft(r) < StepsLeft(d)
               else |r.ht0.buckets| == |d.ht1.buckets|
  {
    hide TableOk, TableFind, Addressed, RehashStep;
    StepProgress(h, d);
    AddValid(h, d, k, v, canResize);
  }

  lemma StoreSteps<K(!new), V>(h: K -> nat, d: Dict<K, V>, k: K, v: V)
    requires Valid(h, d) && DictFind(h, d, k).Some?
    ensures StepsLeft(Store(h, d, k, v)) == StepsLeft(d)
  {}

  lemma FindValid<K(!new), V>(h: K -> nat, d: Dict<K, V>, k: K)
    requires Valid(h, d)
    ensures Valid(h, Find(h, d, k).0) && Find(h, d, k).1 == DictFind(h, Find(h, d, k).0, k)
  {
    hide TableOk, Addressed;
  }

  lemma ReplaceSteps<K(!new), V>(h: K -> nat, d: Dict<K, V>, k: K, v: V, canResize: bool)
    requires Valid(h, d) && d.Rehashing() && d.iterators == 0 && StepIfFree(h, d).Rehashing()
    ensures StepsLeft(Replace(h, d, k, v, canResize).0) < StepsLeft(d)
  {
    hide Valid, Add, Delete, StepIfFree, TableFind, Store, Find, StepsLeft;
    AddSteps(h, d, k, v, canResize);
    AddValid(h, d, k, v, canResize);
    var d1 := Add(h, d, k, v, canResize).0;
    LookUpSteps(h, d1, k);
    FindValid(h, d1, k);
    var found := Find(h, d1, k);
    if found.1.Some? {
      StoreSteps(h, found.0, k, v);
    }
  }

  /** Otherwise every addition, replacement, deletion and search brings the end of the rehash nearer; only
      an addition or a replacement may begin the next one, from what was the new table. */
  lemma EveryOperationSteps<K(!new), V>(h: K -> nat, d: Dict<K, V>, op: Op<K, V>)
    requires Valid(h, d) && d.Rehashing() && d.iterators == 0 && !op.RehashOp? && !op.Iterators?
    ensures var r := Do(h, d, op).0;
            || StepsLeft(r) < StepsLeft(d)
            || (op.AddOp? && !StepIfFree(h, d).Rehashing() && |r.ht0.buckets| == |d.ht1.buckets|)
            || (op.ReplaceOp? && !StepIfFree(h, d).Rehashing())
  {
    hide Valid, Add, Find, Delete, StepIfFree, Store, Replace;
    match op
    case AddOp(k, v, c) => AddSteps(h, d, k, v, c);
    case ReplaceOp(k, v, c) =>
      if StepIfFree(h, d).Rehashing() {
        ReplaceSteps(h, d, k, v, c);
      }
    case DeleteOp(k) => LookUpSteps(h, d, k);
    case FindOp(k) => LookUpSteps(h, d, k);
  }
}
