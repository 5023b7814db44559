/** Whole runs of a dictionary: it stays a map, its sizes stay powers of two, and a rehash ends. */
module DictRuns {
  import opened Wrappers
  import opened DictModel
  import opened DictOps
  import Arith

  // Sizes ----------------------------------------------------------------------------------------

  /** 4, 8, 16, ... */
  predicate IsTableSize(n: nat) {
    n == INITIAL_SIZE || (n > INITIAL_SIZE && n % 2 == 0 && IsTableSize(n / 2))
  }

  lemma {:induction false} NextPowerIsSize(size: nat, from: nat)
    requires IsTableSize(from)
    ensures IsTableSize(NextPower(size, from))
    decreases size - from
  {
    if from < size {
      assert 2 * from / 2 == from;
      NextPowerIsSize(size, 2 * from);
    }
  }

  lemma {:induction false} SizesDouble(m: nat, n: nat)
    requires IsTableSize(m) && IsTableSize(n) && m < n
    ensures 2 * m <= n
    decreases n
  {
    if m > INITIAL_SIZE && n > INITIAL_SIZE {
      SizesDouble(m / 2, n / 2);
    } else if n / 2 > INITIAL_SIZE {
      SizesDouble(m, n / 2);
    }
  }

  /** The least table size that is enough. */
  lemma {:induction false} NextPowerIsLeast(size: nat, from: nat, n: nat)
    requires IsTableSize(from) && IsTableSize(n) && n >= from && n >= size
    ensures NextPower(size, from) <= n
    decreases size - from
  {
    if from < size {
      SizesDouble(from, n);
      assert 2 * from / 2 == from;
      NextPowerIsLeast(size, 2 * from, n);
    }
  }

  ghost predicate SizesOk<K, V>(d: Dict<K, V>) {
    && (d.ht0.buckets == [] || IsTableSize(|d.ht0.buckets|))
    && (d.ht1.buckets == [] || IsTableSize(|d.ht1.buckets|))
  }

  lemma StepSizes<K(!new), V>(h: K -> nat, d: Dict<K, V>)
    requires Valid(h, d) && SizesOk(d)
    ensures SizesOk(StepIfFree(h, d))
  {
    if d.Rehashing() && d.iterators == 0 {
      ScanStops(h, d);
    }
  }

  lemma ExpandSizes<K, V>(d: Dict<K, V>, canResize: bool)
    requires SizesOk(d)
    ensures ExpandIfNeeded(d, canResize).Some? ==> SizesOk(ExpandIfNeeded(d, canResize).value)
  {
    forall size: nat ensures IsTableSize(NextPower(size, INITIAL_SIZE)) {
      NextPowerIsSize(size, INITIAL_SIZE);
    }
  }

  /** Additions only ever allocate tables of such sizes. */
  lemma AddSizes<K(!new), V>(h: K -> nat, d: Dict<K, V>, k: K, v: V, canResize: bool)
    requires Valid(h, d) && SizesOk(d)
    ensures SizesOk(Add(h, d, k, v, canResize).0)
  {
    hide IsTableSize, DictFind, Valid;
    StepSizes(h, d);
    var d1 := StepIfFree(h, d);
    ExpandValid(h, d1, canResize);
    ExpandSizes(d1, canResize);
  }

  /** Bitwise and of two numbers. */
  function BitAnd(a: nat, b: nat): nat
    decreases a
  {
    if a == 0 || b == 0 then 0 else 2 * BitAnd(a / 2, b / 2) + a % 2 * (b % 2)
  }

  lemma {:induction false} MaskLow(h: nat, n: nat, size: nat)
    requires size == INITIAL_SIZE && n == size - 1
    ensures BitAnd(h, n) == h % size
  {
    assert BitAnd(h / 2 / 2, 0) == 0;
    assert BitAnd(h / 2, 1) == h / 2 % 2;
    assert BitAnd(h, 3) == 2 * (h / 2 % 2) + h % 2;
  }

  lemma HalfRemainder(h: nat, m: nat)
    requires m > 0
    ensures h % (2 * m) == 2 * (h / 2 % m) + h % 2
  {
    var q, r := h / 2 / m, h / 2 % m;
    assert h / 2 == m * q + r;
    assert h == 2 * (h / 2) + h % 2;
    assert h == (2 * m) * q + (2 * r + h % 2);
    Arith.RemainderUnique(h, 2 * m, q, 2 * r + h % 2);
  }

  /** For every table size, masking a hash value with size - 1 is taking its remainder. */
  lemma {:induction false} MaskIsRemainder(h: nat, size: nat)
    requires IsTableSize(size)
    ensures BitAnd(h, size - 1) == h % size
    decreases size
  {
    if size == INITIAL_SIZE {
      MaskLow(h, size - 1, size);
    } else {
      MaskIsRemainder(h / 2, size / 2);
      assert (size - 1) / 2 == size / 2 - 1 && (size - 1) % 2 == 1;
      HalfRemainder(h, size / 2);
    }
  }

  // Rehash progress ------------------------------------------------------------------------------

  /** The number of steps that a rehash can still take. */
  function StepsLeft<K, V>(d: Dict<K, V>): int {
    if d.Rehashing() then |d.ht0.buckets| - d.rehashidx + 1 else 0
  }

  lemma StepProgress<K(!new), V>(h: K -> nat, d: Dict<K, V>)
    requires Valid(h, d) && d.Rehashing()
    ensures CanStep(d) && 0 <= StepsLeft(RehashStep(h, d)) < StepsLeft(d)
    ensures RehashStep(h, d).Rehashing() ==> |RehashStep(h, d).ht1.buckets| == |d.ht1.buckets|
    ensures !RehashStep(h, d).Rehashing() ==> |RehashStep(h, d).ht0.buckets| == |d.ht1.buckets|
    ensures RehashStep(h, d).iterators == d.iterators
  {
    ScanStops(h, d);
  }

  /** dictRehash: up to `n` steps. */
  ghost function Rehash<K(!new), V>(h: K -> nat, d: Dict<K, V>, n: nat): Dict<K, V>
    requires Valid(h, d)
    decreases n
  {
    if n == 0 || !d.Rehashing() then d
    else
      StepValid(h, d);
      Rehash(h, RehashStep(h, d), n - 1)
  }

  lemma StepsLeftPositive<K(!new), V>(h: K -> nat, d: Dict<K, V>)
    requires Valid(h, d)
    ensures d.Rehashing() <==> StepsLeft(d) > 0
  {}

  /** A rehash over a table of s buckets ends within s + 1 steps. */
  lemma {:induction false} RehashEnds<K(!new), V>(h: K -> nat, d: Dict<K, V>, n: nat)
    requires Valid(h, d) && n >= StepsLeft(d)
    ensures !Rehash(h, d, n).Rehashing() && Valid(h, Rehash(h, d, n)) && Size(Rehash(h, d, n)) == Size(d)
    ensures forall k :: DictFind(h, Rehash(h, d, n), k) == DictFind(h, d, k)
    decreases n
  {
    hide Valid, DictFind, CanStep, RehashStep;
    if n > 0 && d.Rehashing() {
      StepValid(h, d);
      StepProgress(h, d);
      RehashEnds(h, RehashStep(h, d), n - 1);
    } else {
      StepsLeftPositive(h, d);
    }
  }

  datatype Pair<K, V> = Pair(key: K, val: V, canResize: bool)

  ghost function AddAll<K(!new), V>(h: K -> nat, d: Dict<K, V>, ps: seq<Pair<K, V>>): (r: Dict<K, V>)
    requires Valid(h, d)
    ensures Valid(h, r)
    decreases |ps|
  {
    if ps == [] then d
    else
      AddValid(h, d, ps[0].key, ps[0].val, ps[0].canResize);
      AddAll(h, Add(h, d, ps[0].key, ps[0].val, ps[0].canResize).0, ps[1..])
  }

  lemma AddWhileRehashing<K(!new), V>(h: K -> nat, d: Dict<K, V>, p: Pair<K, V>)
    requires Valid(h, d) && StepIfFree(h, d).Rehashing()
    ensures var r := Add(h, d, p.key, p.val, p.canResize).0;
            && Valid(h, r) && r.Rehashing() && r.iterators == d.iterators
            && Size(r) <= Size(d) + 1
            && StepsLeft(r) == StepsLeft(StepIfFree(h, d))
            && |r.ht1.buckets| == |StepIfFree(h, d).ht1.buckets|
  {
    hide TableOk, TableFind, Addressed;
    AddValid(h, d, p.key, p.val, p.canResize);
  }

  /** Additions alone, without safe iterators, finish a rehash: among any StepsLeft(d) additions there
      is one whose step ends it, and until then each has added at most one entry. */
  lemma {:induction false} AddsEndRehash<K(!new), V>(h: K -> nat, d: Dict<K, V>, ps: seq<Pair<K, V>>)
    returns (j: nat)
    requires Valid(h, d) && d.Rehashing() && d.iterators == 0 && |ps| == StepsLeft(d)
    ensures j < |ps|
    ensures var e := StepIfFree(h, AddAll(h, d, ps[..j]));
            !e.Rehashing() && Size(e) <= Size(d) + j && |e.ht0.buckets| == |d.ht1.buckets|
    decreases |ps|
  {
    hide Valid, Add, DictFind;
    StepsLeftPositive(h, d);
    StepProgress(h, d);
    var d1 := StepIfFree(h, d);
    if !d1.Rehashing() {
      j := 0;
      assert ps[..0] == [];
    } else {
      var p := ps[0];
      AddWhileRehashing(h, d, p);
      var r := Add(h, d, p.key, p.val, p.canResize).0;
      var fewer := ps[1..][..StepsLeft(r)];
      var i := AddsEndRehash(h, r, fewer);
      j := i + 1;
      assert fewer[..i] == ps[1..][..i];
      assert ps[..j][1..] == ps[1..][..i];
      assert AddAll(h, d, ps[..j]) == AddAll(h, r, ps[1..][..i]);
    }
  }

  /** A growth rehash, begun by the addition of a key to n entries in s buckets: it ends within s + 1
      further additions, when there are at most n + s + 1 entries, which is at most one more than the
      new table has buckets. */
  lemma GrowthBounded<K(!new), V>(h: K -> nat, d: Dict<K, V>, p: Pair<K, V>, ps: seq<Pair<K, V>>)
    returns (j: nat)
    requires Valid(h, d) && !d.Rehashing() && d.iterators == 0
    requires Add(h, d, p.key, p.val, p.canResize).0.Rehashing()
    requires |ps| == |d.ht0.buckets| + 1
    ensures Valid(h, Add(h, d, p.key, p.val, p.canResize).0)
    ensures j < |ps|
    ensures var e := StepIfFree(h, AddAll(h, Add(h, d, p.key, p.val, p.canResize).0, ps[..j]));
            && !e.Rehashing() && Size(e) <= Size(d) + |d.ht0.buckets| + 1
            && Size(e) <= |e.ht0.buckets| + 1
  {
    hide Addressed, Disjoint;
    AddValid(h, d, p.key, p.val, p.canResize);
    var r := Add(h, d, p.key, p.val, p.canResize).0;
    j := AddsEndRehash(h, r, ps);
  }

  // Runs from the empty dictionary ---------------------------------------------------------------

  datatype Op<K, V> =
    | AddOp(key: K, val: V, canResize: bool)
    | ReplaceOp(key: K, val: V, canResize: bool)
    | DeleteOp(key: K)
    | FindOp(key: K)
    | RehashOp(steps: nat)
    | Iterators(n: nat)

  /** What an operation tells its caller: whether the key was added, replaced or deleted, or the value
      that was found. */
  datatype Answer<V> = Flag(b: bool) | Found(v: Option<V>) | Nothing

  ghost function Do<K(!new), V>(h: K -> nat, d: Dict<K, V>, op: Op<K, V>): (Dict<K, V>, Answer<V>)
    requires Valid(h, d)
  {
    match op
    case AddOp(k, v, c) => (Add(h, d, k, v, c).0, Flag(Add(h, d, k, v, c).1))
    case ReplaceOp(k, v, c) => (Replace(h, d, k, v, c).0, Flag(Replace(h, d, k, v, c).1))
    case DeleteOp(k) => (Delete(h, d, k).0, Flag(Delete(h, d, k).1))
    case FindOp(k) =>
      var f := Find(h, d, k);
      (f.0, Found(if f.1.Some? then Some(f.1.value.val) else None))
    case RehashOp(n) => (Rehash(h, d, n), Nothing)
    case Iterators(n) => (d.(iterators := n), Nothing)
  }

  /** The same operation on a map. */
  function OnMap<K(==), V>(m: map<K, V>, op: Op<K, V>): (map<K, V>, Answer<V>) {
    match op
    case AddOp(k, v, _) => if k in m then (m, Flag(false)) else (m[k := v], Flag(true))
    case ReplaceOp(k, v, _) => (m[k := v], Flag(k !in m))
    case DeleteOp(k) => (m - {k}, Flag(k in m))
    case FindOp(k) => (m, Found(if k in m then Some(m[k]) else None))
    case _ => (m, Nothing)
  }

  lemma RepresentsValid<K(!new), V>(h: K -> nat, d: Dict<K, V>, m: map<K, V>)
    requires Represents(h, d, m)
    ensures Valid(h, d) && Size(d) == |m|
  {}

  lemma {:induction false} RehashRepresents<K(!new), V>(h: K -> nat, d: Dict<K, V>, m: map<K, V>, n: nat)
    requires Represents(h, d, m)
    ensures Represents(h, Rehash(h, d, n), m)
    decreases n
  {
    hide Represents, RehashStep;
    RepresentsValid(h, d, m);
    if n > 0 && d.Rehashing() {
      RehashRefines(h, d, m);
      RepresentsValid(h, RehashStep(h, d), m);
      RehashRepresents(h, RehashStep(h, d), m, n - 1);
    }
  }

  lemma IteratorsRepresent<K(!new), V>(h: K -> nat, d: Dict<K, V>, m: map<K, V>, n: nat)
    requires Represents(h, d, m)
    ensures Represents(h, d.(iterators := n), m)
  {
    assert forall k :: DictFind(h, d.(iterators := n), k) == DictFind(h, d, k);
  }

  lemma DoRefines<K(!new), V>(h: K -> nat, d: Dict<K, V>, m: map<K, V>, op: Op<K, V>)
    requires Represents(h, d, m)
    ensures Valid(h, d) && Represents(h, Do(h, d, op).0, OnMap(m, op).0) && Do(h, d, op).1 == OnMap(m, op).1
  {
    RepresentsValid(h, d, m);
    hide Represents, Add, Replace, Delete, Find, Rehash;
    match op
    case AddOp(k, v, c) => AddRefines(h, d, m, k, v, c);
    case ReplaceOp(k, v, c) => ReplaceRefines(h, d, m, k, v, c);
    case DeleteOp(k) => DeleteRefines(h, d, m, k);
    case FindOp(k) => FindRefines(h, d, m, k);
    case RehashOp(n) => RehashRepresents(h, d, m, n);
    case Iterators(n) => IteratorsRepresent(h, d, m, n);
  }

  ghost predicate Answers<K(!new), V>(h: K -> nat, d: Dict<K, V>, m: map<K, V>, ops: seq<Op<K, V>>)
    decreases |ops|
  {
    Represents(h, d, m) &&
    (ops == [] ||
     (Valid(h, d) && Do(h, d, ops[0]).1 == OnMap(m, ops[0]).1 &&
      Answers(h, Do(h, d, ops[0]).0, OnMap(m, ops[0]).0, ops[1..])))
  }

  /** In every run, whatever rehash steps the operations take on the way, the two tables represent one
      map at every point, and every operation answers exactly as the map does. */
  lemma {:induction false} BehavesLikeMap<K(!new), V>(h: K -> nat, d: Dict<K, V>, m: map<K, V>, ops: seq<Op<K, V>>)
    requires Represents(h, d, m)
    ensures Answers(h, d, m, ops)
    decreases |ops|
  {
    hide Represents, Do;
    if ops != [] {
      DoRefines(h, d, m, ops[0]);
      BehavesLikeMap(h, Do(h, d, ops[0]).0, OnMap(m, ops[0]).0, ops[1..]);
    }
  }

  // Masks --------------------------------------------------------------------------------------

  lemma RehashStepSizes<K(!new), V>(h: K -> nat, d: Dict<K, V>)
    requires Valid(h, d) && d.Rehashing() && SizesOk(d)
    ensures CanStep(d) && SizesOk(RehashStep(h, d))
  {
    hide IsTableSize;
    ScanStops(h, d);
  }

  lemma {:induction false} RehashSizes<K(!new), V>(h: K -> nat, d: Dict<K, V>, n: nat)
    requires Valid(h, d) && SizesOk(d)
    ensures SizesOk(Rehash(h, d, n))
    decreases n
  {
    hide Valid, RehashStep, SizesOk;
    if n > 0 && d.Rehashing() {
      StepValid(h, d);
      RehashStepSizes(h, d);
      RehashSizes(h, RehashStep(h, d), n - 1);
    }
  }

  lemma ReplaceSizes<K(!new), V>(h: K -> nat, d: Dict<K, V>, k: K, v: V, canResize: bool)
    requires Valid(h, d) && SizesOk(d)
    ensures SizesOk(Replace(h, d, k, v, canResize).0)
  {
    hide IsTableSize, DictFind, Valid, Add;
    AddSizes(h, d, k, v, canResize);
    AddValid(h, d, k, v, canResize);
    StepSizes(h, Add(h, d, k, v, canResize).0);
  }

  lemma DeleteSizes<K(!new), V>(h: K -> nat, d: Dict<K, V>, k: K)
    requires Valid(h, d) && SizesOk(d)
    ensures SizesOk(Delete(h, d, k).0)
  {
    hide IsTableSize, Valid, StepIfFree;
    StepSizes(h, d);
  }

  lemma DoSizes<K(!new), V>(h: K -> nat, d: Dict<K, V>, op: Op<K, V>)
    requires Valid(h, d) && SizesOk(d)
    ensures SizesOk(Do(h, d, op).0)
  {
    hide Valid, Add, Replace, Delete, Rehash, IsTableSize;
    match op
    case AddOp(k, v, c) => AddSizes(h, d, k, v, c);
    case ReplaceOp(k, v, c) => ReplaceSizes(h, d, k, v, c);
    case DeleteOp(k) => DeleteSizes(h, d, k);
    case FindOp(k) => StepSizes(h, d);
    case RehashOp(n) => RehashSizes(h, d, n);
    case Iterators(n) =>
  }

  ghost predicate TableMasked<K(!new), V>(h: K -> nat, t: Table<K, V>) {
    t.buckets != [] ==> forall k :: BitAnd(h(k), |t.buckets| - 1) == Slot(h, k, |t.buckets|)
  }

  /** In both tables, masking a hash value gives the bucket. */
  ghost predicate Masked<K(!new), V>(h: K -> nat, d: Dict<K, V>) {
    TableMasked(h, d.ht0) && TableMasked(h, d.ht1)
  }

  ghost predicate AlwaysMasked<K(!new), V>(h: K -> nat, d: Dict<K, V>, ops: seq<Op<K, V>>)
    decreases |ops|
  {
    Masked(h, d) && (ops == [] || (Valid(h, d) && AlwaysMasked(h, Do(h, d, ops[0]).0, ops[1..])))
  }

  lemma SizesMask<K(!new), V>(h: K -> nat, d: Dict<K, V>)
    requires SizesOk(d)
    ensures Masked(h, d)
  {
    hide IsTableSize, BitAnd;
    forall k: K
      ensures d.ht0.buckets != [] ==> BitAnd(h(k), |d.ht0.buckets| - 1) == Slot(h, k, |d.ht0.buckets|)
      ensures d.ht1.buckets != [] ==> BitAnd(h(k), |d.ht1.buckets| - 1) == Slot(h, k, |d.ht1.buckets|)
    {
      if d.ht0.buckets != [] {
        MaskIsRemainder(h(k), |d.ht0.buckets|);
      }
      if d.ht1.buckets != [] {
        MaskIsRemainder(h(k), |d.ht1.buckets|);
      }
    }
  }

  lemma InitSizes<K, V>()
    ensures SizesOk(Init<K, V>())
  {}

  /** In every run from a dictionary with such sizes, as a new one is, the sizes stay such that masking
      gives the bucket. */
  lemma {:induction false} MaskedThroughout<K(!new), V>(h: K -> nat, d: Dict<K, V>, m: map<K, V>, ops: seq<Op<K, V>>)
    requires Represents(h, d, m) && SizesOk(d)
    ensures AlwaysMasked(h, d, ops) && SizesOk(Init<K, V>())
    decreases |ops|
  {
    hide Represents, Do, Masked, SizesOk;
    SizesMask(h, d);
    InitSizes<K, V>();
    if ops != [] {
      DoRefines(h, d, m, ops[0]);
      DoSizes(h, d, ops[0]);
      MaskedThroughout(h, Do(h, d, ops[0]).0, OnMap(m, ops[0]).0, ops[1..]);
    }
  }
}
