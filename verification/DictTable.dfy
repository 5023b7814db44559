/**
 The dictionary object of dict.c: two arrays of chains and a cursor, updated in place. Each method
 makes exactly the change that `DictModel`, `DictOps` and `DictIter` define on values.
 */
module DictTable {
  import opened Wrappers
  import opened DictModel
  import opened DictOps
  import Runs = DictRuns
  import I = DictIter

  class Dictionary<K(==, !new), V> {
    const hash: K -> nat
    var ht0: array<Chain<K, V>>
    var ht1: array<Chain<K, V>>
    var used0: int
    var used1: int
    var rehashidx: int
    var iterators: nat
    var nextAddr: nat
    ghost var holders: set<object>

    ghost function View(): Dict<K, V>
      reads this, ht0, ht1
    {
      Dict(Table(ht0[..], used0), Table(ht1[..], used1), rehashidx, iterators, nextAddr)
    }

    /** The two arrays are different objects, and the fields make a valid dictionary. */
    ghost predicate Ok()
      reads this, ht0, ht1
    {
      ht0 != ht1 && Valid(hash, View())
    }

    /** The counter of safe iterators counts those that were used and not yet released. */
    ghost predicate Counted()
      reads this
    {
      iterators == |holders|
    }

    /** The arrays are the old ones or new ones. */
    twostate predicate Arrays()
      reads this
    {
      (ht0 == old(ht0) || ht0 == old(ht1) || fresh(ht0)) && (ht1 == old(ht1) || fresh(ht1))
    }

    constructor (hash: K -> nat)
      ensures Ok() && Counted() && this.hash == hash && View() == Init() && fresh(ht0) && fresh(ht1)
    {
      this.hash := hash;
      ht0, ht1 := new Chain<K, V>[0], new Chain<K, V>[0];
      used0, used1, rehashidx, iterators, nextAddr := 0, 0, -1, 0, 0;
      holders := {};
      new;
      assert View() == Init<K, V>();
    }

    // Rehashing ----------------------------------------------------------------------------------

    /** Moves every entry of a chain, in order, to the head of its bucket in the new table. */
    method MoveChain(c: Chain<K, V>)
      requires ht1.Length > 0 && ht0 != ht1
      modifies this`used0, this`used1, ht1
      ensures Table(ht1[..], used1) == PushAll(hash, old(Table(ht1[..], used1)), c)
      ensures used0 == old(used0) - |c|
    {
      var de := c;
      ghost var goal := PushAll(hash, Table(ht1[..], used1), c);
      while de != []
        invariant PushAll(hash, Table(ht1[..], used1), de) == goal
        invariant used0 == old(used0) - |c| + |de|
        decreases |de|
      {
        ghost var t := Table(ht1[..], used1);
        var i := Slot(hash, de[0].key, ht1.Length);
        ht1[i] := [de[0]] + ht1[i];
        used0 := used0 - 1;
        used1 := used1 + 1;
        assert Table(ht1[..], used1) == Push(hash, t, de[0]);
        de := de[1..];
      }
    }

    /** One step of dictRehash. */
    method RehashOne()
      requires ht0 != ht1 && CanStep(View())
      modifies `ht0, `ht1, `used0, `used1, `rehashidx, `nextAddr, ht0, ht1
      ensures View() == RehashStep(hash, old(View())) && ht0 != ht1 && Arrays()
    {
      if used0 == 0 {
        ht0, used0 := ht1, used1;
        ht1, used1 := new Chain<K, V>[0], 0;
        rehashidx := -1;
        return;
      }
      ghost var d := View();
      while ht0[rehashidx] == []
        invariant 0 <= rehashidx < ht0.Length == |d.ht0.buckets|
        invariant FirstNonEmpty(d.ht0.buckets, d.rehashidx) == FirstNonEmpty(d.ht0.buckets, rehashidx)
        invariant View() == d.(rehashidx := rehashidx)
        decreases ht0.Length - rehashidx
        modifies this`rehashidx
      {
        rehashidx := rehashidx + 1;
      }
      var c := ht0[rehashidx];
      MoveChain(c);
      ht0[rehashidx] := [];
      assert ht0[..] == d.ht0.buckets[rehashidx := []];
      rehashidx := rehashidx + 1;
    }

    /** dictRehash: at most `n` steps; tells whether there is still something to move. */
    method DictRehash(n: nat) returns (more: bool)
      requires Ok()
      modifies `ht0, `ht1, `used0, `used1, `rehashidx, `nextAddr, ht0, ht1
      ensures Ok() && Arrays() && View() == Runs.Rehash(hash, old(View()), n)
      ensures more == (rehashidx != -1)
    {
      hide Valid;
      var left: nat := n;
      while left > 0 && rehashidx != -1
        invariant left <= n && Ok() && Arrays()
        invariant Runs.Rehash(hash, View(), left) == Runs.Rehash(hash, old(View()), n)
        decreases left
      {
        StepValid(hash, View());
        RehashOne();
        left := left - 1;
      }
      more := rehashidx != -1;
    }

    method DictRehashStep()
      requires Ok()
      modifies `ht0, `ht1, `used0, `used1, `rehashidx, `nextAddr, ht0, ht1
      ensures Ok() && Arrays() && View() == StepIfFree(hash, old(View()))
    {
      hide Valid;
      if iterators == 0 && rehashidx != -1 {
        StepValid(hash, View());
        RehashOne();
      }
    }

    // Growing ------------------------------------------------------------------------------------

    static method DictNextPower(size: nat) returns (r: nat)
      ensures r == NextPower(size, INITIAL_SIZE)
    {
      r := INITIAL_SIZE;
      while r < size
        invariant r > 0 && NextPower(size, r) == NextPower(size, INITIAL_SIZE)
        decreases size - r
      {
        r := r * 2;
      }
    }

    method DictExpand(size: nat) returns (ok: bool)
      requires ht0 != ht1
      modifies `ht0, `ht1, `used0, `used1, `rehashidx
      ensures ok == Expand(old(View()), size).Some?
      ensures View() == if ok then Expand(old(View()), size).value else old(View())
      ensures ht0 != ht1 && Arrays()
    {
      var realsize := DictNextPower(size);
      if rehashidx != -1 || used0 > size {
        return false;
      }
      var n := new Chain<K, V>[realsize](_ => []);
      assert n[..] == Allocated<K, V>(realsize).buckets;
      if ht0.Length == 0 {
        ht0, used0 := n, 0;
      } else {
        ht1, used1, rehashidx := n, 0, 0;
      }
      return true;
    }

    method DictExpandIfNeeded(canResize: bool) returns (ok: bool)
      requires ht0 != ht1
      modifies `ht0, `ht1, `used0, `used1, `rehashidx
      ensures ok == ExpandIfNeeded(old(View()), canResize).Some?
      ensures View() == if ok then ExpandIfNeeded(old(View()), canResize).value else old(View())
      ensures ht0 != ht1 && Arrays()
    {
      hide Expand;
      if rehashidx != -1 {
        return true;
      }
      if ht0.Length == 0 {
        ok := DictExpand(INITIAL_SIZE);
        return;
      }
      var larger := if ht0.Length > used0 then ht0.Length else used0;
      if used0 >= ht0.Length && (canResize || used0 / ht0.Length > FORCE_RESIZE_RATIO) {
        ok := DictExpand(larger * 2);
        return;
      }
      return true;
    }

    // Lookup and update --------------------------------------------------------------------------

    static method SearchChain(c: Chain<K, V>, k: K) returns (e: Option<Entry<K, V>>)
      ensures e == FindIn(c, k)
    {
      var he := c;
      while he != []
        invariant FindIn(he, k) == FindIn(c, k)
        decreases |he|
      {
        if he[0].key == k {
          return Some(he[0]);
        }
        he := he[1..];
      }
      return None;
    }

    /** Searches both tables; the second one only during a rehash. */
    method SearchTables(k: K) returns (e: Option<Entry<K, V>>)
      requires Ok() && ht0.Length > 0
      ensures e == DictFind(hash, View(), k)
    {
      e := SearchChain(ht0[Slot(hash, k, ht0.Length)], k);
      if e.Some? || rehashidx == -1 {
        return;
      }
      e := SearchChain(ht1[Slot(hash, k, ht1.Length)], k);
    }

    method InsertEntry(k: K, v: V)
      requires Ok() && ht0.Length > 0
      modifies this`used0, this`used1, this`nextAddr, ht0, ht1
      ensures (if old(View()).Rehashing() then old(View()).ht1.buckets else old(View()).ht0.buckets) != []
      ensures View() == Insert(hash, old(View()), k, v)
    {
      var e := Entry(nextAddr, k, v);
      nextAddr := nextAddr + 1;
      if rehashidx != -1 {
        var i := Slot(hash, k, ht1.Length);
        ht1[i] := [e] + ht1[i];
        used1 := used1 + 1;
      } else {
        var i := Slot(hash, k, ht0.Length);
        ht0[i] := [e] + ht0[i];
        used0 := used0 + 1;
      }
    }

    /** dictAdd: tells whether the key was new. */
    method DictAdd(k: K, v: V, canResize: bool) returns (added: bool)
      requires Ok()
      modifies `ht0, `ht1, `used0, `used1, `rehashidx, `nextAddr, ht0, ht1
      ensures Ok() && Arrays()
      ensures (View(), added) == Add(hash, old(View()), k, v, canResize)
    {
      hide Valid, ExpandIfNeeded, DictFind;
      AddValid(hash, View(), k, v, canResize);
      if rehashidx != -1 {
        DictRehashStep();
      }
      ExpandValid(hash, View(), canResize);
      var ok := DictExpandIfNeeded(canResize);
      if !ok {
        return false;
      }
      var existing := SearchTables(k);
      if existing.Some? {
        return false;
      }
      InsertEntry(k, v);
      return true;
    }

    static lemma StepKeepsTable(h: K -> nat, d: Dict<K, V>)
      requires Valid(h, d)
      ensures d.ht0.buckets != [] ==> StepIfFree(h, d).ht0.buckets != []
    {}

    /** dictFind. */
    method DictFindKey(k: K) returns (e: Option<Entry<K, V>>)
      requires Ok()
      modifies `ht0, `ht1, `used0, `used1, `rehashidx, `nextAddr, ht0, ht1
      ensures Ok() && Arrays() && (View(), e) == Find(hash, old(View()), k)
    {
      hide Valid, DictFind;
      if ht0.Length == 0 {
        return None;
      }
      StepKeepsTable(hash, View());
      if rehashidx != -1 {
        DictRehashStep();
      }
      e := SearchTables(k);
    }

    static method Unlink(c: Chain<K, V>, k: K) returns (r: Chain<K, V>, found: bool)
      ensures r == RemoveFrom(c, k) && found == FindIn(c, k).Some?
    {
      var i := 0;
      while i < |c|
        invariant i <= |c| && FindIn(c, k) == FindIn(c[i..], k)
        invariant RemoveFrom(c, k) == c[..i] + RemoveFrom(c[i..], k)
      {
        if c[i].key == k {
          assert RemoveFrom(c[i..], k) == c[i + 1..];
          return c[..i] + c[i + 1..], true;
        }
        assert c[i..][1..] == c[i + 1..];
        assert c[..i] + ([c[i]] + RemoveFrom(c[i + 1..], k)) == c[..i + 1] + RemoveFrom(c[i + 1..], k);
        i := i + 1;
      }
      return c, false;
    }

    method DeleteFromTables(k: K) returns (deleted: bool)
      requires Ok() && ht0.Length > 0
      modifies this`used0, this`used1, ht0, ht1
      ensures var d := old(View());
              && deleted == (TableFind(hash, d.ht0, k).Some? || TableFind(hash, d.ht1, k).Some?)
              && (TableFind(hash, d.ht1, k).Some? ==> d.ht1.buckets != [])
              && View() == if TableFind(hash, d.ht0, k).Some? then d.(ht0 := RemoveAt(hash, d.ht0, k))
                           else if TableFind(hash, d.ht1, k).Some? then d.(ht1 := RemoveAt(hash, d.ht1, k))
                           else d
    {
      var i := Slot(hash, k, ht0.Length);
      var c, found := Unlink(ht0[i], k);
      if found {
        ht0[i] := c;
        used0 := used0 - 1;
        return true;
      }
      if rehashidx == -1 {
        return false;
      }
      i := Slot(hash, k, ht1.Length);
      c, found := Unlink(ht1[i], k);
      if found {
        ht1[i] := c;
        used1 := used1 - 1;
      }
      return found;
    }

    /** dictGenericDelete: tells whether the key was there. */
    method DictDelete(k: K) returns (deleted: bool)
      requires Ok()
      modifies `ht0, `ht1, `used0, `used1, `rehashidx, `nextAddr, ht0, ht1
      ensures Ok() && Arrays() && (View(), deleted) == Delete(hash, old(View()), k)
    {
      hide Valid;
      DeleteValid(hash, View(), k);
      if ht0.Length == 0 {
        return false;
      }
      StepKeepsTable(hash, View());
      if rehashidx != -1 {
        DictRehashStep();
      }
      deleted := DeleteFromTables(k);
    }

    static method SetVal(c: Chain<K, V>, k: K, v: V) returns (r: Chain<K, V>)
      ensures r == StoreIn(c, k, v)
    {
      var i := 0;
      while i < |c|
        invariant i <= |c| && StoreIn(c, k, v) == c[..i] + StoreIn(c[i..], k, v)
      {
        if c[i].key == k {
          assert StoreIn(c[i..], k, v) == [c[i].(val := v)] + c[i + 1..];
          assert c[..i] + ([c[i].(val := v)] + c[i + 1..]) == c[i := c[i].(val := v)];
          return c[i := c[i].(val := v)];
        }
        assert c[i..][1..] == c[i + 1..];
        assert c[..i] + ([c[i]] + StoreIn(c[i + 1..], k, v)) == c[..i + 1] + StoreIn(c[i + 1..], k, v);
        i := i + 1;
      }
      return c;
    }

    method StoreValue(k: K, v: V)
      requires Ok() && DictFind(hash, View(), k).Some?
      modifies ht0, ht1
      ensures View() == Store(hash, old(View()), k, v)
    {
      ghost var d := View();
      if ht0.Length > 0 {
        var i := Slot(hash, k, ht0.Length);
        var e := SearchChain(ht0[i], k);
        if e.Some? {
          var c := SetVal(ht0[i], k, v);
          ht0[i] := c;
          return;
        }
      }
      var i := Slot(hash, k, ht1.Length);
      var c := SetVal(ht1[i], k, v);
      ht1[i] := c;
    }

    /** dictReplace: tells whether the key was new. */
    method DictReplace(k: K, v: V, canResize: bool) returns (added: bool)
      requires Ok()
      modifies `ht0, `ht1, `used0, `used1, `rehashidx, `nextAddr, ht0, ht1
      ensures Ok() && Arrays()
      ensures (View(), added) == Replace(hash, old(View()), k, v, canResize)
    {
      hide Valid, Add, Find, Store;
      AddValid(hash, View(), k, v, canResize);
      added := DictAdd(k, v, canResize);
      if added {
        return;
      }
      ghost var d := View();
      var entry := DictFindKey(k);
      FoundHere(hash, d, k);
      if entry.Some? {
        StoreValid(hash, View(), k, v);
        StoreValue(k, v);
      }
    }
  }

  // Iterators ------------------------------------------------------------------------------------

  /** A safe iterator: its position, and the saved pointers to the current and the next entry. */
  class Iterator<K(==, !new), V> {
    const d: Dictionary<K, V>
    var table: nat
    var index: int
    var entry: Option<nat>
    var nextEntry: Option<nat>

    ghost function Position(): I.Iter
      reads this
    {
      I.Iter(table, index, entry, nextEntry)
    }

    predicate Used()
      reads this
    {
      !(index == -1 && table == 0)
    }

    /** A used iterator is among those that its dictionary counts. */
    ghost predicate Enrolled()
      reads this, d
    {
      && d.Counted() && (this in d.holders <==> Used())
      && index >= -1 && (entry.Some? ==> index >= 0)
    }

    constructor (d: Dictionary<K, V>)
      requires d.Counted()
      ensures this.d == d && Position() == I.NEW_ITER && Enrolled()
    {
      this.d, table, index, entry, nextEntry := d, 0, -1, None, None;
    }

    static method From(c: Chain<K, V>, a: nat) returns (r: Chain<K, V>)
      ensures r == I.Suffix(c, a)
    {
      r := c;
      while r != [] && r[0].addr != a
        invariant I.Suffix(r, a) == I.Suffix(c, a)
        decreases |r|
      {
        r := r[1..];
      }
    }

    method CurrentChain() returns (c: Chain<K, V>)
      ensures c == I.ChainAt(d.View(), Position())
    {
      c := [];
      if table == 0 && 0 <= index < d.ht0.Length {
        c := d.ht0[index];
      } else if table != 0 && 0 <= index < d.ht1.Length {
        c := d.ht1[index];
      }
    }

    static lemma SuffixStarts(view: Dict<K, V>, it: I.Iter)
      ensures it.next.Some? ==>
                (var c := I.Suffix(I.ChainAt(view, it), it.next.value); c != [] ==> c[0].addr == it.next.value)
    {
      if it.next.Some? {
        I.SuffixHead(I.ChainAt(view, it), it.next.value);
      }
    }

    static lemma LeftIgnoresEntry(view: Dict<K, V>, it: I.Iter)
      ensures I.Left(view, it.(entry := None, next := None)) == I.Left(view, it)
    {}

    static lemma NextFromChain(view: Dict<K, V>, it: I.Iter, c: Chain<K, V>)
      requires it.entry.Some? ==> c == if it.next.Some? then I.Suffix(I.ChainAt(view, it), it.next.value) else []
      requires it.entry.None? ==> c == I.ChainAt(view, it)
      ensures var goal := if it.entry.Some? then I.Next(view, it) else I.Visit(view, it);
              && (c == [] ==> goal == I.Next(view, it.(entry := None, next := None)))
              && (c != [] ==> goal == (it.(entry := Some(c[0].addr), next := I.Head(c[1..])), Some(c[0])))
    {
      hide I.Suffix;
      SuffixStarts(view, it);
    }

    /** The next bucket, unless the buckets of both tables are all behind. */
    method NextBucket() returns (done: bool)
      requires entry.None?
      modifies this
      ensures entry.None?
      ensures done ==> (Position(), None) == I.Next(d.View(), old(Position()))
      ensures !done ==> I.Visit(d.View(), Position()) == I.Next(d.View(), old(Position()))
      ensures !done ==> I.Left(d.View(), Position()) < I.Left(d.View(), old(Position()))
    {
      index := index + 1;
      if index >= (if table == 0 then d.ht0.Length else d.ht1.Length) {
        if d.rehashidx != -1 && table == 0 {
          table, index, nextEntry := 1, 0, None;
        } else {
          return true;
        }
      }
      done := false;
    }

    /** One round of the loop of dictNext: `done` when it returns. */
    method NextRound() returns (done: bool, e: Option<Entry<K, V>>)
      modifies this
      ensures var view := d.View();
              && (done ==> (Position(), e) == I.Next(view, old(Position())))
              && (!done ==> I.Next(view, Position()) == I.Next(view, old(Position())))
              && (!done ==> I.Left(view, Position()) < I.Left(view, old(Position()))
                            || (I.Left(view, Position()) == I.Left(view, old(Position())) && old(entry.Some?)))
              && (!done ==> entry.None?)
    {
      hide I.Suffix, I.Next, I.Visit, I.ChainAt, I.Left;
      var c: Chain<K, V> := [];
      if entry.None? {
        var last := NextBucket();
        if last {
          return true, None;
        }
        c := CurrentChain();
      } else if nextEntry.Some? {
        var bucket := CurrentChain();
        c := From(bucket, nextEntry.value);
      }
      NextFromChain(d.View(), Position(), c);
      if c != [] {
        // save the next entry: the user of the iterator may delete the one that is returned
        entry, nextEntry := Some(c[0].addr), if |c| > 1 then Some(c[1].addr) else None;
        return true, Some(c[0]);
      }
      LeftIgnoresEntry(d.View(), Position());
      entry, nextEntry := None, None;
      return false, None;
    }

    /** What dictNext does depends on the tables, not on the number of iterators. */
    static lemma {:induction false} NextIgnoresCount(view: Dict<K, V>, n: nat, it: I.Iter)
      ensures I.Next(view.(iterators := n), it) == I.Next(view, it)
      decreases I.Left(view, it), if it.entry.Some? then 1 else 0
    {
      if it.entry.None? {
        var i := it.index + 1;
        if i >= |I.TableOf(view, it.table).buckets| {
          if view.Rehashing() && it.table == 0 {
            VisitIgnoresCount(view, n, I.Iter(1, 0, None, None));
          }
        } else {
          VisitIgnoresCount(view, n, it.(index := i));
        }
      } else {
        NextIgnoresCount(view, n, it.(entry := None, next := None));
      }
    }

    static lemma {:induction false} NextStarts(view: Dict<K, V>, it: I.Iter)
      requires it.index >= -1 && (it.entry.Some? ==> it.index >= 0)
      ensures var r := I.Next(view, it).0; r.index >= 0
      decreases I.Left(view, it), if it.entry.Some? then 1 else 0
    {
      if it.entry.None? {
        var i := it.index + 1;
        if i >= |I.TableOf(view, it.table).buckets| {
          if view.Rehashing() && it.table == 0 {
            VisitStarts(view, I.Iter(1, 0, None, None));
          }
        } else {
          VisitStarts(view, it.(index := i));
        }
      } else {
        NextStarts(view, it.(entry := None, next := None));
      }
    }

    /** dictNext. The first call registers the iterator with the dictionary. */
    method DictNext() returns (e: Option<Entry<K, V>>)
      requires Enrolled()
      modifies this, d`iterators, d`holders
      ensures (Position(), e) == I.Next(old(d.View()), old(Position()))
      ensures d.iterators == old(d.iterators) + (if old(Used()) then 0 else 1)
      ensures Enrolled() && Used() && d.holders == old(d.holders) + {this}
    {
      NextIgnoresCount(d.View(), d.iterators + 1, Position());
      NextStarts(d.View(), Position());
      ghost var goal := I.Next(d.View(), Position());
      if entry.None? && index == -1 && table == 0 {
        d.iterators := d.iterators + 1;
        d.holders := d.holders + {this};
      }
      ghost var view := d.View();
      var done := false;
      e := None;
      while !done
        invariant d.View() == view
        invariant done ==> (Position(), e) == goal
        invariant !done ==> I.Next(view, Position()) == goal
        decreases !done, I.Left(view, Position()), if entry.Some? then 1 else 0
        modifies this
      {
        done, e := NextRound();
      }
    }

    static lemma {:induction false} VisitIgnoresCount(view: Dict<K, V>, n: nat, it: I.Iter)
      ensures I.Visit(view.(iterators := n), it) == I.Visit(view, it)
      decreases I.Left(view, it), 1
    {
      NextIgnoresCount(view, n, it.(entry := None, next := None));
    }

    static lemma VisitStarts(view: Dict<K, V>, it: I.Iter)
      requires it.index >= 0
      ensures I.Visit(view, it).0.index >= 0
      decreases I.Left(view, it), 1
    {
      NextStarts(view, it.(entry := None, next := None));
    }

    /** dictReleaseIterator, for an iterator that is not used afterwards: a used one is counted, so that
        the counter does not fall below zero. */
    method Release()
      requires Enrolled()
      modifies d`iterators, d`holders
      ensures d.iterators == old(d.iterators) - (if Used() then 1 else 0)
      ensures d.Counted() && d.holders == old(d.holders) - {this}
    {
      if !(index == -1 && table == 0) {
        assert |d.holders - {this}| == |d.holders| - 1;
        d.iterators := d.iterators - 1;
        d.holders := d.holders - {this};
      }
    }
  }
}
