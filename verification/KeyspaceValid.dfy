/** What every command, and every key that expires, leaves valid. */
module KeyspaceValid {
  import opened Bytes
  import opened Keyspace

  // Validity of the keyspace ---------------------------------------------------------------------

  lemma {:induction false} DeleteAllValid(db: Db, ks: seq<bytes>)
    requires DbValid(db)
    ensures DbValid(DeleteAll(db, ks))
    decreases |ks|
  {
    if ks != [] {
      DeleteAllValid(DbDelete(db, ks[0]), ks[1..]);
    }
  }

  lemma PairsNonEmpty(args: seq<bytes>)
    requires |args| % 2 == 0 && args != []
    ensures Pairs(args) != map[]
  {
    assert args[|args| - 2] in Pairs(args);
  }

  lemma FieldsValid(c: Command, db: Db, now: int)
    requires c.HMSet? && DbValid(db)
    ensures DbValid(DbBody(c, db, Clock(now, false)).data)
  {
    var k, args := c.key, c.args;
    if args != [] && |args| % 2 == 0 {
      PairsNonEmpty(args);
      var f := args[|args| - 2];
      assert f in Pairs(args);
      if k in db.dict && db.dict[k].Hash? {
        assert f in db.dict[k].fields + Pairs(args);
      }
    }
  }

  lemma DbBodyValid(c: Command, db: Db, now: int)
    requires DbValid(db) && now >= 0
    ensures DbValid(DbBody(c, db, Clock(now, false)).data)
  {
    if c.Del? {
      DeleteAllValid(db, c.keys);
    } else if c.SAdd? {
      if c.items != [] {
        assert c.items[0] in ToSet(c.items);
      }
    } else if c.HMSet? {
      FieldsValid(c, db, now);
    }
  }

  lemma BodyValid(c: Command, dbs: seq<Db>, sel: nat, now: int)
    requires sel < |dbs| && AllValid(dbs) && now >= 0
    ensures AllValid(Body(c, dbs, sel, Clock(now, false)).data)
  {
    hide DbBody;
    if c.Move? {
      if 0 <= c.db < |dbs| && c.db != sel && c.key in dbs[sel].dict {
        assert DbValid(dbs[sel]) && DbValid(dbs[c.db]);
      }
    } else {
      DbBodyValid(c, dbs[sel], now);
    }
  }

  // Expired keys ---------------------------------------------------------------------------------

  predicate InRange(xs: seq<Expiry>, n: nat) {
    forall x :: x in xs ==> x.db < n
  }

  function ApplyExpiries(dbs: seq<Db>, xs: seq<Expiry>): (r: seq<Db>)
    requires InRange(xs, |dbs|)
    ensures |r| == |dbs|
    decreases |xs|
  {
    if xs == [] then dbs
    else
      var x := xs[0];
      ApplyExpiries(dbs[x.db := DbDelete(dbs[x.db], x.key)], xs[1..])
  }

  lemma LookUpExpires(c: Command, dbs: seq<Db>, sel: nat, now: int)
    requires sel < |dbs|
    ensures var r := LookUp(c, dbs, sel, Clock(now, false));
            InRange(r.1, |dbs|) && ApplyExpiries(dbs, r.1) == r.0 && |r.1| <= 1
  {
    var r := LookUp(c, dbs, sel, Clock(now, false));
    if |r.1| == 1 {
      assert r.1[1..] == [];
    }
  }

  lemma {:induction false} ApplyExpiriesValid(dbs: seq<Db>, xs: seq<Expiry>)
    requires InRange(xs, |dbs|) && AllValid(dbs)
    ensures AllValid(ApplyExpiries(dbs, xs))
    decreases |xs|
  {
    if xs != [] {
      var x := xs[0];
      assert DbValid(dbs[x.db]);
      ApplyExpiriesValid(dbs[x.db := DbDelete(dbs[x.db], x.key)], xs[1..]);
    }
  }
}
