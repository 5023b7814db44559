/**
 What each step of a server with an append only log does to the keyspace and to the file on disk, and when
 the file alone is enough to start again.
 */
module AofLaws {
  import opened Bytes
  import opened Wrappers
  import opened Keyspace
  import opened AofReplay
  import opened AofRun
  import opened AofRewrite
  import opened AofMachine
  import L = KeyspaceLaws

  // The keyspace ---------------------------------------------------------------------------------

  /** A command has the effect that it has without a log. */
  lemma CallLaw(s: State, sel: nat, c: Timed)
    requires Enabled(s, Step.Call(sel, c))
    ensures Next(s, Step.Call(sel, c)).dbs == Execute(c.cmd, s.dbs, sel, Clock(c.now, false)).data
  {
    hide LookUp, Body, FeedExpiries, Feed;
  }

  /** Background expiry takes a key whose time has passed, and no other. */
  lemma ActiveExpireLaw(s: State, id: nat, k: bytes, now: int, i: nat, q: bytes)
    requires AllValid(s.dbs) && Enabled(s, ActiveExpire(id, k, now))
    ensures L.Over(s.dbs, id, k, Clock(now, false))
    ensures L.At(Next(s, ActiveExpire(id, k, now)).dbs, i, q)
         == if i == id && q == k then None else L.At(s.dbs, i, q)
  {
    hide FeedExpiries;
    L.ExpiredExactly(s.dbs, id, k, Clock(now, false));
  }

  predicate Turn(c: Timed, dbs: seq<Db>, sel: nat, dbs': seq<Db>, sel': nat) {
    && sel < |dbs| && dbs' == Execute(c.cmd, dbs, sel, Clock(c.now, false)).data
    && sel' == Selected(c.cmd, sel, |dbs|)
  }

  /** The commands of a transaction, one after the other. */
  ghost predicate InTurn(cs: seq<Timed>, dbsAt: seq<seq<Db>>, selAt: seq<nat>) {
    && |dbsAt| == |selAt| == |cs| + 1
    && forall i :: 0 <= i < |cs| ==> Turn(cs[i], dbsAt[i], selAt[i], dbsAt[i + 1], selAt[i + 1])
  }

  lemma {:induction false} AllInTurn(cs: seq<Timed>, r: Run) returns (dbsAt: seq<seq<Db>>, selAt: seq<nat>)
    requires r.sel < |r.dbs|
    ensures InTurn(cs, dbsAt, selAt) && dbsAt[0] == r.dbs && selAt[0] == r.sel
    ensures CallAll(cs, r).dbs == dbsAt[|cs|] && CallAll(cs, r).sel == selAt[|cs|]
    decreases |cs|
  {
    hide LookUp, Body, FeedExpiries, Feed;
    if cs == [] {
      dbsAt, selAt := [r.dbs], [r.sel];
    } else {
      var r1 := CallOne(cs[0].cmd, cs[0].now, r);
      assert Turn(cs[0], r.dbs, r.sel, r1.dbs, r1.sel);
      hide Turn, CallOne;
      var dbsRest, selRest := AllInTurn(cs[1..], r1);
      dbsAt, selAt := [r.dbs] + dbsRest, [r.sel] + selRest;
    }
  }

  lemma ExecLaw(s: State, sel: nat, cs: seq<Timed>, now: int) returns (dbsAt: seq<seq<Db>>, selAt: seq<nat>)
    requires Enabled(s, Step.ExecTransaction(sel, cs, now))
    ensures InTurn(cs, dbsAt, selAt) && dbsAt[0] == s.dbs && selAt[0] == sel
    ensures Next(s, Step.ExecTransaction(sel, cs, now)).dbs == dbsAt[|cs|]
  {
    hide InTurn, CallAll, Feed;
    dbsAt, selAt := AllInTurn(cs, FeedMark(Multi, now, Begin(s, sel)));
  }

  // The file -------------------------------------------------------------------------------------

  predicate OnlyFeeds(step: Step) {
    step.Call? || step.ExecTransaction? || step.ActiveExpire?
  }

  /** Commands and expiries never write to the file themselves; while the log is off they leave no trace, and
      while it is on the pending buffer only grows. */
  lemma FeedLaw(s: State, step: Step)
    requires Enabled(s, step) && OnlyFeeds(step)
    ensures var s' := Next(s, step);
            && s'.file == s.file && s.buf <= s'.buf && s'.mode == s.mode && s'.child == s.child
            && (s.mode == Off ==> s'.buf == s.buf && s'.rewriteBuf == s.rewriteBuf)
  {
    hide CallOne, CallExec, FeedExpiries;
  }

  /** What has been written stays written, until a rewrite replaces the file. */
  lemma FileGrows(s: State, step: Step)
    requires Enabled(s, step) && !step.ChildSucceeded?
    ensures s.file <= Next(s, step).file && Next(s, step).file <= s.file + s.buf
  {
    hide CallOne, CallExec, FeedExpiries, Rewrite, Fresh, ListsAll;
  }

  lemma PathInit(states: seq<State>, steps: seq<Step>, n: nat)
    requires Path(states, steps, n) && FreshForks(states, steps) && steps != []
    ensures var k := |steps| - 1; Path(states[..k + 1], steps[..k], n) && FreshForks(states[..k + 1], steps[..k])
  {
    hide Enabled, Next, Fresh;
    var k := |steps| - 1;
    var before, less := states[..k + 1], steps[..k];
    forall i | 0 <= i < k
      ensures Enabled(before[i], less[i]) && before[i + 1] == Next(before[i], less[i])
    {
      assert states[i + 1] == Next(states[i], steps[i]);
    }
  }

  /** In every run whose rewrites met no stale key: after a flush the file alone gives back every database,
      and so it does when the log has been switched off, for as long as nothing changes. */
  lemma FlushedIsDurable(states: seq<State>, steps: seq<Step>, n: nat, t: int)
    requires n > 0 && Path(states, steps, n) && FreshForks(states, steps) && steps != []
    requires steps[|steps| - 1].Flush? || steps[|steps| - 1].Stop?
    requires states[|steps| - 1].mode == On
    ensures var s := states[|steps|];
            && s.buf == [] && s.dbs == states[|steps| - 1].dbs != []
            && Load(s.file, Empty(|s.dbs|), t).dbs == s.dbs
  {
    hide Load, FreshForks, CallOne, CallExec, FeedExpiries, Rewrite, Fresh, ListsAll;
    var k := |steps| - 1;
    var before, less := states[..k + 1], steps[..k];
    assert before[k] == states[k];
    PathInit(states, steps, n);
    RestartExact(before, less, n, t);
    assert states[k + 1] == Next(states[k], steps[k]);
  }

  // Rewrites -------------------------------------------------------------------------------------

  /** No command of a rewrite adds more than 64 items, and none is empty. */
  lemma RewriteInPieces(items: seq<bytes>)
    ensures forall p :: p in Pieces(items, Width(Lists)) ==> 0 < |p| <= 64
    ensures forall p :: p in Pieces(items, Width(Sets)) ==> 0 < |p| <= 64
    ensures forall p :: p in Pieces(items, Width(Hashes)) ==> 0 < |p| <= 2 * 64
  {}
}
