/** A live master executing commands and transactions, and the log it produces (call, propagate and
    propagateExpire, execCommand). */
module AofRun {
  import opened Bytes
  import opened Keyspace
  import opened KeyspaceValid
  import opened AofReplay

  // Runs -----------------------------------------------------------------------------------------

  /** A piece of log, and the database of its last command (-1 for none). */
  datatype Fed = Fed(log: seq<Command>, selected: int)

  function FeedExpiries(xs: seq<Expiry>, selected: int, now: int): Fed
    decreases |xs|
  {
    if xs == [] then Fed([], selected)
    else
      var rest := FeedExpiries(xs[1..], xs[0].db, now);
      Fed(Feed(Del([xs[0].key]), xs[0].db, selected, now) + rest.log, rest.selected)
  }

  /** The live side: the keyspace, the client's database, and what was fed. */
  datatype Run = Run(dbs: seq<Db>, sel: nat, fed: Fed) {
    ghost predicate Valid() { sel < |dbs| && AllValid(dbs) }
  }

  /** One command of a client: expired keys are announced first, then the command itself when it
      changed something, in the database that the client has selected by then. */
  function CallOne(c: Command, now: int, r: Run): (r': Run)
    requires r.sel < |r.dbs|
    ensures r'.sel < |r'.dbs| == |r.dbs|
  {
    var looked := LookUp(c, r.dbs, r.sel, Clock(now, false));
    var e := Body(c, looked.0, r.sel, Clock(now, false));
    var expired := FeedExpiries(looked.1, r.fed.selected, now);
    var sel := Selected(c, r.sel, |r.dbs|);
    var fed :=
      if e.dirty then Fed(expired.log + Feed(e.sent, sel, expired.selected, now), sel) else expired;
    Run(e.data, sel, Fed(r.fed.log + fed.log, fed.selected))
  }

  /** A command with the time at which it runs. */
  datatype Timed = Timed(cmd: Command, now: int)

  predicate Ordinary(c: Command) {
    !c.Multi? && !c.Exec?
  }

  function CallAll(cs: seq<Timed>, r: Run): (r': Run)
    requires r.sel < |r.dbs|
    ensures r'.sel < |r'.dbs| == |r.dbs|
    decreases |cs|
  {
    if cs == [] then r else CallAll(cs[1..], CallOne(cs[0].cmd, cs[0].now, r))
  }

  function FeedMark(c: Command, now: int, r: Run): Run {
    Run(r.dbs, r.sel, Fed(r.fed.log + Feed(c, r.sel, r.fed.selected, now), r.sel))
  }

  /** EXEC of a transaction that was not aborted: the queued commands between MULTI and EXEC. */
  function CallExec(cs: seq<Timed>, now: int, r: Run): (r': Run)
    requires r.sel < |r.dbs|
    ensures r'.sel < |r'.dbs| == |r.dbs|
  {
    FeedMark(Exec, now, CallAll(cs, FeedMark(Multi, now, r)))
  }

  // Every run is tracked by its log --------------------------------------------------------------

  /** A loader in state `l` that runs the log of `r` tracks the live keyspace of `r`. */
  ghost predicate Followed(l: Loader, r: Run, multi: bool, cut: int, t: int) {
    l.Valid() && Tracks(Load(r.fed.log, l, t), r.dbs, r.fed.selected, multi, cut)
  }

  lemma TracksValid(l: Loader, dbs: seq<Db>, selected: int, multi: bool, cut: int)
    requires Tracks(l, dbs, selected, multi, cut)
    ensures l.Valid()
  {}

  lemma {:induction false} TrackExpiries(l: Loader, dbs: seq<Db>, selected: int, multi: bool, cut: int,
                                         xs: seq<Expiry>, now: int, t: int)
    requires Tracks(l, dbs, selected, multi, cut) && InRange(xs, |dbs|)
    ensures var fed := FeedExpiries(xs, selected, now);
            Tracks(Load(fed.log, l, t), ApplyExpiries(dbs, xs), fed.selected, multi, cut)
    decreases |xs|
  {
    hide Tracks, Feed;
    if xs != [] {
      var x := xs[0];
      TracksValid(l, dbs, selected, multi, cut);
      var first := Feed(Del([x.key]), x.db, selected, now);
      TrackExpiry(l, dbs, selected, multi, cut, x, now, t);
      TrackExpiries(Load(first, l, t), dbs[x.db := DbDelete(dbs[x.db], x.key)], x.db, multi, cut, xs[1..], now, t);
      LoadConcat(first, FeedExpiries(xs[1..], x.db, now).log, l, t);
    }
  }

  lemma SelectIsClean(c: Command, dbs: seq<Db>, sel: nat, now: int)
    requires sel < |dbs|
    ensures c.Select? ==> !Body(c, dbs, sel, Clock(now, false)).dirty
  {}

  lemma TrackOne(l: Loader, r: Run, c: Command, now: int, multi: bool, cut: int, t: int)
    requires r.Valid() && now >= 0 && Ordinary(c) && Followed(l, r, multi, cut, t)
    ensures CallOne(c, now, r).Valid() && Followed(l, CallOne(c, now, r), multi, cut, t)
  {
    hide Tracks, Feed, LookUp, Body, FeedExpiries, ApplyExpiries, AllValid, Load;
    var looked := LookUp(c, r.dbs, r.sel, Clock(now, false));
    LookUpExpires(c, r.dbs, r.sel, now);
    ApplyExpiriesValid(r.dbs, looked.1);
    BodyValid(c, looked.0, r.sel, now);
    var l0 := Load(r.fed.log, l, t);
    TrackExpiries(l0, r.dbs, r.fed.selected, multi, cut, looked.1, now, t);
    var expired := FeedExpiries(looked.1, r.fed.selected, now);
    var l1 := Load(expired.log, l0, t);
    LoadConcat(r.fed.log, expired.log, l, t);
    var e := Body(c, looked.0, r.sel, Clock(now, false));
    if e.dirty {
      SelectIsClean(c, looked.0, r.sel, now);
      TrackChange(l1, looked.0, r.sel, expired.selected, multi, cut, c, now, t);
      var own := Feed(e.sent, r.sel, expired.selected, now);
      LoadConcat(expired.log, own, l0, t);
      LoadConcat(r.fed.log, expired.log + own, l, t);
    } else {
      CleanUnchanged(c, looked.0, r.sel, now);
    }
  }

  lemma {:induction false} TrackAll(l: Loader, r: Run, cs: seq<Timed>, multi: bool, cut: int, t: int)
    requires r.Valid() && Followed(l, r, multi, cut, t)
    requires forall c :: c in cs ==> c.now >= 0 && Ordinary(c.cmd)
    ensures CallAll(cs, r).Valid() && Followed(l, CallAll(cs, r), multi, cut, t)
    decreases |cs|
  {
    hide Followed, CallOne;
    if cs != [] {
      TrackOne(l, r, cs[0].cmd, cs[0].now, multi, cut, t);
      TrackAll(l, CallOne(cs[0].cmd, cs[0].now, r), cs[1..], multi, cut, t);
    }
  }

  lemma TrackMark(l: Loader, r: Run, c: Command, now: int, multi: bool, cut: int, t: int)
    requires r.Valid() && Followed(l, r, multi, cut, t) && (c.Multi? || c.Exec?)
    ensures FeedMark(c, now, r).Valid() && Followed(l, FeedMark(c, now, r), c.Multi?, cut, t)
  {
    var l0 := Load(r.fed.log, l, t);
    var log := Feed(c, r.sel, r.fed.selected, now);
    LoadConcat(r.fed.log, log, l, t);
    FeedSelects(c, r.sel, r.fed.selected, now, l0, t);
    LoadSingle(c, l0.(sel := r.sel), t);
  }

  lemma TrackExec(l: Loader, r: Run, cs: seq<Timed>, now: int, cut: int, t: int)
    requires r.Valid() && Followed(l, r, false, cut, t)
    requires forall c :: c in cs ==> c.now >= 0 && Ordinary(c.cmd)
    ensures CallExec(cs, now, r).Valid() && Followed(l, CallExec(cs, now, r), false, cut, t)
  {
    hide Followed, CallAll, FeedMark;
    TrackMark(l, r, Multi, now, false, cut, t);
    TrackAll(l, FeedMark(Multi, now, r), cs, true, cut, t);
    TrackMark(l, CallAll(cs, FeedMark(Multi, now, r)), Exec, now, true, cut, t);
  }
}
