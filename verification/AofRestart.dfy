/**
 A restart from the octets of the log: every command that is fed or rewritten can be written in the
 format of the log, provided that strings, numbers and times are of a size that the format has room for.
 */
module AofRestart {
  import opened AofCodec
  import opened AofRewrite
  import opened AofRun
  import opened Bytes
  import opened Keyspace
  import opened Wrappers
  import AofFile
  import AofMachine
  import AofReplay
  import Decimal

  const MAX_LEN: nat := Decimal.LLONG_MAX

  // What there is room for -----------------------------------------------------------------------

  /** A command with its numbers and strings, and its time to live added to the clock, in 64 bits, and
      its arguments counted in 31. */
  predicate Fits(c: Command, now: int) {
    && Encodable(c) && AofFile.Loggable(Argv(c))
    && (c.SetEx? ==> Decimal.InRange(InMs(c.ttl, c.unit) + now))
    && (c.Expire? ==> Decimal.InRange(InMs(c.arg, c.unit) + if c.relative then now else 0))
  }

  predicate AllFit(cs: seq<Timed>) {
    forall i :: 0 <= i < |cs| ==> Fits(cs[i].cmd, cs[i].now)
  }

  predicate Short(ss: seq<bytes>) {
    forall i :: 0 <= i < |ss| ==> |ss[i]| <= MAX_LEN
  }

  /** A key of a snapshot. */
  predicate EntryFits(e: Entry) {
    && |e.key| <= MAX_LEN && Decimal.InRange(e.expire)
    && match e.listing
       case AsStr(s) => |s| <= MAX_LEN
       case AsList(items) => Short(items)
       case AsSet(members) => Short(members)
       case AsHash(args) => Short(args)
  }

  predicate DumpFits(dump: seq<seq<Entry>>) {
    forall i, j :: 0 <= i < |dump| && 0 <= j < |dump[i]| ==> EntryFits(dump[i][j])
  }

  ghost predicate StepFits(step: AofMachine.Step) {
    match step
    case Call(_, c) => Fits(c.cmd, c.now)
    case ExecTransaction(_, cs, _) => AllFit(cs)
    case ActiveExpire(_, k, _) => |k| <= MAX_LEN
    case Fork(dump, _) => DumpFits(dump)
    case Start(dump, _) => DumpFits(dump)
    case _ => true
  }

  // What is fed ----------------------------------------------------------------------------------

  predicate One(c: Command) {
    Encodable(c) && AofFile.Loggable(Argv(c))
  }

  lemma WritableSum(a: seq<Command>, b: seq<Command>)
    requires Writable(a) && Writable(b)
    ensures Writable(a + b)
  {}

  lemma WritableOne(c: Command)
    requires One(c)
    ensures Writable([c])
  {}

  lemma SmallDel(k: bytes)
    requires |k| <= MAX_LEN
    ensures One(Del([k]))
  {
    assert Argv(Del([k])) == [Spelled(NDel), k];
  }

  lemma SmallSelect(id: nat)
    requires id <= MAX_LEN
    ensures One(Select(id))
  {
    assert Argv(Select(id)) == [Spelled(NSelect), Decimal.Print(id)];
    Decimal.PrintedLength(id);
  }

  lemma SmallCommands(k: bytes, id: nat)
    requires |k| <= MAX_LEN && id <= MAX_LEN
    ensures One(Del([k])) && One(Select(id)) && One(Multi) && One(Exec)
  {
    SmallDel(k);
    SmallSelect(id);
    assert Argv(Multi) == [Spelled(NMulti)] && Argv(Exec) == [Spelled(NExec)];
  }

  lemma ExpireAtOne(k: bytes, when: int)
    requires |k| <= MAX_LEN && Decimal.InRange(when) && |Decimal.Print(when)| <= 20
    ensures One(Expire(k, when, Milliseconds, false)) && Writable([Expire(k, when, Milliseconds, false)])
  {
    assert Argv(Expire(k, when, Milliseconds, false)) == [Spelled(NPexpireat), k, Decimal.Print(when)];
  }

  lemma ExpiryWritable(c: Command, k: bytes, when: int)
    requires AofFile.Loggable(Argv(c)) && |Argv(c)| > 1 && Argv(c)[1] == k && Decimal.InRange(when)
    ensures Writable([Expire(k, when, Milliseconds, false)])
  {
    Decimal.PrintedLength(when);
    ExpireAtOne(k, when);
  }

  lemma TranslatedWritable(c: Command, now: int)
    requires Fits(c, now)
    ensures Writable(AofReplay.Translate(c, now))
  {
    hide Decimal.Print, Decimal.InRange, Writable;
    match c
    case Expire(k, arg, unit, relative) =>
      ExpiryWritable(c, k, InMs(arg, unit) + if relative then now else 0);
      WritableOne(c);
    case SetEx(k, ttl, unit, v) =>
      ExpiryWritable(c, k, InMs(ttl, unit) + now);
      assert Argv(c)[1] == k && Argv(c)[3] == v;
      assert Argv(SetCmd(k, v)) == [Spelled(NSet), k, v];
      WritableOne(SetCmd(k, v));
      var expiry := Expire(k, InMs(ttl, unit) + now, Milliseconds, false);
      WritableSum([SetCmd(k, v)], [expiry]);
      assert [SetCmd(k, v)] + [expiry] == AofReplay.Translate(c, now);
    case _ => WritableOne(c);
  }

  lemma WritableNone()
    ensures Writable([])
  {}

  lemma FedWritable(c: Command, id: nat, selected: int, now: int)
    requires Fits(c, now) && id <= MAX_LEN
    ensures Writable(AofReplay.Feed(c, id, selected, now))
  {
    hide Writable, Fits, AofReplay.Translate;
    TranslatedWritable(c, now);
    SmallCommands([], id);
    WritableOne(Select(id));
    WritableNone();
    WritableSum(if id != selected then [Select(id)] else [], AofReplay.Translate(c, now));
  }

  /** The keys that a command looks up are among its arguments. */
  lemma ExpiredShort(c: Command, dbs: seq<Db>, sel: nat, now: int)
    requires sel < |dbs| && AofFile.Loggable(Argv(c))
    ensures forall x :: x in LookUp(c, dbs, sel, Clock(now, false)).1 ==> |x.key| <= MAX_LEN && x.db < |dbs|
  {
    hide Decimal.Print, Spelled;
    var r := LookUp(c, dbs, sel, Clock(now, false));
    forall x | x in r.1
      ensures |x.key| <= MAX_LEN && x.db < |dbs|
    {
      assert x.key in Argv(c) by {
        assert |Argv(c)| > 1 && (x.key == Argv(c)[1] || (c.Rename? && x.key == Argv(c)[2]));
      }
    }
  }

  lemma DelFits(k: bytes, now: int)
    requires One(Del([k]))
    ensures Fits(Del([k]), now)
  {}

  lemma {:induction false} ExpiriesWritable(xs: seq<Expiry>, selected: int, now: int)
    requires forall x :: x in xs ==> |x.key| <= MAX_LEN && x.db <= MAX_LEN
    ensures Writable(FeedExpiries(xs, selected, now).log)
    decreases |xs|
  {
    hide Writable, AofReplay.Feed, Fits;
    if xs == [] {
      WritableNone();
    } else {
      SmallCommands(xs[0].key, 0);
      DelFits(xs[0].key, now);
      FedWritable(Del([xs[0].key]), xs[0].db, selected, now);
      ExpiriesWritable(xs[1..], xs[0].db, now);
      WritableSum(AofReplay.Feed(Del([xs[0].key]), xs[0].db, selected, now),
                  FeedExpiries(xs[1..], xs[0].db, now).log);
    }
  }

  lemma SentFits(c: Command, dbs: seq<Db>, sel: nat, clock: Clock)
    requires sel < |dbs| && Fits(c, clock.now)
    ensures Fits(Body(c, dbs, sel, clock).sent, clock.now)
  {
    hide Decimal.Print, Decimal.InRange;
    if c.Expire? {
      assert Argv(c)[1] == c.key;
      SmallCommands(c.key, 0);
      DelFits(c.key, clock.now);
    }
  }

  lemma FitsLoggable(c: Command, now: int)
    requires Fits(c, now)
    ensures AofFile.Loggable(Argv(c))
  {}

  lemma CallWritable(c: Command, now: int, r: Run)
    requires r.sel < |r.dbs| <= MAX_LEN && Writable(r.fed.log) && Fits(c, now)
    ensures Writable(CallOne(c, now, r).fed.log)
  {
    hide Writable, Fits, LookUp, Body, FeedExpiries, AofReplay.Feed;
    var clock := Clock(now, false);
    var looked := LookUp(c, r.dbs, r.sel, clock);
    var e := Body(c, looked.0, r.sel, clock);
    var sel := Selected(c, r.sel, |r.dbs|);
    FitsLoggable(c, now);
    ExpiredShort(c, r.dbs, r.sel, now);
    ExpiriesWritable(looked.1, r.fed.selected, now);
    var expired := FeedExpiries(looked.1, r.fed.selected, now);
    SentFits(c, looked.0, r.sel, clock);
    FedWritable(e.sent, sel, expired.selected, now);
    WritableSum(expired.log, AofReplay.Feed(e.sent, sel, expired.selected, now));
    WritableSum(r.fed.log, if e.dirty then expired.log + AofReplay.Feed(e.sent, sel, expired.selected, now)
        else expired.log);
  }

  lemma {:induction false} CallAllWritable(cs: seq<Timed>, r: Run)
    requires r.sel < |r.dbs| <= MAX_LEN && Writable(r.fed.log) && AllFit(cs)
    ensures Writable(CallAll(cs, r).fed.log)
    decreases |cs|
  {
    hide Writable, Fits, CallOne;
    if cs != [] {
      CallWritable(cs[0].cmd, cs[0].now, r);
      CallAllWritable(cs[1..], CallOne(cs[0].cmd, cs[0].now, r));
    }
  }

  lemma MarkWritable(c: Command, now: int, r: Run)
    requires (c.Multi? || c.Exec?) && r.sel <= MAX_LEN && Writable(r.fed.log)
    ensures Writable(FeedMark(c, now, r).fed.log)
  {
    hide Writable;
    SmallCommands([], 0);
    FedWritable(c, r.sel, r.fed.selected, now);
    WritableSum(r.fed.log, AofReplay.Feed(c, r.sel, r.fed.selected, now));
  }

  // What is rewritten ----------------------------------------------------------------------------

  lemma {:induction false} PiecesShort(items: seq<bytes>, width: nat)
    requires width > 0 && Short(items)
    ensures forall i :: 0 <= i < |Pieces(items, width)| ==> Short(Pieces(items, width)[i])
    decreases |items|
  {
    if |items| > width {
      PiecesShort(items[width..], width);
    }
  }

  lemma PushOne(kind: Kind, key: bytes, piece: seq<bytes>)
    requires |key| <= MAX_LEN && Short(piece) && |piece| <= 128
    ensures One(Push(kind, key, piece))
  {
    var argv := Argv(Push(kind, key, piece));
    assert |argv| == |piece| + 2 && argv[1] == key;
    assert forall i :: 0 <= i < |piece| ==> argv[i + 2] == piece[i];
  }

  lemma PushesWritable(kind: Kind, key: bytes, items: seq<bytes>)
    requires |key| <= MAX_LEN && Short(items)
    ensures Writable(Pushes(kind, key, Pieces(items, Width(kind))))
  {
    hide Short;
    var pieces := Pieces(items, Width(kind));
    PiecesShort(items, Width(kind));
    forall i | 0 <= i < |pieces|
      ensures One(Push(kind, key, pieces[i]))
    {
      assert pieces[i] in pieces;
      PushOne(kind, key, pieces[i]);
    }
  }

  lemma EntryWritable(e: Entry, now: int)
    requires EntryFits(e)
    ensures Writable(RewriteEntry(e, now))
  {
    hide Writable, Short;
    match e.listing {
      case AsStr(s) =>
        assert Argv(SetCmd(e.key, s)) == [Spelled(NSet), e.key, s];
        WritableOne(SetCmd(e.key, s));
      case AsList(items) => PushesWritable(Lists, e.key, items);
      case AsSet(members) => PushesWritable(Sets, e.key, members);
      case AsHash(args) => PushesWritable(Hashes, e.key, args);
    }
    Decimal.PrintedLength(e.expire);
    ExpireAtOne(e.key, e.expire);
    WritableNone();
    WritableSum(RewriteObject(e.key, e.listing),
                if e.expire != -1 && !(e.expire < now) then [Expire(e.key, e.expire, Milliseconds, false)] else []);
  }

  lemma {:induction false} EntriesWritable(es: seq<Entry>, now: int)
    requires forall j :: 0 <= j < |es| ==> EntryFits(es[j])
    ensures Writable(RewriteEntries(es, now))
    decreases |es|
  {
    hide Writable, EntryFits, RewriteEntry;
    if es == [] {
      WritableNone();
    } else {
      EntriesWritable(es[..|es| - 1], now);
      EntryWritable(es[|es| - 1], now);
      WritableSum(RewriteEntries(es[..|es| - 1], now), RewriteEntry(es[|es| - 1], now));
    }
  }

  lemma {:induction false} RewriteWritable(dump: seq<seq<Entry>>, now: int)
    requires DumpFits(dump) && |dump| <= MAX_LEN
    ensures Writable(Rewrite(dump, now))
    decreases |dump|
  {
    hide Writable, EntryFits, RewriteEntries;
    WritableNone();
    if dump != [] {
      var id := |dump| - 1;
      RewriteWritable(dump[..id], now);
      EntriesWritable(dump[id], now);
      SmallCommands([], id);
      WritableOne(Select(id));
      WritableSum([Select(id)], RewriteEntries(dump[id], now));
      WritableSum(Rewrite(dump[..id], now), RewriteDb(id, dump[id], now));
    }
  }

  // Runs -----------------------------------------------------------------------------------------

  /** Both logs can be written. */
  ghost predicate LogsFit(s: AofMachine.State) {
    && Writable(s.file) && Writable(s.buf) && Writable(s.rewriteBuf)
    && (s.child.Some? ==> Writable(s.child.value))
    && |s.dbs| <= MAX_LEN
  }

  lemma FedFits(s: AofMachine.State, r: Run)
    requires LogsFit(s) && Writable(r.fed.log) && |r.dbs| == |s.dbs|
    ensures LogsFit(AofMachine.Fed(s, r))
  {
    hide Writable;
    WritableSum(s.buf, r.fed.log);
    WritableSum(s.rewriteBuf, r.fed.log);
  }

  lemma ExecFits(s: AofMachine.State, sel: nat, cs: seq<Timed>, now: int)
    requires LogsFit(s) && sel < |s.dbs| && AllFit(cs)
    ensures LogsFit(AofMachine.Fed(s, CallExec(cs, now, AofMachine.Begin(s, sel))))
  {
    hide Writable, AllFit, CallAll, AofMachine.Fed;
    WritableNone();
    var r0 := AofMachine.Begin(s, sel);
    MarkWritable(Multi, now, r0);
    CallAllWritable(cs, FeedMark(Multi, now, r0));
    MarkWritable(Exec, now, CallAll(cs, FeedMark(Multi, now, r0)));
    FedFits(s, CallExec(cs, now, r0));
  }

  lemma StepKeepsFit(s: AofMachine.State, step: AofMachine.Step)
    requires LogsFit(s) && AofMachine.Enabled(s, step) && StepFits(step)
    ensures LogsFit(AofMachine.Next(s, step))
  {
    hide Writable, Fits, AllFit, DumpFits, CallOne, CallAll, AofMachine.Fed, FeedExpiries, Rewrite, ListsDb, FeedMark;
    WritableNone();
    match step
    case Call(sel, c) =>
      CallWritable(c.cmd, c.now, AofMachine.Begin(s, sel));
      FedFits(s, CallOne(c.cmd, c.now, AofMachine.Begin(s, sel)));
    case ExecTransaction(sel, cs, now) => ExecFits(s, sel, cs, now);
    case ActiveExpire(id, k, now) =>
      ExpiriesWritable([Expiry(id, k)], s.selected, now);
      FedFits(s, Run(s.dbs[id := DbDelete(s.dbs[id], k)], id, FeedExpiries([Expiry(id, k)], s.selected, now)));
    case Flush => WritableSum(s.file, s.buf);
    case Fork(dump, now) => RewriteWritable(dump, now);
    case ChildSucceeded => WritableSum(s.child.value, s.rewriteBuf);
    case ChildFailed =>
    case Start(dump, now) => RewriteWritable(dump, now);
    case Stop => WritableSum(s.file, s.buf);
  }

  lemma InitFits(n: nat)
    requires n <= MAX_LEN
    ensures LogsFit(AofMachine.Init(n))
  {}

  lemma {:induction false} AlwaysFit(states: seq<AofMachine.State>, steps: seq<AofMachine.Step>, n: nat)
    requires 0 < n <= MAX_LEN && AofMachine.Path(states, steps, n)
    requires forall i :: 0 <= i < |steps| ==> StepFits(steps[i])
    ensures LogsFit(states[|steps|])
    decreases |steps|
  {
    hide LogsFit, StepFits, AofMachine.Next, AofMachine.Enabled;
    if steps == [] {
      InitFits(n);
    } else {
      var last := |steps| - 1;
      AlwaysFit(states[..|steps|], steps[..last], n);
      assert states[..|steps|][last] == states[last];
      assert states[last + 1] == AofMachine.Next(states[last], steps[last]);
      StepKeepsFit(states[last], steps[last]);
    }
  }

  /** Whatever the server went through with the log on, as long as everything had room in the log and no
      rewrite met a stale key: loading the octets on disk and in the buffer, at any time, restores every
      database, values and expiries. */
  lemma RestartFromOctets(states: seq<AofMachine.State>, steps: seq<AofMachine.Step>, n: nat, now: int)
    requires 0 < n <= MAX_LEN && AofMachine.Path(states, steps, n) && AofMachine.FreshForks(states, steps)
    requires forall i :: 0 <= i < |steps| ==> StepFits(steps[i])
    requires states[|steps|].mode == AofMachine.On
    ensures var s := states[|steps|];
            s.dbs != [] && LoadFile(Print(s.file + s.buf), |s.dbs|, now) == Some(s.dbs)
  {
    hide AofReplay.Load, AofMachine.FreshForks, LoadFile, Writable, StepFits, AofMachine.Next, AofMachine.Enabled;
    var s := states[|steps|];
    AofMachine.RestartExact(states, steps, n, now);
    AofMachine.AlwaysSafe(states, steps, n);
    assert AofMachine.Safe(s);
    assert AofMachine.Restores(s.file + s.buf, s.dbs, s.selected, s.fileCut);
    assert AofReplay.Tracks(AofReplay.Load(s.file + s.buf, AofReplay.Empty(|s.dbs|), now), s.dbs, s.selected, false,
        s.fileCut);
    AlwaysFit(states, steps, n);
    WritableSum(s.file, s.buf);
    FileLoads(s.file + s.buf, |s.dbs|, now);
  }
}
