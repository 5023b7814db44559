/**
 Append only persistence as a state machine: commands, expiries, flushes, background rewrites that
 succeed, fail or are killed, and switching the log on and off, in any order (aof.c).

 The file on disk, the buffer waiting to be written, the log that the rewriting child produces and the
 buffer of what happened since the fork are sequences of commands; `AofCodec` gives their octets.
 */
module AofMachine {
  import opened Bytes
  import opened Wrappers
  import opened Keyspace
  import opened KeyspaceValid
  import opened AofReplay
  import opened AofRun
  import opened AofRewrite

  datatype Mode = Off | On | WaitRewrite

  /** `fileCut` and `childCut` belong to the specification: the time before which expiries may be
      missing from the two logs, 0 when none is. */
  datatype State = State(
    dbs: seq<Db>,
    mode: Mode,
    file: seq<Command>,
    buf: seq<Command>,
    selected: int,
    child: Option<seq<Command>>,
    rewriteBuf: seq<Command>,
    fileCut: int,
    childCut: int)

  datatype Step =
    | Call(sel: nat, cmd: Timed)
    | ExecTransaction(sel: nat, cmds: seq<Timed>, now: int)
    | ActiveExpire(db: nat, key: bytes, now: int)
    | Flush
    | Fork(dump: seq<seq<Entry>>, now: int)
    | ChildSucceeded
    | ChildFailed
    | Start(dump: seq<seq<Entry>>, now: int)
    | Stop

  // Transitions ----------------------------------------------------------------------------------

  /** Appends what a run fed: to the buffer when the log is on, and to the rewrite buffer when a child
      is at work; feedAppendOnlyFile is not reached when the log is off. */
  function Fed(s: State, r: Run): State {
    if s.mode == Off then s.(dbs := r.dbs)
    else
      s.(dbs := r.dbs,
         selected := r.fed.selected,
         buf := if s.mode == On then s.buf + r.fed.log else s.buf,
         rewriteBuf := if s.child.Some? then s.rewriteBuf + r.fed.log else s.rewriteBuf)
  }

  function Begin(s: State, sel: nat): Run {
    Run(s.dbs, sel, AofRun.Fed([], s.selected))
  }

  ghost function Forked(s: State, dump: seq<seq<Entry>>, now: int): State {
    s.(child := Some(Rewrite(dump, now)), selected := -1,
       childCut := if Fresh(s.dbs, now) then 0 else now)
  }

  /** After the child is gone, whatever it did. */
  function Reaped(s: State): State {
    s.(child := None, rewriteBuf := [])
  }

  ghost predicate Enabled(s: State, step: Step) {
    match step
    case Call(sel, c) => sel < |s.dbs| && Ordinary(c.cmd) && c.now >= 0
    case ExecTransaction(sel, cs, now) => sel < |s.dbs| && forall c :: c in cs ==> Ordinary(c.cmd) && c.now >= 0
    case ActiveExpire(id, k, now) => id < |s.dbs| && IsExpired(s.dbs[id], k, Clock(now, false))
    case Flush => true
    case Fork(dump, now) => s.child.None? && ListsAll(dump, s.dbs)
    case ChildSucceeded => s.child.Some?
    case ChildFailed => s.child.Some?
    case Start(dump, now) => s.mode == Off && ListsAll(dump, s.dbs)
    case Stop => s.mode != Off
  }

  ghost function Next(s: State, step: Step): State
    requires Enabled(s, step)
  {
    match step
    case Call(sel, c) => Fed(s, CallOne(c.cmd, c.now, Begin(s, sel)))
    case ExecTransaction(sel, cs, now) => Fed(s, CallExec(cs, now, Begin(s, sel)))
    case ActiveExpire(id, k, now) =>
      Fed(s, Run(s.dbs[id := DbDelete(s.dbs[id], k)], id, FeedExpiries([Expiry(id, k)], s.selected, now)))
    case Flush => s.(file := s.file + s.buf, buf := [])
    case Fork(dump, now) => Forked(s, dump, now)
    case ChildSucceeded =>
      // the child's log and what happened since the fork replace the file; the pending buffer is
      // dropped, because the rewrite buffer holds it too
      var replaced := s.(file := s.child.value + s.rewriteBuf, fileCut := s.childCut);
      Reaped(if s.mode == Off then replaced
             else replaced.(selected := -1, buf := [], mode := On))
    case ChildFailed => Reaped(s)
    case Start(dump, now) =>
      // a rewrite that is already running cannot be joined: the command fails
      if s.child.Some? then s else Forked(s, dump, now).(mode := WaitRewrite)
    case Stop =>
      Reaped(s.(file := s.file + s.buf, buf := [], selected := -1, mode := Off))
  }

  /** A server that has just been started with an empty keyspace and the log on. */
  function Init(n: nat): State {
    State(Empty(n).dbs, On, [], [], -1, None, [], 0, 0)
  }

  ghost predicate Path(states: seq<State>, steps: seq<Step>, n: nat) {
    && |states| == |steps| + 1 && states[0] == Init(n)
    && forall i :: 0 <= i < |steps| ==> Enabled(states[i], steps[i]) && states[i + 1] == Next(states[i], steps[i])
  }

  // Safety ---------------------------------------------------------------------------------------

  /** Loading `log` at any time gives the live keyspace, up to expiries that were past at `cut`. */
  ghost predicate Restores(log: seq<Command>, dbs: seq<Db>, selected: int, cut: int) {
    dbs != [] && forall t: int :: Tracks(Load(log, Empty(|dbs|), t), dbs, selected, false, cut)
  }

  ghost predicate Safe(s: State) {
    && s.dbs != [] && AllValid(s.dbs)
    && (s.mode == On ==> Restores(s.file + s.buf, s.dbs, s.selected, s.fileCut))
    && (s.mode != On ==> s.buf == [])
    && (s.child.Some? && s.mode != Off ==>
          Restores(s.child.value + s.rewriteBuf, s.dbs, s.selected, s.childCut))
    && (s.child.None? ==> s.rewriteBuf == [])
  }

  lemma InitSafe(n: nat)
    requires n > 0
    ensures Safe(Init(n))
  {
    var s := Init(n);
    forall t: int ensures Tracks(Load([], Empty(n), t), s.dbs, -1, false, 0) {
      LoadNothing(Empty(n), t);
    }
    assert s.file + s.buf == [];
  }

  /** What is fed extends every log that restored the keyspace so far to one that still does. */
  lemma FedExtends(log: seq<Command>, dbs: seq<Db>, selected: int, cut: int, more: seq<Command>,
                   dbs': seq<Db>, selected': int)
    requires |dbs| > 0 && |dbs'| == |dbs| && Restores(log, dbs, selected, cut)
    requires forall t: int, l: Loader ::
               l.Valid() && Tracks(l, dbs, selected, false, cut) ==>
                   Tracks(Load(more, l, t), dbs', selected', false, cut)
    ensures Restores(log + more, dbs', selected', cut)
  {
    hide Load, Tracks;
    forall t: int ensures Tracks(Load(log + more, Empty(|dbs|), t), dbs', selected', false, cut) {
      LoadConcat(log, more, Empty(|dbs|), t);
      assert Tracks(Load(log, Empty(|dbs|), t), dbs, selected, false, cut);
      TracksValid(Load(log, Empty(|dbs|), t), dbs, selected, false, cut);
    }
  }

  /** The effect of a run on any loader that tracks the keyspace it starts from. */
  ghost predicate Extends(s: State, r: Run) {
    && |r.dbs| == |s.dbs| && AllValid(r.dbs)
    && forall cut: int, t: int, l: Loader ::
         l.Valid() && Tracks(l, s.dbs, s.selected, false, cut) ==>
         Tracks(Load(r.fed.log, l, t), r.dbs, r.fed.selected, false, cut)
  }

  lemma FedSafe(s: State, r: Run)
    requires Safe(s) && Extends(s, r)
    ensures Safe(Fed(s, r))
  {
    hide Load, Tracks, AllValid;
    var more := r.fed.log;
    if s.mode == On {
      FedExtends(s.file + s.buf, s.dbs, s.selected, s.fileCut, more, r.dbs, r.fed.selected);
      assert s.file + s.buf + more == s.file + (s.buf + more);
    }
    if s.mode != Off && s.child.Some? {
      FedExtends(s.child.value + s.rewriteBuf, s.dbs, s.selected, s.childCut, more, r.dbs, r.fed.selected);
      assert s.child.value + s.rewriteBuf + more == s.child.value + (s.rewriteBuf + more);
    }
  }

  lemma CallOneValid(c: Command, now: int, r: Run)
    requires r.Valid() && now >= 0 && Ordinary(c)
    ensures CallOne(c, now, r).Valid()
  {
    hide Body, AllValid, LookUp;
    LookUpExpires(c, r.dbs, r.sel, now);
    ApplyExpiriesValid(r.dbs, LookUp(c, r.dbs, r.sel, Clock(now, false)).1);
    BodyValid(c, LookUp(c, r.dbs, r.sel, Clock(now, false)).0, r.sel, now);
  }

  lemma CallExtends(s: State, sel: nat, c: Timed)
    requires Safe(s) && Enabled(s, Call(sel, c))
    ensures Extends(s, CallOne(c.cmd, c.now, Begin(s, sel)))
  {
    hide Tracks, AllValid, CallOne;
    var r0 := Begin(s, sel);
    var r := CallOne(c.cmd, c.now, r0);
    forall cut: int, t: int, l: Loader | l.Valid() && Tracks(l, s.dbs, s.selected, false, cut)
      ensures Tracks(Load(r.fed.log, l, t), r.dbs, r.fed.selected, false, cut)
    {
      LoadNothing(l, t);
      TrackOne(l, r0, c.cmd, c.now, false, cut, t);
    }
    CallOneValid(c.cmd, c.now, r0);
  }

  lemma {:induction false} CallAllValid(cs: seq<Timed>, r: Run)
    requires r.Valid() && forall c :: c in cs ==> c.now >= 0 && Ordinary(c.cmd)
    ensures CallAll(cs, r).Valid()
    decreases |cs|
  {
    if cs != [] {
      CallOneValid(cs[0].cmd, cs[0].now, r);
      CallAllValid(cs[1..], CallOne(cs[0].cmd, cs[0].now, r));
    }
  }

  lemma ExecDbs(cs: seq<Timed>, now: int, r: Run)
    requires r.sel < |r.dbs|
    ensures CallExec(cs, now, r).dbs == CallAll(cs, FeedMark(Multi, now, r)).dbs
  {}

  lemma ExecExtends(s: State, sel: nat, cs: seq<Timed>, now: int)
    requires Safe(s) && Enabled(s, ExecTransaction(sel, cs, now))
    ensures Extends(s, CallExec(cs, now, Begin(s, sel)))
  {
    hide Tracks, AllValid;
    var r0 := Begin(s, sel);
    CallAllValid(cs, FeedMark(Multi, now, r0));
    hide CallExec;
    var r := CallExec(cs, now, r0);
    forall cut: int, t: int, l: Loader | l.Valid() && Tracks(l, s.dbs, s.selected, false, cut)
      ensures Tracks(Load(r.fed.log, l, t), r.dbs, r.fed.selected, false, cut)
    {
      LoadNothing(l, t);
      TrackExec(l, r0, cs, now, cut, t);
    }
    ExecDbs(cs, now, r0);
  }

  lemma ExpiryExtends(s: State, id: nat, k: bytes, now: int)
    requires Safe(s) && id < |s.dbs|
    ensures Extends(s, Run(s.dbs[id := DbDelete(s.dbs[id], k)], id, FeedExpiries([Expiry(id, k)], s.selected, now)))
  {
    hide Tracks, Load;
    var xs := [Expiry(id, k)];
    assert ApplyExpiries(s.dbs, xs) == s.dbs[id := DbDelete(s.dbs[id], k)] by {
      assert xs[1..] == [];
    }
    ApplyExpiriesValid(s.dbs, xs);
    var fed := FeedExpiries(xs, s.selected, now);
    forall cut: int, t: int, l: Loader | l.Valid() && Tracks(l, s.dbs, s.selected, false, cut)
      ensures Tracks(Load(fed.log, l, t), ApplyExpiries(s.dbs, xs), fed.selected, false, cut)
    {
      TrackExpiries(l, s.dbs, s.selected, false, cut, xs, now, t);
    }
  }

  lemma ForgetSelected(log: seq<Command>, dbs: seq<Db>, selected: int, cut: int)
    requires Restores(log, dbs, selected, cut)
    ensures Restores(log, dbs, -1, cut)
  {
    hide Load, Agrees;
    forall t: int ensures Tracks(Load(log, Empty(|dbs|), t), dbs, -1, false, cut) {
      assert Tracks(Load(log, Empty(|dbs|), t), dbs, selected, false, cut);
    }
  }

  /** The child's log restores the snapshot that the fork took; from then on the forced SELECT makes
      the rewrite buffer independent of what was selected before. */
  lemma ForkSafe(s: State, dump: seq<seq<Entry>>, now: int)
    requires Safe(s) && s.child.None? && ListsAll(dump, s.dbs)
    ensures Safe(Forked(s, dump, now)) && (s.mode == Off ==> Safe(Forked(s, dump, now).(mode := WaitRewrite)))
  {
    hide Load, Agrees, AllValid, ListsAll, Fresh;
    var s' := Forked(s, dump, now);
    assert Rewrite(dump, now) + s.rewriteBuf == Rewrite(dump, now);
    forall t: int ensures Tracks(Load(Rewrite(dump, now), Empty(|s.dbs|), t), s.dbs, -1, false, s'.childCut) {
      RewriteAgrees(dump, s.dbs, now, t);
    }
    assert Restores(Rewrite(dump, now), s.dbs, -1, s'.childCut);
    if s.mode == On {
      ForgetSelected(s.file + s.buf, s.dbs, s.selected, s.fileCut);
    }
  }

  lemma LogStepSafe(s: State, step: Step)
    requires Safe(s) && Enabled(s, step)
    requires step.Flush? || step.ChildSucceeded? || step.ChildFailed? || step.Stop?
    ensures Safe(Next(s, step))
  {
    hide Restores, AllValid;
    match step
    case Flush => assert s.file + s.buf + [] == s.file + s.buf;
    case ChildSucceeded =>
      var log := s.child.value + s.rewriteBuf;
      assert log + [] == log;
      if s.mode != Off {
        ForgetSelected(log, s.dbs, s.selected, s.childCut);
      }
    case _ =>
  }

  lemma StepSafe(s: State, step: Step)
    requires Safe(s) && Enabled(s, step)
    ensures Safe(Next(s, step))
  {
    match step
    case Call(sel, c) =>
      CallExtends(s, sel, c);
      FedSafe(s, CallOne(c.cmd, c.now, Begin(s, sel)));
    case ExecTransaction(sel, cs, now) =>
      ExecExtends(s, sel, cs, now);
      FedSafe(s, CallExec(cs, now, Begin(s, sel)));
    case ActiveExpire(id, k, now) =>
      ExpiryExtends(s, id, k, now);
      FedSafe(s, Run(s.dbs[id := DbDelete(s.dbs[id], k)], id, FeedExpiries([Expiry(id, k)], s.selected, now)));
    case Fork(dump, now) => ForkSafe(s, dump, now);
    case Start(dump, now) =>
      if s.child.None? {
        ForkSafe(s, dump, now);
      }
    case _ => LogStepSafe(s, step);
  }

  /** Whatever the server went through: when the log is on, loading the file and the pending buffer
      restores the keyspace; while a rewrite runs for a log that is on or being switched on, so does
      loading the child's log and the rewrite buffer. */
  lemma {:induction false} AlwaysSafe(states: seq<State>, steps: seq<Step>, n: nat)
    requires n > 0 && Path(states, steps, n)
    ensures forall i :: 0 <= i < |states| ==> Safe(states[i])
    decreases |steps|
  {
    hide Safe, Enabled, Next;
    InitSafe(n);
    if |steps| > 0 {
      var k := |steps| - 1;
      AlwaysSafe(states[..k + 1], steps[..k], n);
      assert states[..k + 1][k] == states[k];
      StepSafe(states[k], steps[k]);
      forall i | 0 <= i < |states| ensures Safe(states[i]) {
        if i <= k {
          assert states[..k + 1][i] == states[i];
        }
      }
    }
  }

  // Exactness ------------------------------------------------------------------------------------

  /** No rewrite was started while a key was past its expiry at the time the rewrite ran. */
  ghost predicate FreshForks(states: seq<State>, steps: seq<Step>)
    requires |states| == |steps| + 1
  {
    forall i :: 0 <= i < |steps| ==>
      (steps[i].Fork? ==> Fresh(states[i].dbs, steps[i].now)) &&
      (steps[i].Start? ==> Fresh(states[i].dbs, steps[i].now))
  }

  lemma CutStays(s: State, step: Step)
    requires Enabled(s, step) && s.fileCut == 0 && s.childCut == 0
    requires step.Fork? || step.Start? ==> Fresh(s.dbs, step.now)
    ensures Next(s, step).fileCut == 0 && Next(s, step).childCut == 0
  {
    hide Fresh, ListsAll, CallOne, CallExec, FeedExpiries;
  }

  lemma {:induction false} FreshForksCutNothing(states: seq<State>, steps: seq<Step>, n: nat)
    requires n > 0 && Path(states, steps, n) && FreshForks(states, steps)
    ensures states[|steps|].fileCut == 0 && states[|steps|].childCut == 0
    decreases |steps|
  {
    hide AllValid, ListsAll, Fresh;
    if |steps| > 0 {
      var k := |steps| - 1;
      assert states[..k + 1][k] == states[k];
      FreshForksCutNothing(states[..k + 1], steps[..k], n);
      CutStays(states[k], steps[k]);
    }
  }

  lemma ExpiriesNotNegative(dbs: seq<Db>)
    requires AllValid(dbs)
    ensures forall i, k :: 0 <= i < |dbs| && k in dbs[i].expires ==> dbs[i].expires[k] >= 0
  {
    forall i, k | 0 <= i < |dbs| && k in dbs[i].expires ensures dbs[i].expires[k] >= 0 {
      assert DbValid(dbs[i]);
    }
  }

  /** In every run whose rewrites met no stale key, a server that stops with the log on and starts
      again, at any time, finds every database exactly as it was, values and expiries. */
  lemma RestartExact(states: seq<State>, steps: seq<Step>, n: nat, t: int)
    requires n > 0 && Path(states, steps, n) && FreshForks(states, steps)
    ensures var s := states[|steps|];
            s.mode == On ==> |s.dbs| > 0 && Load(s.file + s.buf, Empty(|s.dbs|), t).dbs == s.dbs
  {
    hide Load;
    var s := states[|steps|];
    AlwaysSafe(states, steps, n);
    FreshForksCutNothing(states, steps, n);
    if s.mode == On {
      assert Tracks(Load(s.file + s.buf, Empty(|s.dbs|), t), s.dbs, s.selected, false, 0);
      ExpiriesNotNegative(s.dbs);
      AgreesExactly(s.dbs, Load(s.file + s.buf, Empty(|s.dbs|), t).dbs, 0);
    }
  }

  /** The swap: the new file alone restores the keyspace although the pending buffer is dropped, and a
      log that was being switched on is on from then. */
  lemma SwapLosesNothing(s: State, t: int)
    requires Safe(s) && s.child.Some? && s.mode != Off
    ensures var s' := Next(s, ChildSucceeded);
            s'.mode == On && s'.buf == [] && s'.dbs == s.dbs != [] &&
            Agrees(s.dbs, Load(s'.file, Empty(|s.dbs|), t).dbs, s.childCut)
  {
    hide Load, AllValid;
    assert Tracks(Load(s.child.value + s.rewriteBuf, Empty(|s.dbs|), t), s.dbs, s.selected, false, s.childCut);
  }
}
