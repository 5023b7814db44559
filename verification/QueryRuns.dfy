/**
 Requests under fragmentation: a stream of printed commands, cut anywhere that the sizes of the reads
 allow, is taken apart into exactly those commands, and the limits on what a buffer may hold without
 an end of line never strike.
 */
module QueryRuns {
  import opened Bytes
  import opened Wrappers
  import opened Resp
  import opened QueryParser
  import Decimal

  /** A command that the parser accepts and does not treat as the end of the connection. */
  predicate Sendable(cmd: seq<bytes>) {
    && 0 < |cmd| <= MAX_ARGS && !IsQuit(cmd[0])
    && forall i :: 0 <= i < |cmd| ==> |cmd[i]| <= MAX_BULK
  }

  predicate AllSendable(cmds: seq<seq<bytes>>) {
    forall i :: 0 <= i < |cmds| ==> Sendable(cmds[i])
  }

  // Lines ----------------------------------------------------------------------------------------

  lemma {:induction false} CrAfter(buf: bytes, from: nat, end: nat)
    requires from <= end <= |buf| && forall i :: from <= i < end ==> buf[i] != 0 && buf[i] != CR
    ensures FindCr(buf, from) == FindCr(buf, end)
    decreases end - from
  {
    if from < end {
      CrAfter(buf, from + 1, end);
    }
  }

  lemma PrintedDigits(n: nat)
    ensures var d := Decimal.Print(n);
            && Decimal.Canonical(d) && Decimal.Parse(d) == (if Decimal.InRange(n) then Some(n as int) else None)
            && forall i :: 0 <= i < |d| ==> d[i] != 0 && d[i] != CR
  {
    Decimal.DigitsCanonical(n);
    Decimal.ParseIffPrinted(Decimal.Print(n), n);
    var d := Decimal.Print(n);
    assert forall i :: 0 <= i < |d| ==> Decimal.IsDigit(d[i]);
    if Decimal.Parse(d).Some? {
      Decimal.ParseIffPrinted(d, Decimal.Parse(d).value);
      Decimal.PrintInjective(n, Decimal.Parse(d).value);
    }
  }

  lemma LineLength(prefix: u8, n: nat)
    requires n <= MAX_BULK
    ensures 4 <= |Line(prefix, n)| <= 12
  {
    assert Decimal.Power10(3) == 1000 && Decimal.Power10(6) == 1000 * Decimal.Power10(3);
    assert Decimal.Power10(9) == 1000 * Decimal.Power10(6);
    Decimal.DigitsLength(n, 9, 1_000_000_000);
    Decimal.DigitsCanonical(n);
  }

  lemma Arrived(buf: bytes, pos: nat, future: bytes, line: bytes, rest: bytes, seen: nat)
    requires pos <= |buf| && buf[pos..] + future == line + rest && seen <= |line| && pos + seen <= |buf|
    ensures forall i :: pos <= i < pos + seen ==> buf[i] == line[i - pos]
    ensures pos + |line| <= |buf| ==> buf[pos + |line|..] + future == rest
  {
    var all := buf[pos..] + future;
    forall i | pos <= i < pos + seen
      ensures buf[i] == line[i - pos]
    {
      assert all[i - pos] == buf[i] && all[i - pos] == line[i - pos];
    }
    if pos + |line| <= |buf| {
      assert buf[pos + |line|..] + future == all[|line|..] == rest;
    }
  }

  lemma CrHere(buf: bytes, at: nat)
    requires at < |buf| && buf[at] == CR
    ensures FindCr(buf, at) == Some(at)
  {}

  lemma LineParts(prefix: u8, n: nat)
    ensures var line, d := Line(prefix, n), Decimal.Print(n);
            && |line| == |d| + 3 && line[0] == prefix && line[1..|d| + 1] == d && line[|d| + 1] == CR
            && forall i :: 0 <= i < |d| ==> line[i + 1] == d[i]
  {}

  /** What the parser sees of a line, the front of which has arrived at `pos`. */
  lemma LineArrives(buf: bytes, pos: nat, future: bytes, prefix: u8, n: nat, rest: bytes)
    requires pos <= |buf| && n <= MAX_BULK && prefix != 0 && prefix != CR
    requires buf[pos..] + future == Line(prefix, n) + rest
    ensures var newline, len := FindCr(buf, pos), |Line(prefix, n)|;
            if |buf| - pos < len then newline.None? || newline.value > |buf| - 2
            else && newline == Some(pos + len - 2) && buf[pos] == prefix
                 && Decimal.Parse(buf[pos + 1..pos + len - 2]) == Some(n as int)
                 && buf[pos + len..] + future == rest
  {
    hide Line, FindCr, Decimal.Parse, Decimal.Print, Decimal.Canonical;
    var line, d := Line(prefix, n), Decimal.Print(n);
    PrintedDigits(n);
    LineParts(prefix, n);
    var seen := if |buf| - pos < |line| then |buf| - pos else |line|;
    Arrived(buf, pos, future, line, rest, seen);
    var end := if seen < |d| + 1 then seen else |d| + 1;
    forall i | pos <= i < pos + end
      ensures buf[i] != 0 && buf[i] != CR
    {
      assert buf[i] == line[i - pos];
      if i > pos {
        assert line[(i - pos - 1) + 1] == d[i - pos - 1];
      }
    }
    CrAfter(buf, pos, pos + end);
    if seen == |line| {
      CrHere(buf, pos + |d| + 1);
      assert buf[pos + 1..pos + |line| - 2] == d;
    }
  }

  // Arguments ------------------------------------------------------------------------------------

  predicate SomeBulks(args: seq<bytes>) {
    forall i :: 0 <= i < |args| ==> |args[i]| <= MAX_BULK
  }

  /** The client is about to read these arguments, of the first of which it may know the length. */
  predicate Reading(c: Client, args: seq<bytes>) {
    && c.left == |args| && SomeBulks(args)
    && (c.bulklen == -1 || (args != [] && c.bulklen == |args[0]|))
  }

  /** What is still to be taken for these arguments. */
  function Pending(bulklen: int, args: seq<bytes>): bytes
    requires bulklen == -1 || args != []
  {
    if bulklen == -1 then Bulks(args) else (args[0] + CRLF) + Bulks(args[1..])
  }

  /** The buffer before a round of processing: short, or no longer than the one big argument it is
      for. */
  predicate Roomy(c: Client, pos: nat) {
    |c.buf| <= INLINE_MAX_SIZE || (pos == 0 && c.bulklen >= MBULK_BIG_ARG && |c.buf| <= c.bulklen + 2)
  }

  /** The buffer after it. */
  predicate Settled(c: Client) {
    if c.bulklen >= MBULK_BIG_ARG then |c.buf| < c.bulklen + 2 else |c.buf| < MBULK_BIG_ARG + 2
  }

  /** The result of reading: all arguments, or the first `k` and a wait for more of the stream. */
  ghost predicate Took(c: Client, args: seq<bytes>, rest: bytes, future: bytes, o: Outcome, k: nat) {
    && k <= |args| && o.ok == (k == |args|)
    && o.c.argv == c.argv + args[..k] && Reading(o.c, args[k..])
    && o.c.buf + future == Pending(o.c.bulklen, args[k..]) + rest
    && o.c.reqtype == c.reqtype && o.c.closing == c.closing && o.c.executed == c.executed
    && (!o.ok ==> future != [] && Settled(o.c))
    && (o.ok ==> o.c.bulklen == -1)
  }

  lemma ArgsRead(c: Client, pos: nat, args: seq<bytes>, rest: bytes, future: bytes) returns (k: nat)
    requires Reading(c, args) && pos <= |c.buf| && Roomy(c, pos)
    requires c.buf[pos..] + future == Pending(c.bulklen, args) + rest
    ensures Took(c, args, rest, future, ReadArgs(c, pos), k)
    decreases |args|, 2, 0
  {
    if args == [] {
      k := 0;
    } else if c.bulklen != -1 {
      hide Took;
      k := ArgRead(c, pos, args, rest, future);
    } else {
      k := LengthRead(c, pos, args, rest, future);
    }
  }

  lemma HeaderApart(args: seq<bytes>, rest: bytes)
    requires args != []
    ensures Bulks(args) + rest == Line(DOLLAR, |args[0]|) + (((args[0] + CRLF) + Bulks(args[1..])) + rest)
  {}

  /** Nothing more can be taken. */
  lemma Waits(c: Client, pos: nat, args: seq<bytes>, rest: bytes, future: bytes)
    requires Reading(c, args) && args != [] && pos <= |c.buf|
    requires c.buf[pos..] + future == Pending(c.bulklen, args) + rest
    requires |c.buf| - pos < |Pending(c.bulklen, args)| && Settled(c.(buf := c.buf[pos..]))
    ensures Took(c, args, rest, future, Wait(c, pos), 0)
  {
    assert c.argv + args[..0] == c.argv;
    assert args[0..] == args;
  }

  lemma LineIsPart(args: seq<bytes>)
    requires args != []
    ensures |Line(DOLLAR, |args[0]|)| <= |Bulks(args)|
  {}

  lemma ShortArgument(args: seq<bytes>)
    requires args != [] && SomeBulks(args)
    ensures |args[0]| <= MAX_BULK
  {}

  lemma LengthRead(c: Client, pos: nat, args: seq<bytes>, rest: bytes, future: bytes) returns (k: nat)
    requires Reading(c, args) && args != [] && c.bulklen == -1 && pos <= |c.buf| && Roomy(c, pos)
    requires c.buf[pos..] + future == Pending(c.bulklen, args) + rest
    ensures Took(c, args, rest, future, ReadArgs(c, pos), k)
    decreases |args|, 1
  {
    hide Bulks, FindCr, Decimal.Parse, SomeBulks, Took, Line, ReadArgs;
    var n := |args[0]|;
    var tail := ((args[0] + CRLF) + Bulks(args[1..])) + rest;
    ShortArgument(args);
    HeaderApart(args, rest);
    LineArrives(c.buf, pos, future, DOLLAR, n, tail);
    LineLength(DOLLAR, n);
    if |c.buf| - pos < |Line(DOLLAR, n)| {
      k := 0;
      NoLength(c, pos);
      LineIsPart(args);
      Waits(c, pos, args, rest, future);
    } else {
      k := LengthTaken(c, pos, pos + |Line(DOLLAR, n)|, args, rest, future);
    }
  }

  lemma TookKnown(c: Client, c': Client, args: seq<bytes>, rest: bytes, future: bytes, o: Outcome, k: nat)
    requires Took(c', args, rest, future, o, k)
    requires c'.argv == c.argv && c'.reqtype == c.reqtype && c'.closing == c.closing && c'.executed == c.executed
    ensures Took(c, args, rest, future, o, k)
  {}

  /** The length was read, now the argument itself. */
  lemma LengthTaken(c: Client, pos: nat, end: nat, args: seq<bytes>, rest: bytes, future: bytes) returns (k: nat)
    requires Reading(c, args) && args != [] && c.bulklen == -1 && pos + 3 <= end <= |c.buf| <= INLINE_MAX_SIZE
    requires FindCr(c.buf, pos) == Some(end - 2) && c.buf[pos] == DOLLAR
    requires Decimal.Parse(c.buf[pos + 1..end - 2]) == Some(|args[0]| as int)
    requires c.buf[end..] + future == ((args[0] + CRLF) + Bulks(args[1..])) + rest
    ensures Took(c, args, rest, future, ReadArgs(c, pos), k)
    decreases |args|, 0, 1
  {
    var n := |args[0]|;
    var big := n >= MBULK_BIG_ARG;
    assert n <= MAX_BULK;
    hide Bulks, FindCr, Decimal.Parse, SomeBulks, Took, ReadArgs, ReadArg;
    KnownLength(c, pos, end, n, big);
    var c', pos' := AfterLength(c, end, n, big), if big then 0 else end;
    assert c'.buf[pos'..] == c.buf[end..];
    k := ArgRead(c', pos', args, rest, future);
    TookKnown(c, c', args, rest, future, ReadArg(c', pos'), k);
  }

  lemma TookMore(c: Client, c': Client, args: seq<bytes>, rest: bytes, future: bytes, o: Outcome, k: nat)
    requires args != [] && Took(c', args[1..], rest, future, o, k)
    requires c'.argv == c.argv + [args[0]]
    requires c'.reqtype == c.reqtype && c'.closing == c.closing && c'.executed == c.executed
    ensures Took(c, args, rest, future, o, k + 1)
  {
    assert args[1..][..k] == args[1..k + 1] && args[1..][k..] == args[k + 1..];
    assert c.argv + args[..k + 1] == (c.argv + [args[0]]) + args[1..k + 1];
  }

  lemma ArgApart(c: Client, pos: nat, args: seq<bytes>, rest: bytes, future: bytes)
    requires Reading(c, args) && args != [] && c.bulklen != -1 && pos + c.bulklen + 2 <= |c.buf|
    requires c.buf[pos..] + future == Pending(c.bulklen, args) + rest
    ensures c.buf[pos..pos + c.bulklen] == args[0]
    ensures c.buf[pos + c.bulklen + 2..] + future == Bulks(args[1..]) + rest
    ensures SomeBulks(args[1..])
  {
    var line := args[0] + CRLF;
    assert Pending(c.bulklen, args) + rest == line + (Bulks(args[1..]) + rest);
    Arrived(c.buf, pos, future, line, Bulks(args[1..]) + rest, |line|);
    assert forall i :: 0 <= i < |args| - 1 ==> args[1..][i] == args[i + 1];
  }

  lemma ArgRead(c: Client, pos: nat, args: seq<bytes>, rest: bytes, future: bytes) returns (k: nat)
    requires Reading(c, args) && args != [] && c.bulklen != -1 && pos <= |c.buf| && Roomy(c, pos)
    requires c.buf[pos..] + future == Pending(c.bulklen, args) + rest
    ensures Took(c, args, rest, future, ReadArg(c, pos), k)
    decreases |args|, 0, 0
  {
    if |c.buf| - pos < c.bulklen + 2 {
      k := 0;
      hide ReadArgs, Took;
      Waits(c, pos, args, rest, future);
    } else {
      ArgApart(c, pos, args, rest, future);
      var whole := pos == 0 && c.bulklen >= MBULK_BIG_ARG && |c.buf| == c.bulklen + 2;
      KnownArg(c, pos, args[0], whole);
      var c', pos' := AfterArg(c, args[0], whole), if whole then 0 else pos + c.bulklen + 2;
      assert whole ==> c'.buf[pos'..] == c.buf[pos + c.bulklen + 2..];
      hide Bulks, SomeBulks, Took, ReadArgs, ReadArg;
      var k1 := ArgsRead(c', pos', args[1..], rest, future);
      k := k1 + 1;
      TookMore(c, c', args, rest, future, ReadArgs(c', pos'), k1);
    }
  }

  // Requests -------------------------------------------------------------------------------------

  /** Where a client stands in a stream of commands: those executed, the one being read (`args` of it
      are still to be read), and the later ones make up the stream; and the buffer and the future
      together are what these still have to bring. */
  ghost predicate Progress(c: Client, args: seq<bytes>, later: seq<seq<bytes>>, cmds: seq<seq<bytes>>, future: bytes) {
    && !c.closing && AllSendable(cmds)
    && if c.left > 0 then
         && c.reqtype == Multibulk && Reading(c, args)
         && cmds == c.executed + [c.argv + args] + later
         && c.buf + future == Pending(c.bulklen, args) + PrintAll(later)
       else
         && args == [] && c.left == 0 && c.bulklen == -1 && c.argv == []
         && c.reqtype != Inline && (c.reqtype == Multibulk ==> c.buf != [])
         && cmds == c.executed + later
         && c.buf + future == PrintAll(later)
  }

  /** A whole request was read; it is executed, and the next one awaited. */
  lemma Executed(c: Client, later: seq<seq<bytes>>, cmds: seq<seq<bytes>>, future: bytes)
    requires AllSendable(cmds) && cmds == c.executed + [c.argv] + later
    requires !c.closing && c.buf + future == PrintAll(later)
    ensures Progress(Execute(c), [], later, cmds, future) && Execute(c).buf == c.buf && Execute(c).bulklen == -1
  {
    assert cmds[|c.executed|] == c.argv;
    assert Sendable(c.argv);
    assert cmds == (c.executed + [c.argv]) + later;
  }

  lemma NoBulks(rest: bytes)
    ensures Bulks([]) + rest == rest
  {}

  /** The request being read goes on. */
  lemma GoesOn(c: Client, args: seq<bytes>, later: seq<seq<bytes>>, cmds: seq<seq<bytes>>, future: bytes)
    returns (args': seq<bytes>)
    requires Progress(c, args, later, cmds, future) && Roomy(c, 0) && c.left > 0
    ensures var o := ReadArgs(c, 0);
            if o.ok then Progress(Execute(o.c), [], later, cmds, future) && Roomy(Execute(o.c), 0)
            else Progress(o.c, args', later, cmds, future) && Settled(o.c) && future != []
  {
    hide FindCr, PrintAll, Bulks, AllSendable, SomeBulks, ReadArgs;
    assert c.buf[0..] == c.buf;
    var k := ArgsRead(c, 0, args, PrintAll(later), future);
    args' := args[k..];
    var o := ReadArgs(c, 0);
    assert args == args[..k] + args';
    assert o.c.argv + args' == c.argv + args;
    if o.ok {
      assert args' == [] && o.c.argv + args' == o.c.argv;
      assert Pending(-1, args') + PrintAll(later) == PrintAll(later) by {
        NoBulks(PrintAll(later));
      }
      Executed(o.c, later, cmds, future);
    }
  }

  lemma CommandApart(later: seq<seq<bytes>>)
    requires later != []
    ensures PrintAll(later) == Line(STAR, |later[0]|) + (Bulks(later[0]) + PrintAll(later[1..]))
    ensures PrintAll(later)[0] == STAR
  {
    assert Line(STAR, |later[0]|)[0] == STAR;
  }

  lemma NextSendable(cmds: seq<seq<bytes>>, executed: seq<seq<bytes>>, later: seq<seq<bytes>>)
    requires AllSendable(cmds) && cmds == executed + later && later != []
    ensures Sendable(later[0])
  {
    assert cmds[|executed|] == later[0];
  }

  lemma NextCommand(c: Client, later: seq<seq<bytes>>, cmds: seq<seq<bytes>>, future: bytes)
    requires Progress(c, [], later, cmds, future) && c.left == 0 && c.buf != []
    ensures later != [] && Sendable(later[0]) && |later[0]| <= MAX_BULK && c.buf[0] == STAR
    ensures c.buf + future == Line(STAR, |later[0]|) + (Bulks(later[0]) + PrintAll(later[1..]))
  {
    hide Line, Bulks;
    NextSendable(cmds, c.executed, later);
    CommandApart(later);
  }

  /** The head of the next command, as far as it has arrived. */
  lemma Header(c: Client, later: seq<seq<bytes>>, cmds: seq<seq<bytes>>, future: bytes) returns (len: nat)
    requires Progress(c, [], later, cmds, future) && c.left == 0 && c.buf != []
    ensures later != [] && Sendable(later[0]) && 4 <= len <= 12
    ensures c.buf[0] == STAR
    ensures if |c.buf| < len then future != [] && (FindCr(c.buf, 0).None? || FindCr(c.buf, 0).value > |c.buf| - 2)
            else && FindCr(c.buf, 0) == Some(len - 2) && Decimal.Parse(c.buf[1..len - 2]) == Some(|later[0]| as int)
                 && c.buf[len..] + future == Bulks(later[0]) + PrintAll(later[1..])
  {
    hide Progress, Sendable, FindCr, PrintAll, Bulks, AllSendable, Line, Decimal.Parse;
    NextCommand(c, later, cmds, future);
    var cmd, rest := later[0], PrintAll(later[1..]);
    assert c.buf[0..] == c.buf;
    LineArrives(c.buf, 0, future, STAR, |cmd|, Bulks(cmd) + rest);
    LineLength(STAR, |cmd|);
    len := |Line(STAR, |cmd|)|;
  }

  lemma TypedMultibulk(c: Client)
    requires c.buf != [] && c.buf[0] == STAR && c.reqtype != Inline && c.left == 0 && c.bulklen == -1
    ensures ReadRequest(c) == ReadRequest(c.(reqtype := Multibulk))
  {
    hide ReadMultibulk;
  }

  lemma HeaderMissing(t: Client)
    requires t.reqtype == Multibulk && t.left == 0 && t.buf != [] && |t.buf| <= INLINE_MAX_SIZE && t.bulklen == -1
    requires FindCr(t.buf, 0).None? || FindCr(t.buf, 0).value > |t.buf| - 2
    ensures ReadRequest(t) == Outcome(t, false)
  {
    assert t.buf[0..] == t.buf;
  }

  lemma HeaderTaken(t: Client, len: nat, n: nat)
    requires t.reqtype == Multibulk && t.left == 0 && t.buf != [] && 4 <= len <= |t.buf| && 0 < n <= MAX_ARGS
               && t.bulklen == -1
    requires FindCr(t.buf, 0) == Some(len - 2) && Decimal.Parse(t.buf[1..len - 2]) == Some(n as int)
    ensures ReadRequest(t) == ReadArgs(t.(left := n, argv := []), len)
  {
    hide ReadArgs, FindCr, Decimal.Parse;
  }

  lemma CommandRead(c: Client, pos: nat, cmd: seq<bytes>, later: seq<seq<bytes>>, cmds: seq<seq<bytes>>, future: bytes)
    returns (args': seq<bytes>)
    requires !c.closing && AllSendable(cmds) && cmds == c.executed + ([cmd] + later) && Sendable(cmd)
    requires c.reqtype == Multibulk && c.left == |cmd| && c.argv == [] && c.bulklen == -1
               && pos <= |c.buf| <= INLINE_MAX_SIZE
    requires c.buf[pos..] + future == Bulks(cmd) + PrintAll(later)
    ensures var o := ReadArgs(c, pos);
            if o.ok then Progress(Execute(o.c), [], later, cmds, future) && Roomy(Execute(o.c), 0)
            else Progress(o.c, args', later, cmds, future) && Settled(o.c) && future != []
  {
    hide FindCr, PrintAll, Bulks, AllSendable, ReadArgs;
    var k := ArgsRead(c, pos, cmd, PrintAll(later), future);
    args' := cmd[k..];
    var o := ReadArgs(c, pos);
    assert cmd == cmd[..k] + args';
    assert o.c.argv + args' == cmd;
    assert cmds == c.executed + [cmd] + later;
    if o.ok {
      assert args' == [] && o.c.argv + args' == o.c.argv;
      assert Pending(-1, args') + PrintAll(later) == PrintAll(later) by {
        NoBulks(PrintAll(later));
      }
      Executed(o.c, later, cmds, future);
    }
  }

  /** A new request begins. */
  lemma Begins(c: Client, later: seq<seq<bytes>>, cmds: seq<seq<bytes>>, future: bytes)
    returns (args': seq<bytes>, later': seq<seq<bytes>>)
    requires Progress(c, [], later, cmds, future) && c.left == 0 && c.buf != [] && |c.buf| <= INLINE_MAX_SIZE
    ensures var o := ReadRequest(c);
            if o.ok then Progress(Execute(o.c), [], later', cmds, future) && Roomy(Execute(o.c), 0)
            else Progress(o.c, args', later', cmds, future) && Settled(o.c) && future != []
  {
    hide FindCr, PrintAll, Bulks, AllSendable, ReadArgs, ReadRequest, Decimal.Parse, Execute;
    var len := Header(c, later, cmds, future);
    TypedMultibulk(c);
    var t := c.(reqtype := Multibulk);
    if |c.buf| < len {
      HeaderMissing(t);
      args', later' := [], later;
    } else {
      later' := later[1..];
      HeaderTaken(t, len, |later[0]|);
      assert later == [later[0]] + later';
      args' := CommandRead(t.(left := |later[0]|, argv := []), len, later[0], later', cmds, future);
    }
  }

  // Runs -----------------------------------------------------------------------------------------

  lemma UntypedOrNot(c: Client)
    requires c.left > 0 && c.reqtype == Multibulk && c.buf != [] && c.bulklen >= -1
    ensures ReadRequest(c) == ReadArgs(c, 0)
  {
    hide ReadArgs;
  }

  lemma SameBuffer(c: Client)
    ensures Execute(c).buf == c.buf
  {}

  lemma PendingSome(bulklen: int, args: seq<bytes>)
    requires args != []
    ensures |Pending(bulklen, args)| > 0
  {
  }

  lemma NothingPending(c: Client, args: seq<bytes>, later: seq<seq<bytes>>, cmds: seq<seq<bytes>>)
    requires Progress(c, args, later, cmds, []) && c.buf == []
    ensures later == [] && c.left == 0 && c.executed == cmds
  {
    if later != [] {
      CommandApart(later);
    }
    assert [] + [] == c.buf + [];
    if c.left > 0 {
      PendingSome(c.bulklen, args);
    }
    assert later == [] ==> c.executed + later == c.executed;
  }

  /** Whatever is in the buffer, processing executes what it can and goes on waiting for the rest. */
  lemma ProcessKeeps(c: Client, args: seq<bytes>, later: seq<seq<bytes>>, cmds: seq<seq<bytes>>, future: bytes)
    returns (args': seq<bytes>, later': seq<seq<bytes>>)
    requires Progress(c, args, later, cmds, future) && Roomy(c, 0)
    ensures var r := ProcessInput(c);
            && Progress(r, args', later', cmds, future) && Settled(r)
            && (future == [] ==> r.executed == cmds && r.buf == [] && r.left == 0)
    decreases |c.buf|
  {
    hide ReadRequest, PrintAll, Bulks, AllSendable, Execute, Pending;
    if c.buf == [] {
      args', later' := args, later;
      if future == [] {
        NothingPending(c, args, later, cmds);
      }
    } else {
      if c.left > 0 {
        args' := GoesOn(c, args, later, cmds, future);
        later' := later;
        UntypedOrNot(c);
      } else {
        args', later' := Begins(c, later, cmds, future);
      }
      var o := ReadRequest(c);
      if o.ok {
        assert |Execute(o.c).buf| < |c.buf| by { SameBuffer(o.c); }
        args', later' := ProcessKeeps(Execute(o.c), [], later', cmds, future);
      }
    }
  }

  /** One read, of a size that readQueryFromClient asks for. */
  lemma ReceiveKeeps(c: Client, args: seq<bytes>, later: seq<seq<bytes>>, cmds: seq<seq<bytes>>, data: bytes,
                     future: bytes)
    returns (args': seq<bytes>, later': seq<seq<bytes>>)
    requires Progress(c, args, later, cmds, data + future) && Settled(c) && 0 < |data| <= ReadLen(c)
    ensures var r := Receive(c, data);
            && Progress(r, args', later', cmds, future) && Settled(r)
            && (future == [] ==> r.executed == cmds && r.buf == [] && r.left == 0)
  {
    var longer := c.(buf := c.buf + data);
    assert c.buf + (data + future) == longer.buf + future;
    assert Progress(longer, args, later, cmds, future) by {
      hide PrintAll, Pending, AllSendable, SomeBulks;
    }
    assert |longer.buf| <= MAX_QUERYBUF_LEN && Roomy(longer, 0) by {
      hide PrintAll, Pending, AllSendable;
      if c.left > 0 && c.bulklen >= MBULK_BIG_ARG {
        assert c.bulklen == |args[0]| <= MAX_BULK;
      }
    }
    hide Progress, Settled, Roomy, ProcessInput;
    args', later' := ProcessKeeps(longer, args, later, cmds, future);
  }

  /** Reads one after the other. */
  function Feed(c: Client, chunks: seq<bytes>): (r: Client)
    requires c.left >= 0 && c.bulklen >= -1
    ensures r.left >= 0 && r.bulklen >= -1
    decreases |chunks|
  {
    if chunks == [] then c else Feed(Receive(c, chunks[0]), chunks[1..])
  }

  /** Every read brings something, and no more than it asked for. */
  predicate Readable(c: Client, chunks: seq<bytes>)
    requires c.left >= 0 && c.bulklen >= -1
    decreases |chunks|
  {
    chunks == [] || (0 < |chunks[0]| <= ReadLen(c) && Readable(Receive(c, chunks[0]), chunks[1..]))
  }

  function Joined(chunks: seq<bytes>): bytes {
    if chunks == [] then [] else chunks[0] + Joined(chunks[1..])
  }

  lemma SomeExecuted(c: Client, args: seq<bytes>, later: seq<seq<bytes>>, cmds: seq<seq<bytes>>, future: bytes)
    requires Progress(c, args, later, cmds, future)
    ensures !c.closing && c.executed <= cmds && c.left >= 0 && c.bulklen >= -1
  {}

  lemma {:induction false} FeedKeeps(c: Client, args: seq<bytes>, later: seq<seq<bytes>>, cmds: seq<seq<bytes>>,
                                     chunks: seq<bytes>, future: bytes)
    requires Progress(c, args, later, cmds, Joined(chunks) + future) && Settled(c) && Readable(c, chunks)
    ensures var r := Feed(c, chunks);
            && !r.closing && r.executed <= cmds
            && (chunks != [] && future == [] ==> r.executed == cmds && r.buf == [] && r.left == 0)
    decreases |chunks|
  {
    hide Receive, Settled, ReadLen, PrintAll, Pending, AllSendable, Progress;
    SomeExecuted(c, args, later, cmds, Joined(chunks) + future);
    if chunks != [] {
      var rest := Joined(chunks[1..]) + future;
      assert Joined(chunks) + future == chunks[0] + rest;
      var args', later' := ReceiveKeeps(c, args, later, cmds, chunks[0], rest);
      FeedKeeps(Receive(c, chunks[0]), args', later', cmds, chunks[1..], future);
      if chunks[1..] == [] && future == [] {
        assert rest == [];
      }
    }
  }

  /** As long as something is to come, the parser asks for at least one octet, and for no more than 16 KB; of a big
      argument for no more than is missing. */
  lemma AsksForMore(c: Client, args: seq<bytes>, later: seq<seq<bytes>>, cmds: seq<seq<bytes>>, future: bytes)
    requires Progress(c, args, later, cmds, future) && Settled(c)
    ensures 0 < ReadLen(c) <= 16 * 1024
    ensures c.left > 0 && c.bulklen >= 32 * 1024 ==> |c.buf| + ReadLen(c) <= c.bulklen + 2
  {
    hide PrintAll, Pending, AllSendable;
  }

  /** However a stream of commands is cut into reads, the commands are executed in order and no
      connection is closed; when the whole stream has arrived, all of them have been executed and the
      buffer is empty. */
  lemma FragmentsReassemble(cmds: seq<seq<bytes>>, chunks: seq<bytes>, future: bytes)
    requires AllSendable(cmds) && Joined(chunks) + future == PrintAll(cmds) && Readable(NEW_CLIENT, chunks)
    ensures var r := Feed(NEW_CLIENT, chunks);
            && !r.closing && r.executed <= cmds
            && (future == [] ==> r.executed == cmds && r.buf == [] && r.left == 0)
  {
    assert [] + cmds == cmds && [] + PrintAll(cmds) == PrintAll(cmds);
    if chunks == [] && future == [] && cmds != [] {
      CommandApart(cmds);
    }
    FeedKeeps(NEW_CLIENT, [], cmds, cmds, chunks, future);
  }
}
