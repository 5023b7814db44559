/**
 The octets of an append only file (aof.c): commands are printed one after the other, and the loader
 reads them back with line-oriented routines that check little. A file that ends in the middle of a
 command is refused all the same.
 */
module AofFile {
  import opened Bytes
  import opened Reading
  import opened Resp
  import opened Wrappers
  import Decimal

  const LINE_SIZE: nat := 127

  // The loader -----------------------------------------------------------------------------------

  /** Where fgets stops: after an end of line, or when its buffer is full, or at the end of the file. */
  function LineEnd(src: bytes, pos: nat, room: nat): (end: nat)
    ensures pos <= end && (pos <= |src| ==> end <= |src|)
    ensures pos < |src| && room > 0 ==> pos < end
    decreases room
  {
    if room == 0 || pos >= |src| then pos
    else if src[pos] == LF then pos + 1
    else LineEnd(src, pos + 1, room - 1)
  }

  /** A line with the given first octet and the number behind it, for what atoi and strtol make of it. */
  function LoadCount(src: bytes, pos: nat, prefix: u8): (r: Option<Read<int>>)
    ensures r.Some? ==> pos < r.value.pos <= |src|
  {
    if pos >= |src| || src[pos] != prefix then None
    else
      var end := LineEnd(src, pos, LINE_SIZE);
      Some(Read(Decimal.Atoi(src[pos + 1..end]), end))
  }

  function LoadArg(src: bytes, pos: nat): (r: Option<Read<bytes>>)
    ensures r.Some? ==> pos < r.value.pos <= |src|
  {
    var len := LoadCount(src, pos, DOLLAR);
    if len.None? || len.value.value < 0 then None
    else
      var arg := Take(src, len.value.pos, len.value.value);
      // two octets are discarded unseen
      if arg.None? || Take(src, len.value.pos + len.value.value, 2).None? then None
      else Some(Read(arg.value, len.value.pos + len.value.value + 2))
  }

  function LoadArgs(src: bytes, pos: nat, n: nat): (r: Option<Read<seq<bytes>>>)
    ensures r.Some? ==> |r.value.value| == n && pos <= r.value.pos && (pos <= |src| ==> r.value.pos <= |src|)
    decreases n
  {
    if n == 0 then Some(Read([], pos))
    else
      var first := LoadArg(src, pos);
      if first.None? then None
      else
        var rest := LoadArgs(src, first.value.pos, n - 1);
        if rest.None? then None else Some(Read([first.value.value] + rest.value.value, rest.value.pos))
  }

  function LoadVector(src: bytes, pos: nat): (r: Option<Read<seq<bytes>>>)
    ensures r.Some? ==> pos < r.value.pos <= |src|
  {
    var argc := LoadCount(src, pos, STAR);
    if argc.None? || argc.value.value < 1 then None else LoadArgs(src, argc.value.pos, argc.value.value)
  }

  /** loadAppendOnlyFile up to the execution of the commands: their vectors, in order; nothing when the
      file is malformed or ends too early. */
  function LoadLog(src: bytes, pos: nat): Option<seq<seq<bytes>>>
    decreases |src| - pos
  {
    if pos >= |src| then Some([])
    else
      var v := LoadVector(src, pos);
      if v.None? then None
      else
        var rest := LoadLog(src, v.value.pos);
        if rest.None? then None else Some([v.value.value] + rest.value)
  }

  // Reading back ---------------------------------------------------------------------------------

  /** What can be logged: at least one argument, a count that fits 31 bits, lengths that fit 63. */
  predicate Loggable(argv: seq<bytes>) {
    && 0 < |argv| <= 0x7fff_ffff
    && forall i :: 0 <= i < |argv| ==> |argv[i]| <= Decimal.LLONG_MAX
  }

  predicate AllLoggable(cmds: seq<seq<bytes>>) {
    forall i :: 0 <= i < |cmds| ==> Loggable(cmds[i])
  }

  lemma {:induction false} DigitsThenMore(a: bytes, b: bytes, v: nat)
    requires Decimal.AllDigits(a)
    ensures Decimal.LeadingDigits(a + b, v) == Decimal.LeadingDigits(b, Decimal.LeadingDigits(a, v))
    decreases |a|
  {
    if a == [] {
      assert a + b == b;
    } else {
      assert (a + b)[1..] == a[1..] + b;
      DigitsThenMore(a[1..], b, 10 * v + (a[0] as int - 48));
    }
  }

  lemma {:induction false} PrintedDigitsRead(n: nat)
    ensures Decimal.LeadingDigits(Decimal.Digits(n), 0) == n
    decreases n
  {
    var last: bytes := [48 + n % 10];
    assert last[1..] == [];
    assert forall v: nat :: Decimal.LeadingDigits(last, v) == Decimal.LeadingDigits(last[1..], 10 * v + n % 10);
    if n >= 10 {
      Decimal.DigitsCanonical(n / 10);
      PrintedDigitsRead(n / 10);
      DigitsThenMore(Decimal.Digits(n / 10), last, 0);
    }
  }

  /** atoi reads a printed number, whatever other octets follow. */
  lemma NumberRead(n: nat, rest: bytes)
    requires rest != [] && !Decimal.IsDigit(rest[0])
    ensures Decimal.Atoi(Decimal.Print(n) + rest) == n
  {
    var d := Decimal.Digits(n);
    Decimal.DigitsCanonical(n);
    assert (d + rest)[0] == d[0];
    DigitsThenMore(d, rest, 0);
    PrintedDigitsRead(n);
  }

  lemma LineShort(prefix: u8, n: nat)
    requires n <= Decimal.LLONG_MAX
    ensures var line := Line(prefix, n);
            && 4 <= |line| <= 22 && line[0] == prefix && line[|line| - 1] == LF
            && (prefix != LF ==> forall i :: 0 <= i < |line| - 1 ==> line[i] != LF)
            && line[1..] == Decimal.Print(n) + CRLF
  {
    assert Decimal.Power10(9) == 1_000_000_000 && Decimal.Power10(18) == 1_000_000_000 * Decimal.Power10(9);
    Decimal.DigitsLength(n, 19, Decimal.LLONG_MAX + 1);
    Decimal.DigitsCanonical(n);
    var d, line := Decimal.Print(n), Line(prefix, n);
    forall i | 0 < i < |line| - 1
      ensures line[i] != LF
    {
      assert i <= |d| ==> line[i] == d[i - 1] && Decimal.IsDigit(d[i - 1]);
    }
  }

  lemma {:induction false} NoLineYet(src: bytes, pos: nat, end: nat, room: nat)
    requires pos <= end <= |src| && end - pos <= room && forall i :: pos <= i < end ==> src[i] != LF
    ensures LineEnd(src, pos, room) == LineEnd(src, end, room - (end - pos))
    decreases end - pos
  {
    if pos < end {
      NoLineYet(src, pos + 1, end, room - 1);
    }
  }

  lemma CountLoads(prefix: u8, n: nat, src: bytes, pos: nat)
    requires n <= Decimal.LLONG_MAX && prefix != LF && Stands(src, pos, Line(prefix, n))
    ensures LoadCount(src, pos, prefix) == Some(Read(n as int, pos + |Line(prefix, n)|))
  {
    hide Decimal.Atoi, Decimal.Print;
    var line := Line(prefix, n);
    LineShort(prefix, n);
    hide Line;
    var end := pos + |line|;
    assert forall i :: pos <= i < end ==> src[i] == src[pos..end][i - pos] == line[i - pos];
    NoLineYet(src, pos, end - 1, LINE_SIZE);
    assert src[pos + 1..end] == src[pos..end][1..] == line[1..];
    NumberRead(n, CRLF);
  }

  lemma ArgLoads(arg: bytes, src: bytes, pos: nat)
    requires |arg| <= Decimal.LLONG_MAX && Stands(src, pos, Bulk(arg))
    ensures LoadArg(src, pos) == Some(Read(arg, pos + |Bulk(arg)|))
  {
    hide LoadCount, Line;
    var line := Line(DOLLAR, |arg|);
    StandsApart(src, pos, line, arg + CRLF);
    StandsApart(src, pos + |line|, arg, CRLF);
    CountLoads(DOLLAR, |arg|, src, pos);
  }

  lemma {:induction false} ArgsLoad(args: seq<bytes>, src: bytes, pos: nat)
    requires (forall i :: 0 <= i < |args| ==> |args[i]| <= Decimal.LLONG_MAX) && Stands(src, pos, Bulks(args))
    ensures LoadArgs(src, pos, |args|) == Some(Read(args, pos + |Bulks(args)|))
    decreases |args|
  {
    hide LoadArg, Bulk;
    if args != [] {
      StandsApart(src, pos, Bulk(args[0]), Bulks(args[1..]));
      ArgLoads(args[0], src, pos);
      ArgsLoad(args[1..], src, pos + |Bulk(args[0])|);
      assert args == [args[0]] + args[1..];
    }
  }

  lemma VectorLoads(argv: seq<bytes>, src: bytes, pos: nat)
    requires Loggable(argv) && Stands(src, pos, PrintCommand(argv))
    ensures LoadVector(src, pos) == Some(Read(argv, pos + |PrintCommand(argv)|))
  {
    hide LoadCount, Line, Bulks, LoadArgs;
    StandsApart(src, pos, Line(STAR, |argv|), Bulks(argv));
    CountLoads(STAR, |argv|, src, pos);
    ArgsLoad(argv, src, pos + |Line(STAR, |argv|)|);
  }

  /** The loader reads back exactly the commands that were printed. */
  lemma {:induction false} LogLoads(cmds: seq<seq<bytes>>, src: bytes, pos: nat)
    requires AllLoggable(cmds) && Stands(src, pos, PrintAll(cmds)) && pos + |PrintAll(cmds)| == |src|
    ensures LoadLog(src, pos) == Some(cmds)
    decreases |cmds|
  {
    hide LoadVector, PrintCommand, Loggable;
    if cmds != [] {
      assert Loggable(cmds[0]);
      StandsApart(src, pos, PrintCommand(cmds[0]), PrintAll(cmds[1..]));
      VectorLoads(cmds[0], src, pos);
      assert forall i :: 0 <= i < |cmds| - 1 ==> cmds[1..][i] == cmds[i + 1];
      LogLoads(cmds[1..], src, pos + |PrintCommand(cmds[0])|);
      assert cmds == [cmds[0]] + cmds[1..];
    }
  }

  // What is refused ------------------------------------------------------------------------------

  lemma LogStep(src: bytes, pos: nat)
    ensures pos == |src| ==> LoadLog(src, pos) == Some([])
    ensures pos < |src| && LoadVector(src, pos).None? ==> LoadLog(src, pos) == None
    ensures pos < |src| && LoadVector(src, pos).Some? ==>
              var v := LoadVector(src, pos).value; var rest := LoadLog(src, v.pos);
              LoadLog(src, pos) == if rest.None? then None else Some([v.value] + rest.value)
  {}

  /** A log goes on behind its first commands. */
  lemma {:induction false} LogGoesOn(cmds: seq<seq<bytes>>, src: bytes, pos: nat)
    requires AllLoggable(cmds) && Stands(src, pos, PrintAll(cmds))
    ensures var rest := LoadLog(src, pos + |PrintAll(cmds)|);
            LoadLog(src, pos) == if rest.None? then None else Some(cmds + rest.value)
    decreases |cmds|
  {
    hide LoadVector, PrintCommand, Loggable;
    var rest := LoadLog(src, pos + |PrintAll(cmds)|);
    if cmds == [] {
      assert rest.Some? ==> [] + rest.value == rest.value;
    } else {
      assert Loggable(cmds[0]);
      StandsApart(src, pos, PrintCommand(cmds[0]), PrintAll(cmds[1..]));
      VectorLoads(cmds[0], src, pos);
      assert forall i :: 0 <= i < |cmds| - 1 ==> cmds[1..][i] == cmds[i + 1];
      LogGoesOn(cmds[1..], src, pos + |PrintCommand(cmds[0])|);
      assert rest.Some? ==> [cmds[0]] + (cmds[1..] + rest.value) == cmds + rest.value;
    }
  }

  lemma TailStands(a: bytes, b: bytes)
    ensures Stands(a + b, 0, a) && (b != [] ==> (a + b)[|a|] == b[0])
  {
    assert (a + b)[0..|a|] == a;
  }

  lemma NoStar(src: bytes, pos: nat)
    requires pos < |src| && src[pos] != STAR
    ensures LoadVector(src, pos) == None
  {}

  /** Behind whole commands nothing may stand that does not start with a star. */
  lemma GarbageRefused(cmds: seq<seq<bytes>>, rest: bytes)
    requires AllLoggable(cmds) && rest != [] && rest[0] != STAR
    ensures LoadLog(PrintAll(cmds) + rest, 0) == None
  {
    hide PrintAll, LoadVector, LoadLog;
    var front := PrintAll(cmds);
    var src := front + rest;
    TailStands(front, rest);
    LogGoesOn(cmds, src, 0);
    NoStar(src, |front|);
    LogStep(src, |front|);
  }

  lemma NoDollar(src: bytes, pos: nat, n: nat)
    requires n > 0 && pos <= |src| && (pos == |src| || src[pos] != DOLLAR)
    ensures LoadArgs(src, pos, n) == None
  {
    assert LoadCount(src, pos, DOLLAR) == None;
    assert LoadArg(src, pos) == None;
  }

  lemma VectorRefused(src: bytes, pos: nat, n: nat)
    requires n <= Decimal.LLONG_MAX && Stands(src, pos, Line(STAR, n))
    requires var next := pos + |Line(STAR, n)|; n > 0 ==> next == |src| || src[next] != DOLLAR
    ensures pos < |src| && LoadVector(src, pos) == None
  {
    hide Line, LoadCount, Stands, LoadArgs;
    CountLoads(STAR, n, src, pos);
    LineShort(STAR, n);
    InRange(src, pos, Line(STAR, n));
    if n > 0 {
      NoDollar(src, pos + |Line(STAR, n)|, n);
    }
  }

  lemma StandsBetween(front: bytes, line: bytes, rest: bytes)
    ensures var src := front + (line + rest);
            && Stands(src, 0, front) && Stands(src, |front|, line)
            && (if rest == [] then |front| + |line| == |src| else src[|front| + |line|] == rest[0])
  {
    var src := front + (line + rest);
    assert src[0..|front|] == front && src[|front|..|front| + |line|] == line;
  }

  /** Nor a command without arguments, nor one whose first argument is not announced with a dollar sign. */
  lemma CountRefused(cmds: seq<seq<bytes>>, n: nat, rest: bytes)
    requires AllLoggable(cmds) && n <= Decimal.LLONG_MAX && (n > 0 ==> rest == [] || rest[0] != DOLLAR)
    ensures LoadLog(PrintAll(cmds) + (Line(STAR, n) + rest), 0) == None
  {
    hide PrintAll, Line, LoadVector, LoadLog;
    var front := PrintAll(cmds);
    var src := front + (Line(STAR, n) + rest);
    StandsBetween(front, Line(STAR, n), rest);
    LogGoesOn(cmds, src, 0);
    VectorRefused(src, |front|, n);
    LogStep(src, |front|);
  }

  // Truncated files ------------------------------------------------------------------------------

  /** The rest of the file is a proper part of `e`, from its beginning. */
  ghost predicate Cut(src: bytes, pos: nat, e: bytes) {
    pos <= |src| < pos + |e| && src[pos..] == e[..|src| - pos]
  }

  /** A cut falls into the first part of something, or into the rest after it. */
  lemma CutApart(src: bytes, pos: nat, a: bytes, b: bytes)
    requires Cut(src, pos, a + b)
    ensures Cut(src, pos, a) || (Stands(src, pos, a) && Cut(src, pos + |a|, b))
  {
    var n := |src| - pos;
    if n < |a| {
      assert (a + b)[..n] == a[..n];
    } else {
      assert src[pos..pos + |a|] == src[pos..][..|a|] == (a + b)[..n][..|a|] == a;
      assert src[pos + |a|..] == src[pos..][|a|..] == (a + b)[..n][|a|..] == b[..n - |a|];
    }
  }

  /** A line that was cut is taken to its end: whatever number is read, nothing follows. */
  lemma CountCut(prefix: u8, n: nat, src: bytes, pos: nat)
    requires n <= Decimal.LLONG_MAX && prefix != LF && Cut(src, pos, Line(prefix, n))
    ensures var r := LoadCount(src, pos, prefix); r.Some? ==> r.value.pos == |src|
  {
    LineShort(prefix, n);
    var line := Line(prefix, n);
    assert forall i :: pos <= i < |src| ==> src[i] == src[pos..][i - pos] == line[i - pos];
    NoLineYet(src, pos, |src|, LINE_SIZE);
  }

  lemma ArgCut(arg: bytes, src: bytes, pos: nat)
    requires |arg| <= Decimal.LLONG_MAX && Cut(src, pos, Bulk(arg))
    ensures LoadArg(src, pos) == None
  {
    hide LoadCount, Line;
    var line := Line(DOLLAR, |arg|);
    CutApart(src, pos, line, arg + CRLF);
    if Cut(src, pos, line) {
      CountCut(DOLLAR, |arg|, src, pos);
    } else {
      CountLoads(DOLLAR, |arg|, src, pos);
    }
  }

  lemma {:induction false} ArgsCut(args: seq<bytes>, src: bytes, pos: nat)
    requires (forall i :: 0 <= i < |args| ==> |args[i]| <= Decimal.LLONG_MAX) && Cut(src, pos, Bulks(args))
    ensures LoadArgs(src, pos, |args|) == None
    decreases |args|
  {
    hide LoadArg, Bulk;
    if args != [] {
      CutApart(src, pos, Bulk(args[0]), Bulks(args[1..]));
      if Cut(src, pos, Bulk(args[0])) {
        ArgCut(args[0], src, pos);
      } else {
        ArgLoads(args[0], src, pos);
        ArgsCut(args[1..], src, pos + |Bulk(args[0])|);
      }
    }
  }

  lemma VectorCut(argv: seq<bytes>, src: bytes, pos: nat)
    requires Loggable(argv) && Cut(src, pos, PrintCommand(argv))
    ensures LoadVector(src, pos) == None
  {
    hide LoadCount, LoadArg, Line, Bulks;
    CutApart(src, pos, Line(STAR, |argv|), Bulks(argv));
    if Cut(src, pos, Line(STAR, |argv|)) {
      CountCut(STAR, |argv|, src, pos);
    } else {
      CountLoads(STAR, |argv|, src, pos);
      ArgsCut(argv, src, pos + |Line(STAR, |argv|)|);
    }
  }

  /** How many whole commands the first `k` octets of a log hold. */
  function Whole(cmds: seq<seq<bytes>>, k: nat): (n: nat)
    ensures n <= |cmds|
    decreases |cmds|
  {
    if cmds == [] || k < |PrintCommand(cmds[0])| then 0 else 1 + Whole(cmds[1..], k - |PrintCommand(cmds[0])|)
  }

  /** The whole commands that the first `k` octets consist of. */
  function FrontOf(cmds: seq<seq<bytes>>, k: nat): Option<seq<seq<bytes>>> {
    var n := Whole(cmds, k);
    if k == |PrintAll(cmds[..n])| then Some(cmds[..n]) else None
  }

  /** The rest of the file is the front of `e`. */
  ghost predicate IsFront(src: bytes, pos: nat, e: bytes) {
    pos <= |src| <= pos + |e| && src[pos..] == e[..|src| - pos]
  }

  lemma SmallFront(c: bytes, rest: bytes, k: nat)
    requires k < |c|
    ensures (c + rest)[..k] == c[..k]
  {}

  lemma FrontApart(src: bytes, pos: nat, c: bytes, rest: bytes)
    requires pos + |c| <= |src| <= pos + |c + rest| && src[pos..] == (c + rest)[..|src| - pos]
    ensures Stands(src, pos, c) && src[pos + |c|..] == rest[..|src| - pos - |c|]
  {
    var n := |src| - pos;
    assert src[pos..pos + |c|] == src[pos..][..|c|] == (c + rest)[..n][..|c|];
    assert src[pos + |c|..] == src[pos..][|c|..] == (c + rest)[..n][|c|..];
  }

  lemma FirstApart(cmds: seq<seq<bytes>>, src: bytes, pos: nat)
    requires AllLoggable(cmds) && IsFront(src, pos, PrintAll(cmds)) && pos < |src|
    ensures cmds != [] && Loggable(cmds[0]) && AllLoggable(cmds[1..])
    ensures var c := PrintCommand(cmds[0]);
            Cut(src, pos, c)
            || (pos + |c| <= |src| && Stands(src, pos, c) && IsFront(src, pos + |c|, PrintAll(cmds[1..])))
  {
    assert Loggable(cmds[0]);
    var c, rest := PrintCommand(cmds[0]), PrintAll(cmds[1..]);
    assert PrintAll(cmds) == c + rest;
    if |src| - pos < |c| {
      SmallFront(c, rest, |src| - pos);
    } else {
      FrontApart(src, pos, c, rest);
    }
  }

  lemma OneMoreWhole(cmds: seq<seq<bytes>>, k: nat)
    requires cmds != [] && k >= |PrintCommand(cmds[0])|
    ensures var n := Whole(cmds[1..], k - |PrintCommand(cmds[0])|);
            && Whole(cmds, k) == n + 1 && cmds[..n + 1] == [cmds[0]] + cmds[1..][..n]
            && PrintAll(cmds[..n + 1]) == PrintCommand(cmds[0]) + PrintAll(cmds[1..][..n])
  {
    var n := Whole(cmds[1..], k - |PrintCommand(cmds[0])|);
    assert cmds[..n + 1][1..] == cmds[1..][..n];
  }

  lemma FrontMore(cmds: seq<seq<bytes>>, k: nat)
    requires cmds != [] && k >= |PrintCommand(cmds[0])|
    ensures var rest := FrontOf(cmds[1..], k - |PrintCommand(cmds[0])|);
            FrontOf(cmds, k) == if rest.None? then None else Some([cmds[0]] + rest.value)
  {
    hide PrintCommand, PrintAll;
    OneMoreWhole(cmds, k);
  }

  lemma NotOneWhole(cmds: seq<seq<bytes>>, src: bytes, pos: nat)
    requires cmds != [] && pos < |src| && Cut(src, pos, PrintCommand(cmds[0]))
    ensures FrontOf(cmds, |src| - pos) == None
  {
    assert Whole(cmds, |src| - pos) == 0 && PrintAll(cmds[..0]) == [];
  }

  lemma NoneWhole(cmds: seq<seq<bytes>>)
    requires AllLoggable(cmds)
    ensures FrontOf(cmds, 0) == Some([])
  {
    if cmds != [] {
      assert Loggable(cmds[0]);
      LineShort(STAR, |cmds[0]|);
    }
    assert cmds[..0] == [] && Whole(cmds, 0) == 0;
  }

  /** The loader accepts the front of a log just when it ends between two commands, and reads exactly
      the whole commands then; a log that lost its tail in the middle of a command is refused. */
  lemma {:induction false} FrontLoads(cmds: seq<seq<bytes>>, src: bytes, pos: nat)
    requires AllLoggable(cmds) && pos <= |src| && IsFront(src, pos, PrintAll(cmds))
    ensures LoadLog(src, pos) == FrontOf(cmds, |src| - pos)
    decreases |cmds|
  {
    hide LoadVector, LoadLog, PrintCommand, Loggable, PrintAll, AllLoggable, IsFront, FrontOf, Cut, Stands;
    LogStep(src, pos);
    if pos == |src| {
      NoneWhole(cmds);
    } else {
      FirstApart(cmds, src, pos);
      var next := pos + |PrintCommand(cmds[0])|;
      if Cut(src, pos, PrintCommand(cmds[0])) {
        VectorCut(cmds[0], src, pos);
        NotOneWhole(cmds, src, pos);
      } else {
        VectorLoads(cmds[0], src, pos);
        FrontLoads(cmds[1..], src, next);
        FrontMore(cmds, |src| - pos);
      }
    }
  }

  // The loops ------------------------------------------------------------------------------------

  method ReadArg(src: bytes, pos0: nat) returns (arg: Option<bytes>, pos: nat)
    requires pos0 <= |src|
    ensures match LoadArg(src, pos0)
            case None => arg == None
            case Some(r) => arg == Some(r.value) && pos == r.pos
    ensures arg.Some? ==> pos <= |src|
  {
    hide Decimal.Atoi, LineEnd;
    pos := pos0;
    if pos == |src| || src[pos] != DOLLAR {
      return None, pos;
    }
    var end := LineEnd(src, pos, LINE_SIZE);
    var len := Decimal.Atoi(src[pos + 1..end]);
    pos := end;
    if len < 0 || pos + len + 2 > |src| {
      return None, pos;
    }
    arg := Some(src[pos..pos + len]);
    pos := pos + len + 2;
  }

  method ReadArgs(src: bytes, pos0: nat, argc: nat) returns (argv: Option<seq<bytes>>, pos: nat)
    requires pos0 <= |src|
    ensures match LoadArgs(src, pos0, argc)
            case None => argv == None
            case Some(r) => argv == Some(r.value) && pos == r.pos
  {
    hide LoadArg;
    pos := pos0;
    ghost var whole := LoadArgs(src, pos, argc);
    var args: seq<bytes>, j: int := [], 0;
    assert whole.Some? ==> [] + whole.value.value == whole.value.value;
    while j < argc
      invariant 0 <= j <= argc && pos <= |src|
      invariant match LoadArgs(src, pos, argc - j)
                case None => whole == None
                case Some(r) => whole == Some(Read(args + r.value, r.pos))
    {
      ghost var rest := LoadArgs(src, pos, argc - j);
      var arg;
      arg, pos := ReadArg(src, pos);
      if arg.None? {
        return None, pos;
      }
      assert rest.Some? ==> args + rest.value.value == (args + [arg.value]) + rest.value.value[1..];
      args := args + [arg.value];
      j := j + 1;
    }
    assert args + [] == args;
    argv := Some(args);
  }

  /** One vector, as the loops of the loader read it. */
  method ReadVector(src: bytes, pos0: nat) returns (argv: Option<seq<bytes>>, pos: nat)
    requires pos0 < |src|
    ensures match LoadVector(src, pos0)
            case None => argv == None
            case Some(r) => argv == Some(r.value) && pos == r.pos
  {
    hide Decimal.Atoi, LineEnd;
    pos := pos0;
    if src[pos] != STAR {
      return None, pos;
    }
    var end := LineEnd(src, pos, LINE_SIZE);
    var argc := Decimal.Atoi(src[pos + 1..end]);
    pos := end;
    if argc < 1 {
      return None, pos;
    }
    argv, pos := ReadArgs(src, pos, argc);
  }

  /** loadAppendOnlyFile: the vectors that are executed one by one, or a fatal error. */
  method LoadAppendOnlyFile(src: bytes) returns (executed: Option<seq<seq<bytes>>>)
    ensures executed == LoadLog(src, 0)
  {
    hide LoadVector;
    ghost var whole := LoadLog(src, 0);
    var done: seq<seq<bytes>>, pos: nat := [], 0;
    assert whole.Some? ==> [] + whole.value == whole.value;
    while pos < |src|
      invariant pos <= |src|
      invariant match LoadLog(src, pos)
                case None => whole == None
                case Some(rest) => whole == Some(done + rest)
    {
      ghost var rest := LoadLog(src, pos);
      var argv;
      argv, pos := ReadVector(src, pos);
      if argv.None? {
        return None;
      }
      assert rest.Some? ==> done + rest.value == (done + [argv.value]) + rest.value[1..];
      done := done + [argv.value];
    }
    assert done + [] == done;
    executed := Some(done);
  }
}
