/**
 Typed commands and the vectors of strings that stand for them in a log, and the octets that
 feedAppendOnlyFile (aof.c) makes of a command. Together with the loader, a log of octets restores
 the keyspace just as the log of commands does.
 */
module AofCodec {
  import opened Bytes
  import opened Keyspace
  import opened Wrappers
  import AofFile
  import AofReplay
  import AofRewrite
  import Decimal
  import Resp

  // Names ----------------------------------------------------------------------------------------

  datatype Name =
    | NSet | NSetnx | NSetex | NPsetex | NExpire | NPexpire
    | NExpireat | NPexpireat | NPersist | NDel | NRename | NRenamenx
    | NMove | NRpush | NSadd | NHmset | NFlushdb | NFlushall
    | NSelect | NGet | NMulti | NExec

  function Spelled(n: Name): bytes {
    match n
    case NSet => [83, 69, 84]  // SET
    case NSetnx => [83, 69, 84, 78, 88]  // SETNX
    case NSetex => [83, 69, 84, 69, 88]  // SETEX
    case NPsetex => [80, 83, 69, 84, 69, 88]  // PSETEX
    case NExpire => [69, 88, 80, 73, 82, 69]  // EXPIRE
    case NPexpire => [80, 69, 88, 80, 73, 82, 69]  // PEXPIRE
    case NExpireat => [69, 88, 80, 73, 82, 69, 65, 84]  // EXPIREAT
    case NPexpireat => [80, 69, 88, 80, 73, 82, 69, 65, 84]  // PEXPIREAT
    case NPersist => [80, 69, 82, 83, 73, 83, 84]  // PERSIST
    case NDel => [68, 69, 76]  // DEL
    case NRename => [82, 69, 78, 65, 77, 69]  // RENAME
    case NRenamenx => [82, 69, 78, 65, 77, 69, 78, 88]  // RENAMENX
    case NMove => [77, 79, 86, 69]  // MOVE
    case NRpush => [82, 80, 85, 83, 72]  // RPUSH
    case NSadd => [83, 65, 68, 68]  // SADD
    case NHmset => [72, 77, 83, 69, 84]  // HMSET
    case NFlushdb => [70, 76, 85, 83, 72, 68, 66]  // FLUSHDB
    case NFlushall => [70, 76, 85, 83, 72, 65, 76, 76]  // FLUSHALL
    case NSelect => [83, 69, 76, 69, 67, 84]  // SELECT
    case NGet => [71, 69, 84]  // GET
    case NMulti => [77, 85, 76, 84, 73]  // MULTI
    case NExec => [69, 88, 69, 67]  // EXEC
  }

  function Upper(s: bytes): (r: bytes)
    ensures |r| == |s|
  {
    seq(|s|, i requires 0 <= i < |s| => if 97 <= s[i] <= 122 then s[i] - 32 else s[i])
  }

  /** The name in a list of candidates. */
  function Among(s: bytes, names: seq<Name>): Option<Name> {
    if names == [] then None
    else if s == Spelled(names[0]) then Some(names[0])
    else Among(s, names[1..])
  }

  const NAMES_0: seq<Name> := [NSet, NSetnx, NSetex, NPsetex, NExpire, NPexpire, NExpireat, NPexpireat]
  const NAMES_1: seq<Name> := [NPersist, NDel, NRename, NRenamenx, NMove, NRpush, NSadd]
  const NAMES_2: seq<Name> := [NHmset, NFlushdb, NFlushall, NSelect, NGet, NMulti, NExec]
  const ALL_NAMES: seq<Name> := NAMES_0 + NAMES_1 + NAMES_2

  /** lookupCommand: letter case does not matter. */
  function NameOf(s: bytes): Option<Name> {
    Among(Upper(s), ALL_NAMES)
  }

  /** No two names are spelled alike. */
  lemma SpelledDistinct(m: Name, n: Name)
    ensures Spelled(m) == Spelled(n) ==> m == n
  {
    var a, b := Spelled(m), Spelled(n);
    if a == b {
      assert |a| == |b| && a[0] == b[0] && a[1] == b[1] && a[2] == b[2];
    }
  }

  lemma {:induction false} AmongFinds(n: Name, names: seq<Name>)
    requires n in names
    ensures Among(Spelled(n), names) == Some(n)
    decreases |names|
  {
    hide Spelled;
    SpelledDistinct(n, names[0]);
    if n != names[0] {
      AmongFinds(n, names[1..]);
    }
  }

  lemma AlreadyUpper(n: Name)
    ensures Upper(Spelled(n)) == Spelled(n)
  {}

  lemma NameRoundTrip(n: Name)
    ensures NameOf(Spelled(n)) == Some(n)
  {
    hide Spelled, Upper, Among;
    AlreadyUpper(n);
    AmongFinds(n, ALL_NAMES);
  }

  lemma SpelledLetters(n: Name)
    ensures forall i :: 0 <= i < |Spelled(n)| ==> 65 <= Spelled(n)[i] <= 90
  {}

  lemma {:induction false} AmongFound(s: bytes, names: seq<Name>)
    ensures Among(s, names).Some? ==> Spelled(Among(s, names).value) == s
    decreases |names|
  {
    hide Spelled;
    if names != [] {
      AmongFound(s, names[1..]);
    }
  }

  /** A capital letter, or the small one for it. */
  predicate SameLetter(b: u8, capital: u8) {
    b == capital || b as int == capital as int + 32
  }

  lemma UpperLetters(s: bytes, name: bytes)
    requires forall i :: 0 <= i < |name| ==> 65 <= name[i] <= 90
    ensures Upper(s) == name <==> |s| == |name| && forall i :: 0 <= i < |s| ==> SameLetter(s[i], name[i])
  {}

  /** A name is found if and only if it is spelled with its letters, each in either case. */
  lemma AnyCase(s: bytes, n: Name)
    ensures NameOf(s) == Some(n) <==>
            |s| == |Spelled(n)| && forall i :: 0 <= i < |s| ==> SameLetter(s[i], Spelled(n)[i])
  {
    hide Spelled, Upper, Among, SameLetter;
    SpelledLetters(n);
    UpperLetters(s, Spelled(n));
    AmongFound(Upper(s), ALL_NAMES);
    AmongFinds(n, ALL_NAMES);
  }

  // Vectors --------------------------------------------------------------------------------------

  function NameFor(c: Command): Name {
    match c
    case SetCmd(_, _) => NSet
    case SetNx(_, _) => NSetnx
    case SetEx(_, _, unit, _) => if unit == Seconds then NSetex else NPsetex
    case Expire(_, _, unit, relative) =>
      if relative then (if unit == Seconds then NExpire else NPexpire)
      else if unit == Seconds then NExpireat else NPexpireat
    case Persist(_) => NPersist
    case Del(_) => NDel
    case Rename(_, _, nx) => if nx then NRenamenx else NRename
    case Move(_, _) => NMove
    case RPush(_, _) => NRpush
    case SAdd(_, _) => NSadd
    case HMSet(_, _) => NHmset
    case FlushDb => NFlushdb
    case FlushAll => NFlushall
    case Select(_) => NSelect
    case Get(_) => NGet
    case Multi => NMulti
    case Exec => NExec
  }

  function Arguments(c: Command): seq<bytes> {
    match c
    case SetCmd(k, v) => [k, v]
    case SetNx(k, v) => [k, v]
    case SetEx(k, ttl, _, v) => [k, Decimal.Print(ttl), v]
    case Expire(k, arg, _, _) => [k, Decimal.Print(arg)]
    case Persist(k) => [k]
    case Del(ks) => ks
    case Rename(src, dst, _) => [src, dst]
    case Move(k, db) => [k, Decimal.Print(db)]
    case RPush(k, items) => [k] + items
    case SAdd(k, items) => [k] + items
    case HMSet(k, args) => [k] + args
    case Select(id) => [Decimal.Print(id)]
    case Get(k) => [k]
    case _ => []
  }

  function Argv(c: Command): seq<bytes> {
    [Spelled(NameFor(c))] + Arguments(c)
  }

  function SetExOf(a: seq<bytes>, unit: Unit): Option<Command> {
    if |a| == 3 && Decimal.Parse(a[1]).Some? then Some(SetEx(a[0], Decimal.Parse(a[1]).value, unit, a[2])) else None
  }

  function ExpireOf(a: seq<bytes>, unit: Unit, relative: bool): Option<Command> {
    if |a| == 2 && Decimal.Parse(a[1]).Some? then Some(Expire(a[0], Decimal.Parse(a[1]).value, unit, relative))
    else None
  }

  /** The command with a name and arguments, numbers in canonical form. */
  function Build(n: Name, a: seq<bytes>): Option<Command> {
    match n
    case NSet => if |a| == 2 then Some(SetCmd(a[0], a[1])) else None
    case NSetnx => if |a| == 2 then Some(SetNx(a[0], a[1])) else None
    case NSetex => SetExOf(a, Seconds)
    case NPsetex => SetExOf(a, Milliseconds)
    case NExpire => ExpireOf(a, Seconds, true)
    case NPexpire => ExpireOf(a, Milliseconds, true)
    case NExpireat => ExpireOf(a, Seconds, false)
    case NPexpireat => ExpireOf(a, Milliseconds, false)
    case NPersist => if |a| == 1 then Some(Persist(a[0])) else None
    case NDel => Some(Del(a))
    case NRename => if |a| == 2 then Some(Rename(a[0], a[1], false)) else None
    case NRenamenx => if |a| == 2 then Some(Rename(a[0], a[1], true)) else None
    case NMove => if |a| == 2 && Decimal.Parse(a[1]).Some? then Some(Move(a[0], Decimal.Parse(a[1]).value)) else None
    case NRpush => if |a| >= 1 then Some(RPush(a[0], a[1..])) else None
    case NSadd => if |a| >= 1 then Some(SAdd(a[0], a[1..])) else None
    case NHmset => if |a| >= 1 then Some(HMSet(a[0], a[1..])) else None
    case NFlushdb => if a == [] then Some(FlushDb) else None
    case NFlushall => if a == [] then Some(FlushAll) else None
    case NSelect => if |a| == 1 && Decimal.Parse(a[0]).Some? then Some(Select(Decimal.Parse(a[0]).value)) else None
    case NGet => if |a| == 1 then Some(Get(a[0])) else None
    case NMulti => if a == [] then Some(Multi) else None
    case NExec => if a == [] then Some(Exec) else None
  }

  function CommandOf(argv: seq<bytes>): Option<Command> {
    if argv == [] then None
    else
      var n := NameOf(argv[0]);
      if n.None? then None else Build(n.value, argv[1..])
  }

  /** Numbers of 64 bits. */
  predicate Encodable(c: Command) {
    match c
    case SetEx(_, ttl, _, _) => Decimal.InRange(ttl)
    case Expire(_, arg, _, _) => Decimal.InRange(arg)
    case Move(_, db) => Decimal.InRange(db)
    case Select(id) => Decimal.InRange(id)
    case _ => true
  }

  predicate HasNumber(c: Command) {
    c.SetEx? || c.Expire? || c.Move? || c.Select?
  }

  lemma BuildUndoesNumber(c: Command)
    requires Encodable(c) && HasNumber(c)
    ensures Build(NameFor(c), Arguments(c)) == Some(c)
  {
    hide Decimal.Parse, Decimal.Print, Decimal.InRange;
    match c
    case SetEx(_, ttl, _, _) => Decimal.ParseIffPrinted(Decimal.Print(ttl), ttl);
    case Expire(_, arg, _, _) => Decimal.ParseIffPrinted(Decimal.Print(arg), arg);
    case Move(_, db) => Decimal.ParseIffPrinted(Decimal.Print(db), db);
    case Select(id) => Decimal.ParseIffPrinted(Decimal.Print(id), id);
  }

  lemma BuildUndoes(c: Command)
    requires Encodable(c)
    ensures Build(NameFor(c), Arguments(c)) == Some(c)
  {
    if HasNumber(c) {
      hide Build, Arguments, NameFor, Encodable;
      BuildUndoesNumber(c);
    } else {
      hide Decimal.Parse, Decimal.Print, Decimal.InRange;
    }
  }

  /** A command survives its vector. */
  lemma CommandRoundTrip(c: Command)
    requires Encodable(c)
    ensures CommandOf(Argv(c)) == Some(c)
  {
    hide Spelled, NameOf, Build, Arguments, Encodable;
    NameRoundTrip(NameFor(c));
    BuildUndoes(c);
    assert Argv(c)[1..] == Arguments(c);
  }

  // Logs -----------------------------------------------------------------------------------------

  function Argvs(log: seq<Command>): (r: seq<seq<bytes>>)
    ensures |r| == |log|
  {
    seq(|log|, i requires 0 <= i < |log| => Argv(log[i]))
  }

  /** The octets of a log. */
  function Print(log: seq<Command>): bytes {
    Resp.PrintAll(Argvs(log))
  }

  ghost predicate Writable(log: seq<Command>) {
    forall i :: 0 <= i < |log| ==> Encodable(log[i]) && AofFile.Loggable(Argv(log[i]))
  }

  function Commands(argvs: seq<seq<bytes>>): Option<seq<Command>> {
    if argvs == [] then Some([])
    else
      var first, rest := CommandOf(argvs[0]), Commands(argvs[1..]);
      if first.None? || rest.None? then None else Some([first.value] + rest.value)
  }

  lemma {:induction false} CommandsRoundTrip(log: seq<Command>)
    requires Writable(log)
    ensures Commands(Argvs(log)) == Some(log)
    decreases |log|
  {
    hide CommandOf, Argv, AofFile.Loggable, Encodable;
    if log != [] {
      assert Encodable(log[0]);
      CommandRoundTrip(log[0]);
      assert Argvs(log)[1..] == Argvs(log[1..]);
      CommandsRoundTrip(log[1..]);
      assert log == [log[0]] + log[1..];
    }
  }

  /** loadAppendOnlyFile as a whole: the keyspace after loading a file; nothing when the file is
      malformed, holds an unknown command, or ends inside MULTI. */
  function LoadFile(src: bytes, n: nat, now: int): Option<seq<Db>>
    requires n > 0
  {
    var argvs := AofFile.LoadLog(src, 0);
    if argvs.None? then None
    else
      var log := Commands(argvs.value);
      if log.None? then None
      else
        var r := AofReplay.Load(log.value, AofReplay.Empty(n), now);
        if r.multi then None else Some(r.dbs)
  }

  lemma FileLoads(log: seq<Command>, n: nat, now: int)
    requires n > 0 && Writable(log) && !AofReplay.Load(log, AofReplay.Empty(n), now).multi
    ensures LoadFile(Print(log), n, now) == Some(AofReplay.Load(log, AofReplay.Empty(n), now).dbs)
  {
    hide AofReplay.Load, AofFile.LoadLog, Resp.PrintAll, Commands, AofFile.Loggable, Argv;
    var cmds, src := Argvs(log), Print(log);
    assert AofFile.AllLoggable(cmds);
    assert src[0..] == src && src[0..|src|] == src;
    AofFile.LogLoads(cmds, src, 0);
    CommandsRoundTrip(log);
  }

  // Feeding octets -------------------------------------------------------------------------------

  lemma PrintOne(c: Command)
    ensures Print([c]) == Resp.PrintCommand(Argv(c))
  {
    hide Argv;
    var one := Argvs([c]);
    assert one == [Argv(c)] && one[1..] == [];
    assert Resp.PrintAll(one) == Resp.PrintCommand(one[0]) + Resp.PrintAll(one[1..]);
  }

  lemma PrintConcat(a: seq<Command>, b: seq<Command>)
    ensures Print(a + b) == Print(a) + Print(b)
  {
    hide Argv;
    assert Argvs(a + b) == Argvs(a) + Argvs(b);
    Resp.PrintAllAppend(Argvs(a), Argvs(b));
  }

  lemma TwoBulks(a: bytes, b: bytes)
    ensures Resp.PrintCommand([a, b]) == [42, 50, 13, 10] + (Resp.Bulk(a) + Resp.Bulk(b))
  {
    hide Resp.Bulk;
    var argv, last, none: seq<bytes> := [a, b], [b], [];
    assert Decimal.Print(2) == [50];
    assert argv[1..] == last && last[1..] == none;
    assert Resp.Bulks(none) == [];
    assert Resp.Bulks(last) == Resp.Bulk(b) + [];
  }

  lemma SelectBulk()
    ensures Resp.Bulk(Spelled(NSelect)) == [36, 54, 13, 10] + (Spelled(NSelect) + Resp.CRLF)
  {
    assert Decimal.Print(6) == [54];
  }

  lemma Regroup(a: bytes, b: bytes, c: bytes, d: bytes, e: bytes, f: bytes)
    ensures (a + b) + c + (d + e + f) == a + ((b + c) + (d + (e + f)))
  {}

  /** The SELECT that feedAppendOnlyFile prints by hand is the usual one. */
  lemma SelectPrinted(id: nat, text: bytes)
    requires text == Decimal.Print(id)
    ensures [42, 50, 13, 10, 36, 54, 13, 10] + (Spelled(NSelect) + Resp.CRLF)
              + (Resp.Line(Resp.DOLLAR, |text|) + text + Resp.CRLF)
            == Resp.PrintCommand(Argv(Select(id)))
  {
    var name := Spelled(NSelect);
    assert Argv(Select(id)) == [name, text];
    hide Resp.PrintCommand, Resp.Line, Spelled, Argv, Decimal.Print;
    TwoBulks(name, text);
    SelectBulk();
    Regroup([42, 50, 13, 10], [36, 54, 13, 10], name + Resp.CRLF, Resp.Line(Resp.DOLLAR, |text|), text, Resp.CRLF);
  }

  /** catAppendOnlyExpireAtCommand: the absolute time in milliseconds. */
  method CatAppendOnlyExpireAtCommand(buf: bytes, key: bytes, arg: int, unit: Unit, relative: bool, now: int)
    returns (r: bytes)
    ensures var when := InMs(arg, unit) + if relative then now else 0;
            r == buf + Resp.PrintCommand(Argv(Expire(key, when, Milliseconds, false)))
  {
    hide Resp.PrintCommand;
    var when := arg;
    if unit == Seconds {
      when := when * 1000;
    }
    if relative {
      when := when + now;
    }
    var text := Decimal.Ll2string(when);
    r := Resp.CatAppendOnlyGenericCommand(buf, [Spelled(NPexpireat), key, text]);
    assert [Spelled(NPexpireat), key, text] == Argv(Expire(key, when, Milliseconds, false));
  }

  lemma PrintNone()
    ensures Print([]) == []
  {}

  method CatCommand(buf0: bytes, c: Command) returns (buf: bytes)
    ensures buf == buf0 + Resp.PrintCommand(Argv(c))
  {
    hide Resp.PrintCommand;
    buf := Resp.CatAppendOnlyGenericCommand(buf0, Argv(c));
  }

  method CatTranslated(buf0: bytes, c: Command, now: int) returns (buf: bytes)
    ensures buf == buf0 + Print(AofReplay.Translate(c, now))
  {
    hide Resp.PrintCommand, Argv, Resp.PrintAll, Print;
    ghost var translated := AofReplay.Translate(c, now);
    if c.Expire? && (c.unit == Seconds || c.relative) {
      buf := CatAppendOnlyExpireAtCommand(buf0, c.key, c.arg, c.unit, c.relative, now);
      PrintOne(translated[0]);
    } else if c.SetEx? {
      buf := CatCommand(buf0, SetCmd(c.key, c.val));
      buf := CatAppendOnlyExpireAtCommand(buf, c.key, c.ttl, c.unit, true, now);
      PrintOne(translated[0]);
      PrintOne(translated[1]);
      PrintConcat([translated[0]], [translated[1]]);
      assert translated == [translated[0]] + [translated[1]];
    } else {
      buf := CatCommand(buf0, c);
      PrintOne(c);
    }
  }

  /** feedAppendOnlyFile, up to where the octets go: those of a SELECT when the database differs from the
      last one, and those of the command with its expiry made absolute. */
  method FeedOctets(c: Command, dictid: nat, selected: int, now: int) returns (buf: bytes)
    ensures buf == Print(AofReplay.Feed(c, dictid, selected, now))
  {
    hide Resp.PrintCommand, Argv, Resp.PrintAll, Print, Spelled;
    buf := [];
    ghost var head := if dictid != selected then [Select(dictid)] else [];
    if dictid != selected {
      var seldb := Decimal.Ll2string(dictid);
      buf := [42, 50, 13, 10, 36, 54, 13, 10] + (Spelled(NSelect) + Resp.CRLF);
      buf := Resp.CatLine(buf, Resp.DOLLAR, |seldb|);
      buf := buf + seldb;
      buf := buf + Resp.CRLF;
      SelectPrinted(dictid, seldb);
      PrintOne(Select(dictid));
    } else {
      PrintNone();
    }
    buf := CatTranslated(buf, c, now);
    PrintConcat(head, AofReplay.Translate(c, now));
  }
}
