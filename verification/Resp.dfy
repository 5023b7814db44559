/**
 The multibulk request format in which clients send commands and in which the append only file keeps
 them: how a command is printed (catAppendOnlyGenericCommand in aof.c).
 */
module Resp {
  import opened Bytes
  import Decimal

  const CR: u8 := 13
  const LF: u8 := 10
  const CRLF: bytes := [13, 10]
  const STAR: u8 := 42    // *
  const DOLLAR: u8 := 36  // $

  /** A prefix, a number, and the end of the line. */
  function Line(prefix: u8, n: int): bytes {
    [prefix] + Decimal.Print(n) + CRLF
  }

  function Bulk(s: bytes): bytes {
    Line(DOLLAR, |s|) + (s + CRLF)
  }

  function Bulks(args: seq<bytes>): bytes {
    if args == [] then [] else Bulk(args[0]) + Bulks(args[1..])
  }

  function PrintCommand(argv: seq<bytes>): bytes {
    Line(STAR, |argv|) + Bulks(argv)
  }

  function PrintAll(cmds: seq<seq<bytes>>): bytes {
    if cmds == [] then [] else PrintCommand(cmds[0]) + PrintAll(cmds[1..])
  }

  lemma {:induction false} BulksAppend(a: seq<bytes>, b: seq<bytes>)
    ensures Bulks(a + b) == Bulks(a) + Bulks(b)
    decreases |a|
  {
    if a == [] {
      assert a + b == b;
    } else {
      assert (a + b)[1..] == a[1..] + b;
      BulksAppend(a[1..], b);
      assert Bulk(a[0]) + (Bulks(a[1..]) + Bulks(b)) == (Bulk(a[0]) + Bulks(a[1..])) + Bulks(b);
    }
  }

  lemma {:induction false} PrintAllAppend(a: seq<seq<bytes>>, b: seq<seq<bytes>>)
    ensures PrintAll(a + b) == PrintAll(a) + PrintAll(b)
    decreases |a|
  {
    hide PrintCommand;
    if a == [] {
      assert a + b == b;
    } else {
      assert (a + b)[1..] == a[1..] + b;
      PrintAllAppend(a[1..], b);
      assert PrintCommand(a[0]) + (PrintAll(a[1..]) + PrintAll(b))
          == (PrintCommand(a[0]) + PrintAll(a[1..])) + PrintAll(b);
    }
  }

  // Printing -------------------------------------------------------------------------------------

  /** A count or length line. */
  method CatLine(dst: bytes, prefix: u8, n: int) returns (r: bytes)
    ensures r == dst + Line(prefix, n)
  {
    var digits := Decimal.Ll2string(n);
    var buf := [prefix] + digits;
    buf := buf + [CR];
    buf := buf + [LF];
    assert buf == Line(prefix, n);
    r := dst + buf;
  }

  lemma OneMore(argv: seq<bytes>, j: nat)
    requires j < |argv|
    ensures Bulks(argv[..j + 1]) == Bulks(argv[..j]) + Bulk(argv[j])
  {
    assert argv[..j + 1] == argv[..j] + [argv[j]];
    BulksAppend(argv[..j], [argv[j]]);
    var last := [argv[j]];
    assert last[1..] == [] && Bulks(last) == Bulk(argv[j]) + Bulks(last[1..]);
  }

  /** catAppendOnlyGenericCommand */
  method CatAppendOnlyGenericCommand(dst: bytes, argv: seq<bytes>) returns (r: bytes)
    ensures r == dst + PrintCommand(argv)
  {
    hide Line;
    r := CatLine(dst, STAR, |argv|);
    ghost var head := Line(STAR, |argv|);
    assert Bulks(argv[..0]) == [];
    var j := 0;
    while j < |argv|
      invariant j <= |argv| && r == dst + (head + Bulks(argv[..j]))
    {
      ghost var r0 := r;
      r := CatLine(r, DOLLAR, |argv[j]|);
      r := r + argv[j];
      r := r + CRLF;
      assert r == r0 + Bulk(argv[j]);
      OneMore(argv, j);
      j := j + 1;
    }
    assert argv[..j] == argv;
  }
}
