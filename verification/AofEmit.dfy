/**
 The rewriting child (aof.c): octets are written element by element, with a new command announced
 every 64 elements, before its elements are written. The announced counts are those of the elements
 that follow, and the whole file is the printed form of the rewritten log.
 */
module AofEmit {
  import opened AofRewrite
  import opened Bytes
  import opened Objects
  import opened Resp
  import opened RespStream
  import AofCodec
  import Decimal
  import Keyspace
  import Rio
  import Sequences

  /** How many strings some elements of one or two strings are. */
  function Strings(items: nat, each: nat): nat {
    if each == 2 then 2 * items else items
  }

  /** The head of a command for up to 64 elements of `each` strings. */
  function Head(name: bytes, key: bytes, items: nat, each: nat): bytes {
    var cmdItems := if items > ITEMS_PER_CMD then ITEMS_PER_CMD else items;
    Line(STAR, 2 + Strings(cmdItems, each)) + (Bulk(name) + Bulk(key))
  }

  /** How many elements of one or two strings some strings are. */
  function Items(n: nat, each: nat): nat {
    if each == 2 then n / 2 else n
  }

  predicate Whole(n: nat, each: nat) {
    each == 1 || (each == 2 && n % 2 == 0)
  }

  /** One element less. */
  lemma OneLess(n: nat, each: nat)
    requires Whole(n, each) && n > 0
    ensures 1 <= each <= 2 && each <= n && Whole(n - each, each) && Items(n, each) == Items(n - each, each) + 1
    ensures Items(0, each) == 0 && Whole(0, each)
  {}

  function Counted(count: nat): nat {
    if count + 1 == ITEMS_PER_CMD then 0 else count + 1
  }

  /** What is written for the elements `rest`, after `count` elements of the current command. */
  function Emission(name: bytes, key: bytes, rest: seq<bytes>, count: nat, each: nat): bytes
    requires Whole(|rest|, each)
    decreases |rest|
  {
    if rest == [] then []
    else
      (if count == 0 then Head(name, key, Items(|rest|, each), each) else [])
      + (Bulks(rest[..each]) + Emission(name, key, rest[each..], Counted(count), each))
  }

  lemma EmissionStep(name: bytes, key: bytes, rest: seq<bytes>, count: nat, each: nat)
    requires Whole(|rest|, each) && rest != [] && count > 0
    ensures Emission(name, key, rest, count, each)
            == Bulks(rest[..each]) + Emission(name, key, rest[each..], Counted(count), each)
  {}

  lemma EmissionEnd(name: bytes, key: bytes, count: nat, each: nat)
    requires Whole(0, each)
    ensures Emission(name, key, [], count, each) == []
  {}

  /** What comes after the strings of the current command. */
  function After(name: bytes, key: bytes, rest: seq<bytes>, n: nat, each: nat): bytes
    requires n <= |rest| && Whole(|rest|, each) && Whole(n, each)
  {
    if n == |rest| then [] else Emission(name, key, rest[n..], 0, each)
  }

  lemma NoItems(each: nat)
    ensures Items(0, each) == 0
  {}

  lemma Parted(rest: seq<bytes>, k: nat, n: nat)
    requires k <= n <= |rest|
    ensures rest[..n] == rest[..k] + rest[k..][..n - k] && rest[k..][n - k..] == rest[n..]
  {}

  lemma SameAfter(name: bytes, key: bytes, rest: seq<bytes>, each: nat, n: nat)
    requires Whole(|rest|, each) && Whole(n, each) && each <= n <= |rest|
    ensures Whole(|rest| - each, each) && Whole(n - each, each)
    ensures After(name, key, rest[each..], n - each, each) == After(name, key, rest, n, each)
  {
    hide Emission;
    Parted(rest, each, n);
  }

  lemma NothingFollows(name: bytes, key: bytes, rest: seq<bytes>, count: nat, each: nat)
    requires Whole(|rest|, each) && (rest == [] || count == 0)
    ensures Emission(name, key, rest, count, each) == Bulks(rest[..0]) + After(name, key, rest, 0, each)
  {
    assert rest[0..] == rest && Bulks(rest[..0]) == [];
  }

  /** Inside a command no further head is written: its remaining strings follow one another. */
  lemma {:induction false} Follows(name: bytes, key: bytes, rest: seq<bytes>, count: nat, each: nat, n: nat)
    requires Whole(|rest|, each) && 0 < count <= ITEMS_PER_CMD && Whole(n, each) && n <= |rest|
    requires if n == |rest| then Items(n, each) <= ITEMS_PER_CMD - count else Items(n, each) == ITEMS_PER_CMD - count
    ensures Emission(name, key, rest, if count == ITEMS_PER_CMD then 0 else count, each)
            == Bulks(rest[..n]) + After(name, key, rest, n, each)
    decreases n
  {
    hide Emission, Bulks, Items, Whole, After;
    if n == 0 {
      NoItems(each);
      NothingFollows(name, key, rest, if count == ITEMS_PER_CMD then 0 else count, each);
    } else {
      OneLess(n, each);
      OneLess(|rest|, each);
      var first, more := rest[..each], rest[each..];
      EmissionStep(name, key, rest, count, each);
      Follows(name, key, more, count + 1, each, n - each);
      SameAfter(name, key, rest, each, n);
      Parted(rest, each, n);
      BulksAppend(first, more[..n - each]);
      Sequences.Assoc(Bulks(first), Bulks(more[..n - each]), After(name, key, rest, n, each));
    }
  }

  // Commands -------------------------------------------------------------------------------------

  /** The commands that the pieces of an object stand for, as octets. */
  function PrintPieces(name: bytes, key: bytes, pieces: seq<seq<bytes>>): bytes
    decreases |pieces|
  {
    if pieces == [] then []
    else PrintCommand([name, key] + pieces[0]) + PrintPieces(name, key, pieces[1..])
  }

  lemma BulksCons(a: bytes, rest: seq<bytes>)
    ensures Bulks([a] + rest) == Bulk(a) + Bulks(rest)
  {
    var all := [a] + rest;
    assert all[1..] == rest && all[0] == a;
  }

  lemma PrintedApart(name: bytes, key: bytes, piece: seq<bytes>)
    ensures PrintCommand([name, key] + piece) == Line(STAR, 2 + |piece|) + (Bulk(name) + Bulk(key)) + Bulks(piece)
  {
    hide Line, Bulk, Bulks;
    assert [name, key] + piece == [name] + ([key] + piece);
    BulksCons(name, [key] + piece);
    BulksCons(key, piece);
    Sequences.Assoc(Bulk(name), Bulk(key), Bulks(piece));
    Sequences.Assoc(Line(STAR, 2 + |piece|), Bulk(name) + Bulk(key), Bulks(piece));
  }

  lemma FirstStep(name: bytes, key: bytes, rest: seq<bytes>, each: nat)
    requires Whole(|rest|, each) && rest != []
    ensures Emission(name, key, rest, 0, each)
            == Head(name, key, Items(|rest|, each), each)
                + (Bulks(rest[..each]) + Emission(name, key, rest[each..], 1, each))
  {}

  lemma FirstCount(len: nat, each: nat)
    requires Whole(len, each) && len > 0
    ensures var n := if len <= Strings(ITEMS_PER_CMD, each) then len else Strings(ITEMS_PER_CMD, each);
            && 0 < n <= len && Whole(n, each)
            && (if n == len then Items(n, each) <= ITEMS_PER_CMD else Items(n, each) == ITEMS_PER_CMD)
  {}

  lemma HeadCounts(name: bytes, key: bytes, len: nat, each: nat, n: nat)
    requires Whole(len, each) && n == if len <= Strings(ITEMS_PER_CMD, each) then len else Strings(ITEMS_PER_CMD, each)
    ensures Head(name, key, Items(len, each), each) == Line(STAR, 2 + n) + (Bulk(name) + Bulk(key))
  {
    hide Line, Bulk;
  }

  /** The first command and what follows it. */
  lemma FirstCommand(name: bytes, key: bytes, rest: seq<bytes>, each: nat)
    requires Whole(|rest|, each) && rest != []
    ensures var n := if |rest| <= Strings(ITEMS_PER_CMD, each) then |rest| else Strings(ITEMS_PER_CMD, each);
            Emission(name, key, rest, 0, each)
                == PrintCommand([name, key] + rest[..n]) + After(name, key, rest, n, each)
  {
    hide Bulks, Line, Bulk, PrintCommand, Emission, After, Head, Items, Whole, Strings;
    var n := if |rest| <= Strings(ITEMS_PER_CMD, each) then |rest| else Strings(ITEMS_PER_CMD, each);
    FirstCount(|rest|, each);
    OneLess(|rest|, each);
    OneLess(n, each);
    var first, more := rest[..each], rest[each..];
    FirstStep(name, key, rest, each);
    Follows(name, key, more, 1, each, n - each);
    SameAfter(name, key, rest, each, n);
    Parted(rest, each, n);
    BulksAppend(first, more[..n - each]);
    HeadCounts(name, key, |rest|, each, n);
    PrintedApart(name, key, rest[..n]);
    Sequences.Assoc(Bulks(first), Bulks(more[..n - each]), After(name, key, rest, n, each));
    Sequences.Assoc(Head(name, key, Items(|rest|, each), each), Bulks(rest[..n]), After(name, key, rest, n, each));
  }

  lemma PiecesStep(items: seq<bytes>, width: nat)
    requires width > 0 && items != []
    ensures Pieces(items, width) == if |items| <= width then [items]
              else [items[..width]] + Pieces(items[width..], width)
  {}

  lemma PrintPiecesCons(name: bytes, key: bytes, piece: seq<bytes>, pieces: seq<seq<bytes>>)
    ensures PrintPieces(name, key, [piece] + pieces)
              == PrintCommand([name, key] + piece) + PrintPieces(name, key, pieces)
  {
    var all := [piece] + pieces;
    assert all[1..] == pieces && all[0] == piece;
  }

  lemma NothingAfter(name: bytes, key: bytes, rest: seq<bytes>, each: nat)
    requires Whole(|rest|, each)
    ensures After(name, key, rest, |rest|, each) == []
  {}

  lemma SomethingAfter(name: bytes, key: bytes, rest: seq<bytes>, each: nat)
    requires Whole(|rest|, each) && |rest| > Strings(ITEMS_PER_CMD, each)
    ensures var n := Strings(ITEMS_PER_CMD, each);
            && Whole(n, each) && Whole(|rest| - n, each)
            && After(name, key, rest, n, each) == Emission(name, key, rest[n..], 0, each)
  {
    hide Emission;
  }

  lemma NoPieces(name: bytes, key: bytes, width: nat)
    requires width > 0
    ensures Pieces([], width) == [] && PrintPieces(name, key, []) == []
  {}

  lemma LastPiece(name: bytes, key: bytes, rest: seq<bytes>, each: nat)
    requires rest != [] && |rest| <= Strings(ITEMS_PER_CMD, each)
    ensures PrintPieces(name, key, Pieces(rest, Strings(ITEMS_PER_CMD, each)))
              == PrintCommand([name, key] + rest[..|rest|]) + []
  {
    hide PrintCommand, PrintPieces, Pieces;
    PiecesStep(rest, Strings(ITEMS_PER_CMD, each));
    assert rest[..|rest|] == rest && [rest] + [] == [rest];
    PrintPiecesCons(name, key, rest, []);
    NoPieces(name, key, Strings(ITEMS_PER_CMD, each));
  }

  /** Element by element, with the counts announced beforehand, or piece by piece: the same octets. */
  lemma {:induction false} EmissionIsPieces(name: bytes, key: bytes, rest: seq<bytes>, each: nat)
    requires Whole(|rest|, each)
    ensures Emission(name, key, rest, 0, each) == PrintPieces(name, key, Pieces(rest, Strings(ITEMS_PER_CMD, each)))
    decreases |rest|
  {
    hide PrintCommand, Emission, PrintPieces, Pieces, After, Whole;
    var width := Strings(ITEMS_PER_CMD, each);
    if rest == [] {
      EmissionEnd(name, key, 0, each);
      NoPieces(name, key, width);
    } else {
      FirstCommand(name, key, rest, each);
      FirstCount(|rest|, each);
      if |rest| <= width {
        LastPiece(name, key, rest, each);
        NothingAfter(name, key, rest, each);
      } else {
        SomethingAfter(name, key, rest, each);
        PiecesStep(rest, width);
        PrintPiecesCons(name, key, rest[..width], Pieces(rest[width..], width));
        EmissionIsPieces(name, key, rest[width..], each);
      }
    }
  }

  // The rewritten log as octets ------------------------------------------------------------------

  function NameOfKind(kind: Kind): bytes {
    AofCodec.Spelled(match kind
                     case Lists => AofCodec.NRpush
                     case Sets => AofCodec.NSadd
                     case Hashes => AofCodec.NHmset)
  }

  function EachOfKind(kind: Kind): nat {
    if kind == Hashes then 2 else 1
  }

  lemma PushVector(kind: Kind, key: bytes, items: seq<bytes>)
    ensures AofCodec.Argv(Push(kind, key, items)) == [NameOfKind(kind), key] + items
  {
    hide AofCodec.Spelled;
    var c := Push(kind, key, items);
    assert AofCodec.Argv(c) == [NameOfKind(kind)] + ([key] + items);
  }

  lemma {:induction false} PushesPrinted(kind: Kind, key: bytes, pieces: seq<seq<bytes>>)
    ensures AofCodec.Print(Pushes(kind, key, pieces)) == PrintPieces(NameOfKind(kind), key, pieces)
    decreases |pieces|
  {
    hide PrintCommand, AofCodec.Print, AofCodec.Argv, Push;
    if pieces == [] {
      AofCodec.PrintNone();
      assert Pushes(kind, key, pieces) == [];
    } else {
      var first := Push(kind, key, pieces[0]);
      assert Pushes(kind, key, pieces) == [first] + Pushes(kind, key, pieces[1..]);
      AofCodec.PrintConcat([first], Pushes(kind, key, pieces[1..]));
      AofCodec.PrintOne(first);
      PushVector(kind, key, pieces[0]);
      PushesPrinted(kind, key, pieces[1..]);
    }
  }

  /** What the loops write is the printed form of the rewritten commands. */
  lemma ObjectPrinted(kind: Kind, key: bytes, items: seq<bytes>)
    requires Whole(|items|, EachOfKind(kind))
    ensures Emission(NameOfKind(kind), key, items, 0, EachOfKind(kind))
            == AofCodec.Print(Pushes(kind, key, Pieces(items, Width(kind))))
  {
    hide Emission, PrintPieces, Pieces, Pushes, AofCodec.Print, NameOfKind;
    EmissionIsPieces(NameOfKind(kind), key, items, EachOfKind(kind));
    PushesPrinted(kind, key, Pieces(items, Width(kind)));
  }

  // The loops ------------------------------------------------------------------------------------

  /** rioWriteBulkObject */
  method RioWriteBulkObject(r: Rio.Stream, o: StringObject)
    requires r.AtEnd()
    modifies r`data, r`pos, r`cksum
    ensures r.AtEnd() && r.data == old(r.data) + Bulk(Text(o))
  {
    hide Rio.Stream.Sum;
    match o {
      case Number(v) => RioWriteBulkLongLong(r, v);
      case Raw(s) => RioWriteBulkString(r, s);
    }
  }

  /** The head of a command for the `items` elements that are left. */
  method WriteHead(r: Rio.Stream, name: bytes, key: bytes, items: nat, each: nat)
    requires r.AtEnd()
    modifies r`data, r`pos, r`cksum
    ensures r.AtEnd() && r.data == old(r.data) + Head(name, key, items, each)
  {
    hide Rio.Stream.Sum, Line, Bulk;
    var cmdItems := if items > ITEMS_PER_CMD then ITEMS_PER_CMD else items;
    RioWriteBulkCount(r, STAR, 2 + Strings(cmdItems, each));
    RioWriteBulkString(r, name);
    RioWriteBulkString(r, key);
  }

  /** One element: a string, or a field and its value. */
  method WriteElement(r: Rio.Stream, elems: seq<StringObject>, i: nat, each: nat)
    requires r.AtEnd() && 1 <= each <= 2 && i + each <= |elems|
    modifies r`data, r`pos, r`cksum
    ensures r.AtEnd() && r.data == old(r.data) + Bulks(Texts(elems)[i..][..each])
  {
    hide Rio.Stream.Sum, Bulk;
    var texts := Texts(elems)[i..][..each];
    RioWriteBulkObject(r, elems[i]);
    if each == 2 {
      RioWriteBulkObject(r, elems[i + 1]);
      assert texts == [Text(elems[i])] + ([Text(elems[i + 1])] + []);
      BulksCons(Text(elems[i]), [Text(elems[i + 1])] + []);
      BulksCons(Text(elems[i + 1]), []);
    } else {
      assert texts == [Text(elems[i])] + [];
      BulksCons(Text(elems[i]), []);
    }
    assert Bulks([]) == [];
  }

  lemma Unfolded(name: bytes, key: bytes, rest: seq<bytes>, count: nat, each: nat)
    requires Whole(|rest|, each) && rest != []
    ensures Emission(name, key, rest, count, each)
            == (if count == 0 then Head(name, key, Items(|rest|, each), each) else [])
               + (Bulks(rest[..each]) + Emission(name, key, rest[each..], Counted(count), each))
  {}

  lemma Added(d: bytes, head: bytes, strings: bytes, more: bytes)
    ensures d + (head + (strings + more)) == d + head + strings + more
    ensures head == [] ==> d + head == d
  {}

  /** rewriteListObject, rewriteSetObject and rewriteHashObject: `count` elements of the current
      command are written, `items` are left. */
  method RewriteElements(r: Rio.Stream, kind: Kind, key: bytes, elems: seq<StringObject>)
    requires r.AtEnd() && Whole(|elems|, EachOfKind(kind))
    modifies r`data, r`pos, r`cksum
    ensures r.AtEnd() && r.data == old(r.data) + AofCodec.Print(Pushes(kind, key, Pieces(Texts(elems), Width(kind))))
  {
    hide Rio.Stream.Sum, Head, Bulks, AofCodec.Print, Pushes, Pieces, NameOfKind, Emission, Text, Items, Whole;
    var name, each := NameOfKind(kind), EachOfKind(kind);
    ghost var d0 := r.data;
    ghost var texts := Texts(elems);
    var count: nat, items: nat, i: nat := 0, Items(|elems|, each), 0;
    assert texts[0..] == texts;
    while i < |elems|
      invariant i <= |elems| && r.AtEnd() && Whole(|elems| - i, each) && items == Items(|elems| - i, each)
      invariant r.data + Emission(name, key, texts[i..], count, each) == d0 + Emission(name, key, texts, 0, each)
    {
      OneLess(|elems| - i, each);
      ghost var d1 := r.data;
      Unfolded(name, key, texts[i..], count, each);
      if count == 0 {
        WriteHead(r, name, key, items, each);
      }
      WriteElement(r, elems, i, each);
      assert texts[i..][each..] == texts[i + each..];
      Added(d1, if count == 0 then Head(name, key, items, each) else [], Bulks(texts[i..][..each]),
            Emission(name, key, texts[i + each..], Counted(count), each));
      i := i + each;
      count := count + 1;
      if count == ITEMS_PER_CMD {
        count := 0;
      }
      items := items - 1;
    }
    EmissionEnd(name, key, count, each);
    assert texts[i..] == [] && r.data + [] == r.data;
    ObjectPrinted(kind, key, texts);
  }

  // The whole file -------------------------------------------------------------------------------

  /** A value as its iterator shows it, whatever its encoding. */
  datatype Shown =
    | OneString(s: StringObject)
    | ListItems(items: seq<StringObject>)
    | SetMembers(members: seq<StringObject>)
    | HashFields(args: seq<StringObject>)  // field, value, field, value, ...

  datatype Visit = Visit(key: bytes, value: Shown, expire: int)

  predicate Paired(v: Shown) {
    v.HashFields? ==> |v.args| % 2 == 0
  }

  function ListingOf(v: Shown): Listing {
    match v
    case OneString(s) => AsStr(Text(s))
    case ListItems(items) => AsList(Texts(items))
    case SetMembers(members) => AsSet(Texts(members))
    case HashFields(args) => AsHash(Texts(args))
  }

  function EntryOf(v: Visit): Entry {
    Entry(v.key, ListingOf(v.value), v.expire)
  }

  function EntriesOf(vs: seq<Visit>): (r: seq<Entry>)
    ensures |r| == |vs|
  {
    seq(|vs|, i requires 0 <= i < |vs| => EntryOf(vs[i]))
  }

  function DumpOf(visits: seq<seq<Visit>>): (r: seq<seq<Entry>>)
    ensures |r| == |visits|
  {
    seq(|visits|, i requires 0 <= i < |visits| => EntriesOf(visits[i]))
  }

  /** The heads that are written as literals. */
  const SELECT_HEAD: bytes := [42, 50, 13, 10, 36, 54, 13, 10, 83, 69, 76, 69, 67, 84, 13, 10]

  const SET_HEAD: bytes := [42, 51, 13, 10, 36, 51, 13, 10, 83, 69, 84, 13, 10]
  const PEXPIREAT_HEAD: bytes := [42, 51, 13, 10, 36, 57, 13, 10, 80, 69, 88, 80, 73, 82, 69, 65, 84, 13, 10]

  lemma SelectHead()
    ensures SELECT_HEAD == Line(STAR, 2) + Bulk(AofCodec.Spelled(AofCodec.NSelect))
  {
    assert Decimal.Print(2) == [50] && Decimal.Print(6) == [54];
  }

  lemma SetHead()
    ensures SET_HEAD == Line(STAR, 3) + Bulk(AofCodec.Spelled(AofCodec.NSet))
  {
    assert Decimal.Print(3) == [51];
  }

  lemma ExpireHead()
    ensures PEXPIREAT_HEAD == Line(STAR, 3) + Bulk(AofCodec.Spelled(AofCodec.NPexpireat))
  {
    assert Decimal.Print(3) == [51] && Decimal.Print(9) == [57];
  }

  lemma NoBulksPrinted()
    ensures Bulks([]) == []
  {}

  lemma TwoPrinted(name: bytes, a: bytes)
    ensures PrintCommand([name, a]) == Line(STAR, 2) + Bulk(name) + Bulk(a)
  {
    hide Line, Bulk, Bulks;
    assert [name, a] == [name] + ([a] + []) && Bulks([]) == [] by {
      NoBulksPrinted();
    }
    BulksCons(name, [a] + []);
    BulksCons(a, []);
    Sequences.Assoc(Line(STAR, 2), Bulk(name), Bulk(a));
    assert Bulk(a) + [] == Bulk(a);
  }

  lemma ThreePrinted(name: bytes, a: bytes, b: bytes)
    ensures PrintCommand([name, a, b]) == Line(STAR, 3) + Bulk(name) + Bulk(a) + Bulk(b)
  {
    hide Line, Bulk, Bulks;
    NoBulksPrinted();
    assert [name, a, b] == [name, a] + ([b] + []);
    PrintedApart(name, a, [b] + []);
    BulksCons(b, []);
    assert Bulk(b) + [] == Bulk(b);
    Sequences.Assoc(Line(STAR, 3), Bulk(name), Bulk(a));
  }

  lemma Sum3(d: bytes, a: bytes, b: bytes, c: bytes)
    ensures d + a + b + c == d + (a + b + c)
  {}

  method RewriteString(r: Rio.Stream, key: bytes, s: StringObject)
    requires r.AtEnd()
    modifies r`data, r`pos, r`cksum
    ensures r.AtEnd() && r.data == old(r.data) + AofCodec.Print([Keyspace.SetCmd(key, Text(s))])
  {
    hide Rio.Stream.Sum, AofCodec.Print, Line, Bulk, Bulks, AofCodec.Spelled, Text;
    ghost var d0 := r.data;
    r.Write(SET_HEAD);
    RioWriteBulkString(r, key);
    RioWriteBulkObject(r, s);
    SetHead();
    var name := AofCodec.Spelled(AofCodec.NSet);
    ThreePrinted(name, key, Text(s));
    AofCodec.PrintOne(Keyspace.SetCmd(key, Text(s)));
    assert AofCodec.Argv(Keyspace.SetCmd(key, Text(s))) == [name, key, Text(s)];
    Sum3(d0, Line(STAR, 3) + Bulk(name), Bulk(key), Bulk(Text(s)));
  }

  method RewriteValue(r: Rio.Stream, key: bytes, v: Shown)
    requires r.AtEnd() && Paired(v)
    modifies r`data, r`pos, r`cksum
    ensures r.AtEnd() && r.data == old(r.data) + AofCodec.Print(RewriteObject(key, ListingOf(v)))
  {
    hide Rio.Stream.Sum, AofCodec.Print, Pushes, Pieces, Texts;
    match v {
      case OneString(s) => RewriteString(r, key, s);
      case ListItems(items) => RewriteElements(r, Lists, key, items);
      case SetMembers(members) => RewriteElements(r, Sets, key, members);
      case HashFields(args) => RewriteElements(r, Hashes, key, args);
    }
  }

  method RewriteExpiry(r: Rio.Stream, key: bytes, when: int)
    requires r.AtEnd()
    modifies r`data, r`pos, r`cksum
    ensures r.AtEnd()
    ensures r.data
              == old(r.data) + PrintCommand(AofCodec.Argv(Keyspace.Expire(key, when, Keyspace.Milliseconds, false)))
  {
    hide Rio.Stream.Sum, Line, Bulk, Bulks, AofCodec.Spelled, Decimal.Print;
    ghost var d0 := r.data;
    r.Write(PEXPIREAT_HEAD);
    RioWriteBulkString(r, key);
    RioWriteBulkLongLong(r, when);
    ExpireHead();
    var name := AofCodec.Spelled(AofCodec.NPexpireat);
    ThreePrinted(name, key, Decimal.Print(when));
    assert AofCodec.Argv(Keyspace.Expire(key, when, Keyspace.Milliseconds, false)) == [name, key, Decimal.Print(when)];
    Sum3(d0, Line(STAR, 3) + Bulk(name), Bulk(key), Bulk(Decimal.Print(when)));
  }

  /** One key: its value, and its expiry unless that is past. */
  method RewriteKey(r: Rio.Stream, v: Visit, now: int)
    requires r.AtEnd() && Paired(v.value)
    modifies r`data, r`pos, r`cksum
    ensures r.AtEnd() && r.data == old(r.data) + AofCodec.Print(RewriteEntry(EntryOf(v), now))
  {
    hide Rio.Stream.Sum, AofCodec.Print, AofCodec.Argv, RewriteObject;
    ghost var d0 := r.data;
    RewriteValue(r, v.key, v.value);
    ghost var value := RewriteObject(v.key, ListingOf(v.value));
    if v.expire != -1 {
      if v.expire < now {
        assert value + [] == value;
        return;
      }
      RewriteExpiry(r, v.key, v.expire);
      ghost var expiry := Keyspace.Expire(v.key, v.expire, Keyspace.Milliseconds, false);
      AofCodec.PrintConcat(value, [expiry]);
      AofCodec.PrintOne(expiry);
      Sequences.Assoc(d0, AofCodec.Print(value), PrintCommand(AofCodec.Argv(expiry)));
    } else {
      assert value + [] == value;
    }
  }

  /** The SELECT of a database. */
  method RewriteSelect(r: Rio.Stream, j: nat)
    requires r.AtEnd()
    modifies r`data, r`pos, r`cksum
    ensures r.AtEnd() && r.data == old(r.data) + AofCodec.Print([Keyspace.Select(j)])
  {
    hide Rio.Stream.Sum, AofCodec.Print, Line, Bulk, Bulks, AofCodec.Spelled, Decimal.Print;
    ghost var d0 := r.data;
    r.Write(SELECT_HEAD);
    RioWriteBulkLongLong(r, j);
    SelectHead();
    var name := AofCodec.Spelled(AofCodec.NSelect);
    TwoPrinted(name, Decimal.Print(j));
    AofCodec.PrintOne(Keyspace.Select(j));
    assert AofCodec.Argv(Keyspace.Select(j)) == [name, Decimal.Print(j)];
    Sequences.Assoc(d0, Line(STAR, 2) + Bulk(name), Bulk(Decimal.Print(j)));
  }

  /** The keys of one database. */
  method RewriteKeys(r: Rio.Stream, vs: seq<Visit>, now: int)
    requires r.AtEnd() && forall i :: 0 <= i < |vs| ==> Paired(vs[i].value)
    modifies r`data, r`pos, r`cksum
    ensures r.AtEnd() && r.data == old(r.data) + AofCodec.Print(RewriteEntries(EntriesOf(vs), now))
  {
    hide Rio.Stream.Sum, AofCodec.Print, RewriteEntry, EntryOf;
    ghost var d0, es := r.data, EntriesOf(vs);
    assert es[..0] == [];
    AofCodec.PrintNone();
    var i := 0;
    while i < |vs|
      invariant i <= |vs| && r.AtEnd() && r.data == d0 + AofCodec.Print(RewriteEntries(es[..i], now))
    {
      RewriteKey(r, vs[i], now);
      assert es[..i + 1][..i] == es[..i] && es[..i + 1][i] == EntryOf(vs[i]);
      AofCodec.PrintConcat(RewriteEntries(es[..i], now), RewriteEntry(es[i], now));
      Sequences.Assoc(d0, AofCodec.Print(RewriteEntries(es[..i], now)), AofCodec.Print(RewriteEntry(es[i], now)));
      i := i + 1;
    }
    assert es[..i] == es;
  }

  /** rewriteAppendOnlyFile: what the child writes is the printed form of the rewritten log. */
  method RewriteAppendOnlyFile(visits: seq<seq<Visit>>, now: int) returns (file: bytes)
    requires forall i, j :: 0 <= i < |visits| && 0 <= j < |visits[i]| ==> Paired(visits[i][j].value)
    ensures file == AofCodec.Print(Rewrite(DumpOf(visits), now))
  {
    hide Rio.Stream.Sum, AofCodec.Print, RewriteEntries, EntriesOf, Paired;
    var aof := new Rio.Stream([], false);
    ghost var dump := DumpOf(visits);
    assert dump[..0] == [];
    AofCodec.PrintNone();
    var j := 0;
    while j < |visits|
      invariant j <= |visits| && aof.AtEnd() && aof.data == AofCodec.Print(Rewrite(dump[..j], now))
    {
      ghost var d0, es := aof.data, dump[j];
      assert dump[..j + 1][..j] == dump[..j] && dump[..j + 1][j] == es == EntriesOf(visits[j]);
      AofCodec.PrintConcat(Rewrite(dump[..j], now), RewriteDb(j, es, now));
      if visits[j] != [] {
        RewriteSelect(aof, j);
        RewriteKeys(aof, visits[j], now);
        AofCodec.PrintConcat([Keyspace.Select(j)], RewriteEntries(es, now));
        Sequences.Assoc(d0, AofCodec.Print([Keyspace.Select(j)]), AofCodec.Print(RewriteEntries(es, now)));
      }
      assert Rewrite(dump[..j + 1], now) == Rewrite(dump[..j], now) + RewriteDb(j, es, now);
      j := j + 1;
    }
    assert dump[..j] == dump;
    file := aof.data;
  }
}
