/**
 The request parser of networking.c as functions on the state of a client: what one round of
 processing takes out of the query buffer, for arbitrary contents of the buffer.
 */
module QueryParser {
  import opened Bytes
  import opened Wrappers
  import opened Resp
  import Decimal

  const IOBUF_LEN: int := 16 * 1024
  const INLINE_MAX_SIZE: int := 64 * 1024
  const MBULK_BIG_ARG: int := 32 * 1024
  const MAX_ARGS: int := 1024 * 1024
  const MAX_BULK: int := 512 * 1024 * 1024
  const SPACE: u8 := 32
  const MAX_QUERYBUF_LEN: int := 1024 * 1024 * 1024

  datatype RequestType = Unknown | Inline | Multibulk

  /** A client: what it sent and was not yet taken, the request being read (its type, how many
      arguments are missing, the length of the next one or -1, the arguments so far), whether the
      connection is being closed, and the commands executed. */
  datatype Client = Client(buf: bytes, reqtype: RequestType, left: int, bulklen: int, argv: seq<bytes>,
                           closing: bool, executed: seq<seq<bytes>>)

  const NEW_CLIENT := Client([], Unknown, 0, -1, [], false, [])

  // C strings ------------------------------------------------------------------------------------

  /** strchr(buf + from, '\r'): it stops at an octet 0. */
  function FindCr(buf: bytes, from: nat): (r: Option<nat>)
    ensures r.Some? ==> from <= r.value < |buf| && buf[r.value] == CR
    decreases |buf| - from
  {
    if from >= |buf| || buf[from] == 0 then None
    else if buf[from] == CR then Some(from)
    else FindCr(buf, from + 1)
  }

  /** strstr(buf, "\r\n") */
  function FindCrlf(buf: bytes, from: nat): (r: Option<nat>)
    ensures r.Some? ==> from <= r.value && r.value + 2 <= |buf|
    decreases |buf| - from
  {
    if from >= |buf| || buf[from] == 0 then None
    else if buf[from] == CR && from + 1 < |buf| && buf[from + 1] == LF then Some(from)
    else FindCrlf(buf, from + 1)
  }

  /** The words of a line, cut at single spaces, without the empty ones. */
  function Words(s: bytes, word: bytes): seq<bytes>
    decreases |s|
  {
    if s == [] then (if word == [] then [] else [word])
    else if s[0] == SPACE then (if word == [] then [] else [word]) + Words(s[1..], [])
    else Words(s[1..], word + [s[0]])
  }

  /** Pieces without the empty ones. */
  function NonEmpty(pieces: seq<bytes>): seq<bytes>
    decreases |pieces|
  {
    if pieces == [] then []
    else
      var last := pieces[|pieces| - 1];
      NonEmpty(pieces[..|pieces| - 1]) + if last == [] then [] else [last]
  }

  function Found(word: bytes): seq<bytes> {
    if word == [] then [] else [word]
  }

  lemma MorePieces(tokens: seq<bytes>, piece: bytes)
    ensures NonEmpty(tokens + [piece]) == NonEmpty(tokens) + Found(piece)
  {
    assert (tokens + [piece])[..|tokens|] == tokens;
  }

  lemma WordsStep(s: bytes, word: bytes)
    ensures s == [] ==> Words(s, word) == Found(word)
    ensures s != [] && s[0] == SPACE ==> Words(s, word) == Found(word) + Words(s[1..], [])
    ensures s != [] && s[0] != SPACE ==> Words(s, word) == Words(s[1..], word + [s[0]])
  {}

  lemma Grouped(a: seq<bytes>, b: seq<bytes>, c: seq<bytes>)
    ensures a + (b + c) == a + b + c
  {}

  lemma NextOctet(tokens: seq<bytes>, s: bytes, start: nat, j: nat)
    requires start <= j < |s|
    ensures s[j] != SPACE ==> Words(s[j..], s[start..j]) == Words(s[j + 1..], s[start..j + 1])
    ensures s[j] == SPACE ==>
              NonEmpty(tokens) + Words(s[j..], s[start..j])
              == NonEmpty(tokens + [s[start..j]]) + Words(s[j + 1..], s[j + 1..j + 1])
  {
    hide NonEmpty, Words, Found;
    var word := s[start..j];
    WordsStep(s[j..], word);
    assert s[j..][1..] == s[j + 1..];
    if s[j] == SPACE {
      MorePieces(tokens, word);
      Grouped(NonEmpty(tokens), Found(word), Words(s[j + 1..], []));
      assert s[j + 1..j + 1] == [];
    } else {
      assert word + [s[j]] == s[start..j + 1];
    }
  }

  lemma LastPiece(tokens: seq<bytes>, s: bytes, start: nat)
    requires start <= |s|
    ensures NonEmpty(tokens) + Words(s[|s|..], s[start..|s|]) == NonEmpty(tokens + [s[start..]])
  {
    hide NonEmpty, Words, Found;
    WordsStep(s[|s|..], s[start..|s|]);
    MorePieces(tokens, s[start..]);
    assert s[start..|s|] == s[start..];
  }

  function Lower(b: u8): u8 {
    if 65 <= b <= 90 then b + 32 else b
  }

  /** strcasecmp with "quit" */
  predicate IsQuit(s: bytes) {
    && |s| >= 4 && Lower(s[0]) == 113 && Lower(s[1]) == 117 && Lower(s[2]) == 105 && Lower(s[3]) == 116
    && (|s| > 4 ==> s[4] == 0)
  }

  // One request ----------------------------------------------------------------------------------

  /** The client after reading, and whether a whole request was read. */
  datatype Outcome = Outcome(c: Client, ok: bool)

  /** setProtocolError, after some octets were taken. */
  function Fail(c: Client, pos: nat): Outcome
    requires pos <= |c.buf|
  {
    Outcome(c.(buf := c.buf[pos..], closing := true), false)
  }

  function Wait(c: Client, pos: nat): Outcome
    requires pos <= |c.buf|
  {
    Outcome(c.(buf := c.buf[pos..]), false)
  }

  /** No end of line is in sight: wait for it, unless the buffer is too full already. */
  function NoLine(c: Client, pos: nat): Outcome
    requires pos <= |c.buf|
  {
    if |c.buf| > INLINE_MAX_SIZE then Fail(c, pos) else Wait(c, pos)
  }

  /** What is left of a buffer when some octets were taken from its front. */
  predicate IsRest(rest: bytes, whole: bytes) {
    |rest| <= |whole| && rest == whole[|whole| - |rest|..]
  }

  /** The loop of processMultibulkBuffer, at the head of a round; `pos` octets of the buffer are taken. */
  function ReadArgs(c: Client, pos: nat): (o: Outcome)
    requires c.left >= 0 && c.bulklen >= -1 && pos <= |c.buf|
    ensures |o.c.buf| <= |c.buf| - pos && (o.ok && c.left > 0 ==> |o.c.buf| < |c.buf| - pos)
    ensures IsRest(o.c.buf, c.buf)
    ensures o.ok && c.left > 0 && c.bulklen != -1 ==> |o.c.buf| <= |c.buf| - pos - c.bulklen - 2
    ensures if o.ok then o.c.left == 0 && |o.c.argv| == |c.argv| + c.left else o.c.left > 0
    ensures 0 <= o.c.left <= c.left && o.c.bulklen >= -1 && o.c.reqtype == c.reqtype && o.c.executed == c.executed
    decreases c.left, 1
  {
    if c.left == 0 then Outcome(c.(buf := c.buf[pos..]), true)
    else if c.bulklen != -1 then ReadArg(c, pos)
    else
      var newline := FindCr(c.buf, pos);
      if newline.None? then NoLine(c, pos)
      else if newline.value > |c.buf| - 2 then Wait(c, pos)
      else if c.buf[pos] != DOLLAR then Fail(c, pos)
      else
        var ll := Decimal.Parse(c.buf[pos + 1..newline.value]);
        if ll.None? || ll.value < 0 || ll.value > MAX_BULK then Fail(c, pos)
        else if ll.value >= MBULK_BIG_ARG then
          ReadArg(c.(buf := c.buf[newline.value + 2..], bulklen := ll.value), 0)
        else ReadArg(c.(bulklen := ll.value), newline.value + 2)
  }

  /** One argument of known length. */
  function ReadArg(c: Client, pos: nat): (o: Outcome)
    requires c.left > 0 && c.bulklen >= 0 && pos <= |c.buf|
    ensures |o.c.buf| <= |c.buf| - pos && (o.ok ==> |o.c.buf| <= |c.buf| - pos - c.bulklen - 2)
    ensures IsRest(o.c.buf, c.buf)
    ensures if o.ok then o.c.left == 0 && |o.c.argv| == |c.argv| + c.left else o.c.left > 0
    ensures 0 <= o.c.left <= c.left && o.c.bulklen >= -1 && o.c.reqtype == c.reqtype && o.c.executed == c.executed
    decreases c.left, 0
  {
    if |c.buf| - pos < c.bulklen + 2 then Wait(c, pos)
    else
      var taken := c.(argv := c.argv + [c.buf[pos..pos + c.bulklen]], bulklen := -1, left := c.left - 1);
      if pos == 0 && c.bulklen >= MBULK_BIG_ARG && |c.buf| == c.bulklen + 2 then ReadArgs(taken.(buf := []), 0)
      else ReadArgs(taken, pos + c.bulklen + 2)
  }

  function AfterArg(c: Client, arg: bytes, whole: bool): Client {
    c.(argv := c.argv + [arg], bulklen := -1, left := c.left - 1, buf := if whole then [] else c.buf)
  }

  /** The parser knows that the buffer holds the next argument ... */
  lemma KnownArg(c: Client, pos: nat, arg: bytes, whole: bool)
    requires c.left > 0 && c.bulklen == |arg| && pos + c.bulklen + 2 <= |c.buf| && c.buf[pos..pos + c.bulklen] == arg
    requires whole == (pos == 0 && c.bulklen >= MBULK_BIG_ARG && |c.buf| == c.bulklen + 2)
    ensures ReadArg(c, pos) == ReadArgs(AfterArg(c, arg, whole), if whole then 0 else pos + c.bulklen + 2)
  {
    hide ReadArgs;
  }

  lemma NoneLeft(c: Client, pos: nat)
    requires c.left == 0 && c.bulklen >= -1 && pos <= |c.buf|
    ensures ReadArgs(c, pos) == Outcome(c.(buf := c.buf[pos..]), true)
  {}

  function AfterLength(c: Client, end: nat, n: nat, big: bool): Client
    requires end <= |c.buf|
  {
    c.(bulklen := n, buf := if big then c.buf[end..] else c.buf)
  }

  /** ... or its length. */
  lemma KnownLength(c: Client, pos: nat, end: nat, n: nat, big: bool)
    requires c.left > 0 && c.bulklen == -1 && pos + 2 <= end <= |c.buf| && n <= MAX_BULK && big == (n >= MBULK_BIG_ARG)
    requires FindCr(c.buf, pos) == Some(end - 2) && c.buf[pos] == DOLLAR && pos + 1 <= end - 2
    requires Decimal.Parse(c.buf[pos + 1..end - 2]) == Some(n as int)
    ensures ReadArgs(c, pos) == ReadArg(AfterLength(c, end, n, big), if big then 0 else end)
  {
    hide ReadArg, Decimal.Parse, FindCr;
  }

  /** What the parser makes of the line at `pos`. */
  lemma LengthCases(c: Client, pos: nat)
    requires c.left > 0 && c.bulklen == -1 && pos <= |c.buf|
    ensures var newline := FindCr(c.buf, pos);
            if newline.None? then ReadArgs(c, pos) == NoLine(c, pos)
            else if newline.value > |c.buf| - 2 then ReadArgs(c, pos) == Wait(c, pos)
            else if c.buf[pos] != DOLLAR then ReadArgs(c, pos) == Fail(c, pos)
            else
              var ll := Decimal.Parse(c.buf[pos + 1..newline.value]);
              var end := newline.value + 2;
              if ll.None? || ll.value < 0 || ll.value > MAX_BULK then ReadArgs(c, pos) == Fail(c, pos)
              else
                var big := ll.value >= MBULK_BIG_ARG;
                ReadArgs(c, pos) == ReadArg(AfterLength(c, end, ll.value, big), if big then 0 else end)
  {
    hide ReadArg, FindCr, Decimal.Parse, NoLine, Wait, Fail;
  }

  lemma NoLength(c: Client, pos: nat)
    requires c.left > 0 && c.bulklen == -1 && pos <= |c.buf| <= INLINE_MAX_SIZE
    requires FindCr(c.buf, pos).None? || FindCr(c.buf, pos).value > |c.buf| - 2
    ensures ReadArgs(c, pos) == Wait(c, pos)
  {
    hide ReadArg, Decimal.Parse, FindCr;
  }

  /** processMultibulkBuffer */
  function ReadMultibulk(c: Client): (o: Outcome)
    requires c.left >= 0 && c.bulklen >= -1 && c.buf != []
    ensures o.ok ==> |o.c.buf| < |c.buf| && o.c.left == 0
    ensures 0 <= o.c.left && o.c.bulklen >= -1 && |o.c.buf| <= |c.buf| && o.c.executed == c.executed
  {
    if c.left > 0 then ReadArgs(c, 0)
    else
      var newline := FindCr(c.buf, 0);
      if newline.None? then NoLine(c, 0)
      else if newline.value > |c.buf| - 2 then Wait(c, 0)
      else
        var ll := Decimal.Parse(if newline.value == 0 then [] else c.buf[1..newline.value]);
        if ll.None? || ll.value > MAX_ARGS then Fail(c, 0)
        else if ll.value <= 0 then Outcome(c.(buf := c.buf[newline.value + 2..]), true)
        else ReadArgs(c.(left := ll.value, argv := []), newline.value + 2)
  }

  lemma UnderWay(c: Client)
    requires c.left > 0 && c.bulklen >= -1 && c.buf != []
    ensures ReadMultibulk(c) == ReadArgs(c, 0)
  {}

  lemma HeaderCases(c: Client)
    requires c.left == 0 && c.bulklen >= -1 && c.buf != [] && c.buf[0] != CR
    ensures var newline := FindCr(c.buf, 0);
            if newline.None? then ReadMultibulk(c) == NoLine(c, 0)
            else if newline.value > |c.buf| - 2 then ReadMultibulk(c) == Wait(c, 0)
            else
              var ll := Decimal.Parse(c.buf[1..newline.value]);
              var end := newline.value + 2;
              if ll.None? || ll.value > MAX_ARGS then ReadMultibulk(c) == Fail(c, 0)
              else if ll.value <= 0 then ReadMultibulk(c) == Outcome(c.(buf := c.buf[end..]), true)
              else ReadMultibulk(c) == ReadArgs(c.(left := ll.value, argv := []), end)
  {
    hide ReadArgs, FindCr, Decimal.Parse, NoLine, Wait, Fail;
  }

  /** processInlineBuffer */
  function ReadInline(c: Client): (o: Outcome)
    ensures o.ok ==> |o.c.buf| < |c.buf|
    ensures |o.c.buf| <= |c.buf| && o.c.left == c.left && o.c.bulklen == c.bulklen && o.c.executed == c.executed
  {
    var newline := FindCrlf(c.buf, 0);
    if newline.None? then NoLine(c, 0)
    else Outcome(c.(argv := Words(c.buf[..newline.value], []), buf := c.buf[newline.value + 2..]), true)
  }

  // All requests in the buffer -------------------------------------------------------------------

  /** resetClient */
  function Reset(c: Client): Client {
    c.(reqtype := Unknown, left := 0, bulklen := -1, argv := [])
  }

  /** processCommand and what follows it; QUIT only closes the connection. */
  function Execute(c: Client): Client {
    if c.argv == [] then Reset(c)
    else if IsQuit(c.argv[0]) then c.(closing := true)
    else Reset(c.(executed := c.executed + [c.argv]))
  }

  function Typed(c: Client): Client
    requires c.buf != []
  {
    if c.reqtype != Unknown then c else c.(reqtype := if c.buf[0] == STAR then Multibulk else Inline)
  }

  function ReadRequest(c: Client): (o: Outcome)
    requires c.left >= 0 && c.bulklen >= -1 && c.buf != []
    ensures o.ok ==> |o.c.buf| < |c.buf|
    ensures 0 <= o.c.left && o.c.bulklen >= -1 && |o.c.buf| <= |c.buf| && o.c.executed == c.executed
  {
    var t := Typed(c);
    if t.reqtype == Inline then ReadInline(t) else ReadMultibulk(t)
  }

  /** A multibulk request starts with a star. */
  predicate Started(c: Client) {
    c.reqtype == Multibulk && c.left == 0 && !c.closing ==> c.buf != [] && c.buf[0] == STAR
  }

  /** processInputBuffer, of a client that never blocks. */
  function ProcessInput(c: Client): (r: Client)
    requires c.left >= 0 && c.bulklen >= -1
    ensures r.left >= 0 && r.bulklen >= -1
    decreases |c.buf|
  {
    if c.buf == [] || c.closing then c
    else
      var o := ReadRequest(c);
      if o.ok then ProcessInput(Execute(o.c)) else o.c
  }

  /** How much readQueryFromClient asks for: of a big argument, no more than is missing. */
  function ReadLen(c: Client): int {
    if c.reqtype == Multibulk && c.left > 0 && c.bulklen >= MBULK_BIG_ARG && c.bulklen + 2 - |c.buf| < IOBUF_LEN then
      c.bulklen + 2 - |c.buf|
    else IOBUF_LEN
  }

  /** readQueryFromClient, when some octets arrive. */
  function Receive(c: Client, data: bytes): (r: Client)
    requires c.left >= 0 && c.bulklen >= -1
    ensures r.left >= 0 && r.bulklen >= -1
  {
    var longer := c.(buf := c.buf + data);
    if |longer.buf| > MAX_QUERYBUF_LEN then longer.(closing := true) else ProcessInput(longer)
  }
}
