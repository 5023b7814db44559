/** The request parser of networking.c on the client it changes in place. */
module QueryClient {
  import opened Bytes
  import opened Wrappers
  import opened Resp
  import opened QueryParser
  import Decimal

  class RedisClient {
    var querybuf: bytes
    var reqtype: RequestType
    var multibulklen: int
    var bulklen: int
    var argv: seq<bytes>
    var closing: bool                 // REDIS_CLOSE_AFTER_REPLY, or freed
    var executed: seq<seq<bytes>>     // what processCommand was called with

    function View(): Client
      reads this
    {
      Client(querybuf, reqtype, multibulklen, bulklen, argv, closing, executed)
    }

    predicate Ready()
      reads this
    {
      multibulklen >= 0 && bulklen >= -1
    }

    constructor ()
      ensures View() == NEW_CLIENT
    {
      querybuf, reqtype, multibulklen, bulklen, argv := [], Unknown, 0, -1, [];
      closing, executed := false, [];
    }

    method ResetClient()
      modifies this
      ensures View() == Reset(old(View()))
    {
      argv, reqtype, multibulklen, bulklen := [], Unknown, 0, -1;
    }

    method SetProtocolError(pos: nat)
      requires pos <= |querybuf|
      modifies this
      ensures View() == Fail(old(View()), pos).c
    {
      closing := true;
      querybuf := querybuf[pos..];
    }

    method TakeArgument(pos: nat) returns (pos': nat)
      requires Ready() && multibulklen > 0 && bulklen >= 0 && pos + bulklen + 2 <= |querybuf|
      modifies this
      ensures Ready() && multibulklen == old(multibulklen) - 1 && pos' <= |querybuf|
      ensures ReadArgs(View(), pos') == ReadArg(old(View()), pos)
    {
      hide ReadArgs, ReadArg;
      var whole := pos == 0 && bulklen >= MBULK_BIG_ARG && |querybuf| == bulklen + 2;
      var arg := querybuf[pos..pos + bulklen];
      KnownArg(View(), pos, arg, whole);
      argv := argv + [arg];
      if whole {
        // the buffer holds just this argument and becomes it
        querybuf := [];
        pos' := 0;
      } else {
        pos' := pos + bulklen + 2;
      }
      bulklen := -1;
      multibulklen := multibulklen - 1;
    }

    /** The length of the next argument has arrived, in front of `end`. */
    method KnowLength(end: nat, ll: int) returns (pos': nat)
      requires Ready() && multibulklen > 0 && end <= |querybuf| && 0 <= ll <= MAX_BULK
      modifies this
      ensures View() == AfterLength(old(View()), end, ll, ll >= MBULK_BIG_ARG)
      ensures pos' == (if ll >= MBULK_BIG_ARG then 0 else end) && pos' <= |querybuf|
      ensures Ready() && multibulklen == old(multibulklen) && bulklen == ll
    {
      pos' := end;
      if ll >= MBULK_BIG_ARG {
        // a big argument starts at the front of the buffer
        querybuf := querybuf[pos'..];
        pos' := 0;
      }
      bulklen := ll;
    }

    /** The length of the next argument, if it has arrived. */
    method ReadBulkLength(pos: nat, ghost goal: Outcome) returns (go: bool, pos': nat)
      requires Ready() && multibulklen > 0 && bulklen == -1 && pos <= |querybuf| && ReadArgs(View(), pos) == goal
      modifies this
      ensures Ready() && multibulklen == old(multibulklen)
      ensures go ==> pos' <= |querybuf| && bulklen != -1 && ReadArg(View(), pos') == goal
      ensures !go ==> Outcome(View(), false) == goal
    {
      hide FindCr, Decimal.Parse, ReadArg, ReadArgs, AfterLength;
      LengthCases(View(), pos);
      pos' := pos;
      var newline := FindCr(querybuf, pos);
      if newline.None? {
        if |querybuf| > INLINE_MAX_SIZE {
          closing := true;
        }
        querybuf := querybuf[pos..];
        return false, pos;
      }
      if newline.value > |querybuf| - 2 {
        querybuf := querybuf[pos..];
        return false, pos;
      }
      if querybuf[pos] != DOLLAR {
        SetProtocolError(pos);
        return false, pos;
      }
      var valid, ll := Decimal.String2ll(querybuf[pos + 1..newline.value]);
      if !valid || ll < 0 || ll > MAX_BULK {
        SetProtocolError(pos);
        return false, pos;
      }
      pos' := KnowLength(newline.value + 2, ll);
      go := true;
    }

    /** The loop over the arguments. */
    method ReadArguments(pos0: nat) returns (ok: bool)
      requires Ready() && pos0 <= |querybuf|
      modifies this
      ensures Ready() && Outcome(View(), ok) == ReadArgs(old(View()), pos0)
    {
      hide FindCr, Decimal.Parse;
      ghost var goal := ReadArgs(View(), pos0);
      hide ReadArgs, ReadArg;
      var pos: nat := pos0;
      while multibulklen > 0
        invariant Ready() && pos <= |querybuf| && ReadArgs(View(), pos) == goal
        decreases multibulklen
      {
        if bulklen == -1 {
          var go;
          go, pos := ReadBulkLength(pos, goal);
          if !go {
            return false;
          }
        }
        if |querybuf| - pos < bulklen + 2 {
          break;  // not enough data
        }
        pos := TakeArgument(pos);
      }
      if multibulklen == 0 {
        NoneLeft(View(), pos);
      }
      querybuf := querybuf[pos..];
      ok := multibulklen == 0;
    }

    /** processMultibulkBuffer */
    method ProcessMultibulkBuffer() returns (ok: bool)
      requires Ready() && querybuf != [] && (multibulklen == 0 ==> querybuf[0] == STAR)
      modifies this
      ensures Ready() && Outcome(View(), ok) == ReadMultibulk(old(View()))
    {
      hide FindCr, Decimal.Parse, ReadMultibulk, ReadArgs;
      var pos := 0;
      if multibulklen == 0 {
        HeaderCases(View());
        var newline := FindCr(querybuf, 0);
        if newline.None? {
          if |querybuf| > INLINE_MAX_SIZE {
            SetProtocolError(0);
          }
          assert querybuf[0..] == querybuf;
          return false;
        }
        if newline.value > |querybuf| - 2 {
          assert querybuf[0..] == querybuf;
          return false;
        }
        var valid, ll := Decimal.String2ll(querybuf[1..newline.value]);
        if !valid || ll > MAX_ARGS {
          SetProtocolError(pos);
          return false;
        }
        pos := newline.value + 2;
        if ll <= 0 {
          querybuf := querybuf[pos..];
          return true;
        }
        multibulklen, argv := ll, [];
      } else {
        UnderWay(View());
      }
      ok := ReadArguments(pos);
    }

    /** sdssplitlen, at single spaces. */
    static method SplitLine(s: bytes) returns (tokens: seq<bytes>)
      ensures NonEmpty(tokens) == Words(s, [])
    {
      tokens := [];
      if s == [] {
        return;
      }
      assert s[0..] == s && s[0..0] == [];
      var start, j := 0, 0;
      while j < |s|
        invariant start <= j <= |s|
        invariant NonEmpty(tokens) + Words(s[j..], s[start..j]) == Words(s, [])
      {
        NextOctet(tokens, s, start, j);
        if s[j] == SPACE {
          tokens := tokens + [s[start..j]];
          start := j + 1;
        }
        j := j + 1;
      }
      LastPiece(tokens, s, start);
      tokens := tokens + [s[start..]];
    }

    /** processInlineBuffer */
    method ProcessInlineBuffer() returns (ok: bool)
      requires Ready()
      modifies this
      ensures Ready() && Outcome(View(), ok) == ReadInline(old(View()))
    {
      hide FindCrlf, Words;
      var newline := FindCrlf(querybuf, 0);
      if newline.None? {
        if |querybuf| > INLINE_MAX_SIZE {
          SetProtocolError(0);
        }
        assert querybuf[0..] == querybuf;
        return false;
      }
      var tokens := SplitLine(querybuf[..newline.value]);
      querybuf := querybuf[newline.value + 2..];
      argv := [];
      var j := 0;
      while j < |tokens|
        invariant j <= |tokens| && argv == NonEmpty(tokens[..j])
        invariant View() == old(View()).(argv := argv, buf := old(querybuf)[newline.value + 2..])
      {
        assert tokens[..j + 1][..j] == tokens[..j];
        if tokens[j] != [] {
          argv := argv + [tokens[j]];
        }
        j := j + 1;
      }
      assert tokens[..j] == tokens;
      ok := true;
    }

    /** processCommand, as far as the parser is concerned, and the reset after it. */
    method ProcessCommand()
      modifies this
      ensures View() == Execute(old(View()))
    {
      if argv == [] {
        ResetClient();
      } else if IsQuit(argv[0]) {
        closing := true;
      } else {
        executed := executed + [argv];
        ResetClient();
      }
    }

    /** processInputBuffer */
    method ProcessInputBuffer()
      requires Ready() && Started(View())
      modifies this
      ensures Ready() && View() == ProcessInput(old(View()))
    {
      hide ReadMultibulk, ReadInline;
      ghost var goal := ProcessInput(View());
      while querybuf != []
        invariant Ready() && Started(View()) && ProcessInput(View()) == goal
        decreases |querybuf|
      {
        label Round:
        if closing {
          return;
        }
        if reqtype == Unknown {
          reqtype := if querybuf[0] == STAR then Multibulk else Inline;
        }
        ghost var before := View();
        var ok;
        if reqtype == Inline {
          ok := ProcessInlineBuffer();
        } else {
          ok := ProcessMultibulkBuffer();
        }
        if !ok {
          break;
        }
        ProcessCommand();
      }
    }

    /** readQueryFromClient, when a read brought `data`. */
    method ReadQueryFromClient(data: bytes)
      requires Ready() && Started(View())
      modifies this
      ensures Ready() && View() == Receive(old(View()), data)
    {
      querybuf := querybuf + data;
      if |querybuf| > MAX_QUERYBUF_LEN {
        closing := true;
        return;
      }
      ProcessInputBuffer();
    }
  }
}
