/**
 What the request parser promises of single requests, told by the octets that arrive: an inline line
 executes exactly its words, and what breaks the protocol closes the connection and executes nothing.
 */
module QueryLaws {
  import opened Bytes
  import opened Wrappers
  import opened Resp
  import opened QueryParser
  import Decimal

  // Words ----------------------------------------------------------------------------------------

  predicate IsWord(w: bytes) {
    w != [] && SPACE !in w
  }

  function Spaces(n: nat): bytes {
    seq(n, _ => SPACE)
  }

  /** Words with spaces before, between and behind them. */
  predicate Spaced(words: seq<bytes>, gaps: seq<nat>) {
    && |gaps| == |words| + 1
    && (forall w :: w in words ==> IsWord(w))
    && forall i :: 0 < i < |words| ==> gaps[i] >= 1
  }

  function LineOf(words: seq<bytes>, gaps: seq<nat>): bytes
    requires |gaps| == |words| + 1
    decreases |words|
  {
    if words == [] then Spaces(gaps[0]) else Spaces(gaps[0]) + words[0] + LineOf(words[1..], gaps[1..])
  }

  lemma {:induction false} SkipSpaces(n: nat, rest: bytes)
    ensures Words(Spaces(n) + rest, []) == Words(rest, [])
    decreases n
  {
    if n == 0 {
      assert Spaces(0) + rest == rest;
    } else {
      assert (Spaces(n) + rest)[1..] == Spaces(n - 1) + rest;
      SkipSpaces(n - 1, rest);
    }
  }

  lemma {:induction false} TakeWord(w: bytes, before: bytes, rest: bytes)
    requires SPACE !in w
    ensures Words(w + rest, before) == Words(rest, before + w)
    decreases |w|
  {
    if w == [] {
      assert w + rest == rest && before + w == before;
    } else {
      assert w[0] in w;
      assert (w + rest)[1..] == w[1..] + rest;
      TakeWord(w[1..], before + [w[0]], rest);
      assert before + [w[0]] + w[1..] == before + w;
    }
  }

  lemma WordEnds(w: bytes, rest: bytes)
    requires w != [] && (rest == [] || rest[0] == SPACE)
    ensures Words(rest, w) == [w] + Words(rest, [])
  {}

  lemma LineStarts(words: seq<bytes>, gaps: seq<nat>)
    requires |gaps| == |words| + 1 && (words == [] || gaps[0] >= 1)
    ensures LineOf(words, gaps) == [] || LineOf(words, gaps)[0] == SPACE
  {}

  lemma NoWords()
    ensures Words([], []) == []
  {}

  /** Words separated by spaces are given back, however many spaces there are. */
  lemma {:induction false} WordsGiven(words: seq<bytes>, gaps: seq<nat>)
    requires Spaced(words, gaps)
    ensures Words(LineOf(words, gaps), []) == words
    decreases |words|
  {
    hide Words;
    if words == [] {
      SkipSpaces(gaps[0], []);
      assert Spaces(gaps[0]) + [] == Spaces(gaps[0]);
      NoWords();
    } else {
      var w, rest := words[0], LineOf(words[1..], gaps[1..]);
      assert IsWord(words[0]) by {
        assert words[0] in words;
      }
      assert Spaces(gaps[0]) + w + rest == Spaces(gaps[0]) + (w + rest);
      SkipSpaces(gaps[0], w + rest);
      TakeWord(w, [], rest);
      assert [] + w == w;
      LineStarts(words[1..], gaps[1..]);
      WordEnds(w, rest);
      WordsGiven(words[1..], gaps[1..]);
      assert words == [words[0]] + words[1..];
    }
  }

  lemma LineOfNone(n: nat)
    ensures LineOf([], [n]) == Spaces(n)
  {}

  lemma NoSpaces()
    ensures Spaces(0) == []
  {}

  lemma LineStep(words: seq<bytes>, gaps: seq<nat>)
    requires |gaps| == |words| + 1 && words != []
    ensures LineOf(words, gaps) == Spaces(gaps[0]) + words[0] + LineOf(words[1..], gaps[1..])
  {}

  lemma LineOfOne(word: bytes, gaps: seq<nat>, words: seq<bytes>)
    requires |gaps| == |words| + 1
    ensures LineOf([word] + words, [0] + gaps) == word + LineOf(words, gaps)
  {
    hide LineOf, Spaces;
    var all, gs := [word] + words, [0] + gaps;
    LineStep(all, gs);
    assert all[1..] == words && gs[1..] == gaps;
    NoSpaces();
    assert [] + word == word;
  }

  lemma LineOfWider(words: seq<bytes>, gaps: seq<nat>)
    requires |gaps| == |words| + 1
    ensures LineOf(words, [gaps[0] + 1] + gaps[1..]) == [SPACE] + LineOf(words, gaps)
  {
    assert Spaces(gaps[0] + 1) == [SPACE] + Spaces(gaps[0]);
    assert ([gaps[0] + 1] + gaps[1..])[1..] == gaps[1..];
  }

  /** Every line is made of the words that it is cut into: none is empty, holds a space or is made up, and
      only spaces are dropped. */
  lemma {:induction false} WordsExactly(s: bytes, word: bytes) returns (gaps: seq<nat>)
    requires SPACE !in word
    ensures Spaced(Words(s, word), gaps) && LineOf(Words(s, word), gaps) == word + s
    ensures word != [] ==> Words(s, word) != [] && gaps[0] == 0
    decreases |s|
  {
    hide Words, LineOf, Spaces;
    var words := Words(s, word);
    WordsStep(s, word);
    NoSpaces();
    if s == [] {
      gaps := if word == [] then [0] else [0, 0];
      LineOfNone(0);
      assert Spaces(0) == [] && word + s == word;
      if word != [] {
        var none: seq<bytes> := [];
        LineOfOne(word, [0], none);
        assert [word] + none == [word] && [0] + [0] == gaps;
      }
    } else if s[0] == SPACE {
      var more := WordsExactly(s[1..], []);
      var later := [more[0] + 1] + more[1..];
      var rest := Words(s[1..], []);
      LineOfWider(rest, more);
      assert [] + s[1..] == s[1..] && [SPACE] + s[1..] == s && [] + s == s;
      if word == [] {
        gaps := later;
        assert words == rest;
      } else {
        gaps := [0] + later;
        LineOfOne(word, later, rest);
        assert words == [word] + rest;
      }
    } else {
      gaps := WordsExactly(s[1..], word + [s[0]]);
      assert word + [s[0]] + s[1..] == word + s;
    }
  }

  // Inline requests ------------------------------------------------------------------------------

  /** Octets without an octet 0 and without an end of line. */
  predicate OneLine(s: bytes) {
    (forall i :: 0 <= i < |s| ==> s[i] != 0) && forall i :: 0 <= i < |s| - 1 ==> !(s[i] == CR && s[i + 1] == LF)
  }

  lemma {:induction false} LineEnds(buf: bytes, at: nat, end: nat)
    requires at <= end && end + 2 <= |buf| && buf[end] == CR && buf[end + 1] == LF
    requires forall i :: at <= i < end ==> buf[i] != 0 && !(buf[i] == CR && buf[i + 1] == LF)
    ensures FindCrlf(buf, at) == Some(end)
    decreases end - at
  {
    if at < end {
      LineEnds(buf, at + 1, end);
    }
  }

  lemma {:induction false} NoLineYet(buf: bytes, at: nat)
    requires at <= |buf| && OneLine(buf)
    ensures FindCrlf(buf, at) == None
    decreases |buf| - at
  {
    if at < |buf| {
      NoLineYet(buf, at + 1);
    }
  }

  lemma EndFound(s: bytes, rest: bytes)
    requires OneLine(s) && (s != [] ==> s[|s| - 1] != CR)
    ensures var buf := s + CRLF + rest;
            && FindCrlf(buf, 0) == Some(|s|) && buf[..|s|] == s && buf[|s| + 2..] == rest
            && buf[0] == if s == [] then CR else s[0]
  {
    var buf := s + CRLF + rest;
    assert buf[|s|] == CR && buf[|s| + 1] == LF;
    forall i | 0 <= i < |s|
      ensures buf[i] != 0 && !(buf[i] == CR && buf[i + 1] == LF)
    {
      assert buf[i] == s[i];
      if i < |s| - 1 {
        assert buf[i + 1] == s[i + 1];
      }
    }
    LineEnds(buf, 0, |s|);
  }

  /** QUIT in any case of its letters. */
  lemma QuitSpelled(s: bytes)
    requires |s| == 4
    ensures IsQuit(s) <==>
            (s[0] == 113 || s[0] == 81) && (s[1] == 117 || s[1] == 85) && (s[2] == 105 || s[2] == 73)
            && (s[3] == 116 || s[3] == 84)
  {}

  /** Between two requests. */
  predicate Idle(c: Client) {
    c.reqtype == Unknown && c.left == 0 && c.bulklen == -1 && c.argv == [] && !c.closing
  }

  lemma Closed(c: Client)
    requires c.left >= 0 && c.bulklen >= -1 && c.closing
    ensures ProcessInput(c) == c
  {}

  /** An inline line executes exactly its words, as one command, and the parser goes on behind it; a line
      without words executes nothing, and QUIT only closes the connection. */
  lemma InlineExecutes(c: Client, words: seq<bytes>, gaps: seq<nat>, rest: bytes)
    requires Idle(c) && Spaced(words, gaps)
    requires var line := LineOf(words, gaps);
             && OneLine(line) && (line != [] ==> line[0] != STAR && line[|line| - 1] != CR)
             && c.buf == line + CRLF + rest
    ensures ProcessInput(c)
         == if words != [] && IsQuit(words[0]) then
              c.(buf := rest, closing := true, reqtype := Inline, argv := words)
            else ProcessInput(c.(buf := rest, executed := c.executed + if words == [] then [] else [words]))
  {
    hide Words, FindCrlf, LineOf, IsQuit, ReadMultibulk;
    var line := LineOf(words, gaps);
    EndFound(line, rest);
    WordsGiven(words, gaps);
    assert ReadRequest(c).c == c.(buf := rest, reqtype := Inline, argv := words);
    if words == [] {
      assert c.executed + [] == c.executed;
    }
    if words != [] && IsQuit(words[0]) {
      Closed(ReadRequest(c).c.(closing := true));
    }
  }

  /** As long as no line has ended the parser waits, but not for more than 64 KB. */
  lemma InlineWaits(c: Client)
    requires Idle(c) && c.buf != [] && c.buf[0] != STAR && OneLine(c.buf)
    ensures ProcessInput(c) == c.(reqtype := Inline, closing := |c.buf| > 64 * 1024)
  {
    NoLineYet(c.buf, 0);
    assert c.buf[0..] == c.buf;
  }

  /** More than 1 GB in the buffer closes the connection, and none of it is executed. */
  lemma BufferLimit(c: Client, data: bytes)
    requires c.left >= 0 && c.bulklen >= -1 && |c.buf| + |data| > 1024 * 1024 * 1024
    ensures Receive(c, data).closing && Receive(c, data).executed == c.executed
  {}

  // Protocol errors ------------------------------------------------------------------------------

  /** A line that holds neither an octet 0 nor a carriage return, in front of what follows. */
  predicate Plain(s: bytes) {
    forall i :: 0 <= i < |s| ==> s[i] != 0 && s[i] != CR
  }

  lemma {:induction false} CrFound(buf: bytes, at: nat, end: nat)
    requires at <= end < |buf| && buf[end] == CR && forall i :: at <= i < end ==> buf[i] != 0 && buf[i] != CR
    ensures FindCr(buf, at) == Some(end)
    decreases end - at
  {
    if at < end {
      CrFound(buf, at + 1, end);
    }
  }

  lemma PlainFound(first: u8, text: bytes, rest: bytes)
    requires Plain(text) && first != 0 && first != CR
    ensures var buf := [first] + text + CRLF + rest;
            && FindCr(buf, 0) == Some(|text| + 1) && buf[0] == first && buf[1..|text| + 1] == text
            && buf[|text| + 3..] == rest && |buf| == |text| + 3 + |rest|
  {
    var buf := [first] + text + CRLF + rest;
    assert buf[|text| + 1] == CR;
    forall i | 0 <= i < |text| + 1
      ensures buf[i] != 0 && buf[i] != CR
    {
      assert i > 0 ==> buf[i] == text[i - 1];
    }
    CrFound(buf, 0, |text| + 1);
  }

  /** The count of a multibulk request must be a number, and at most 1024 * 1024; one that is not positive
      stands for no request at all. */
  lemma CountLaw(c: Client, text: bytes, rest: bytes)
    requires Idle(c) && Plain(text) && c.buf == [STAR] + text + CRLF + rest
    ensures var n := Decimal.Parse(text);
            && (n.None? || n.value > 1024 * 1024 ==> ProcessInput(c) == c.(reqtype := Multibulk, closing := true))
            && (n.Some? && n.value <= 0 ==> ProcessInput(c) == ProcessInput(c.(buf := rest)))
  {
    hide FindCr, Decimal.Parse, ReadArgs, ReadInline;
    PlainFound(STAR, text, rest);
    assert c.buf[0..] == c.buf;
  }

  /** In front of every argument stands its length: a dollar sign and a number from 0 to 512 MB. Anything
      else closes the connection, and what has been read of the request is not executed. */
  lemma LengthLaw(c: Client, first: u8, text: bytes, rest: bytes)
    requires c.reqtype == Multibulk && c.left > 0 && c.bulklen == -1 && !c.closing
    requires Plain(text) && first != 0 && first != CR && c.buf == [first] + text + CRLF + rest
    requires first != DOLLAR || Decimal.Parse(text).None? || Decimal.Parse(text).value < 0
             || Decimal.Parse(text).value > 512 * 1024 * 1024
    ensures ProcessInput(c) == c.(closing := true)
  {
    hide FindCr, Decimal.Parse, ReadArg, ReadInline;
    PlainFound(first, text, rest);
    assert c.buf[0..] == c.buf;
  }
}
