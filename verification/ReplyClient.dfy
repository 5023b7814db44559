/** The output side of a client (networking.c) on the buffers it changes in place. */
module ReplyClient {
  import opened Bytes
  import opened ReplyQueue
  import Decimal
  import Resp
  import Sequences

  /** The place of a count in the reply list, or nothing when the client gets no replies. */
  datatype Deferred = NoPlace | Place(id: nat)

  /** What was sent holds no places of counts. */
  lemma FillSent(sent: bytes, left: seq<Symbol>, id: nat, text: bytes)
    ensures Fill(Octets(sent) + left, id, text) == Octets(sent) + Fill(left, id, text)
  {
    FillConcat(Octets(sent), left, id, text);
    FillNothing(Octets(sent), id, text);
  }

  class RedisClient {
    const buf: array<u8>
    var bufpos: nat
    var reply: seq<Chunk>
    var sentlen: nat
    var closing: bool             // REDIS_CLOSE_AFTER_REPLY

    const master: bool            // replies to a master are thrown away instead of sent
    var wire: bytes               // what the network accepted
    var nextId: nat
    ghost var sent: bytes         // what left the buffers
    ghost var refused: bool       // whether the network took nothing when it was last asked
    ghost var replies: seq<Symbol>  // all replies so far, in order

    ghost predicate Valid()
      reads this, buf
    {
      && buf.Length == REPLY_CHUNK_BYTES && bufpos <= buf.Length
      && SentOfFirst(buf[..bufpos], reply, sentlen)
      && replies == Octets(sent) + Left(buf[..bufpos], reply, sentlen)
      && DistinctHoles(reply) && HolesBelow(reply, nextId)
      && wire == if master then [] else sent
    }

    constructor (master: bool)
      ensures Valid() && replies == [] && sent == [] && !closing && this.master == master && fresh(buf)
    {
      buf := new u8[REPLY_CHUNK_BYTES];
      bufpos, reply, sentlen, closing, nextId := 0, [], 0, false, 0;
      this.master := master;
      wire, sent, replies, refused := [], [], [], false;
    }

    method CopyIn(s: bytes)
      requires bufpos + |s| <= buf.Length
      modifies buf
      ensures buf[..bufpos] == old(buf[..bufpos]) && buf[bufpos..bufpos + |s|] == s
    {
      var k := 0;
      while k < |s|
        invariant k <= |s| && buf[..bufpos] == old(buf[..bufpos]) && buf[bufpos..bufpos + k] == s[..k]
      {
        buf[bufpos + k] := s[k];
        k := k + 1;
      }
    }

    /** _addReplyToBuffer: only while the list is empty, and only what fits. */
    method AddReplyToBuffer(s: bytes) returns (ok: bool)
      requires Valid()
      modifies this`bufpos, this`replies, buf
      ensures Valid()
      ensures replies == if ok && !closing then old(replies) + Octets(s) else old(replies)
      ensures ok <==> closing || (reply == [] && |s| <= buf.Length - old(bufpos))
    {
      var available := buf.Length - bufpos;
      if closing {
        return true;
      }
      if reply != [] {
        return false;
      }
      if |s| > available {
        return false;
      }
      hide Left, Octets;
      ghost var front := buf[..bufpos];
      CopyIn(s);
      bufpos := bufpos + |s|;
      assert buf[..bufpos] == front + s;
      LeftGrowsInFront(front, s, sentlen);
      Sequences.Assoc(Octets(sent), Left(front, [], sentlen), Octets(s));
      replies := replies + Octets(s);
      ok := true;
    }

    /** _addReplyObjectToList, _addReplySdsToList and _addReplyStringToList: glued to the last chunk if
        the result is not too long, and never to the place of a count. */
    method AddReplyToList(s: bytes)
      requires Valid()
      modifies this`reply, this`replies
      ensures Valid() && replies == if closing then old(replies) else old(replies) + Octets(s)
    {
      hide SentOfFirst, Left, DistinctHoles, HolesBelow, Octets;
      if closing {
        return;
      }
      ghost var was := reply;
      ReplyAppended(buf[..bufpos], reply, sentlen, s, nextId);
      if reply == [] {
        reply := [Sds(s)];
        assert reply == was + [Sds(s)];
      } else {
        var tail := reply[|reply| - 1];
        if tail.Sds? && |tail.s| + |s| <= REPLY_CHUNK_BYTES {
          reply := reply[|reply| - 1 := Sds(tail.s + s)];
        } else {
          reply := reply + [Sds(s)];
        }
      }
      Sequences.Assoc(Octets(sent), Left(buf[..bufpos], was, sentlen), Octets(s));
      replies := replies + Octets(s);
    }

    /** addReplyString and addReplySds: nothing for a client that cannot be written to. */
    method AddReplyString(s: bytes, writable: bool)
      requires Valid()
      modifies this`bufpos, this`reply, this`replies, buf
      ensures Valid()
      ensures replies == if writable && !closing then old(replies) + Octets(s) else old(replies)
    {
      if !writable {
        return;
      }
      var ok := AddReplyToBuffer(s);
      if !ok {
        AddReplyToList(s);
      }
    }

    /** addReply of a number kept as such: printed straight into the static buffer when there is room
        for any number. */
    method AddReplyNumber(v: int, writable: bool)
      requires Valid() && Decimal.InRange(v)
      modifies this`bufpos, this`reply, this`replies, buf
      ensures Valid()
      ensures replies == if writable && !closing then old(replies) + Octets(Decimal.Print(v)) else old(replies)
    {
      if !writable {
        return;
      }
      var text := Decimal.Ll2string(v);
      if reply == [] && buf.Length - bufpos >= 32 {
        var done := AddReplyToBuffer(text);
        if done {
          return;
        }
      }
      AddReplyString(text, true);
    }

    /** addDeferredMultiBulkLength: the place of a count in the list, even of a client about to be
        closed. */
    method AddDeferredMultiBulkLength(writable: bool) returns (node: Deferred)
      requires Valid()
      modifies this`reply, this`replies, this`nextId
      ensures Valid()
      ensures if writable then node == Place(old(nextId)) && replies == old(replies) + [Hole(old(nextId))]
                && Null(old(nextId)) in reply
              else node == NoPlace && replies == old(replies)
    {
      hide SentOfFirst, Left, DistinctHoles, HolesBelow, Octets;
      if !writable {
        return NoPlace;
      }
      HoleAppended(buf[..bufpos], reply, sentlen, nextId);
      Sequences.Assoc(Octets(sent), Left(buf[..bufpos], reply, sentlen), [Hole(nextId)]);
      reply := reply + [Null(nextId)];
      assert reply[|reply| - 1] == Null(nextId);
      replies := replies + [Hole(nextId)];
      node := Place(nextId);
      nextId := nextId + 1;
    }

    /** setDeferredMultiBulkLength: the count is filled in, and glued to the chunk behind it. */
    method SetDeferredMultiBulkLength(node: Deferred, length: int)
      requires Valid() && (node.Place? ==> Null(node.id) in reply)
      modifies this`reply, this`replies
      ensures Valid()
      ensures replies == if node.Place? then Fill(old(replies), node.id, Resp.Line(Resp.STAR, length)) else old(replies)
    {
      hide SentOfFirst, Left, DistinctHoles, HolesBelow, Octets, Fill, Resp.Line;
      if node.NoPlace? {
        return;
      }
      var i := 0;
      while reply[i] != Null(node.id)
        invariant 0 <= i < |reply| && Null(node.id) !in reply[..i]
        decreases |reply| - i
      {
        i := i + 1;
      }
      var len := Resp.CatLine([], Resp.STAR, length);
      assert [] + Resp.Line(Resp.STAR, length) == Resp.Line(Resp.STAR, length);
      HoleFilled(buf[..bufpos], reply, sentlen, i, len);
      HolesGlued(reply, i, len, nextId);
      FillSent(sent, Left(buf[..bufpos], reply, sentlen), node.id, len);
      if i + 1 < |reply| && reply[i + 1].Sds? {
        // the place of another count stays a chunk of its own
        reply := reply[..i] + [Sds(len + reply[i + 1].s)] + reply[i + 2..];
      } else {
        reply := reply[i := Sds(len)];
      }
      replies := Fill(replies, node.id, len);
    }

    ghost function Unsent(): seq<Symbol>
      requires Valid()
      reads this, buf
    {
      Left(buf[..bufpos], reply, sentlen)
    }

    ghost predicate NoHoles()
      reads this
    {
      forall i :: 0 <= i < |reply| ==> reply[i].Sds?
    }

    /** What the network takes of `n` octets: any part of them, or nothing, or an error (-1). */
    method Write(octets: bytes) returns (nwritten: int)
      requires octets != []
      modifies this`wire, this`refused
      ensures refused == (nwritten <= 0)
      ensures -1 <= nwritten <= |octets|
      ensures wire == if !master && nwritten > 0 then old(wire) + octets[..nwritten] else old(wire)
      ensures master ==> nwritten == |octets|
    {
      if master {
        refused := false;
        return |octets|;
      }
      nwritten :| -1 <= nwritten <= |octets|;
      refused := nwritten <= 0;
      if nwritten > 0 {
        wire := wire + octets[..nwritten];
      }
    }

    lemma Forward(out: bytes, left: seq<Symbol>)
      ensures Octets(sent) + (Octets(out) + left) == Octets(sent + out) + left
      ensures out == [] ==> sent + out == sent
    {
      OctetsConcat(sent, out);
      hide Octets;
      Sequences.Assoc(Octets(sent), Octets(out), left);
    }

    /** One write from the static buffer. */
    method SendFront() returns (nwritten: int)
      requires Valid() && bufpos > 0
      modifies this`bufpos, this`sentlen, this`wire, this`sent, this`refused
      ensures refused == (nwritten <= 0) && |sent| == |old(sent)| + (if nwritten > 0 then nwritten else 0)
      ensures Valid() && (nwritten > 0 ==> |Unsent()| < |old(Unsent())|) && old(sent) <= sent
      ensures nwritten <= 0 ==> bufpos == old(bufpos) && sentlen == old(sentlen)
    {
      hide Left, Octets;
      ghost var front := buf[..bufpos];
      nwritten := Write(buf[sentlen..bufpos]);
      if nwritten <= 0 {
        return;
      }
      FrontSent(front, reply, sentlen, nwritten);
      ghost var out := front[sentlen..sentlen + nwritten];
      assert buf[sentlen..bufpos][..nwritten] == out;
      sentlen := sentlen + nwritten;
      if sentlen == bufpos {
        bufpos, sentlen := 0, 0;
        assert buf[..bufpos] == [];
      }
      Forward(out, Left(buf[..bufpos], reply, sentlen));
      sent := sent + out;
    }

    /** One write from the first chunk of the list, or just its removal if it is empty. */
    method SendHead() returns (nwritten: int)
      requires Valid() && bufpos == 0 && reply != [] && reply[0].Sds?
      modifies this`reply, this`sentlen, this`wire, this`sent, this`refused
      ensures |sent| == |old(sent)| + (if nwritten > 0 then nwritten else 0)
      ensures refused == if old(reply[0].s) == [] then old(refused) else nwritten <= 0
      ensures Valid() && |Unsent()| <= |old(Unsent())| && old(sent) <= sent
      ensures if nwritten > 0 then |Unsent()| < |old(Unsent())|
              else if old(reply[0].s) == [] then reply == old(reply[1..])
                     else reply == old(reply) && sentlen == old(sentlen)
      ensures reply == old(reply) || reply == old(reply[1..])
      ensures old(reply[0].s) == [] ==> nwritten == 0
    {
      hide Left, Octets;
      var o := reply[0].s;
      assert buf[..bufpos] == [] && sentlen <= |o| && (o != [] ==> sentlen < |o|);
      hide SentOfFirst, DistinctHoles, HolesBelow;
      nwritten := 0;
      if o != [] {
        nwritten := Write(o[sentlen..]);
        if nwritten <= 0 {
          return;
        }
        assert o[sentlen..][..nwritten] == o[sentlen..sentlen + nwritten];
      }
      HeadSent(reply, sentlen, nwritten);
      ghost var out := o[sentlen..sentlen + nwritten];
      sentlen := sentlen + nwritten;
      if sentlen == |o| {
        reply := reply[1..];
        sentlen := 0;
      }
      Forward(out, Left([], reply, sentlen));
      sent := sent + out;
    }

    lemma AllSent()
      requires Valid()
      ensures bufpos == 0 && reply == [] ==> sentlen == 0 && Octets(sent) == replies
    {
      if bufpos == 0 && reply == [] {
        assert buf[..bufpos] == [] && Octets([]) + Symbols([]) == [];
        assert Octets(sent) + [] == Octets(sent);
      }
    }

    /** One write from what is to be sent first; an empty chunk is just removed. */
    method SendSome() returns (nwritten: int, removed: bool)
      requires Valid() && NoHoles() && (bufpos > 0 || reply != [])
      modifies this`bufpos, this`reply, this`sentlen, this`wire, this`sent, this`refused
      ensures Valid() && NoHoles() && old(sent) <= sent
      ensures |sent| == |old(sent)| + (if nwritten > 0 then nwritten else 0)
      ensures removed ==> nwritten == 0 && |reply| < |old(reply)| && refused == old(refused)
      ensures !removed ==> refused == (nwritten <= 0)
      ensures |Unsent()| <= |old(Unsent())| && (nwritten > 0 ==> |Unsent()| < |old(Unsent())|)
    {
      removed := false;
      if bufpos > 0 {
        nwritten := SendFront();
      } else {
        removed := |reply[0].s| == 0;
        nwritten := SendHead();
      }
    }

    /** sendReplyToClient, when the event loop finds the client writable; no count is missing then. */
    method SendReplyToClient() returns (freed: bool)
      requires Valid() && NoHoles()
      modifies this`bufpos, this`reply, this`sentlen, this`wire, this`sent, this`refused
      ensures Valid() && NoHoles() && old(sent) <= sent
      ensures bufpos == 0 && reply == [] ==> Octets(sent) == replies
      // it goes on until all is sent, the network refuses, or it has had its share
      ensures (bufpos == 0 && reply == []) || refused || |sent| > |old(sent)| + MAX_WRITE_PER_EVENT
      ensures freed ==> refused || (closing && bufpos == 0 && reply == [])
      ensures closing && bufpos == 0 && reply == [] ==> freed
    {
      hide Left, Octets;
      freed, refused := false, false;
      var nwritten, totwritten := 0, 0;
      while bufpos > 0 || reply != []
        invariant Valid() && NoHoles() && old(sent) <= sent && totwritten >= 0
        invariant |sent| == |old(sent)| + totwritten && nwritten >= 0 && !refused
        decreases |Unsent()|, |reply|
      {
        var removed;
        nwritten, removed := SendSome();
        if removed {
          continue;
        }
        if nwritten <= 0 {
          break;
        }
        totwritten := totwritten + nwritten;
        var memoryLeft: bool := *;
        if totwritten > MAX_WRITE_PER_EVENT && memoryLeft {
          break;
        }
      }
      AllSent();
      if nwritten == -1 {
        var again: bool := *;  // EAGAIN
        if !again {
          return true;
        }
      }
      if bufpos == 0 && reply == [] {
        sentlen := 0;
        freed := closing;
      }
    }
  }
}
