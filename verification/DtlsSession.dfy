/**
 One DTLS session: its state, and its queues of datagrams in and out and of decrypted messages.

 mbedTLS is whatever answers its calls give, taking datagrams from the inbound queue and putting
 records on the outbound one while it is called, through the session's callbacks. What it is asked
 to do is kept as a history, and so is everything that ever entered or left a queue.
 */
module DtlsSession {
  import opened Basics

  type Packet = seq<byte>

  datatype State = Handshaking | Established | Closed

  const ERROR_TOO_SMALL := -1000004
  const WANT_READ := -0x6900
  const WANT_WRITE := -0x6880
  const HELLO_VERIFY_REQUIRED := -0x6A80

  /** Answers to a handshake that leave it going on. */
  predicate Waits(answer: int) { answer == WANT_READ || answer == WANT_WRITE || answer == HELLO_VERIFY_REQUIRED }

  /** Answers to a read that say there is no more of it now. */
  predicate Drained(answer: int) { answer == WANT_READ || answer == WANT_WRITE || answer == 0 }

  datatype Call = Handshake | Reset | Read | Write | CloseNotify {
    predicate BeforeDone() { Handshake? || Reset? }
  }

  /** What is asked of mbedTLS by a handshake so answered. */
  function Shaken(answer: int): seq<Event> {
    [Asked(Handshake)] + if answer == HELLO_VERIFY_REQUIRED then [Asked(Reset)] else []
  }

  datatype Event = Asked(call: Call) | HandshakeDone | BecameClosed

  /**
   mbedTLS is asked nothing once the session is closed, to shake hands or start over only before the
   handshake is done, and to read, write or say goodbye only after it.
   */
  predicate Disciplined(h: seq<Event>) {
    && (forall i | 0 <= i < |h| - 1 :: !h[i].BecameClosed?)
    && (forall j | 0 <= j < |h| && h[j].Asked? && !h[j].call.BeforeDone() :: HandshakeDone in h[..j])
    && (forall j | 0 <= j < |h| && h[j].Asked? && h[j].call.BeforeDone() :: HandshakeDone !in h[..j])
  }

  /** What may come next of a disciplined history. */
  predicate MayFollow(h: seq<Event>, e: Event) {
    && BecameClosed !in h
    && (e.Asked? ==> (e.call.BeforeDone() <==> HandshakeDone !in h))
  }

  lemma Follows(h: seq<Event>, e: Event)
    requires Disciplined(h) && MayFollow(h, e)
    ensures Disciplined(h + [e])
  {
    var g := h + [e];
    forall j | 0 <= j < |g| && g[j].Asked? ensures HandshakeDone in g[..j] <==> !g[j].call.BeforeDone() {
      assert g[..j] == h[..j];
      assert h[..|h|] == h;
    }
    forall i | 0 <= i < |g| - 1 ensures !g[i].BecameClosed? {
      assert g[i] == h[i] && h[i] in h;
    }
  }

  class Session {
    var state: State
    var error: int
    var handshakeDone: bool
    var inbound: seq<Packet>
    var outbound: seq<Packet>
    var plaintext: seq<Packet>
    ghost var history: seq<Event>
    ghost var fed: seq<Packet>       // every datagram handed in, and how many of them mbedTLS has had
    ghost var consumed: nat
    ghost var produced: seq<Packet>  // every record mbedTLS has put out, and how many were taken
    ghost var taken: nat
    ghost var decrypted: seq<Packet> // every message read from mbedTLS, and how many were handed over
    ghost var handed: nat

    ghost predicate Valid()
      reads this
    {
      && Disciplined(history)
      && (state.Closed? <==> BecameClosed in history)
      && (handshakeDone <==> HandshakeDone in history)
      && (state.Handshaking? ==> !handshakeDone) && (state.Established? ==> handshakeDone)
      && consumed <= |fed| && fed[consumed..] == inbound
      && taken <= |produced| && produced[taken..] == outbound
      && handed <= |decrypted| && decrypted[handed..] == plaintext
    }

    /** Nothing that has happened is undone: a closed session stays closed, and every log only grows. */
    twostate predicate Onward()
      reads this
    {
      && (old(state).Closed? ==> state.Closed?) && (old(handshakeDone) ==> handshakeDone)
      && old(history) <= history && old(fed) <= fed && old(produced) <= produced && old(decrypted) <= decrypted
      && old(consumed) <= consumed && old(taken) <= taken && old(handed) <= handed
    }

    constructor ()
      ensures Valid() && state.Handshaking? && inbound == outbound == plaintext == []
    {
      state, error, handshakeDone := Handshaking, 0, false;
      inbound, outbound, plaintext := [], [], [];
      history, fed, consumed, produced, taken, decrypted, handed := [], [], 0, [], 0, [], 0;
    }

    /** A call of mbedTLS: any answer, some datagrams taken in and some records put out. */
    method Ask(call: Call) returns (ret: int)
      requires Valid() && MayFollow(history, Asked(call))
      modifies this`history, this`inbound, this`outbound, this`consumed, this`produced
      ensures Valid() && Onward() && history == old(history) + [Asked(call)]
    {
      Follows(history, Asked(call));
      history := history + [Asked(call)];
      var n :| 0 <= n <= |inbound|;
      inbound, consumed := inbound[n..], consumed + n;
      var more: seq<Packet> := *;
      outbound, produced := outbound + more, produced + more;
      ret := *;
    }

    ghost method Note(e: Event)
      requires Disciplined(history) && MayFollow(history, e)
      modifies this`history
      ensures Disciplined(history) && history == old(history) + [e]
    {
      Follows(history, e);
      history := history + [e];
    }

    /** crossbyte_dtls_notify_close */
    method NotifyClose() returns (ret: int)
      requires Valid()
      modifies this
      ensures Valid() && Onward()
      ensures old(state).Established? ==> state.Closed? && Asked(CloseNotify) in history[|old(history)|..]
      ensures !old(state).Established? ==> ret == 0 && state == old(state)
      ensures !old(state).Established? ==> history == old(history) && outbound == old(outbound)
    {
      if !state.Established? {
        return 0;
      }
      ret := Ask(CloseNotify);
      state := Closed;
      Note(BecameClosed);
      assert history[|old(history)|] == Asked(CloseNotify);
    }

    /** crossbyte_dtls_feed */
    method Feed(data: Packet)
      requires Valid()
      modifies this`inbound, this`fed
      ensures Valid() && Onward()
      ensures inbound == old(inbound) + if |data| > 0 then [data] else []
    {
      if |data| > 0 {
        inbound, fed := inbound + [data], fed + [data];
      }
    }

    /**
     crossbyte_dtls_step. `messages` are what mbedTLS has to give when asked, one a read, and
     `last` its answer after them; `answer` is what it said to a handshake.
     */
    method Step(messages: seq<Packet>, last: int) returns (ret: int, ghost answer: int)
      requires Valid() && last <= 0
      modifies this
      ensures Valid() && Onward()
      ensures old(state).Closed? ==> history == old(history) && outbound == old(outbound) && decrypted == old(decrypted)
      ensures old(state).Handshaking? ==> old(history) + [Asked(Handshake)] <= history
      ensures old(state).Handshaking? ==> (handshakeDone <==> answer == 0)
      ensures state.Handshaking? ==> ret == 0 && decrypted == old(decrypted) && Waits(answer)
      ensures state.Handshaking? ==> history == old(history) + Shaken(answer)
      ensures state.Established? ==> ret == 1
      ensures handshakeDone && !old(state).Closed? ==> decrypted == old(decrypted) + messages
      ensures old(state).Closed? ==> ret == 2 && error == old(error)
      ensures old(state).Handshaking? && answer != 0 ==> (state.Closed? <==> !Waits(answer))
      ensures state.Closed? && old(state).Handshaking? && answer != 0 ==> error == ret == answer
      ensures handshakeDone && !old(state).Closed? ==> (state.Closed? <==> !Drained(last))
      ensures state.Closed? && handshakeDone && !old(state).Closed? ==> error == last && ret == 2
    {
      answer := 0;
      if state.Closed? {
        return 2, 0;
      }
      if !handshakeDone {
        ret := Ask(Handshake);
        answer := ret;
        if ret == 0 {
          handshakeDone, state := true, Established;
          Note(HandshakeDone);
        } else if ret == WANT_READ || ret == WANT_WRITE {
          return 0, answer;
        } else if ret == HELLO_VERIFY_REQUIRED {
          var _ := Ask(Reset);
          return 0, answer;
        } else {
          End(ret);
          return;
        }
      }
      if state.Established? {
        DrainPlaintext(messages, last);
      }
      ret := if state.Closed? then 2 else 1;
    }

    /** A session that is over, for the reason kept. */
    method End(code: int)
      requires Valid() && !state.Closed?
      modifies this`state, this`error, this`history
      ensures Valid() && Onward() && state.Closed? && error == code && history == old(history) + [BecameClosed]
    {
      error, state := code, Closed;
      Note(BecameClosed);
    }

    /** A read that gives a message. */
    method Decrypt(message: Packet)
      requires Valid() && state.Established?
      modifies this`plaintext, this`decrypted, this`history, this`inbound, this`outbound, this`consumed, this`produced
      ensures Valid() && Onward()
      ensures decrypted == old(decrypted) + [message] && plaintext == old(plaintext) + [message]
    {
      var _ := Ask(Read);
      plaintext, decrypted := plaintext + [message], decrypted + [message];
    }

    /** Every message readable now, until mbedTLS has no more, or ends the session. */
    method DrainPlaintext(messages: seq<Packet>, last: int)
      requires Valid() && state.Established? && last <= 0
      modifies this
      ensures Valid() && Onward() && handshakeDone
      ensures decrypted == old(decrypted) + messages && plaintext == old(plaintext) + messages
      ensures state.Closed? <==> !Drained(last)
      ensures state.Closed? ==> error == last
    {
      for i := 0 to |messages|
        invariant Valid() && Onward() && state.Established?
        invariant decrypted == old(decrypted) + messages[..i] && plaintext == old(plaintext) + messages[..i]
      {
        Decrypt(messages[i]);
      }
      assert messages[..|messages|] == messages;
      var _ := Ask(Read);
      if !Drained(last) {
        End(last);
      }
    }

    /** crossbyte_dtls_pending */
    method Pending() returns (size: nat)
      requires Valid()
      ensures size == if taken < |produced| then |produced[taken]| else 0
    {
      size := if outbound == [] then 0 else |outbound[0]|;
      assert outbound != [] ==> produced[taken..][0] == produced[taken];
    }

    /** crossbyte_dtls_take: the next record, whole, or nothing and it stays. */
    method Take(capacity: int) returns (ret: int, out: Option<Packet>)
      requires Valid()
      modifies this`outbound, this`taken
      ensures Valid() && Onward()
      ensures out.Some? ==> old(taken) < |produced| && out.value == produced[old(taken)] && taken == old(taken) + 1
      ensures out.Some? ==> ret == |out.value| <= capacity
      ensures out.None? ==> outbound == old(outbound) && taken == old(taken) && (ret == 0 <==> outbound == [])
      ensures out.None? && outbound != [] ==> ret == ERROR_TOO_SMALL && |outbound[0]| > capacity
    {
      if outbound == [] {
        return 0, None;
      }
      var front := outbound[0];
      assert produced[taken..][0] == produced[taken];
      if |front| > capacity {
        return ERROR_TOO_SMALL, None;
      }
      outbound, taken := outbound[1..], taken + 1;
      return |front|, Some(front);
    }

    /** crossbyte_dtls_write */
    method Write(data: Packet) returns (written: int)
      requires Valid()
      modifies this`history, this`inbound, this`outbound, this`consumed, this`produced, this`error
      ensures Valid() && Onward() && state == old(state)
      ensures !state.Established? ==> written == WANT_WRITE && history == old(history) && outbound == old(outbound)
      ensures state.Established? ==> history == old(history) + [Asked(Call.Write)]
      ensures error == if state.Established? && written < 0 then written else old(error)
    {
      if !state.Established? {
        return WANT_WRITE;
      }
      written := Ask(Call.Write);
      if written < 0 {
        error := written;
      }
    }

    /** crossbyte_dtls_available */
    method Available() returns (size: nat)
      requires Valid()
      ensures size == if handed < |decrypted| then |decrypted[handed]| else 0
    {
      size := if plaintext == [] then 0 else |plaintext[0]|;
      assert plaintext != [] ==> decrypted[handed..][0] == decrypted[handed];
    }

    /** crossbyte_dtls_read: the next message, whole, or nothing and it stays, closed or not. */
    method ReadNext(capacity: int) returns (ret: int, out: Option<Packet>)
      requires Valid()
      modifies this`plaintext, this`handed
      ensures Valid() && Onward()
      ensures out.Some? ==> old(handed) < |decrypted| && out.value == decrypted[old(handed)]
      ensures out.Some? ==> handed == old(handed) + 1
      ensures out.Some? ==> ret == |out.value| <= capacity
      ensures out.None? ==> plaintext == old(plaintext) && handed == old(handed) && (ret == 0 <==> plaintext == [])
      ensures out.None? && plaintext != [] ==> ret == ERROR_TOO_SMALL && |plaintext[0]| > capacity
    {
      if plaintext == [] {
        return 0, None;
      }
      var front := plaintext[0];
      assert decrypted[handed..][0] == decrypted[handed];
      if |front| > capacity {
        return ERROR_TOO_SMALL, None;
      }
      plaintext, handed := plaintext[1..], handed + 1;
      return |front|, Some(front);
    }
  }
}
