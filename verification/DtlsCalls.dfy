/**
 open(), close() and find() of the DTLS session table, as the steps they make of DtlsTable's system.
 Other threads' steps come between, on handles of their own.
 */
module DtlsCalls {
  import opened Basics
  import opened DtlsTable

  /** What the steps of other threads leave alone: what `me` remembers, has seen and is closing. */
  ghost predicate Kept(s: State, t: State, me: Tid) {
    && t.Remembers(me) == s.Remembers(me) && t.Seen(me) == s.Seen(me) && s.closes <= t.closes
    && (me in t.closing <==> me in s.closing) && (me in s.closing ==> t.closing[me] == s.closing[me])
    && (forall h | h in s.opener :: h in t.opener && t.opener[h] == s.opener[h])
    && (forall h | h in s.opener && s.opener[h] == me :: t.Lookup(h) == s.Lookup(h))
    && (s.lock == Some(me) ==> t.lock == s.lock)
  }

  lemma OthersStep(s: State, e: Event, t: State, me: Tid)
    requires Handles(s) && Next(s, e, t) && Owned(s, e) && e.t != me
    requires e.Count? && s.lock.Some? ==> s.lock == Some(e.t)
    ensures Kept(s, t, me)
  {
  }

  lemma {:induction false} OthersSteps(run: seq<State>, events: seq<Event>, j: nat, k: nat, me: Tid)
    requires IsRun(run, events) && j <= k <= |events| && AllOwned(run, events, k)
    requires forall n | j <= n < k :: events[n].t != me
    ensures Kept(run[j], run[k], me)
    decreases k
  {
    if j < k {
      OthersSteps(run, events, j, k - 1, me);
      RunKeepsInv(run, events, k - 1);
      assert StepAt(run, events, k - 1);
      assert events[k - 1].Count? ==> ClosingOk(run[k - 1], events[k - 1].t);
      OthersStep(run[k - 1], events[k - 1], run[k], me);
    }
  }

  class Threads {
    var s: State
    ghost var run: seq<State>
    ghost var events: seq<Event>

    ghost predicate Valid()
      reads this
    {
      IsRun(run, events) && AllOwned(run, events, |events|) && run[|events|] == s
    }

    constructor ()
      ensures Valid()
    {
      s, run, events := START, [START], [];
    }

    twostate predicate Grew()
      reads this
    {
      Valid() && old(run) <= run && old(events) <= events
    }

    method Do(t: State, ghost e: Event)
      requires Valid() && Next(s, e, t) && Owned(s, e)
      modifies this
      ensures Grew() && s == t && run == old(run) + [t] && events == old(events) + [e]
    {
      Extend(run, events, e, t);
      s, run, events := t, run + [t], events + [e];
    }

    /** The other threads' turn. A caller may count on the contract alone. */
    method Others(me: Tid)
      requires Valid()
      modifies this
      ensures Grew()
      ensures forall k | |old(events)| <= k < |events| :: events[k].t != me
    {
    }

    method Wait(me: Tid)
      requires Valid()
      modifies this
      ensures Grew() && Kept(old(s), s, me)
    {
      ghost var n := |events|;
      Others(me);
      OthersSteps(run, events, n, |events|, me);
    }

    /** The lock, once whoever has it is past the part of close() that keeps it. */
    method AwaitLock(me: Tid)
      requires Valid() && s.Idle(me)
      modifies this
      ensures Grew() && Kept(old(s), s, me) && s.lock == None
    {
      ghost var n := |events|;
      Others(me);
      RunKeepsInv(run, events, |events|);
      if s.lock.Some? {
        var q := s.lock.value;
        OthersSteps(run, events, n, |events|, me);
        assert q != me;
        Do(s.(closes := s.closes + 1, lock := None, seen := s.seen[q := s.closes + 1],
              closedAt := s.closedAt[s.closing[q].h := s.closes + 1],
              closing := s.closing[q := s.closing[q].(counted := true)]), Count(q));
      }
      OthersSteps(run, events, n, |events|, me);
    }

    /** A lookup from memory, the count loaded being `c`. */
    method Remember(me: Tid, h: Handle, c: nat) returns (session: Option<Addr>)
      requires Valid() && s.Idle(me) && h in s.opener && s.opener[h] == me && s.MayLoad(me, c) && s.Hit(me, h, c)
      modifies this
      ensures Grew() && s.Idle(me) && session == s.Lookup(h) == old(s.Lookup(h))
    {
      session := s.Remembers(me).session;
      ghost var k := |events|;
      Do(s.(seen := s.seen[me := c]), FindHit(me, h, c));
      FindIsExact(run, events, k);
    }

    /** One that takes the lock, searches the map, and is remembered. */
    method Search(me: Tid, h: Handle, ghost c: nat) returns (session: Option<Addr>)
      requires Valid() && s.Idle(me) && h in s.opener && s.opener[h] == me && s.MayLoad(me, c) && !s.Hit(me, h, c)
      modifies this
      ensures Grew() && s.Idle(me) && session == s.Lookup(h) == old(s.Lookup(h))
    {
      AwaitLock(me);
      session := s.Lookup(h);
      Do(s.(memory := s.memory[me := Memory(h, session, s.closes)], seen := s.seen[me := s.closes]),
         FindMiss(me, h, c));
    }

    /** find(): what the shared map says at that moment, whether from memory or not. */
    method Find(me: Tid, h: Handle) returns (session: Option<Addr>)
      requires Valid() && s.Idle(me) && h in s.opener && s.opener[h] == me
      modifies this
      ensures Grew() && s.Idle(me) && session == s.Lookup(h) == old(s.Lookup(h))
    {
      Wait(me);
      SeenIsBehind(me);
      var c :| s.Seen(me) <= c <= s.closes;
      var last := s.Remembers(me);
      if h != 0 && h == last.handle && c % WRAP == last.closes % WRAP {
        session := Remember(me, h, c);
      } else {
        session := Search(me, h, c);
      }
    }

    lemma SeenIsBehind(me: Tid)
      requires Valid()
      ensures s.Seen(me) <= s.closes
    {
      RunKeepsInv(run, events, |events|);
      assert ThreadOk(s, me);
    }

    /**
     The end of crossbyte_dtls_open: a handle never given before, for this thread's use. None once
     every positive int has been given, past which the source's counter means nothing.
     */
    method Open(me: Tid) returns (handle: Option<Handle>)
      requires Valid() && s.Idle(me)
      modifies this
      ensures Grew() && s.Idle(me)
      ensures handle.None? ==> s.nextHandle == MOST_HANDLES
      ensures handle.Some? ==> var h := handle.value;
        0 < h < MOST_HANDLES && h !in old(s.opener) && h in s.opener && s.opener[h] == me && s.Lookup(h).Some?
    {
      AwaitLock(me);
      RunKeepsInv(run, events, |events|);
      ClosesFit(run, events, |events|);
      var h := s.nextHandle;
      if h == MOST_HANDLES {
        return None;
      }
      var a := Unlike(s.sessions.Values + set t | t in s.closing :: s.closing[t].session);
      Do(s.(sessions := s.sessions[h := a], opener := s.opener[h := me], nextHandle := h + 1), Event.Open(me, a));
      return Some(h);
    }

    /** crossbyte_dtls_close: out of the map, counted, and only then freed; a handle closed stays so. */
    method Close(me: Tid, h: Handle)
      requires Valid() && s.Idle(me) && h in s.opener && s.opener[h] == me
      modifies this
      ensures Grew() && s.Idle(me) && s.Lookup(h) == None
      ensures old(s.Lookup(h)).Some? ==> s.closes > old(s.closes)
    {
      AwaitLock(me);
      if h in s.sessions {
        var session := s.sessions[h];
        Do(s.(sessions := s.sessions - {h}, lock := Some(me), closing := s.closing[me := Closing(h, session, false)]),
           Erase(me, h));
        CountAndFree(me, h);
      }
    }

    method CountAndFree(me: Tid, h: Handle)
      requires Valid() && h in s.opener && s.opener[h] == me && s.Lookup(h) == None
      requires me in s.closing && s.closing[me].h == h && !s.closing[me].counted
      modifies this
      ensures Grew() && s.Idle(me) && s.Lookup(h) == None && s.closes > old(s.closes)
    {
      Wait(me);
      Do(s.(closes := s.closes + 1, lock := None, seen := s.seen[me := s.closes + 1],
            closedAt := s.closedAt[h := s.closes + 1],
            closing := s.closing[me := s.closing[me].(counted := true)]), Count(me));
      Wait(me);
      Do(s.(closing := s.closing - {me}), Free(me));
    }
  }
}
