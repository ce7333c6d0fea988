/**
 The process's table of DTLS sessions, and the lookup each thread remembers.

 find() answers from the thread's memory when the handle is the last it looked up and the count of
 closes has not moved, taking no lock; a load of the count may lag behind closes of other threads,
 but not behind any this thread has seen or made. Opens, closes and lookups of every thread
 interleave, a close in its three parts: out of the map, the count raised, the session freed.
 */
module DtlsTable {
  import opened Basics

  type Tid = nat
  type Handle = nat
  type Addr = nat  // a session's address, used again once freed

  const WRAP := 0x1_0000_0000          // the count of closes is 32 bits
  const MOST_HANDLES := 0x8000_0000    // an int names the sessions, and callers use the positive ones

  /** t_lastHandle, t_lastSession and t_lastCloses; the count here is whole, and compared as 32 bits. */
  datatype Memory = Memory(handle: Handle, session: Option<Addr>, closes: nat)

  datatype Closing = Closing(h: Handle, session: Addr, counted: bool)

  datatype State = State(
    sessions: map<Handle, Addr>, nextHandle: Handle, closes: nat,
    lock: Option<Tid>,
    memory: map<Tid, Memory>, seen: map<Tid, nat>, closing: map<Tid, Closing>,
    opener: map<Handle, Tid>,     // whom open() returned a handle to
    closedAt: map<Handle, nat>)   // the count a handle's close raised it to
  {
    function Remembers(t: Tid): Memory { if t in memory then memory[t] else Memory(0, None, 0) }

    function Seen(t: Tid): nat { if t in seen then seen[t] else 0 }

    /** What the shared map says. */
    function Lookup(h: Handle): Option<Addr> { if h in sessions then Some(sessions[h]) else None }

    /** Whether a load answering `c` lets `t` use what it remembers. */
    predicate Hit(t: Tid, h: Handle, c: nat) {
      h != 0 && h == Remembers(t).handle && c % WRAP == Remembers(t).closes % WRAP
    }

    predicate MayLoad(t: Tid, c: nat) { Seen(t) <= c <= closes }

    predicate Idle(t: Tid) { t !in closing }
  }

  datatype Event =
    | Open(t: Tid, session: Addr)
    | Erase(t: Tid, h: Handle)            // close(): out of the map, the lock taken
    | Count(t: Tid)                       // the count raised, the lock let go
    | Free(t: Tid)
    | FindHit(t: Tid, h: Handle, c: nat)  // a lookup that loaded `c` and answered from memory
    | FindMiss(t: Tid, h: Handle, c: nat) // one that took the lock and searched the map

  predicate Init(s: State) {
    && s.sessions == map[] && s.nextHandle == 1 && s.closes == 0 && s.lock == None
    && s.memory == map[] && s.seen == map[] && s.closing == map[] && s.opener == map[] && s.closedAt == map[]
  }

  /** An address nothing has: no session, and none being closed. */
  predicate Unused(s: State, a: Addr) {
    a !in s.sessions.Values && forall t | t in s.closing :: s.closing[t].session != a
  }

  predicate Next(s: State, e: Event, t: State) {
    match e
    case Open(p, a) =>
      && s.Idle(p) && s.lock == None && Unused(s, a) && s.nextHandle < MOST_HANDLES
      && t == s.(sessions := s.sessions[s.nextHandle := a], opener := s.opener[s.nextHandle := p],
                 nextHandle := s.nextHandle + 1)
    case Erase(p, h) =>
      && s.Idle(p) && s.lock == None && h in s.sessions
      && t == s.(sessions := s.sessions - {h}, lock := Some(p),
                 closing := s.closing[p := Closing(h, s.sessions[h], false)])
    case Count(p) =>
      && p in s.closing && !s.closing[p].counted
      && t == s.(closes := s.closes + 1, lock := None, seen := s.seen[p := s.closes + 1],
                 closedAt := s.closedAt[s.closing[p].h := s.closes + 1],
                 closing := s.closing[p := s.closing[p].(counted := true)])
    case Free(p) =>
      p in s.closing && s.closing[p].counted && t == s.(closing := s.closing - {p})
    case FindHit(p, h, c) =>
      s.Idle(p) && s.MayLoad(p, c) && s.Hit(p, h, c) && t == s.(seen := s.seen[p := c])
    case FindMiss(p, h, c) =>
      && s.Idle(p) && s.MayLoad(p, c) && !s.Hit(p, h, c) && s.lock == None
      && t == s.(memory := s.memory[p := Memory(h, s.Lookup(h), s.closes)], seen := s.seen[p := s.closes])
  }

  /** What find() answers at a step. */
  function Answer(s: State, e: Event): Option<Addr>
    requires e.FindHit? || e.FindMiss?
  {
    if e.FindHit? then s.Remembers(e.t).session else s.Lookup(e.h)
  }

  /** A thread uses and closes only sessions open() returned to it: what the runtimes keep to. */
  predicate Owned(s: State, e: Event) {
    e.FindHit? || e.FindMiss? || e.Erase? ==> e.h in s.opener && s.opener[e.h] == e.t
  }

  ghost predicate ThreadOk(s: State, t: Tid) {
    var m := s.Remembers(t);
    && m.closes <= s.Seen(t) <= s.closes
    && (m.handle != 0 ==>
          && m.handle in s.opener && s.opener[m.handle] == t
          && (ClosedSince(s, t) || s.Lookup(m.handle) == m.session || Erasing(s, t, m.handle)))
  }

  /** `t` is in the middle of closing `h`: out of the map, not yet counted. */
  predicate Erasing(s: State, t: Tid, h: Handle) {
    t in s.closing && s.closing[t].h == h && !s.closing[t].counted
  }

  /** `t` has closed the handle it remembers since it looked it up. */
  predicate ClosedSince(s: State, t: Tid) {
    var h := s.Remembers(t).handle;
    h in s.closedAt && s.Remembers(t).closes < s.closedAt[h]
  }

  /** A handle that has been closed stays closed, and its own thread has seen the count of it. */
  ghost predicate ClosedOk(s: State, h: Handle) {
    && h in s.closedAt && h in s.opener && h !in s.sessions
    && s.closedAt[h] <= s.Seen(s.opener[h])
  }

  ghost predicate ClosingOk(s: State, t: Tid) {
    && t in s.closing && s.closing[t].h in s.opener && s.opener[s.closing[t].h] == t && s.closing[t].h !in s.sessions
    && (!s.closing[t].counted ==> s.lock == Some(t) && s.closing[t].h !in s.closedAt)
  }

  ghost predicate Handles(s: State) {
    s.nextHandle >= 1 && s.sessions.Keys <= s.opener.Keys && forall h | h in s.opener :: 0 < h < s.nextHandle
  }

  ghost predicate Inv(s: State) {
    && Handles(s)
    && (forall h | h in s.closedAt :: ClosedOk(s, h))
    && (forall t | t in s.closing :: ClosingOk(s, t))
    && (s.lock.Some? ==> s.lock.value in s.closing && !s.closing[s.lock.value].counted)
    && (forall t: Tid :: ThreadOk(s, t))
  }

  lemma OpenKeepsInv(s: State, p: Tid, a: Addr, t: State)
    requires Inv(s) && Next(s, Open(p, a), t)
    ensures Inv(t)
  {
    forall q: Tid ensures ThreadOk(t, q) {
      assert ThreadOk(s, q);
    }
    forall h | h in t.closedAt ensures ClosedOk(t, h) {
      assert ClosedOk(s, h);
    }
    forall q | q in t.closing ensures ClosingOk(t, q) {
      assert ClosingOk(s, q);
    }
  }

  lemma EraseKeepsInv(s: State, p: Tid, h: Handle, t: State)
    requires Inv(s) && Next(s, Erase(p, h), t) && h in s.opener && s.opener[h] == p
    ensures Inv(t)
  {
    forall q: Tid ensures ThreadOk(t, q) {
      assert ThreadOk(s, q);
    }
    forall k | k in t.closedAt ensures ClosedOk(t, k) {
      assert ClosedOk(s, k);
    }
    assert h in s.closedAt ==> ClosedOk(s, h);
    forall q | q in t.closing ensures ClosingOk(t, q) {
      assert q != p ==> ClosingOk(s, q);
    }
  }

  lemma CountKeepsInv(s: State, p: Tid, t: State)
    requires Inv(s) && Next(s, Count(p), t)
    ensures Inv(t)
  {
    assert ClosingOk(s, p) && ThreadOk(s, p);
    forall q: Tid ensures ThreadOk(t, q) {
      assert ThreadOk(s, q);
    }
    forall k | k in t.closedAt ensures ClosedOk(t, k) {
      assert k in s.closedAt ==> ClosedOk(s, k) && ThreadOk(s, s.opener[k]);
    }
    forall q | q in t.closing ensures ClosingOk(t, q) {
      assert ClosingOk(s, q);
    }
  }

  lemma FreeKeepsInv(s: State, p: Tid, t: State)
    requires Inv(s) && Next(s, Free(p), t)
    ensures Inv(t)
  {
    forall q: Tid ensures ThreadOk(t, q) {
      assert ThreadOk(s, q);
    }
    forall k | k in t.closedAt ensures ClosedOk(t, k) {
      assert ClosedOk(s, k);
    }
    forall q | q in t.closing ensures ClosingOk(t, q) {
      assert ClosingOk(s, q);
    }
  }

  lemma FindKeepsInv(s: State, e: Event, t: State)
    requires Inv(s) && Next(s, e, t) && Owned(s, e) && (e.FindHit? || e.FindMiss?)
    ensures Inv(t)
  {
    forall q: Tid ensures ThreadOk(t, q) {
      assert ThreadOk(s, q);
    }
    forall k | k in t.closedAt ensures ClosedOk(t, k) {
      assert ClosedOk(s, k) && ThreadOk(s, s.opener[k]);
    }
    forall q | q in t.closing ensures ClosingOk(t, q) {
      assert ClosingOk(s, q);
    }
  }

  lemma StepKeepsInv(s: State, e: Event, t: State)
    requires Inv(s) && Next(s, e, t) && Owned(s, e)
    ensures Inv(t)
  {
    match e
    case Open(p, a) => OpenKeepsInv(s, p, a, t);
    case Erase(p, h) => EraseKeepsInv(s, p, h, t);
    case Count(p) => CountKeepsInv(s, p, t);
    case Free(p) => FreeKeepsInv(s, p, t);
    case FindHit(_, _, _) => FindKeepsInv(s, e, t);
    case FindMiss(_, _, _) => FindKeepsInv(s, e, t);
  }

  ghost predicate IsRun(run: seq<State>, events: seq<Event>) {
    && |run| == |events| + 1
    && Init(run[0])
    && forall k | 0 <= k < |events| :: StepAt(run, events, k)
  }

  ghost predicate StepAt(run: seq<State>, events: seq<Event>, k: int)
    requires 0 <= k < |events| == |run| - 1
  {
    Next(run[k], events[k], run[k + 1])
  }

  /** Every call so far was on a handle open() had returned to its thread. */
  ghost predicate AllOwned(run: seq<State>, events: seq<Event>, k: nat)
    requires IsRun(run, events) && k <= |events|
  {
    forall i | 0 <= i < k :: Owned(run[i], events[i])
  }

  lemma {:induction false} RunKeepsInv(run: seq<State>, events: seq<Event>, k: nat)
    requires IsRun(run, events) && k <= |events| && AllOwned(run, events, k)
    ensures Inv(run[k])
  {
    if k > 0 {
      RunKeepsInv(run, events, k - 1);
      assert StepAt(run, events, k - 1);
      StepKeepsInv(run[k - 1], events[k - 1], run[k]);
    }
  }

  /** Every handle given out is of a session in the map, one closed and counted, or the one being closed. */
  ghost predicate Counted(s: State) {
    && s.nextHandle <= MOST_HANDLES
    && |s.sessions.Keys| + s.closes + (if s.lock.Some? then 1 else 0) == s.nextHandle - 1
  }

  lemma StepKeepsCount(s: State, e: Event, t: State)
    requires Next(s, e, t) && Counted(s) && s.nextHandle !in s.sessions
    requires e.Count? ==> s.lock.Some?
    ensures Counted(t)
  {
    if e.Open? {
      assert t.sessions.Keys == s.sessions.Keys + {s.nextHandle};
    } else if e.Erase? {
      assert t.sessions.Keys == s.sessions.Keys - {e.h};
    }
  }

  /** So there are never as many closes as would bring the 32-bit count round. */
  lemma {:induction false} ClosesFit(run: seq<State>, events: seq<Event>, k: nat)
    requires IsRun(run, events) && k <= |events| && AllOwned(run, events, k)
    ensures Counted(run[k]) && run[k].closes < MOST_HANDLES < WRAP
  {
    if k > 0 {
      ClosesFit(run, events, k - 1);
      RunKeepsInv(run, events, k - 1);
      assert StepAt(run, events, k - 1);
      assert events[k - 1].Count? ==> ClosingOk(run[k - 1], events[k - 1].t);
      StepKeepsCount(run[k - 1], events[k - 1], run[k]);
    }
  }

  /**
   In every run a lookup answers what the shared map says at that moment: never a session freed or
   being closed, and never none for one that is there.
   */
  lemma FindIsExact(run: seq<State>, events: seq<Event>, k: nat)
    requires IsRun(run, events) && k < |events| && AllOwned(run, events, k + 1)
    requires events[k].FindHit? || events[k].FindMiss?
    ensures Answer(run[k], events[k]) == run[k].Lookup(events[k].h)
  {
    RunKeepsInv(run, events, k);
    ClosesFit(run, events, k);
    var s, e := run[k], events[k];
    assert StepAt(run, events, k) && Owned(s, e) && ThreadOk(s, e.t);
    if e.FindHit? {
      RememberedIsCurrent(s, e.t, e.c);
    }
  }

  /** Counts below 2^32 that agree in 32 bits are the same, so the thread has closed nothing since. */
  lemma RememberedIsCurrent(s: State, t: Tid, c: nat)
    requires Inv(s) && s.closes < WRAP && s.Idle(t) && s.MayLoad(t, c) && s.Hit(t, s.Remembers(t).handle, c)
    ensures s.Remembers(t).session == s.Lookup(s.Remembers(t).handle)
  {
    var h := s.Remembers(t).handle;
    assert ThreadOk(s, t) && (h in s.closedAt ==> ClosedOk(s, h));
  }

  /**
   A handle looked up before open() has returned it is remembered as none, and still answered so
   when it has been opened: why callers must only ask about handles open() gave them.
   */
  lemma GuessedHandleStaysNull() returns (run: seq<State>, events: seq<Event>)
    ensures IsRun(run, events) && |events| == 3 && !Owned(run[0], events[0])
    ensures forall i | 1 <= i < 3 :: Owned(run[i], events[i])
    ensures events[2].FindHit? && Answer(run[2], events[2]) == None && run[2].Lookup(events[2].h) == Some(7)
  {
    var s0 := State(map[], 1, 0, None, map[], map[], map[], map[], map[]);
    var s1 := s0.(memory := map[0 := Memory(1, None, 0)], seen := map[0 := 0]);
    var s2 := s1.(sessions := map[1 := 7], opener := map[1 := 0], nextHandle := 2);
    run, events := [s0, s1, s2, s2], [FindMiss(0, 1, 0), Open(0, 7), FindHit(0, 1, 0)];
    assert Next(s0, events[0], s1) && Next(s1, events[1], s2);
    assert s2.seen[0 := 0] == s2.seen;
  }

  /** One step more. */
  lemma Extend(run: seq<State>, events: seq<Event>, e: Event, t: State)
    requires IsRun(run, events) && AllOwned(run, events, |events|)
    requires Next(run[|events|], e, t) && Owned(run[|events|], e)
    ensures IsRun(run + [t], events + [e]) && AllOwned(run + [t], events + [e], |events| + 1)
  {
    var run', events' := run + [t], events + [e];
    forall k | 0 <= k < |events'| ensures StepAt(run', events', k) && Owned(run'[k], events'[k]) {
      assert k < |events| ==> StepAt(run, events, k) && Owned(run[k], events[k]);
    }
  }

  const START := State(map[], 1, 0, None, map[], map[], map[], map[], map[])
}
