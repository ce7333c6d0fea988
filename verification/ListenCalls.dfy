/**
 Listening on a local name and closing, as the steps they make of Listeners' system. Between any two
 steps of one participant the others may have made any of theirs, or died, and a cleaner may have
 deleted a file.
 */
module ListenCalls {
  import opened Basics
  import L = LockFile
  import opened Listeners

  /** What the steps of others leave alone: while `me` has the name's lock, nobody else's socket comes to the path. */
  ghost predicate Kept(s: State, t: State, me: Pid) {
    && t.Stage(me) == s.Stage(me) && t.lock.At(me) == s.lock.At(me)
    && (forall k | k in s.binder :: k in t.binder && t.binder[k] == s.binder[k])
    && (s.lock.Holds(me) ==> t.at == s.at || t.at == None)
  }

  lemma OthersStep(s: State, e: Event, t: State, me: Pid)
    requires Inv(s) && Next(s, e, t) && Actor(e) != Some(me)
    ensures Kept(s, t, me)
  {
    if !e.Lock? && !e.CleanSocket? && !e.Die? {
      assert StageOk(s, e.p);
      if s.lock.Holds(e.p) && s.lock.Holds(me) {
        OneAtWork(s, e.p, me);
      }
    }
  }

  lemma {:induction false} OthersSteps(run: seq<State>, events: seq<Event>, j: nat, k: nat, me: Pid)
    requires IsRun(run, events) && j <= k < |run|
    requires forall n | j <= n < k :: Actor(events[n]) != Some(me)
    ensures Kept(run[j], run[k], me)
    decreases k
  {
    if j < k {
      OthersSteps(run, events, j, k - 1, me);
      RunKeepsInv(run, events, k - 1);
      assert StepAt(run, events, k - 1);
      OthersStep(run[k - 1], events[k - 1], run[k], me);
    }
  }

  class Machine {
    var s: State
    ghost var run: seq<State>
    ghost var events: seq<Event>
    ghost var setbacks: nat  // system calls refused, locks someone else had, files no longer at the path

    ghost predicate Valid()
      reads this
    {
      IsRun(run, events) && run[|events|] == s
    }

    constructor ()
      ensures Valid()
    {
      var first := State(L.State(None, map[], map[]), None, map[], map[]);
      s, run, events, setbacks := first, [first], [], 0;
    }

    twostate predicate Grew()
      reads this
    {
      Valid() && old(run) <= run && old(events) <= events && old(setbacks) <= setbacks
    }

    method Do(t: State, ghost e: Event)
      requires Valid() && Next(s, e, t)
      modifies this
      ensures Grew() && s == t && run == old(run) + [t] && events == old(events) + [e] && setbacks == old(setbacks)
    {
      ghost var n := |events|;
      assert forall k | 0 <= k < n :: StepAt(run, events, k);
      s, run, events := t, run + [t], events + [e];
      forall k | 0 <= k <= n ensures StepAt(run, events, k) {
        assert k < n ==> old(StepAt(run, events, k));
      }
    }

    /** The others' turn. A caller may count on the contract alone. */
    method Others(me: Pid)
      requires Valid()
      modifies this
      ensures Grew()
      ensures forall k | |old(events)| <= k < |events| :: Actor(events[k]) != Some(me)
    {
    }

    method Wait(me: Pid)
      requires Valid()
      modifies this
      ensures Grew() && Kept(old(s), s, me)
    {
      ghost var n := |events|;
      Others(me);
      OthersSteps(run, events, n, |events|, me);
    }

    ghost method Refused()
      requires Valid()
      modifies this`setbacks
      ensures Grew() && setbacks == old(setbacks) + 1
    {
      setbacks := setbacks + 1;
    }

    /** `me` has nothing: no lock file open, nothing begun. */
    ghost predicate Absent(me: Pid)
      reads this
    {
      s.lock.At(me).NoFile? && s.Stage(me).Off?
    }

    method CloseLock(me: Pid)
      requires Valid() && (s.Stage(me).Off? || (s.Stage(me).Gone? && s.lock.At(me).Unlinked?))
      modifies this
      ensures Grew() && Absent(me)
    {
      Wait(me);
      Do(s.To(me, Off).(lock := L.Closed(s.lock, me)), Lock(L.Close(me)));
    }

    /** open(O_CREAT) of the lock file */
    method OpenLock(me: Pid) returns (ok: bool)
      requires Valid() && Absent(me)
      modifies this
      ensures Grew() && s.Stage(me).Off?
      ensures if ok then s.lock.At(me).Opened? else Absent(me) && setbacks > old(setbacks)
    {
      Wait(me);
      ok := *;
      if !ok {
        Refused();
      } else {
        var i := Unlike(L.InodesInUse(s.lock));
        var (lock, e) := L.Opening(s.lock, me, i);
        Do(s.(lock := lock), Lock(e));
      }
    }

    /** A regular file of this user's, and flock(LOCK_EX | LOCK_NB) on it. */
    method TryLock(me: Pid) returns (ok: bool)
      requires Valid() && s.Stage(me).Off? && s.lock.At(me).Opened?
      modifies this
      ensures Grew() && s.Stage(me).Off?
      ensures if ok then s.lock.At(me).Locked? else s.lock.At(me).Opened? && setbacks > old(setbacks)
    {
      Wait(me);
      ok := *;
      ok := ok && s.lock.At(me).inode !in s.lock.owner;
      if ok {
        Do(s.(lock := L.Taken(s.lock, me)), Lock(L.Flock(me)));
      } else {
        Refused();
      }
    }

    method IsAtPath(me: Pid) returns (yes: bool)
      requires Valid() && s.Stage(me).Off? && s.lock.At(me).Locked?
      modifies this
      ensures Grew() && s.Stage(me).Off?
      ensures if yes then s.lock.Holds(me) else s.lock.At(me).Locked? && setbacks > old(setbacks)
    {
      Wait(me);
      var fails: bool := *;  // lstat
      yes := !fails && s.lock.atPath == Some(s.lock.At(me).inode);
      if yes {
        Do(s.(lock := L.Verified(s.lock, me)), Lock(L.Verify(me)));
      } else {
        Refused();
      }
    }

    /** lockName: the name's lock, in eight attempts, or nothing left open. */
    method LockName(me: Pid) returns (ok: bool)
      requires Valid() && Absent(me)
      modifies this
      ensures Grew() && s.Stage(me).Off?
      ensures if ok then s.lock.Holds(me) else Absent(me) && setbacks > old(setbacks)
    {
      ok := false;
      var attempt := 0;
      while attempt < 8
        invariant Grew() && Absent(me) && (attempt > 0 ==> setbacks > old(setbacks))
      {
        var found := OpenLock(me);
        if !found {
          return;
        }
        var taken := TryLock(me);
        if !taken {
          CloseLock(me);
          return;
        }
        var current := IsAtPath(me);
        if current {
          return true;
        }
        CloseLock(me);
        attempt := attempt + 1;
      }
    }

    /** socket(), unlink(path), bind() and listen(), by the holder of the name. */
    method Listen(me: Pid) returns (ok: bool)
      requires Valid() && s.Stage(me).Off? && s.lock.Holds(me)
      modifies this
      ensures Grew() && s.lock.Holds(me)
      ensures if ok then s.Stage(me).Live? else s.Stage(me).Off? && setbacks > old(setbacks)
    {
      Wait(me);
      ok := *;
      if !ok {
        Refused();
        return;
      }
      Do(s.To(me, Made), MakeSocket(me));
      Wait(me);
      Do(s.To(me, Swept).(at := None), Sweep(me));
      ok := BindAndListen(me);
    }

    method BindAndListen(me: Pid) returns (ok: bool)
      requires Valid() && s.Stage(me).Swept? && s.at == None && s.lock.Holds(me)
      modifies this
      ensures Grew() && s.lock.Holds(me)
      ensures if ok then s.Stage(me).Live? else s.Stage(me).Off? && setbacks > old(setbacks)
    {
      ok := BindSocket(me);
      if ok {
        Wait(me);
        ok := *;
      }
      if ok {
        Do(s.To(me, Live(s.Stage(me).sock)), Event.Listen(me));
      } else {
        Refused();
        Wait(me);
        Do(s.To(me, Off), Fail(me));
      }
    }

    /** bind(): the path is free, as it was left. */
    method BindSocket(me: Pid) returns (ok: bool)
      requires Valid() && s.Stage(me).Swept? && s.at == None && s.lock.Holds(me)
      modifies this
      ensures Grew() && s.lock.Holds(me)
      ensures if ok then s.Stage(me).Bound? && s.at == Some(s.Stage(me).sock) else s.Stage(me).Swept?
    {
      Wait(me);
      ok := *;
      if ok {
        var k := Unlike(s.binder.Keys);
        Do(s.To(me, Bound(k)).(at := Some(k), binder := s.binder[k := me]), Bind(me, k));
      }
    }

    /**
     native_createInboundPipe: the one live listener of the name, or nothing left. It fails only
     where the system refused something, someone else had the lock, or the lock file kept moving.
     */
    method CreateInboundPipe(me: Pid) returns (ok: bool)
      requires Valid() && Absent(me)
      modifies this
      ensures Grew()
      ensures if ok then s.Stage(me).Live? && s.lock.Holds(me) else Absent(me) && setbacks > old(setbacks)
      ensures ok ==> forall q: Pid | s.Stage(q).Live? :: q == me
    {
      ok := LockName(me);
      if !ok {
        return;
      }
      ok := Listen(me);
      if !ok {
        CloseLock(me);
        return;
      }
      forall q: Pid | s.Stage(q).Live? ensures q == me {
        OneListener(run, events, |events|, q, me);
      }
    }

    /**
     native_close of a listener: its socket and its lock file go while it has the lock, and it ends
     with nothing. What it unlinks is its own.
     */
    method Close(me: Pid)
      requires Valid() && s.Stage(me).Live? && s.lock.Holds(me)
      modifies this
      ensures Grew() && Absent(me)
      ensures exists k, j :: |old(events)| <= k < j < |events| && UnlinkedOwn(k, j, me)
    {
      Wait(me);
      Do(s.To(me, Down(s.Stage(me).sock)), CloseListen(me));
      Wait(me);
      ghost var k := |events|;
      Do(s.To(me, Gone).(at := None), UnlinkOwn(me));
      Wait(me);
      ghost var j := |events|;
      Do(s.(lock := L.PathUnlinked(s.lock, me)), Lock(L.Unlink(me)));
      CloseLock(me);
      assert UnlinkedOwn(k, j, me);
    }

    /** Step `k` unlinked the socket of `me`, and step `j` the lock file it held. */
    ghost predicate UnlinkedOwn(k: nat, j: nat, me: Pid)
      reads this
    {
      k < j < |events| && events[k] == UnlinkOwn(me) && events[j] == Lock(L.Unlink(me))
    }
  }
}
