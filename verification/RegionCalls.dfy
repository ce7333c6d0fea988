/**
 The calls on a SharedObject's region, as the steps they make of SharedRegion's system. Between any
 two steps of one participant the others may have made any of theirs, or died.

 Each call takes effect at one moment between its start and its end, which it answers as `at`: the
 number of the step that did it.
 */
module RegionCalls {
  import opened Basics
  import L = LockFile
  import opened SharedRegion
  import opened RegionOthers

  const DEFAULT_CAPACITY := 64 * 1024

  /** The system as it is, with the run that led there. */
  class Machine {
    var s: State
    ghost var run: seq<State>
    ghost var events: seq<Event>
    ghost var setbacks: nat  // system calls refused, locks someone else had, files no longer at the path

    ghost predicate Valid()
      reads this
    {
      IsRun(run, events) && run[|events|] == s
    }

    constructor (lockFile: bool)
      ensures Valid() && s.lockFile == lockFile
    {
      var first := State(lockFile, L.State(None, map[], map[]), map[], None, map[], map[], map[]);
      s, run, events, setbacks := first, [first], [], 0;
    }

    /** Steps have been made, and nothing that happened is forgotten. */
    twostate predicate Grew()
      reads this
    {
      Valid() && old(run) <= run && old(events) <= events && old(setbacks) <= setbacks
    }

    /** Every step `me` has made since is one of its locks'. */
    twostate predicate OnlyLocked(me: Pid)
      reads this
    {
      |old(events)| <= |events| &&
      forall k | |old(events)| <= k < |events| && Actor(events[k]) == Some(me) :: IsLockStep(events[k])
    }

    method Do(t: State, ghost e: Event)
      requires Valid() && Next(s, e, t)
      modifies this
      ensures Grew() && s == t && run == old(run) + [t] && events == old(events) + [e] && setbacks == old(setbacks)
    {
      ghost var n := |events|;
      assert forall k | 0 <= k < n :: StepAt(run, events, k);
      s, run, events := t, run + [t], events + [e];
      forall k | 0 <= k <= n ensures StepAt(run, events, k) {
        assert k < n ==> old(StepAt(run, events, k));
      }
    }

    /** The others' turn. A caller may count on the contract alone. */
    method Others(me: Pid)
      requires Valid()
      modifies this
      ensures Grew()
      ensures forall k | |old(events)| <= k < |events| :: Actor(events[k]) != Some(me)
    {
    }

    method Wait(me: Pid)
      requires Valid()
      modifies this
      ensures Grew() && Kept(old(s), s, me) && OnlyLocked(me)
    {
      ghost var n := |events|;
      Others(me);
      OthersSteps(run, events, n, |events|, me);
    }

    /** A participant inside its region with nothing begun finds it whole. */
    lemma FindsItWhole(me: Pid)
      requires Valid() && CanWork(s, me)
      ensures var Handle(r, room) := s.handles[me]; var g := s.regions[r];
        && g.pending.NoWrite? && g.magic && room == |g.payload| && g.payloadSize <= g.capacity <= room
    {
      RunKeepsInv(run, events, |events|);
      NotPending(s, me, s.handles[me].r);
    }

    /** What a region's log said at moment `at`. */
    ghost function LogAt(at: nat, r: Rid): seq<Entry>
      reads this
    {
      if at < |run| && r in run[at].regions then run[at].regions[r].log else []
    }

    /** At moment `at` the step `e` added an entry to a region's log. */
    ghost predicate TookEffect(at: nat, e: Event, r: Rid, entry: Entry)
      reads this
    {
      at < |events| && events[at] == e && LogAt(at + 1, r) == LogAt(at, r) + [entry]
    }

    /** A read answers, from moment `at`, the length and the bytes, or the length alone if they do not fit. */
    ghost predicate Answers(at: nat, me: Pid, r: Rid, bufferSize: nat, length: int, bytes: Option<seq<byte>>)
      reads this
    {
      if bytes.Some? then
        length == |bytes.value| <= bufferSize && TookEffect(at, FinishRead(me), r, Read(bytes.value))
      else
        length > bufferSize && TookEffect(at, BeginRead(me, bufferSize), r, Measured(length))
    }

    /** And that is what the calls that had taken effect by then left in the region. */
    lemma AnswersTheValue(at: nat, me: Pid, r: Rid, bufferSize: nat, length: int, bytes: Option<seq<byte>>)
      requires Valid() && Answers(at, me, r, bufferSize, length, bytes)
      ensures var value := ValueOf(LogAt(at, r));
              length == |value| && bytes == if |value| <= bufferSize then Some(value) else None
    {
      AtomicRegister(run, events, at + 1, r);
      var log := LogAt(at + 1, r);
      assert log[..|log| - 1] == LogAt(at, r);
    }

    /** `me` is inside the region of its handle `h`, and its log and capacity are these. */
    ghost predicate In(me: Pid, h: Handle, log: seq<Entry>, capacity: nat)
      reads this
    {
      && me in s.handles && s.handles[me] == h && h.r in s.regions && s.Inside(me, h.r)
      && s.regions[h.r].log == log && s.regions[h.r].capacity == capacity
    }

    /** What a call finds once inside: nobody's write half done, and the header as it should be. */
    method Look(me: Pid, ghost log: seq<Entry>, ghost capacity: nat) returns (h: Handle)
      requires Valid() && CanWork(s, me) && In(me, s.handles[me], log, capacity)
      modifies this
      ensures Grew() && OnlyLocked(me) && CanWork(s, me) && h == old(s.handles[me]) && In(me, h, log, capacity)
      ensures var g := s.regions[h.r];
        g.magic && h.room == |g.payload| && g.payloadSize <= capacity <= h.room
    {
      Wait(me);
      h := s.handles[me];
      FindsItWhole(me);
    }

    /** `me` is in the middle of a write, the first `n` bytes of it copied. */
    ghost predicate Copying(me: Pid, h: Handle, data: seq<byte>, n: nat)
      reads this
    {
      && s.Doing(me) == Writing(h.r, data) && h.r in s.regions
      && s.regions[h.r].pending.Write? && |data| <= |s.regions[h.r].payload|
      && forall k: nat | k < n :: k in s.regions[h.r].pending.copied
    }

    method BeginCopy(me: Pid, h: Handle, data: seq<byte>, ghost log: seq<Entry>, ghost capacity: nat)
      requires Valid() && In(me, h, log, capacity) && CanWork(s, me) && s.regions[h.r].magic
      requires |data| <= PayloadLimit(h.room, capacity) && |data| <= |s.regions[h.r].payload|
      modifies this
      ensures Grew() && In(me, h, log, capacity) && Copying(me, h, data, 0)
    {
      Do(s.Set(h.r, s.regions[h.r].(pending := Pending.Write(me, data, {})), me, Writing(h.r, data)),
         BeginWrite(me, data));
    }

    method CopyOne(me: Pid, h: Handle, data: seq<byte>, i: nat, ghost log: seq<Entry>, ghost capacity: nat)
      requires Valid() && i < |data| && In(me, h, log, capacity) && Copying(me, h, data, i)
      modifies this
      ensures Grew() && In(me, h, log, capacity) && Copying(me, h, data, i + 1)
    {
      Wait(me);
      var g := s.regions[h.r];
      Do(s.Set(h.r, g.(payload := g.payload[i := data[i]], pending := g.pending.(copied := g.pending.copied + {i})),
               me, Writing(h.r, data)), CopyIn(me, i));
    }

    method EndCopy(me: Pid, h: Handle, data: seq<byte>, ghost log: seq<Entry>, ghost capacity: nat)
      requires Valid() && In(me, h, log, capacity) && Copying(me, h, data, |data|)
      modifies this
      ensures Grew() && In(me, h, log + [Wrote(data)], capacity) && CanWork(s, me)
      ensures |events| > |old(events)| && TookEffect(|events| - 1, FinishWrite(me), h.r, Wrote(data))
    {
      Wait(me);
      var g := s.regions[h.r];
      Do(s.Set(h.r, g.(payloadSize := |data|, pending := NoWrite, log := g.log + [Wrote(data)]), me, Nothing),
         FinishWrite(me));
    }

    /** The memcpy, a byte at a time. */
    method CopyBytes(me: Pid, h: Handle, data: seq<byte>, ghost log: seq<Entry>, ghost capacity: nat)
      requires Valid() && In(me, h, log, capacity) && Copying(me, h, data, 0)
      modifies this
      ensures Grew() && In(me, h, log, capacity) && Copying(me, h, data, |data|)
    {
      for i := 0 to |data|
        invariant Grew() && In(me, h, log, capacity) && Copying(me, h, data, i)
      {
        CopyOne(me, h, data, i, log, capacity);
      }
    }

    method Copy(me: Pid, h: Handle, data: seq<byte>, ghost log: seq<Entry>, ghost capacity: nat)
      requires Valid() && In(me, h, log, capacity) && CanWork(s, me) && s.regions[h.r].magic
      requires |data| <= PayloadLimit(h.room, capacity) && |data| <= |s.regions[h.r].payload|
      modifies this
      ensures Grew() && In(me, h, log + [Wrote(data)], capacity) && CanWork(s, me)
      ensures |events| > |old(events)| && TookEffect(|events| - 1, FinishWrite(me), h.r, Wrote(data))
    {
      BeginCopy(me, h, data, log, capacity);
      CopyBytes(me, h, data, log, capacity);
      EndCopy(me, h, data, log, capacity);
    }

    /** The middle of native_sharedObjectWrite, inside the lock. */
    method WriteInside(me: Pid, data: seq<byte>, ghost log: seq<Entry>, ghost capacity: nat) returns (ok: bool)
      requires Valid() && CanWork(s, me) && In(me, s.handles[me], log, capacity)
      modifies this
      ensures Grew() && CanWork(s, me)
      ensures ok <==> |data| <= PayloadLimit(old(s.handles[me]).room, capacity)
      ensures ok ==> In(me, old(s.handles[me]), log + [Wrote(data)], capacity)
      ensures ok ==> |events| > |old(events)| &&
                     TookEffect(|events| - 1, FinishWrite(me), old(s.handles[me]).r, Wrote(data))
      ensures !ok ==> In(me, old(s.handles[me]), log, capacity) && OnlyLocked(me)
    {
      var h := Look(me, log, capacity);
      var g := s.regions[h.r];
      if !g.magic || |data| > PayloadLimit(h.room, g.capacity) {
        return false;
      }
      Copy(me, h, data, log, capacity);
      ok := true;
    }

    /** `me` is in the middle of a read of `n` bytes, the first of them in `buffer`. */
    ghost predicate Gathering(me: Pid, h: Handle, n: nat, buffer: seq<byte>)
      reads this
    {
      && s.Doing(me).Reading? && s.Doing(me).r == h.r && s.Doing(me).n == n && h.r in s.regions && |buffer| <= n
      && n <= |s.regions[h.r].payload|
      && forall k: nat | k < |buffer| :: k in s.Doing(me).got && s.Doing(me).got[k] == buffer[k]
    }

    method BeginGather(me: Pid, h: Handle, bufferSize: nat, ghost log: seq<Entry>, ghost capacity: nat)
      requires Valid() && In(me, h, log, capacity) && CanWork(s, me) && s.regions[h.r].magic
      requires s.regions[h.r].payloadSize <= PayloadLimit(h.room, capacity)
      requires s.regions[h.r].payloadSize <= |s.regions[h.r].payload| && s.regions[h.r].payloadSize <= bufferSize
      modifies this
      ensures Grew() && In(me, h, log, capacity) && Gathering(me, h, old(s.regions[h.r].payloadSize), [])
    {
      Do(s.To(me, Reading(h.r, s.regions[h.r].payloadSize, map[])), BeginRead(me, bufferSize));
    }

    method GatherOne(me: Pid, h: Handle, n: nat, buffer: seq<byte>, ghost log: seq<Entry>, ghost capacity: nat)
      returns (longer: seq<byte>)
      requires Valid() && |buffer| < n && In(me, h, log, capacity) && Gathering(me, h, n, buffer)
      modifies this
      ensures Grew() && In(me, h, log, capacity) && Gathering(me, h, n, longer) && |longer| == |buffer| + 1
    {
      Wait(me);
      var b := s.regions[h.r].payload[|buffer|];
      longer := buffer + [b];
      Do(s.To(me, Reading(h.r, n, s.Doing(me).got[|buffer| := b])), CopyOut(me, |buffer|));
    }

    method EndGather(me: Pid, h: Handle, n: nat, buffer: seq<byte>, ghost log: seq<Entry>, ghost capacity: nat)
      requires Valid() && In(me, h, log, capacity) && Gathering(me, h, n, buffer) && |buffer| == n
      modifies this
      ensures Grew() && CanWork(s, me) && s.handles[me] == h
      ensures |events| > |old(events)| && TookEffect(|events| - 1, FinishRead(me), h.r, Read(buffer))
    {
      Wait(me);
      assert Bytes(n, s.Doing(me).got) == buffer;
      var g := s.regions[h.r];
      Do(s.Set(h.r, g.(log := g.log + [Read(buffer)]), me, Nothing), FinishRead(me));
    }

    method GatherBytes(me: Pid, h: Handle, n: nat, ghost log: seq<Entry>, ghost capacity: nat)
      returns (buffer: seq<byte>)
      requires Valid() && In(me, h, log, capacity) && Gathering(me, h, n, [])
      modifies this
      ensures Grew() && In(me, h, log, capacity) && Gathering(me, h, n, buffer) && |buffer| == n
    {
      buffer := [];
      while |buffer| < n
        invariant Grew() && In(me, h, log, capacity) && Gathering(me, h, n, buffer)
      {
        buffer := GatherOne(me, h, n, buffer, log, capacity);
      }
    }

    method Gather(me: Pid, h: Handle, bufferSize: nat, ghost log: seq<Entry>, ghost capacity: nat)
      returns (buffer: seq<byte>)
      requires Valid() && In(me, h, log, capacity) && CanWork(s, me) && s.regions[h.r].magic
      requires s.regions[h.r].payloadSize <= PayloadLimit(h.room, capacity)
      requires s.regions[h.r].payloadSize <= |s.regions[h.r].payload| && s.regions[h.r].payloadSize <= bufferSize
      modifies this
      ensures Grew() && CanWork(s, me) && s.handles[me] == h && |buffer| == old(s.regions[h.r].payloadSize)
      ensures |events| > |old(events)| && TookEffect(|events| - 1, FinishRead(me), h.r, Read(buffer))
    {
      var n := s.regions[h.r].payloadSize;
      BeginGather(me, h, bufferSize, log, capacity);
      buffer := GatherBytes(me, h, n, log, capacity);
      EndGather(me, h, n, buffer, log, capacity);
    }

    /** The middle of native_sharedObjectReadPayload, inside the lock. */
    method ReadInside(me: Pid, bufferSize: nat, ghost log: seq<Entry>, ghost capacity: nat)
      returns (length: int, bytes: Option<seq<byte>>)
      requires Valid() && CanWork(s, me) && In(me, s.handles[me], log, capacity)
      modifies this
      ensures Grew() && CanWork(s, me) && s.handles[me] == old(s.handles[me])
      ensures |events| > |old(events)| && Answers(|events| - 1, me, s.handles[me].r, bufferSize, length, bytes)
    {
      var h := Look(me, log, capacity);
      var g := s.regions[h.r];
      length := g.payloadSize;
      if !g.magic || length > PayloadLimit(h.room, g.capacity) {
        assert false;
      }
      if length > bufferSize {
        Do(s.Set(h.r, g.(log := g.log + [Measured(length)]), me, Nothing), BeginRead(me, bufferSize));
        bytes := None;
      } else {
        var buffer := Gather(me, h, bufferSize, log, capacity);
        bytes := Some(buffer);
      }
    }

    method ClearInside(me: Pid, ghost log: seq<Entry>, ghost capacity: nat)
      requires Valid() && CanWork(s, me) && In(me, s.handles[me], log, capacity)
      modifies this
      ensures Grew() && CanWork(s, me) && In(me, old(s.handles[me]), log + [Cleared], capacity)
      ensures |events| > |old(events)| && TookEffect(|events| - 1, Clear(me), old(s.handles[me]).r, Cleared)
    {
      var h := Look(me, log, capacity);
      var g := s.regions[h.r];
      if g.magic {
        Do(s.Set(h.r, g.(payloadSize := 0, log := g.log + [Cleared]), me, Nothing), Clear(me));
      }
    }

    // ---------- the locks ----------

    /** What a lock's steps leave of `me`'s own. */
    twostate predicate SameOwn(me: Pid)
      reads this
    {
      && s.lockFile == old(s.lockFile) && s.Doing(me) == old(s.Doing(me))
      && (me in s.handles <==> me in old(s.handles)) && (me in s.handles ==> s.handles[me] == old(s.handles[me]))
      && forall r | r in old(s.regions) :: r in s.regions
    }

    /** Something the system refuses, or that someone else has. */
    ghost method Refused()
      requires Valid()
      modifies this`setbacks
      ensures Grew() && setbacks == old(setbacks) + 1
    {
      setbacks := setbacks + 1;
    }

    /** flock(LOCK_EX | LOCK_NB) on the region's own descriptor: taken, or why not. */
    method TryRegion(me: Pid, r: Rid) returns (ok: bool, busy: bool)
      requires Valid() && !s.lockFile && !s.InsideAny(me)
      requires HasHandle(s, me, r) || (s.Doing(me).Found? && s.Doing(me).r == r)
      modifies this
      ensures Grew() && OnlyLocked(me) && SameOwn(me)
      ensures if ok then s.Inside(me, r) else !s.InsideAny(me) && setbacks > old(setbacks)
    {
      ghost var was := s;
      Wait(me);
      StaysOut(was, s, me);
      busy := r in s.regionLock;
      var fails: bool := *;
      ok := !busy && !fails;
      if ok {
        Do(s.(regionLock := s.regionLock[r := me]), LockRegion(me, r));
      } else {
        Refused();
      }
    }

    /** lockDescriptor: asks once, then at most `polls` times more while someone has it. */
    method LockRegionOf(me: Pid, r: Rid, polls: nat) returns (ok: bool)
      requires Valid() && !s.lockFile && !s.InsideAny(me)
      requires HasHandle(s, me, r) || (s.Doing(me).Found? && s.Doing(me).r == r)
      modifies this
      ensures Grew() && OnlyLocked(me) && SameOwn(me)
      ensures if ok then s.Inside(me, r) else !s.InsideAny(me) && setbacks > old(setbacks)
    {
      var busy;
      ok, busy := TryRegion(me, r);
      var left := polls;
      while !ok && busy && left > 0
        invariant Grew() && OnlyLocked(me) && SameOwn(me)
        invariant if ok then s.Inside(me, r) else !s.InsideAny(me) && setbacks > old(setbacks)
      {
        ok, busy := TryRegion(me, r);
        left := left - 1;
      }
    }

    method UnlockRegionOf(me: Pid, r: Rid)
      requires Valid() && !s.lockFile && s.Doing(me).Nothing? && s.Inside(me, r) && r in s.regions
      modifies this
      ensures Grew() && OnlyLocked(me) && SameOwn(me) && !s.InsideAny(me) && s.regions[r] == old(s.regions[r])
    {
      Wait(me);
      forall q | q in s.regionLock && s.regionLock[q] == me ensures q == r {
        OneLock(run, events, |events|, me, q, r);
      }
      Do(s.(regionLock := s.regionLock - {r}), UnlockRegion(me, r));
    }

    /** openLockFile: open(O_CREAT), and the check that what opened is this user's own file. */
    method OpenLockFile(me: Pid) returns (ok: bool)
      requires Valid() && s.lockFile && s.Doing(me).Nothing? && s.lock.At(me).NoFile?
      modifies this
      ensures Grew() && OnlyLocked(me) && SameOwn(me)
      ensures if ok then s.lock.At(me).Opened? else s.lock.At(me).NoFile? && setbacks > old(setbacks)
    {
      Wait(me);
      ok := *;
      if !ok {
        Refused();
        return;
      }
      var i := Unlike(L.InodesInUse(s.lock));
      var (lock, e) := L.Opening(s.lock, me, i);
      Do(s.(lock := lock), Lock(e));
      ok := *;
      if !ok {
        Refused();
        CloseLockFile(me);
      }
    }

    method TryLockFile(me: Pid) returns (ok: bool, busy: bool)
      requires Valid() && s.lockFile && s.lock.At(me).Opened?
      modifies this
      ensures Grew() && OnlyLocked(me) && SameOwn(me)
      ensures if ok then s.lock.At(me).Locked? else s.lock.At(me).Opened? && setbacks > old(setbacks)
    {
      Wait(me);
      busy := s.lock.At(me).inode in s.lock.owner;
      var fails: bool := *;
      ok := !busy && !fails;
      if ok {
        Do(s.(lock := L.Taken(s.lock, me)), Lock(L.Flock(me)));
      } else {
        Refused();
      }
    }

    /** lockDescriptor, of the lock file's. */
    method LockOpened(me: Pid, polls: nat) returns (ok: bool)
      requires Valid() && s.lockFile && s.lock.At(me).Opened?
      modifies this
      ensures Grew() && OnlyLocked(me) && SameOwn(me)
      ensures if ok then s.lock.At(me).Locked? else s.lock.At(me).Opened? && setbacks > old(setbacks)
    {
      var busy;
      ok, busy := TryLockFile(me);
      var left := polls;
      while !ok && busy && left > 0
        invariant Grew() && OnlyLocked(me) && SameOwn(me)
        invariant if ok then s.lock.At(me).Locked? else s.lock.At(me).Opened? && setbacks > old(setbacks)
      {
        ok, busy := TryLockFile(me);
        left := left - 1;
      }
    }

    /** isAtPath: whether the file locked is the one at the path now. */
    method IsAtPath(me: Pid) returns (yes: bool)
      requires Valid() && s.lockFile && s.lock.At(me).Locked?
      modifies this
      ensures Grew() && OnlyLocked(me) && SameOwn(me)
      ensures if yes then s.lock.Holds(me) else s.lock.At(me).Locked? && setbacks > old(setbacks)
    {
      Wait(me);
      var fails: bool := *;  // fstat or lstat
      yes := !fails && s.lock.atPath == Some(s.lock.At(me).inode);
      if yes {
        Do(s.(lock := L.Verified(s.lock, me)), Lock(L.Verify(me)));
      } else {
        Refused();
      }
    }

    method UnlockFile(me: Pid)
      requires Valid() && s.lockFile && s.Doing(me).Nothing? && s.lock.At(me).HasLock()
      modifies this
      ensures Grew() && OnlyLocked(me) && SameOwn(me) && s.lock.At(me).Opened?
      ensures old(s.lock.Holds(me)) ==> forall r | r in old(s.regions) :: s.regions[r] == old(s.regions[r])
    {
      Wait(me);
      Do(s.(lock := L.LetGo(s.lock, me)), Lock(L.Unlock(me)));
    }

    method CloseLockFile(me: Pid)
      requires Valid() && s.lockFile && s.Doing(me).Nothing? && s.lock.At(me).Opened?
      modifies this
      ensures Grew() && OnlyLocked(me) && SameOwn(me) && s.lock.At(me).NoFile?
    {
      Wait(me);
      Do(s.(lock := L.Closed(s.lock, me)), Lock(L.Close(me)));
    }

    /** takeLockFile: the lock file locked, and found to be the one at the path, in eight attempts. */
    method TakeLockFile(me: Pid, polls: nat) returns (ok: bool)
      requires Valid() && s.lockFile && s.Doing(me).Nothing? && s.lock.At(me).NoFile?
      modifies this
      ensures Grew() && OnlyLocked(me) && SameOwn(me)
      ensures if ok then s.lock.Holds(me) else s.lock.At(me).NoFile? && setbacks > old(setbacks)
    {
      ok := false;
      var attempt := 0;
      var done := false;
      while attempt < 8 && !done
        invariant Grew() && OnlyLocked(me) && SameOwn(me)
        invariant if ok then s.lock.Holds(me) else s.lock.At(me).NoFile?
        invariant !ok && (attempt > 0 || done) ==> setbacks > old(setbacks)
        invariant ok ==> done
      {
        ok, done := Attempt(me, polls);
        attempt := attempt + 1;
      }
    }

    /** One attempt of the eight: whether it succeeded, and whether that is the end of them. */
    method Attempt(me: Pid, polls: nat) returns (ok: bool, done: bool)
      requires Valid() && s.lockFile && s.Doing(me).Nothing? && s.lock.At(me).NoFile?
      modifies this
      ensures Grew() && OnlyLocked(me) && SameOwn(me) && (ok ==> done)
      ensures if ok then s.lock.Holds(me) else s.lock.At(me).NoFile? && setbacks > old(setbacks)
    {
      ok := OpenLockFile(me);
      if !ok {
        return false, true;
      }
      ok := LockOpened(me, polls);
      if !ok {
        CloseLockFile(me);
        return false, true;
      }
      ok := IsAtPath(me);
      if !ok {
        UnlockFile(me);
        CloseLockFile(me);
      }
      done := ok;
    }

    /** lockFileOfState: through the descriptor kept, unless its file has gone from the path. */
    method LockFileOfState(me: Pid, polls: nat) returns (ok: bool)
      requires Valid() && s.lockFile && s.Doing(me).Nothing? && !s.InsideAny(me)
      modifies this
      ensures Grew() && OnlyLocked(me) && SameOwn(me)
      ensures if ok then s.lock.Holds(me) else !s.InsideAny(me) && setbacks > old(setbacks)
    {
      if s.lock.At(me).Opened? {
        ok := LockOpened(me, polls);
        if !ok {
          return;
        }
        ok := IsAtPath(me);
        if ok {
          return;
        }
        UnlockFile(me);
        CloseLockFile(me);
      }
      ok := TakeLockFile(me, polls);
    }

    // ---------- the calls ----------

    /** `me` has a handle, is doing nothing and has no lock. */
    ghost predicate Idle(me: Pid)
      reads this
    {
      me in s.handles && s.handles[me].r in s.regions && s.Doing(me).Nothing? && !s.InsideAny(me)
    }

    method LockForHandle(me: Pid, polls: nat) returns (ok: bool)
      requires Valid() && Idle(me)
      modifies this
      ensures Grew() && OnlyLocked(me) && me in s.handles && s.handles[me] == old(s.handles[me])
      ensures if ok then CanWork(s, me) else Idle(me) && setbacks > old(setbacks)
    {
      if s.lockFile {
        ok := LockFileOfState(me, polls);
      } else {
        ok := LockRegionOf(me, s.handles[me].r, polls);
      }
    }

    method UnlockForHandle(me: Pid)
      requires Valid() && CanWork(s, me)
      modifies this
      ensures Grew() && OnlyLocked(me) && Idle(me) && s.handles[me] == old(s.handles[me])
      ensures s.regions[s.handles[me].r] == old(s.regions[s.handles[me].r])
    {
      if s.lockFile {
        UnlockFile(me);
      } else {
        UnlockRegionOf(me, s.handles[me].r);
      }
    }

    /**
     native_sharedObjectWrite: refused just when the lock is not had or the payload would not fit,
     and then the region is not touched; otherwise the write takes effect at moment `at`.
     */
    method Write(me: Pid, data: seq<byte>, polls: nat) returns (ok: bool, ghost locked: bool, ghost at: nat)
      requires Valid() && Idle(me)
      modifies this
      ensures Grew() && Idle(me) && s.handles[me] == old(s.handles[me])
      ensures ok <==> locked && |data| <= PayloadLimit(s.handles[me].room, s.regions[s.handles[me].r].capacity)
      ensures ok ==> |old(events)| <= at && TookEffect(at, FinishWrite(me), s.handles[me].r, Wrote(data))
      ensures !ok ==> OnlyLocked(me) && (locked || setbacks > old(setbacks))
    {
      at := 0;
      var had := LockForHandle(me, polls);
      locked := had;
      if !had {
        return false, false, 0;
      }
      ghost var g := s.regions[s.handles[me].r];
      ok := WriteInside(me, data, g.log, g.capacity);
      at := |events| - 1;
      UnlockForHandle(me);
    }

    /**
     native_sharedObjectReadPayload: answers, at moment `at`, what the calls that had taken effect
     by then left in the region; -1 just when the lock is not had.
     */
    method ReadPayload(me: Pid, bufferSize: nat, polls: nat)
      returns (length: int, bytes: Option<seq<byte>>, ghost locked: bool, ghost at: nat)
      requires Valid() && Idle(me)
      modifies this
      ensures Grew() && Idle(me) && s.handles[me] == old(s.handles[me])
      ensures if locked then length >= 0 else length == -1 && bytes == None
      ensures !locked ==> OnlyLocked(me) && setbacks > old(setbacks)
      ensures locked ==> |old(events)| <= at && Answers(at, me, s.handles[me].r, bufferSize, length, bytes)
    {
      at := 0;
      var had := LockForHandle(me, polls);
      locked := had;
      if !had {
        return -1, None, false, 0;
      }
      ghost var g := s.regions[s.handles[me].r];
      length, bytes := ReadInside(me, bufferSize, g.log, g.capacity);
      at := |events| - 1;
      UnlockForHandle(me);
    }

    /** native_sharedObjectClear: whether the lock was had, and the region then emptied at moment `at`. */
    method ClearPayload(me: Pid, polls: nat) returns (ok: bool, ghost at: nat)
      requires Valid() && Idle(me)
      modifies this
      ensures Grew() && Idle(me) && s.handles[me] == old(s.handles[me])
      ensures ok ==> |old(events)| <= at && TookEffect(at, Clear(me), s.handles[me].r, Cleared)
      ensures !ok ==> OnlyLocked(me) && setbacks > old(setbacks)
    {
      at := 0;
      ok := LockForHandle(me, polls);
      if ok {
        ghost var g := s.regions[s.handles[me].r];
        ClearInside(me, g.log, g.capacity);
        at := |events| - 1;
        UnlockForHandle(me);
      }
    }

    // ---------- opening, closing and removing ----------

    /** `me` has found region `r` and is inside it, at any point of setting it up. */
    ghost predicate OpeningIn(me: Pid, r: Rid)
      reads this
    {
      && r in s.regions && s.Inside(me, r) && me !in s.handles
      && !s.Doing(me).Nothing? && !s.Doing(me).Writing? && !s.Doing(me).Reading? && s.Doing(me).r == r
    }

    /** Every step `me` has made since is one of its locks' or of an open. */
    twostate predicate OnlyOpened(me: Pid)
      reads this
    {
      |old(events)| <= |events| &&
      forall k | |old(events)| <= k < |events| && Actor(events[k]) == Some(me) ::
        IsLockStep(events[k]) || IsOpenStep(events[k])
    }

    method FindRegion(me: Pid, maxSize: nat) returns (r: Rid)
      requires Valid() && maxSize >= 1 && me !in s.handles && s.Doing(me).Nothing? && (s.lockFile ==> s.lock.Holds(me))
      requires !s.lockFile ==> !s.InsideAny(me)
      modifies this
      ensures Grew() && OnlyOpened(me) && s.Doing(me) == Found(r, maxSize) && me !in s.handles && r in s.regions
      ensures s.lockFile == old(s.lockFile) && s.lock.At(me) == old(s.lock.At(me)) && (!s.lockFile ==> !s.InsideAny(me))
      ensures |events| > |old(events)| && NamedAt(|events| - 1, me, r)
    {
      ghost var was := s;
      Wait(me);
      StaysOut(was, s, me);
      if s.name.Some? {
        r := s.name.value;
        RunKeepsInv(run, events, |events|);
        Do(s.To(me, Found(r, maxSize)), ShmOpen(me, maxSize, r));
      } else {
        r := Unlike(s.regions.Keys);
        Do(s.Set(r, FreshRegion, me, Found(r, maxSize)).(name := Some(r)), ShmOpen(me, maxSize, r));
      }
    }

    /** ftruncate, when the region has no size yet. */
    method SizeRegion(me: Pid, r: Rid, maxSize: nat)
      requires Valid() && OpeningIn(me, r) && s.Doing(me) == Found(r, maxSize) && maxSize >= 1
      modifies this
      ensures Grew() && OnlyOpened(me) && OpeningIn(me, r) && s.Doing(me) == Sized(r, maxSize)
      ensures s.lockFile == old(s.lockFile)
    {
      Wait(me);
      var g := s.regions[r];
      var size := HEADER_SIZE + maxSize;
      if g.size > HEADER_SIZE {
        Do(s.To(me, Sized(r, maxSize)), Truncate(me, size));
      } else {
        Do(s.Set(r, g.(size := size, payload := Zeros(size - HEADER_SIZE)), me, Sized(r, maxSize)), Truncate(me, size));
      }
    }

    /** The handle, once a header that is nobody's yet has been set up. */
    method SetUp(me: Pid, r: Rid, maxSize: nat)
      requires Valid() && OpeningIn(me, r) && s.Doing(me) == Sized(r, maxSize)
      modifies this
      ensures Grew() && OnlyOpened(me) && HasHandle(s, me, r) && CanWork(s, me) && s.lockFile == old(s.lockFile)
    {
      Wait(me);
      if s.regions[r].Ready() {
        Do(GiveHandle(s, me, r), CheckHeader(me));
      } else {
        Do(s.To(me, Initialising(r, maxSize, {Magic, PayloadSize, Capacity})), CheckHeader(me));
        InitialiseHeader(me, r, maxSize);
      }
    }

    method InitialiseHeader(me: Pid, r: Rid, maxSize: nat)
      requires Valid() && OpeningIn(me, r) && s.Doing(me) == Initialising(r, maxSize, {Magic, PayloadSize, Capacity})
      modifies this
      ensures Grew() && OnlyOpened(me) && HasHandle(s, me, r) && CanWork(s, me) && s.lockFile == old(s.lockFile)
    {
      StoreOne(me, r, maxSize, {Magic, PayloadSize, Capacity}, Magic, {PayloadSize, Capacity});
      StoreOne(me, r, maxSize, {PayloadSize, Capacity}, PayloadSize, {Capacity});
      LastFieldStored(me, r, maxSize);
    }

    method LastFieldStored(me: Pid, r: Rid, maxSize: nat)
      requires Valid() && OpeningIn(me, r) && s.Doing(me) == Initialising(r, maxSize, {Capacity})
      modifies this
      ensures Grew() && OnlyOpened(me) && HasHandle(s, me, r) && CanWork(s, me) && s.lockFile == old(s.lockFile)
    {
      StoreOne(me, r, maxSize, {Capacity}, Capacity, {});
      Wait(me);
      Do(GiveHandle(s, me, r), FinishOpen(me));
    }

    method StoreOne(me: Pid, r: Rid, maxSize: nat, left: set<Field>, f: Field, fewer: set<Field>)
      requires Valid() && OpeningIn(me, r) && s.Doing(me) == Initialising(r, maxSize, left) && f in left
      requires fewer == left - {f}
      modifies this
      ensures Grew() && OnlyOpened(me) && OpeningIn(me, r) && s.Doing(me) == Initialising(r, maxSize, fewer)
      ensures s.lockFile == old(s.lockFile)
    {
      Wait(me);
      Do(s.Set(r, Stored(s.regions[r], f, maxSize), me, Initialising(r, maxSize, fewer)), StoreField(me, f));
    }

    /** `me` has nothing: no handle, no work, no lock, nor the lock file open. */
    ghost predicate Absent(me: Pid)
      reads this
    {
      me !in s.handles && s.Doing(me).Nothing? && !s.InsideAny(me) && (s.lockFile ==> s.lock.At(me).NoFile?)
    }

    /** abandonOpen */
    method AbandonOpen(me: Pid, r: Rid)
      requires Valid() && OpeningIn(me, r) && (s.Doing(me).Found? || s.Doing(me).Sized?)
      modifies this
      ensures Grew() && OnlyOpened(me) && Absent(me)
    {
      Wait(me);
      Do(s.To(me, Nothing), Abandon(me));
      LeaveRegion(me, r);
    }

    /** The lock let go, and the lock file closed where there is one. */
    method LeaveRegion(me: Pid, r: Rid)
      requires Valid() && me !in s.handles && s.Doing(me).Nothing? && r in s.regions && s.Inside(me, r)
      modifies this
      ensures Grew() && OnlyLocked(me) && Absent(me)
    {
      if s.lockFile {
        UnlockFile(me);
        CloseLockFile(me);
      } else {
        UnlockRegionOf(me, r);
      }
    }

    /** The part of an open inside the region's lock. */
    method OpenInside(me: Pid, r: Rid, maxSize: nat) returns (ok: bool)
      requires Valid() && OpeningIn(me, r) && s.Doing(me) == Found(r, maxSize) && maxSize >= 1
      modifies this
      ensures Grew() && OnlyOpened(me)
      ensures if ok then Idle(me) && s.handles[me].r == r else Absent(me) && setbacks > old(setbacks)
    {
      ok := *;
      if ok {
        SizeRegion(me, r, maxSize);
        ok := *;
      }
      if !ok {
        Refused();
        AbandonOpen(me, r);
        return;
      }
      SetUp(me, r, maxSize);
      UnlockForHandle(me);
    }

    /** The lock file's lock had, and the name's region found under it; or nothing. */
    method LockThenFind(me: Pid, maxSize: nat, polls: nat) returns (ok: bool, r: Rid, ghost at: nat)
      requires Valid() && Absent(me) && maxSize >= 1 && s.lockFile
      modifies this
      ensures Grew() && OnlyOpened(me)
      ensures if ok then OpeningIn(me, r) && s.Doing(me) == Found(r, maxSize) else Absent(me)
      ensures !ok ==> setbacks > old(setbacks)
      ensures ok ==> |old(events)| <= at && NamedAt(at, me, r)
    {
      r, at := 0, 0;
      ok := TakeLockFile(me, polls);
      if !ok {
        return;
      }
      ok := *;  // shm_open gives a region of this user's
      if ok {
        r := FindRegion(me, maxSize);
        at := |events| - 1;
      } else {
        Refused();
        UnlockFile(me);
        CloseLockFile(me);
      }
    }

    /** The name's region found, and its own lock had; or nothing. */
    method FindThenLock(me: Pid, maxSize: nat, polls: nat) returns (ok: bool, r: Rid, ghost at: nat)
      requires Valid() && Absent(me) && maxSize >= 1 && !s.lockFile
      modifies this
      ensures Grew() && OnlyOpened(me)
      ensures if ok then OpeningIn(me, r) && s.Doing(me) == Found(r, maxSize) else Absent(me)
      ensures !ok ==> setbacks > old(setbacks)
      ensures ok ==> |old(events)| <= at && NamedAt(at, me, r)
    {
      r, at := 0, 0;
      ok := *;  // shm_open gives a region of this user's
      if !ok {
        Refused();
        return;
      }
      r := FindRegion(me, maxSize);
      at := |events| - 1;
      ok := LockRegionOf(me, r, polls);
      if !ok {
        Forget(me);
      }
    }

    /** At moment `at`, `me` had just opened the name, and it was region `r`'s. */
    ghost predicate NamedAt(at: nat, me: Pid, r: Rid)
      reads this
    {
      at < |events| && at + 1 < |run| && events[at].ShmOpen? && events[at].p == me && run[at + 1].name == Some(r)
    }

    /** close() of a region found and never locked. */
    method Forget(me: Pid)
      requires Valid() && !s.lockFile && s.Doing(me).Found? && me !in s.handles && !s.InsideAny(me)
      modifies this
      ensures Grew() && OnlyOpened(me) && Absent(me)
    {
      ghost var was := s;
      Wait(me);
      StaysOut(was, s, me);
      Do(s.To(me, Nothing), Abandon(me));
    }

    /**
     native_sharedObjectOpen: a handle on the region the name had at moment `at`, set up, or
     nothing held. Whatever it does on the way is a step of an open, which alters no region in use.
     */
    method Open(me: Pid, maxSize: int, polls: nat) returns (ok: bool, ghost at: nat)
      requires Valid() && Absent(me)
      modifies this
      ensures Grew() && OnlyOpened(me)
      ensures if ok then Idle(me) else Absent(me) && setbacks > old(setbacks)
      ensures ok ==> |old(events)| <= at && NamedAt(at, me, s.handles[me].r)
    {
      var wanted := if maxSize < 1 then DEFAULT_CAPACITY else maxSize;
      var r;
      if s.lockFile {
        ok, r, at := LockThenFind(me, wanted, polls);
      } else {
        ok, r, at := FindThenLock(me, wanted, polls);
      }
      if ok {
        ok := OpenInside(me, r, wanted);
      }
    }

    /** native_sharedObjectClose */
    method CloseObject(me: Pid)
      requires Valid() && Idle(me)
      modifies this
      ensures Grew() && OnlyLocked(me) && Absent(me)
    {
      ghost var was := s;
      Wait(me);
      StaysOut(was, s, me);
      Do(s.(handles := s.handles - {me}, lock := L.Closed(s.lock, me)), CloseHandle(me));
    }

    /** At moment `at`, `me` took the name away from whatever region had it. */
    ghost predicate RemovedAt(at: nat, me: Pid, removed: int)
      reads this
    {
      && at < |events| && at + 1 < |run| && events[at] == RemoveName(me)
      && run[at + 1].name == None && run[at + 1].regions == run[at].regions
      && removed == if run[at].name.Some? then 1 else 0
    }

    /**
     native_sharedObjectRemove: 1 when the name was a region's, 0 when it was none's, and every
     region and handle goes on; -1 when the lock is not had or the system refuses.
     */
    method RemoveObject(me: Pid, polls: nat) returns (removed: int, ghost at: nat)
      requires Valid() && Absent(me)
      modifies this
      ensures Grew() && OnlyLocked(me) && Absent(me)
      ensures if removed == -1 then setbacks > old(setbacks) else |old(events)| <= at && RemovedAt(at, me, removed)
    {
      at := 0;
      var byFile := s.lockFile;
      if byFile {
        var had := TakeLockFile(me, polls);
        if !had {
          return -1, 0;
        }
      }
      removed := TakeNameAway(me);
      at := if removed == -1 then 0 else |events| - 1;
      if byFile {
        UnlinkTheFile(me);
      }
    }

    /** shm_unlink */
    method TakeNameAway(me: Pid) returns (removed: int)
      requires Valid() && s.Doing(me).Nothing? && me !in s.handles
      requires if s.lockFile then s.lock.Holds(me) else !s.InsideAny(me)
      modifies this
      ensures Grew() && OnlyLocked(me) && s.Doing(me).Nothing? && me !in s.handles && s.lockFile == old(s.lockFile)
      ensures if s.lockFile then s.lock.Holds(me) else !s.InsideAny(me)
      ensures removed == -1 ==> setbacks > old(setbacks)
      ensures removed != -1 ==> |events| > |old(events)| && RemovedAt(|events| - 1, me, removed)
    {
      ghost var was := s;
      Wait(me);
      StaysOut(was, s, me);
      if * {
        Refused();
        return -1;
      }
      removed := if s.name.Some? then 1 else 0;
      Do(s.(name := None), RemoveName(me));
    }

    method UnlinkTheFile(me: Pid)
      requires Valid() && s.lockFile && s.Doing(me).Nothing? && me !in s.handles && s.lock.Holds(me)
      modifies this
      ensures Grew() && OnlyLocked(me) && Absent(me)
    {
      Wait(me);
      Do(s.(lock := L.PathUnlinked(s.lock, me)), Lock(L.Unlink(me)));
      UnlockFile(me);
      CloseLockFile(me);
    }
  }
}
