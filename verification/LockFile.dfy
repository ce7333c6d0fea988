/**
 The lock-file protocol of SharedObject (macOS) and LocalConnection (POSIX).

 A participant opens the file at a path, making it if there is none, locks it with flock(), and
 only then asks whether the file it locked is still the one at the path. Whoever finds that it is
 may work, and may unlink the path before letting go. Meanwhile other participants do the same,
 crash at any point, and a cleaner of old files deletes a lock file nobody holds.

 Steps are single system calls, so a run is any interleaving of them. The calls that make them, with
 their retry loops, are in RegionCalls and ListenCalls.
 */
module LockFile {
  import opened Basics

  type Inode = nat
  type Pid = nat

  /** What one participant's lock descriptor is: its calls move it along this list. */
  datatype Desc =
    | NoFile
    | Opened(inode: Inode)    // open, not locked
    | Locked(inode: Inode)    // locked, not yet compared with the path
    | Holding(inode: Inode)   // locked, and found to be the file at the path
    | Unlinked(inode: Inode)  // locked, and the path unlinked since
  {
    predicate HasLock() { Locked? || Holding? || Unlinked? }
    predicate IsOn(i: Inode) { !NoFile? && inode == i }
  }

  /** The file at the path, the kernel's table of locks, and every participant's descriptor. */
  datatype State = State(atPath: Option<Inode>, owner: map<Inode, Pid>, desc: map<Pid, Desc>) {
    function At(p: Pid): Desc { if p in desc then desc[p] else NoFile }

    predicate Holds(p: Pid) { At(p).Holding? }

    function Put(p: Pid, d: Desc): State { this.(desc := desc[p := d]) }
  }

  datatype Event =
    | Open(p: Pid)               // open(O_CREAT) finds the file at the path
    | Create(p: Pid, i: Inode)   // open(O_CREAT) makes one
    | Flock(p: Pid)              // the lock is free, and taken
    | Verify(p: Pid)             // fstat and lstat name one file
    | Unlink(p: Pid)             // unlink(path), by a verified holder
    | Unlock(p: Pid)             // flock(LOCK_UN)
    | Close(p: Pid)              // close(), or the death of the process: the lock goes with it
    | Clean                      // a cleaner deletes a file nobody has locked

  predicate Init(s: State) {
    s.atPath == None && s.owner == map[] && s.desc == map[]
  }

  /** An inode number is free for a new file once nothing names or has open the old one. */
  predicate Unused(s: State, i: Inode) {
    s.atPath != Some(i) && forall p | p in s.desc :: !s.desc[p].IsOn(i)
  }

  function InodesInUse(s: State): (r: set<Inode>)
    ensures forall i | i !in r :: s.atPath.None? ==> Unused(s, i)
  {
    set p | p in s.desc && !s.desc[p].NoFile? :: s.desc[p].inode
  }

  predicate Next(s: State, e: Event, t: State) {
    match e
    case Open(p) =>
      s.At(p).NoFile? && s.atPath.Some? && t == s.Put(p, Opened(s.atPath.value))
    case Create(p, i) =>
      s.At(p).NoFile? && s.atPath.None? && Unused(s, i) && t == s.Put(p, Opened(i)).(atPath := Some(i))
    case Flock(p) =>
      s.At(p).Opened? && s.At(p).inode !in s.owner &&
      t == s.Put(p, Locked(s.At(p).inode)).(owner := s.owner[s.At(p).inode := p])
    case Verify(p) =>
      s.At(p).Locked? && s.atPath == Some(s.At(p).inode) && t == s.Put(p, Holding(s.At(p).inode))
    case Unlink(p) =>
      s.At(p).Holding? && t == s.Put(p, Unlinked(s.At(p).inode)).(atPath := None)
    case Unlock(p) =>
      s.At(p).HasLock() && t == s.Put(p, Opened(s.At(p).inode)).(owner := s.owner - {s.At(p).inode})
    case Close(p) =>
      t == Closed(s, p)
    case Clean =>
      s.atPath.Some? && s.atPath.value !in s.owner && t == s.(atPath := None)
  }

  function Closed(s: State, p: Pid): State {
    var t := s.Put(p, NoFile);
    if s.At(p).HasLock() then t.(owner := s.owner - {s.At(p).inode}) else t
  }

  // ---------- the steps of a call ----------

  /** open(O_CREAT), `i` being a number for the file it makes if there is none. */
  function Opening(s: State, p: Pid, i: Inode): (r: (State, Event))
    requires s.At(p).NoFile? && (s.atPath.None? ==> Unused(s, i))
    ensures Next(s, r.1, r.0) && Actor(r.1) == Some(p) && r.0.At(p).Opened? && (r.1.Open? || r.1.Create?)
  {
    if s.atPath.Some? then (s.Put(p, Opened(s.atPath.value)), Open(p))
    else (s.Put(p, Opened(i)).(atPath := Some(i)), Create(p, i))
  }

  /** flock(LOCK_EX), of a file nobody has. */
  function Taken(s: State, p: Pid): (t: State)
    requires s.At(p).Opened? && s.At(p).inode !in s.owner
    ensures Next(s, Flock(p), t) && t.At(p).Locked?
  {
    s.Put(p, Locked(s.At(p).inode)).(owner := s.owner[s.At(p).inode := p])
  }

  function Verified(s: State, p: Pid): (t: State)
    requires s.At(p).Locked? && s.atPath == Some(s.At(p).inode)
    ensures Next(s, Verify(p), t) && t.Holds(p)
  {
    s.Put(p, Holding(s.At(p).inode))
  }

  function LetGo(s: State, p: Pid): (t: State)
    requires s.At(p).HasLock()
    ensures Next(s, Unlock(p), t) && t.At(p).Opened?
  {
    s.Put(p, Opened(s.At(p).inode)).(owner := s.owner - {s.At(p).inode})
  }

  function PathUnlinked(s: State, p: Pid): (t: State)
    requires s.Holds(p)
    ensures Next(s, Unlink(p), t) && t.At(p).Unlinked?
  {
    s.Put(p, Unlinked(s.At(p).inode)).(atPath := None)
  }

  /** Who makes a step, if a participant does. */
  function Actor(e: Event): Option<Pid> {
    match e
    case Open(p) => Some(p)
    case Create(p, _) => Some(p)
    case Flock(p) => Some(p)
    case Verify(p) => Some(p)
    case Unlink(p) => Some(p)
    case Unlock(p) => Some(p)
    case Close(p) => Some(p)
    case Clean => None
  }

  /** The kernel's table and the participants agree, and a verified holder's file is at the path. */
  ghost predicate Inv(s: State) {
    && (forall i | i in s.owner :: s.At(s.owner[i]).HasLock() && s.At(s.owner[i]).inode == i)
    && (forall p: Pid | s.At(p).HasLock() :: s.At(p).inode in s.owner && s.owner[s.At(p).inode] == p)
    && (forall p: Pid | s.Holds(p) :: s.atPath == Some(s.At(p).inode))
  }

  /**
   No step breaks the invariant, and none but the holder's own ends its hold: until it lets go
   itself, its file stays at the path.
   */
  lemma StepKeepsInv(s: State, e: Event, t: State)
    requires Inv(s) && Next(s, e, t)
    ensures Inv(t)
    ensures forall p: Pid | s.Holds(p) && Actor(e) != Some(p) :: t.At(p) == s.At(p) && t.atPath == s.atPath
    ensures e.Unlink? ==> s.atPath == Some(s.At(e.p).inode) && s.owner[s.At(e.p).inode] == e.p
    ensures e.Clean? ==> forall p: Pid | s.At(p).HasLock() :: !s.At(p).IsOn(s.atPath.value)
  {
    forall p: Pid | t.At(p).HasLock()
      ensures t.At(p).inode in t.owner && t.owner[t.At(p).inode] == p
    {
      if Actor(e) != Some(p) {
        assert t.At(p) == s.At(p);
      }
    }
    forall i | i in t.owner
      ensures t.At(t.owner[i]).HasLock() && t.At(t.owner[i]).inode == i
    {
      if Actor(e) != Some(t.owner[i]) {
        assert t.At(t.owner[i]) == s.At(t.owner[i]);
      }
    }
  }

  /** A run: every state reached, from the first, by one step after another. */
  ghost predicate IsRun(run: seq<State>, events: seq<Event>) {
    && |run| == |events| + 1
    && Init(run[0])
    && forall k | 0 <= k < |events| :: StepAt(run, events, k)
  }

  ghost predicate StepAt(run: seq<State>, events: seq<Event>, k: int)
    requires 0 <= k < |events| == |run| - 1
  {
    Next(run[k], events[k], run[k + 1])
  }

  lemma {:induction false} RunKeepsInv(run: seq<State>, events: seq<Event>, k: nat)
    requires IsRun(run, events) && k < |run|
    ensures Inv(run[k])
  {
    if k > 0 {
      RunKeepsInv(run, events, k - 1);
      assert StepAt(run, events, k - 1);
      StepKeepsInv(run[k - 1], events[k - 1], run[k]);
    }
  }

  /** At every moment of every run at most one participant is in the name's critical section. */
  lemma MutualExclusion(run: seq<State>, events: seq<Event>, k: nat, p: Pid, q: Pid)
    requires IsRun(run, events) && k < |run|
    requires run[k].Holds(p) && run[k].Holds(q)
    ensures p == q
    ensures run[k].atPath == Some(run[k].At(p).inode)
  {
    RunKeepsInv(run, events, k);
  }

  /**
   A holder that has made no step of its own since moment `j` still holds at moment `k`, over the
   same file, and that file is still the one at the path.
   */
  lemma {:induction false} HolderKeepsThePath(run: seq<State>, events: seq<Event>, j: nat, k: nat, p: Pid)
    requires IsRun(run, events) && j <= k < |run| && run[j].Holds(p)
    requires forall n | j <= n < k :: Actor(events[n]) != Some(p)
    ensures run[k].At(p) == run[j].At(p)
    ensures run[k].atPath == Some(run[j].At(p).inode)
    decreases k
  {
    RunKeepsInv(run, events, j);
    if j < k {
      HolderKeepsThePath(run, events, j, k - 1, p);
      RunKeepsInv(run, events, k - 1);
      assert StepAt(run, events, k - 1);
      StepKeepsInv(run[k - 1], events[k - 1], run[k]);
    }
  }
}
