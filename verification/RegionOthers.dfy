/**
 What the steps of the other participants leave alone: whatever is a participant's own, and any
 region it is inside.
 */
module RegionOthers {
  import opened Basics
  import L = LockFile
  import opened SharedRegion

  function Actor(e: Event): Option<Pid> {
    match e
    case Lock(le) => L.Actor(le)
    case _ => Some(e.p)
  }

  /** What the steps of others leave alone: whatever is `me`'s, and any region `me` is inside. */
  ghost predicate Kept(s: State, t: State, me: Pid) {
    && OwnKept(s, t, me)
    && (forall r | r in s.regions :: r in t.regions && (s.Inside(me, r) ==> t.regions[r] == s.regions[r]))
  }

  /** Whoever is past finding a region is inside it. */
  predicate WorksInside(s: State, p: Pid) {
    var w := s.Doing(p);
    w.Nothing? || w.Found? || s.Inside(p, w.r)
  }

  /** A region is left as it is, or changed by someone inside it. */
  ghost predicate Guarded(s: State, t: State, p: Pid) {
    forall r | r in s.regions :: r in t.regions && (t.regions[r] == s.regions[r] || s.Inside(p, r))
  }

  lemma OpenIsGuarded(s: State, e: Event, t: State)
    requires Next(s, e, t) && IsOpenStep(e) && WorksInside(s, e.p)
    ensures Guarded(s, t, e.p)
  {
  }

  lemma CallIsGuarded(s: State, e: Event, t: State)
    requires Next(s, e, t) && !IsOpenStep(e) && !IsLockStep(e) && WorksInside(s, e.p)
    ensures Guarded(s, t, e.p)
  {
  }

  /** What a participant has of its own. */
  ghost predicate OwnKept(s: State, t: State, me: Pid) {
    && t.lockFile == s.lockFile && t.Doing(me) == s.Doing(me) && t.lock.At(me) == s.lock.At(me)
    && (me in t.handles <==> me in s.handles) && (me in s.handles ==> t.handles[me] == s.handles[me])
    && (forall r: Rid :: t.Inside(me, r) <==> s.Inside(me, r))
  }

  lemma OpenKeepsOwn(s: State, e: Event, t: State, me: Pid)
    requires Next(s, e, t) && (e.ShmOpen? || e.Truncate? || e.Abandon?) && e.p != me
    ensures OwnKept(s, t, me)
  {
  }

  lemma SetUpKeepsOwn(s: State, e: Event, t: State, me: Pid)
    requires Next(s, e, t) && (e.CheckHeader? || e.StoreField? || e.FinishOpen?) && e.p != me
    ensures OwnKept(s, t, me)
  {
  }

  lemma LockKeepsOwn(s: State, e: Event, t: State, me: Pid)
    requires Next(s, e, t) && IsLockStep(e) && Actor(e) != Some(me)
    ensures OwnKept(s, t, me) && t.regions == s.regions
  {
  }

  predicate IsWriteStep(e: Event) { e.BeginWrite? || e.CopyIn? || e.FinishWrite? }

  lemma WriteKeepsOwn(s: State, e: Event, t: State, me: Pid)
    requires Next(s, e, t) && IsWriteStep(e) && e.p != me
    ensures OwnKept(s, t, me)
  {
  }

  predicate IsReadStep(e: Event) { e.BeginRead? || e.CopyOut? || e.FinishRead? }

  lemma ReadKeepsOwn(s: State, e: Event, t: State, me: Pid)
    requires Next(s, e, t) && IsReadStep(e) && e.p != me
    ensures OwnKept(s, t, me)
  {
  }

  lemma EndKeepsOwn(s: State, e: Event, t: State, me: Pid)
    requires Next(s, e, t) && (e.Clear? || e.Die?) && e.p != me
    ensures OwnKept(s, t, me)
  {
  }

  lemma CallKeepsOwn(s: State, e: Event, t: State, me: Pid)
    requires Next(s, e, t) && !IsOpenStep(e) && !IsLockStep(e) && e.p != me
    ensures OwnKept(s, t, me)
  {
    if IsWriteStep(e) {
      WriteKeepsOwn(s, e, t, me);
    } else if IsReadStep(e) {
      ReadKeepsOwn(s, e, t, me);
    } else {
      EndKeepsOwn(s, e, t, me);
    }
  }

  lemma OthersStep(s: State, e: Event, t: State, me: Pid)
    requires Inv(s) && Next(s, e, t) && Actor(e) != Some(me)
    ensures Kept(s, t, me)
  {
    if IsLockStep(e) {
      LockKeepsOwn(s, e, t, me);
    } else {
      assert WorkOk(s, e.p);
      if IsOpenStep(e) {
        if e.ShmOpen? || e.Truncate? || e.Abandon? {
          OpenKeepsOwn(s, e, t, me);
        } else {
          SetUpKeepsOwn(s, e, t, me);
        }
        OpenIsGuarded(s, e, t);
      } else {
        CallKeepsOwn(s, e, t, me);
        CallIsGuarded(s, e, t);
      }
      OnlyOneInside(s, t, e.p, me);
    }
  }

  lemma OnlyOneInside(s: State, t: State, p: Pid, me: Pid)
    requires L.Inv(s.lock) && Guarded(s, t, p) && p != me
    ensures forall r | r in s.regions :: r in t.regions && (s.Inside(me, r) ==> t.regions[r] == s.regions[r])
  {
    forall r | r in s.regions && s.Inside(me, r) ensures t.regions[r] == s.regions[r] {
      if s.Inside(p, r) {
        InsideAlone(s, me, p, r);
      }
    }
  }

  lemma {:induction false} OthersSteps(run: seq<State>, events: seq<Event>, j: nat, k: nat, me: Pid)
    requires IsRun(run, events) && j <= k < |run|
    requires forall n | j <= n < k :: Actor(events[n]) != Some(me)
    ensures Kept(run[j], run[k], me)
    decreases k
  {
    if j < k {
      OthersSteps(run, events, j, k - 1, me);
      RunKeepsInv(run, events, k - 1);
      assert StepAt(run, events, k - 1);
      OthersStep(run[k - 1], events[k - 1], run[k], me);
    }
  }

  /** A region's lock is gained by taking it, with none taken before. */
  lemma Gained(s: State, e: Event, t: State, me: Pid, r: Rid)
    requires Next(s, e, t) && !t.lockFile && t.Inside(me, r) && !s.Inside(me, r)
    ensures e == LockRegion(me, r) && t.regionLock == s.regionLock[r := me] && forall q: Rid :: !s.Inside(me, q)
  {
  }

  /** No participant has the locks of two regions. */
  lemma {:induction false} OneLock(run: seq<State>, events: seq<Event>, k: nat, me: Pid, q: Rid, r: Rid)
    requires IsRun(run, events) && k < |run| && !run[k].lockFile && run[k].Inside(me, q) && run[k].Inside(me, r)
    ensures q == r
  {
    if k > 0 {
      var s, e, t := run[k - 1], events[k - 1], run[k];
      assert StepAt(run, events, k - 1);
      if !s.Inside(me, q) {
        Gained(s, e, t, me, q);
      } else if !s.Inside(me, r) {
        Gained(s, e, t, me, r);
      } else {
        OneLock(run, events, k - 1, me, q, r);
      }
    }
  }

  lemma StaysOut(s: State, t: State, me: Pid)
    requires OwnKept(s, t, me)
    ensures t.InsideAny(me) ==> s.InsideAny(me)
  {
    if !t.lockFile && t.InsideAny(me) {
      var r :| r in t.regionLock && t.regionLock[r] == me;
      assert t.Inside(me, r) && s.Inside(me, r);
    }
  }
}
