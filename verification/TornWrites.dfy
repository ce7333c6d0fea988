/**
 A participant that dies in the middle of a write leaves a region with its old length over some of
 the new bytes. Here is exactly when that does no harm, whatever step it dies at.
 */
module TornWrites {
  import opened Basics
  import opened SharedRegion
  import opened RegionOthers

  /** The new bytes are the old ones, as far as both go. */
  predicate Agree(data: seq<byte>, value: seq<byte>) {
    forall i: nat | i < |data| && i < |value| :: data[i] == value[i]
  }

  /** Whichever bytes were copied, the value is what it was, just when the data agrees with it. */
  lemma TearHarmlessIff(log: seq<Entry>, data: seq<byte>)
    ensures (forall copied: set<nat> :: ValueOf(log + [Torn(data, copied)]) == ValueOf(log))
        <==> Agree(data, ValueOf(log))
  {
    forall copied: set<nat> ensures ValueOf(log + [Torn(data, copied)]) == Mixed(ValueOf(log), data, copied) {
      TornValue(log, data, copied);
    }
    if i: nat :| i < |data| && i < |ValueOf(log)| && data[i] != ValueOf(log)[i] {
      TornByte(log, data, i);
    }
  }

  lemma TornValue(log: seq<Entry>, data: seq<byte>, copied: set<nat>)
    ensures ValueOf(log + [Torn(data, copied)]) == Mixed(ValueOf(log), data, copied)
    ensures Agree(data, ValueOf(log)) ==> ValueOf(log + [Torn(data, copied)]) == ValueOf(log)
  {
    assert (log + [Torn(data, copied)])[..|log|] == log;
  }

  /** One byte copied over a different one is enough. */
  lemma TornByte(log: seq<Entry>, data: seq<byte>, i: nat)
    requires i < |data| && i < |ValueOf(log)| && data[i] != ValueOf(log)[i]
    ensures ValueOf(log + [Torn(data, {i})]) != ValueOf(log)
  {
    TornValue(log, data, {i});
    assert Mixed(ValueOf(log), data, {i})[i] == data[i];
  }

  predicate OneOf(v: seq<byte>, prior: seq<byte>, data: seq<byte>) { v == prior || v == data }

  /** The data has the value's length, and differs from it in one byte. */
  predicate OneByteApart(data: seq<byte>, value: seq<byte>) {
    |data| == |value| && exists i | 0 <= i < |data| :: OnlyAt(data, value, i)
  }

  predicate OnlyAt(data: seq<byte>, value: seq<byte>, i: nat)
    requires i < |data| == |value|
  {
    data[i] != value[i] && forall j | 0 <= j < |data| && j != i :: data[j] == value[j]
  }

  /** Data whose every tear over `value` is the one or the other. */
  predicate Untearable(data: seq<byte>, value: seq<byte>) { Agree(data, value) || OneByteApart(data, value) }

  lemma OldOrNew(value: seq<byte>, data: seq<byte>, copied: set<nat>)
    requires Untearable(data, value)
    ensures OneOf(Mixed(value, data, copied), value, data)
  {
    if !Agree(data, value) {
      var i :| 0 <= i < |data| && OnlyAt(data, value, i);
      assert Mixed(value, data, copied) == if i in copied then data else value;
    }
  }

  /** Otherwise there is a byte which, copied alone, makes a third value. */
  lemma NeitherAt(value: seq<byte>, data: seq<byte>) returns (i: nat)
    requires !Untearable(data, value)
    ensures i < |data| && !OneOf(Mixed(value, data, {i}), value, data)
  {
    i :| i < |data| && i < |value| && data[i] != value[i];
    var mixed := Mixed(value, data, {i});
    assert mixed[i] == data[i];
    if |data| == |value| {
      assert !OnlyAt(data, value, i);
      var j :| 0 <= j < |data| && j != i && data[j] != value[j];
      assert mixed[j] == value[j];
    }
  }

  /** Whichever bytes were copied, the value is the old or the new, just when the data is untearable over it. */
  lemma OldOrNewIff(log: seq<Entry>, data: seq<byte>)
    ensures (forall copied: set<nat> :: OneOf(ValueOf(log + [Torn(data, copied)]), ValueOf(log), data))
        <==> Untearable(data, ValueOf(log))
  {
    var value := ValueOf(log);
    if Untearable(data, value) {
      forall copied: set<nat> ensures OneOf(ValueOf(log + [Torn(data, copied)]), value, data) {
        TornValue(log, data, copied);
        OldOrNew(value, data, copied);
      }
    } else {
      var i := NeitherAt(value, data);
      TornValue(log, data, {i});
    }
  }

  // ---------- over runs ----------

  /** `p` is in the middle of writing `data` to `r`, over a region whose log is `log`. */
  ghost predicate Midway(s: State, p: Pid, r: Rid, data: seq<byte>, log: seq<Entry>) {
    && s.Doing(p) == Writing(r, data) && r in s.regions && s.Inside(p, r)
    && s.regions[r].pending.Write? && s.regions[r].pending.data == data && s.regions[r].log == log
  }

  /** A writer takes and leaves no locks meanwhile, and opens nothing. */
  lemma WriterOnlyWrites(s: State, e: Event, t: State, p: Pid, r: Rid)
    requires s.Doing(p).Writing? && s.Inside(p, r) && Next(s, e, t) && Actor(e) == Some(p)
    ensures !IsLockStep(e) && !IsOpenStep(e)
  {
  }

  /** Its own next step copies a byte, finishes the write, or is its death. */
  lemma WritersStep(s: State, e: Event, t: State, p: Pid, r: Rid, data: seq<byte>, log: seq<Entry>)
    requires Midway(s, p, r, data, log) && Next(s, e, t)
    requires Actor(e) == Some(p) && !IsLockStep(e) && !IsOpenStep(e)
    ensures e.CopyIn? || e == FinishWrite(p) || e == Die(p)
    ensures e.CopyIn? ==> Midway(t, p, r, data, log)
    ensures e.Die? ==> r in t.regions && t.regions[r].log == log + [Torn(data, s.regions[r].pending.copied)]
  {
  }

  /** The steps `j` up to `k` are those of others, and of `p` only copying. */
  ghost predicate StillWriting(events: seq<Event>, j: nat, k: nat, p: Pid)
    requires j <= k <= |events|
  {
    forall n | j <= n < k :: events[n] != FinishWrite(p) && events[n] != Die(p)
  }

  lemma {:induction false} StaysMidway(
    run: seq<State>, events: seq<Event>, j: nat, k: nat, p: Pid, r: Rid, data: seq<byte>, log: seq<Entry>)
    requires IsRun(run, events) && j <= k < |run| && StillWriting(events, j, k, p)
    requires Midway(run[j], p, r, data, log)
    ensures Midway(run[k], p, r, data, log)
    decreases k
  {
    if j < k {
      StaysMidway(run, events, j, k - 1, p, r, data, log);
      RunKeepsInv(run, events, k - 1);
      assert StepAt(run, events, k - 1);
      if Actor(events[k - 1]) == Some(p) {
        WriterOnlyWrites(run[k - 1], events[k - 1], run[k], p, r);
        WritersStep(run[k - 1], events[k - 1], run[k], p, r, data, log);
      } else {
        OthersStep(run[k - 1], events[k - 1], run[k], p);
      }
    }
  }

  /** `more` goes on from a run with `p` beginning a write of `data`, and ends with its death in the middle of it. */
  ghost predicate DiesWriting(run: seq<State>, events: seq<Event>, more: seq<State>, moreEvents: seq<Event>,
                              p: Pid, data: seq<byte>)
  {
    var n, m := |events|, |moreEvents|;
    && IsRun(more, moreEvents) && run <= more && events <= moreEvents && n + 1 < m
    && moreEvents[n] == BeginWrite(p, data) && moreEvents[m - 1] == Die(p) && StillWriting(moreEvents, n + 1, m - 1, p)
  }

  function ValueIn(s: State, r: Rid): seq<byte> { if r in s.regions then ValueOf(s.regions[r].log) else [] }

  /** The death adds one torn entry to the region's log, whatever the others did meanwhile. */
  lemma DeathTears(run: seq<State>, events: seq<Event>, more: seq<State>, moreEvents: seq<Event>,
                   p: Pid, data: seq<byte>) returns (copied: set<nat>)
    requires IsRun(run, events) && CanWork(run[|events|], p) && DiesWriting(run, events, more, moreEvents, p, data)
    ensures var r, end := run[|events|].handles[p].r, more[|moreEvents|];
      r in end.regions && end.regions[r].log == run[|events|].regions[r].log + [Torn(data, copied)]
    ensures var r := run[|events|].handles[p].r;
      Agree(data, ValueIn(run[|events|], r)) ==> ValueIn(more[|moreEvents|], r) == ValueIn(run[|events|], r)
  {
    var n, m := |events|, |moreEvents|;
    var s := run[n];
    var r := s.handles[p].r;
    var log := s.regions[r].log;
    assert more[n] == s && StepAt(more, moreEvents, n);
    BeginsMidway(s, more[n + 1], p, data);
    StaysMidway(more, moreEvents, n + 1, m - 1, p, r, data, log);
    assert StepAt(more, moreEvents, m - 1);
    WritersStep(more[m - 1], moreEvents[m - 1], more[m], p, r, data, log);
    copied := more[m - 1].regions[r].pending.copied;
    TornValue(log, data, copied);
  }

  lemma BeginsMidway(s: State, t: State, p: Pid, data: seq<byte>)
    requires CanWork(s, p) && BeginWriteStep(s, p, data, t)
    ensures var r := s.handles[p].r; Midway(t, p, r, data, s.regions[r].log) && t.regions[r].pending.copied == {}
  {
  }

  /** `p` may write `data` now: it fits. */
  predicate CanWrite(s: State, p: Pid, data: seq<byte>) {
    CanWork(s, p) && var Handle(r, room) := s.handles[p]; |data| <= PayloadLimit(room, s.regions[r].capacity)
  }

  function Begun(s: State, p: Pid, data: seq<byte>): State
    requires CanWork(s, p)
  {
    var r := s.handles[p].r;
    s.Set(r, s.regions[r].(pending := Write(p, data, {})), p, Writing(r, data))
  }

  function Copied(s: State, p: Pid, data: seq<byte>, r: Rid, i: nat): State
    requires r in s.regions && i < |data| && i < |s.regions[r].payload|
  {
    var g := s.regions[r];
    s.Set(r, g.(payload := g.payload[i := data[i]], pending := Write(p, data, {i})), p, Writing(r, data))
  }

  /** A write begun, byte `i` of it copied, and the writer dead: the three steps, and what they leave. */
  lemma BeginCopyAndDie(s: State, p: Pid, data: seq<byte>, i: nat) returns (t: State, u: State)
    requires CanWrite(s, p, data) && i < |data|
    requires var g := s.regions[s.handles[p].r]; g.magic && |data| <= |g.payload|
    ensures Next(s, BeginWrite(p, data), t) && Next(t, CopyIn(p, i), u)
    ensures var r := s.handles[p].r; ValueIn(Dead(u, p), r) == ValueOf(s.regions[r].log + [Torn(data, {i})])
  {
    t := Begun(s, p, data);
    u := Copied(t, p, data, s.handles[p].r, i);
    assert CopyInStep(t, p, i, u) by {
      assert {} + {i} == {i};
    }
  }

  lemma ThreeMore(run: seq<State>, events: seq<Event>, p: Pid, data: seq<byte>, i: nat, t: State, u: State, v: State)
    requires IsRun(run, events) && Next(run[|events|], BeginWrite(p, data), t)
    requires Next(t, CopyIn(p, i), u) && Next(u, Die(p), v)
    ensures IsRun(run + [t, u, v], events + [BeginWrite(p, data), CopyIn(p, i), Die(p)])
  {
    Extend(run, events, BeginWrite(p, data), t);
    Extend(run + [t], events + [BeginWrite(p, data)], CopyIn(p, i), u);
    Extend(run + [t] + [u], events + [BeginWrite(p, data)] + [CopyIn(p, i)], Die(p), v);
    assert run + [t, u, v] == run + [t] + [u] + [v];
    var e := BeginWrite(p, data);
    assert events + [e, CopyIn(p, i), Die(p)] == events + [e] + [CopyIn(p, i)] + [Die(p)];
  }

  /** What fits the limit fits the payload. */
  lemma RoomFor(run: seq<State>, events: seq<Event>, p: Pid, data: seq<byte>)
    requires IsRun(run, events) && CanWrite(run[|events|], p, data)
    ensures var g := run[|events|].regions[run[|events|].handles[p].r]; g.magic && |data| <= |g.payload|
  {
    RunKeepsInv(run, events, |events|);
    NotPending(run[|events|], p, run[|events|].handles[p].r);
  }

  /** Those three steps are a death in the middle of the write. */
  lemma ThreeDie(run: seq<State>, events: seq<Event>, p: Pid, data: seq<byte>, i: nat,
                 more: seq<State>, moreEvents: seq<Event>)
    requires IsRun(more, moreEvents) && run <= more
    requires moreEvents == events + [BeginWrite(p, data), CopyIn(p, i), Die(p)]
    ensures DiesWriting(run, events, more, moreEvents, p, data)
  {
    var n := |events|;
    assert moreEvents[n] == BeginWrite(p, data) && moreEvents[n + 1] == CopyIn(p, i) && moreEvents[n + 2] == Die(p);
  }

  lemma DiesAt(run: seq<State>, events: seq<Event>, p: Pid, data: seq<byte>, i: nat)
    returns (more: seq<State>, moreEvents: seq<Event>)
    requires IsRun(run, events) && CanWrite(run[|events|], p, data) && i < |data|
    ensures DiesWriting(run, events, more, moreEvents, p, data)
    ensures var r := run[|events|].handles[p].r;
      ValueIn(more[|moreEvents|], r) == ValueOf(run[|events|].regions[r].log + [Torn(data, {i})])
  {
    RoomFor(run, events, p, data);
    var t, u := BeginCopyAndDie(run[|events|], p, data, i);
    ThreeMore(run, events, p, data, i, t, u, Dead(u, p));
    more, moreEvents := run + [t, u, Dead(u, p)], events + [BeginWrite(p, data), CopyIn(p, i), Die(p)];
    ThreeDie(run, events, p, data, i, more, moreEvents);
  }

  lemma Extend(run: seq<State>, events: seq<Event>, e: Event, t: State)
    requires IsRun(run, events) && Next(run[|events|], e, t)
    ensures IsRun(run + [t], events + [e])
  {
    forall k | 0 <= k <= |events| ensures StepAt(run + [t], events + [e], k) {
      assert k < |events| ==> StepAt(run, events, k);
    }
  }

  /**
   A participant about to write may die at any step of it, with anything going on around it, and
   leave the region's value as it was, if and only if the data agrees with that value as far as
   both go: what a caller can tell from a read before the call.
   */
  lemma SurvivesEveryDeathIff(run: seq<State>, events: seq<Event>, p: Pid, data: seq<byte>)
    requires IsRun(run, events) && CanWrite(run[|events|], p, data)
    ensures var r := run[|events|].handles[p].r;
      (forall more, moreEvents | DiesWriting(run, events, more, moreEvents, p, data) ::
         ValueIn(more[|moreEvents|], r) == ValueIn(run[|events|], r))
      <==> Agree(data, ValueIn(run[|events|], r))
  {
    var r := run[|events|].handles[p].r;
    forall more, moreEvents
      | DiesWriting(run, events, more, moreEvents, p, data) && Agree(data, ValueIn(run[|events|], r))
      ensures ValueIn(more[|moreEvents|], r) == ValueIn(run[|events|], r)
    {
      var _ := DeathTears(run, events, more, moreEvents, p, data);
    }
    var value := ValueIn(run[|events|], r);
    if i: nat :| i < |data| && i < |value| && data[i] != value[i] {
      var more, moreEvents := DiesAt(run, events, p, data, i);
      TornByte(run[|events|].regions[r].log, data, i);
      assert DiesWriting(run, events, more, moreEvents, p, data);
    }
  }

  /**
   And it leaves the old value or the new, never a third, if and only if the data agrees with the
   value as far as both go, or has its length and differs from it in one byte.
   */
  lemma NeverNeitherIff(run: seq<State>, events: seq<Event>, p: Pid, data: seq<byte>)
    requires IsRun(run, events) && CanWrite(run[|events|], p, data)
    ensures var r := run[|events|].handles[p].r;
      (forall more, moreEvents | DiesWriting(run, events, more, moreEvents, p, data) ::
         OneOf(ValueIn(more[|moreEvents|], r), ValueIn(run[|events|], r), data))
      <==> Untearable(data, ValueIn(run[|events|], r))
  {
    var r := run[|events|].handles[p].r;
    var log := run[|events|].regions[r].log;
    forall more, moreEvents
      | DiesWriting(run, events, more, moreEvents, p, data) && Untearable(data, ValueOf(log))
      ensures OneOf(ValueIn(more[|moreEvents|], r), ValueOf(log), data)
    {
      var copied := DeathTears(run, events, more, moreEvents, p, data);
      TornValue(log, data, copied);
      OldOrNew(ValueOf(log), data, copied);
    }
    if !Untearable(data, ValueOf(log)) {
      var i := NeitherAt(ValueOf(log), data);
      var more, moreEvents := DiesAt(run, events, p, data, i);
      TornValue(log, data, {i});
      assert DiesWriting(run, events, more, moreEvents, p, data);
    }
  }
}
