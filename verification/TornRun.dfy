/**
 A run in which a torn value is read: a participant opens a name and writes, dies one byte into a
 second write, and another participant that opens the name then reads neither of the two.
 */
module TornRun {
  import opened Basics
  import L = LockFile
  import opened SharedRegion
  import T = TornWrites

  const NO_LOCK := L.State(None, map[], map[])
  const START := State(false, NO_LOCK, map[], None, map[], map[], map[])

  /** Participant 0 inside the one region there is, with these handles on it, at this work. */
  function First(g: Region, handles: map<Pid, Handle>, w: Work): State {
    State(false, NO_LOCK, map[0 := 0], Some(0), map[0 := g], handles, map[0 := w])
  }

  function SettingUp(g: Region, left: set<Field>): State { First(g, map[], Initialising(0, 2, left)) }

  /** And in the middle of writing `data`, with these bytes of it copied. */
  function Midway(g: Region, payload: seq<byte>, data: seq<byte>, copied: set<nat>): State {
    First(g.(payload := payload, pending := Write(0, data, copied)), ZEROS, Writing(0, data))
  }

  /** Participant 1 at the region after 0's death. */
  function Second(owner: map<Rid, Pid>, g: Region, handles: map<Pid, Handle>, w: Work): State {
    State(false, DEAD, owner, Some(0), map[0 := g], handles, map[0 := Nothing, 1 := w])
  }

  function Inside(g: Region, w: Work): State { Second(map[0 := 1], g, ONES, w) }

  const ZEROS := map[0 := Handle(0, 2)]  // participant 0's handle, and 1's
  const ONES := map[1 := Handle(0, 2)]
  const AFTER := State(false, DEAD, map[], Some(0), map[0 := TORN], map[], map[0 := Nothing])

  lemma Then(run: seq<State>, events: seq<Event>, e: Event, t: State) returns (more: seq<State>, moreEvents: seq<Event>)
    requires IsRun(run, events) && Next(run[|events|], e, t)
    ensures IsRun(more, moreEvents) && more[|moreEvents|] == t
  {
    T.Extend(run, events, e, t);
    more, moreEvents := run + [t], events + [e];
  }

  const SIZED := Region(14, false, 0, 0, [0, 0], NoWrite, [])
  const SIGNED := SIZED.(magic := true)
  const READY := SIGNED.(capacity := 2)
  const WRITTEN := READY.(payloadSize := 2, payload := [1, 1], log := [Wrote([1, 1])])
  const TORN := WRITTEN.(payload := [2, 1], log := [Wrote([1, 1]), Torn([2, 2], {0})])

  const DEAD := NO_LOCK.Put(0, L.NoFile)

  /** Participant 0 finds the region and sizes it, */
  lemma Sizes() returns (run: seq<State>, events: seq<Event>)
    ensures IsRun(run, events) && run[|events|] == First(SIZED, map[], Sized(0, 2))
  {
    run, events := Then([START], [], ShmOpen(0, 2, 0), First(FreshRegion, map[], Found(0, 2)).(regionLock := map[]));
    run, events := Then(run, events, LockRegion(0, 0), First(FreshRegion, map[], Found(0, 2)));
    assert SIZED.payload == Zeros(2);
    run, events := Then(run, events, Truncate(0, 14), First(SIZED, map[], Sized(0, 2)));
  }

  /** begins to set its header up, */
  lemma Initialises() returns (run: seq<State>, events: seq<Event>)
    ensures IsRun(run, events) && run[|events|] == SettingUp(SIGNED, {Capacity})
  {
    run, events := Sizes();
    run, events := Then(run, events, CheckHeader(0), SettingUp(SIZED, {Magic, PayloadSize, Capacity}));
    assert {Magic, PayloadSize, Capacity} - {Magic} == {PayloadSize, Capacity};
    run, events := Then(run, events, StoreField(0, Magic), SettingUp(SIGNED, {PayloadSize, Capacity}));
    assert {PayloadSize, Capacity} - {PayloadSize} == {Capacity};
    run, events := Then(run, events, StoreField(0, PayloadSize), SettingUp(SIGNED, {Capacity}));
  }

  /** ends with a handle, */
  lemma SetsUp() returns (run: seq<State>, events: seq<Event>)
    ensures IsRun(run, events) && run[|events|] == First(READY, ZEROS, Nothing)
  {
    run, events := Initialises();
    assert {Capacity} - {Capacity} == {};
    run, events := Then(run, events, StoreField(0, Capacity), SettingUp(READY, {}));
    run, events := Then(run, events, FinishOpen(0), First(READY, ZEROS, Nothing));
  }

  /** copies a byte of a write, */
  lemma Copies() returns (run: seq<State>, events: seq<Event>)
    ensures IsRun(run, events) && run[|events|] == Midway(READY, [1, 0], [1, 1], {0})
  {
    run, events := SetsUp();
    run, events := Then(run, events, BeginWrite(0, [1, 1]), Midway(READY, [0, 0], [1, 1], {}));
    assert READY.payload[0 := 1] == [1, 0] && {} + {0} == {0};
    run, events := Then(run, events, CopyIn(0, 0), Midway(READY, [1, 0], [1, 1], {0}));
  }

  /** its other, */
  lemma CopiesBoth() returns (run: seq<State>, events: seq<Event>)
    ensures IsRun(run, events) && run[|events|] == Midway(READY, [1, 1], [1, 1], {0, 1})
  {
    run, events := Copies();
    assert [1, 0][1 := 1] == [1, 1] && {0} + {1} == {0, 1};
    run, events := Then(run, events, CopyIn(0, 1), Midway(READY, [1, 1], [1, 1], {0, 1}));
  }

  /** and finishes the write. */
  lemma Writes() returns (run: seq<State>, events: seq<Event>)
    ensures IsRun(run, events) && run[|events|] == First(WRITTEN, ZEROS, Nothing)
  {
    run, events := CopiesBoth();
    assert READY.log + [Wrote([1, 1])] == WRITTEN.log;
    run, events := Then(run, events, FinishWrite(0), First(WRITTEN, ZEROS, Nothing));
  }

  /** Writing two others it copies one, */
  lemma CopiesOne() returns (run: seq<State>, events: seq<Event>)
    ensures IsRun(run, events) && run[|events|] == Midway(WRITTEN, [2, 1], [2, 2], {0})
  {
    run, events := Writes();
    run, events := Then(run, events, BeginWrite(0, [2, 2]), Midway(WRITTEN, [1, 1], [2, 2], {}));
    assert [1, 1][0 := 2] == [2, 1] && {} + {0} == {0};
    run, events := Then(run, events, CopyIn(0, 0), Midway(WRITTEN, [2, 1], [2, 2], {0}));
  }

  /** and dies. */
  lemma Dies() returns (run: seq<State>, events: seq<Event>)
    ensures IsRun(run, events) && run[|events|] == AFTER
  {
    run, events := CopiesOne();
    assert WRITTEN.log + [Torn([2, 2], {0})] == TORN.log && ZEROS - {0} == map[];
    assert LocksWithout(map[0 := 0], 0) == map[];
    run, events := Then(run, events, Die(0), AFTER);
  }

  /** Participant 1 opens the name, */
  lemma Reopens() returns (run: seq<State>, events: seq<Event>)
    ensures IsRun(run, events) && run[|events|] == Inside(TORN, Nothing)
  {
    run, events := Dies();
    run, events := Then(run, events, ShmOpen(1, 2, 0), Second(map[], TORN, map[], Found(0, 2)));
    run, events := Then(run, events, LockRegion(1, 0), Second(map[0 := 1], TORN, map[], Found(0, 2)));
    run, events := Then(run, events, Truncate(1, 14), Second(map[0 := 1], TORN, map[], Sized(0, 2)));
    run, events := Then(run, events, CheckHeader(1), Inside(TORN, Nothing));
  }

  /** copies both bytes out, */
  lemma Gathers() returns (run: seq<State>, events: seq<Event>)
    ensures IsRun(run, events) && run[|events|] == Inside(TORN, Reading(0, 2, map[0 := 2, 1 := 1]))
  {
    run, events := Reopens();
    run, events := Then(run, events, BeginRead(1, 2), Inside(TORN, Reading(0, 2, map[])));
    run, events := Then(run, events, CopyOut(1, 0), Inside(TORN, Reading(0, 2, map[0 := 2])));
    run, events := Then(run, events, CopyOut(1, 1), Inside(TORN, Reading(0, 2, map[0 := 2, 1 := 1])));
  }

  /** and so reads what neither write wrote. */
  lemma TornValueRead() returns (run: seq<State>, events: seq<Event>)
    ensures IsRun(run, events) && 0 in run[|events|].regions
    ensures run[|events|].regions[0].log == [Wrote([1, 1]), Torn([2, 2], {0}), Read([2, 1])]
  {
    run, events := Gathers();
    assert Bytes(2, map[0 := 2, 1 := 1]) == [2, 1];
    run, events := Then(run, events, FinishRead(1), Inside(TORN.(log := TORN.log + [Read([2, 1])]), Nothing));
  }
}
