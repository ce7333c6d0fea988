/**
 Delta replication as the protobuf benchmark does it: each tick the server sends each client a patch
 of its own ship and of every other ship against the tick two before, and the client applies it to
 that tick's frame in a ring of 32.

 The ring first, for any way of making and applying patches that keeps its law.
 */
module ReplicationRing {
  import opened Basics

  const WINDOW := 32
  const LAG := 2

  /**
   How one ship is sent and shown: a patch against an earlier state of it (or none, where the client
   has none) when something changed, applied to what the client showed then.
   */
  datatype Channel<!S, !P, !V> = Channel(
    diff: (Option<S>, S) -> Option<P>, apply: (V, P) -> V, blank: V, zero: S, shows: (V, S) -> bool)
  {
    function Patched(v: V, p: Option<P>): V { if p.None? then v else apply(v, p.value) }

    function Base(base: Option<S>): S { if base.None? then zero else base.value }
  }

  /** A patch brings a view of its base to a view of what it was made from. */
  ghost predicate Lawful<S(!new), P, V(!new)>(c: Channel<S, P, V>) {
    && c.shows(c.blank, c.zero)
    && forall v: V, base: Option<S>, cur: S ::
        c.shows(v, c.Base(base)) ==> c.shows(c.Patched(v, c.diff(base, cur)), cur)
  }

  /** The recorded ticks: every ship at every tick. */
  ghost predicate Rectangular<S>(ticks: seq<seq<S>>, ships: nat) { forall t | 0 <= t < |ticks| :: |ticks[t]| == ships }

  function BaseAt<S>(ticks: seq<seq<S>>, t: nat, i: nat): Option<S>
    requires t < |ticks| && (t >= LAG ==> i < |ticks[t - LAG]|)
  {
    if t < LAG then None else Some(ticks[t - LAG][i])
  }

  datatype Message<OP, P> = Message(tick: nat, base: int, own: Option<OP>, ships: map<int, P>)

  /** The sending half of a tick: a patch for each of the first `n` ships that changed, but the client's own. */
  function Ships<S, P, V>(c: Channel<S, P, V>, ticks: seq<seq<S>>, t: nat, o: nat, n: nat): map<int, P>
    requires t < |ticks| && n <= |ticks[t]| && (t >= LAG ==> n <= |ticks[t - LAG]|)
  {
    if n == 0 then map[]
    else
      var before := Ships(c, ticks, t, o, n - 1);
      var p := c.diff(BaseAt(ticks, t, n - 1), ticks[t][n - 1]);
      if n - 1 == o || p.None? then before else before[n := p.value]
  }

  function Get<P>(m: map<int, P>, k: int): Option<P> { if k in m then Some(m[k]) else None }

  lemma {:induction false} ShipsHave<S, P, V>(c: Channel<S, P, V>, ticks: seq<seq<S>>, t: nat, o: nat, n: nat, k: nat)
    requires t < |ticks| && n <= |ticks[t]| && (t >= LAG ==> n <= |ticks[t - LAG]|)
    ensures k < n && k != o ==> Get(Ships(c, ticks, t, o, n), k + 1) == c.diff(BaseAt(ticks, t, k), ticks[t][k])
    ensures !(k < n) ==> k + 1 !in Ships(c, ticks, t, o, n)
  {
    if n > 0 {
      ShipsHave(c, ticks, t, o, n - 1, k);
    }
  }

  /** The first `n` ships are in the frame, each under its number, from 1, but the client's own. */
  ghost predicate FrameShows<S, P, V>(c: Channel<S, P, V>, frame: map<int, V>, ships: seq<S>, n: nat, o: nat)
    requires n <= |ships|
  {
    forall k | 1 <= k <= n && k != o + 1 :: k in frame && c.shows(frame[k], ships[k - 1])
  }

  /** Ticks fewer than 32 apart have different slots. */
  lemma SlotsDiffer(j: nat, t: nat)
    requires j < t < j + WINDOW
    ensures j % WINDOW != t % WINDOW
  {
  }

  class Client<!S(!new), !OP, !OV(!new), !P, !V(!new)> {
    const mine: Channel<S, OP, OV>
    const others: Channel<S, P, V>
    const own: array<OV>
    const frames: array<map<int, V>>

    ghost predicate Valid()
      reads this
    {
      && own.Length == WINDOW && frames.Length == WINDOW && own as object != frames as object
      && Lawful(mine) && Lawful(others)
    }

    constructor (mine: Channel<S, OP, OV>, others: Channel<S, P, V>)
      requires Lawful(mine) && Lawful(others)
      ensures Valid() && fresh(own) && fresh(frames) && this.mine == mine && this.others == others
    {
      this.mine, this.others := mine, others;
      own := new OV[WINDOW](_ => mine.blank);
      frames := new map<int, V>[WINDOW](_ => map[]);
    }

    /** Slot `t mod 32` shows tick `t`: the client's own ship and all the others. */
    ghost predicate Shows(ticks: seq<seq<S>>, t: nat, o: nat)
      requires Valid() && t < |ticks| && o < |ticks[t]|
      reads this, own, frames
    {
      mine.shows(own[t % WINDOW], ticks[t][o]) && FrameShows(others, frames[t % WINDOW], ticks[t], |ticks[t]|, o)
    }

    /** The reading half of a tick: the message for tick `t` applied over its base's slot. */
    method Receive(ghost ticks: seq<seq<S>>, ghost t: nat, o: nat, n: nat, m: Message<OP, P>)
      requires Valid() && Rectangular(ticks, n) && t < |ticks| && o < n
      requires m == Message(t, t - LAG, mine.diff(BaseAt(ticks, t, o), ticks[t][o]), Ships(others, ticks, t, o, n))
      requires t >= LAG ==> Shows(ticks, t - LAG, o)
      modifies own, frames
      ensures Shows(ticks, t, o)
      ensures forall j | 0 <= j < t < j + WINDOW && old(Shows(ticks, j, o)) :: Shows(ticks, j, o)
    {
      var full := m.base < 0;
      var into := m.tick % WINDOW;
      var from := if full then None else Some(frames[m.base % WINDOW]);
      var fromOwn := if full then mine.blank else own[m.base % WINDOW];
      assert mine.shows(fromOwn, mine.Base(BaseAt(ticks, t, o)));
      var now := mine.Patched(fromOwn, m.own);
      assert mine.shows(now, ticks[t][o]);
      own[into] := now;
      var frame := ApplyFrame(frames[into], from, m.ships, ticks, t, o, n);
      frames[into] := frame;
      forall j | 0 <= j < t < j + WINDOW && old(Shows(ticks, j, o)) ensures Shows(ticks, j, o) {
        SlotsDiffer(j, t);
      }
    }

    /** The other ships, one after another, into the frame. */
    method ApplyFrame(into: map<int, V>, from: Option<map<int, V>>, ships: map<int, P>,
                      ghost ticks: seq<seq<S>>, ghost t: nat, o: nat, n: nat) returns (frame: map<int, V>)
      requires Valid() && Rectangular(ticks, n) && t < |ticks|
      requires ships == Ships(others, ticks, t, o, n) && (from.Some? <==> t >= LAG)
      requires from.Some? ==> FrameShows(others, from.value, ticks[t - LAG], n, o)
      ensures FrameShows(others, frame, ticks[t], n, o)
    {
      frame := into;
      for i := 0 to n
        invariant FrameShows(others, frame, ticks[t], i, o)
      {
        if i == o {
          continue;
        }
        var key := i + 1;
        var v := if key in frame then frame[key] else others.blank;
        if from.Some? {
          if key in from.value {
            v := from.value[key];
          }
        } else {
          v := others.blank;
        }
        assert others.shows(v, others.Base(BaseAt(ticks, t, i)));
        ShipsHave(others, ticks, t, o, n, i);
        if key in ships {
          v := others.apply(v, ships[key]);
        }
        frame := frame[key := v];
      }
    }

    /**
     Every tick sent and received in turn: after each, the ring holds the last 32 of them, every one
     as the server had it.
     */
    method Replay(ticks: seq<seq<S>>, count: nat, o: nat, n: nat)
      requires Valid() && Rectangular(ticks, n) && count <= |ticks| && o < n
      modifies own, frames
      ensures forall j | 0 <= j < count && count <= j + WINDOW :: Shows(ticks, j, o)
    {
      for t := 0 to count
        invariant forall j | 0 <= j < t && t <= j + WINDOW :: Shows(ticks, j, o)
      {
        var m := Message(t, t - LAG, mine.diff(BaseAt(ticks, t, o), ticks[t][o]), Ships(others, ticks, t, o, n));
        Receive(ticks, t, o, n, m);
      }
    }
  }
}

/** The benchmark's ships, and its patches of them. */
module Replication {
  import opened Basics
  import opened ReplicationRing

  /** A floating-point number, told apart as far as its comparisons can. */
  datatype Float = NaN(payload: nat) | Zero(negative: bool) | Number(value: real) | Infinity(negative: bool)

  /** Go's == on floats: a NaN equals nothing, and the two zeros are equal. */
  predicate Equal(a: Float, b: Float) {
    match (a, b)
    case (NaN(_), _) => false
    case (Zero(_), Zero(_)) => true
    case _ => a == b
  }

  /** sameF64, and sameF32 of what rounding leaves: equal, or neither a number. */
  predicate Same(a: Float, b: Float) {
    Equal(a, b) || (!Equal(a, a) && !Equal(b, b))
  }

  lemma SameIsEquivalence(a: Float, b: Float, c: Float)
    ensures Same(a, a)
    ensures Same(a, b) ==> Same(b, a)
    ensures Same(a, b) && Same(b, c) ==> Same(a, c)
  {
  }

  const ZERO := Zero(false)

  /** The fields other ships are shown, then those only a ship's own player is. */
  datatype Ship = Ship(
    x: Float, y: Float, vx: Float, vy: Float, engineHeat: Float,
    aimSteps: nat, controls: nat, engineLocked: bool,
    energy: Float, reactorHeat: Float, dragTimer: Float, fireCooldown: Float, lastSeq: nat)

  const NO_SHIP := Ship(ZERO, ZERO, ZERO, ZERO, ZERO, 0, 0, false, ZERO, ZERO, ZERO, ZERO, 0)

  /** A proto3 message with every field optional. */
  datatype OwnPatch = OwnPatch(
    x: Option<Float>, y: Option<Float>, vx: Option<Float>, vy: Option<Float>, engineHeat: Option<Float>,
    aimSteps: Option<nat>, controls: Option<nat>, engineLocked: Option<bool>,
    energy: Option<Float>, reactorHeat: Option<Float>, dragTimer: Option<Float>, fireCooldown: Option<Float>,
    lastSeq: Option<nat>)

  datatype ShipPatch = ShipPatch(
    x: Option<Float>, y: Option<Float>, vx: Option<Float>, vy: Option<Float>, engineHeat: Option<Float>,
    aimSteps: Option<nat>, controls: Option<nat>, engineLocked: Option<bool>)

  const NO_CHANGE := ShipPatch(None, None, None, None, None, None, None, None)

  type OwnView = Ship

  datatype View = View(
    x: Float, y: Float, vx: Float, vy: Float, engineHeat: Float, aimSteps: nat, controls: nat, engineLocked: bool)

  const NO_VIEW := View(ZERO, ZERO, ZERO, ZERO, ZERO, 0, 0, false)

  /** How a double is rounded to single precision: any function will do that keeps zero zero. */
  type Rounding = f: Float -> Float | Same(ZERO, f(ZERO)) witness x => x

  function Changed<T(==)>(a: T, b: T): Option<T> { if a == b then None else Some(b) }

  function ChangedF(a: Float, b: Float): Option<Float> { if Same(a, b) then None else Some(b) }

  function Over<T>(was: T, sent: Option<T>): T { if sent.Some? then sent.value else was }

  /** ownPatch, against `base`, or against a ship of zeros for a client with none. */
  function OwnPatchOf(base: Option<Ship>, cur: Ship): OwnPatch {
    var b := if base.Some? then base.value else NO_SHIP;
    OwnPatch(ChangedF(b.x, cur.x), ChangedF(b.y, cur.y), ChangedF(b.vx, cur.vx), ChangedF(b.vy, cur.vy),
             ChangedF(b.engineHeat, cur.engineHeat),
             Changed(b.aimSteps, cur.aimSteps), Changed(b.controls, cur.controls),
             Changed(b.engineLocked, cur.engineLocked),
             ChangedF(b.energy, cur.energy), ChangedF(b.reactorHeat, cur.reactorHeat),
             ChangedF(b.dragTimer, cur.dragTimer),
             ChangedF(b.fireCooldown, cur.fireCooldown), Changed(b.lastSeq, cur.lastSeq))
  }

  /** shipPatch: at single precision, and nothing at all when nothing changed. */
  function ShipPatchOf(base: Option<Ship>, cur: Ship, single: Rounding): Option<ShipPatch> {
    var b := if base.Some? then base.value else NO_SHIP;
    var p := ShipPatch(
      ChangedF(single(b.x), single(cur.x)), ChangedF(single(b.y), single(cur.y)),
      ChangedF(single(b.vx), single(cur.vx)), ChangedF(single(b.vy), single(cur.vy)),
      ChangedF(single(b.engineHeat), single(cur.engineHeat)),
      Changed(b.aimSteps, cur.aimSteps), Changed(b.controls, cur.controls), Changed(b.engineLocked, cur.engineLocked));
    if p == NO_CHANGE then None else Some(p)
  }

  /** applyOwn */
  function ApplyOwn(from: OwnView, p: OwnPatch): OwnView {
    Ship(Over(from.x, p.x), Over(from.y, p.y), Over(from.vx, p.vx), Over(from.vy, p.vy),
         Over(from.engineHeat, p.engineHeat),
         Over(from.aimSteps, p.aimSteps), Over(from.controls, p.controls), Over(from.engineLocked, p.engineLocked),
         Over(from.energy, p.energy), Over(from.reactorHeat, p.reactorHeat), Over(from.dragTimer, p.dragTimer),
         Over(from.fireCooldown, p.fireCooldown), Over(from.lastSeq, p.lastSeq))
  }

  /** applyShip */
  function ApplyShip(from: View, p: ShipPatch): View {
    View(Over(from.x, p.x), Over(from.y, p.y), Over(from.vx, p.vx), Over(from.vy, p.vy),
         Over(from.engineHeat, p.engineHeat),
         Over(from.aimSteps, p.aimSteps), Over(from.controls, p.controls), Over(from.engineLocked, p.engineLocked))
  }

  // ---------- what a view should show ----------

  /** Field for field the same, as the code compares fields. */
  predicate OwnMatches(v: OwnView, s: Ship) {
    && Same(v.x, s.x) && Same(v.y, s.y) && Same(v.vx, s.vx) && Same(v.vy, s.vy) && Same(v.engineHeat, s.engineHeat)
    && Same(v.energy, s.energy) && Same(v.reactorHeat, s.reactorHeat) && Same(v.dragTimer, s.dragTimer)
    && Same(v.fireCooldown, s.fireCooldown)
    && v.aimSteps == s.aimSteps && v.controls == s.controls && v.engineLocked == s.engineLocked
    && v.lastSeq == s.lastSeq
  }

  predicate Matches(v: View, s: Ship, single: Rounding) {
    && Same(v.x, single(s.x)) && Same(v.y, single(s.y)) && Same(v.vx, single(s.vx)) && Same(v.vy, single(s.vy))
    && Same(v.engineHeat, single(s.engineHeat))
    && v.aimSteps == s.aimSteps && v.controls == s.controls && v.engineLocked == s.engineLocked
  }

  /** One field: shown as the base's was, and patched if it changed, it shows what it is now. */
  lemma FieldApplies(v: Float, base: Float, cur: Float)
    requires Same(v, base)
    ensures Same(Over(v, ChangedF(base, cur)), cur)
  {
    SameIsEquivalence(v, base, cur);
    SameIsEquivalence(cur, cur, cur);
  }

  lemma OwnPatchApplies(v: OwnView, base: Option<Ship>, cur: Ship)
    requires OwnMatches(v, if base.Some? then base.value else NO_SHIP)
    ensures OwnMatches(ApplyOwn(v, OwnPatchOf(base, cur)), cur)
  {
    var b := if base.Some? then base.value else NO_SHIP;
    FieldApplies(v.x, b.x, cur.x);
    FieldApplies(v.y, b.y, cur.y);
    FieldApplies(v.vx, b.vx, cur.vx);
    FieldApplies(v.vy, b.vy, cur.vy);
    FieldApplies(v.engineHeat, b.engineHeat, cur.engineHeat);
    FieldApplies(v.energy, b.energy, cur.energy);
    FieldApplies(v.reactorHeat, b.reactorHeat, cur.reactorHeat);
    FieldApplies(v.dragTimer, b.dragTimer, cur.dragTimer);
    FieldApplies(v.fireCooldown, b.fireCooldown, cur.fireCooldown);
  }

  lemma ShipPatchApplies(v: View, base: Option<Ship>, cur: Ship, single: Rounding)
    requires Matches(v, if base.Some? then base.value else NO_SHIP, single)
    ensures ShipPatchOf(base, cur, single).None? ==> Matches(v, cur, single)
    ensures ShipPatchOf(base, cur, single).Some? ==>
              Matches(ApplyShip(v, ShipPatchOf(base, cur, single).value), cur, single)
  {
    var b := if base.Some? then base.value else NO_SHIP;
    FieldApplies(v.x, single(b.x), single(cur.x));
    FieldApplies(v.y, single(b.y), single(cur.y));
    FieldApplies(v.vx, single(b.vx), single(cur.vx));
    FieldApplies(v.vy, single(b.vy), single(cur.vy));
    FieldApplies(v.engineHeat, single(b.engineHeat), single(cur.engineHeat));
  }

  // ---------- the two channels, and the whole run ----------

  function OwnChannel(): Channel<Ship, OwnPatch, OwnView> {
    Channel((base, cur) => Some(OwnPatchOf(base, cur)), ApplyOwn, NO_SHIP, NO_SHIP, OwnMatches)
  }

  function ShipChannel(single: Rounding): Channel<Ship, ShipPatch, View> {
    Channel((base, cur) => ShipPatchOf(base, cur, single), ApplyShip, NO_VIEW, NO_SHIP, (v, s) => Matches(v, s, single))
  }

  lemma OwnChannelIsLawful()
    ensures Lawful(OwnChannel())
  {
    var c := OwnChannel();
    forall v: OwnView, base: Option<Ship>, cur: Ship | c.shows(v, c.Base(base))
      ensures c.shows(c.Patched(v, c.diff(base, cur)), cur)
    {
      OwnPatchApplies(v, base, cur);
    }
  }

  lemma ShipChannelIsLawful(single: Rounding)
    ensures Lawful(ShipChannel(single))
  {
    var c := ShipChannel(single);
    forall v: View, base: Option<Ship>, cur: Ship | c.shows(v, c.Base(base))
      ensures c.shows(c.Patched(v, c.diff(base, cur)), cur)
    {
      ShipPatchApplies(v, base, cur, single);
    }
  }

  /** Tick `j` as client `o`'s ring shows it: its own ship, and every other under its number. */
  ghost predicate TickShown(own: OwnView, frame: map<int, View>, ships: seq<Ship>, o: nat, single: Rounding)
    requires o < |ships|
  {
    && OwnMatches(own, ships[o])
    && forall k | 1 <= k <= |ships| && k != o + 1 :: k in frame && Matches(frame[k], ships[k - 1], single)
  }

  lemma FrameIsShown(frame: map<int, View>, ships: seq<Ship>, o: nat, single: Rounding)
    requires o < |ships| && FrameShows(ShipChannel(single), frame, ships, |ships|, o)
    ensures forall k | 1 <= k <= |ships| && k != o + 1 :: k in frame && Matches(frame[k], ships[k - 1], single)
  {
    forall k | 1 <= k <= |ships| && k != o + 1 ensures k in frame && Matches(frame[k], ships[k - 1], single) {
      assert ShipChannel(single).shows(frame[k], ships[k - 1]);
    }
  }

  /**
   A client that starts with nothing and receives every tick of a trace ends with the last 32 ticks
   in its ring, its own ship and all the others as the server had them, field for field.
   */
  method Bench(ticks: seq<seq<Ship>>, o: nat, n: nat, single: Rounding)
    returns (own: seq<OwnView>, frames: seq<map<int, View>>)
    requires Rectangular(ticks, n) && o < n
    ensures |own| == |frames| == WINDOW
    ensures forall j | 0 <= j < |ticks| && |ticks| <= j + WINDOW ::
              TickShown(own[j % WINDOW], frames[j % WINDOW], ticks[j], o, single)
  {
    OwnChannelIsLawful();
    ShipChannelIsLawful(single);
    var c := new Client(OwnChannel(), ShipChannel(single));
    c.Replay(ticks, |ticks|, o, n);
    own, frames := c.own[..], c.frames[..];
    forall j | 0 <= j < |ticks| && |ticks| <= j + WINDOW
      ensures TickShown(own[j % WINDOW], frames[j % WINDOW], ticks[j], o, single)
    {
      assert c.Shows(ticks, j, o);
      FrameIsShown(frames[j % WINDOW], ticks[j], o, single);
    }
  }
}
