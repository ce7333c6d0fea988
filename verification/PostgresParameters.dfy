/**
 The parameter block: encodeParameters' writer, and parseParameters' reader of whatever bytes it is
 handed, which copies each value into one arena, followed by a NUL.
 */
module PostgresParameters {
  import opened Basics
  import opened PostgresInts

  type Text = seq<byte>

  /** One parameter as it lies in a block: any negative length is SQL NULL, and no bytes follow. */
  datatype Raw = Raw(format: int32, length: int32, bytes: Text) {
    predicate Valid() { |bytes| == if length < 0 then 0 else length }
  }

  function EncodeRaw(raws: seq<Raw>, rest: Text): Text {
    if raws == [] then rest
    else Little(raws[0].format) + (Little(raws[0].length) + (raws[0].bytes + EncodeRaw(raws[1..], rest)))
  }

  /** A block: how many parameters, each of them, and whatever follows. */
  function Encode(raws: seq<Raw>, rest: Text): Text
    requires |raws| < TWO_TO_31
  {
    Little(|raws|) + EncodeRaw(raws, rest)
  }

  ghost predicate AllValid(raws: seq<Raw>) { forall i | 0 <= i < |raws| :: raws[i].Valid() }

  /** The block starts with a well-formed encoding. */
  ghost predicate WellFormed(block: Text) {
    exists raws, rest :: Encodes(block, raws, rest)
  }

  ghost predicate Encodes(block: Text, raws: seq<Raw>, rest: Text) {
    |raws| < TWO_TO_31 && AllValid(raws) && block == Encode(raws, rest)
  }

  // ---------- the reader, on values ----------

  function ReadRaw(s: Text): (r: Option<(Raw, Text)>)
    ensures r.Some? ==> r.value.0.Valid() && |r.value.1| <= |s| - 8
  {
    match TakeInt(s)
    case None => None
    case Some((format, s1)) =>
      match TakeInt(s1)
      case None => None
      case Some((length, s2)) =>
        if length < 0 then Some((Raw(format, length, []), s2))
        else if length > |s2| then None
        else Some((Raw(format, length, s2[..length]), s2[length..]))
  }

  function ReadRaws(s: Text, count: nat): (r: Option<seq<Raw>>)
    ensures r.Some? ==> |r.value| == count && 8 * count <= |s|
  {
    if count == 0 then Some([])
    else match ReadRaw(s)
      case None => None
      case Some((raw, rest)) =>
        match ReadRaws(rest, count - 1)
        case None => None
        case Some(raws) => Some([raw] + raws)
  }

  function ReadBlock(block: Text): Option<seq<Raw>> {
    match TakeInt(block)
    case None => None
    case Some((count, s)) => if count < 0 then None else ReadRaws(s, count)
  }

  lemma RawRead(raw: Raw, rest: Text)
    requires raw.Valid()
    ensures ReadRaw(Little(raw.format) + (Little(raw.length) + (raw.bytes + rest))) == Some((raw, rest))
  {
    TakeLittle(raw.format, Little(raw.length) + (raw.bytes + rest));
    TakeLittle(raw.length, raw.bytes + rest);
    assert (raw.bytes + rest)[..|raw.bytes|] == raw.bytes && (raw.bytes + rest)[|raw.bytes|..] == rest;
    assert raw.length < 0 ==> raw.bytes + rest == rest;
  }

  lemma {:induction false} RawsRead(raws: seq<Raw>, rest: Text)
    requires AllValid(raws)
    ensures ReadRaws(EncodeRaw(raws, rest), |raws|) == Some(raws)
  {
    if raws != [] {
      RawRead(raws[0], EncodeRaw(raws[1..], rest));
      RawsRead(raws[1..], rest);
      assert [raws[0]] + raws[1..] == raws;
    }
  }

  lemma RawIs(s: Text)
    requires ReadRaw(s).Some?
    ensures var (raw, rest) := ReadRaw(s).value; s == Little(raw.format) + (Little(raw.length) + (raw.bytes + rest))
  {
    TakenFromTheFront(s);
    var s1 := TakeInt(s).value.1;
    TakenFromTheFront(s1);
    var (length, s2) := TakeInt(s1).value;
    assert s2 == if length < 0 then [] + s2 else s2[..length] + s2[length..];
  }

  lemma {:induction false} RawsAre(s: Text, count: nat) returns (rest: Text)
    requires ReadRaws(s, count).Some?
    ensures AllValid(ReadRaws(s, count).value) && s == EncodeRaw(ReadRaws(s, count).value, rest)
  {
    if count == 0 {
      rest := s;
    } else {
      RawIs(s);
      var (raw, more) := ReadRaw(s).value;
      rest := RawsAre(more, count - 1);
      var raws := ReadRaws(s, count).value;
      assert raws[1..] == ReadRaws(more, count - 1).value;
    }
  }

  /** What is read is exactly what is encoded: a block is refused just when it starts with no encoding. */
  lemma ReadsExactly(block: Text)
    ensures ReadBlock(block).Some? <==> WellFormed(block)
    ensures forall raws, rest | Encodes(block, raws, rest) :: ReadBlock(block) == Some(raws)
  {
    forall raws, rest | Encodes(block, raws, rest) ensures ReadBlock(block) == Some(raws) {
      TakeLittle(|raws|, EncodeRaw(raws, rest));
      RawsRead(raws, rest);
    }
    if ReadBlock(block).Some? {
      TakenFromTheFront(block);
      var (count, s) := TakeInt(block).value;
      var rest := RawsAre(s, count);
      assert Encodes(block, ReadBlock(block).value, rest);
    }
  }

  // ---------- the Haxe writer ----------

  datatype Parameter = Null | TextValue(bytes: Text) | Binary(bytes: Text)

  predicate Fits(p: Parameter) { p.Null? || |p.bytes| < TWO_TO_31 }

  function RawOf(p: Parameter): (r: Raw)
    requires Fits(p)
    ensures r.Valid()
  {
    match p
    case Null => Raw(0, -1, [])
    case TextValue(b) => Raw(0, |b|, b)
    case Binary(b) => Raw(1, |b|, b)
  }

  function RawsOf(ps: seq<Parameter>): (r: seq<Raw>)
    requires forall i | 0 <= i < |ps| :: Fits(ps[i])
    ensures |r| == |ps| && AllValid(r)
    ensures forall i | 0 <= i < |ps| :: r[i] == RawOf(ps[i])
  {
    seq(|ps|, (i: nat) requires i < |ps| => RawOf(ps[i]))
  }

  /** What reaches libpq of a parameter: its format, 0 or 1, and its bytes, or none for SQL NULL. */
  function Bound(r: Raw): (int, Option<Text>) {
    (if r.format == 1 then 1 else 0, if r.length < 0 then None else Some(r.bytes))
  }

  /** Every list of parameters is read back: text and binary, empty and NULL told apart. */
  lemma ParametersRoundTrip(ps: seq<Parameter>, rest: Text)
    requires |ps| < TWO_TO_31 && forall i | 0 <= i < |ps| :: Fits(ps[i])
    ensures ReadBlock(Encode(RawsOf(ps), rest)) == Some(RawsOf(ps))
    ensures forall i | 0 <= i < |ps| :: Bound(RawsOf(ps)[i]) ==
              (if ps[i].Binary? then 1 else 0, if ps[i].Null? then None else Some(ps[i].bytes))
  {
    ReadsExactly(Encode(RawsOf(ps), rest));
    assert Encodes(Encode(RawsOf(ps), rest), RawsOf(ps), rest);
  }

  // ---------- parseParameters ----------

  /** The native arena and what libpq is given with it; `values` are offsets into it, None for a null pointer. */
  datatype Parameters = Parameters(
    arena: Text, offsets: seq<nat>, lengths: seq<int>, formats: seq<int>, values: seq<Option<nat>>)

  /** Parameter `i` is `raw`, NUL-terminated in its own slice of the arena, or a null pointer. */
  predicate Holds(arena: Text, offset: nat, length: int, format: int, isNull: bool, raw: Raw) {
    && format == Bound(raw).0 && isNull == (raw.length < 0)
    && (!isNull ==> length == |raw.bytes| && offset + length < |arena| &&
                    arena[offset..offset + length] == raw.bytes && arena[offset + length] == 0)
  }

  /** Every value has its own bytes of the arena, before those of the values after it. */
  predicate Apart(offsets: seq<nat>, lengths: seq<int>, nulls: seq<bool>)
    requires |offsets| == |lengths| == |nulls|
  {
    forall i, j | 0 <= i < j < |offsets| && !nulls[i] && !nulls[j] :: offsets[i] + lengths[i] < offsets[j]
  }

  method TakeIntAt(block: Text, cursor: nat) returns (ok: bool, value: int32, next: nat)
    requires cursor <= |block|
    ensures ok <==> TakeInt(block[cursor..]).Some?
    ensures ok ==> next == cursor + 4 <= |block| && TakeInt(block[cursor..]) == Some((value, block[next..]))
  {
    if |block| - cursor < 4 {
      return false, 0, cursor;
    }
    value := Signed(FromLittle(block[cursor..cursor + 4]));
    next := cursor + 4;
    ok := true;
    assert block[cursor..][..4] == block[cursor..next] && block[cursor..][4..] == block[next..];
  }

  /** One parameter's header and value: never past the end of the block, and refused if it would be. */
  method TakeRaw(block: Text, cursor: nat) returns (ok: bool, format: int32, length: int32, start: nat, next: nat)
    requires cursor <= |block| < TWO_TO_31
    ensures ok <==> ReadRaw(block[cursor..]).Some?
    ensures ok ==> start <= next <= |block| && start == cursor + 8 &&
                   ReadRaw(block[cursor..]) == Some((Raw(format, length, block[start..next]), block[next..]))
  {
    length, start, next := 0, cursor, cursor;
    ok, format, start := TakeIntAt(block, cursor);
    if !ok {
      return;
    }
    ok, length, start := TakeIntAt(block, start);
    next := start;
    if !ok || length < 0 {
      assert ok ==> block[start..start] == [];
      return;
    }
    if length > |block| - start {
      return false, format, length, start, start;
    }
    next := start + length;
    assert block[start..][..length] == block[start..next] && block[start..][length..] == block[next..];
  }

  /** What has been read of a block, as parseParameters keeps it: the arena, and a slot for each parameter. */
  datatype Slots = Slots(offsets: seq<nat>, lengths: seq<int>, formats: seq<int>, nulls: seq<bool>) {
    predicate Size(n: nat) { |offsets| == |lengths| == |formats| == |nulls| == n }

    /** The first |raws| slots hold those parameters. */
    predicate Hold(arena: Text, raws: seq<Raw>)
      requires Size(|offsets|) && |raws| <= |offsets|
    {
      forall k | 0 <= k < |raws| :: Holds(arena, offsets[k], lengths[k], formats[k], nulls[k], raws[k])
    }

    predicate ApartUpTo(n: nat)
      requires Size(|offsets|) && n <= |offsets|
    {
      Apart(offsets[..n], lengths[..n], nulls[..n])
    }
  }

  /** Slots whose first entries are as they were hold what they held, in an arena grown at its end. */
  lemma StillHold(slots: Slots, arena: Text, raws: seq<Raw>, r: Slots, grown: Text)
    requires slots.Size(|slots.offsets|) && r.Size(|slots.offsets|) && |raws| <= |slots.offsets|
    requires slots.Hold(arena, raws) && arena <= grown
    requires forall k | 0 <= k < |raws| :: r.offsets[k] == slots.offsets[k] && r.lengths[k] == slots.lengths[k]
    requires forall k | 0 <= k < |raws| :: r.formats[k] == slots.formats[k] && r.nulls[k] == slots.nulls[k]
    ensures r.Hold(grown, raws)
  {
    forall k | 0 <= k < |raws| ensures Holds(grown, r.offsets[k], r.lengths[k], r.formats[k], r.nulls[k], raws[k]) {
      assert Holds(arena, slots.offsets[k], slots.lengths[k], slots.formats[k], slots.nulls[k], raws[k]);
      if raws[k].length >= 0 {
        assert grown[r.offsets[k]..r.offsets[k] + r.lengths[k]] == arena[r.offsets[k]..r.offsets[k] + r.lengths[k]];
      }
    }
  }

  /** One slot more, which is NULL or starts at the end of the arena. */
  lemma StillApart(slots: Slots, arena: Text, raws: seq<Raw>, r: Slots)
    requires Kept(slots, arena, raws) && |raws| < |slots.offsets| && r.Size(|slots.offsets|)
    requires forall k | 0 <= k < |raws| :: r.offsets[k] == slots.offsets[k] && r.lengths[k] == slots.lengths[k]
    requires forall k | 0 <= k < |raws| :: r.nulls[k] == slots.nulls[k]
    requires r.nulls[|raws|] || r.offsets[|raws|] == |arena|
    ensures r.ApartUpTo(|raws| + 1)
  {
    var i := |raws|;
    forall x, y | 0 <= x < y < i + 1 && !r.nulls[x] && !r.nulls[y] ensures r.offsets[x] + r.lengths[x] < r.offsets[y] {
      assert Holds(arena, slots.offsets[x], slots.lengths[x], slots.formats[x], slots.nulls[x], raws[x]);
      if y < i {
        assert slots.offsets[..i][x] + slots.lengths[..i][x] < slots.offsets[..i][y];
      }
    }
  }

  /** Stores parameter `i`, whose value goes at the end of the arena. */
  method Store(slots: Slots, arena: Text, i: nat, raw: Raw, ghost raws: seq<Raw>) returns (r: Slots, grown: Text)
    requires Kept(slots, arena, raws) && |raws| == i < |slots.offsets| && raw.Valid()
    ensures Kept(r, grown, raws + [raw]) && |r.offsets| == |slots.offsets|
    ensures |grown| == |arena| + if raw.length < 0 then 0 else |raw.bytes| + 1
  {
    var format := if raw.format == 1 then 1 else 0;
    if raw.length < 0 {
      r, grown := slots.(formats := slots.formats[i := format], nulls := slots.nulls[i := true]), arena;
    } else {
      grown := arena + raw.bytes + [0];
      r := Slots(slots.offsets[i := |arena|], slots.lengths[i := raw.length], slots.formats[i := format],
                 slots.nulls[i := false]);
      assert grown[|arena|..|arena| + |raw.bytes|] == raw.bytes;
    }
    KeptOneMore(slots, arena, raws, raw, r, grown);
  }

  lemma KeptOneMore(slots: Slots, arena: Text, raws: seq<Raw>, raw: Raw, r: Slots, grown: Text)
    requires Kept(slots, arena, raws) && |raws| < |slots.offsets| && r.Size(|slots.offsets|) && arena <= grown
    requires forall k | 0 <= k < |raws| :: r.offsets[k] == slots.offsets[k] && r.lengths[k] == slots.lengths[k]
    requires forall k | 0 <= k < |raws| :: r.formats[k] == slots.formats[k] && r.nulls[k] == slots.nulls[k]
    requires var i := |raws|; Holds(grown, r.offsets[i], r.lengths[i], r.formats[i], r.nulls[i], raw)
    requires r.nulls[|raws|] || r.offsets[|raws|] == |arena|
    ensures Kept(r, grown, raws + [raw])
  {
    StillHold(slots, arena, raws, r, grown);
    StillApart(slots, arena, raws, r);
    HoldsOneMore(r, grown, raws, raw);
  }

  lemma HoldsOneMore(r: Slots, arena: Text, raws: seq<Raw>, raw: Raw)
    requires r.Size(|r.offsets|) && |raws| < |r.offsets| && r.Hold(arena, raws)
    requires var i := |raws|; Holds(arena, r.offsets[i], r.lengths[i], r.formats[i], r.nulls[i], raw)
    ensures r.Hold(arena, raws + [raw])
  {
  }

  ghost predicate Kept(slots: Slots, arena: Text, raws: seq<Raw>) {
    && slots.Size(|slots.offsets|) && |raws| <= |slots.offsets|
    && slots.Hold(arena, raws) && slots.ApartUpTo(|raws|)
  }

  method ReadSlots(block: Text, first: nat, n: nat) returns (arena: Text, slots: Option<Slots>)
    requires first <= |block| < TWO_TO_31
    ensures slots.Some? <==> ReadRaws(block[first..], n).Some?
    ensures slots.Some? ==> |slots.value.offsets| == n && Kept(slots.value, arena, ReadRaws(block[first..], n).value)
    ensures slots.Some? ==> |arena| <= |block| - first + n
  {
    ghost var whole := ReadRaws(block[first..], n);
    var cursor: nat := first;
    var kept := Slots(seq(n, _ => 0), seq(n, _ => 0), seq(n, _ => 0), seq(n, _ => false));
    arena := [];
    ghost var raws: seq<Raw> := [];
    for i := 0 to n
      invariant cursor <= |block| && |raws| == i && |kept.offsets| == n
      invariant Joins(whole, raws, ReadRaws(block[cursor..], n - i))
      invariant Kept(kept, arena, raws)
      invariant |arena| + (|block| - cursor) + (n - i) <= |block| - first + n
    {
      var ok;
      ghost var raw;
      ok, kept, arena, cursor, raw := ReadSlot(block, cursor, kept, arena, i, n - i, whole, raws);
      if !ok {
        return arena, None;
      }
      raws := raws + [raw];
    }
    slots := Some(kept);
  }

  /** One turn of that loop: the parameter at the cursor into slot `i`. */
  method ReadSlot(block: Text, cursor: nat, slots: Slots, arena: Text, i: nat,
                  ghost left: nat, ghost whole: Option<seq<Raw>>, ghost raws: seq<Raw>)
    returns (ok: bool, kept: Slots, grown: Text, next: nat, ghost raw: Raw)
    requires cursor <= |block| < TWO_TO_31 && left > 0 && Joins(whole, raws, ReadRaws(block[cursor..], left))
    requires Kept(slots, arena, raws) && |raws| == i < |slots.offsets|
    ensures !ok ==> whole.None?
    ensures ok ==> next <= |block| && Joins(whole, raws + [raw], ReadRaws(block[next..], left - 1))
    ensures ok ==> Kept(kept, grown, raws + [raw]) && |kept.offsets| == |slots.offsets|
    ensures ok ==> |grown| - |arena| <= next - cursor + 1
  {
    var taken;
    ok, taken, next := NextRaw(block, cursor, left, whole, raws);
    kept, grown, raw := slots, arena, taken;
    if ok {
      kept, grown := Store(slots, arena, i, taken, raws);
    }
  }

  method NextRaw(block: Text, cursor: nat, ghost left: nat, ghost whole: Option<seq<Raw>>, ghost raws: seq<Raw>)
    returns (ok: bool, raw: Raw, next: nat)
    requires cursor <= |block| < TWO_TO_31 && left > 0
    requires Joins(whole, raws, ReadRaws(block[cursor..], left))
    ensures !ok ==> whole.None?
    ensures ok ==> raw.Valid() && cursor + 8 + |raw.bytes| == next <= |block|
    ensures ok ==> Joins(whole, raws + [raw], ReadRaws(block[next..], left - 1))
  {
    var format, length, start;
    ok, format, length, start, next := TakeRaw(block, cursor);
    raw := if ok then Raw(format, length, block[start..next]) else Raw(0, -1, []);
    if ok {
      JoinsOne(whole, raws, block[cursor..], left);
    }
  }

  /** Reading the whole gives what has been read so far, and then what is left. */
  ghost predicate Joins(whole: Option<seq<Raw>>, done: seq<Raw>, left: Option<seq<Raw>>) {
    (whole.Some? <==> left.Some?) && (left.Some? ==> whole.value == done + left.value)
  }

  lemma JoinsOne(whole: Option<seq<Raw>>, done: seq<Raw>, s: Text, count: nat)
    requires count > 0 && Joins(whole, done, ReadRaws(s, count)) && ReadRaw(s).Some?
    ensures Joins(whole, done + [ReadRaw(s).value.0], ReadRaws(ReadRaw(s).value.1, count - 1))
  {
    var (raw, rest) := ReadRaw(s).value;
    var left := ReadRaws(rest, count - 1);
    if left.Some? {
      assert done + ([raw] + left.value) == (done + [raw]) + left.value;
    }
  }

  /** Pointers last: the arena is done growing. */
  method Pointers(offsets: seq<nat>, nulls: seq<bool>) returns (values: seq<Option<nat>>)
    requires |offsets| == |nulls|
    ensures |values| == |offsets|
    ensures forall i | 0 <= i < |offsets| :: values[i] == if nulls[i] then None else Some(offsets[i])
  {
    values := [];
    for i := 0 to |offsets|
      invariant |values| == i
      invariant forall k | 0 <= k < i :: values[k] == if nulls[k] then None else Some(offsets[k])
    {
      values := values + [if nulls[i] then None else Some(offsets[i])];
    }
  }

  /** What libpq is given is those parameters: a pointer to each value in its own slice, and null pointers for NULL. */
  ghost predicate Delivers(out: Parameters, raws: seq<Raw>) {
    && |out.offsets| == |out.lengths| == |out.formats| == |out.values| == |raws|
    && (forall i | 0 <= i < |raws| ::
          && Holds(out.arena, out.offsets[i], out.lengths[i], out.formats[i], out.values[i].None?, raws[i])
          && (out.values[i].Some? ==> out.values[i].value == out.offsets[i]))
    && (forall i, j | 0 <= i < j < |raws| && out.values[i].Some? && out.values[j].Some? ::
          out.offsets[i] + out.lengths[i] < out.offsets[j])
  }

  lemma SlotsDeliver(slots: Slots, out: Parameters, raws: seq<Raw>)
    requires Kept(slots, out.arena, raws) && |raws| == |slots.offsets| == |out.values|
    requires out.offsets == slots.offsets && out.lengths == slots.lengths && out.formats == slots.formats
    requires forall i | 0 <= i < |raws| :: out.values[i] == if slots.nulls[i] then None else Some(out.offsets[i])
    ensures Delivers(out, raws)
  {
    forall i, j | 0 <= i < j < |raws| && out.values[i].Some? && out.values[j].Some?
      ensures out.offsets[i] + out.lengths[i] < out.offsets[j]
    {
      assert slots.offsets[..|raws|][i] + slots.lengths[..|raws|][i] < slots.offsets[..|raws|][j];
    }
  }

  /**
   parseParameters: takes exactly the blocks that start with a well-formed encoding, delivers what
   they encode, and never grows its arena past what it reserved.
   */
  method ParseParameters(block: Text) returns (r: Option<Parameters>)
    requires |block| < TWO_TO_31
    ensures r.Some? <==> WellFormed(block)
    ensures forall raws, rest | Encodes(block, raws, rest) ::
              r.Some? && Delivers(r.value, raws) && |r.value.arena| <= |block| - 4 + |raws|
  {
    ReadsExactly(block);
    var ok, count, cursor := TakeIntAt(block, 0);
    assert block[0..] == block;
    if !ok || count < 0 {
      return None;
    }
    if count > (|block| - cursor) / 8 {
      return None;
    }
    var arena, slots := ReadSlots(block, cursor, count);
    if slots.None? {
      return None;
    }
    var values := Pointers(slots.value.offsets, slots.value.nulls);
    r := Some(Parameters(arena, slots.value.offsets, slots.value.lengths, slots.value.formats, values));
    SlotsDeliver(slots.value, r.value, ReadBlock(block).value);
  }
}
