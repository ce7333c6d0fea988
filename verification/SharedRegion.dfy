/**
 A SharedObject's region on POSIX: a header and a payload in shared memory, opened, written, read
 and cleared by participants that each take the region's lock first: the lock file of the name
 (macOS), or the region's own descriptor (elsewhere).

 One step is one system call or one memory access, so the copies of two participants would
 interleave if their locks let them. A participant may die between any two steps.
 */
module SharedRegion {
  import opened Basics
  import L = LockFile

  type Pid = L.Pid
  type Rid = nat

  const HEADER_SIZE := 12

  /** What a completed call did to a region, or a death in the middle of one. */
  datatype Entry =
    | Wrote(data: seq<byte>)
    | Cleared
    | Read(bytes: seq<byte>)
    | Measured(length: nat)                      // a read into a buffer too small: the length alone
    | Torn(data: seq<byte>, copied: set<nat>)    // died having copied these bytes of a write

  datatype Pending = NoWrite | Write(writer: Pid, data: seq<byte>, copied: set<nat>)

  datatype Field = Magic | PayloadSize | Capacity

  datatype Region = Region(
    size: nat, magic: bool, payloadSize: nat, capacity: nat, payload: seq<byte>,
    pending: Pending, log: seq<Entry>)
  {
    function Room(): nat { if size > HEADER_SIZE then size - HEADER_SIZE else 0 }

    predicate Ready() { magic && capacity != 0 }
  }

  /** What the mapping has room for, or less if the header says so. */
  function PayloadLimit(room: nat, capacity: nat): nat {
    if capacity < room then capacity else room
  }

  /** What a participant is in the middle of. */
  datatype Work =
    | Nothing
    | Found(r: Rid, maxSize: nat)                          // shm_open has answered
    | Sized(r: Rid, maxSize: nat)                          // it has a size, and is mapped
    | Initialising(r: Rid, maxSize: nat, left: set<Field>) // header fields yet to be stored
    | Writing(r: Rid, data: seq<byte>)
    | Reading(r: Rid, n: nat, got: map<nat, byte>)

  datatype Handle = Handle(r: Rid, room: nat)

  datatype State = State(
    lockFile: bool,                  // which lock this system's participants take
    lock: L.State,
    regionLock: map<Rid, Pid>,
    name: Option<Rid>,
    regions: map<Rid, Region>,
    handles: map<Pid, Handle>,
    work: map<Pid, Work>)
  {
    function Doing(p: Pid): Work { if p in work then work[p] else Nothing }

    /** `p` has the lock that stands for region `r`. */
    predicate Inside(p: Pid, r: Rid) {
      if lockFile then lock.Holds(p) else r in regionLock && regionLock[r] == p
    }

    predicate InsideAny(p: Pid) {
      if lockFile then lock.At(p).HasLock() else p in regionLock.Values
    }

    function To(p: Pid, w: Work): State { this.(work := work[p := w]) }

    function Set(r: Rid, g: Region, p: Pid, w: Work): State {
      this.(regions := regions[r := g], work := work[p := w])
    }
  }

  datatype Event =
    | Lock(e: L.Event)                       // a step of the lock file's protocol
    | LockRegion(p: Pid, r: Rid)             // flock on the region's own descriptor
    | UnlockRegion(p: Pid, r: Rid)
    | ShmOpen(p: Pid, maxSize: nat, r: Rid)
    | Truncate(p: Pid, size: nat)            // fstat, and ftruncate if the region has no size
    | CheckHeader(p: Pid)
    | StoreField(p: Pid, f: Field)
    | FinishOpen(p: Pid)
    | Abandon(p: Pid)                        // an open that fails after shm_open
    | BeginWrite(p: Pid, data: seq<byte>)
    | CopyIn(p: Pid, i: nat)
    | FinishWrite(p: Pid)
    | BeginRead(p: Pid, bufferSize: nat)
    | CopyOut(p: Pid, i: nat)
    | FinishRead(p: Pid)
    | Clear(p: Pid)
    | CloseHandle(p: Pid)
    | RemoveName(p: Pid)                     // shm_unlink
    | Die(p: Pid)

  predicate Init(s: State) {
    L.Init(s.lock) && s.regionLock == map[] && s.name == None && s.regions == map[] &&
    s.handles == map[] && s.work == map[]
  }

  const FreshRegion := Region(0, false, 0, 0, [], NoWrite, [])

  function Zeros(n: nat): (z: seq<byte>)
    ensures |z| == n
  {
    seq(n, _ => 0)
  }

  function Stored(g: Region, f: Field, maxSize: nat): Region {
    match f
    case Magic => g.(magic := true)
    case PayloadSize => g.(payloadSize := 0)
    case Capacity => g.(capacity := if maxSize < g.Room() then maxSize else g.Room())
  }

  /** The bytes a finished read hands over. */
  function Bytes(n: nat, got: map<nat, byte>): seq<byte>
    requires forall i: nat | i < n :: i in got
  {
    seq(n, (i: nat) requires i < n => got[i])
  }

  // ---------- the steps ----------

  predicate LockStep(s: State, e: L.Event, t: State) {
    && s.lockFile && L.Next(s.lock, e, t.lock) && t == s.(lock := t.lock)
    && (e.Unlock? || e.Unlink? || e.Close? ==> s.Doing(e.p).Nothing?)
  }

  predicate LockRegionStep(s: State, p: Pid, r: Rid, t: State) {
    && !s.lockFile && r !in s.regionLock && p !in s.regionLock.Values
    && ((p in s.handles && s.handles[p].r == r) || (s.Doing(p).Found? && s.Doing(p).r == r))
    && t == s.(regionLock := s.regionLock[r := p])
  }

  predicate UnlockRegionStep(s: State, p: Pid, r: Rid, t: State) {
    !s.lockFile && s.Inside(p, r) && s.Doing(p).Nothing? && t == s.(regionLock := s.regionLock - {r})
  }

  predicate ShmOpenStep(s: State, p: Pid, maxSize: nat, r: Rid, t: State) {
    && p !in s.handles && s.Doing(p).Nothing? && maxSize >= 1 && (s.lockFile ==> s.lock.Holds(p))
    && if s.name.Some? then r == s.name.value && t == s.To(p, Found(r, maxSize))
       else r !in s.regions && t == s.Set(r, FreshRegion, p, Found(r, maxSize)).(name := Some(r))
  }

  predicate TruncateStep(s: State, p: Pid, size: nat, t: State) {
    && s.Doing(p).Found? && s.Doing(p).r in s.regions && s.Inside(p, s.Doing(p).r)
    && var Found(r, maxSize) := s.Doing(p);
       var g := s.regions[r];
       if g.size > HEADER_SIZE then t == s.To(p, Sized(r, maxSize))
       else size > HEADER_SIZE &&
            t == s.Set(r, g.(size := size, payload := Zeros(size - HEADER_SIZE)), p, Sized(r, maxSize))
  }

  predicate CheckHeaderStep(s: State, p: Pid, t: State) {
    && s.Doing(p).Sized? && s.Doing(p).r in s.regions
    && var Sized(r, maxSize) := s.Doing(p);
       t == if s.regions[r].Ready() then GiveHandle(s, p, r)
            else s.To(p, Initialising(r, maxSize, {Magic, PayloadSize, Capacity}))
  }

  predicate StoreFieldStep(s: State, p: Pid, f: Field, t: State) {
    && s.Doing(p).Initialising? && s.Doing(p).r in s.regions && f in s.Doing(p).left
    && var Initialising(r, maxSize, left) := s.Doing(p);
       t == s.Set(r, Stored(s.regions[r], f, maxSize), p, Initialising(r, maxSize, left - {f}))
  }

  predicate FinishOpenStep(s: State, p: Pid, t: State) {
    && s.Doing(p).Initialising? && s.Doing(p).left == {} && s.Doing(p).r in s.regions
    && t == GiveHandle(s, p, s.Doing(p).r)
  }

  predicate AbandonStep(s: State, p: Pid, t: State) {
    (s.Doing(p).Found? || s.Doing(p).Sized?) && t == s.To(p, Nothing)
  }

  predicate BeginWriteStep(s: State, p: Pid, data: seq<byte>, t: State) {
    && CanWork(s, p)
    && var Handle(r, room) := s.handles[p];
       var g := s.regions[r];
       && g.magic && |data| <= PayloadLimit(room, g.capacity)
       && t == s.Set(r, g.(pending := Write(p, data, {})), p, Writing(r, data))
  }

  predicate CopyInStep(s: State, p: Pid, i: nat, t: State) {
    && s.Doing(p).Writing? && s.Doing(p).r in s.regions
    && var Writing(r, data) := s.Doing(p);
       var g := s.regions[r];
       && g.pending.Write? && i < |data| && i < |g.payload|
       && t == s.Set(r, g.(payload := g.payload[i := data[i]],
                           pending := g.pending.(copied := g.pending.copied + {i})), p, Writing(r, data))
  }

  predicate FinishWriteStep(s: State, p: Pid, t: State) {
    && s.Doing(p).Writing? && s.Doing(p).r in s.regions
    && var Writing(r, data) := s.Doing(p);
       var g := s.regions[r];
       && g.pending.Write? && (forall i: nat | i < |data| :: i in g.pending.copied)
       && t == s.Set(r, g.(payloadSize := |data|, pending := NoWrite, log := g.log + [Wrote(data)]), p, Nothing)
  }

  predicate BeginReadStep(s: State, p: Pid, bufferSize: nat, t: State) {
    && CanWork(s, p)
    && var Handle(r, room) := s.handles[p];
       var g := s.regions[r];
       && g.magic && g.payloadSize <= PayloadLimit(room, g.capacity)
       && t == if g.payloadSize <= bufferSize then s.To(p, Reading(r, g.payloadSize, map[]))
               else s.Set(r, g.(log := g.log + [Measured(g.payloadSize)]), p, Nothing)
  }

  predicate CopyOutStep(s: State, p: Pid, i: nat, t: State) {
    && s.Doing(p).Reading? && s.Doing(p).r in s.regions
    && var Reading(r, n, got) := s.Doing(p);
       && i < n && i < |s.regions[r].payload|
       && t == s.To(p, Reading(r, n, got[i := s.regions[r].payload[i]]))
  }

  predicate FinishReadStep(s: State, p: Pid, t: State) {
    && s.Doing(p).Reading? && s.Doing(p).r in s.regions
    && var Reading(r, n, got) := s.Doing(p);
       var g := s.regions[r];
       && (forall i: nat | i < n :: i in got)
       && t == s.Set(r, g.(log := g.log + [Read(Bytes(n, got))]), p, Nothing)
  }

  predicate ClearStep(s: State, p: Pid, t: State) {
    && CanWork(s, p)
    && var r := s.handles[p].r;
       var g := s.regions[r];
       t == if g.magic then s.Set(r, g.(payloadSize := 0, log := g.log + [Cleared]), p, Nothing) else s
  }

  predicate CloseHandleStep(s: State, p: Pid, t: State) {
    && p in s.handles && s.Doing(p).Nothing? && !s.InsideAny(p)
    && t == s.(handles := s.handles - {p}, lock := L.Closed(s.lock, p))
  }

  predicate RemoveNameStep(s: State, p: Pid, t: State) {
    s.Doing(p).Nothing? && (s.lockFile ==> s.lock.Holds(p)) && t == s.(name := None)
  }

  predicate Next(s: State, e: Event, t: State) {
    match e
    case Lock(le) => LockStep(s, le, t)
    case LockRegion(p, r) => LockRegionStep(s, p, r, t)
    case UnlockRegion(p, r) => UnlockRegionStep(s, p, r, t)
    case ShmOpen(p, maxSize, r) => ShmOpenStep(s, p, maxSize, r, t)
    case Truncate(p, size) => TruncateStep(s, p, size, t)
    case CheckHeader(p) => CheckHeaderStep(s, p, t)
    case StoreField(p, f) => StoreFieldStep(s, p, f, t)
    case FinishOpen(p) => FinishOpenStep(s, p, t)
    case Abandon(p) => AbandonStep(s, p, t)
    case BeginWrite(p, data) => BeginWriteStep(s, p, data, t)
    case CopyIn(p, i) => CopyInStep(s, p, i, t)
    case FinishWrite(p) => FinishWriteStep(s, p, t)
    case BeginRead(p, bufferSize) => BeginReadStep(s, p, bufferSize, t)
    case CopyOut(p, i) => CopyOutStep(s, p, i, t)
    case FinishRead(p) => FinishReadStep(s, p, t)
    case Clear(p) => ClearStep(s, p, t)
    case CloseHandle(p) => CloseHandleStep(s, p, t)
    case RemoveName(p) => RemoveNameStep(s, p, t)
    case Die(p) => t == Dead(s, p)
  }

  /** `p` has a handle, the lock of its region, and nothing begun. */
  predicate CanWork(s: State, p: Pid) {
    p in s.handles && s.handles[p].r in s.regions && s.Inside(p, s.handles[p].r) && s.Doing(p).Nothing?
  }

  function GiveHandle(s: State, p: Pid, r: Rid): State
    requires r in s.regions
  {
    s.(handles := s.handles[p := Handle(r, s.regions[r].Room())], work := s.work[p := Nothing])
  }

  function LocksWithout(locks: map<Rid, Pid>, p: Pid): map<Rid, Pid> { map r | r in locks && locks[r] != p :: locks[r] }

  /** A death: every lock of the process goes, and so does what it was doing, wherever it was. */
  function Dead(s: State, p: Pid): State {
    var t := s.(lock := L.Closed(s.lock, p), handles := s.handles - {p}, work := s.work[p := Nothing],
                regionLock := LocksWithout(s.regionLock, p));
    match s.Doing(p)
    case Writing(r, _) =>
      if r in s.regions && s.regions[r].pending.Write? then
        var g := s.regions[r];
        t.(regions := s.regions[r := g.(pending := NoWrite, log := g.log + [Torn(g.pending.data, g.pending.copied)])])
      else t
    case _ => t
  }

  // ---------- what the log says the region holds ----------

  /** The payload as the completed calls, and any deaths in mid-copy, leave it. */
  function ValueOf(log: seq<Entry>): seq<byte> {
    if log == [] then []
    else
      var before := ValueOf(log[..|log| - 1]);
      match log[|log| - 1]
      case Wrote(data) => data
      case Cleared => []
      case Read(_) => before
      case Measured(_) => before
      case Torn(data, copied) => Mixed(before, data, copied)
  }

  /** `prior` with the bytes already copied in their new form, and its old length. */
  function Mixed(prior: seq<byte>, data: seq<byte>, copied: set<nat>): seq<byte> {
    seq(|prior|, (i: nat) requires i < |prior| => if i in copied && i < |data| then data[i] else prior[i])
  }

  /** Every read answered exactly what the region held then. */
  predicate Legal(log: seq<Entry>) {
    forall k | 0 <= k < |log| ::
      && (log[k].Read? ==> log[k].bytes == ValueOf(log[..k]))
      && (log[k].Measured? ==> log[k].length == |ValueOf(log[..k])|)
  }

  lemma Append(log: seq<Entry>, e: Entry)
    requires Legal(log)
    requires e.Read? ==> e.bytes == ValueOf(log)
    requires e.Measured? ==> e.length == |ValueOf(log)|
    ensures Legal(log + [e])
  {
    var log' := log + [e];
    forall k | 0 <= k < |log'|
      ensures log'[k].Read? ==> log'[k].bytes == ValueOf(log'[..k])
      ensures log'[k].Measured? ==> log'[k].length == |ValueOf(log'[..k])|
    {
      assert log'[..k] == log[..k];
      assert log[..|log|] == log;
    }
  }

  // ---------- the invariant ----------

  ghost predicate RegionOk(g: Region) {
    && |g.payload| == g.Room()
    && g.payloadSize <= g.capacity <= g.Room()
    && Legal(g.log)
    && |ValueOf(g.log)| == g.payloadSize
    && (!g.Ready() ==> g.log == [] && g.pending.NoWrite?)
    && match g.pending
       case NoWrite => g.payload[..g.payloadSize] == ValueOf(g.log)
       case Write(_, data, copied) =>
         && |data| <= g.capacity
         && (forall i | i in copied :: i < |data| && g.payload[i] == data[i])
         && g.payload[..g.payloadSize] == Mixed(ValueOf(g.log), data, copied)
  }

  ghost predicate WorkOk(s: State, p: Pid) {
    var w := s.Doing(p);
    w.Nothing? || (
      && w.r in s.regions
      && var g := s.regions[w.r];
         match w
         case Found(_, m) => m >= 1 && p !in s.handles && (s.lockFile ==> s.lock.Holds(p))
         case Sized(r, m) => m >= 1 && p !in s.handles && s.Inside(p, r) && g.size > HEADER_SIZE
         case Initialising(r, m, left) =>
           && m >= 1 && p !in s.handles && s.Inside(p, r) && g.size > HEADER_SIZE && NoHandles(s, r)
           && g.log == [] && g.pending.NoWrite? && g.payloadSize == 0
           && (Magic !in left ==> g.magic) && (Capacity !in left ==> g.capacity >= 1)
         case Writing(r, data) =>
           HasHandle(s, p, r) && s.Inside(p, r) && g.pending.Write? && g.pending.writer == p && g.pending.data == data
         case Reading(r, n, got) =>
           && HasHandle(s, p, r) && s.Inside(p, r) && g.pending.NoWrite? && n == g.payloadSize
           && (forall i | i in got :: i < n && i < |g.payload| && got[i] == g.payload[i]))
  }

  ghost predicate HasHandle(s: State, p: Pid, r: Rid) { p in s.handles && s.handles[p].r == r }

  ghost predicate NoHandles(s: State, r: Rid) { forall q | q in s.handles :: s.handles[q].r != r }

  /** Every handle of a region has the room its mapping has, and finds the header set up. */
  ghost predicate HandleOk(s: State, h: Handle) {
    && h.r in s.regions && s.regions[h.r].size > HEADER_SIZE
    && h.room == s.regions[h.r].Room() && s.regions[h.r].Ready()
  }

  ghost predicate RegionAt(s: State, r: Rid) { r in s.regions ==> RegionOk(s.regions[r]) }

  ghost predicate HandleAt(s: State, p: Pid) { p in s.handles ==> HandleOk(s, s.handles[p]) }

  /** A write in progress is someone's. */
  ghost predicate PendingAt(s: State, r: Rid) {
    r in s.regions && s.regions[r].pending.Write? ==>
      s.Doing(s.regions[r].pending.writer) == Writing(r, s.regions[r].pending.data)
  }

  ghost predicate RegionsOk(s: State) { forall r: Rid :: RegionAt(s, r) }

  ghost predicate HandlesOk(s: State) { forall p: Pid :: HandleAt(s, p) }

  ghost predicate AllWorkOk(s: State) { forall p: Pid :: WorkOk(s, p) }

  ghost predicate PendingOk(s: State) { forall r: Rid :: PendingAt(s, r) }

  ghost predicate Inv(s: State) {
    && L.Inv(s.lock) && (s.name.Some? ==> s.name.value in s.regions)
    && RegionsOk(s) && HandlesOk(s) && PendingOk(s) && AllWorkOk(s)
  }

  lemma InsideAlone(s: State, p: Pid, q: Pid, r: Rid)
    requires L.Inv(s.lock) && s.Inside(p, r) && s.Inside(q, r)
    ensures p == q
  {
  }

  // ---------- every step keeps it ----------

  /** A step of `p` inside region `r` leaves every other participant's work as it was. */
  lemma OtherWorkKept(s: State, p: Pid, r: Rid, g: Region, w: Work, q: Pid)
    requires L.Inv(s.lock) && r in s.regions && s.Inside(p, r) && q != p && WorkOk(s, q)
    ensures WorkOk(s.Set(r, g, p, w), q)
  {
    var t := s.Set(r, g, p, w);
    var v := s.Doing(q);
    assert t.Doing(q) == v;
    if !v.Nothing? {
      if v.r == r {
        if !v.Found? {
          InsideAlone(s, p, q, r);
        }
      } else {
        assert t.regions[v.r] == s.regions[v.r];
      }
    }
  }

  /** A step of `p` inside region `r` that leaves it as `g`. */
  lemma SetKeepsInv(s: State, p: Pid, r: Rid, g: Region, w: Work)
    requires Inv(s) && r in s.regions && s.Inside(p, r)
    requires s.Doing(p).Writing? ==> s.Doing(p).r == r
    requires RegionOk(g) && WorkOk(s.Set(r, g, p, w), p)
    requires g.pending.Write? ==> w == Writing(r, g.pending.data) && g.pending.writer == p
    requires !NoHandles(s, r) ==> g.Ready() && g.size == s.regions[r].size
    ensures Inv(s.Set(r, g, p, w))
  {
    var t := s.Set(r, g, p, w);
    forall q: Pid ensures WorkOk(t, q) && HandleAt(t, q) {
      assert WorkOk(s, q) && HandleAt(s, q);
      if q != p {
        OtherWorkKept(s, p, r, g, w, q);
      }
    }
    forall q: Rid ensures RegionAt(t, q) && PendingAt(t, q) {
      assert RegionAt(s, q) && PendingAt(s, q);
    }
  }

  /** A step of `p` that changes nothing but what it is doing. */
  lemma WorkKeepsInv(s: State, p: Pid, w: Work)
    requires Inv(s) && !s.Doing(p).Writing? && WorkOk(s.To(p, w), p)
    ensures Inv(s.To(p, w))
  {
    var t := s.To(p, w);
    forall q: Pid ensures WorkOk(t, q) && HandleAt(t, q) {
      assert WorkOk(s, q) && HandleAt(s, q);
    }
    forall q: Rid ensures RegionAt(t, q) && PendingAt(t, q) {
      assert RegionAt(s, q) && PendingAt(s, q);
    }
  }

  lemma HandleKeepsInv(s: State, p: Pid, r: Rid)
    requires Inv(s) && r in s.regions && s.Inside(p, r)
    requires p !in s.handles && !s.Doing(p).Writing?
    requires s.regions[r].Ready() && s.regions[r].size > HEADER_SIZE
    ensures Inv(GiveHandle(s, p, r))
  {
    var t := GiveHandle(s, p, r);
    forall q: Pid ensures WorkOk(t, q) && HandleAt(t, q) {
      assert WorkOk(s, q) && HandleAt(s, q);
      HandleKeepsWork(s, p, r, q);
    }
    forall q: Rid ensures RegionAt(t, q) && PendingAt(t, q) {
      assert RegionAt(s, q) && PendingAt(s, q);
    }
  }

  lemma HandleKeepsWork(s: State, p: Pid, r: Rid, q: Pid)
    requires L.Inv(s.lock) && r in s.regions && s.Inside(p, r) && p !in s.handles && WorkOk(s, q)
    ensures WorkOk(GiveHandle(s, p, r), q)
  {
    if q != p && s.Doing(q).Initialising? && s.Doing(q).r == r {
      InsideAlone(s, p, q, r);
    }
  }

  /** A step that touches no region and takes no lock from a participant at work. */
  lemma LocksKeepInv(s: State, t: State)
    requires Inv(s) && L.Inv(t.lock) && t.lockFile == s.lockFile
    requires forall q: Pid, r: Rid | !s.Doing(q).Nothing? && s.Inside(q, r) :: t.Inside(q, r)
    requires forall q: Pid | !s.Doing(q).Nothing? && s.lock.Holds(q) :: t.lock.Holds(q)
    requires t.regions == s.regions && t.work == s.work && (t.name == s.name || t.name == None)
    requires t.handles.Keys <= s.handles.Keys && forall q | q in t.handles :: t.handles[q] == s.handles[q]
    requires forall q | q in s.handles && !s.Doing(q).Nothing? :: q in t.handles
    ensures Inv(t)
  {
    forall q: Pid ensures WorkOk(t, q) && HandleAt(t, q) {
      assert WorkOk(s, q) && HandleAt(s, q);
      assert t.Doing(q) == s.Doing(q);
      if !s.Doing(q).Nothing? && !s.Doing(q).Found? {
        assert s.Inside(q, s.Doing(q).r) && t.Inside(q, s.Doing(q).r);
      }
    }
    forall q: Rid ensures RegionAt(t, q) && PendingAt(t, q) {
      assert RegionAt(s, q) && PendingAt(s, q);
    }
  }

  lemma LockKeepsInv(s: State, e: L.Event, t: State)
    requires Inv(s) && LockStep(s, e, t)
    ensures Inv(t)
  {
    L.StepKeepsInv(s.lock, e, t.lock);
    LocksKeepInv(s, t);
  }

  lemma LockRegionKeepsInv(s: State, p: Pid, r: Rid, t: State)
    requires Inv(s) && LockRegionStep(s, p, r, t)
    ensures Inv(t)
  {
    LocksKeepInv(s, t);
  }

  lemma UnlockRegionKeepsInv(s: State, p: Pid, r: Rid, t: State)
    requires Inv(s) && UnlockRegionStep(s, p, r, t)
    ensures Inv(t)
  {
    LocksKeepInv(s, t);
  }

  lemma RemoveNameKeepsInv(s: State, p: Pid, t: State)
    requires Inv(s) && RemoveNameStep(s, p, t)
    ensures Inv(t)
  {
    LocksKeepInv(s, t);
  }

  lemma FinishOpenKeepsInv(s: State, p: Pid, t: State)
    requires Inv(s) && FinishOpenStep(s, p, t)
    ensures Inv(t)
  {
    assert WorkOk(s, p);
    HandleKeepsInv(s, p, s.Doing(p).r);
  }

  lemma CloseHandleKeepsInv(s: State, p: Pid, t: State)
    requires Inv(s) && CloseHandleStep(s, p, t)
    ensures Inv(t)
  {
    L.StepKeepsInv(s.lock, L.Close(p), t.lock);
    LocksKeepInv(s, t);
  }

  lemma ShmOpenKeepsInv(s: State, p: Pid, maxSize: nat, r: Rid, t: State)
    requires Inv(s) && ShmOpenStep(s, p, maxSize, r, t)
    ensures Inv(t)
  {
    if s.name.Some? {
      WorkKeepsInv(s, p, Found(r, maxSize));
    } else {
      forall q: Pid ensures WorkOk(t, q) && HandleAt(t, q) {
        assert WorkOk(s, q) && HandleAt(s, q);
      }
      assert ValueOf([]) == [] && RegionOk(FreshRegion);
      forall q: Rid ensures RegionAt(t, q) && PendingAt(t, q) {
        assert RegionAt(s, q) && PendingAt(s, q);
      }
    }
  }

  lemma NotReadyNoHandles(s: State, r: Rid)
    requires HandlesOk(s) && r in s.regions && (s.regions[r].size <= HEADER_SIZE || !s.regions[r].Ready())
    ensures NoHandles(s, r)
  {
    forall q | q in s.handles ensures s.handles[q].r != r {
      assert HandleAt(s, q);
    }
  }

  lemma TruncateKeepsInv(s: State, p: Pid, size: nat, t: State)
    requires Inv(s) && TruncateStep(s, p, size, t)
    ensures Inv(t)
  {
    assert WorkOk(s, p);
    var Found(r, maxSize) := s.Doing(p);
    var g := s.regions[r];
    assert RegionAt(s, r);
    if g.size > HEADER_SIZE {
      WorkKeepsInv(s, p, Sized(r, maxSize));
    } else {
      NotReadyNoHandles(s, r);
      SetKeepsInv(s, p, r, g.(size := size, payload := Zeros(size - HEADER_SIZE)), Sized(r, maxSize));
    }
  }

  lemma CheckHeaderKeepsInv(s: State, p: Pid, t: State)
    requires Inv(s) && CheckHeaderStep(s, p, t)
    ensures Inv(t)
  {
    assert WorkOk(s, p);
    var Sized(r, maxSize) := s.Doing(p);
    assert RegionAt(s, r);
    if s.regions[r].Ready() {
      HandleKeepsInv(s, p, r);
    } else {
      NotReadyNoHandles(s, r);
      WorkKeepsInv(s, p, Initialising(r, maxSize, {Magic, PayloadSize, Capacity}));
    }
  }

  lemma StoreFieldKeepsInv(s: State, p: Pid, f: Field, t: State)
    requires Inv(s) && StoreFieldStep(s, p, f, t)
    ensures Inv(t)
  {
    assert WorkOk(s, p);
    var Initialising(r, maxSize, left) := s.Doing(p);
    assert RegionAt(s, r);
    SetKeepsInv(s, p, r, Stored(s.regions[r], f, maxSize), Initialising(r, maxSize, left - {f}));
  }

  lemma BeginWriteKeepsInv(s: State, p: Pid, data: seq<byte>, t: State)
    requires Inv(s) && BeginWriteStep(s, p, data, t)
    ensures Inv(t)
  {
    var Handle(r, room) := s.handles[p];
    var g := s.regions[r];
    NotPending(s, p, r);
    assert Mixed(ValueOf(g.log), data, {}) == ValueOf(g.log);
    SetKeepsInv(s, p, r, g.(pending := Write(p, data, {})), Writing(r, data));
  }

  /** Inside a region with nothing begun: nobody's write is in progress there. */
  lemma NotPending(s: State, p: Pid, r: Rid)
    requires Inv(s) && CanWork(s, p) && s.handles[p].r == r
    ensures s.regions[r].pending.NoWrite? && RegionOk(s.regions[r]) && HandleOk(s, s.handles[p])
  {
    var g := s.regions[r];
    assert RegionAt(s, r) && PendingAt(s, r) && HandleAt(s, p);
    if g.pending.Write? {
      assert WorkOk(s, g.pending.writer);
      InsideAlone(s, p, g.pending.writer, r);
    }
  }

  lemma CopyInKeepsInv(s: State, p: Pid, i: nat, t: State)
    requires Inv(s) && CopyInStep(s, p, i, t)
    ensures Inv(t)
  {
    assert WorkOk(s, p);
    var Writing(r, data) := s.Doing(p);
    var g := s.regions[r];
    assert RegionAt(s, r) && HandleAt(s, p);
    CopiedRegionOk(g, i);
    SetKeepsInv(s, p, r, CopiedInto(g, i), Writing(r, data));
  }

  /** A region with byte `i` of the write in progress copied. */
  function CopiedInto(g: Region, i: nat): Region
    requires g.pending.Write? && i < |g.pending.data| && i < |g.payload|
  {
    g.(payload := g.payload[i := g.pending.data[i]], pending := g.pending.(copied := g.pending.copied + {i}))
  }

  lemma CopiedRegionOk(g: Region, i: nat)
    requires RegionOk(g) && g.pending.Write? && i < |g.pending.data| && i < |g.payload|
    ensures RegionOk(CopiedInto(g, i))
  {
    var h := CopiedInto(g, i);
    var was := Mixed(ValueOf(g.log), g.pending.data, g.pending.copied);
    assert forall k | 0 <= k < g.payloadSize :: g.payload[k] == was[k];
    assert h.payload[..h.payloadSize] == Mixed(ValueOf(h.log), g.pending.data, h.pending.copied);
  }

  lemma FinishWriteKeepsInv(s: State, p: Pid, t: State)
    requires Inv(s) && FinishWriteStep(s, p, t)
    ensures Inv(t)
  {
    assert WorkOk(s, p);
    var Writing(r, data) := s.Doing(p);
    var g := s.regions[r];
    assert RegionAt(s, r) && HandleAt(s, p);
    var h := g.(payloadSize := |data|, pending := NoWrite, log := g.log + [Wrote(data)]);
    Append(g.log, Wrote(data));
    assert h.payload[..|data|] == data;
    SetKeepsInv(s, p, r, h, Nothing);
  }

  lemma BeginReadKeepsInv(s: State, p: Pid, bufferSize: nat, t: State)
    requires Inv(s) && BeginReadStep(s, p, bufferSize, t)
    ensures Inv(t)
  {
    var Handle(r, room) := s.handles[p];
    var g := s.regions[r];
    NotPending(s, p, r);
    if g.payloadSize <= bufferSize {
      WorkKeepsInv(s, p, Reading(r, g.payloadSize, map[]));
    } else {
      LogOnly(s, p, r, Measured(g.payloadSize));
    }
  }

  /** A finished call that leaves a log entry and the region otherwise as it was. */
  lemma LogOnly(s: State, p: Pid, r: Rid, e: Entry)
    requires Inv(s) && r in s.regions && s.Inside(p, r) && s.regions[r].pending.NoWrite? && HasHandle(s, p, r)
    requires !s.Doing(p).Writing?
    requires (e.Read? && e.bytes == ValueOf(s.regions[r].log)) || (e.Measured? && e.length == s.regions[r].payloadSize)
    ensures Inv(s.Set(r, s.regions[r].(log := s.regions[r].log + [e]), p, Nothing))
  {
    var g := s.regions[r];
    assert RegionAt(s, r) && HandleAt(s, p);
    Append(g.log, e);
    assert (g.log + [e])[..|g.log|] == g.log;
    SetKeepsInv(s, p, r, g.(log := g.log + [e]), Nothing);
  }

  lemma CopyOutKeepsInv(s: State, p: Pid, i: nat, t: State)
    requires Inv(s) && CopyOutStep(s, p, i, t)
    ensures Inv(t)
  {
    assert WorkOk(s, p);
    WorkKeepsInv(s, p, t.Doing(p));
  }

  lemma FinishReadKeepsInv(s: State, p: Pid, t: State)
    requires Inv(s) && FinishReadStep(s, p, t)
    ensures Inv(t)
  {
    assert WorkOk(s, p);
    var Reading(r, n, got) := s.Doing(p);
    var g := s.regions[r];
    assert RegionAt(s, r);
    assert Bytes(n, got) == g.payload[..n];
    LogOnly(s, p, r, Read(Bytes(n, got)));
  }

  lemma ClearKeepsInv(s: State, p: Pid, t: State)
    requires Inv(s) && ClearStep(s, p, t)
    ensures Inv(t)
  {
    var r := s.handles[p].r;
    var g := s.regions[r];
    NotPending(s, p, r);
    Append(g.log, Cleared);
    SetKeepsInv(s, p, r, g.(payloadSize := 0, log := g.log + [Cleared]), Nothing);
  }

  lemma DieKeepsInv(s: State, p: Pid)
    requires Inv(s)
    ensures Inv(Dead(s, p))
  {
    assert WorkOk(s, p);
    if s.Doing(p).Writing? {
      var r := s.Doing(p).r;
      var g := s.regions[r];
      assert RegionAt(s, r) && HandleAt(s, p);
      var h := g.(pending := NoWrite, log := g.log + [Torn(g.pending.data, g.pending.copied)]);
      Append(g.log, Torn(g.pending.data, g.pending.copied));
      assert h.log[..|g.log|] == g.log;
      SetKeepsInv(s, p, r, h, Nothing);
      LetGo(s.Set(r, h, p, Nothing), p);
      assert Dead(s, p) == Released(s.Set(r, h, p, Nothing), p);
    } else {
      WorkKeepsInv(s, p, Nothing);
      LetGo(s.To(p, Nothing), p);
      assert Dead(s, p) == Released(s.To(p, Nothing), p);
    }
  }

  function Released(s: State, p: Pid): State {
    s.(lock := L.Closed(s.lock, p), handles := s.handles - {p},
       regionLock := LocksWithout(s.regionLock, p))
  }

  lemma LetGo(s: State, p: Pid)
    requires Inv(s) && s.Doing(p).Nothing?
    ensures Inv(Released(s, p))
  {
    L.StepKeepsInv(s.lock, L.Close(p), L.Closed(s.lock, p));
    LocksKeepInv(s, Released(s, p));
  }

  predicate IsOpenStep(e: Event) {
    e.ShmOpen? || e.Truncate? || e.CheckHeader? || e.StoreField? || e.FinishOpen? || e.Abandon?
  }

  predicate IsLockStep(e: Event) {
    e.Lock? || e.LockRegion? || e.UnlockRegion? || e.CloseHandle? || e.RemoveName?
  }

  lemma OpenStepKeepsInv(s: State, e: Event, t: State)
    requires Inv(s) && Next(s, e, t) && IsOpenStep(e)
    ensures Inv(t)
  {
    match e
    case ShmOpen(p, maxSize, r) => ShmOpenKeepsInv(s, p, maxSize, r, t);
    case Truncate(p, size) => TruncateKeepsInv(s, p, size, t);
    case CheckHeader(p) => CheckHeaderKeepsInv(s, p, t);
    case StoreField(p, f) => StoreFieldKeepsInv(s, p, f, t);
    case FinishOpen(p) => FinishOpenKeepsInv(s, p, t);
    case Abandon(p) => WorkKeepsInv(s, p, Nothing);
  }

  lemma LockStepKeepsInv(s: State, e: Event, t: State)
    requires Inv(s) && Next(s, e, t) && IsLockStep(e)
    ensures Inv(t)
  {
    match e
    case Lock(le) => LockKeepsInv(s, le, t);
    case LockRegion(p, r) => LockRegionKeepsInv(s, p, r, t);
    case UnlockRegion(p, r) => UnlockRegionKeepsInv(s, p, r, t);
    case CloseHandle(p) => CloseHandleKeepsInv(s, p, t);
    case RemoveName(p) => RemoveNameKeepsInv(s, p, t);
  }

  lemma CallStepKeepsInv(s: State, e: Event, t: State)
    requires Inv(s) && Next(s, e, t) && !IsOpenStep(e) && !IsLockStep(e)
    ensures Inv(t)
  {
    match e
    case BeginWrite(p, data) => BeginWriteKeepsInv(s, p, data, t);
    case CopyIn(p, i) => CopyInKeepsInv(s, p, i, t);
    case FinishWrite(p) => FinishWriteKeepsInv(s, p, t);
    case BeginRead(p, bufferSize) => BeginReadKeepsInv(s, p, bufferSize, t);
    case CopyOut(p, i) => CopyOutKeepsInv(s, p, i, t);
    case FinishRead(p) => FinishReadKeepsInv(s, p, t);
    case Clear(p) => ClearKeepsInv(s, p, t);
    case Die(p) => DieKeepsInv(s, p);
  }

  // ---------- over every run ----------

  ghost predicate IsRun(run: seq<State>, events: seq<Event>) {
    && |run| == |events| + 1
    && Init(run[0])
    && forall k | 0 <= k < |events| :: StepAt(run, events, k)
  }

  ghost predicate StepAt(run: seq<State>, events: seq<Event>, k: int)
    requires 0 <= k < |events| == |run| - 1
  {
    Next(run[k], events[k], run[k + 1])
  }

  lemma {:induction false} RunKeepsInv(run: seq<State>, events: seq<Event>, k: nat)
    requires IsRun(run, events) && k < |run|
    ensures Inv(run[k])
  {
    if k == 0 {
      assert AllWorkOk(run[0]);
    } else {
      RunKeepsInv(run, events, k - 1);
      var s, e, t := run[k - 1], events[k - 1], run[k];
      assert StepAt(run, events, k - 1);
      if IsOpenStep(e) {
        OpenStepKeepsInv(s, e, t);
      } else if IsLockStep(e) {
        LockStepKeepsInv(s, e, t);
      } else {
        CallStepKeepsInv(s, e, t);
      }
    }
  }

  /**
   The region is an atomic register, at every moment of every run, under either lock: each read
   of each region answered exactly what the calls completed before it left there.
   */
  lemma AtomicRegister(run: seq<State>, events: seq<Event>, k: nat, r: Rid)
    requires IsRun(run, events) && k < |run| && r in run[k].regions
    ensures Legal(run[k].regions[r].log)
    ensures run[k].regions[r].pending.NoWrite? ==>
              var g := run[k].regions[r];
              g.payloadSize <= |g.payload| && g.payload[..g.payloadSize] == ValueOf(g.log)
  {
    RunKeepsInv(run, events, k);
    assert RegionAt(run[k], r);
  }

  /**
   In an untorn stretch of a legal log, a read answers the last write before it, and after a clear
   or before any write nothing.
   */
  lemma {:induction false} ReadsLastWrite(log: seq<Entry>, w: nat, k: nat)
    requires Legal(log) && w < k < |log| && log[k].Read?
    requires log[w].Wrote? || log[w].Cleared?
    requires forall i | w < i < k :: log[i].Read? || log[i].Measured?
    ensures log[k].bytes == if log[w].Wrote? then log[w].data else []
  {
    Unchanged(log, w, k);
  }

  lemma {:induction false} Unchanged(log: seq<Entry>, w: nat, k: nat)
    requires w < k <= |log|
    requires forall i | w < i < k :: log[i].Read? || log[i].Measured?
    ensures ValueOf(log[..k]) == ValueOf(log[..w + 1])
    decreases k
  {
    if k > w + 1 {
      Unchanged(log, w, k - 1);
      assert log[..k][..k - 1] == log[..k - 1];
    } else {
      assert log[..k] == log[..w + 1];
    }
  }

  /** Two handles of one region have one payload room, and its capacity is from 1 to that room. */
  lemma OneRoom(run: seq<State>, events: seq<Event>, k: nat, p: Pid, q: Pid)
    requires IsRun(run, events) && k < |run|
    requires p in run[k].handles && q in run[k].handles && run[k].handles[p].r == run[k].handles[q].r
    ensures run[k].handles[p].room == run[k].handles[q].room
    ensures var h := run[k].handles[p]; h.r in run[k].regions && 1 <= run[k].regions[h.r].capacity <= h.room
  {
    RunKeepsInv(run, events, k);
    assert HandleAt(run[k], p) && HandleAt(run[k], q) && RegionAt(run[k], run[k].handles[p].r);
  }

  /**
   Opening a name, asking for whatever size, changes no region that has been set up: not its size,
   its capacity, its payload or its log.
   */
  lemma OpenNeverAlters(run: seq<State>, events: seq<Event>, k: nat, r: Rid)
    requires IsRun(run, events) && k < |events| && IsOpenStep(events[k])
    requires r in run[k].regions && (run[k].regions[r].log != [] || !NoHandles(run[k], r))
    ensures r in run[k + 1].regions && run[k + 1].regions[r] == run[k].regions[r]
  {
    RunKeepsInv(run, events, k);
    var s, e := run[k], events[k];
    assert StepAt(run, events, k);
    assert RegionAt(s, r) && WorkOk(s, e.p);
    if !NoHandles(s, r) {
      var q :| q in s.handles && s.handles[q].r == r;
      assert HandleAt(s, q);
    }
  }
}
