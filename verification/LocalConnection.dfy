/**
 LocalConnection's listeners on POSIX: the names their sockets and lock files have, and the
 protocol by which a listener takes a name, makes its socket there, and gives both up.
 */
module PipeNames {
  import opened Basics

  /** A file name's part: bytes, as a C string holds them. */
  type Name = seq<byte>

  const BUDGET := 48
  const UNDERSCORE: byte := 95
  const DOT: byte := 46

  predicate Plain(b: byte) {
    97 <= b <= 122 || 65 <= b <= 90 || 48 <= b <= 57 || b == 45 || b == 95
  }

  predicate AllPlain(name: Name) { forall b | b in name :: Plain(b) }

  function Safe(b: byte): byte { if Plain(b) then b else UNDERSCORE }

  function Sanitized(name: Name): (r: Name)
    ensures |r| == |name| && AllPlain(r)
    ensures AllPlain(name) <==> r == name
  {
    var r := seq(|name|, (i: nat) requires i < |name| => Safe(name[i]));
    assert forall i | 0 <= i < |name| :: r[i] == Safe(name[i]) && name[i] in name;
    r
  }

  const TWO_TO_64 := 0x1_0000_0000_0000_0000

  /** One byte of 64-bit FNV-1a: into the low byte, then a product that wraps. */
  function HashByte(hash: nat, b: byte): nat {
    (hash / 256 * 256 + Xor(hash % 256, b)) * 1099511628211 % TWO_TO_64
  }

  function Hash(name: Name): nat {
    if name == [] then 1469598103934665603 else HashByte(Hash(name[..|name| - 1]), name[|name| - 1])
  }

  /** "%016llx": the digits of a hash, most significant first. */
  function Hex(hash: nat, digits: nat): (r: Name)
    ensures |r| == digits && AllPlain(r)
  {
    if digits == 0 then []
    else Hex(hash / 16, digits - 1) + [if hash % 16 < 10 then 48 + hash % 16 else 87 + hash % 16]
  }

  function Source(name: Name): (r: Name)
    ensures r != []
  {
    if name == [] then [100, 101, 102, 97, 117, 108, 116] else name
  }

  /** The name of the socket for `name`, within the user's directory. */
  function SocketName(name: Name): Name {
    var source := Source(name);
    var safe := Sanitized(source);
    if safe == source && |safe| <= BUDGET then safe
    else Start(safe) + [UNDERSCORE] + Hex(Hash(source), 16)
  }

  /** As much of a sanitized name as the hash leaves room for. */
  function Start(safe: Name): Name { safe[..if |safe| < BUDGET - 17 then |safe| else BUDGET - 17] }

  predicate IsHashed(name: Name) { !AllPlain(Source(name)) || |Source(name)| > BUDGET }

  function SocketPath(directory: Name, name: Name): Name { directory + [47] + SocketName(name) }

  function LockPath(directory: Name, name: Name): Name {
    SocketPath(directory, name) + [DOT, 108, 111, 99, 107]
  }

  method HashBytes(source: Name) returns (hash: nat)
    ensures hash == Hash(source)
  {
    hash := 1469598103934665603;
    for i := 0 to |source|
      invariant hash == Hash(source[..i])
    {
      assert source[..i + 1][..i] == source[..i];
      hash := HashByte(hash, source[i]);
    }
    assert source[..|source|] == source;
  }

  /** sanitizePipeName, which builds the name and the hash byte by byte. */
  method SanitizePipeName(name: Name) returns (r: Name)
    ensures r == SocketName(name)
  {
    var source := Source(name);
    var safe: Name := [];
    var changed := false;
    for i := 0 to |source|
      invariant |safe| == i && forall k | 0 <= k < i :: safe[k] == Safe(source[k])
      invariant changed <==> exists k | 0 <= k < i :: !Plain(source[k])
    {
      var c := source[i];
      if Plain(c) {
        safe := safe + [c];
      } else {
        safe := safe + [UNDERSCORE];
        changed := true;
      }
    }
    assert safe == Sanitized(source);
    assert changed <==> !AllPlain(source);
    if !changed && |safe| <= BUDGET {
      return safe;
    }
    var hash := HashBytes(source);
    var keep := BUDGET - 17;
    r := safe[..if |safe| < keep then |safe| else keep] + [UNDERSCORE] + Hex(hash, 16);
  }

  /** A socket's name is short, not empty, and made of letters, digits, '-' and '_' alone. */
  lemma SocketNameIsPlain(name: Name)
    ensures AllPlain(SocketName(name)) && 1 <= |SocketName(name)| <= BUDGET
    ensures DOT !in SocketName(name)
  {
    var r := SocketName(name);
    var safe := Sanitized(Source(name));
    forall b | b in r ensures Plain(b) {
      assert b in safe || b == UNDERSCORE || b in Hex(Hash(Source(name)), 16);
    }
  }

  /** No name's socket is at any name's lock file, in one directory. */
  lemma PathsApart(directory: Name, m: Name, n: Name)
    ensures SocketPath(directory, m) != LockPath(directory, n)
    ensures SocketPath(directory, m) == SocketPath(directory, n) <==> LockPath(directory, m) == LockPath(directory, n)
  {
    SocketNameIsPlain(m);
    var s, l := SocketPath(directory, m), LockPath(directory, n);
    if |s| == |l| {
      var at := |l| - 5;
      SocketNameIsPlain(n);
      assert l[at] == DOT;
      assert s[at] == SocketName(m)[at - |directory| - 1];
      assert s[at] in SocketName(m);
    }
    if LockPath(directory, m) == l {
      assert LockPath(directory, m)[..|l| - 5] == SocketPath(directory, m);
      assert l[..|l| - 5] == SocketPath(directory, n);
    }
  }

  /** Two plain names within the budget share a socket just when they are one name. */
  lemma PlainNamesKeepTheirPaths(m: Name, n: Name)
    requires m != [] && AllPlain(m) && |m| <= BUDGET
    ensures SocketName(m) == m
    ensures n != [] && AllPlain(n) && |n| <= BUDGET ==> (SocketName(m) == SocketName(n) <==> m == n)
  {
  }

  /**
   A plain name shares a socket with one that goes through the hash if and only if it ends with an
   underscore and the sixteen digits of that one's hash, after what is kept of its sanitized form.
   */
  lemma PlainSharesWithHashed(m: Name, n: Name)
    requires !IsHashed(m) && IsHashed(n)
    ensures var s, start := Source(m), Start(Sanitized(Source(n)));
      SocketName(m) == SocketName(n) <==>
      && |s| == |start| + 17 && s[..|start|] == start && s[|start|] == UNDERSCORE
      && s[|start| + 1..] == Hex(Hash(Source(n)), 16)
  {
    IsJoined(Source(m), Start(Sanitized(Source(n))), Hex(Hash(Source(n)), 16));
  }

  /** A name is a start and digits just when its parts are. */
  lemma IsJoined(s: Name, a: Name, x: Name)
    ensures s == a + [UNDERSCORE] + x <==>
            |s| == |a| + 1 + |x| && s[..|a|] == a && s[|a|] == UNDERSCORE && s[|a| + 1..] == x
  {
    if |s| == |a| + 1 + |x| {
      assert s == s[..|a|] + [s[|a|]] + s[|a| + 1..];
    }
  }

  /** And there is such a pair with no two hashes alike: "a.b", and the plain name it becomes. */
  lemma PlainTakesHashedPath() returns (m: Name, n: Name)
    ensures m != n && !IsHashed(m) && IsHashed(n) && SocketName(m) == SocketName(n)
  {
    n := [97, DOT, 98];
    m := SocketName(n);
    assert n[1] in n;
    SocketNameIsPlain(n);
    assert AllPlain(m) && |m| <= BUDGET;
  }

  function Pow16(n: nat): (r: nat)
    ensures r >= 1
  {
    if n == 0 then 1 else 16 * Pow16(n - 1)
  }

  /** The digits of a number that fits in them are that number's alone. */
  lemma {:induction false} HexDiffers(a: nat, b: nat, digits: nat)
    requires a < Pow16(digits) && b < Pow16(digits) && Hex(a, digits) == Hex(b, digits)
    ensures a == b
  {
    if digits > 0 {
      var x, y := Hex(a, digits), Hex(b, digits);
      assert x[..digits - 1] == Hex(a / 16, digits - 1) && y[..digits - 1] == Hex(b / 16, digits - 1);
      assert x[digits - 1] == y[digits - 1];
      HexDiffers(a / 16, b / 16, digits - 1);
    }
  }

  lemma HashFits(name: Name)
    ensures Hash(name) < Pow16(16)
  {
    assert Pow16(16) == 16 * Pow16(15) == 0x100 * Pow16(14) == 0x1_0000 * Pow16(12) == 0x1_0000_0000 * Pow16(8);
    assert Pow16(8) == 0x100 * Pow16(6) == 0x1_0000 * Pow16(4) == 0x100_0000 * Pow16(2) == 0x1_0000_0000;
  }

  /** The start and the digits can be told from a name of both. */
  lemma PartsTold(a: Name, x: Name, b: Name, y: Name)
    requires |x| == |y|
    ensures a + [UNDERSCORE] + x == b + [UNDERSCORE] + y <==> a == b && x == y
  {
    var s, t := a + [UNDERSCORE] + x, b + [UNDERSCORE] + y;
    assert s[..|a|] == a && s[|a| + 1..] == x;
    assert t[..|b|] == b && t[|b| + 1..] == y;
  }

  /**
   Two names that both go through the hash share a socket if and only if their 64-bit hashes are the
   same and their sanitized forms start the same.
   */
  lemma HashedNamesShare(m: Name, n: Name)
    requires IsHashed(m) && IsHashed(n)
    ensures SocketName(m) == SocketName(n) <==>
            Hash(Source(m)) == Hash(Source(n)) && Start(Sanitized(Source(m))) == Start(Sanitized(Source(n)))
  {
    var g, h := Hash(Source(m)), Hash(Source(n));
    PartsTold(Start(Sanitized(Source(m))), Hex(g, 16), Start(Sanitized(Source(n))), Hex(h, 16));
    if Hex(g, 16) == Hex(h, 16) {
      HashFits(Source(m));
      HashFits(Source(n));
      HexDiffers(g, h, 16);
    }
  }
}

module Listeners {
  import opened Basics
  import L = LockFile

  type Pid = L.Pid
  type Sid = nat  // a socket file

  /** How far a participant has got with listening, once it has the name's lock. */
  datatype Stage =
    | Off
    | Made               // socket()
    | Swept              // unlink(path): what a dead listener left is gone
    | Bound(sock: Sid)
    | Live(sock: Sid)    // listen(): the handle is returned
    | Down(sock: Sid)    // native_close: close(listenFd)
    | Gone               // unlink(path)

  datatype State = State(lock: L.State, at: Option<Sid>, binder: map<Sid, Pid>, stages: map<Pid, Stage>) {
    function Stage(p: Pid): Stage { if p in stages then stages[p] else Off }

    function To(p: Pid, g: Stage): State { this.(stages := stages[p := g]) }

    /** A socket some participant still has open to listen on. */
    predicate IsOpen(k: Sid) {
      k in binder && var g := Stage(binder[k]); (g.Bound? || g.Live?) && g.sock == k
    }
  }

  datatype Event =
    | Lock(e: L.Event)
    | MakeSocket(p: Pid)
    | Sweep(p: Pid)
    | Bind(p: Pid, k: Sid)
    | Listen(p: Pid)
    | Fail(p: Pid)         // bind() or listen() failed: the socket is closed
    | CloseListen(p: Pid)
    | UnlinkOwn(p: Pid)
    | Die(p: Pid)
    | CleanSocket          // a cleaner deletes the socket's file, whosever it is

  predicate Init(s: State) {
    L.Init(s.lock) && s.at == None && s.binder == map[] && s.stages == map[]
  }

  predicate Next(s: State, e: Event, t: State) {
    match e
    case Lock(le) =>
      && L.Next(s.lock, le, t.lock)
      && match le {
           case Unlink(p) => s.Stage(p).Gone? && t == s.(lock := t.lock)
           case Unlock(p) => s.Stage(p).Off? && t == s.(lock := t.lock)
           case Close(p) => (s.Stage(p).Off? || (s.Stage(p).Gone? && s.lock.At(p).Unlinked?)) &&
             t == s.To(p, Off).(lock := t.lock)
           case _ => t == s.(lock := t.lock)
         }
    case MakeSocket(p) => s.lock.Holds(p) && s.Stage(p).Off? && t == s.To(p, Made)
    case Sweep(p) => s.Stage(p).Made? && t == s.To(p, Swept).(at := None)
    case Bind(p, k) =>
      s.Stage(p).Swept? && s.at == None && k !in s.binder &&
      t == s.To(p, Bound(k)).(at := Some(k), binder := s.binder[k := p])
    case Listen(p) => s.Stage(p).Bound? && t == s.To(p, Live(s.Stage(p).sock))
    case Fail(p) => (s.Stage(p).Made? || s.Stage(p).Swept? || s.Stage(p).Bound?) && t == s.To(p, Off)
    case CloseListen(p) => s.Stage(p).Live? && t == s.To(p, Down(s.Stage(p).sock))
    case UnlinkOwn(p) => s.Stage(p).Down? && t == s.To(p, Gone).(at := None)
    case Die(p) => t == s.To(p, Off).(lock := L.Closed(s.lock, p))
    case CleanSocket => t == s.(at := None)
  }

  function Actor(e: Event): Option<Pid> {
    match e
    case Lock(le) => L.Actor(le)
    case CleanSocket => None
    case _ => Some(e.p)
  }

  ghost predicate StageOk(s: State, p: Pid) {
    match s.Stage(p)
    case Off => true
    case Made => s.lock.Holds(p)
    case Swept => s.lock.Holds(p) && s.at == None
    case Bound(k) => s.lock.Holds(p) && k in s.binder && s.binder[k] == p && (s.at == None || s.at == Some(k))
    case Live(k) => s.lock.Holds(p) && k in s.binder && s.binder[k] == p && (s.at == None || s.at == Some(k))
    case Down(k) => s.lock.Holds(p) && k in s.binder && s.binder[k] == p && (s.at == None || s.at == Some(k))
    case Gone => s.lock.Holds(p) || s.lock.At(p).Unlinked?
  }

  ghost predicate Inv(s: State) {
    && L.Inv(s.lock)
    && (s.at.Some? ==> s.at.value in s.binder)
    && forall p: Pid :: StageOk(s, p)
  }

  /** Whoever is past the lock is alone there. */
  lemma OneAtWork(s: State, p: Pid, q: Pid)
    requires L.Inv(s.lock) && s.lock.Holds(p) && s.lock.Holds(q)
    ensures p == q
  {
  }

  /** A step that changes at most `p`'s stage, and the socket's file, with `p` the holder. */
  lemma HolderStep(s: State, p: Pid, t: State)
    requires Inv(s) && s.lock.Holds(p) && t.lock == s.lock
    requires t.stages == s.stages[p := t.Stage(p)] && StageOk(t, p)
    requires forall k | k in s.binder :: k in t.binder && t.binder[k] == s.binder[k]
    requires t.at.Some? ==> t.at.value in t.binder
    ensures Inv(t)
    ensures forall q: Pid | s.Stage(q).Live? :: q == p
  {
    forall q: Pid ensures StageOk(t, q) && (s.Stage(q).Live? ==> q == p) {
      assert StageOk(s, q);
      if s.lock.Holds(q) {
        OneAtWork(s, p, q);
      }
    }
  }

  /** What is at the path when `p` is past the lock is `p`'s own, or nobody listens on it. */
  lemma OwnOrDead(s: State, p: Pid)
    requires Inv(s) && s.lock.Holds(p) && s.at.Some?
    ensures s.binder[s.at.value] == p || !s.IsOpen(s.at.value)
  {
    var q := s.binder[s.at.value];
    assert StageOk(s, q);
    if s.lock.Holds(q) {
      OneAtWork(s, p, q);
    }
  }

  lemma LockStepKeepsInv(s: State, e: Event, t: State)
    requires Inv(s) && Next(s, e, t) && e.Lock?
    ensures Inv(t)
    ensures e.e.Unlink? ==> s.lock.atPath == Some(s.lock.At(e.e.p).inode)
    ensures forall q: Pid | s.Stage(q).Live? :: t.at == s.at && t.Stage(q) == s.Stage(q)
  {
    L.StepKeepsInv(s.lock, e.e, t.lock);
    forall q: Pid ensures StageOk(t, q) && (s.Stage(q).Live? ==> t.Stage(q) == s.Stage(q)) {
      assert StageOk(s, q);
      LockStepKeepsStage(s, e, t, q);
    }
  }

  lemma LockStepKeepsStage(s: State, e: Event, t: State, q: Pid)
    requires Next(s, e, t) && e.Lock? && StageOk(s, q)
    ensures StageOk(t, q) && (s.Stage(q).Live? ==> t.Stage(q) == s.Stage(q))
  {
  }

  /**
   No step breaks the invariant. A socket file some step unlinks is the unlinker's own, or one
   nobody listens on any more; the lock file it unlinks is the one it holds; and no participant's
   step moves the socket of another that is live.
   */
  lemma StepKeepsInv(s: State, e: Event, t: State)
    requires Inv(s) && Next(s, e, t)
    ensures Inv(t)
    ensures (e.Sweep? || e.UnlinkOwn?) && s.at.Some? ==> s.binder[s.at.value] == e.p || !s.IsOpen(s.at.value)
    ensures e.UnlinkOwn? && s.at.Some? ==> s.at.value == s.Stage(e.p).sock && s.binder[s.at.value] == e.p
    ensures e.Lock? && e.e.Unlink? ==> s.lock.atPath == Some(s.lock.At(e.e.p).inode)
    ensures forall q: Pid | s.Stage(q).Live? && Actor(e) != Some(q) && !e.CleanSocket? ::
              t.at == s.at && t.Stage(q) == s.Stage(q)
  {
    if e.Lock? {
      LockStepKeepsInv(s, e, t);
    } else if e.Die? || e.CleanSocket? {
      if e.Die? {
        L.StepKeepsInv(s.lock, L.Close(e.p), t.lock);
      }
      forall q: Pid ensures StageOk(t, q) {
        assert StageOk(s, q);
      }
    } else {
      assert StageOk(s, e.p);
      if s.at.Some? {
        OwnOrDead(s, e.p);
      }
      HolderStep(s, e.p, t);
    }
  }

  ghost predicate IsRun(run: seq<State>, events: seq<Event>) {
    && |run| == |events| + 1
    && Init(run[0])
    && forall k | 0 <= k < |events| :: StepAt(run, events, k)
  }

  ghost predicate StepAt(run: seq<State>, events: seq<Event>, k: int)
    requires 0 <= k < |events| == |run| - 1
  {
    Next(run[k], events[k], run[k + 1])
  }

  lemma {:induction false} RunKeepsInv(run: seq<State>, events: seq<Event>, k: nat)
    requires IsRun(run, events) && k < |run|
    ensures Inv(run[k])
  {
    if k > 0 {
      RunKeepsInv(run, events, k - 1);
      assert StepAt(run, events, k - 1);
      StepKeepsInv(run[k - 1], events[k - 1], run[k]);
    }
  }

  /** At every moment of every run, deaths included, at most one participant listens on the name. */
  lemma OneListener(run: seq<State>, events: seq<Event>, k: nat, p: Pid, q: Pid)
    requires IsRun(run, events) && k < |run|
    requires run[k].Stage(p).Live? && run[k].Stage(q).Live?
    ensures p == q
    ensures run[k].at.Some? ==> run[k].at.value == run[k].Stage(p).sock
  {
    RunKeepsInv(run, events, k);
    assert StageOk(run[k], p) && StageOk(run[k], q);
    OneAtWork(run[k], p, q);
  }

  /** What a participant has swept stays clear for its bind: nobody else can bind there meanwhile. */
  lemma BindFindsThePathFree(run: seq<State>, events: seq<Event>, k: nat, p: Pid)
    requires IsRun(run, events) && k < |run| && run[k].Stage(p).Swept?
    ensures run[k].at == None && run[k].lock.Holds(p)
  {
    RunKeepsInv(run, events, k);
    assert StageOk(run[k], p);
  }

  /**
   In every run, what is unlinked at the socket's path is never another's live socket: not by a
   listener starting over what a dead one left, and not by one closing.
   */
  lemma NeverUnlinksALiveSocket(run: seq<State>, events: seq<Event>, k: nat)
    requires IsRun(run, events) && k < |events|
    requires events[k].Sweep? || events[k].UnlinkOwn?
    requires run[k].at.Some?
    ensures var x := run[k].at.value; x in run[k].binder && (run[k].binder[x] == events[k].p || !run[k].IsOpen(x))
    ensures events[k].UnlinkOwn? ==> run[k].binder[run[k].at.value] == events[k].p
  {
    RunKeepsInv(run, events, k);
    assert StepAt(run, events, k);
    StepKeepsInv(run[k], events[k], run[k + 1]);
  }

  /** Nor does any participant remove a lock file but its own, held and at its path. */
  lemma UnlinksItsOwnLock(run: seq<State>, events: seq<Event>, k: nat)
    requires IsRun(run, events) && k < |events|
    requires events[k].Lock? && events[k].e.Unlink?
    ensures run[k].lock.Holds(events[k].e.p)
    ensures run[k].lock.atPath == Some(run[k].lock.At(events[k].e.p).inode)
  {
    RunKeepsInv(run, events, k);
    assert StepAt(run, events, k);
    StepKeepsInv(run[k], events[k], run[k + 1]);
  }
}
