/**
 crossbyte_socket_send_batch on Linux: datagrams sent in runs the kernel cuts up (UDP_SEGMENT),
 or up to 64 to a call (sendmmsg), stopping at the first that does not go.

 The kernel is a socket whose answers nothing here decides: any send may be refused, a sendmmsg
 may stop short, and another thread may find that this kernel does not cut.
 */
module BatchSender {
  import opened Basics

  const BATCH := 64
  const MOST_BYTES := 65000

  const INT_MAX := 0x7FFF_FFFF

  /** A sum of two ints that is one: a program of 32-bit ints must not make any other. */
  function Sum(x: int, y: int): int
    requires -INT_MAX - 1 <= x + y <= INT_MAX
  {
    x + y
  }

  /** `length` bytes of chunk `chunk` from `position`. */
  datatype Span = Span(chunk: int, position: int, length: int)

  type Target = nat

  datatype Datagram = Datagram(bytes: seq<byte>, target: Target)

  /** An array's length is an int. */
  type Chunk = c: seq<byte> | |c| <= INT_MAX

  /** A batch as the caller hands it over: nothing about it is promised. */
  datatype Batch = Batch(chunks: seq<Chunk>, spans: seq<Span>, targets: seq<Target>)

  predicate SpanOk(b: Batch, i: nat)
    requires i < |b.spans|
  {
    var Span(chunk, position, length) := b.spans[i];
    && 0 <= chunk < |b.chunks| && |b.chunks[chunk]| > 0
    && 0 <= position <= |b.chunks[chunk]| && 0 <= length <= |b.chunks[chunk]| - position
  }

  /** What the checks at the head of the call accept. */
  predicate Accepted(b: Batch, first: int, count: int) {
    && 0 <= first <= count <= |b.targets| && count <= |b.spans|
    && forall i | first <= i < count :: SpanOk(b, i)
  }

  /** Datagram `i` of the batch. */
  function Item(b: Batch, i: nat): Datagram
    requires i < |b.spans| && i < |b.targets| && SpanOk(b, i)
  {
    Datagram(Slice(b, i, b.spans[i].length), b.targets[i])
  }

  /** `length` bytes from where datagram `i` starts. */
  function Slice(b: Batch, i: nat, length: nat): seq<byte>
    requires i < |b.spans| && SpanOk(b, i)
    requires b.spans[i].position + length <= |b.chunks[b.spans[i].chunk]|
  {
    b.chunks[b.spans[i].chunk][b.spans[i].position..b.spans[i].position + length]
  }

  /** Datagrams `lo` up to `hi`, in order: what one send after another would put on the wire. */
  function Items(b: Batch, lo: nat, hi: nat): (r: seq<Datagram>)
    requires lo <= hi <= |b.targets| && hi <= |b.spans|
    requires forall i | lo <= i < hi :: SpanOk(b, i)
    ensures |r| == hi - lo
    ensures forall i | 0 <= i < hi - lo :: r[i] == Item(b, lo + i)
  {
    seq(hi - lo, (i: nat) requires i < hi - lo => Item(b, lo + i))
  }

  /** How the kernel cuts a send: every `segment` bytes, and what is left over. */
  function Cut(bytes: seq<byte>, segment: nat, target: Target): seq<Datagram>
    requires segment > 0
    decreases |bytes|
  {
    if bytes == [] then []
    else if |bytes| <= segment then [Datagram(bytes, target)]
    else [Datagram(bytes[..segment], target)] + Cut(bytes[segment..], segment, target)
  }

  /** The bytes in datagrams `lo` up to `hi`. */
  function Total(b: Batch, lo: nat, hi: nat): int
    requires lo <= hi <= |b.spans|
    decreases hi - lo
  {
    if lo == hi then 0 else b.spans[lo].length + Total(b, lo + 1, hi)
  }

  lemma {:induction false} TotalOneMore(b: Batch, lo: nat, hi: nat)
    requires lo <= hi < |b.spans|
    ensures Total(b, lo, hi + 1) == Total(b, lo, hi) + b.spans[hi].length
    decreases hi - lo
  {
    if lo < hi {
      TotalOneMore(b, lo + 1, hi);
    }
  }

  /** The next datagram goes to the same target and starts where this one ends. */
  predicate Adjacent(b: Batch, i: nat)
    requires i + 1 < |b.spans| && i + 1 < |b.targets|
  {
    && b.targets[i + 1] == b.targets[i] && b.spans[i + 1].chunk == b.spans[i].chunk
    && b.spans[i + 1].position == b.spans[i].position + b.spans[i].length
  }

  /** Datagrams `i` up to `hi` lie end to end in one chunk, to one target, each `segment` long but the last. */
  predicate IsRun(b: Batch, i: nat, hi: nat, segment: nat)
    requires i < hi <= |b.spans| && hi <= |b.targets|
    decreases hi - i
  {
    if i + 1 == hi then 0 < b.spans[i].length <= segment
    else b.spans[i].length == segment && Adjacent(b, i) && IsRun(b, i + 1, hi, segment)
  }

  lemma {:induction false} RunGrows(b: Batch, i: nat, hi: nat, segment: nat)
    requires i < hi < |b.spans| && hi < |b.targets| && IsRun(b, i, hi, segment)
    requires b.spans[hi - 1].length == segment && Adjacent(b, hi - 1) && 0 < b.spans[hi].length <= segment
    ensures IsRun(b, i, hi + 1, segment)
    decreases hi - i
  {
    if i + 1 < hi {
      RunGrows(b, i + 1, hi, segment);
    }
  }

  lemma ItemsJoin(b: Batch, lo: nat, mid: nat, hi: nat)
    requires lo <= mid <= hi <= |b.targets| && hi <= |b.spans|
    requires forall i | lo <= i < hi :: SpanOk(b, i)
    ensures lo < |b.spans| && mid == lo + 1 ==> Items(b, lo, mid) == [Item(b, lo)]
    ensures Items(b, lo, mid) + Items(b, mid, hi) == Items(b, lo, hi)
  {
  }

  /** A run's bytes are those from where its first datagram starts to where its last one ends. */
  lemma {:induction false} RunLies(b: Batch, i: nat, hi: nat, segment: nat)
    requires i < hi <= |b.spans| && hi <= |b.targets|
    requires forall k | i <= k < hi :: SpanOk(b, k)
    requires IsRun(b, i, hi, segment)
    ensures 0 < Total(b, i, hi)
    ensures b.spans[i].position + Total(b, i, hi) == b.spans[hi - 1].position + b.spans[hi - 1].length
    ensures SpanOk(b, i) && b.spans[i].position + Total(b, i, hi) <= |b.chunks[b.spans[i].chunk]|
    decreases hi - i
  {
    if i + 1 == hi {
      assert Total(b, i + 1, hi) == 0;
    } else {
      RunLies(b, i + 1, hi, segment);
    }
  }

  /** A datagram's bytes and others after them, cut at its length: itself, and the others cut. */
  lemma CutFirst(head: seq<byte>, rest: seq<byte>, target: Target)
    requires head != [] && rest != []
    ensures Cut(head + rest, |head|, target) == [Datagram(head, target)] + Cut(rest, |head|, target)
  {
    assert (head + rest)[..|head|] == head;
    assert (head + rest)[|head|..] == rest;
  }

  /** A datagram's bytes with those that start where it ends. */
  lemma SlicesJoin(b: Batch, i: nat, rest: nat)
    requires i + 1 < |b.spans| && i + 1 < |b.targets| && Adjacent(b, i) && SpanOk(b, i) && SpanOk(b, i + 1)
    requires rest <= |b.chunks[b.spans[i + 1].chunk]| - b.spans[i + 1].position
    ensures Slice(b, i, b.spans[i].length) + Slice(b, i + 1, rest) == Slice(b, i, b.spans[i].length + rest)
  {
  }

  /** A run sent whole and cut every `segment` bytes puts its own datagrams on the wire. */
  lemma {:induction false} CutIsTheRun(b: Batch, i: nat, hi: nat, segment: nat)
    requires i < hi <= |b.spans| && hi <= |b.targets|
    requires forall k | i <= k < hi :: SpanOk(b, k)
    requires segment > 0 && IsRun(b, i, hi, segment)
    requires SpanOk(b, i) && 0 < Total(b, i, hi) <= |b.chunks[b.spans[i].chunk]| - b.spans[i].position
    ensures Cut(Slice(b, i, Total(b, i, hi)), segment, b.targets[i]) == Items(b, i, hi)
    decreases hi - i
  {
    ItemsJoin(b, i, i + 1, hi);
    if i + 1 == hi {
      assert Total(b, i + 1, hi) == 0;
    } else {
      RunLies(b, i + 1, hi, segment);
      CutIsTheRun(b, i + 1, hi, segment);
      var rest := Total(b, i + 1, hi);
      SlicesJoin(b, i, rest);
      CutFirst(Slice(b, i, segment), Slice(b, i + 1, rest), b.targets[i]);
    }
  }

  datatype Answer = Went | Refused | Failed

  /** The socket, what has gone out on it, and whether the kernel is thought to cut. */
  class Socket {
    ghost var wire: seq<Datagram>
    ghost var stops: nat  // sends that failed, or stopped short
    var cuts: bool

    constructor ()
      ensures wire == [] && cuts
    {
      wire, stops, cuts := [], 0, true;
    }

    /** The process-wide flag, which another thread may have cleared; nothing sets it again. */
    method Cuts() returns (r: bool)
      modifies this`cuts
      ensures r == cuts && (cuts ==> old(cuts))
    {
      if * {
        cuts := false;
      }
      r := cuts;
    }

    /** sendmsg with UDP_SEGMENT: all of it, cut, or none. The segment travels as 16 bits. */
    method SendSegmented(bytes: seq<byte>, segment: int, target: Target) returns (a: Answer)
      requires 0 < segment < 0x1_0000
      modifies this`wire, this`stops
      ensures a.Went? ==> wire == old(wire) + Cut(bytes, segment, target)
      ensures !a.Went? ==> wire == old(wire)
      ensures stops == old(stops) + if a.Failed? then 1 else 0
    {
      if * {
        a := Went;
        wire := wire + Cut(bytes, segment, target);
      } else if * {
        a := Refused;
      } else {
        a := Failed;
        stops := stops + 1;
      }
    }

    /** sendmmsg: the first `r` of the messages, or an error (-1). */
    method SendMany(messages: seq<Datagram>) returns (r: int)
      modifies this`wire, this`stops
      ensures -1 <= r <= |messages|
      ensures stops == old(stops) + if r < |messages| then 1 else 0
      ensures wire == old(wire) + messages[..if r < 0 then 0 else r]
    {
      if * {
        r := -1;
      } else {
        r :| 0 <= r <= |messages|;
        wire := wire + messages[..r];
      }
      if r < |messages| {
        stops := stops + 1;
      }
    }
  }

  /** Datagram `k` goes on from a run of `total` bytes at `first`, and leaves room for it in one send. */
  predicate GoesOn(b: Batch, first: nat, k: nat, total: int)
    requires first < |b.spans| && first < |b.targets| && k < |b.spans| && k < |b.targets|
  {
    && b.targets[k] == b.targets[first] && b.spans[k].chunk == b.spans[first].chunk
    && b.spans[k].position == b.spans[first].position + total
    && 0 < b.spans[k].length <= b.spans[first].length && total + b.spans[k].length <= MOST_BYTES
  }

  /** crossbyte_gso_run: how many datagrams from `first` make a run, and their bytes. */
  method GsoRun(b: Batch, first: nat, count: nat) returns (run: nat, total: int)
    requires Accepted(b, first, count) && first < count
    ensures 1 <= run <= BATCH && first + run <= count
    ensures total == Total(b, first, first + run)
    ensures run >= 2 ==> 0 < b.spans[first].length && IsRun(b, first, first + run, b.spans[first].length)
    ensures run >= 2 ==> total <= MOST_BYTES
    ensures 0 < b.spans[first].length == b.spans[first + run - 1].length && first + run < count && run < BATCH ==>
              !GoesOn(b, first, first + run, total)
  {
    var segment := b.spans[first].length;
    total := segment;
    run := 1;
    assert total == Total(b, first, first + 1) by {
      assert Total(b, first + 1, first + 1) == 0;
    }
    if segment <= 0 {
      return;
    }
    while first + run < count && run < BATCH
      invariant 1 <= run <= BATCH && first + run <= count
      invariant total == Total(b, first, first + run)
      invariant IsRun(b, first, first + run, segment)
      invariant b.targets[first + run - 1] == b.targets[first] && b.spans[first + run - 1].chunk == b.spans[first].chunk
      invariant b.spans[first + run - 1].length == segment
      invariant b.spans[first].position + total == b.spans[first + run - 1].position + segment
      invariant 0 < total && (run >= 2 ==> total <= MOST_BYTES)
    {
      var k := first + run;
      var length := b.spans[k].length;
      assert SpanOk(b, first) && SpanOk(b, k - 1) && SpanOk(b, k);
      if b.targets[k] != b.targets[first] || b.spans[k].chunk != b.spans[first].chunk
         || b.spans[k].position != Sum(b.spans[first].position, total)
         || length <= 0 || length > segment || Sum(total, length) > MOST_BYTES {
        break;
      }
      TotalOneMore(b, first, k);
      RunGrows(b, first, k, segment);
      total := Sum(total, length);
      run := run + 1;
      if length < segment {
        break;
      }
    }
  }

  datatype Outcome = Invalid | Sent(count: nat)

  /**
   The call: refuses a batch that does not lie in its chunks before anything goes, and otherwise
   puts on the wire exactly the datagrams it counts, each with its own bytes to its own target,
   in their order. It falls short of the batch only where a send failed or stopped short.
   */
  method SendBatch(socket: Socket, b: Batch, first: int, count: int) returns (r: Outcome)
    modifies socket
    ensures r.Invalid? <==> !Accepted(b, first, count)
    ensures r.Invalid? ==> socket.wire == old(socket.wire)
    ensures r.Sent? ==> first + r.count <= count && socket.wire == old(socket.wire) + Items(b, first, first + r.count)
    ensures r.Sent? && first + r.count < count ==> socket.stops == old(socket.stops) + 1
    ensures socket.cuts ==> old(socket.cuts)
  {
    var ok := CheckBatch(b, first, count);
    if !ok {
      return Invalid;
    }
    var sent := 0;
    var i := first;
    while i < count
      invariant first <= i <= count && sent == i - first
      invariant socket.wire == old(socket.wire) + Items(b, first, i) && socket.stops == old(socket.stops)
      invariant socket.cuts ==> old(socket.cuts)
      decreases count - i
    {
      var run, a := SendRun(socket, b, i, count);
      if run >= 2 && a.Went? {
        WireJoins(old(socket.wire), b, first, i, i + run);
        i := i + run;
        sent := sent + run;
        continue;
      }
      if run >= 2 && a.Failed? {
        return Sent(sent);
      }
      var result, all := SendSome(socket, b, i, count);
      if result <= 0 {
        return Sent(sent);
      }
      WireJoins(old(socket.wire), b, first, i, i + result);
      i := i + result;
      sent := sent + result;
      if !all {
        return Sent(sent);
      }
    }
    return Sent(sent);
  }

  lemma WireJoins(wire: seq<Datagram>, b: Batch, lo: nat, mid: nat, hi: nat)
    requires lo <= mid <= hi <= |b.targets| && hi <= |b.spans|
    requires forall i | lo <= i < hi :: SpanOk(b, i)
    ensures wire + Items(b, lo, mid) + Items(b, mid, hi) == wire + Items(b, lo, hi)
  {
    ItemsJoin(b, lo, mid, hi);
  }

  /** Up to BATCH datagrams from `i` in one sendmmsg: how many went, or an error, and whether all did. */
  method SendSome(socket: Socket, b: Batch, i: nat, count: nat) returns (result: int, all: bool)
    requires Accepted(b, i, count) && i < count
    modifies socket
    ensures -1 <= result <= count - i && (socket.cuts ==> old(socket.cuts))
    ensures socket.wire == old(socket.wire) + Items(b, i, i + if result < 0 then 0 else result)
    ensures socket.stops == old(socket.stops) + if all then 0 else 1
    ensures all ==> result > 0
  {
    var messages := Gather(socket, b, i, count);
    result := socket.SendMany(messages);
    all := result == |messages|;
    assert messages[..if result < 0 then 0 else result] == Items(b, i, i + if result < 0 then 0 else result);
  }

  /** The run at `i`, if there is one and the kernel cuts, as one send: a refusal is remembered. */
  method SendRun(socket: Socket, b: Batch, i: nat, count: nat) returns (run: nat, a: Answer)
    requires Accepted(b, i, count) && i < count
    modifies socket
    ensures i + run <= count && (socket.cuts ==> old(socket.cuts))
    ensures run >= 2 && a.Refused? ==> !socket.cuts
    ensures socket.stops == old(socket.stops) + if run >= 2 && a.Failed? then 1 else 0
    ensures socket.wire == old(socket.wire) + if run >= 2 && a.Went? then Items(b, i, i + run) else []
  {
    a := Refused;
    var cuts := socket.Cuts();
    if !cuts {
      return 0, a;
    }
    var total;
    run, total := GsoRun(b, i, count);
    if run >= 2 {
      var segment := b.spans[i].length;
      RunLies(b, i, i + run, segment);
      RunLies(b, i + 1, i + run, segment);
      CutIsTheRun(b, i, i + run, segment);
      a := socket.SendSegmented(Slice(b, i, total), segment, b.targets[i]);
      if a.Refused? {
        socket.cuts := false;
      }
    }
  }

  /** Up to BATCH datagrams from `i`, at least one, stopping short of the next run worth cutting. */
  method Gather(socket: Socket, b: Batch, i: nat, count: nat) returns (messages: seq<Datagram>)
    requires Accepted(b, i, count) && i < count
    modifies socket`cuts
    ensures 1 <= |messages| <= BATCH && i + |messages| <= count
    ensures messages == Items(b, i, i + |messages|)
    ensures socket.cuts ==> old(socket.cuts)
  {
    var n := 0;
    messages := [];
    while i + n < count && n < BATCH
      invariant n <= BATCH && i + n <= count && n == |messages|
      invariant messages == Items(b, i, i + n)
      invariant socket.cuts ==> old(socket.cuts)
      decreases BATCH - n
    {
      var k := i + n;
      if n > 0 {
        var cuts := socket.Cuts();
        if cuts {
          var run, _ := GsoRun(b, k, count);
          if run >= 2 {
            break;
          }
        }
      }
      messages := messages + [Item(b, k)];
      n := n + 1;
    }
  }

  /** The checks at the head of the call, datagram by datagram. */
  method CheckBatch(b: Batch, first: int, count: int) returns (ok: bool)
    ensures ok <==> Accepted(b, first, count)
  {
    if first < 0 || count < first || count > |b.targets| || count > |b.spans| {
      return false;
    }
    var i := first;
    while i < count
      invariant first <= i <= count
      invariant forall k | first <= k < i :: SpanOk(b, k)
    {
      var Span(chunk, position, length) := b.spans[i];
      if chunk < 0 || chunk >= |b.chunks| {
        assert !SpanOk(b, i);
        return false;
      }
      var chunkLength := |b.chunks[chunk]|;
      if chunkLength <= 0 || position < 0 || length < 0 || position > chunkLength || length > chunkLength - position {
        assert !SpanOk(b, i);
        return false;
      }
      i := i + 1;
    }
    return true;
  }
}
