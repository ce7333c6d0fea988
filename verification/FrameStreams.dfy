/**
 Reading frames from a stream that arrives in chunks, for any parser that is sure of a frame once it
 has all of it.
 */
module FrameStreams {
  import opened Basics
  import opened WebSocketFrames

  /** How a peer reads: its parser, the frames it stops at, and what it writes for each. */
  datatype Reader = Reader(parse: Bytes -> Option<(Frame, Bytes)>, stops: Frame -> bool, answers: Frame -> Bytes)

  /** A frame is parsed from the front, and is the same whatever follows it. */
  ghost predicate Sure(r: Reader) {
    && (forall s :: r.parse(s).Some? ==> |r.parse(s).value.1| < |s|)
    && (forall s, more ::
        r.parse(s).Some? ==> r.parse(s + more) == Some((r.parse(s).value.0, r.parse(s).value.1 + more)))
  }

  /** The frames in a stream up to the first that stops it, that one included, and what follows. */
  ghost function ParseAll(r: Reader, s: Bytes): (seq<Frame>, Bytes)
    requires Sure(r)
    decreases |s|
  {
    match r.parse(s)
    case None => ([], s)
    case Some((f, rest)) => if r.stops(f) then ([f], rest) else After(f, ParseAll(r, rest))
  }

  function After(f: Frame, p: (seq<Frame>, Bytes)): (seq<Frame>, Bytes) { ([f] + p.0, p.1) }

  /** `fs` up to the first that stops. */
  function UpToStop(r: Reader, fs: seq<Frame>): seq<Frame> {
    if fs == [] then [] else if r.stops(fs[0]) then [fs[0]] else [fs[0]] + UpToStop(r, fs[1..])
  }

  predicate Stopped(r: Reader, fs: seq<Frame>) { fs != [] && (r.stops(fs[0]) || Stopped(r, fs[1..])) }

  lemma Associates(a: seq<Frame>, b: seq<Frame>, c: seq<Frame>)
    ensures a + (b + c) == (a + b) + c
  {
  }

  lemma Prepend(r: Reader, f: Frame, fs: seq<Frame>)
    ensures Stopped(r, [f] + fs) <==> r.stops(f) || Stopped(r, fs)
    ensures UpToStop(r, [f] + fs) == if r.stops(f) then [f] else [f] + UpToStop(r, fs)
  {
    assert ([f] + fs)[1..] == fs;
  }

  lemma {:induction false} Append(r: Reader, fs: seq<Frame>, more: seq<Frame>)
    ensures UpToStop(r, fs + more) == if Stopped(r, fs) then UpToStop(r, fs) else fs + UpToStop(r, more)
    ensures Stopped(r, fs + more) <==> Stopped(r, fs) || Stopped(r, more)
  {
    if fs == [] {
      assert fs + more == more;
    } else {
      Append(r, fs[1..], more);
      assert (fs + more)[1..] == fs[1..] + more;
    }
  }

  lemma {:induction false} ParseAllStops(r: Reader, s: Bytes)
    requires Sure(r)
    ensures UpToStop(r, ParseAll(r, s).0) == ParseAll(r, s).0
    decreases |s|
  {
    if r.parse(s).Some? {
      var (f, rest) := r.parse(s).value;
      if r.stops(f) {
        Prepend(r, f, []);
      } else {
        ParseAllStops(r, rest);
        Prepend(r, f, ParseAll(r, rest).0);
      }
    }
  }

  /** More of a stream leaves the frames before it as they are, and goes on from where they ended. */
  lemma {:induction false} ParseAllMore(r: Reader, s: Bytes, more: Bytes)
    requires Sure(r)
    ensures var (fs, rest) := ParseAll(r, s);
            ParseAll(r, s + more) == if Stopped(r, fs) then (fs, rest + more)
                                     else var next := ParseAll(r, rest + more); (fs + next.0, next.1)
    decreases |s|
  {
    if r.parse(s).Some? {
      var (f, rest) := r.parse(s).value;
      assert r.parse(s + more) == Some((f, rest + more));
      if r.stops(f) {
        Prepend(r, f, []);
      } else {
        ParseAllMore(r, rest, more);
        var (fs, left) := ParseAll(r, rest);
        Prepend(r, f, fs);
        Associates([f], fs, ParseAll(r, left + more).0);
      }
    } else {
      assert [] + ParseAll(r, s + more).0 == ParseAll(r, s + more).0;
    }
  }

  /** What is written for the frames parsed, in their order. */
  function Answered(r: Reader, fs: seq<Frame>): Bytes {
    if fs == [] then [] else Answered(r, fs[..|fs| - 1]) + r.answers(fs[|fs| - 1])
  }

  class Endpoint {
    const reader: Reader
    var pending: Bytes
    var written: Bytes
    var ended: bool               // the socket takes no more writes
    ghost var frames: seq<Frame>  // parsed so far

    ghost predicate Valid()
      reads this
    {
      Sure(reader) && written == Answered(reader, UpToStop(reader, frames)) && (ended <==> Stopped(reader, frames))
    }

    constructor (reader: Reader)
      requires Sure(reader)
      ensures Valid() && this.reader == reader && (frames, pending) == Fed(reader, [])
    {
      this.reader := reader;
      pending, written, ended, frames := [], [], false, [];
    }

    /**
     A chunk arrives: every frame it completes is answered, up to one that stops the reading. Its
     answer ends the socket, and what is written after it goes nowhere.
     */
    method OnData(chunk: Bytes, ghost before: seq<Bytes>)
      requires Valid() && (frames, pending) == Fed(reader, before)
      modifies this
      ensures Valid() && (frames, pending) == Fed(reader, before + [chunk])
    {
      var parsed, rest, answers := Drain(reader, pending + chunk);
      assert (before + [chunk])[..|before|] == before;
      WrittenMore(reader, frames, pending + chunk);
      if !ended {
        written := written + answers;
        ended := parsed != [] && reader.stops(parsed[|parsed| - 1]);
      }
      pending, frames := rest, frames + parsed;
    }
  }

  /** What a peer has parsed, and has pending, once these chunks have arrived one after another. */
  ghost function Fed(r: Reader, chunks: seq<Bytes>): (seq<Frame>, Bytes)
    requires Sure(r)
  {
    if chunks == [] then ([], [])
    else
      var (fs, pending) := Fed(r, chunks[..|chunks| - 1]);
      var (more, rest) := ParseAll(r, pending + chunks[|chunks| - 1]);
      (fs + more, rest)
  }

  function Joined(chunks: seq<Bytes>): Bytes {
    if chunks == [] then [] else Joined(chunks[..|chunks| - 1]) + chunks[|chunks| - 1]
  }

  /**
   However a stream is cut into chunks, the frames read from it up to the first that stops the
   reading are those of the stream whole; and until one does, all of them are, with the same pending.
   */
  lemma {:induction false} ChunksDontMatter(r: Reader, chunks: seq<Bytes>)
    requires Sure(r)
    ensures UpToStop(r, Fed(r, chunks).0) == ParseAll(r, Joined(chunks)).0
    ensures !Stopped(r, Fed(r, chunks).0) ==> Fed(r, chunks) == ParseAll(r, Joined(chunks))
  {
    if chunks == [] {
      assert r.parse([]).None?;
    } else {
      var before, chunk := chunks[..|chunks| - 1], chunks[|chunks| - 1];
      ChunksDontMatter(r, before);
      var (fs, pending) := Fed(r, before);
      ParseAllMore(r, Joined(before), chunk);
      ParseAllStops(r, pending + chunk);
      Append(r, fs, ParseAll(r, pending + chunk).0);
      UpToStopStops(r, fs);
    }
  }

  lemma {:induction false} UpToStopStops(r: Reader, fs: seq<Frame>)
    ensures Stopped(r, UpToStop(r, fs)) <==> Stopped(r, fs)
  {
    if fs != [] && !r.stops(fs[0]) {
      UpToStopStops(r, fs[1..]);
      Prepend(r, fs[0], UpToStop(r, fs[1..]));
    }
  }

  lemma {:induction false} AnsweredMore(r: Reader, fs: seq<Frame>, more: seq<Frame>)
    ensures Answered(r, fs + more) == Answered(r, fs) + Answered(r, more)
  {
    if more == [] {
      assert fs + more == fs;
    } else {
      var n := |more| - 1;
      AnsweredMore(r, fs, more[..n]);
      assert (fs + more)[..|fs| + n] == fs + more[..n];
    }
  }

  /** What more of a stream adds to what is written, and whether it ends the writing. */
  lemma WrittenMore(r: Reader, fs: seq<Frame>, s: Bytes)
    requires Sure(r)
    ensures var more := ParseAll(r, s).0;
      && Answered(r, UpToStop(r, fs + more)) ==
         Answered(r, UpToStop(r, fs)) + (if Stopped(r, fs) then [] else Answered(r, more))
      && (Stopped(r, fs + more) <==> Stopped(r, fs) || (more != [] && r.stops(more[|more| - 1])))
  {
    var more := ParseAll(r, s).0;
    Append(r, fs, more);
    ParseAllStops(r, s);
    StopsLast(r, s);
    if Stopped(r, fs) {
      assert Answered(r, UpToStop(r, fs)) + [] == Answered(r, UpToStop(r, fs));
    } else {
      Append(r, fs, []);
      assert fs + [] == fs;
      AnsweredMore(r, fs, more);
    }
  }

  /** A frame that stops the reading is the last one read. */
  lemma {:induction false} StopsLast(r: Reader, s: Bytes)
    requires Sure(r)
    ensures var fs := ParseAll(r, s).0; Stopped(r, fs) <==> fs != [] && r.stops(fs[|fs| - 1])
    decreases |s|
  {
    if r.parse(s).Some? {
      var (f, rest) := r.parse(s).value;
      if r.stops(f) {
        Prepend(r, f, []);
      } else {
        StopsLast(r, rest);
        Prepend(r, f, ParseAll(r, rest).0);
      }
    }
  }

  /** The frames taken so far, and those still pending, are all there are. */
  ghost predicate Draining(r: Reader, s: Bytes, taken: seq<Frame>, pending: Bytes)
    requires Sure(r)
  {
    ParseAll(r, s) == (taken + ParseAll(r, pending).0, ParseAll(r, pending).1)
  }

  lemma DrainedOne(r: Reader, s: Bytes, taken: seq<Frame>, pending: Bytes, f: Frame, rest: Bytes)
    requires Sure(r) && Draining(r, s, taken, pending) && r.parse(pending) == Some((f, rest))
    ensures if r.stops(f) then ParseAll(r, s) == (taken + [f], rest) else Draining(r, s, taken + [f], rest)
    ensures Answered(r, taken + [f]) == Answered(r, taken) + r.answers(f)
  {
    assert (taken + [f])[..|taken|] == taken;
    Associates(taken, [f], ParseAll(r, rest).0);
  }

  /** The handler's loop over what is pending. */
  method Drain(r: Reader, s: Bytes) returns (frames: seq<Frame>, pending: Bytes, answers: Bytes)
    requires Sure(r)
    ensures (frames, pending) == ParseAll(r, s) && answers == Answered(r, frames)
  {
    pending, frames, answers := s, [], [];
    assert frames + ParseAll(r, s).0 == ParseAll(r, s).0;
    while true
      invariant answers == Answered(r, frames) && Draining(r, s, frames, pending)
      decreases |pending|
    {
      var next := r.parse(pending);
      if next.None? {
        assert frames + [] == frames;
        return;
      }
      var (f, rest) := next.value;
      DrainedOne(r, s, frames, pending, f, rest);
      pending, frames, answers := rest, frames + [f], answers + r.answers(f);
      if r.stops(f) {
        return;
      }
    }
  }

  // ---------- printers ----------

  /** Every text is one whole frame to the reader. */
  ghost predicate Prints(r: Reader, texts: seq<Bytes>, fs: seq<Frame>) {
    |texts| == |fs| && forall i, rest | 0 <= i < |fs| :: r.parse(texts[i] + rest) == Some((fs[i], rest))
  }

  function FromFront(texts: seq<Bytes>): Bytes {
    if texts == [] then [] else texts[0] + FromFront(texts[1..])
  }

  /** What is printed is read back, in order, up to a frame that stops the reading. */
  lemma {:induction false} PrintedRead(r: Reader, texts: seq<Bytes>, fs: seq<Frame>)
    requires Sure(r) && Prints(r, texts, fs)
    ensures ParseAll(r, FromFront(texts)).0 == UpToStop(r, fs)
  {
    if fs == [] {
      assert r.parse([]).None?;
    } else {
      var rest := FromFront(texts[1..]);
      assert r.parse(texts[0] + rest) == Some((fs[0], rest));
      forall i, more | 0 <= i < |fs| - 1 ensures r.parse(texts[1..][i] + more) == Some((fs[1..][i], more)) {
        assert r.parse(texts[i + 1] + more) == Some((fs[i + 1], more));
      }
      PrintedRead(r, texts[1..], fs[1..]);
    }
  }

  lemma {:induction false} JoinedFromFront(texts: seq<Bytes>)
    ensures Joined(texts) == FromFront(texts)
  {
    if texts != [] {
      JoinedFromFront(texts[..|texts| - 1]);
      FromFrontLast(texts);
    }
  }

  lemma {:induction false} FromFrontLast(texts: seq<Bytes>)
    requires texts != []
    ensures FromFront(texts) == FromFront(texts[..|texts| - 1]) + texts[|texts| - 1]
  {
    if |texts| > 1 {
      FromFrontLast(texts[1..]);
      assert texts[1..][..|texts| - 2] == texts[..|texts| - 1][1..];
    }
  }
}
