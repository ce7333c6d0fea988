/** The echo endpoint of the browser suite, and the load client that reads what it sends back. */
module WebSocketEcho {
  import opened Basics
  import opened WebSocketFrames
  import opened FrameStreams

  // ---------- the endpoint ----------

  const CLOSE_ME: Bytes := [99, 108, 111, 115, 101, 45, 109, 101]

  /** A close frame, or the message that asks for one. */
  predicate Closes(f: Frame) { f.opcode == 8 || f.payload == CLOSE_ME }

  predicate IsData(f: Frame) { f.opcode == 1 || f.opcode == 2 }

  /** echoFrame: a length past 16 bits loses its high bits, as the bytes of a Buffer do. */
  function EchoFrame(f: Frame): Bytes
    requires f.opcode < 16
  {
    [128 + f.opcode] + (EchoLength(|f.payload|) + f.payload)
  }

  function EchoLength(n: nat): Bytes {
    if n < 126 then [n] else [126, n / 256 % 256, n % 256]
  }

  const BYE := Frame(8, [3, 232])
  const GOODBYE := EchoFrame(BYE)

  /** Each message back, and goodbye to a close. */
  function Echo(f: Frame): Bytes {
    if Closes(f) then GOODBYE else if IsData(f) then EchoFrame(f) else []
  }

  function EchoReader(): Reader { Reader(Parse, Closes, Echo) }

  lemma EchoReaderIsSure()
    ensures Sure(EchoReader())
  {
    forall s, more | Parse(s).Some? ensures Parse(s + more) == Some((Parse(s).value.0, Parse(s).value.1 + more)) {
      ParseMore(s, more);
    }
  }

  /** The body of the handler's loop: a whole frame's header read and its payload unmasked in place. */
  method TakeFrame(pending: Bytes) returns (r: Option<(Frame, Bytes)>)
    requires |pending| >= 2
    ensures r == Parse(pending)
  {
    var opcode := pending[0] % 16;
    var length: nat := pending[1] % 128;
    var offset := 2;
    if length == 126 {
      if |pending| < 4 {
        return None;
      }
      length := pending[2] as int * 256 + pending[3] as int;
      offset := 4;
    }
    var mask := offset;
    offset := offset + 4;
    if |pending| < offset + length {
      return None;
    }
    var payload := new byte[length];
    forall i | 0 <= i < length {
      payload[i] := pending[offset + i];
    }
    for i := 0 to length
      invariant forall k | 0 <= k < i :: payload[k] == Xor(pending[offset + k], pending[mask + k % 4])
      invariant forall k | i <= k < length :: payload[k] == pending[offset + k]
    {
      payload[i] := Xor(payload[i], pending[mask + i % 4]);
    }
    assert payload[..] == Masked(pending[offset..offset + length], pending[mask..mask + 4]);
    return Some((Frame(opcode, payload[..]), pending[offset + length..]));
  }

  // ---------- the load client ----------

  datatype Got = Wait | Bad | Got(frame: Frame, rest: Bytes)

  function BigEndian(s: Bytes): nat {
    if s == [] then 0 else BigEndian(s[..|s| - 1]) * 256 + s[|s| - 1] as int
  }

  /** One step of readFrame: a masked frame is refused, and lengths of 16 and 64 bits are read. */
  function ReadOne(s: Bytes): (r: Got)
    ensures r.Got? ==> |r.rest| < |s|
  {
    if |s| < 2 then Wait
    else if s[1] >= 128 then Bad
    else
      var wide := if s[1] == 126 then 2 else if s[1] == 127 then 8 else 0;
      if |s| < 2 + wide then Wait
      else
        var length := if wide == 0 then s[1] as int else BigEndian(s[2..2 + wide]);
        if |s| < 2 + wide + length then Wait
        else Got(Frame(s[0] % 16, s[2 + wide..2 + wide + length]), s[2 + wide + length..])
  }

  /** readFrame: the next frame that is neither a ping nor a pong, if it is all there. */
  function ReadFrame(s: Bytes): Got
    decreases |s|
  {
    match ReadOne(s)
    case Got(f, rest) => if f.opcode == 9 || f.opcode == 10 then ReadFrame(rest) else Got(f, rest)
    case other => other
  }

  function ReadWhole(s: Bytes): Option<(Frame, Bytes)> {
    match ReadFrame(s)
    case Got(f, rest) => Some((f, rest))
    case _ => None
  }

  function ClientReader(): Reader { Reader(ReadWhole, _ => false, _ => []) }

  lemma ReadOneMore(s: Bytes, more: Bytes)
    requires ReadOne(s).Got?
    ensures ReadOne(s + more) == Got(ReadOne(s).frame, ReadOne(s).rest + more)
  {
    var wide := if s[1] == 126 then 2 else if s[1] == 127 then 8 else 0;
    assert (s + more)[2..2 + wide] == s[2..2 + wide];
    var length := if wide == 0 then s[1] as int else BigEndian(s[2..2 + wide]);
    assert (s + more)[2 + wide..2 + wide + length] == s[2 + wide..2 + wide + length];
    assert (s + more)[2 + wide + length..] == s[2 + wide + length..] + more;
  }

  lemma {:induction false} ReadFrameMore(s: Bytes, more: Bytes)
    requires ReadFrame(s).Got?
    ensures ReadFrame(s + more) == Got(ReadFrame(s).frame, ReadFrame(s).rest + more)
    ensures |ReadFrame(s).rest| < |s|
    decreases |s|
  {
    ReadOneMore(s, more);
    var Got(f, rest) := ReadOne(s);
    if f.opcode == 9 || f.opcode == 10 {
      ReadFrameMore(rest, more);
    }
  }

  lemma ClientReaderIsSure()
    ensures Sure(ClientReader())
  {
    forall s, more | ReadWhole(s).Some?
      ensures ReadWhole(s + more) == Some((ReadWhole(s).value.0, ReadWhole(s).value.1 + more))
    {
      ReadFrameMore(s, more);
    }
    forall s | ReadWhole(s).Some? ensures |ReadWhole(s).value.1| < |s| {
      ReadFrameMore(s, []);
    }
  }

  /** What the client makes of an echoed frame: the frame, just when its payload is below 65,536 bytes. */
  lemma EchoFrameRead(f: Frame, rest: Bytes)
    requires f.opcode < 16
    ensures ReadOne(EchoFrame(f) + rest) == Got(f, rest) <==> |f.payload| < 0x1_0000
  {
    var n := |f.payload|;
    var s := EchoFrame(f) + rest;
    if n < 126 {
      assert s[2..2 + n] == f.payload && s[2 + n..] == rest;
    } else {
      assert s[2..4] == [n / 256 % 256, n % 256];
      assert BigEndian(s[2..4]) == n % 0x1_0000 by { TwoBytes(n); }
      var length := n % 0x1_0000;
      if n < 0x1_0000 {
        assert s[4..4 + n] == f.payload && s[4 + n..] == rest;
      }
      assert ReadOne(s).Got? && |ReadOne(s).frame.payload| == length;
    }
  }

  lemma TwoBytes(n: nat)
    ensures BigEndian([n / 256 % 256, n % 256]) == n % 0x1_0000
  {
    var a: byte, b: byte := n / 256 % 256, n % 256;
    assert [a, b][..1] == [a] && [a][..0] == [];
    assert BigEndian([a]) == a;
    assert n == n / 256 * 256 + n % 256;
    assert n / 256 == n / 256 / 256 * 256 + n / 256 % 256;
  }

  // ---------- there and back ----------

  function MaskedAll(fs: seq<Frame>, masks: seq<Bytes>): (r: seq<Bytes>)
    requires |masks| == |fs| && forall i | 0 <= i < |fs| :: Writable(fs[i]) && |masks[i]| == 4
    ensures |r| == |fs| && forall i | 0 <= i < |fs| :: r[i] == MaskedFrame(fs[i], masks[i])
  {
    seq(|fs|, (i: nat) requires i < |fs| => MaskedFrame(fs[i], masks[i]))
  }

  /**
   Frames the client masks and sends, whatever the masks and however the stream is cut, are what the
   endpoint parses, up to the first that closes.
   */
  lemma EndpointReadsFrames(fs: seq<Frame>, masks: seq<Bytes>, chunks: seq<Bytes>)
    requires |masks| == |fs| && forall i | 0 <= i < |fs| :: Writable(fs[i]) && |masks[i]| == 4
    requires Joined(chunks) == Joined(MaskedAll(fs, masks))
    ensures Sure(EchoReader()) && UpToStop(EchoReader(), Fed(EchoReader(), chunks).0) == UpToStop(EchoReader(), fs)
  {
    EchoReaderIsSure();
    var r := EchoReader();
    var texts := MaskedAll(fs, masks);
    forall i, rest | 0 <= i < |fs| ensures r.parse(texts[i] + rest) == Some((fs[i], rest)) {
      FrameParsed(fs[i], masks[i], rest);
    }
    ChunksDontMatter(r, chunks);
    JoinedFromFront(texts);
    PrintedRead(r, texts, fs);
  }

  function EchoAll(fs: seq<Frame>): (r: seq<Bytes>)
    requires forall i | 0 <= i < |fs| :: fs[i].opcode < 16
    ensures |r| == |fs| && forall i | 0 <= i < |fs| :: r[i] == EchoFrame(fs[i])
  {
    seq(|fs|, (i: nat) requires i < |fs| => EchoFrame(fs[i]))
  }

  /** The data frames before the first that closes. */
  function DataBefore(fs: seq<Frame>): seq<Frame> {
    if fs == [] || Closes(fs[0]) then [] else (if IsData(fs[0]) then [fs[0]] else []) + DataBefore(fs[1..])
  }

  /** What the client is to read: those, and then the goodbye if there was a close. */
  function Replies(fs: seq<Frame>): seq<Frame> {
    DataBefore(fs) + if Stopped(EchoReader(), fs) then [BYE] else []
  }

  predicate AllWritable(fs: seq<Frame>) { forall i | 0 <= i < |fs| :: Writable(fs[i]) }

  /** No parsed payload is longer than echoFrame's two bytes of length can say. */
  lemma {:induction false} ParsedAreWritable(s: Bytes)
    requires Sure(EchoReader())
    ensures AllWritable(ParseAll(EchoReader(), s).0)
    decreases |s|
  {
    var r := EchoReader();
    if r.parse(s).Some? && !r.stops(r.parse(s).value.0) {
      ParsedAreWritable(r.parse(s).value.1);
    }
  }

  lemma {:induction false} RepliesFirst(f: Frame, fs: seq<Frame>)
    ensures Replies([f] + fs) == if Closes(f) then [BYE] else (if IsData(f) then [f] else []) + Replies(fs)
    ensures AllWritable([f] + fs) ==> Writable(f) && AllWritable(fs)
  {
    assert ([f] + fs)[1..] == fs && ([f] + fs)[0] == f;
    if !Closes(f) {
      var head := if IsData(f) then [f] else [];
      Associates(head, DataBefore(fs), if Stopped(EchoReader(), fs) then [BYE] else []);
    }
    if AllWritable([f] + fs) {
      forall i | 0 <= i < |fs| ensures Writable(fs[i]) {
        assert ([f] + fs)[i + 1] == fs[i];
      }
    }
  }

  predicate NoPings(fs: seq<Frame>) { forall i | 0 <= i < |fs| :: fs[i].opcode != 9 && fs[i].opcode != 10 }

  lemma {:induction false} RepliesWritable(fs: seq<Frame>)
    requires AllWritable(fs)
    ensures AllWritable(Replies(fs)) && NoPings(Replies(fs))
  {
    if fs != [] {
      assert fs == [fs[0]] + fs[1..];
      RepliesFirst(fs[0], fs[1..]);
      RepliesWritable(fs[1..]);
    }
  }

  /** What the endpoint writes up to the first close is the echoes of those. */
  lemma {:induction false} AnsweredIsEchoes(fs: seq<Frame>)
    requires AllWritable(fs)
    ensures AllWritable(Replies(fs)) && NoPings(Replies(fs))
    ensures Answered(EchoReader(), UpToStop(EchoReader(), fs)) == FromFront(EchoAll(Replies(fs)))
  {
    RepliesWritable(fs);
    var r := EchoReader();
    if fs != [] {
      var f, rest := fs[0], fs[1..];
      assert fs == [f] + rest;
      RepliesFirst(f, rest);
      Prepend(r, f, rest);
      AnsweredOne(r, f);
      if Closes(f) {
        EchoedOne(BYE, []);
      } else {
        AnsweredIsEchoes(rest);
        AnsweredMore(r, [f], UpToStop(r, rest));
        if IsData(f) {
          EchoedOne(f, Replies(rest));
        } else {
          assert [] + Replies(rest) == Replies(rest);
        }
      }
    }
  }

  lemma AnsweredOne(r: Reader, f: Frame)
    ensures Answered(r, [f]) == r.answers(f)
  {
    assert [f][..0] == [];
    assert Answered(r, [f]) == [] + r.answers(f);
  }

  lemma EchoedOne(f: Frame, fs: seq<Frame>)
    requires Writable(f) && AllWritable(fs)
    ensures AllWritable([f] + fs) && FromFront(EchoAll([f] + fs)) == EchoFrame(f) + FromFront(EchoAll(fs))
  {
    assert EchoAll([f] + fs)[1..] == EchoAll(fs);
  }

  /**
   There and back, for any bytes that come to the endpoint in any chunks: the client, with what the
   endpoint has written cut anywhere, reads exactly the data frames before the first close, and then
   the goodbye if there was a close.
   */
  lemma ClientReadsEchoes(chunks: seq<Bytes>, back: seq<Bytes>)
    requires Sure(EchoReader())
    requires Joined(back) == Answered(EchoReader(), UpToStop(EchoReader(), Fed(EchoReader(), chunks).0))
    ensures Sure(ClientReader()) && Fed(ClientReader(), back).0 == Replies(Fed(EchoReader(), chunks).0)
  {
    WrittenIsEchoes(chunks);
    EchoesRead(Replies(Fed(EchoReader(), chunks).0), back);
  }

  lemma WrittenIsEchoes(chunks: seq<Bytes>)
    requires Sure(EchoReader())
    ensures var fs := Fed(EchoReader(), chunks).0;
      && AllWritable(Replies(fs)) && NoPings(Replies(fs))
      && Answered(EchoReader(), UpToStop(EchoReader(), fs)) == FromFront(EchoAll(Replies(fs)))
  {
    var e := EchoReader();
    var fs := Fed(e, chunks).0;
    ChunksDontMatter(e, chunks);
    ParsedAreWritable(Joined(chunks));
    UpToStopTwice(e, fs);
    RepliesStop(fs);
    AnsweredIsEchoes(UpToStop(e, fs));
  }

  lemma {:induction false} UpToStopTwice(r: Reader, fs: seq<Frame>)
    ensures UpToStop(r, UpToStop(r, fs)) == UpToStop(r, fs)
  {
    if fs != [] {
      Prepend(r, fs[0], if r.stops(fs[0]) then [] else UpToStop(r, fs[1..]));
      if !r.stops(fs[0]) {
        UpToStopTwice(r, fs[1..]);
      } else {
        assert [fs[0]] + [] == [fs[0]];
      }
    }
  }

  /** What comes after a close changes no reply. */
  lemma {:induction false} RepliesStop(fs: seq<Frame>)
    ensures Replies(UpToStop(EchoReader(), fs)) == Replies(fs)
  {
    if fs != [] {
      assert fs == [fs[0]] + fs[1..];
      RepliesFirst(fs[0], fs[1..]);
      if Closes(fs[0]) {
        assert [fs[0]] + [] == [fs[0]];
        RepliesFirst(fs[0], []);
      } else {
        RepliesStop(fs[1..]);
        RepliesFirst(fs[0], UpToStop(EchoReader(), fs[1..]));
      }
    }
  }

  /** Echoed frames that are neither pings nor pongs are read back, however their stream is cut. */
  lemma EchoesRead(fs: seq<Frame>, back: seq<Bytes>)
    requires AllWritable(fs) && Joined(back) == FromFront(EchoAll(fs))
    requires NoPings(fs)
    ensures Sure(ClientReader()) && Fed(ClientReader(), back).0 == fs
  {
    ClientReaderIsSure();
    var r := ClientReader();
    var texts := EchoAll(fs);
    forall i, rest | 0 <= i < |fs| ensures r.parse(texts[i] + rest) == Some((fs[i], rest)) {
      EchoFrameRead(fs[i], rest);
    }
    PrintedRead(r, texts, fs);
    ChunksDontMatter(r, back);
    NeverStops(r, fs);
    NeverStops(r, Fed(r, back).0);
  }

  lemma {:induction false} NeverStops(r: Reader, fs: seq<Frame>)
    requires forall f :: !r.stops(f)
    ensures UpToStop(r, fs) == fs && !Stopped(r, fs)
  {
    if fs != [] {
      NeverStops(r, fs[1..]);
    }
  }
}
