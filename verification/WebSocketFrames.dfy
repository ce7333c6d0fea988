/**
 WebSocket frames (sections 5.2 and 5.3 of RFC 6455) as the test peers write and read them: the load
 client's masked frames, read by the echo endpoint from a stream cut anywhere, and the endpoint's
 unmasked ones, read by the load client.
 */
module WebSocketFrames {
  import opened Basics

  type Bytes = seq<byte>

  datatype Frame = Frame(opcode: nat, payload: Bytes)

  predicate Writable(f: Frame) { f.opcode < 16 && |f.payload| < 0x1_0000 }

  // ---------- masking ----------

  /** Byte `i` against byte `i mod 4` of the mask. */
  function Masked(payload: Bytes, mask: Bytes): (r: Bytes)
    requires |mask| == 4
    ensures |r| == |payload|
    ensures forall i | 0 <= i < |payload| :: r[i] == Xor(payload[i], mask[i % 4])
  {
    seq(|payload|, (i: nat) requires i < |payload| => Xor(payload[i], mask[i % 4]))
  }

  lemma MaskedTwice(payload: Bytes, mask: Bytes)
    requires |mask| == 4
    ensures Masked(Masked(payload, mask), mask) == payload
  {
    forall i | 0 <= i < |payload| ensures Masked(Masked(payload, mask), mask)[i] == payload[i] {
      XorTwice(payload[i], mask[i % 4]);
    }
  }

  // ---------- the masked frame ----------

  /** The length as the second byte gives it, `bit` being the mask's. */
  function Length(n: nat, bit: byte): Bytes
    requires n < 0x1_0000 && (bit == 0 || bit == 128)
  {
    if n < 126 then [bit + n] else [bit + 126, n / 256, n % 256]
  }

  function MaskedFrame(f: Frame, mask: Bytes): Bytes
    requires Writable(f) && |mask| == 4
  {
    [128 + f.opcode] + (Length(|f.payload|, 128) + (mask + Masked(f.payload, mask)))
  }

  /** churn-client's frame(), filling its buffer; writeUInt16BE refuses a longer payload. */
  method WriteFrame(opcode: nat, payload: Bytes, mask: Bytes) returns (r: Option<Bytes>)
    requires opcode < 16 && |mask| == 4
    ensures r.Some? <==> |payload| < 0x1_0000
    ensures r.Some? ==> r.value == MaskedFrame(Frame(opcode, payload), mask)
  {
    var n := |payload|;
    if n >= 0x1_0000 {
      return None;
    }
    var head := if n < 126 then 6 else 8;
    var out := new byte[head + n];
    FillHead(out, head, opcode, n, mask);
    FillMasked(out, head, payload, mask);
    assert out[..] == out[..head] + out[head..];
    FrameParts([128 + opcode], Length(n, 128), mask, Masked(payload, mask));
    return Some(out[..]);
  }

  lemma FrameParts(a: Bytes, b: Bytes, c: Bytes, d: Bytes)
    ensures a + b + c + d == a + (b + (c + d))
  {
  }

  method FillHead(out: array<byte>, head: nat, opcode: nat, n: nat, mask: Bytes)
    requires opcode < 16 && |mask| == 4 && n < 0x1_0000 && head == (if n < 126 then 6 else 8) <= out.Length
    modifies out
    ensures out[..head] == [128 + opcode] + Length(n, 128) + mask
  {
    out[0] := 128 + opcode;
    if n < 126 {
      out[1] := 128 + n;
    } else {
      out[1] := 128 + 126;
      out[2], out[3] := n / 256, n % 256;
    }
    out[head - 4], out[head - 3], out[head - 2], out[head - 1] := mask[0], mask[1], mask[2], mask[3];
  }

  method FillMasked(out: array<byte>, head: nat, payload: Bytes, mask: Bytes)
    requires |mask| == 4 && out.Length == head + |payload|
    modifies out
    ensures out[..head] == old(out[..head]) && out[head..] == Masked(payload, mask)
  {
    for i := 0 to |payload|
      invariant out[..head] == old(out[..head])
      invariant forall k | 0 <= k < i :: out[head + k] == Xor(payload[k], mask[k % 4])
    {
      out[head + i] := Xor(payload[i], mask[i % 4]);
    }
  }

  /** One masked frame from the front of what has come, and what follows it, or none whole yet. */
  function Parse(s: Bytes): (r: Option<(Frame, Bytes)>)
    ensures r.Some? ==> |r.value.1| < |s| && Writable(r.value.0)
  {
    if |s| < 2 then None
    else
      var long := s[1] % 128 == 126;
      if long && |s| < 4 then None
      else
        var length := if long then s[2] as int * 256 + s[3] as int else s[1] % 128;
        var at := if long then 4 else 2;
        if |s| < at + 4 + length then None
        else Some((Frame(s[0] % 16, Masked(s[at + 4..at + 4 + length], s[at..at + 4])), s[at + 4 + length..]))
  }

  lemma FrameParsed(f: Frame, mask: Bytes, rest: Bytes)
    requires Writable(f) && |mask| == 4
    ensures Parse(MaskedFrame(f, mask) + rest) == Some((f, rest))
  {
    var n := |f.payload|;
    var s := MaskedFrame(f, mask) + rest;
    var at := if n < 126 then 2 else 4;
    assert s[0] == 128 + f.opcode && s[1] == Length(n, 128)[0];
    assert n >= 126 ==> s[2] == n / 256 && s[3] == n % 256;
    assert s[at..at + 4] == mask;
    assert s[at + 4..at + 4 + n] == Masked(f.payload, mask);
    assert s[at + 4 + n..] == rest;
    MaskedTwice(f.payload, mask);
  }

  /** A frame that is whole stays what it is, whatever comes after it. */
  lemma ParseMore(s: Bytes, more: Bytes)
    requires Parse(s).Some?
    ensures Parse(s + more) == Some((Parse(s).value.0, Parse(s).value.1 + more))
  {
    var long := s[1] % 128 == 126;
    var length := if long then s[2] as int * 256 + s[3] as int else s[1] % 128;
    var at := if long then 4 else 2;
    assert (s + more)[at..at + 4] == s[at..at + 4];
    assert (s + more)[at + 4..at + 4 + length] == s[at + 4..at + 4 + length];
    assert (s + more)[at + 4 + length..] == s[at + 4 + length..] + more;
  }
}
