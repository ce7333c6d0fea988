/** The integers of the blocks between PostgresConnection and the libpq bridge: 32 bits, little-endian. */
module PostgresInts {
  import opened Basics

  const TWO_TO_31 := 0x8000_0000
  const TWO_TO_32 := 0x1_0000_0000

  type int32 = v: int | -TWO_TO_31 <= v < TWO_TO_31
  type uint32 = v: int | 0 <= v < TWO_TO_32

  function Unsigned(v: int32): uint32 { if v < 0 then v + TWO_TO_32 else v }

  function Signed(u: uint32): int32 { if u < TWO_TO_31 then u else u - TWO_TO_32 }

  function Pow256(n: nat): nat { if n == 0 then 1 else 256 * Pow256(n - 1) }

  /** The low `n` bytes of `u`, least significant first. */
  function Bytes(u: nat, n: nat): (r: seq<byte>)
    ensures |r| == n
    decreases n, u
  {
    if n == 0 then [] else [u % 256] + Bytes(u / 256, n - 1)
  }

  function FromBytes(b: seq<byte>): (u: nat)
    ensures u < Pow256(|b|)
  {
    if b == [] then 0 else b[0] as int + 256 * FromBytes(b[1..])
  }

  /** putUInt */
  function LittleU(u: uint32): (r: seq<byte>)
    ensures |r| == 4
  {
    Bytes(u, 4)
  }

  /** putInt */
  function Little(v: int32): (r: seq<byte>)
    ensures |r| == 4
  {
    LittleU(Unsigned(v))
  }

  function FromLittle(b: seq<byte>): uint32
    requires |b| == 4
  {
    assert Pow256(4) == TWO_TO_32 by { FourBytes(); }
    FromBytes(b)
  }

  lemma FourBytes()
    ensures Pow256(4) == TWO_TO_32
  {
    assert Pow256(4) == 256 * Pow256(3) == 0x1_0000 * Pow256(2);
  }

  /** takeInt: the signed value at the front of `s`, and what follows it, unless fewer than four bytes are there. */
  function TakeInt(s: seq<byte>): (r: Option<(int32, seq<byte>)>)
    ensures r.Some? <==> |s| >= 4
  {
    if |s| < 4 then None else Some((Signed(FromLittle(s[..4])), s[4..]))
  }

  lemma {:induction false} BytesInvert(u: nat, n: nat)
    requires u < Pow256(n)
    ensures FromBytes(Bytes(u, n)) == u
  {
    if n > 0 {
      BytesInvert(u / 256, n - 1);
      assert Bytes(u, n)[1..] == Bytes(u / 256, n - 1);
    }
  }

  lemma {:induction false} FromBytesInverts(b: seq<byte>)
    ensures Bytes(FromBytes(b), |b|) == b
  {
    if b != [] {
      FromBytesInverts(b[1..]);
    }
  }

  lemma TakenFromTheFront(s: seq<byte>)
    requires |s| >= 4
    ensures s == Little(TakeInt(s).value.0) + TakeInt(s).value.1
  {
    FromBytesInverts(s[..4]);
    assert s == s[..4] + s[4..];
  }

  /** readUInt */
  lemma TakeLittleU(u: uint32, rest: seq<byte>)
    ensures TakeInt(LittleU(u) + rest) == Some((Signed(u), rest)) && Unsigned(Signed(u)) == u
  {
    FourBytes();
    BytesInvert(u, 4);
    var s := LittleU(u) + rest;
    assert s[..4] == LittleU(u);
    assert s[4..] == rest;
  }

  lemma TakeLittle(v: int32, rest: seq<byte>)
    ensures TakeInt(Little(v) + rest) == Some((v, rest))
  {
    TakeLittleU(Unsigned(v), rest);
  }
}
