/**
 decodeResult as the Haxe side sees it: the affected count, read as two unsigned halves, becomes a
 Float, which holds 53 bits of it.
 */
module PostgresDecoder {
  import opened Basics
  import opened PostgresInts
  import opened PostgresResult

  const TWO_TO_53 := 0x20_0000_0000_0000

  /** How far apart the Floats around a whole number are. */
  function Spacing(n: nat): (u: nat)
    ensures u >= 1
  {
    if n < TWO_TO_53 then 1 else 2 * Spacing(n / 2)
  }

  /**
   The sum of a high half times 2^32, which is exact, and a low half: the nearest Float, and of two
   as near the one that is even.
   */
  function Rounded(n: nat): nat {
    var u := Spacing(n);
    var q, rest := n / u, n % u;
    if 2 * rest < u || (2 * rest == u && q % 2 == 0) then n - rest else n - rest + u
  }

  /** A number is a Float itself just when it is a multiple of their spacing. */
  lemma ExactIff(n: nat)
    ensures Rounded(n) == n <==> n % Spacing(n) == 0
    ensures n < TWO_TO_53 ==> Rounded(n) == n
  {
  }

  /** decodeResult */
  function Received(block: Text): Decoded {
    match Decode(block, true)
    case Answer(r, more) => Answer(r.(affected := Rounded(r.affected)), more)
    case other => other
  }

  /**
   The whole result comes back from its block if and only if it has columns or no rows, and its
   count is one a Float holds. Rows without columns are refused; a count no Float holds comes back
   rounded, and everything else as it was.
   */
  lemma ReceivedIff(r: Result)
    requires r.Valid() && |Encoded(r)| < TWO_TO_31
    ensures Received(Encoded(r)) == Answer(r, []) <==>
            !(r.fields == [] && r.rows != []) && r.affected % Spacing(r.affected) == 0
    ensures r.fields == [] && r.rows != [] ==> Received(Encoded(r)) == Malformed
    ensures !(r.fields == [] && r.rows != []) ==>
              Received(Encoded(r)) == Answer(r.(affected := Rounded(r.affected)), [])
  {
    RoundTrip(r);
    ExactIff(r.affected);
  }

  lemma FirstRounded()
    ensures Rounded(TWO_TO_53 + 1) == TWO_TO_53
  {
    assert Spacing(TWO_TO_53 + 1) == 2 * Spacing((TWO_TO_53 + 1) / 2) == 2;
  }

  lemma OnlyACount(n: nat)
    requires n < TWO_TO_32 * TWO_TO_32
    ensures var r := Result(n, 0, [], [], []); r.Valid() && |Encoded(r)| == 28
  {
    var r := Result(n, 0, [], [], []);
    assert Rows(r.rows, Sized([], [])) == Sized([], []);
  }

  /** The first count that does not come back: 2^53 + 1. */
  lemma CountRounded(n: nat)
    requires n == TWO_TO_53 + 1
    ensures var r := Result(n, 0, [], [], []);
            r.Valid() && |Encoded(r)| < TWO_TO_31 && Received(Encoded(r)) == Answer(r.(affected := n - 1), [])
  {
    OnlyACount(n);
    FirstRounded();
    ReceivedIff(Result(n, 0, [], [], []));
  }
}
