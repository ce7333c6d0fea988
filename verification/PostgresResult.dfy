/**
 The result block: encodeResult's writer into a block sized beforehand, and decodeResult's reader
 of it.
 */
module PostgresResult {
  import opened Basics
  import opened PostgresInts

  type Text = seq<byte>
  type Row = seq<Option<Text>>

  /** What libpq holds, and what the Haxe side makes of a block; a cell is None for SQL NULL. */
  datatype Result = Result(affected: nat, oid: uint32, fields: seq<Text>, rows: seq<Row>, command: Text) {
    /** What libpq's own types promise: counts and lengths that fit an int, every row as wide as the result. */
    predicate Valid() {
      && affected < TWO_TO_32 * TWO_TO_32 && |fields| < TWO_TO_31 && |rows| < TWO_TO_31 && |command| < TWO_TO_31
      && forall i | 0 <= i < |rows| :: |rows[i]| == |fields|
    }
  }

  // ---------- the block ----------
  //
  // Each part is written before `rest`, what follows it in the block.

  /** A length and as many bytes. Only the low 32 bits of a length are written. */
  function Sized(b: Text, rest: Text): (r: Text)
    ensures |r| == 4 + |b| + |rest|
  {
    LittleU(|b| % TWO_TO_32) + (b + rest)
  }

  function Names(fields: seq<Text>, rest: Text): Text {
    if fields == [] then rest else Sized(fields[0], Names(fields[1..], rest))
  }

  function Cell(c: Option<Text>, rest: Text): Text {
    match c
    case None => Little(-1) + rest
    case Some(b) => Sized(b, rest)
  }

  function Cells(row: Row, rest: Text): Text {
    if row == [] then rest else Cell(row[0], Cells(row[1..], rest))
  }

  function Rows(rows: seq<Row>, rest: Text): Text {
    if rows == [] then rest else Cells(rows[0], Rows(rows[1..], rest))
  }

  /** The fields' names, the rows and the command tag. */
  function Body(r: Result): Text
    requires r.Valid()
  {
    Names(r.fields, Little(|r.rows|) + Rows(r.rows, Sized(r.command, [])))
  }

  /** Status, the affected count in two halves, the row id, how many fields, and the rest. */
  function Encoded(r: Result): Text
    requires r.Valid()
  {
    Little(0) + (LittleU(r.affected % TWO_TO_32) + (LittleU(r.affected / TWO_TO_32)
    + (LittleU(r.oid) + (Little(|r.fields|) + Body(r)))))
  }

  function ErrorBlock(message: Text): Text {
    Little(1) + Sized(message, [])
  }

  // ---------- the reader ----------

  datatype Decoded = Answer(result: Result, more: Text) | ServerError(message: Text) | Malformed

  /** A length, which must not be negative, and as many bytes, which must be there. */
  function TakeBytes(s: Text): Option<(Text, Text)> {
    match TakeInt(s)
    case None => None
    case Some((n, rest)) => if n < 0 || n > |rest| then None else Some((rest[..n], rest[n..]))
  }

  function TakeNames(s: Text, count: nat): Option<(seq<Text>, Text)> {
    if count == 0 then Some(([], s))
    else match TakeBytes(s)
      case None => None
      case Some((name, rest)) =>
        match TakeNames(rest, count - 1)
        case None => None
        case Some((names, more)) => Some(([name] + names, more))
  }

  /** A value, or NULL for a negative length, after which no bytes follow. */
  function TakeCell(s: Text): Option<(Option<Text>, Text)> {
    match TakeInt(s)
    case None => None
    case Some((n, rest)) =>
      if n < 0 then Some((None, rest))
      else if n > |rest| then None
      else Some((Some(rest[..n]), rest[n..]))
  }

  function TakeRow(s: Text, fields: nat): Option<(Row, Text)> {
    if fields == 0 then Some(([], s))
    else match TakeCell(s)
      case None => None
      case Some((cell, rest)) =>
        match TakeRow(rest, fields - 1)
        case None => None
        case Some((row, more)) => Some(([cell] + row, more))
  }

  function TakeRows(s: Text, count: nat, fields: nat): Option<(seq<Row>, Text)>
    decreases count
  {
    if count == 0 then Some(([], s))
    else match TakeRow(s, fields)
      case None => None
      case Some((row, rest)) =>
        match TakeRows(rest, count - 1, fields)
        case None => None
        case Some((rows, more)) => Some(([row] + rows, more))
  }

  /**
   decodeResult. `strict` is its refusal of rows in a result of no columns; without it, this is the
   reader that would take every block the writer makes.
   */
  function Decode(block: Text, strict: bool): Decoded {
    match TakeInt(block)
    case None => Malformed
    case Some((status, s)) =>
      if status == 1 then
        match TakeBytes(s)
        case None => Malformed
        case Some((message, _)) => ServerError(message)
      else if status != 0 then Malformed
      else DecodeCounts(s, strict)
  }

  function DecodeCounts(s: Text, strict: bool): Decoded {
    match TakeInt(s)
    case None => Malformed
    case Some((low, rest)) => DecodeHigh(Unsigned(low), rest, strict)
  }

  function DecodeHigh(low: uint32, s: Text, strict: bool): Decoded {
    match TakeInt(s)
    case None => Malformed
    case Some((high, rest)) => DecodeRowId(Unsigned(high) * TWO_TO_32 + low, rest, strict)
  }

  function DecodeRowId(affected: nat, s: Text, strict: bool): Decoded {
    match TakeInt(s)
    case None => Malformed
    case Some((oid, rest)) => DecodeFields(affected, Unsigned(oid), rest, strict)
  }

  function DecodeFields(affected: nat, oid: uint32, s: Text, strict: bool): Decoded {
    match TakeInt(s)
    case None => Malformed
    case Some((count, rest)) => if count < 0 then Malformed else DecodeBody(affected, oid, count, rest, strict)
  }

  function DecodeBody(affected: nat, oid: uint32, count: nat, s: Text, strict: bool): Decoded {
    match TakeNames(s, count)
    case None => Malformed
    case Some((fields, s1)) =>
      match TakeInt(s1)
      case None => Malformed
      case Some((rowCount, s2)) =>
        if rowCount < 0 || (strict && count == 0 && rowCount > 0) then Malformed
        else match TakeRows(s2, rowCount, count)
          case None => Malformed
          case Some((rows, s3)) =>
            if |s3| < 4 then Answer(Result(affected, oid, fields, rows, []), s3)
            else match TakeBytes(s3)
              case None => Malformed
              case Some((command, more)) => Answer(Result(affected, oid, fields, rows, command), more)
  }

  // ---------- what is written is read back ----------

  lemma SizedRead(b: Text, rest: Text)
    requires |b| < TWO_TO_31
    ensures TakeBytes(Sized(b, rest)) == Some((b, rest))
    ensures TakeCell(Sized(b, rest)) == Some((Some(b), rest))
  {
    SizedTaken(b, rest);
    assert (b + rest)[..|b|] == b && (b + rest)[|b|..] == rest;
  }

  lemma SizedTaken(b: Text, rest: Text)
    requires |b| < TWO_TO_31
    ensures TakeInt(Sized(b, rest)) == Some((|b|, b + rest))
  {
    assert |b| % TWO_TO_32 == |b| == Unsigned(|b|);
    TakeLittle(|b|, b + rest);
  }

  lemma {:induction false} NamesRead(fields: seq<Text>, rest: Text)
    requires forall f | f in fields :: |f| < TWO_TO_31
    ensures TakeNames(Names(fields, rest), |fields|) == Some((fields, rest))
  {
    if fields != [] {
      SizedRead(fields[0], Names(fields[1..], rest));
      NamesRead(fields[1..], rest);
      assert [fields[0]] + fields[1..] == fields;
    }
  }

  predicate ShortCells(row: Row) { forall c | c in row :: c.Some? ==> |c.value| < TWO_TO_31 }

  lemma {:induction false} CellsRead(row: Row, rest: Text)
    requires ShortCells(row)
    ensures TakeRow(Cells(row, rest), |row|) == Some((row, rest))
  {
    if row != [] {
      var tail := Cells(row[1..], rest);
      if row[0].None? {
        TakeLittle(-1, tail);
      } else {
        SizedRead(row[0].value, tail);
      }
      CellsRead(row[1..], rest);
      assert [row[0]] + row[1..] == row;
    }
  }

  lemma RowFirst(row: Row, count: nat, rest: Text)
    requires count > 0 && ShortCells(row)
    ensures TakeRows(Cells(row, rest), count, |row|)
         == match TakeRows(rest, count - 1, |row|)
            case None => None
            case Some((rows, more)) => Some(([row] + rows, more))
  {
    CellsRead(row, rest);
  }

  lemma {:induction false} RowsRead(rows: seq<Row>, fields: nat, rest: Text)
    requires forall i | 0 <= i < |rows| :: |rows[i]| == fields && ShortCells(rows[i])
    ensures TakeRows(Rows(rows, rest), |rows|, fields) == Some((rows, rest))
  {
    if rows != [] {
      RowsRead(rows[1..], fields, rest);
      RowFirst(rows[0], |rows|, Rows(rows[1..], rest));
      assert [rows[0]] + rows[1..] == rows;
    }
  }

  /** Every length in the result fits: so it is whenever the block itself is not over-long. */
  predicate Short(r: Result) {
    && (forall f | f in r.fields :: |f| < TWO_TO_31)
    && (forall i | 0 <= i < |r.rows| :: ShortCells(r.rows[i]))
  }

  lemma {:induction false} NamesFit(fields: seq<Text>, rest: Text)
    ensures |rest| <= |Names(fields, rest)|
    ensures forall f | f in fields :: |f| < |Names(fields, rest)|
  {
    if fields != [] {
      NamesFit(fields[1..], rest);
    }
  }

  lemma {:induction false} CellsFit(row: Row, rest: Text)
    ensures |rest| <= |Cells(row, rest)|
    ensures forall c | c in row && c.Some? :: |c.value| < |Cells(row, rest)|
  {
    if row != [] {
      CellsFit(row[1..], rest);
    }
  }

  lemma {:induction false} RowsFit(rows: seq<Row>, rest: Text)
    ensures |rest| <= |Rows(rows, rest)|
    ensures forall r, c | r in rows && c in r && c.Some? :: |c.value| < |Rows(rows, rest)|
  {
    if rows != [] {
      CellsFit(rows[0], Rows(rows[1..], rest));
      RowsFit(rows[1..], rest);
      forall r, c | r in rows && c in r && c.Some? ensures |c.value| < |Rows(rows, rest)| {
        assert r == rows[0] || r in rows[1..];
      }
    }
  }

  lemma BlockFits(r: Result)
    requires r.Valid() && |Encoded(r)| < TWO_TO_31
    ensures Short(r)
  {
    NamesFit(r.fields, Little(|r.rows|) + Rows(r.rows, Sized(r.command, [])));
    RowsFit(r.rows, Sized(r.command, []));
  }

  lemma BodyRead(r: Result, strict: bool)
    requires r.Valid() && Short(r)
    ensures DecodeBody(r.affected, r.oid, |r.fields|, Body(r), strict)
         == if strict && r.fields == [] && r.rows != [] then Malformed else Answer(r, [])
  {
    var tag := Sized(r.command, []);
    NamesRead(r.fields, Little(|r.rows|) + Rows(r.rows, tag));
    TakeLittle(|r.rows|, Rows(r.rows, tag));
    RowsRead(r.rows, |r.fields|, tag);
    SizedRead(r.command, []);
  }

  lemma CountsRead(low: uint32, high: uint32, oid: uint32, fields: nat, s: Text, strict: bool)
    requires fields < TWO_TO_31
    ensures DecodeCounts(LittleU(low) + (LittleU(high) + (LittleU(oid) + (Little(fields) + s))), strict)
         == DecodeBody(high * TWO_TO_32 + low, oid, fields, s, strict)
  {
    HalvesRead(low, high, LittleU(oid) + (Little(fields) + s), strict);
    RowIdRead(high * TWO_TO_32 + low, oid, fields, s, strict);
  }

  lemma Halves(n: nat)
    ensures n / TWO_TO_32 * TWO_TO_32 + n % TWO_TO_32 == n
  {
  }

  lemma HalvesRead(low: uint32, high: uint32, s: Text, strict: bool)
    ensures DecodeCounts(LittleU(low) + (LittleU(high) + s), strict) == DecodeRowId(high * TWO_TO_32 + low, s, strict)
  {
    TakeLittleU(low, LittleU(high) + s);
    TakeLittleU(high, s);
  }

  lemma RowIdRead(affected: nat, oid: uint32, fields: nat, s: Text, strict: bool)
    requires fields < TWO_TO_31
    ensures DecodeRowId(affected, LittleU(oid) + (Little(fields) + s), strict)
         == DecodeBody(affected, oid, fields, s, strict)
  {
    TakeLittleU(oid, Little(fields) + s);
    TakeLittle(fields, s);
  }

  lemma StatusRead(s: Text, strict: bool)
    ensures Decode(Little(0) + s, strict) == DecodeCounts(s, strict)
  {
    TakeLittle(0, s);
  }

  /** An error block gives back its message. */
  lemma ErrorRead(message: Text, strict: bool)
    requires |message| < TWO_TO_31
    ensures Decode(ErrorBlock(message), strict) == ServerError(message)
  {
    TakeLittle(1, Sized(message, []));
    SizedRead(message, []);
  }

  lemma BlockRead(r: Result, strict: bool)
    requires r.Valid()
    ensures Decode(Encoded(r), strict) == DecodeBody(r.affected, r.oid, |r.fields|, Body(r), strict)
  {
    StatusRead(LittleU(r.affected % TWO_TO_32) + (LittleU(r.affected / TWO_TO_32)
               + (LittleU(r.oid) + (Little(|r.fields|) + Body(r)))), strict);
    CountsRead(r.affected % TWO_TO_32, r.affected / TWO_TO_32, r.oid, |r.fields|, Body(r), strict);
    Halves(r.affected);
  }

  /**
   The reader gives back the whole result (names, NULLs, values with whatever bytes, the command
   tag), unless the result has rows and no columns: that one, and no other, it refuses.
   */
  lemma RoundTrip(r: Result)
    requires r.Valid() && |Encoded(r)| < TWO_TO_31
    ensures Decode(Encoded(r), true) == Answer(r, []) <==> !(r.fields == [] && r.rows != [])
    ensures r.fields == [] && r.rows != [] ==> Decode(Encoded(r), true) == Malformed
    ensures Decode(Encoded(r), false) == Answer(r, [])
  {
    BlockFits(r);
    BlockRead(r, true);
    BlockRead(r, false);
    BodyRead(r, true);
    BodyRead(r, false);
  }

  /** Distinct results give distinct blocks. */
  lemma BlocksDiffer(r: Result, q: Result)
    requires r.Valid() && q.Valid() && |Encoded(r)| < TWO_TO_31 && |Encoded(q)| < TWO_TO_31
    ensures Encoded(r) == Encoded(q) <==> r == q
  {
    RoundTrip(r);
    RoundTrip(q);
  }

  /** A result such as `SELECT FROM t` gives over two rows: the writer's block, and a reader that refuses it. */
  lemma RowsWithoutColumnsRefused()
    ensures var r := Result(2, 0, [], [[], []], []);
            r.Valid() && |Encoded(r)| < TWO_TO_31 && Decode(Encoded(r), true) == Malformed
  {
    var r := Result(2, 0, [], [[], []], []);
    assert Rows(r.rows[1..], Sized([], [])) == Sized([], []);
    RoundTrip(r);
  }
}
