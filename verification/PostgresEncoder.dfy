/** encodeResult: a result's block sized in one pass over libpq's result and filled in a second. */
module PostgresEncoder {
  import opened Basics
  import opened PostgresInts
  import opened PostgresResult

  const INT_MAX := 0x7FFF_FFFF
  const ULLONG_MAX := 0xFFFF_FFFF_FFFF_FFFF

  // ---------- the affected count ----------

  predicate IsDigit(b: byte) { 48 <= b <= 57 }

  /** The digits a string starts with. */
  function Digits(s: Text): Text {
    if s == [] || !IsDigit(s[0]) then [] else [s[0]] + Digits(s[1..])
  }

  predicate AllDigits(s: Text) { forall i | 0 <= i < |s| :: IsDigit(s[i]) }

  /** What a string of digits reads as, in decimal. */
  function Value(s: Text): nat
    requires AllDigits(s)
  {
    if s == [] then 0
    else
      assert IsDigit(s[|s| - 1]);
      Value(s[..|s| - 1]) * 10 + (s[|s| - 1] as int - 48)
  }

  lemma {:induction false} DigitsLongest(s: Text)
    ensures Digits(s) <= s && AllDigits(Digits(s))
    ensures |Digits(s)| < |s| ==> !IsDigit(s[|Digits(s)|])
  {
    if s != [] && IsDigit(s[0]) {
      DigitsLongest(s[1..]);
    }
  }

  /** More digits never read as less. */
  lemma {:induction false} ValueGrows(s: Text, n: nat)
    requires n <= |s| && AllDigits(s)
    ensures Value(s[..n]) <= Value(s)
  {
    if n < |s| {
      ValueGrows(s[..|s| - 1], n);
      assert s[..|s| - 1][..n] == s[..n];
    } else {
      assert s[..n] == s;
    }
  }

  /** The count as written in decimal, or as much of it as 64 bits hold. */
  function AffectedRows(tuples: Option<Text>): (n: nat)
    ensures n <= ULLONG_MAX
  {
    if tuples.None? then 0
    else
      DigitsLongest(tuples.value);
      var v := Value(Digits(tuples.value));
      if v < ULLONG_MAX then v else ULLONG_MAX
  }

  /** parseAffectedRows, which never lets its 64 bits wrap. */
  method ParseAffectedRows(raw: Option<Text>) returns (value: nat)
    ensures value == AffectedRows(raw)
  {
    value := 0;
    if raw.None? {
      return;
    }
    var s := raw.value;
    DigitsLongest(s);
    ghost var digits := Digits(s);
    var i := 0;
    while i < |s| && IsDigit(s[i])
      invariant i <= |digits| <= |s| && digits == s[..|digits|]
      invariant value == Value(digits[..i]) && value <= ULLONG_MAX
    {
      assert digits[..i + 1][..i] == digits[..i];
      var digit := s[i] as int - 48;
      if value > (ULLONG_MAX - digit) / 10 {
        ValueGrows(digits, i + 1);
        return ULLONG_MAX;
      }
      value := value * 10 + digit;
      i := i + 1;
    }
    assert digits[..i] == digits;
  }

  // ---------- libpq's result ----------

  /** What libpq answers: a name or the tag may be a null pointer, which reads as empty. */
  datatype PgResult = PgResult(
    fields: seq<Option<Text>>, rows: seq<Row>, tuples: Option<Text>, oid: uint32, command: Option<Text>)
  {
    predicate Valid() {
      && |fields| < TWO_TO_31 && |rows| < TWO_TO_31 && |Read(command)| < TWO_TO_31
      && forall i | 0 <= i < |rows| :: |rows[i]| == |fields|
    }

    function View(): (r: Result)
      requires Valid()
      ensures r.Valid() && |r.fields| == |fields| && r.rows == rows
      ensures forall i | 0 <= i < |fields| :: r.fields[i] == Read(fields[i])
    {
      Result(AffectedRows(tuples), oid, seq(|fields|, (i: nat) requires i < |fields| => Read(fields[i])), rows,
             Read(command))
    }
  }

  function Read(s: Option<Text>): Text { if s.None? then [] else s.value }

  // ---------- sizing ----------

  function NamesSize(fields: seq<Text>): nat { if fields == [] then 0 else 4 + |fields[0]| + NamesSize(fields[1..]) }

  function CellSize(c: Option<Text>): nat { 4 + if c.None? then 0 else |c.value| }

  function CellsSize(row: Row): nat { if row == [] then 0 else CellSize(row[0]) + CellsSize(row[1..]) }

  function RowsSize(rows: seq<Row>): nat { if rows == [] then 0 else CellsSize(rows[0]) + RowsSize(rows[1..]) }

  lemma {:induction false} NamesSized(fields: seq<Text>, rest: Text)
    ensures |Names(fields, rest)| == NamesSize(fields) + |rest|
  {
    if fields != [] {
      NamesSized(fields[1..], rest);
    }
  }

  lemma {:induction false} CellsSized(row: Row, rest: Text)
    ensures |Cells(row, rest)| == CellsSize(row) + |rest|
  {
    if row != [] {
      CellsSized(row[1..], rest);
    }
  }

  lemma {:induction false} RowsSized(rows: seq<Row>, rest: Text)
    ensures |Rows(rows, rest)| == RowsSize(rows) + |rest|
  {
    if rows != [] {
      CellsSized(rows[0], Rows(rows[1..], rest));
      RowsSized(rows[1..], rest);
    }
  }

  lemma BlockSized(r: Result)
    requires r.Valid()
    ensures |Encoded(r)| == 28 + NamesSize(r.fields) + RowsSize(r.rows) + |r.command|
  {
    RowsSized(r.rows, Sized(r.command, []));
    NamesSized(r.fields, Little(|r.rows|) + Rows(r.rows, Sized(r.command, [])));
  }

  /** The sizing pass. */
  method BlockSize(p: PgResult) returns (size: nat)
    requires p.Valid()
    ensures size == |Encoded(p.View())|
  {
    size := 24;
    ghost var r := p.View();
    for i := 0 to |p.fields|
      invariant size + NamesSize(r.fields[i..]) == 24 + NamesSize(r.fields)
    {
      assert r.fields[i..][1..] == r.fields[i + 1..];
      size := size + 4 + |Read(p.fields[i])|;
    }
    for i := 0 to |p.rows|
      invariant size + RowsSize(p.rows[i..]) == 24 + NamesSize(r.fields) + RowsSize(p.rows)
    {
      assert p.rows[i..][1..] == p.rows[i + 1..];
      var row := RowSize(p.rows[i]);
      size := size + row;
    }
    size := size + 4 + |Read(p.command)|;
    BlockSized(r);
  }

  method RowSize(row: Row) returns (size: nat)
    ensures size == CellsSize(row)
  {
    size := 0;
    for i := 0 to |row|
      invariant size + CellsSize(row[i..]) == CellsSize(row)
    {
      assert row[i..][1..] == row[i + 1..];
      size := size + 4;
      if row[i].Some? {
        size := size + |row[i].value|;
      }
    }
  }

  // ---------- filling ----------

  lemma FourBytesOf(u: uint32)
    ensures LittleU(u) == [u % 0x100, u / 0x100 % 0x100, u / 0x1_0000 % 0x100, u / 0x100_0000 % 0x100]
  {
    assert Bytes(u, 4) == [u % 256] + Bytes(u / 256, 3);
    assert Bytes(u / 256, 3) == [u / 256 % 256] + Bytes(u / 256 / 256, 2);
    assert Bytes(u / 256 / 256, 2) == [u / 256 / 256 % 256] + Bytes(u / 256 / 256 / 256, 1);
    assert Bytes(u / 256 / 256 / 256, 1) == [u / 256 / 256 / 256 % 256] + Bytes(u / 256 / 256 / 256 / 256, 0);
  }

  /** What is filled, followed by what is still to come, is the whole block. */
  ghost predicate Filling(block: array<byte>, at: nat, rest: Text, whole: Text)
    reads block
  {
    at <= block.Length == |whole| && block[..at] + rest == whole
  }

  method PutUInt(block: array<byte>, at: nat, u: uint32, ghost rest: Text, ghost whole: Text) returns (next: nat)
    requires Filling(block, at, LittleU(u) + rest, whole)
    modifies block
    ensures next == at + 4 && Filling(block, next, rest, whole)
  {
    assert |whole| == at + 4 + |rest|;
    block[at] := u % 0x100;
    block[at + 1] := u / 0x100 % 0x100;
    block[at + 2] := u / 0x1_0000 % 0x100;
    block[at + 3] := u / 0x100_0000 % 0x100;
    next := at + 4;
    FourBytesOf(u);
    assert block[..at] == old(block[..at]);
    assert block[..next] == block[..at] + LittleU(u);
  }

  method PutInt(block: array<byte>, at: nat, v: int32, ghost rest: Text, ghost whole: Text) returns (next: nat)
    requires Filling(block, at, Little(v) + rest, whole)
    modifies block
    ensures next == at + 4 && Filling(block, next, rest, whole)
  {
    next := PutUInt(block, at, Unsigned(v), rest, whole);
  }

  method PutBytes(block: array<byte>, at: nat, data: Text, ghost rest: Text, ghost whole: Text) returns (next: nat)
    requires Filling(block, at, data + rest, whole)
    modifies block
    ensures next == at + |data| && Filling(block, next, rest, whole)
  {
    forall i | 0 <= i < |data| {
      block[at + i] := data[i];
    }
    next := at + |data|;
    assert block[..at] == old(block[..at]);
    assert block[..next] == block[..at] + data;
  }

  method PutSized(block: array<byte>, at: nat, data: Text, ghost rest: Text, ghost whole: Text) returns (next: nat)
    requires |data| < TWO_TO_31 && Filling(block, at, Sized(data, rest), whole)
    modifies block
    ensures next == at + 4 + |data| && Filling(block, next, rest, whole)
  {
    next := PutInt(block, at, |data|, data + rest, whole);
    next := PutBytes(block, next, data, rest, whole);
  }

  method PutNames(block: array<byte>, at: nat, p: PgResult, ghost rest: Text, ghost whole: Text) returns (next: nat)
    requires p.Valid() && Short(p.View()) && Filling(block, at, Names(p.View().fields, rest), whole)
    modifies block
    ensures Filling(block, next, rest, whole)
  {
    next := at;
    ghost var fields := p.View().fields;
    for i := 0 to |p.fields|
      invariant Filling(block, next, Names(fields[i..], rest), whole)
    {
      assert fields[i..][1..] == fields[i + 1..];
      assert fields[i] in fields;
      next := PutSized(block, next, Read(p.fields[i]), Names(fields[i + 1..], rest), whole);
    }
  }

  method PutRow(block: array<byte>, at: nat, row: Row, ghost rest: Text, ghost whole: Text) returns (next: nat)
    requires ShortCells(row) && Filling(block, at, Cells(row, rest), whole)
    modifies block
    ensures Filling(block, next, rest, whole)
  {
    next := at;
    for i := 0 to |row|
      invariant Filling(block, next, Cells(row[i..], rest), whole)
    {
      assert row[i..][1..] == row[i + 1..];
      assert row[i] in row;
      if row[i].None? {
        next := PutInt(block, next, -1, Cells(row[i + 1..], rest), whole);
      } else {
        next := PutSized(block, next, row[i].value, Cells(row[i + 1..], rest), whole);
      }
    }
  }

  method PutRows(block: array<byte>, at: nat, rows: seq<Row>, ghost rest: Text, ghost whole: Text) returns (next: nat)
    requires (forall i | 0 <= i < |rows| :: ShortCells(rows[i])) && Filling(block, at, Rows(rows, rest), whole)
    modifies block
    ensures Filling(block, next, rest, whole)
  {
    next := at;
    for i := 0 to |rows|
      invariant Filling(block, next, Rows(rows[i..], rest), whole)
    {
      assert rows[i..][1..] == rows[i + 1..];
      next := PutRow(block, next, rows[i], Rows(rows[i + 1..], rest), whole);
    }
  }

  function Ascii(s: string): (r: Text)
    ensures |r| == |s|
  {
    seq(|s|, (i: nat) requires i < |s| => if s[i] as int < 256 then s[i] as int else 63)
  }

  function Decimal(n: nat): Text {
    if n < 10 then [48 + n] else Decimal(n / 10) + [48 + n % 10]
  }

  lemma {:induction false} DecimalShort(n: nat, digits: nat)
    requires digits > 0 && n < Pow10(digits)
    ensures |Decimal(n)| <= digits
  {
    if n >= 10 {
      assert digits > 1 by { assert Pow10(1) == 10 * Pow10(0); }
      DecimalShort(n / 10, digits - 1);
    }
  }

  function Pow10(n: nat): nat
    decreases n
  {
    if n == 0 then 1 else 10 * Pow10(n - 1)
  }

  lemma TenTimes()
    ensures Pow10(20) == 100000000000000000000
  {
    assert Pow10(20) == 100000 * Pow10(15);
    assert Pow10(15) == 100000 * Pow10(10);
    assert Pow10(10) == 100000 * Pow10(5);
    assert Pow10(5) == 100000 * Pow10(0);
  }

  /** What a result too long for one block is answered with instead. */
  function TooLong(size: nat): Text {
    Ascii("The result is ") + Decimal(size) + Ascii(" bytes, more than one call can return; fetch it in parts.")
  }

  /**
   encodeResult: a block of exactly the size the first pass found, filled to its last byte with
   the result's encoding, or an error block when that would not fit an int.
   */
  method EncodeResult(p: PgResult) returns (block: array<byte>)
    requires p.Valid()
    requires |Encoded(p.View())| < 0x8000_0000_0000_0000  // the size is added up in a long long
    ensures fresh(block)
    ensures var encoded := Encoded(p.View());
            block[..] == if |encoded| > INT_MAX then ErrorBlock(TooLong(|encoded|)) else encoded
  {
    var size := BlockSize(p);
    if size > INT_MAX {
      TenTimes();
      DecimalShort(size, 20);
      block := MakeErrorBlock(TooLong(size));
      return;
    }
    block := new byte[size];
    var affected := ParseAffectedRows(p.tuples);
    ghost var r := p.View();
    ghost var whole := Encoded(r);
    BlockFits(r);
    assert block[..0] + whole == whole;
    var at := PutHead(block, p, affected, whole);
    ghost var tag := Sized(r.command, []);
    at := PutNames(block, at, p, Little(|r.rows|) + Rows(r.rows, tag), whole);
    at := PutInt(block, at, |p.rows|, Rows(r.rows, tag), whole);
    at := PutRows(block, at, p.rows, tag, whole);
    at := PutSized(block, at, Read(p.command), [], whole);
    assert block[..at] == block[..] == whole;
  }

  /** The status, the two halves of the affected count, the row id and the number of fields. */
  method PutHead(block: array<byte>, p: PgResult, affected: nat, ghost whole: Text) returns (at: nat)
    requires p.Valid() && affected == p.View().affected && whole == Encoded(p.View()) && Filling(block, 0, whole, whole)
    modifies block
    ensures Filling(block, at, Body(p.View()), whole)
  {
    ghost var s4 := Little(|p.fields|) + Body(p.View());
    ghost var s3 := LittleU(p.oid) + s4;
    ghost var s2 := LittleU(affected / TWO_TO_32) + s3;
    at := PutInt(block, 0, 0, LittleU(affected % TWO_TO_32) + s2, whole);
    at := PutUInt(block, at, affected % TWO_TO_32, s2, whole);
    at := PutUInt(block, at, affected / TWO_TO_32, s3, whole);
    at := PutUInt(block, at, p.oid, s4, whole);
    at := PutInt(block, at, |p.fields|, Body(p.View()), whole);
  }

  /** errorBlock */
  method MakeErrorBlock(message: Text) returns (block: array<byte>)
    requires |message| < TWO_TO_31
    ensures fresh(block) && block[..] == ErrorBlock(message)
  {
    block := new byte[8 + |message|];
    ghost var whole := ErrorBlock(message);
    assert block[..0] + whole == whole;
    var at := PutInt(block, 0, 1, Sized(message, []), whole);
    at := PutSized(block, at, message, [], whole);
    assert block[..at] == block[..] == whole;
  }
}
