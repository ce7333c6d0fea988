/**
 The command line NativeSpawn writes for CreateProcess, against the rules by which a Windows
 program reads its arguments back (CommandLineToArgvW and the C runtime).
 */
module CommandLine {
  import opened Basics

  const QUOTE := '\"'
  const BACKSLASH := '\\'

  function Backslashes(n: nat): (r: string)
    ensures |r| == n
    ensures forall c | c in r :: c == BACKSLASH
  {
    seq(n, _ => BACKSLASH)
  }

  // ---------- the reader ----------

  predicate Blank(c: char) { c == ' ' || c == '\t' }

  /**
   What a closing quote with another right after it means. The readers differ, so every law
   below is for each of these.
   */
  datatype PairRule = Closes | LiteralInside | LiteralOutside

  /**
   An argument from `s`, with `k` backslashes just read: 2n backslashes and a quote are n
   backslashes and a delimiter, 2n+1 and a quote are n backslashes and a quote, any others are
   themselves; a blank outside quotes ends the argument. Answers it, and what follows it.
   */
  function ReadArgument(s: string, quoted: bool, k: nat, rule: PairRule): (r: (string, string))
    ensures |r.1| <= |s|
    ensures s != [] && !Blank(s[0]) ==> |r.1| < |s|
    decreases |s|
  {
    if s == [] then (Backslashes(k), [])
    else if s[0] == BACKSLASH then ReadArgument(s[1..], quoted, k + 1, rule)
    else if s[0] == QUOTE && k % 2 == 1 then Before(Backslashes(k / 2) + [QUOTE], ReadArgument(s[1..], quoted, 0, rule))
    else if s[0] == QUOTE then
      if quoted && !rule.Closes? && |s| > 1 && s[1] == QUOTE then
        Before(Backslashes(k / 2) + [QUOTE], ReadArgument(s[2..], rule.LiteralInside?, 0, rule))
      else Before(Backslashes(k / 2), ReadArgument(s[1..], !quoted, 0, rule))
    else if Blank(s[0]) && !quoted then (Backslashes(k), s)
    else Before(Backslashes(k) + [s[0]], ReadArgument(s[1..], quoted, 0, rule))
  }

  function Before(head: string, r: (string, string)): (string, string) { (head + r.0, r.1) }

  function ReadArguments(s: string, rule: PairRule): seq<string>
    decreases |s|
  {
    if s == [] then []
    else if Blank(s[0]) then ReadArguments(s[1..], rule)
    else
      var (argument, rest) := ReadArgument(s, false, 0, rule);
      [argument] + ReadArguments(rest, rule)
  }

  predicate Stops(c: char, inQuotes: bool) { if inQuotes then c == QUOTE else Blank(c) }

  /** The program's name, and what follows it from the quote or blank that ends it. */
  function Name(s: string, inQuotes: bool): (string, string) {
    if s == [] || Stops(s[0], inQuotes) then ([], s) else Before([s[0]], Name(s[1..], inQuotes))
  }

  /** The program's name first, in which a backslash is only a backslash; then its arguments. */
  function Read(line: string, rule: PairRule): seq<string> {
    if line != [] && line[0] == QUOTE then
      var (name, rest) := Name(line[1..], true);
      [name] + ReadArguments(if rest == [] then [] else rest[1..], rule)
    else
      var (name, rest) := Name(line, false);
      [name] + ReadArguments(rest, rule)
  }

  // ---------- the writer ----------

  predicate NeedsQuotes(c: char) { c == ' ' || c == '\t' || c == '\n' || c == '\U{000B}' || c == QUOTE }

  predicate GoesAsItIs(argument: string) {
    argument != [] && forall c | c in argument :: !NeedsQuotes(c)
  }

  /** A character that is not a backslash, after `k` backslashes held back. */
  function Piece(c: char, k: nat): string {
    if c == QUOTE then Backslashes(k * 2 + 1) + [QUOTE] else Backslashes(k) + [c]
  }

  /** What an argument in quotes holds between them, with `k` backslashes held back. */
  function Escaped(argument: string, k: nat): string {
    if argument == [] then Backslashes(k * 2)
    else if argument[0] == BACKSLASH then Escaped(argument[1..], k + 1)
    else Piece(argument[0], k) + Escaped(argument[1..], 0)
  }

  function Quoted(argument: string): string {
    if GoesAsItIs(argument) then argument else [QUOTE] + Escaped(argument, 0) + [QUOTE]
  }

  lemma Associates(a: string, b: string, c: string)
    ensures a + (b + c) == (a + b) + c
  {
  }

  lemma EscapedFrom(argument: string, i: nat, k: nat)
    requires i < |argument|
    ensures Escaped(argument[i..], k) ==
            if argument[i] == BACKSLASH then Escaped(argument[i + 1..], k + 1)
            else Piece(argument[i], k) + Escaped(argument[i + 1..], 0)
  {
    assert argument[i..][1..] == argument[i + 1..];
  }

  /** appendQuoted: one pass, counting the backslashes held back. */
  method AppendQuoted(line: string, argument: string) returns (r: string)
    ensures r == line + Quoted(argument)
  {
    if argument != [] && forall c | c in argument :: !NeedsQuotes(c) {
      return line + argument;
    }
    r := line + [QUOTE];
    var body := EscapeAll(argument);
    r := r + body;
    r := r + [QUOTE];
    Associates(line, [QUOTE], body);
    Associates(line, [QUOTE] + body, [QUOTE]);
  }

  /** The loop of appendQuoted: what it appends between the quotes. */
  method EscapeAll(argument: string) returns (body: string)
    ensures body == Escaped(argument, 0)
  {
    body := "";
    var backslashes := 0;
    for i := 0 to |argument|
      invariant body + Escaped(argument[i..], backslashes) == Escaped(argument, 0)
    {
      var c := argument[i];
      EscapedFrom(argument, i, backslashes);
      if c == BACKSLASH {
        backslashes := backslashes + 1;
      } else {
        Associates(body, Piece(c, backslashes), Escaped(argument[i + 1..], 0));
        body := body + Piece(c, backslashes);
        backslashes := 0;
      }
    }
    body := body + Backslashes(backslashes * 2);
  }

  function Joined(arguments: seq<string>): string {
    if arguments == [] then [] else [' '] + Quoted(arguments[0]) + Joined(arguments[1..])
  }

  /** A Haxe string as a C string of wide characters: cut at its first NUL. */
  function Wide(s: string): (r: string)
    ensures '\0' !in r && r <= s
    ensures '\0' !in s ==> r == s
  {
    if s == [] || s[0] == '\0' then [] else [s[0]] + Wide(s[1..])
  }

  function WideAll(arguments: seq<string>): (r: seq<string>)
    ensures |r| == |arguments|
    ensures forall i | 0 <= i < |r| :: r[i] == Wide(arguments[i])
  {
    if arguments == [] then [] else [Wide(arguments[0])] + WideAll(arguments[1..])
  }

  /** The command line, or nothing when there is no program or its name holds a quote. */
  method Assemble(executable: string, arguments: seq<string>) returns (r: Option<string>)
    ensures r.None? <==> executable == [] || QUOTE in Wide(executable)
    ensures r.Some? ==> forall rule :: Read(r.value, rule) == [Wide(executable)] + WideAll(arguments)
  {
    if executable == [] {
      return None;
    }
    var program := Wide(executable);
    if QUOTE in program {
      return None;
    }
    var head := [QUOTE] + program + [QUOTE];
    var line := AppendAll(head, arguments);
    forall rule ensures Read(line, rule) == [program] + WideAll(arguments) {
      RoundTrip(program, WideAll(arguments), rule);
    }
    return Some(line);
  }

  method AppendAll(head: string, arguments: seq<string>) returns (line: string)
    ensures line == head + Joined(WideAll(arguments))
  {
    line := head;
    ghost var all := WideAll(arguments);
    for i := 0 to |arguments|
      invariant line + Joined(all[i..]) == head + Joined(all)
    {
      var wide := Wide(arguments[i]);
      JoinedFrom(all, i);
      Associates(line, [' '] + Quoted(wide), Joined(all[i + 1..]));
      Associates(line, [' '], Quoted(wide));
      line := line + [' '];
      line := AppendQuoted(line, wide);
    }
  }

  lemma JoinedFrom(arguments: seq<string>, i: nat)
    requires i < |arguments|
    ensures Joined(arguments[i..]) == [' '] + Quoted(arguments[i]) + Joined(arguments[i + 1..])
  {
    assert arguments[i..][1..] == arguments[i + 1..];
  }

  // ---------- what is written is read back ----------

  /** What may follow an argument: nothing, or a blank. */
  predicate EndsArgument(tail: string) { tail == [] || Blank(tail[0]) }

  lemma {:induction false} BackslashesRead(m: nat, s: string, quoted: bool, k: nat, rule: PairRule)
    ensures ReadArgument(Backslashes(m) + s, quoted, k, rule) == ReadArgument(s, quoted, k + m, rule)
  {
    if m == 0 {
      assert Backslashes(m) + s == s;
    } else {
      assert (Backslashes(m) + s)[0] == BACKSLASH;
      assert (Backslashes(m) + s)[1..] == Backslashes(m - 1) + s;
      BackslashesRead(m - 1, s, quoted, k + 1, rule);
    }
  }

  lemma PieceRead(c: char, k: nat, rest: string, rule: PairRule)
    requires c != BACKSLASH
    ensures ReadArgument(Piece(c, k) + rest, true, 0, rule)
         == Before(Backslashes(k) + [c], ReadArgument(rest, true, 0, rule))
  {
    var m := if c == QUOTE then k * 2 + 1 else k;
    var s := [c] + rest;
    assert Piece(c, k) + rest == Backslashes(m) + s;
    BackslashesRead(m, s, true, 0, rule);
    assert s[1..] == rest;
  }

  lemma {:induction false} EscapedRead(argument: string, k: nat, tail: string, rule: PairRule)
    requires EndsArgument(tail)
    ensures ReadArgument(Escaped(argument, k) + ([QUOTE] + tail), true, 0, rule) == (Backslashes(k) + argument, tail)
  {
    var end := [QUOTE] + tail;
    if argument == [] {
      BackslashesRead(k * 2, end, true, 0, rule);
      assert end[1..] == tail;
      assert ReadArgument(tail, false, 0, rule) == ([], tail);
      assert Backslashes(k) + [] == Backslashes(k);
    } else if argument[0] == BACKSLASH {
      EscapedRead(argument[1..], k + 1, tail, rule);
      assert Backslashes(k + 1) + argument[1..] == Backslashes(k) + argument;
    } else {
      EscapedRead(argument[1..], 0, tail, rule);
      PieceThenRead(argument, k, end, tail, rule);
    }
  }

  /** A character and the backslashes held back before it, and then the rest of the argument. */
  lemma PieceThenRead(argument: string, k: nat, end: string, tail: string, rule: PairRule)
    requires argument != [] && argument[0] != BACKSLASH
    requires ReadArgument(Escaped(argument[1..], 0) + end, true, 0, rule) == (Backslashes(0) + argument[1..], tail)
    ensures ReadArgument(Escaped(argument, k) + end, true, 0, rule) == (Backslashes(k) + argument, tail)
  {
    PieceRead(argument[0], k, Escaped(argument[1..], 0) + end, rule);
    Associates(Piece(argument[0], k), Escaped(argument[1..], 0), end);
    HeldBackThen(argument, k);
  }

  lemma HeldBackThen(argument: string, k: nat)
    requires argument != []
    ensures (Backslashes(k) + [argument[0]]) + (Backslashes(0) + argument[1..]) == Backslashes(k) + argument
  {
  }

  lemma {:induction false} PlainRead(argument: string, k: nat, tail: string, rule: PairRule)
    requires EndsArgument(tail) && forall c | c in argument :: !NeedsQuotes(c)
    ensures ReadArgument(argument + tail, false, k, rule) == (Backslashes(k) + argument, tail)
  {
    if argument == [] {
      assert argument + tail == tail;
      assert Backslashes(k) + argument == Backslashes(k);
    } else {
      assert (argument + tail)[1..] == argument[1..] + tail;
      assert argument[0] in argument;
      if argument[0] == BACKSLASH {
        PlainRead(argument[1..], k + 1, tail, rule);
        assert Backslashes(k + 1) + argument[1..] == Backslashes(k) + argument;
      } else {
        PlainRead(argument[1..], 0, tail, rule);
        assert (Backslashes(k) + [argument[0]]) + (Backslashes(0) + argument[1..]) == Backslashes(k) + argument;
      }
    }
  }

  lemma BetweenQuotesRead(argument: string, tail: string, rule: PairRule)
    requires EndsArgument(tail)
    ensures ReadArgument([QUOTE] + Escaped(argument, 0) + [QUOTE] + tail, false, 0, rule) == (argument, tail)
  {
    EscapedRead(argument, 0, tail, rule);
    assert ([QUOTE] + Escaped(argument, 0) + [QUOTE] + tail)[1..] == Escaped(argument, 0) + ([QUOTE] + tail);
    assert [] + (Backslashes(0) + argument) == argument;
  }

  lemma QuotedRead(argument: string, tail: string, rule: PairRule)
    requires EndsArgument(tail)
    ensures ReadArgument(Quoted(argument) + tail, false, 0, rule) == (argument, tail)
    ensures Quoted(argument) != [] && !Blank(Quoted(argument)[0])
  {
    if GoesAsItIs(argument) {
      PlainRead(argument, 0, tail, rule);
      assert Backslashes(0) + argument == argument;
      assert argument[0] in argument;
    } else {
      BetweenQuotesRead(argument, tail, rule);
    }
  }

  lemma {:induction false} JoinedRead(arguments: seq<string>, rule: PairRule)
    ensures ReadArguments(Joined(arguments), rule) == arguments
    ensures EndsArgument(Joined(arguments))
  {
    if arguments != [] {
      JoinedRead(arguments[1..], rule);
      FirstRead(arguments[0], Joined(arguments[1..]), rule);
      assert [arguments[0]] + arguments[1..] == arguments;
    }
  }

  /** A blank and an argument, and what follows it. */
  lemma FirstRead(argument: string, tail: string, rule: PairRule)
    requires EndsArgument(tail)
    ensures ReadArguments([' '] + Quoted(argument) + tail, rule) == [argument] + ReadArguments(tail, rule)
  {
    var line := Quoted(argument) + tail;
    QuotedRead(argument, tail, rule);
    assert ([' '] + Quoted(argument) + tail)[1..] == line;
    assert line[0] == Quoted(argument)[0];
  }

  /**
   Every list of arguments is read back exactly, empty ones, runs of backslashes and embedded
   quotes included, and so is the program's name, whichever rule the reader has for a pair of
   quotes.
   */
  lemma RoundTrip(program: string, arguments: seq<string>, rule: PairRule)
    requires QUOTE !in program
    ensures Read([QUOTE] + program + [QUOTE] + Joined(arguments), rule) == [program] + arguments
  {
    var line := [QUOTE] + program + [QUOTE] + Joined(arguments);
    assert line[1..] == program + ([QUOTE] + Joined(arguments));
    NameRead(program, Joined(arguments));
    assert ([QUOTE] + Joined(arguments))[1..] == Joined(arguments);
    JoinedRead(arguments, rule);
  }

  lemma {:induction false} NameRead(name: string, rest: string)
    requires QUOTE !in name
    ensures Name(name + ([QUOTE] + rest), true) == (name, [QUOTE] + rest)
  {
    if name == [] {
      assert name + ([QUOTE] + rest) == [QUOTE] + rest;
    } else {
      NameRead(name[1..], rest);
      assert [name[0]] + name[1..] == name;
      assert (name + ([QUOTE] + rest))[1..] == name[1..] + ([QUOTE] + rest);
    }
  }
}
