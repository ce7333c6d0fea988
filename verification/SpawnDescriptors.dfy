/**
 The descriptors of a POSIX child: the four pipes crossbyte_spawn_start makes, whichever step fails,
 and the three ends a started child keeps until they are closed.

 A descriptor number is used again as soon as it is closed, by anything in the process, so closing
 one twice would close someone else's: `Close` asks for a number this child has open.
 */
module SpawnDescriptors {
  type Fd = int
  const NONE: Fd := -1

  /** What the process has open, and which of it was opened for this child and not yet closed. */
  class Kernel {
    ghost var taken: set<Fd>
    ghost var mine: set<Fd>
    ghost var refused: bool  // a pipe could not be made
    ghost var made: seq<Fd>  // the ends of every pipe made, read end first
    var unused: Fd  // a number nothing has, and nothing above it has been used

    ghost predicate Valid()
      reads this
    {
      mine <= taken && (forall fd | fd in taken :: 0 <= fd < unused) && unused >= 0
    }

    constructor ()
      ensures Valid() && mine == {} && !refused && made == []
    {
      taken, mine, refused, made, unused := {}, {}, false, [], 0;
    }

    /** The rest of the process opens and closes descriptors of its own, meanwhile and whichever. */
    method Others()
      requires Valid()
      modifies this`taken, this`unused
      ensures Valid()
    {
    }

    /** pipe(), or pipe2(): two numbers nobody has, or none. */
    method Pipe() returns (ok: bool, a: Fd, b: Fd)
      requires Valid()
      modifies this
      ensures Valid() && refused == (old(refused) || !ok)
      ensures made == old(made) + if ok then [a, b] else []
      ensures !ok ==> mine == old(mine)
      ensures ok ==> a >= 0 && b >= 0 && a != b && a !in old(mine) && b !in old(mine) && mine == old(mine) + {a, b}
    {
      Others();
      ok := *;
      a, b := unused, unused + 1;
      if ok {
        taken, mine, made, unused := taken + {a, b}, mine + {a, b}, made + [a, b], unused + 2;
      } else {
        refused := true;
      }
    }

    /** close(): of a number this child has open, which it then has no more. */
    method Close(fd: Fd)
      requires Valid() && fd in mine
      modifies this`taken, this`mine, this`unused
      ensures Valid() && mine == old(mine) - {fd}
    {
      Others();
      taken, mine := taken - {fd}, mine - {fd};
    }
  }

  /** The native side of a child: the parent's ends of its pipes, and whether it has been closed. */
  class Child {
    const kernel: Kernel
    var open: bool
    var waited: bool
    var outRead: Fd
    var errRead: Fd
    var inWrite: Fd

    ghost function Ends(): set<Fd>
      reads this
    {
      (if outRead >= 0 then {outRead} else {}) + (if errRead >= 0 then {errRead} else {})
      + (if inWrite >= 0 then {inWrite} else {})
    }

    /** Every descriptor opened for the child and not closed is in one of its fields, and in no other. */
    ghost predicate Valid()
      reads this, kernel
    {
      && kernel.Valid() && kernel.mine == Ends() && (!open ==> Ends() == {})
      && (outRead >= 0 ==> outRead != errRead && outRead != inWrite) && (errRead >= 0 ==> errRead != inWrite)
    }

    constructor (kernel: Kernel)
      ensures this.kernel == kernel && open && !waited && outRead == errRead == inWrite == NONE
    {
      this.kernel := kernel;
      open, waited, outRead, errRead, inWrite := true, false, NONE, NONE, NONE;
    }

    /** closeAll, under the lock. */
    method CloseAll()
      requires Valid()
      modifies this, kernel
      ensures Valid() && !open && kernel.mine == {}
    {
      if !open {
        return;
      }
      open := false;
      if outRead >= 0 {
        kernel.Close(outRead);
      }
      if errRead >= 0 {
        kernel.Close(errRead);
      }
      if inWrite >= 0 {
        kernel.Close(inWrite);
      }
      outRead, errRead, inWrite := NONE, NONE, NONE;
    }

    /** crossbyte_spawn_close_input */
    method CloseInput()
      requires Valid()
      modifies this`inWrite, kernel
      ensures Valid() && inWrite < 0
      ensures kernel.mine == old(kernel.mine) - {old(inWrite)}
    {
      if inWrite >= 0 {
        kernel.Close(inWrite);
        inWrite := NONE;
      }
    }
  }

  /** These are different numbers, and the descriptors open for the child. */
  ghost predicate Owns(ends: seq<Fd>, mine: set<Fd>) {
    && (forall i, j | 0 <= i < j < |ends| :: ends[i] != ends[j])
    && (forall i | 0 <= i < |ends| :: ends[i] >= 0)
    && mine == Elements(ends)
  }

  ghost function Elements(ends: seq<Fd>): set<Fd> { set fd | fd in ends }

  /** The four makePipe calls, input, output, error and report, stopping at the first that fails. */
  method MakePipes(kernel: Kernel) returns (ok: bool, ends: seq<Fd>)
    requires kernel.Valid() && kernel.mine == {}
    modifies kernel
    ensures kernel.Valid() && Owns(ends, kernel.mine) && (ok ==> |ends| == 8) && kernel.made == old(kernel.made) + ends
    ensures kernel.refused == (old(kernel.refused) || !ok)
  {
    ends := [];
    ok, ends := MakePipe(kernel, ends, old(kernel.made));
    if ok {
      ok, ends := MakePipe(kernel, ends, old(kernel.made));
    }
    if ok {
      ok, ends := MakePipe(kernel, ends, old(kernel.made));
    }
    if ok {
      ok, ends := MakePipe(kernel, ends, old(kernel.made));
    }
  }

  method MakePipe(kernel: Kernel, made: seq<Fd>, ghost before: seq<Fd>) returns (ok: bool, ends: seq<Fd>)
    requires kernel.Valid() && Owns(made, kernel.mine) && kernel.made == before + made
    modifies kernel
    ensures kernel.Valid() && Owns(ends, kernel.mine) && |ends| == |made| + if ok then 2 else 0
    ensures kernel.made == before + ends
    ensures kernel.refused == (old(kernel.refused) || !ok)
  {
    var a, b;
    ok, a, b := kernel.Pipe();
    ends := made;
    if ok {
      OwnsMore(made, old(kernel.mine), a, b);
      ends := made + [a, b];
    }
  }

  lemma OwnsMore(made: seq<Fd>, mine: set<Fd>, a: Fd, b: Fd)
    requires Owns(made, mine) && a >= 0 && b >= 0 && a != b && a !in mine && b !in mine
    ensures Owns(made + [a, b], mine + {a, b})
  {
    forall i | 0 <= i < |made| ensures made[i] in mine {
      assert made[i] in made;
    }
    assert Elements(made + [a, b]) == Elements(made) + {a, b};
  }

  /** closePipe on each of the pipes made: every end of them. */
  method ClosePipes(kernel: Kernel, ends: seq<Fd>)
    requires kernel.Valid() && Owns(ends, kernel.mine)
    modifies kernel`taken, kernel`mine, kernel`unused
    ensures kernel.Valid() && kernel.mine == {}
  {
    for i := 0 to |ends|
      invariant kernel.Valid() && Owns(ends[i..], kernel.mine)
    {
      assert ends[i..][0] == ends[i];
      kernel.Close(ends[i]);
      OwnsRest(ends[i..], kernel.mine + {ends[i]});
      assert ends[i..][1..] == ends[i + 1..];
      assert kernel.mine + {ends[i]} - {ends[i]} == kernel.mine;
    }
    assert ends[|ends|..] == [];
  }

  lemma OwnsRest(ends: seq<Fd>, mine: set<Fd>)
    requires ends != [] && Owns(ends, mine)
    ensures Owns(ends[1..], mine - {ends[0]})
  {
    assert ends == [ends[0]] + ends[1..];
  }

  lemma OwnsButLast(ends: seq<Fd>, mine: set<Fd>)
    requires |ends| == 8 && Owns(ends, mine)
    ensures Owns(ends[..7], mine - {ends[7]})
  {
    assert ends == ends[..7] + [ends[7]];
  }

  /** Seven different descriptors. */
  ghost predicate Seven(a: Fd, b: Fd, c: Fd, d: Fd, e: Fd, f: Fd, g: Fd) {
    && a !in {b, c, d, e, f, g} && b !in {c, d, e, f, g} && c !in {d, e, f, g} && d !in {e, f, g}
    && e !in {f, g} && f != g && b >= 0 && c >= 0 && e >= 0
  }

  lemma TheSeven(ends: seq<Fd>, mine: set<Fd>)
    requires |ends| == 7 && Owns(ends, mine)
    ensures Seven(ends[0], ends[1], ends[2], ends[3], ends[4], ends[5], ends[6])
    ensures mine == {ends[0], ends[1], ends[2], ends[3], ends[4], ends[5], ends[6]}
  {
    assert ends == [ends[0], ends[1], ends[2], ends[3], ends[4], ends[5], ends[6]];
  }

  /**
   Of the pipes for input, output, error and the report, the write end of the first and the read ends of the
   next two.
   */
  ghost predicate Keeps(child: Child, pipes: seq<Fd>)
    requires |pipes| == 8
    reads child
  {
    child.inWrite == pipes[1] >= 0 && child.outRead == pipes[2] >= 0 && child.errRead == pipes[4] >= 0
  }

  /**
   crossbyte_spawn_start, from the pipes on: `forks` if fork() does, `runs` if the child then
   becomes the program rather than reporting that it cannot. A start that fails, at whichever step, has closed all
   it opened; one that succeeds has handed the child its three ends and closed the other five.
   */
  method Start(kernel: Kernel, forks: bool, runs: bool) returns (child: Child?)
    requires kernel.Valid() && kernel.mine == {} && !kernel.refused
    modifies kernel
    ensures kernel.Valid() && (child != null <==> !kernel.refused && forks && runs)
    ensures child == null ==> kernel.mine == {}
    ensures child != null ==> |kernel.made| == |old(kernel.made)| + 8 && Keeps(child, kernel.made[|old(kernel.made)|..])
    ensures child != null ==> fresh(child) && child.kernel == kernel && child.Valid() && child.open
  {
    var state := new Child(kernel);
    var ok, ends := MakePipes(kernel);
    var started := false;
    if ok {
      if forks {
        OwnsButLast(ends, kernel.mine);
        kernel.Close(ends[7]);
        ends := ends[..7];
        if runs {
          started := true;
        } else {
          state.waited := true;
        }
      }
    }
    if !started {
      ClosePipes(kernel, ends);
      state.open := false;
      return null;
    }
    HandOver(kernel, state, ends);
    return state;
  }

  /** The child's ends closed, the parent's kept in the state, and the report's read end closed. */
  method HandOver(kernel: Kernel, state: Child, ends: seq<Fd>)
    requires state.kernel == kernel && kernel.Valid() && state.open && |ends| == 7 && Owns(ends, kernel.mine)
    modifies kernel`taken, kernel`mine, kernel`unused, state
    ensures state.Valid() && state.open
    ensures state.inWrite == ends[1] >= 0 && state.outRead == ends[2] >= 0 && state.errRead == ends[4] >= 0
  {
    TheSeven(ends, kernel.mine);
    kernel.Close(ends[0]);
    kernel.Close(ends[3]);
    kernel.Close(ends[5]);
    state.inWrite, state.outRead, state.errRead := ends[1], ends[2], ends[4];
    kernel.Close(ends[6]);
  }

  datatype Operation = CloseInput | CloseChild

  /**
   A child's whole life, whatever closes come in whatever order, to its finalizer: every descriptor
   opened for it has been closed, once.
   */
  method Live(kernel: Kernel, forks: bool, runs: bool, operations: seq<Operation>)
    requires kernel.Valid() && kernel.mine == {} && !kernel.refused
    modifies kernel
    ensures kernel.Valid() && kernel.mine == {}
  {
    var child := Start(kernel, forks, runs);
    if child == null {
      return;
    }
    for i := 0 to |operations|
      invariant child.Valid() && child.kernel == kernel && fresh(child)
    {
      match operations[i]
      case CloseInput => child.CloseInput();
      case CloseChild => child.CloseAll();
    }
    child.CloseAll();
  }
}
