/**
 Transactions over the fake server's table. BEGIN keeps a copy of the table with the connection,
 and ending the transaction either drops it or puts the table back.
 */
module KvTransactions {
  import opened Basics
  import opened KvModel

  type Id = nat

  datatype Tx = Idle | Open | Aborted

  datatype Conn = Conn(tx: Tx, failNextCommit: bool, snapshot: Option<Model>)

  const NEW_CONN := Conn(Idle, false, None)

  datatype Sql =
    | Begin | Commit | Rollback
    | Kv(statement: Statement)
    | Read             // a get, a scan, or a statement that touches no table
    | Fail             // fake:fail, or a statement cancelled
    | FailNextCommit
    | Finish           // PQfinish: the connection goes

  datatype Answer = Ok(tag: string) | Wrote(outcome: Outcome) | Error

  datatype Db = Db(table: Model, conns: map<Id, Conn>) {
    function Of(c: Id): Conn { if c in conns then conns[c] else NEW_CONN }
  }

  /** fakeEndKv: the connection's hold on the table ends, the table put back first when `undo`. */
  function Ended(db: Db, c: Id, undo: bool, failNextCommit: bool): Db {
    var snapshot := db.Of(c).snapshot;
    Db(if undo && snapshot.Some? then snapshot.value else db.table, db.conns[c := Conn(Idle, failNextCommit, None)])
  }

  function Failed(db: Db, c: Id): Db {
    if db.Of(c).tx.Open? then db.(conns := db.conns[c := db.Of(c).(tx := Aborted)]) else db
  }

  /** fakeRun, and PQfinish. */
  function Step(db: Db, c: Id, sql: Sql, clock: Clock): Db {
    var conn := db.Of(c);
    match sql
    case Commit =>
      if conn.failNextCommit then Ended(db, c, true, false) else Ended(db, c, conn.tx.Aborted?, false)
    case Rollback => Ended(db, c, true, conn.failNextCommit)
    case Finish => var ended := Ended(db, c, true, false); ended.(conns := ended.conns - {c})
    case _ =>
      if conn.tx.Aborted? then db
      else match sql
        case Begin => db.(conns := db.conns[c := conn.(tx := Open, snapshot := Some(db.table))])
        case Kv(s) => db.(table := After(db.table, s, clock))
        case Fail => Failed(db, c)
        case FailNextCommit => db.(conns := db.conns[c := conn.(failNextCommit := true)])
        case Read => db
  }

  function Answers(db: Db, c: Id, sql: Sql, clock: Clock): Answer {
    var conn := db.Of(c);
    match sql
    case Commit => if conn.failNextCommit then Error else Ok(if conn.tx.Aborted? then "ROLLBACK" else "COMMIT")
    case Rollback => Ok("ROLLBACK")
    case Finish => Ok("")
    case _ =>
      if conn.tx.Aborted? then Error
      else match sql
        case Begin => Ok("BEGIN")
        case Kv(s) => Wrote(Reply(db.table, s, clock))
        case Fail => Error
        case FailNextCommit => Ok("OK")
        case Read => Ok("")
  }

  datatype Call = Call(c: Id, sql: Sql)

  ghost predicate IsRun(dbs: seq<Db>, run: seq<Call>, clock: Clock) {
    && |dbs| == |run| + 1
    && (forall c | c in dbs[0].conns :: Settled(dbs[0].conns[c]))
    && forall i | 0 <= i < |run| :: StepAt(dbs, run, i, clock)
  }

  ghost predicate StepAt(dbs: seq<Db>, run: seq<Call>, i: int, clock: Clock)
    requires 0 <= i < |run| == |dbs| - 1
  {
    dbs[i + 1] == Step(dbs[i], run[i].c, run[i].sql, clock)
  }

  /** A connection holds a copy just while it is in a transaction. */
  predicate Settled(conn: Conn) { conn.tx.Idle? <==> conn.snapshot.None? }

  lemma {:induction false} AllSettled(dbs: seq<Db>, run: seq<Call>, clock: Clock, i: nat, c: Id)
    requires IsRun(dbs, run, clock) && i <= |run|
    ensures Settled(dbs[i].Of(c))
  {
    if i > 0 {
      AllSettled(dbs, run, clock, i - 1, c);
      assert StepAt(dbs, run, i - 1, clock);
    }
  }

  predicate Ends(sql: Sql) { sql.Commit? || sql.Rollback? || sql.Finish? }

  /** The end of a transaction that takes its writes back. */
  predicate Undoes(conn: Conn, sql: Sql) {
    sql.Rollback? || sql.Finish? || (sql.Commit? && (conn.failNextCommit || conn.tx.Aborted?))
  }

  /** Between the calls `i` and `j`, `c` neither ended its transaction nor began another. */
  ghost predicate Within(dbs: seq<Db>, run: seq<Call>, i: nat, j: nat, c: Id)
    requires i < j <= |run| < |dbs|
  {
    && run[i] == Call(c, Begin) && !dbs[i].Of(c).tx.Aborted?
    && forall n | i < n < j && run[n].c == c :: !Ends(run[n].sql) && (run[n].sql.Begin? ==> dbs[n].Of(c).tx.Aborted?)
  }

  /** The copy BEGIN made stays what the table was then, whatever anyone does meanwhile. */
  lemma {:induction false} SnapshotStays(dbs: seq<Db>, run: seq<Call>, clock: Clock, i: nat, j: nat, c: Id)
    requires IsRun(dbs, run, clock) && i < j <= |run| && Within(dbs, run, i, j, c)
    ensures dbs[j].Of(c).snapshot == Some(dbs[i].table) && !dbs[j].Of(c).tx.Idle?
    decreases j
  {
    assert StepAt(dbs, run, j - 1, clock);
    if i < j - 1 {
      SnapshotStays(dbs, run, clock, i, j - 1, c);
    }
  }

  /**
   ROLLBACK, COMMIT of an aborted transaction, a COMMIT that fails and PQfinish all leave the table
   as it was at the BEGIN; any other COMMIT leaves it as it was at the COMMIT.
   */
  lemma AllOrNothing(dbs: seq<Db>, run: seq<Call>, clock: Clock, i: nat, j: nat, c: Id)
    requires IsRun(dbs, run, clock) && i < j < |run| && Within(dbs, run, i, j, c)
    requires run[j].c == c && Ends(run[j].sql)
    ensures dbs[j + 1].table == if Undoes(dbs[j].Of(c), run[j].sql) then dbs[i].table else dbs[j].table
    ensures run[j].sql.Commit? ==>
              (Answers(dbs[j], c, run[j].sql, clock) == Ok("COMMIT") <==> !Undoes(dbs[j].Of(c), run[j].sql))
  {
    SnapshotStays(dbs, run, clock, i, j, c);
    assert StepAt(dbs, run, j, clock);
  }

  /** What other connections may do for `c` to be the one that writes. */
  predicate Quiet(sql: Sql) { sql.Read? || sql.Fail? || sql.FailNextCommit? }

  ghost predicate OnlyWriter(run: seq<Call>, i: nat, j: nat, c: Id)
    requires i <= j <= |run|
  {
    forall n | i <= n < j && run[n].c != c :: Quiet(run[n].sql)
  }

  /** The writes of `c` among calls `i` up to `j` that its transaction took, made one after another. */
  ghost function Replayed(m: Model, dbs: seq<Db>, run: seq<Call>, clock: Clock, i: nat, j: nat, c: Id): Model
    requires i <= j <= |run| < |dbs|
    decreases j
  {
    if i == j then m
    else
      var before := Replayed(m, dbs, run, clock, i, j - 1, c);
      var call := run[j - 1];
      if call.c == c && call.sql.Kv? && !dbs[j - 1].Of(c).tx.Aborted? then After(before, call.sql.statement, clock)
      else before
  }

  /**
   With one connection writing, a committed transaction leaves exactly its own writes on top of the
   table it began with.
   */
  lemma {:induction false} TableIsReplayed(dbs: seq<Db>, run: seq<Call>, clock: Clock, i: nat, j: nat, c: Id)
    requires IsRun(dbs, run, clock) && i < j <= |run| && Within(dbs, run, i, j, c) && OnlyWriter(run, i, j, c)
    ensures dbs[j].table == Replayed(dbs[i].table, dbs, run, clock, i + 1, j, c)
    decreases j
  {
    assert StepAt(dbs, run, j - 1, clock);
    if i < j - 1 {
      TableIsReplayed(dbs, run, clock, i, j - 1, c);
    }
  }

  /** While the writer's transaction is aborted nothing changes the table, and only its end gets it out. */
  lemma {:induction false} FrozenWhileAborted(dbs: seq<Db>, run: seq<Call>, clock: Clock, i: nat, j: nat, c: Id)
    requires IsRun(dbs, run, clock) && i <= j <= |run| && dbs[i].Of(c).tx.Aborted?
    requires OnlyWriter(run, i, j, c) && forall n | i <= n < j && run[n].c == c :: !Ends(run[n].sql)
    ensures dbs[j].table == dbs[i].table && dbs[j].Of(c) == dbs[i].Of(c)
    decreases j
  {
    if i < j {
      FrozenWhileAborted(dbs, run, clock, i, j - 1, c);
      assert StepAt(dbs, run, j - 1, clock);
    }
  }
}

/** The server's own fields: one shared table, and each connection's transaction and copy. */
module FakeServer {
  import opened Basics
  import opened KvModel
  import opened KvTable
  import opened KvStore
  import opened T = KvTransactions

  datatype ConnState = ConnState(tx: Tx, failNextCommit: bool, snapshot: Option<seq<Record>>)

  class Server {
    const table: Table
    var conns: map<Id, ConnState>
    ghost var db: Db

    ghost predicate Matches(s: ConnState, c: Conn) {
      && s.tx == c.tx && s.failNextCommit == c.failNextCommit && (s.snapshot.Some? <==> c.snapshot.Some?)
      && (s.snapshot.Some? ==> KvTable.Ok(s.snapshot.value, c.snapshot.value))
    }

    ghost predicate Valid()
      reads this, table, table.records
    {
      && table.Valid() && db.table == table.model && db.conns.Keys == conns.Keys
      && forall c | c in conns :: Matches(conns[c], db.conns[c])
    }

    constructor ()
      ensures Valid() && fresh(table) && fresh(table.records) && db == Db(map[], map[])
    {
      table := new Table();
      conns := map[];
      db := Db(map[], map[]);
    }

    function Of(c: Id): ConnState
      reads this
    {
      if c in conns then conns[c] else ConnState(Idle, false, None)
    }

    /** fakeEndKv */
    method EndKv(c: Id, undo: bool)
      requires Valid()
      modifies this, table
      ensures Valid() && (table.records == old(table.records) || fresh(table.records))
      ensures db == Ended(old(db), c, undo, old(Of(c)).failNextCommit)
    {
      var conn := Of(c);
      db := Ended(db, c, undo, conn.failNextCommit);
      if conn.snapshot.Some? && undo {
        table.Restore(conn.snapshot.value, old(db).Of(c).snapshot.value);
      }
      conns := conns[c := ConnState(Idle, conn.failNextCommit, None)];
    }

    method Set(c: Id, s: ConnState, ghost m: Conn)
      requires Valid() && Matches(s, m)
      modifies this
      ensures Valid() && db == old(db).(conns := old(db).conns[c := m])
    {
      conns := conns[c := s];
      db := db.(conns := db.conns[c := m]);
    }

    method Commit(c: Id, clock: Clock) returns (a: Answer)
      requires Valid()
      modifies this, table
      ensures Valid() && (table.records == old(table.records) || fresh(table.records))
      ensures db == Step(old(db), c, Sql.Commit, clock) && a == Answers(old(db), c, Sql.Commit, clock)
    {
      var conn := Of(c);
      if conn.failNextCommit {
        FailCommit(c, clock);
        return Error;
      }
      EndKv(c, conn.tx.Aborted?);
      return Answer.Ok(if conn.tx.Aborted? then "ROLLBACK" else "COMMIT");
    }

    /** A COMMIT that fails ends the transaction all the same. */
    method FailCommit(c: Id, ghost clock: Clock)
      requires Valid() && Of(c).failNextCommit
      modifies this, table
      ensures Valid() && (table.records == old(table.records) || fresh(table.records))
      ensures db == Step(old(db), c, Sql.Commit, clock)
    {
      var conn := Of(c);
      ghost var was, cleared := db, db.Of(c).(failNextCommit := false);
      Set(c, conn.(failNextCommit := false), cleared);
      EndKv(c, true);
      SetTwice(was.conns, c, cleared, Conn(Idle, false, None));
    }

    lemma SetTwice(m: map<Id, Conn>, c: Id, a: Conn, b: Conn)
      ensures m[c := a][c := b] == m[c := b]
    {
    }

    /** fakeRun for the statements that matter to the table, and PQfinish. */
    method Run(c: Id, sql: Sql, clock: Clock) returns (a: Answer)
      requires Valid()
      modifies this, table, table.records
      ensures Valid() && (table.records == old(table.records) || fresh(table.records))
      ensures db == Step(old(db), c, sql, clock) && a == Answers(old(db), c, sql, clock)
    {
      if sql.Commit? {
        a := Commit(c, clock);
        return;
      }
      if sql.Rollback? {
        EndKv(c, true);
        return Answer.Ok("ROLLBACK");
      }
      if sql.Finish? {
        Finish(c, clock);
        return Answer.Ok("");
      }
      a := Statement(c, sql, clock);
    }

    /** PQfinish */
    method Finish(c: Id, ghost clock: Clock)
      requires Valid()
      modifies this, table
      ensures Valid() && (table.records == old(table.records) || fresh(table.records))
      ensures db == Step(old(db), c, Sql.Finish, clock)
    {
      EndKv(c, true);
      conns := conns - {c};
      db := db.(conns := db.conns - {c});
    }

    /** The rest of fakeRun: anything that does not end a transaction. */
    method Statement(c: Id, sql: Sql, clock: Clock) returns (a: Answer)
      requires Valid() && !Ends(sql)
      modifies this, table, table.records
      ensures Valid() && (table.records == old(table.records) || fresh(table.records))
      ensures db == Step(old(db), c, sql, clock) && a == Answers(old(db), c, sql, clock)
    {
      var conn := Of(c);
      ghost var was := db.Of(c);
      if conn.tx.Aborted? {
        return Error;
      }
      match sql
      case Begin =>
        var copy := table.records[..table.count];
        Set(c, conn.(tx := Open, snapshot := Some(copy)), was.(tx := Open, snapshot := Some(db.table)));
        a := Answer.Ok("BEGIN");
      case Kv(s) =>
        var outcome := table.Execute(s, clock);
        db := db.(table := After(db.table, s, clock));
        a := Wrote(outcome);
      case Fail =>
        if conn.tx.Open? {
          Set(c, conn.(tx := Aborted), was.(tx := Aborted));
        }
        a := Error;
      case FailNextCommit =>
        Set(c, conn.(failNextCommit := true), was.(failNextCommit := true));
        a := Answer.Ok("OK");
      case Read =>
        a := Answer.Ok("");
    }
  }
}
