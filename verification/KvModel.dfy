/**
 The key/value table's statements on values: a map from keys to records, each with a revision that
 every write and delete raises by one, a deleted record staying as a tombstone until it is purged.
 */
module KvModel {
  import opened Basics

  type Text = seq<byte>
  type Key = seq<byte>

  datatype Record = Record(
    key: Key, value: Text, revision: nat, created: Text, updated: Text, deleted: bool, schema: Text)

  type Model = m: map<Key, Record> | forall k | k in m :: m[k].key == k

  // ---------- keys, in the order of strcmp ----------

  predicate Less(a: Key, b: Key) {
    if b == [] then false
    else if a == [] then true
    else if a[0] != b[0] then a[0] < b[0]
    else Less(a[1..], b[1..])
  }

  lemma {:induction false} LessTrichotomy(a: Key, b: Key)
    ensures Less(a, b) || a == b || Less(b, a)
    ensures !(Less(a, b) && Less(b, a)) && (a == b ==> !Less(a, b))
  {
    if a != [] && b != [] {
      LessTrichotomy(a[1..], b[1..]);
      assert a[0] == b[0] && a[1..] == b[1..] ==> a == [a[0]] + a[1..] == b;
    }
  }

  lemma {:induction false} LessTransitive(a: Key, b: Key, c: Key)
    requires Less(a, b) && Less(b, c)
    ensures Less(a, c)
  {
    if a != [] && a[0] == b[0] && b[0] == c[0] {
      LessTransitive(a[1..], b[1..], c[1..]);
    }
  }

  // ---------- the statements ----------

  const TIME_ROOM := 47   // char created[48], updated[48]
  const SCHEMA_ROOM := 15 // char schema[16]

  /** snprintf into a buffer with room for `n` characters. */
  function Fit(s: Text, n: nat): Text { if |s| <= n then s else s[..n] }

  datatype Statement =
    | Put(create: bool, key: Key, value: Text, now: Text, schema: Text)
    | Update(key: Key, value: Text, now: Text, schema: Text, revision: int)
    | Delete(key: Key, now: Text, at: Option<int>)
    | Purge(before: real)
    | ClearAll

  datatype Outcome = Written(revision: nat, created: Text, updated: Text) | Nothing | Changed(count: nat)

  /** The record a put leaves, over whatever the key had. */
  function PutRecord(was: Option<Record>, s: Statement): (r: Record)
    requires s.Put?
    ensures r.key == s.key
  {
    Record(s.key, s.value,
           if was.None? then 1 else was.value.revision + 1,
           if was.None? || was.value.deleted then Fit(s.now, TIME_ROOM) else was.value.created,
           Fit(s.now, TIME_ROOM), false, Fit(s.schema, SCHEMA_ROOM))
  }

  function UpdateRecord(was: Record, s: Statement): Record
    requires s.Update?
  {
    was.(value := s.value, revision := was.revision + 1,
         updated := Fit(s.now, TIME_ROOM), schema := Fit(s.schema, SCHEMA_ROOM))
  }

  /** A tombstone: no value, the next revision, schema "0". */
  function Tombstone(was: Record, now: Text): Record {
    was.(value := [], revision := was.revision + 1, updated := Fit(now, TIME_ROOM), deleted := true, schema := [48])
  }

  function Get(m: Model, k: Key): Option<Record> { if k in m then Some(m[k]) else None }

  /** What a stored time reads as: atof(), which nothing here needs to know. */
  type Clock = Text -> real

  predicate Purged(r: Record, before: real, clock: Clock) { r.deleted && clock(r.updated) < before }

  predicate Puts(was: Option<Record>, s: Statement)
    requires s.Put?
  {
    !(was.Some? && s.create && !was.value.deleted)
  }

  predicate Updates(was: Option<Record>, s: Statement)
    requires s.Update?
  {
    was.Some? && !was.value.deleted && was.value.revision == s.revision
  }

  predicate Deletes(was: Option<Record>, s: Statement)
    requires s.Delete?
  {
    was.Some? && !was.value.deleted && (s.at.Some? ==> was.value.revision == s.at.value)
  }

  function Removed(m: Model, before: real, clock: Clock): set<Key> {
    set k | k in m && Purged(m[k], before, clock)
  }

  /** The table a statement leaves. */
  function After(m: Model, s: Statement, clock: Clock): Model {
    match s
    case Put(_, k, _, _, _) => if Puts(Get(m, k), s) then m[k := PutRecord(Get(m, k), s)] else m
    case Update(k, _, _, _, _) => if Updates(Get(m, k), s) then m[k := UpdateRecord(m[k], s)] else m
    case Delete(k, now, _) => if Deletes(Get(m, k), s) then m[k := Tombstone(m[k], now)] else m
    case Purge(before) => m - Removed(m, before, clock)
    case ClearAll => map[]
  }

  /** Whether a statement wrote the record of its key. */
  predicate Succeeds(m: Model, s: Statement) {
    match s
    case Put(_, k, _, _, _) => Puts(Get(m, k), s)
    case Update(k, _, _, _, _) => Updates(Get(m, k), s)
    case Delete(k, _, _) => Deletes(Get(m, k), s)
    case _ => false
  }

  function Reply(m: Model, s: Statement, clock: Clock): Outcome {
    match s
    case Put(_, k, _, _, _) =>
      if !Puts(Get(m, k), s) then Nothing
      else var r := PutRecord(Get(m, k), s); Written(r.revision, r.created, r.updated)
    case Update(k, _, _, _, _) =>
      if !Updates(Get(m, k), s) then Nothing
      else var r := UpdateRecord(m[k], s); Written(r.revision, r.created, r.updated)
    case Delete(k, _, _) => Changed(if Deletes(Get(m, k), s) then 1 else 0)
    case Purge(before) => Changed(|Removed(m, before, clock)|)
    case ClearAll => Changed(0)
  }

  // ---------- revisions over every run ----------

  predicate Names(s: Statement, k: Key) { (s.Put? || s.Update? || s.Delete?) && s.key == k }

  /** Revision 0 stands for no record, as it does to compare-and-set. */
  function Revision(m: Model, k: Key): nat { if k in m then m[k].revision else 0 }

  /** `s` takes the record of `k` out of the table altogether. */
  predicate Forgets(m: Model, s: Statement, k: Key, clock: Clock) {
    k in m && (s.ClearAll? || (s.Purge? && Purged(m[k], s.before, clock)))
  }

  /** A success raises its own key's revision by exactly one, and nothing else's changes but by being forgotten. */
  lemma RevisionStep(m: Model, s: Statement, k: Key, clock: Clock)
    ensures Names(s, k) && Succeeds(m, s) ==> Revision(After(m, s, clock), k) == Revision(m, k) + 1
    ensures !(Names(s, k) && Succeeds(m, s)) ==>
              Get(After(m, s, clock), k) == if Forgets(m, s, k, clock) then None else Get(m, k)
  {
  }

  /** The tables before, between and after the statements of a run. */
  ghost predicate IsRun(states: seq<Model>, run: seq<Statement>, clock: Clock) {
    && |states| == |run| + 1
    && forall i | 0 <= i < |run| :: StepAt(states, run, i, clock)
  }

  predicate StepAt(states: seq<Model>, run: seq<Statement>, i: int, clock: Clock)
    requires 0 <= i < |run| == |states| - 1
  {
    states[i + 1] == After(states[i], run[i], clock)
  }

  predicate Forgotten(states: seq<Model>, run: seq<Statement>, i: nat, j: nat, k: Key, clock: Clock)
    requires i <= j <= |run| < |states|
  {
    exists n | i <= n < j :: Forgets(states[n], run[n], k, clock)
  }

  /** `s` is a write or a delete of `k` that succeeds. */
  predicate Wrote(m: Model, s: Statement, k: Key) { Names(s, k) && Succeeds(m, s) }

  /** How many of statements `i` up to `j` wrote `k`. */
  function Writes(states: seq<Model>, run: seq<Statement>, i: nat, j: nat, k: Key): nat
    requires i <= j <= |run| < |states|
    decreases j
  {
    if i == j then 0
    else Writes(states, run, i, j - 1, k) + if Wrote(states[j - 1], run[j - 1], k) then 1 else 0
  }

  lemma ForgottenLess(states: seq<Model>, run: seq<Statement>, i: nat, j: nat, k: Key, clock: Clock)
    requires i < j <= |run| < |states| && !Forgotten(states, run, i, j, k, clock)
    ensures !Forgets(states[j - 1], run[j - 1], k, clock) && !Forgotten(states, run, i, j - 1, k, clock)
  {
  }

  /** While nothing forgets a key, its revision counts the writes and deletes made to it. */
  lemma {:induction false} RevisionCountsWrites(
    states: seq<Model>, run: seq<Statement>, i: nat, j: nat, k: Key, clock: Clock)
    requires IsRun(states, run, clock) && i <= j <= |run|
    requires !Forgotten(states, run, i, j, k, clock)
    ensures Revision(states[j], k) == Revision(states[i], k) + Writes(states, run, i, j, k)
    decreases j
  {
    if i < j {
      ForgottenLess(states, run, i, j, k, clock);
      RevisionCountsWrites(states, run, i, j - 1, k, clock);
      RevisionStep(states[j - 1], run[j - 1], k, clock);
      assert StepAt(states, run, j - 1, clock);
    }
  }

  lemma {:induction false} WriteCounted(states: seq<Model>, run: seq<Statement>, i: nat, d: nat, j: nat, k: Key)
    requires i <= d < j <= |run| < |states|
    requires Wrote(states[d], run[d], k)
    ensures Writes(states, run, i, j, k) >= 1
    decreases j
  {
    if d < j - 1 {
      WriteCounted(states, run, i, d, j - 1, k);
    }
  }

  /** The last of statements `i` up to `j` that wrote `k`. */
  function LastWrite(states: seq<Model>, run: seq<Statement>, i: nat, j: nat, k: Key): (n: nat)
    requires i <= j <= |run| < |states| && Writes(states, run, i, j, k) >= 1
    ensures i <= n < j && Wrote(states[n], run[n], k)
    ensures forall l | n < l < j :: !Wrote(states[l], run[l], k)
    decreases j
  {
    if Wrote(states[j - 1], run[j - 1], k) then j - 1 else LastWrite(states, run, i, j - 1, k)
  }

  /** While nothing forgets a key, it is a tombstone just when the last write of it was a delete. */
  lemma {:induction false} LastWriteShows(
    states: seq<Model>, run: seq<Statement>, i: nat, j: nat, k: Key, clock: Clock)
    requires IsRun(states, run, clock) && i <= j <= |run| && Writes(states, run, i, j, k) >= 1
    requires !Forgotten(states, run, i, j, k, clock)
    ensures k in states[j] && (states[j][k].deleted <==> run[LastWrite(states, run, i, j, k)].Delete?)
    decreases j
  {
    var s := run[j - 1];
    assert StepAt(states, run, j - 1, clock);
    if !Wrote(states[j - 1], s, k) {
      ForgottenLess(states, run, i, j, k, clock);
      LastWriteShows(states, run, i, j - 1, k, clock);
      RevisionStep(states[j - 1], s, k, clock);
    }
  }

  /** The revision a conditional write names: an update's, a conditional delete's, and for a create 0. */
  function Expects(s: Statement): Option<int> {
    match s
    case Put(create, _, _, _, _) => if create then Some(0) else None
    case Update(_, _, _, _, revision) => Some(revision)
    case Delete(_, _, at) => at
    case _ => None
  }

  /**
   After a write of a key that took it past revision `e`, a conditional write naming `e` succeeds,
   until a purge, just when it is a create and the last write of the key before it was a delete.
   */
  lemma OvertakenIff(states: seq<Model>, run: seq<Statement>, i: nat, d: nat, j: nat, k: Key, clock: Clock)
    requires IsRun(states, run, clock) && i <= d < j < |run| && Wrote(states[d], run[d], k)
    requires !Forgotten(states, run, i, j, k, clock)
    requires Names(run[j], k) && Expects(run[j]).Some? && Expects(run[j]).value <= Revision(states[i], k)
    ensures Writes(states, run, i, j, k) >= 1
    ensures Succeeds(states[j], run[j]) <==> run[j].Put? && run[LastWrite(states, run, i, j, k)].Delete?
  {
    RevisionCountsWrites(states, run, i, j, k, clock);
    WriteCounted(states, run, i, d, j, k);
    LastWriteShows(states, run, i, j, k, clock);
  }

  /**
   Of the conditional writes of a key that name one revision, at most one succeeds, until a purge,
   when the revision is not 0. At revision 0, which is a create's, a second one succeeds just when
   the last write of the key between was a delete.
   */
  lemma OneWinner(states: seq<Model>, run: seq<Statement>, i: nat, j: nat, k: Key, clock: Clock)
    requires IsRun(states, run, clock) && i < j < |run|
    requires !Forgotten(states, run, i, j, k, clock)
    requires Names(run[i], k) && Names(run[j], k)
    requires Expects(run[i]).Some? && Expects(run[i]) == Expects(run[j])
    requires Succeeds(states[i], run[i])
    ensures Expects(run[j]) != Some(0) ==> !Succeeds(states[j], run[j])
    ensures Writes(states, run, i, j, k) >= 1
    ensures Succeeds(states[j], run[j]) <==> run[j].Put? && run[LastWrite(states, run, i, j, k)].Delete?
  {
    OvertakenIff(states, run, i, i, j, k, clock);
  }

  /**
   A revision read before a delete matches nothing after it, whatever is created again, until a
   purge takes the tombstone; but 0, read where there was no record, matches whenever the last write
   was a delete.
   */
  lemma StaleAfterDelete(states: seq<Model>, run: seq<Statement>, i: nat, d: nat, j: nat, k: Key, clock: Clock)
    requires IsRun(states, run, clock) && i <= d < j < |run|
    requires !Forgotten(states, run, i, j, k, clock)
    requires run[d].Delete? && Names(run[d], k) && Succeeds(states[d], run[d])
    requires Names(run[j], k) && Expects(run[j]) == Some(Revision(states[i], k))
    ensures Revision(states[i], k) != 0 ==> !Succeeds(states[j], run[j])
    ensures Writes(states, run, i, j, k) >= 1
    ensures Succeeds(states[j], run[j]) <==> run[j].Put? && run[LastWrite(states, run, i, j, k)].Delete?
  {
    OvertakenIff(states, run, i, d, j, k, clock);
  }

  /** A create, a delete and a create again: both creates name revision 0, both succeed, and nothing is forgotten. */
  lemma CreateWinsTwice(k: Key, clock: Clock)
    ensures var create, delete, again := Put(true, k, [1], [], []), Delete(k, [], None), Put(true, k, [2], [], []);
            var created := After(map[], create, clock);
            var deleted := After(created, delete, clock);
            && Expects(create) == Expects(again) == Some(0)
            && Succeeds(map[], create) && !Forgets(created, delete, k, clock) && Succeeds(deleted, again)
  {
    var created := After(map[], Put(true, k, [1], [], []), clock);
    assert k in created && !created[k].deleted;
  }

  /**
   Without that condition it is false: purged and written again, a key is back at revision 1, and
   an update that read revision 1 before the delete goes through.
   */
  lemma PurgeForgetsRevisions(k: Key, clock: Clock)
    ensures var delete := Delete(k, [], None);
            var update := Update(k, [3], [], [], 1);
            var written := After(map[], Put(false, k, [1], [], []), clock);
            var purged := After(After(written, delete, clock), Purge(clock([]) + 1.0), clock);
            var again := After(purged, Put(false, k, [2], [], []), clock);
            Revision(written, k) == update.revision && Succeeds(written, delete) && Succeeds(again, update)
  {
    var written := After(map[], Put(false, k, [1], [], []), clock);
    var tombstone := After(written, Delete(k, [], None), clock);
    assert tombstone[k].deleted && tombstone[k].updated == [];
    var purged := After(tombstone, Purge(clock([]) + 1.0), clock);
    assert k !in purged;
  }
}
