/** The table as fake_libpq keeps it, statement by statement. */
module KvStore {
  import opened Basics
  import opened KvModel
  import opened KvTable

  class Table {
    var records: array<Record>  // its length is the capacity
    var count: nat
    ghost var model: Model

    ghost predicate Valid()
      reads this, records
    {
      count <= records.Length && Ok(records[..count], model)
    }

    constructor ()
      ensures Valid() && fresh(records) && model == map[]
    {
      records := new Record[0];
      count := 0;
      model := map[];
    }

    /** fakeFind: where `key` is, or where it would go. */
    method Find(key: Key) returns (at: nat, found: bool)
      requires Valid()
      ensures Place(records[..count], key, at)
      ensures found <==> key in model
      ensures found ==> at < count && records[at] == model[key]
    {
      var lo, hi := 0, count;
      while lo < hi
        invariant lo <= hi <= count
        invariant forall i | 0 <= i < lo :: Less(records[..count][i].key, key)
        invariant forall i | hi <= i < count :: !Less(records[..count][i].key, key)
      {
        var mid := (lo + hi) / 2;
        if Less(records[mid].key, key) {
          BelowToo(records[..count], mid, key);
          lo := mid + 1;
        } else {
          AboveToo(records[..count], mid, key);
          hi := mid;
        }
      }
      at := lo;
      found := lo < count && records[lo].key == key;
      PlaceFinds(records[..count], model, key, at);
    }

    /** Stores over the record of a key that is there. */
    method Replace(at: nat, r: Record)
      requires Valid() && at < count && records[at].key == r.key
      modifies this`model, records
      ensures Valid() && model == old(model)[r.key := r]
    {
      ReplaceKeeps(records[..count], model, at, r);
      ghost var before := records[..count];
      records[at] := r;
      model := model[r.key := r];
      assert records[..count] == before[at := r];
    }

    /** fakeInsert: grown when full, and everything from `at` on moved up by one. */
    method Insert(at: nat, r: Record)
      requires Valid() && Place(records[..count], r.key, at) && r.key !in model
      modifies this, records
      ensures Valid() && (records == old(records) || fresh(records)) && model == old(model)[r.key := r]
    {
      InsertKeeps(records[..count], model, at, r);
      if count == records.Length {
        records := Grown(records, count);
      }
      ShiftIn(records, count, at, r);
      count := count + 1;
      model := model[r.key := r];
    }

    /** fakeKvPut, fakeKvUpdate, fakeKvDelete, fakeKvPurge and the clearing, each what the map does. */
    method Execute(s: Statement, clock: Clock) returns (r: Outcome)
      requires Valid()
      modifies this, records
      ensures Valid() && (records == old(records) || fresh(records))
      ensures model == After(old(model), s, clock) && r == Reply(old(model), s, clock)
    {
      match s
      case Put(_, _, _, _, _) => r := KvPut(s, clock);
      case Update(_, _, _, _, _) => r := KvUpdate(s, clock);
      case Delete(_, _, _) => r := KvDelete(s, clock);
      case Purge(before) => r := KvPurge(before, clock);
      case ClearAll =>
        records := new Record[0];
        count := 0;
        model := map[];
        r := Changed(0);
    }

    method KvPut(s: Statement, ghost clock: Clock) returns (r: Outcome)
      requires Valid() && s.Put?
      modifies this, records
      ensures Valid() && (records == old(records) || fresh(records))
      ensures model == After(old(model), s, clock) && r == Reply(old(model), s, clock)
    {
      var at, found := Find(s.key);
      if found && s.create && !records[at].deleted {
        return Nothing;
      }
      var record := Record(s.key, [], 1, Fit(s.now, TIME_ROOM), [], false, []);
      if found {
        record := records[at].(revision := records[at].revision + 1);
        if record.deleted {
          record := record.(created := Fit(s.now, TIME_ROOM));
        }
      }
      record := record.(value := s.value);
      record := record.(updated := Fit(s.now, TIME_ROOM));
      record := record.(schema := Fit(s.schema, SCHEMA_ROOM));
      record := record.(deleted := false);
      assert record == PutRecord(Get(model, s.key), s);
      if found {
        Replace(at, record);
      } else {
        Insert(at, record);
      }
      return Written(record.revision, record.created, record.updated);
    }

    method KvUpdate(s: Statement, ghost clock: Clock) returns (r: Outcome)
      requires Valid() && s.Update?
      modifies this`model, records
      ensures Valid() && model == After(old(model), s, clock) && r == Reply(old(model), s, clock)
    {
      var at, found := Find(s.key);
      if !found || records[at].deleted || records[at].revision != s.revision {
        return Nothing;
      }
      var record := records[at].(revision := records[at].revision + 1);
      record := record.(value := s.value);
      record := record.(updated := Fit(s.now, TIME_ROOM));
      record := record.(schema := Fit(s.schema, SCHEMA_ROOM));
      assert record == UpdateRecord(records[at], s);
      Replace(at, record);
      return Written(record.revision, record.created, record.updated);
    }

    method KvDelete(s: Statement, ghost clock: Clock) returns (r: Outcome)
      requires Valid() && s.Delete?
      modifies this`model, records
      ensures Valid() && model == After(old(model), s, clock) && r == Reply(old(model), s, clock)
    {
      var at, found := Find(s.key);
      if !found || records[at].deleted || (s.at.Some? && records[at].revision != s.at.value) {
        return Changed(0);
      }
      var record := records[at].(revision := records[at].revision + 1);
      record := record.(value := []);
      record := record.(updated := Fit(s.now, TIME_ROOM));
      record := record.(schema := [48]);
      record := record.(deleted := true);
      assert record == Tombstone(records[at], s.now);
      Replace(at, record);
      return Changed(1);
    }

    /** One pass, keeping what stays at the front. */
    method KvPurge(before: real, clock: Clock) returns (r: Outcome)
      requires Valid()
      modifies this, records
      ensures Valid() && records == old(records)
      ensures model == After(old(model), Purge(before), clock) && r == Reply(old(model), Purge(before), clock)
    {
      ghost var s := records[..count];
      PurgeKeeps(s, model, before, clock);
      SortedDistinct(s);
      PurgeCounts(s, model, before, clock);
      var kept, purged := Compact(records, count, before, clock);
      count := kept;
      model := After(model, Purge(before), clock);
      return Changed(purged);
    }

    /** Puts the table back to a copy made of it: fakeEndKv, undoing. */
    method Restore(s: seq<Record>, ghost m: Model)
      requires Ok(s, m)
      modifies this
      ensures Valid() && fresh(records) && model == m
    {
      records := new Record[if |s| > 0 then |s| else 1];
      forall i | 0 <= i < |s| {
        records[i] := s[i];
      }
      count := |s|;
      model := m;
      assert records[..count] == s;
    }

    /** fakeKvGet: a live record, with its value when that is no longer than asked for. */
    method KvGet(key: Key, maxValue: int) returns (r: Option<Record>, value: Option<Text>)
      requires Valid()
      ensures r == if key in model && !model[key].deleted then Some(model[key]) else None
      ensures value == if r.Some? && |r.value.value| <= maxValue then Some(r.value.value) else None
    {
      var at, found := Find(key);
      if !found || records[at].deleted {
        return None, None;
      }
      r := Some(records[at]);
      value := if |records[at].value| <= maxValue then Some(records[at].value) else None;
    }

    /** fakeKvScan: a page of the records in a range. */
    method KvScan(g: Range, fetch: int, b: Budget) returns (rows: seq<Row>)
      requires Valid()
      ensures rows == Rows(Take(InRange(records[..count], g), fetch), b)
    {
      var at, _ := Find(g.low);
      BelowIsOut(records[..count], at, g);
      VisitedInRange(records[..count], at, g, fetch);
      rows := MakeRows(records[..count], at, g, fetch, b);
    }
  }

  /** realloc to twice the room, sixteen to begin with. */
  method Grown(a: array<Record>, count: nat) returns (bigger: array<Record>)
    requires count == a.Length
    ensures fresh(bigger) && bigger.Length > count && bigger[..count] == a[..count]
  {
    bigger := new Record[if a.Length == 0 then 16 else a.Length * 2];
    forall i | 0 <= i < count {
      bigger[i] := a[i];
    }
  }

  /** memmove up by one from `at`, and the new record into the gap. */
  method ShiftIn(a: array<Record>, count: nat, at: nat, r: Record)
    requires at <= count < a.Length
    modifies a
    ensures a[..count + 1] == old(a[..count])[..at] + [r] + old(a[..count])[at..]
  {
    forall i | at < i <= count {
      a[i] := a[i - 1];
    }
    a[at] := r;
  }

  lemma KeepOneMore(s: seq<Record>, i: nat, before: real, clock: Clock)
    requires i < |s|
    ensures Keep(s[..i + 1], before, clock)
         == Keep(s[..i], before, clock) + if Purged(s[i], before, clock) then [] else [s[i]]
    ensures CountPurged(s[..i + 1], before, clock)
         == CountPurged(s[..i], before, clock) + if Purged(s[i], before, clock) then 1 else 0
  {
    assert s[..i + 1][..i] == s[..i];
  }

  /** Record `i` goes to the end of what is kept. */
  method MoveDown(a: array<Record>, kept: nat, i: nat)
    requires kept <= i < a.Length
    modifies a
    ensures a[..kept + 1] == old(a[..kept]) + [old(a[i])]
    ensures forall k | i < k < a.Length :: a[k] == old(a[k])
  {
    a[kept] := a[i];
  }

  /** One pass over the array, keeping what stays at its front. */
  method Compact(a: array<Record>, count: nat, before: real, clock: Clock) returns (kept: nat, purged: nat)
    requires count <= a.Length
    modifies a
    ensures kept <= count && a[..kept] == Keep(old(a[..count]), before, clock)
    ensures purged == CountPurged(old(a[..count]), before, clock)
  {
    ghost var s := a[..count];
    kept, purged := 0, 0;
    for i := 0 to count
      invariant kept <= i && forall k | i <= k < count :: a[k] == s[k]
      invariant a[..kept] == Keep(s[..i], before, clock)
      invariant purged == CountPurged(s[..i], before, clock)
    {
      KeepOneMore(s, i, before, clock);
      if a[i].deleted && clock(a[i].updated) < before {
        purged := purged + 1;
      } else {
        MoveDown(a, kept, i);
        kept := kept + 1;
      }
    }
    assert s[..count] == s;
  }

  /** The scan's two loops: the rows counted, and then made, each in the room the count left for it. */
  method MakeRows(s: seq<Record>, at: nat, g: Range, fetch: int, b: Budget) returns (rows: seq<Row>)
    requires at <= |s|
    ensures rows == Rows(Visited(s, at, g, fetch), b)
  {
    ghost var all := Visited(s, at, g, fetch);
    var room := CountRows(s, at, g, fetch);
    rows := [];
    ghost var seen: seq<Record> := [];
    var i, running := at, 0;
    while i < |s| && |rows| < fetch && Less(s[i].key, g.high)
      invariant at <= i <= |s| && |seen| == |rows|
      invariant seen + Visited(s, i, g, fetch - |rows|) == all
      invariant running == Total(seen)
      invariant rows == Rows(seen, b)
      decreases |s| - i
    {
      var record := s[i];
      i := i + 1;
      if g.live && record.deleted {
        continue;
      }
      ghost var left := Visited(s, i, g, fetch - |rows| - 1);
      assert seen + ([record] + left) == (seen + [record]) + left;
      assert |rows| + 1 <= room;
      rows, running := AddRow(rows, running, record, b, seen);
      seen := seen + [record];
    }
    assert seen + [] == seen;
  }

  /** One row more: its place, the bytes up to it, and its value if that fits. */
  method AddRow(rows: seq<Row>, running: nat, record: Record, b: Budget, ghost seen: seq<Record>)
    returns (more: seq<Row>, total: nat)
    requires rows == Rows(seen, b) && running == Total(seen)
    ensures more == Rows(seen + [record], b) && total == Total(seen + [record])
  {
    OneMore(seen, record, b);
    var n := |rows| + 1;
    total := running + |record.value|;
    var fits := n <= b.limit && |record.value| <= b.maxValue && (n == 1 || total <= b.pageBytes);
    more := rows + [Row(record, n, total, if fits then Some(record.value) else None)];
  }

  method CountRows(s: seq<Record>, at: nat, g: Range, fetch: int) returns (rows: nat)
    requires at <= |s|
    ensures rows == |Visited(s, at, g, fetch)|
  {
    rows := 0;
    var i := at;
    while i < |s| && rows < fetch && Less(s[i].key, g.high)
      invariant at <= i <= |s|
      invariant rows + |Visited(s, i, g, fetch - rows)| == |Visited(s, at, g, fetch)|
    {
      if !g.live || !s[i].deleted {
        rows := rows + 1;
      }
      i := i + 1;
    }
  }

  lemma BelowToo(s: seq<Record>, mid: nat, key: Key)
    requires Sorted(s) && mid < |s| && Less(s[mid].key, key)
    ensures forall i | 0 <= i <= mid :: Less(s[i].key, key)
  {
    forall i | 0 <= i < mid ensures Less(s[i].key, key) {
      LessTransitive(s[i].key, s[mid].key, key);
    }
  }

  lemma AboveToo(s: seq<Record>, mid: nat, key: Key)
    requires Sorted(s) && mid < |s| && !Less(s[mid].key, key)
    ensures forall i | mid <= i < |s| :: !Less(s[i].key, key)
  {
    forall i | mid < i < |s| && Less(s[i].key, key) ensures false {
      LessTransitive(s[mid].key, s[i].key, key);
    }
  }
}
