/**
 The fake server's table: a growable array of records kept in key order, found by binary search,
 shifted to make room and compacted in place. Everything it does is what the map in KvModel does.
 */
module KvTable {
  import opened Basics
  import opened KvModel

  predicate Sorted(s: seq<Record>) {
    forall i, j | 0 <= i < j < |s| :: Less(s[i].key, s[j].key)
  }

  predicate Has(s: seq<Record>, r: Record) { r in s }

  /** The records are those of the map, each once. */
  ghost predicate Refines(s: seq<Record>, m: Model) {
    && (forall i | 0 <= i < |s| :: s[i].key in m && m[s[i].key] == s[i])
    && (forall k | k in m :: Has(s, m[k]))
  }

  ghost predicate Ok(s: seq<Record>, m: Model) { Sorted(s) && Refines(s, m) }

  /** Where a key is, or where it would go. */
  predicate Place(s: seq<Record>, key: Key, at: nat) {
    && at <= |s|
    && (forall i | 0 <= i < at :: Less(s[i].key, key))
    && (forall i | at <= i < |s| :: !Less(s[i].key, key))
  }

  lemma PlaceFinds(s: seq<Record>, m: Model, key: Key, at: nat)
    requires Ok(s, m) && Place(s, key, at)
    ensures (at < |s| && s[at].key == key) <==> key in m
    ensures key in m ==> m[key] == s[at]
  {
    if key in m {
      assert Has(s, m[key]);
      var i :| 0 <= i < |s| && s[i] == m[key];
      LessTrichotomy(key, key);
      assert at <= i;
    }
  }

  predicate Distinct(s: seq<Record>) { forall i, j | 0 <= i < j < |s| :: s[i].key != s[j].key }

  lemma SortedDistinct(s: seq<Record>)
    requires Sorted(s)
    ensures Distinct(s)
  {
    forall i, j | 0 <= i < j < |s| ensures s[i].key != s[j].key {
      LessTrichotomy(s[i].key, s[j].key);
    }
  }

  lemma ReplaceKeeps(s: seq<Record>, m: Model, at: nat, r: Record)
    requires Ok(s, m) && at < |s| && s[at].key == r.key
    ensures Ok(s[at := r], m[r.key := r])
  {
    SortedDistinct(s);
    ReplaceRefines(s, m, at, r);
  }

  lemma ReplaceRefines(s: seq<Record>, m: Model, at: nat, r: Record)
    requires Distinct(s) && Refines(s, m) && at < |s| && s[at].key == r.key
    ensures Refines(s[at := r], m[r.key := r])
  {
    var t := s[at := r];
    var m': Model := m[r.key := r];
    forall k | k in m' ensures Has(t, m'[k]) {
      if k == r.key {
        assert t[at] == r;
      } else {
        assert Has(s, m[k]);
        var i :| 0 <= i < |s| && s[i] == m[k];
        assert t[i] == s[i];
      }
    }
  }

  lemma InsertKeeps(s: seq<Record>, m: Model, at: nat, r: Record)
    requires Ok(s, m) && Place(s, r.key, at) && r.key !in m
    ensures Ok(s[..at] + [r] + s[at..], m[r.key := r])
  {
    InsertSorts(s, m, at, r);
    InsertRefines(s, m, at, r);
  }

  lemma InsertRefines(s: seq<Record>, m: Model, at: nat, r: Record)
    requires Refines(s, m) && at <= |s| && r.key !in m
    ensures Refines(s[..at] + [r] + s[at..], m[r.key := r])
  {
    var t := s[..at] + [r] + s[at..];
    var m': Model := m[r.key := r];
    assert t[at] == r && s == s[..at] + s[at..];
    forall k | k in m && k != r.key ensures Has(t, m'[k]) {
      assert Has(s, m[k]);
      assert m[k] in s[..at] || m[k] in s[at..];
    }
  }

  lemma InsertSorts(s: seq<Record>, m: Model, at: nat, r: Record)
    requires Ok(s, m) && Place(s, r.key, at) && r.key !in m
    ensures Sorted(s[..at] + [r] + s[at..])
  {
    var t := s[..at] + [r] + s[at..];
    forall i, j | 0 <= i < j < |t| ensures Less(t[i].key, t[j].key) {
      if i == at {
        assert t[j] == s[j - 1];
        LessTrichotomy(s[j - 1].key, r.key);
      } else if j == at {
        assert t[i] == s[i];
      } else {
        assert t[i] == s[if i < at then i else i - 1] && t[j] == s[if j < at then j else j - 1];
      }
    }
  }

  // ---------- purging ----------

  function Keep(s: seq<Record>, before: real, clock: Clock): seq<Record> {
    if s == [] then []
    else Keep(s[..|s| - 1], before, clock) + if Purged(s[|s| - 1], before, clock) then [] else [s[|s| - 1]]
  }

  function CountPurged(s: seq<Record>, before: real, clock: Clock): nat {
    if s == [] then 0
    else CountPurged(s[..|s| - 1], before, clock) + if Purged(s[|s| - 1], before, clock) then 1 else 0
  }

  lemma {:induction false} KeepHas(s: seq<Record>, before: real, clock: Clock)
    ensures forall r :: r in Keep(s, before, clock) <==> r in s && !Purged(r, before, clock)
  {
    if s != [] {
      var n := |s| - 1;
      KeepHas(s[..n], before, clock);
      forall r ensures r in Keep(s, before, clock) <==> r in s && !Purged(r, before, clock) {
        assert r in s <==> r in s[..n] || r == s[n];
      }
    }
  }

  lemma {:induction false} KeepSorted(s: seq<Record>, before: real, clock: Clock)
    requires Sorted(s)
    ensures Sorted(Keep(s, before, clock))
  {
    if s != [] {
      var n := |s| - 1;
      KeepSorted(s[..n], before, clock);
      KeepHas(s[..n], before, clock);
      var kept := Keep(s[..n], before, clock);
      forall i | 0 <= i < |kept| ensures Less(kept[i].key, s[n].key) {
        assert kept[i] in s[..n];
      }
    }
  }

  lemma PurgeKeeps(s: seq<Record>, m: Model, before: real, clock: Clock)
    requires Ok(s, m)
    ensures Ok(Keep(s, before, clock), After(m, Purge(before), clock))
  {
    KeepHas(s, before, clock);
    KeepSorted(s, before, clock);
    var t := Keep(s, before, clock);
    forall i | 0 <= i < |t| ensures t[i].key in m && m[t[i].key] == t[i] && !Purged(t[i], before, clock) {
      assert t[i] in t;
    }
  }

  lemma LastKeeps(s: seq<Record>, m: Model)
    requires Distinct(s) && Refines(s, m) && s != []
    ensures s[|s| - 1].key in m && Distinct(s[..|s| - 1]) && Refines(s[..|s| - 1], m - {s[|s| - 1].key})
  {
    var n := |s| - 1;
    forall x | x in m && x != s[n].key ensures Has(s[..n], m[x]) {
      assert Has(s, m[x]);
      var i :| 0 <= i < |s| && s[i] == m[x];
      assert s[..n][i] == s[i];
    }
  }

  lemma {:induction false} PurgeCounts(s: seq<Record>, m: Model, before: real, clock: Clock)
    requires Distinct(s) && Refines(s, m)
    ensures CountPurged(s, before, clock) == |Removed(m, before, clock)|
  {
    if s == [] {
      assert Removed(m, before, clock) == {};
    } else {
      var r := s[|s| - 1];
      LastKeeps(s, m);
      PurgeCounts(s[..|s| - 1], m - {r.key}, before, clock);
      RemovedLess(m, r.key, before, clock);
    }
  }

  lemma RemovedLess(m: Model, k: Key, before: real, clock: Clock)
    requires k in m
    ensures |Removed(m, before, clock)|
         == |Removed(m - {k}, before, clock)| + if Purged(m[k], before, clock) then 1 else 0
  {
    var fewer := Removed(m - {k}, before, clock);
    if Purged(m[k], before, clock) {
      assert Removed(m, before, clock) == fewer + {k};
    } else {
      assert Removed(m, before, clock) == fewer;
    }
  }

  // ---------- scanning ----------

  datatype Range = Range(low: Key, high: Key, live: bool)

  predicate Wanted(r: Record, g: Range) {
    !Less(r.key, g.low) && Less(r.key, g.high) && (!g.live || !r.deleted)
  }

  /** The records a range asks for, in key order. */
  function InRange(s: seq<Record>, g: Range): seq<Record> {
    if s == [] then [] else (if Wanted(s[0], g) then [s[0]] else []) + InRange(s[1..], g)
  }

  function Take<T>(s: seq<T>, n: int): seq<T> {
    if n <= 0 then [] else if n < |s| then s[..n] else s
  }

  /** The bytes in all the values. */
  function Total(rs: seq<Record>): nat {
    if rs == [] then 0 else Total(rs[..|rs| - 1]) + |rs[|rs| - 1].value|
  }

  datatype Budget = Budget(limit: int, maxValue: int, pageBytes: int)

  /** One row of a page: the record, its place, the bytes up to it, and its value if that fits. */
  datatype Row = Row(record: Record, n: nat, running: nat, value: Option<Text>)

  function LastRow(rs: seq<Record>, b: Budget): Row
    requires rs != []
  {
    var r := rs[|rs| - 1];
    var fits := |rs| <= b.limit && |r.value| <= b.maxValue && (|rs| == 1 || Total(rs) <= b.pageBytes);
    Row(r, |rs|, Total(rs), if fits then Some(r.value) else None)
  }

  function Rows(rs: seq<Record>, b: Budget): (r: seq<Row>)
    ensures |r| == |rs|
  {
    if rs == [] then [] else Rows(rs[..|rs| - 1], b) + [LastRow(rs, b)]
  }

  lemma OneMore(seen: seq<Record>, r: Record, b: Budget)
    ensures Total(seen + [r]) == Total(seen) + |r.value|
    ensures Rows(seen + [r], b) == Rows(seen, b) + [LastRow(seen + [r], b)]
  {
    assert (seen + [r])[..|seen|] == seen;
  }

  /** Row `i` is the record there, with its place, the bytes up to it, and its value or none. */
  lemma {:induction false} RowIs(rs: seq<Record>, b: Budget, i: nat)
    requires i < |rs|
    ensures Rows(rs, b)[i] == LastRow(rs[..i + 1], b)
    ensures Rows(rs, b)[i].record == rs[i] && Rows(rs, b)[i].n == i + 1 && Rows(rs, b)[i].running == Total(rs[..i + 1])
    ensures Rows(rs, b)[i].value.Some? ==> Rows(rs, b)[i].value.value == rs[i].value
  {
    if i + 1 < |rs| {
      RowIs(rs[..|rs| - 1], b, i);
      assert rs[..|rs| - 1][..i + 1] == rs[..i + 1];
    } else {
      assert rs[..i + 1] == rs;
    }
  }

  /** What the scan's loops visit from `i` on, at most `fetch` of them. */
  function Visited(s: seq<Record>, i: nat, g: Range, fetch: int): seq<Record>
    requires i <= |s|
    decreases |s| - i
  {
    if i == |s| || fetch <= 0 || !Less(s[i].key, g.high) then []
    else if g.live && s[i].deleted then Visited(s, i + 1, g, fetch)
    else [s[i]] + Visited(s, i + 1, g, fetch - 1)
  }

  /** Nothing from `i` on is in the range, once a key is not below its end. */
  lemma {:induction false} NoneLeft(s: seq<Record>, i: nat, g: Range)
    requires Sorted(s) && i <= |s| && (i < |s| ==> !Less(s[i].key, g.high))
    ensures InRange(s[i..], g) == []
    decreases |s| - i
  {
    if i < |s| {
      if i + 1 < |s| && Less(s[i + 1].key, g.high) {
        LessTransitive(s[i].key, s[i + 1].key, g.high);
      }
      NoneLeft(s, i + 1, g);
      assert s[i..][1..] == s[i + 1..];
    }
  }

  lemma TakeOne<T>(x: T, s: seq<T>, n: int)
    requires n > 0
    ensures Take([x] + s, n) == [x] + Take(s, n - 1)
  {
  }

  lemma InRangeFrom(s: seq<Record>, i: nat, g: Range)
    requires i < |s|
    ensures InRange(s[i..], g) == if Wanted(s[i], g) then [s[i]] + InRange(s[i + 1..], g) else InRange(s[i + 1..], g)
  {
    assert s[i..][1..] == s[i + 1..];
  }

  lemma {:induction false} VisitedInRange(s: seq<Record>, i: nat, g: Range, fetch: int)
    requires Sorted(s) && i <= |s| && forall k | i <= k < |s| :: !Less(s[k].key, g.low)
    ensures Visited(s, i, g, fetch) == Take(InRange(s[i..], g), fetch)
    decreases |s| - i
  {
    if i < |s| && fetch > 0 {
      InRangeFrom(s, i, g);
      if !Less(s[i].key, g.high) {
        NoneLeft(s, i, g);
      } else if g.live && s[i].deleted {
        VisitedInRange(s, i + 1, g, fetch);
      } else {
        VisitedInRange(s, i + 1, g, fetch - 1);
        TakeOne(s[i], InRange(s[i + 1..], g), fetch);
      }
    }
  }

  lemma {:induction false} BelowIsOut(s: seq<Record>, at: nat, g: Range)
    requires at <= |s| && forall k | 0 <= k < at :: Less(s[k].key, g.low)
    ensures InRange(s, g) == InRange(s[at..], g)
  {
    if at == 0 {
      assert s[at..] == s;
    } else {
      BelowIsOut(s[1..], at - 1, g);
      assert s[1..][at - 1..] == s[at..];
    }
  }

  // ---------- what a page is ----------

  lemma {:induction false} InRangeHas(s: seq<Record>, g: Range)
    ensures forall r :: r in InRange(s, g) <==> r in s && Wanted(r, g)
  {
    if s != [] {
      InRangeHas(s[1..], g);
      forall r ensures r in InRange(s, g) <==> r in s && Wanted(r, g) {
        assert r in s <==> r == s[0] || r in s[1..];
      }
    }
  }

  lemma {:induction false} InRangeSorted(s: seq<Record>, g: Range)
    requires Sorted(s)
    ensures Sorted(InRange(s, g))
  {
    if s != [] {
      InRangeSorted(s[1..], g);
      InRangeHas(s[1..], g);
      var t := InRange(s[1..], g);
      forall i | 0 <= i < |t| ensures Less(s[0].key, t[i].key) {
        assert t[i] in s[1..];
      }
    }
  }

  /** A range's records are exactly the table's records in it, in key order, each once. */
  lemma RangeIsExact(s: seq<Record>, m: Model, g: Range)
    requires Ok(s, m)
    ensures Sorted(InRange(s, g))
    ensures forall k :: (exists r :: r in InRange(s, g) && r.key == k) <==> k in m && Wanted(m[k], g)
  {
    InRangeHas(s, g);
    InRangeSorted(s, g);
    forall k ensures (exists r :: r in InRange(s, g) && r.key == k) <==> k in m && Wanted(m[k], g) {
      if k in m && Wanted(m[k], g) {
        assert m[k] in InRange(s, g) && m[k].key == k;
      }
      forall r | r in InRange(s, g) && r.key == k ensures k in m && m[k] == r {
        var i :| 0 <= i < |s| && s[i] == r;
      }
    }
  }

  lemma {:induction false} TotalGrows(rs: seq<Record>, i: nat, j: nat)
    requires i <= j <= |rs|
    ensures Total(rs[..i]) <= Total(rs[..j])
    decreases j
  {
    if i < j {
      TotalGrows(rs, i, j - 1);
      assert rs[..j][..j - 1] == rs[..j - 1];
    }
  }

  /** Once a page's bytes are past its budget, no later row carries a value. */
  lemma PastTheBudget(rs: seq<Record>, b: Budget, i: nat, j: nat)
    requires i < j < |rs| && Rows(rs, b)[i].running > b.pageBytes
    ensures Rows(rs, b)[j].value == None
  {
    RowIs(rs, b, i);
    RowIs(rs, b, j);
    TotalGrows(rs, i + 1, j + 1);
  }

  /** In a sorted list, the records not below the `n`th are those from it on. */
  lemma SplitsAt(first: seq<Record>, later: seq<Record>, n: nat)
    requires Sorted(first + later) && n < |first + later|
    requires forall i | 0 <= i < |first| :: Less(first[i].key, (first + later)[n].key)
    requires forall i | 0 <= i < |later| :: !Less(later[i].key, (first + later)[n].key)
    ensures later == (first + later)[n..]
  {
    var rs := first + later;
    var j := if |first| < n then |first| else n;
    var x, y := rs[j], rs[n];
    LessTrichotomy(y.key, y.key);
    assert j < n ==> Less(x.key, y.key);
    assert j < |first| ==> x in first;
    assert |first| <= j ==> x in later;
    assert j == n == |first|;
  }

  lemma InBounds(s: seq<Record>, g: Range, i: nat)
    requires Sorted(s) && i < |InRange(s, g)|
    ensures Sorted(InRange(s, g)) && Wanted(InRange(s, g)[i], g)
  {
    InRangeHas(s, g);
    InRangeSorted(s, g);
    assert InRange(s, g)[i] in InRange(s, g);
  }

  /** The page after one that stopped short starts at the first record it did not return. */
  lemma NextPage(s: seq<Record>, g: Range, n: nat)
    requires Sorted(s) && n < |InRange(s, g)|
    ensures InRange(s, g.(low := InRange(s, g)[n].key)) == InRange(s, g)[n..]
  {
    InBounds(s, g, n);
    var k := InRange(s, g)[n].key;
    var first, later := InRange(s, g.(high := k)), InRange(s, g.(low := k));
    LessTrichotomy(k, g.high);
    CutRange(s, g.low, k, g.high, g.live);
    forall i | 0 <= i < |first| ensures Less(first[i].key, k) {
      InBounds(s, g.(high := k), i);
    }
    forall i | 0 <= i < |later| ensures !Less(later[i].key, k) {
      InBounds(s, g.(low := k), i);
    }
    SplitsAt(first, later, n);
  }

  /** Cut at any key, a range's two parts are the whole: no record is skipped, none comes twice. */
  lemma {:induction false} CutRange(s: seq<Record>, low: Key, mid: Key, high: Key, live: bool)
    requires Sorted(s) && !Less(mid, low) && !Less(high, mid)
    ensures InRange(s, Range(low, high, live)) == InRange(s, Range(low, mid, live)) + InRange(s, Range(mid, high, live))
  {
    if s != [] {
      CutRange(s[1..], low, mid, high, live);
      if Less(s[0].key, mid) {
        CutBelow(s, low, mid, high, live);
      } else {
        CutAbove(s, low, mid, high, live);
      }
    }
  }

  predicate IsCut(s: seq<Record>, low: Key, mid: Key, high: Key, live: bool) {
    InRange(s, Range(low, high, live)) == InRange(s, Range(low, mid, live)) + InRange(s, Range(mid, high, live))
  }

  lemma CutBelow(s: seq<Record>, low: Key, mid: Key, high: Key, live: bool)
    requires s != [] && IsCut(s[1..], low, mid, high, live) && !Less(high, mid) && Less(s[0].key, mid)
    ensures IsCut(s, low, mid, high, live)
  {
    BelowHigh(s[0].key, mid, high);
    var first, later := InRange(s[1..], Range(low, mid, live)), InRange(s[1..], Range(mid, high, live));
    assert !Wanted(s[0], Range(mid, high, live)) && [] + later == later;
    assert [s[0]] + (first + later) == ([s[0]] + first) + later;
  }

  lemma CutAbove(s: seq<Record>, low: Key, mid: Key, high: Key, live: bool)
    requires s != [] && Sorted(s) && IsCut(s[1..], low, mid, high, live) && !Less(mid, low) && !Less(s[0].key, mid)
    ensures IsCut(s, low, mid, high, live)
  {
    AboveLow(s[0].key, mid, low);
    NoneBelow(s, Range(low, mid, live));
    var later, rest := InRange(s, Range(mid, high, live)), InRange(s[1..], Range(mid, high, live));
    assert [] + later == later && [] + rest == rest;
  }

  /** Nothing is below the end of a range once the first key is not. */
  lemma NoneBelow(s: seq<Record>, g: Range)
    requires Sorted(s) && s != [] && !Less(s[0].key, g.high)
    ensures InRange(s, g) == InRange(s[1..], g) == []
  {
    NoneLeft(s, 0, g);
    assert s[0..] == s;
    if |s| > 1 && Less(s[1].key, g.high) {
      LessTransitive(s[0].key, s[1].key, g.high);
    }
    NoneLeft(s, 1, g);
  }

  lemma BelowHigh(k: Key, mid: Key, high: Key)
    requires Less(k, mid) && !Less(high, mid)
    ensures Less(k, high)
  {
    LessTrichotomy(mid, high);
    if Less(mid, high) {
      LessTransitive(k, mid, high);
    }
  }

  lemma AboveLow(k: Key, mid: Key, low: Key)
    requires !Less(k, mid) && !Less(mid, low)
    ensures !Less(k, low)
  {
    if Less(k, low) {
      LessTrichotomy(k, mid);
      LessTrichotomy(mid, low);
      if Less(low, mid) {
        LessTransitive(k, low, mid);
      }
    }
  }
}
