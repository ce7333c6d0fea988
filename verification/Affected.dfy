/**
 ci/affected.js: which test cases a change can reach, over the compiler's graph of what depends on
 what.
 */
module Affected {
  /** A file of the graph; whether it is a test case, or part of the harness, is in its path. */
  datatype Files = Files(tests: set<nat>, harness: set<nat>)

  type Graph = map<nat, seq<nat>>

  /** A file of the change: its key in the graph, whether it is Haxe source, and whether it is still there. */
  datatype Change = Change(key: nat, haxe: bool, present: bool)

  function Dependants(g: Graph, k: nat): seq<nat> { if k in g then g[k] else [] }

  /** A file the search goes on from: neither a test case nor the harness. */
  predicate Through(files: Files, k: nat) { k !in files.tests && k !in files.harness }

  /** A way from `path[0]` to its end, each depending on the one before, through files the search goes on from. */
  ghost predicate IsPath(g: Graph, files: Files, path: seq<nat>) {
    && |path| > 0
    && (forall i | 0 <= i < |path| - 1 :: path[i + 1] in Dependants(g, path[i]))
    && (forall i | 0 < i < |path| - 1 :: Through(files, path[i]))
  }

  ghost predicate Reaches(g: Graph, files: Files, a: nat, b: nat) {
    exists path :: IsPath(g, files, path) && path[0] == a && path[|path| - 1] == b
  }

  /** What the selection starts a search from: Haxe, not deleted, and built for this graph's target. */
  predicate Starts(g: Graph, c: Change) { c.haxe && c.present && c.key in g }

  /** A test case is chosen just when it is changed itself, or reached from something changed. */
  ghost predicate Chosen(g: Graph, files: Files, changed: seq<Change>, t: nat) {
    t in files.tests && exists c | c in changed :: Starts(g, c) && Reaches(g, files, c.key, t)
  }

  lemma Longer(g: Graph, files: Files, path: seq<nat>, d: nat)
    requires IsPath(g, files, path) && d in Dependants(g, path[|path| - 1])
    requires |path| == 1 || Through(files, path[|path| - 1])
    ensures IsPath(g, files, path + [d])
  {
  }

  /** A set that has `k`, and everything depending on what the search goes on from in it, has all that `k` reaches. */
  lemma {:induction false} ClosedHasPath(g: Graph, files: Files, k: nat, seen: set<nat>, path: seq<nat>)
    requires IsPath(g, files, path) && path[0] == k && k in seen
    requires forall x, d | x in seen && (x == k || Through(files, x)) && d in Dependants(g, x) :: d in seen
    ensures path[|path| - 1] in seen
    decreases |path|
  {
    if |path| > 1 {
      var shorter := path[..|path| - 1];
      ClosedHasPath(g, files, k, seen, shorter);
    }
  }

  /** Everything in the graph, so that a search of it ends. */
  ghost function Universe(g: Graph): set<nat> {
    g.Keys + set k, d | k in g && d in g[k] :: d
  }

  /** The search from one changed file: `seen` is exactly what it reaches. */
  method Search(g: Graph, files: Files, k: nat) returns (chosen: set<nat>)
    requires k in g
    ensures forall t: nat :: t in chosen <==> t in files.tests && Reaches(g, files, k, t)
  {
    chosen := if k in files.tests then {k} else {};
    var seen, queue := {k}, [k];
    assert IsPath(g, files, [k]) && [k][0] == k;
    while queue != []
      invariant Searching(g, files, k, seen, queue, seen)
      invariant chosen == seen * files.tests
      decreases Universe(g) - seen, |queue|
    {
      var x := queue[|queue| - 1];
      queue := queue[..|queue| - 1];
      seen, queue, chosen := Visit(g, files, k, x, seen, queue, chosen);
    }
    forall t | t in files.tests && Reaches(g, files, k, t) ensures t in seen {
      var path :| IsPath(g, files, path) && path[0] == k && path[|path| - 1] == t;
      ClosedHasPath(g, files, k, seen, path);
    }
  }

  /**
   Everything seen is reached, everything queued is to be gone on from, and of those in `settled` that
   are not queued, everything that depends on them has been seen.
   */
  ghost predicate Searching(g: Graph, files: Files, k: nat, seen: set<nat>, queue: seq<nat>, settled: set<nat>) {
    && k in seen && seen <= Universe(g)
    && (forall x | x in queue :: x in seen && (x == k || Through(files, x)))
    && (forall x | x in seen :: Reaches(g, files, k, x))
    && (forall x, d | x in settled && (x == k || Through(files, x)) && x !in queue && d in Dependants(g, x) ::
        d in seen)
  }

  /** One file off the queue: each that depends on it seen, and queued if the search goes on from it. */
  method Visit(g: Graph, files: Files, k: nat, x: nat, seen0: set<nat>, queue0: seq<nat>, chosen0: set<nat>)
    returns (seen: set<nat>, queue: seq<nat>, chosen: set<nat>)
    requires Searching(g, files, k, seen0, queue0, seen0 - {x}) && x in seen0 && (x == k || Through(files, x))
    requires chosen0 == seen0 * files.tests
    ensures Searching(g, files, k, seen, queue, seen) && chosen == seen * files.tests
    ensures seen0 <= seen && (seen == seen0 ==> queue == queue0)
  {
    seen, queue, chosen := seen0, queue0, chosen0;
    var ds := Dependants(g, x);
    for i := 0 to |ds|
      invariant Searching(g, files, k, seen, queue, seen - {x}) && chosen == seen * files.tests
      invariant seen0 <= seen && (seen == seen0 ==> queue == queue0)
      invariant forall d | d in ds[..i] :: d in seen
    {
      var d := ds[i];
      if d in seen {
        continue;
      }
      OneFurther(g, files, k, x, d);
      seen := seen + {d};
      if d in files.tests {
        chosen := chosen + {d};
      } else if d !in files.harness {
        queue := queue + [d];
      }
    }
    assert ds[..|ds|] == ds;
  }

  lemma OneFurther(g: Graph, files: Files, k: nat, x: nat, d: nat)
    requires Reaches(g, files, k, x) && (x == k || Through(files, x)) && d in Dependants(g, x)
    ensures Reaches(g, files, k, d) && d in Universe(g)
  {
    if x == k {
      assert IsPath(g, files, [k, d]) && [k, d][0] == k && [k, d][1] == d;
    } else {
      var path :| IsPath(g, files, path) && path[0] == k && path[|path| - 1] == x;
      Longer(g, files, path, d);
      assert (path + [d])[|path|] == d;
    }
  }

  /** The whole selection: a file deleted, or outside the graph, reaches nothing. */
  method Select(g: Graph, files: Files, changed: seq<Change>) returns (chosen: set<nat>)
    ensures forall t: nat :: t in chosen <==> Chosen(g, files, changed, t)
  {
    chosen := {};
    for i := 0 to |changed|
      invariant forall t: nat :: t in chosen <==> Chosen(g, files, changed[..i], t)
    {
      var c := changed[i];
      if c.haxe && c.present && c.key in g {
        var found := Search(g, files, c.key);
        chosen := chosen + found;
      }
      assert changed[..i + 1] == changed[..i] + [c];
      forall t: nat ensures t in chosen <==> Chosen(g, files, changed[..i + 1], t) {
        ChosenMore(g, files, changed[..i], c, t);
      }
    }
    assert changed[..|changed|] == changed;
  }

  lemma ChosenMore(g: Graph, files: Files, changed: seq<Change>, c: Change, t: nat)
    ensures Chosen(g, files, changed + [c], t) <==>
            Chosen(g, files, changed, t) || (t in files.tests && Starts(g, c) && Reaches(g, files, c.key, t))
  {
    if Chosen(g, files, changed, t) {
      var b :| b in changed && Starts(g, b) && Reaches(g, files, b.key, t);
      assert b in changed + [c];
    }
    if t in files.tests && Starts(g, c) && Reaches(g, files, c.key, t) {
      assert c in changed + [c];
    }
  }
}
