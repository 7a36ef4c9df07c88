/** `check_dag`: Kahn's algorithm over work items and their dependency lists. */
module Dag {
  import opened CodeUnits
  import opened TextOrder

  type Id = Text

  /** One entry of the dependency table: the item and the list of what it depends on. */
  datatype Entry = Entry(item: Id, needs: seq<Id>)

  datatype Outcome = UnknownDependencies(unknown: set<Id>) | MissingItem | CycleDetected | Accepted(order: seq<Id>)

  // ---------------------------------------------------------------- specification

  /** A dictionary has one entry per key. */
  predicate IsTable(deps: seq<Entry>) {
    forall i, j :: 0 <= i < j < |deps| ==> deps[i].item != deps[j].item
  }

  /** What an item depends on; nothing, when the table does not have it. */
  function Needs(deps: seq<Entry>, item: Id): seq<Id> {
    if deps == [] then [] else if deps[0].item == item then deps[0].needs else Needs(deps[1..], item)
  }

  function Unknown(ids: set<Id>, deps: seq<Entry>): set<Id> {
    set i, j | 0 <= i < |deps| && 0 <= j < |deps[i].needs| && deps[i].needs[j] !in ids :: deps[i].needs[j]
  }

  /** Some item with dependencies is not an item. */
  predicate HasMissingItem(ids: set<Id>, deps: seq<Entry>) {
    exists i :: 0 <= i < |deps| && deps[i].needs != [] && deps[i].item !in ids
  }

  predicate DependsOn(deps: seq<Entry>, x: Id, y: Id) { y in Needs(deps, x) }

  /** A walk along dependencies. */
  predicate IsWalk(deps: seq<Entry>, w: seq<Id>) {
    |w| <= 1 || (DependsOn(deps, w[0], w[1]) && IsWalk(deps, w[1..]))
  }

  /** A walk that comes back to where it started. */
  predicate IsCycle(deps: seq<Entry>, w: seq<Id>) {
    |w| >= 2 && IsWalk(deps, w) && w[0] == w[|w| - 1]
  }

  ghost predicate HasCycle(deps: seq<Entry>) { exists w :: IsCycle(deps, w) }

  /** Every item once, and everything it depends on before it. */
  predicate IsOrder(ids: set<Id>, deps: seq<Entry>, order: seq<Id>) {
    && Distinct(order) && (set x | x in order) == ids
    && forall i :: 0 <= i < |order| ==> ReadyAfter(deps, order[..i], order[i])
  }

  /** All dependencies of `x` are among the items done. */
  predicate ReadyAfter(deps: seq<Entry>, done: seq<Id>, x: Id) {
    forall y :: y in Needs(deps, x) ==> y in done
  }

  // ---------------------------------------------------------------- an order excludes cycles

  lemma {:induction false} WalkDescends(ids: set<Id>, deps: seq<Entry>, order: seq<Id>, w: seq<Id>, at: nat) returns (last: nat)
    requires IsOrder(ids, deps, order) && w != [] && IsWalk(deps, w) && at < |order| && order[at] == w[0]
    ensures last < |order| && order[last] == w[|w| - 1] && last + |w| - 1 <= at
    decreases |w|
  {
    if |w| == 1 {
      last := at;
    } else {
      assert ReadyAfter(deps, order[..at], order[at]);
      var next :| 0 <= next < at && order[..at][next] == w[1];
      last := WalkDescends(ids, deps, order, w[1..], next);
    }
  }

  /** When all items can be ordered, and all that have dependencies are items, there is no cycle. */
  lemma OrderMeansNoCycle(ids: set<Id>, deps: seq<Entry>, order: seq<Id>)
    requires IsOrder(ids, deps, order) && forall x :: Needs(deps, x) != [] ==> x in ids
    ensures !HasCycle(deps)
  {
    if w :| IsCycle(deps, w) {
      assert DependsOn(deps, w[0], w[1]);
      var at :| 0 <= at < |order| && order[at] == w[0];
      var last := WalkDescends(ids, deps, order, w, at);
      assert false;
    }
  }

  // ---------------------------------------------------------------- no order left means a cycle

  /** Everybody in the set depends on somebody in the set. */
  predicate IsStuck(deps: seq<Entry>, stuck: set<Id>) {
    forall y {:trigger HasNext(deps, stuck, y)} :: y in stuck ==> HasNext(deps, stuck, y)
  }

  predicate HasNext(deps: seq<Entry>, stuck: set<Id>, y: Id) {
    exists z :: z in stuck && DependsOn(deps, y, z)
  }

  /** There one can walk on for ever. */
  lemma {:induction false} WalkOn(deps: seq<Entry>, stuck: set<Id>, x: Id, n: nat) returns (w: seq<Id>)
    requires x in stuck && IsStuck(deps, stuck)
    ensures |w| == n + 1 && w[0] == x && IsWalk(deps, w) && forall i :: 0 <= i < |w| ==> w[i] in stuck
    decreases n
  {
    if n == 0 {
      w := [x];
    } else {
      assert HasNext(deps, stuck, x);
      var z :| z in stuck && DependsOn(deps, x, z);
      var rest := WalkOn(deps, stuck, z, n - 1);
      w := [x] + rest;
      assert w[1..] == rest;
    }
  }

  /** More places than values: some value is there twice. */
  lemma {:induction false} Repeats(w: seq<Id>, values: set<Id>) returns (i: nat, j: nat)
    requires |w| > |values| && forall k :: 0 <= k < |w| ==> w[k] in values
    ensures i < j < |w| && w[i] == w[j]
    decreases |w|
  {
    var last := w[|w| - 1];
    if k :| 0 <= k < |w| - 1 && w[k] == last {
      i, j := k, |w| - 1;
    } else {
      i, j := Repeats(w[..|w| - 1], values - {last});
    }
  }

  lemma {:induction false} WalkPart(deps: seq<Entry>, w: seq<Id>, i: nat, j: nat)
    requires IsWalk(deps, w) && i < j <= |w|
    ensures IsWalk(deps, w[i..j])
    decreases |w|
  {
    if i > 0 {
      WalkPart(deps, w[1..], i - 1, j - 1);
      assert w[1..][i - 1..j - 1] == w[i..j];
    } else if j > 1 {
      WalkPart(deps, w[1..], 0, j - 1);
      assert w[0..j][1..] == w[1..][0..j - 1];
    }
  }

  lemma StuckMeansCycle(deps: seq<Entry>, stuck: set<Id>, x: Id)
    requires x in stuck && IsStuck(deps, stuck)
    ensures HasCycle(deps)
  {
    var w := WalkOn(deps, stuck, x, |stuck|);
    var i, j := Repeats(w, stuck);
    WalkPart(deps, w, i, j + 1);
    assert IsCycle(deps, w[i..j + 1]);
  }

  // ---------------------------------------------------------------- counting

  /** How often a value is listed. */
  function Times(values: seq<Id>, x: Id): nat {
    if values == [] then 0 else (if values[0] == x then 1 else 0) + Times(values[1..], x)
  }

  /** How many listed values are still outstanding. */
  function Outstanding(values: seq<Id>, done: set<Id>): nat {
    if values == [] then 0 else (if values[0] in done then 0 else 1) + Outstanding(values[1..], done)
  }

  lemma {:induction false} TimesAppend(values: seq<Id>, y: Id, x: Id)
    ensures Times(values + [y], x) == Times(values, x) + if y == x then 1 else 0
  {
    if values == [] {
      assert [] + [y] == [y];
    } else {
      assert (values + [y])[1..] == values[1..] + [y];
      TimesAppend(values[1..], y, x);
    }
  }

  lemma {:induction false} OneDone(values: seq<Id>, done: set<Id>, x: Id)
    requires x !in done
    ensures Outstanding(values, done) == Outstanding(values, done + {x}) + Times(values, x)
  {
    if values != [] {
      OneDone(values[1..], done, x);
    }
  }

  lemma {:induction false} NoneOutstanding(values: seq<Id>, done: set<Id>)
    ensures Outstanding(values, done) == 0 <==> forall y :: y in values ==> y in done
  {
    if values != [] {
      NoneOutstanding(values[1..], done);
      assert forall y :: y in values <==> y == values[0] || y in values[1..];
    }
  }

  lemma {:induction false} AllOutstanding(values: seq<Id>)
    ensures Outstanding(values, {}) == |values|
  {
    if values != [] {
      AllOutstanding(values[1..]);
    }
  }

  lemma {:induction false} NotListed(values: seq<Id>, x: Id)
    ensures Times(values, x) == 0 <==> x !in values
  {
    if values != [] {
      NotListed(values[1..], x);
    }
  }

  lemma {:induction false} NeedsHasEntry(deps: seq<Entry>, x: Id)
    ensures Needs(deps, x) != [] ==> exists i :: 0 <= i < |deps| && deps[i].item == x && deps[i].needs == Needs(deps, x)
  {
    if deps != [] && deps[0].item != x {
      NeedsHasEntry(deps[1..], x);
      if i :| 0 <= i < |deps[1..]| && deps[1..][i].item == x && deps[1..][i].needs == Needs(deps[1..], x) {
        assert deps[i + 1].item == x;
      }
    }
  }

  // ---------------------------------------------------------------- the counters

  type Counters = map<Id, nat>

  type Edges = map<Id, seq<Id>>

  function EdgesOf(outgoing: Edges, x: Id): seq<Id> { if x in outgoing then outgoing[x] else [] }

  /** The counters and edges of the part of the table read so far. */
  ghost predicate Counted(ids: set<Id>, deps: seq<Entry>, indegree: Counters, outgoing: Edges) {
    && indegree.Keys == ids
    && (forall x :: x in ids ==> indegree[x] == |Needs(deps, x)|)
    && (forall x, y :: Times(EdgesOf(outgoing, y), x) == Times(Needs(deps, x), y))
  }

  /** The same, within the list of one more entry. */
  ghost predicate CountedPartly(ids: set<Id>, deps: seq<Entry>, e: Entry, k: nat, indegree: Counters, outgoing: Edges)
    requires k <= |e.needs|
  {
    && indegree.Keys == ids
    && (forall x :: x in ids ==> indegree[x] == |Needs(deps, x)| + if x == e.item then k else 0)
    && (forall x, y :: Times(EdgesOf(outgoing, y), x) == Times(Needs(deps, x), y) + if x == e.item then Times(e.needs[..k], y) else 0)
  }

  lemma {:induction false} NeedsAppend(deps: seq<Entry>, e: Entry, x: Id)
    requires forall i :: 0 <= i < |deps| ==> deps[i].item != e.item
    ensures Needs(deps + [e], x) == if x == e.item then e.needs else Needs(deps, x)
  {
    if deps == [] {
      assert [] + [e] == [e];
    } else {
      assert (deps + [e])[1..] == deps[1..] + [e];
      NeedsAppend(deps[1..], e, x);
    }
  }

  lemma {:induction false} NoEntryNoNeeds(deps: seq<Entry>, x: Id)
    requires forall i :: 0 <= i < |deps| ==> deps[i].item != x
    ensures Needs(deps, x) == []
  {
    if deps != [] {
      NoEntryNoNeeds(deps[1..], x);
    }
  }

  lemma PartlyStarts(ids: set<Id>, deps: seq<Entry>, e: Entry, indegree: Counters, outgoing: Edges)
    requires Counted(ids, deps, indegree, outgoing)
    ensures CountedPartly(ids, deps, e, 0, indegree, outgoing)
  {
    assert e.needs[..0] == [];
  }

  lemma PartlyStep(ids: set<Id>, deps: seq<Entry>, e: Entry, k: nat, indegree: Counters, outgoing: Edges)
    requires k < |e.needs| && e.item in ids && CountedPartly(ids, deps, e, k, indegree, outgoing)
    ensures var y := e.needs[k];
      CountedPartly(ids, deps, e, k + 1, indegree[e.item := indegree[e.item] + 1], outgoing[y := EdgesOf(outgoing, y) + [e.item]])
  {
    var y := e.needs[k];
    var more := outgoing[y := EdgesOf(outgoing, y) + [e.item]];
    assert e.needs[..k + 1] == e.needs[..k] + [y];
    forall x, z
      ensures Times(EdgesOf(more, z), x) == Times(Needs(deps, x), z) + if x == e.item then Times(e.needs[..k + 1], z) else 0
    {
      TimesAppend(EdgesOf(outgoing, y), e.item, x);
      TimesAppend(e.needs[..k], y, z);
    }
  }

  lemma PartlyEnds(ids: set<Id>, deps: seq<Entry>, e: Entry, indegree: Counters, outgoing: Edges)
    requires CountedPartly(ids, deps, e, |e.needs|, indegree, outgoing)
    requires forall i :: 0 <= i < |deps| ==> deps[i].item != e.item
    ensures Counted(ids, deps + [e], indegree, outgoing)
  {
    NoEntryNoNeeds(deps, e.item);
    assert e.needs[..|e.needs|] == e.needs;
    forall x
      ensures Needs(deps + [e], x) == if x == e.item then e.needs else Needs(deps, x)
    {
      NeedsAppend(deps, e, x);
    }
  }

  // ---------------------------------------------------------------- the queue

  function Members(s: seq<Id>): set<Id> { set x | x in s }

  /** All dependencies are items, and only items have any. */
  ghost predicate Closed(ids: set<Id>, deps: seq<Entry>) {
    && (forall x, y :: y in Needs(deps, x) ==> y in ids)
    && (forall x :: Needs(deps, x) != [] ==> x in ids)
  }

  ghost predicate EdgesKnown(deps: seq<Entry>, outgoing: Edges) {
    forall x, y :: Times(EdgesOf(outgoing, y), x) == Times(Needs(deps, x), y)
  }

  /** Everybody seen or queued is there once, and is an item. */
  predicate Placed(ids: set<Id>, seen: seq<Id>, queue: seq<Id>) {
    && Distinct(seen) && Distinct(queue) && Members(seen) <= ids && Members(queue) <= ids
    && forall x :: x in seen ==> x !in queue
  }

  predicate InOrder(deps: seq<Entry>, seen: seq<Id>) {
    forall i :: 0 <= i < |seen| ==> ReadyAfter(deps, seen[..i], seen[i])
  }

  /** A counter says how many dependencies of an item are outstanding, plus those of `edges` that are
      still to be subtracted; it is zero for exactly the items seen or queued. */
  ghost predicate CountersRight(ids: set<Id>, deps: seq<Entry>, indegree: Counters, edges: seq<Id>, seen: seq<Id>, queue: seq<Id>) {
    && indegree.Keys == ids
    && (forall x :: x in ids ==> indegree[x] == Outstanding(Needs(deps, x), Members(seen)) + Times(edges, x))
    && (forall x :: x in ids ==> (indegree[x] == 0 <==> x in seen || x in queue))
  }

  ghost predicate Sorting(ids: set<Id>, deps: seq<Entry>, indegree: Counters, edges: seq<Id>, seen: seq<Id>, queue: seq<Id>) {
    Placed(ids, seen, queue) && InOrder(deps, seen) && CountersRight(ids, deps, indegree, edges, seen, queue)
  }

  lemma SortingStarts(ids: set<Id>, deps: seq<Entry>, indegree: Counters, outgoing: Edges, queue: seq<Id>)
    requires Counted(ids, deps, indegree, outgoing)
    requires Lists(queue, set x | x in ids && indegree[x] == 0)
    ensures Sorting(ids, deps, indegree, [], [], queue)
  {
    var zeros := set x | x in ids && indegree[x] == 0;
    assert Members(queue) == zeros && Members([]) == {};
    AscendingIsDistinct(queue);
    forall x | x in ids
      ensures indegree[x] == Outstanding(Needs(deps, x), Members([])) + Times([], x)
      ensures indegree[x] == 0 <==> x in queue
    {
      AllOutstanding(Needs(deps, x));
      assert x in queue <==> x in Members(queue);
      assert x in zeros <==> indegree[x] == 0;
    }
  }

  lemma AscendingIsDistinct(s: seq<Id>)
    requires Ascending(s)
    ensures Distinct(s)
  {
    forall i, j | 0 <= i < j < |s|
      ensures s[i] != s[j]
    {
      LessIsTotal(s[i], s[j]);
    }
  }

  /** The item at the head of the queue is ready. */
  lemma HeadIsReady(ids: set<Id>, deps: seq<Entry>, indegree: Counters, seen: seq<Id>, queue: seq<Id>)
    requires queue != [] && Sorting(ids, deps, indegree, [], seen, queue)
    ensures queue[0] in ids && queue[0] !in seen && ReadyAfter(deps, seen, queue[0])
    ensures Times(Needs(deps, queue[0]), queue[0]) == 0
  {
    var item := queue[0];
    assert item in Members(queue);
    NoneOutstanding(Needs(deps, item), Members(seen));
    NotListed(Needs(deps, item), item);
  }

  lemma HeadIsSeen(ids: set<Id>, deps: seq<Entry>, indegree: Counters, outgoing: Edges, seen: seq<Id>, queue: seq<Id>)
    requires queue != [] && Sorting(ids, deps, indegree, [], seen, queue) && EdgesKnown(deps, outgoing)
    ensures Sorting(ids, deps, indegree, EdgesOf(outgoing, queue[0]), seen + [queue[0]], queue[1..])
  {
    var item := queue[0];
    var more := seen + [item];
    HeadIsReady(ids, deps, indegree, seen, queue);
    assert Members(more) == Members(seen) + {item};
    forall x | x in ids
      ensures indegree[x] == Outstanding(Needs(deps, x), Members(more)) + Times(EdgesOf(outgoing, item), x)
      ensures x in seen || x in queue <==> x in more || x in queue[1..]
    {
      OneDone(Needs(deps, x), Members(seen), item);
      assert x in queue <==> x == item || x in queue[1..];
    }
    HeadPlaced(ids, seen, queue);
    OrderGrows(deps, seen, item);
  }

  lemma HeadPlaced(ids: set<Id>, seen: seq<Id>, queue: seq<Id>)
    requires queue != [] && Placed(ids, seen, queue)
    ensures Placed(ids, seen + [queue[0]], queue[1..])
  {
    var more := seen + [queue[0]];
    forall i | 0 <= i < |seen|
      ensures seen[i] != queue[0]
    {
      assert seen[i] in seen && queue[0] in queue;
    }
    forall x | x in more
      ensures x in ids && x !in queue[1..]
    {
      assert x in seen ==> x in Members(seen);
      assert queue[0] in Members(queue);
    }
    forall x | x in queue[1..]
      ensures x in ids
    {
      assert x in Members(queue);
    }
  }

  lemma OrderGrows(deps: seq<Entry>, seen: seq<Id>, item: Id)
    requires InOrder(deps, seen) && ReadyAfter(deps, seen, item)
    ensures InOrder(deps, seen + [item])
  {
    var more := seen + [item];
    forall i | 0 <= i < |more|
      ensures ReadyAfter(deps, more[..i], more[i])
    {
      assert more[..i] == seen[..i];
      if i == |seen| {
        assert seen[..i] == seen;
      }
    }
  }

  /** One edge: the counter of the item at its end goes down, and at zero the item is queued. */
  lemma EdgeIsDone(ids: set<Id>, deps: seq<Entry>, indegree: Counters, edges: seq<Id>, seen: seq<Id>, queue: seq<Id>)
    requires edges != [] && edges[0] in ids && Sorting(ids, deps, indegree, edges, seen, queue)
    ensures indegree[edges[0]] >= 1
    ensures var left := indegree[edges[0]] - 1;
      Sorting(ids, deps, indegree[edges[0] := left], edges[1..], seen, if left == 0 then queue + [edges[0]] else queue)
  {
    var next := edges[0];
    assert Times(edges, next) >= 1;
    assert next !in seen && next !in queue;
    var left := indegree[next] - 1;
    var longer := if left == 0 then queue + [next] else queue;
    assert Members(queue + [next]) == Members(queue) + {next};
    assert forall x :: x in longer <==> x in queue || (left == 0 && x == next);
  }

  /** Nothing is queued any more: all items are in order, or those left are stuck. */
  lemma SortingEnds(ids: set<Id>, deps: seq<Entry>, indegree: Counters, seen: seq<Id>)
    requires Closed(ids, deps) && Sorting(ids, deps, indegree, [], seen, [])
    ensures |seen| == |ids| ==> IsOrder(ids, deps, seen) && !HasCycle(deps)
    ensures |seen| != |ids| ==> HasCycle(deps)
  {
    DistinctSize(seen);
    if |seen| == |ids| {
      SameSize(Members(seen), ids);
      OrderMeansNoCycle(ids, deps, seen);
    } else {
      LeftAreStuck(ids, deps, indegree, seen);
    }
  }

  lemma LeftAreStuck(ids: set<Id>, deps: seq<Entry>, indegree: Counters, seen: seq<Id>)
    requires Closed(ids, deps) && CountersRight(ids, deps, indegree, [], seen, [])
    requires Members(seen) <= ids && Members(seen) != ids
    ensures HasCycle(deps)
  {
    var stuck := ids - Members(seen);
    forall x | x in stuck
      ensures HasNext(deps, stuck, x)
    {
      NoneOutstanding(Needs(deps, x), Members(seen));
      var y :| y in Needs(deps, x) && y !in Members(seen);
      assert DependsOn(deps, x, y) && y in stuck;
    }
    var x :| x in ids && x !in Members(seen);
    StuckMeansCycle(deps, stuck, x);
  }

  lemma {:induction false} DistinctSize(s: seq<Id>)
    requires Distinct(s)
    ensures |Members(s)| == |s|
  {
    if s != [] {
      var init, last := s[..|s| - 1], s[|s| - 1];
      DistinctSize(init);
      assert Members(s) == Members(init) + {last};
      assert last !in Members(init);
    }
  }

  lemma SameSize(a: set<Id>, b: set<Id>)
    requires a <= b && |a| == |b|
    ensures a == b
  {
    if a != b {
      var x :| x in b && x !in a;
      Smaller(a, b - {x});
    }
  }

  lemma {:induction false} Smaller(a: set<Id>, b: set<Id>)
    requires a <= b
    ensures |a| <= |b|
  {
    if a != {} {
      var x :| x in a;
      Smaller(a - {x}, b - {x});
    }
  }

  // ---------------------------------------------------------------- the algorithm

  lemma {:induction false} NeedsAreKnown(ids: set<Id>, deps: seq<Entry>)
    requires Unknown(ids, deps) == {} && !HasMissingItem(ids, deps)
    ensures Closed(ids, deps)
  {
    forall x | Needs(deps, x) != []
      ensures x in ids && forall y :: y in Needs(deps, x) ==> y in ids
    {
      NeedsHasEntry(deps, x);
      var i :| 0 <= i < |deps| && deps[i].item == x && deps[i].needs == Needs(deps, x);
      forall y | y in deps[i].needs
        ensures y in ids
      {
        var j :| 0 <= j < |deps[i].needs| && deps[i].needs[j] == y;
        assert y !in ids ==> y in Unknown(ids, deps);
      }
    }
  }

  /** The dependencies of one entry of the table. */
  method CountEntry(ids: set<Id>, ghost before: seq<Entry>, e: Entry, counters: Counters, edges: Edges)
    returns (ok: bool, indegree: Counters, outgoing: Edges)
    requires Counted(ids, before, counters, edges) && forall i :: 0 <= i < |before| ==> before[i].item != e.item
    ensures ok <==> e.needs == [] || e.item in ids
    ensures ok ==> Counted(ids, before + [e], indegree, outgoing)
  {
    indegree, outgoing := counters, edges;
    var k := 0;
    PartlyStarts(ids, before, e, indegree, outgoing);
    while k < |e.needs|
      invariant 0 <= k <= |e.needs| && CountedPartly(ids, before, e, k, indegree, outgoing)
      invariant k > 0 ==> e.item in ids
    {
      if e.item !in indegree {
        return false, indegree, outgoing;
      }
      var dep := e.needs[k];
      PartlyStep(ids, before, e, k, indegree, outgoing);
      indegree := indegree[e.item := indegree[e.item] + 1];
      outgoing := outgoing[dep := EdgesOf(outgoing, dep) + [e.item]];
      k := k + 1;
    }
    PartlyEnds(ids, before, e, indegree, outgoing);
    ok := true;
  }

  /** The first loop of `check_dag`: counters and edges, unless an item is missing. */
  method Count(ids: set<Id>, deps: seq<Entry>) returns (ok: bool, indegree: Counters, outgoing: Edges)
    requires IsTable(deps)
    ensures ok <==> !HasMissingItem(ids, deps)
    ensures ok ==> Counted(ids, deps, indegree, outgoing)
  {
    indegree, outgoing := map x | x in ids :: 0, map[];
    var i := 0;
    while i < |deps|
      invariant 0 <= i <= |deps| && Counted(ids, deps[..i], indegree, outgoing)
      invariant forall k :: 0 <= k < i ==> deps[k].needs == [] || deps[k].item in ids
    {
      ok, indegree, outgoing := CountEntry(ids, deps[..i], deps[i], indegree, outgoing);
      if !ok {
        return;
      }
      assert deps[..i + 1] == deps[..i] + [deps[i]];
      i := i + 1;
    }
    assert deps[..i] == deps;
    ok := true;
  }

  /** The items nothing holds back, sorted. */
  method FirstQueue(ids: set<Id>, indegree: Counters) returns (queue: seq<Id>)
    requires indegree.Keys == ids
    ensures Lists(queue, set x | x in ids && indegree[x] == 0)
  {
    var todo, found: seq<Id> := ids, [];
    while todo != {}
      invariant todo <= ids && Distinct(found)
      invariant forall x :: x in found <==> x in ids && x !in todo && indegree[x] == 0
      decreases |todo|
    {
      var x :| x in todo;
      todo := todo - {x};
      if indegree[x] == 0 {
        found := found + [x];
      }
    }
    SortTextsLists(found);
    assert (set x | x in found) == set x | x in ids && indegree[x] == 0;
    queue := SortTexts(found);
  }

  /** `check_dag`: with all dependencies known, it reports a cycle iff there is one, and otherwise has
      put every item once after everything it depends on. */
  method CheckDag(ids: set<Id>, deps: seq<Entry>) returns (r: Outcome)
    requires IsTable(deps)
    ensures Unknown(ids, deps) != {} <==> r == UnknownDependencies(Unknown(ids, deps))
    ensures Unknown(ids, deps) == {} ==> (HasMissingItem(ids, deps) <==> r == MissingItem)
    ensures Unknown(ids, deps) == {} && !HasMissingItem(ids, deps) ==>
      if HasCycle(deps) then r == CycleDetected else r.Accepted? && IsOrder(ids, deps, r.order)
  {
    var unknown := Unknown(ids, deps);
    if unknown != {} {
      return UnknownDependencies(unknown);
    }
    var ok, indegree, outgoing := Count(ids, deps);
    if !ok {
      return MissingItem;
    }
    NeedsAreKnown(ids, deps);
    var queue := FirstQueue(ids, indegree);
    var seen: seq<Id> := [];
    SortingStarts(ids, deps, indegree, outgoing, queue);
    while queue != []
      invariant Sorting(ids, deps, indegree, [], seen, queue)
      decreases |ids| - |seen|
    {
      SeenIsSmaller(ids, seen, queue);
      HeadIsSeen(ids, deps, indegree, outgoing, seen, queue);
      var item := queue[0];
      queue, seen := queue[1..], seen + [item];
      indegree, queue := Relax(ids, deps, indegree, EdgesOf(outgoing, item), seen, queue);
    }
    SortingEnds(ids, deps, indegree, seen);
    r := if |seen| != |ids| then CycleDetected else Accepted(seen);
  }

  lemma SeenIsSmaller(ids: set<Id>, seen: seq<Id>, queue: seq<Id>)
    requires queue != [] && Placed(ids, seen, queue)
    ensures |seen| < |ids|
  {
    HeadPlaced(ids, seen, queue);
    DistinctSize(seen + [queue[0]]);
    Smaller(Members(seen + [queue[0]]), ids);
  }

  /** The inner loop, over the edges of one item. */
  method Relax(ids: set<Id>, ghost deps: seq<Entry>, counters: Counters, edges: seq<Id>, ghost seen: seq<Id>, waiting: seq<Id>)
    returns (indegree: Counters, queue: seq<Id>)
    requires Closed(ids, deps) && Sorting(ids, deps, counters, edges, seen, waiting)
    requires forall x :: Times(edges, x) > 0 ==> x in ids
    ensures Sorting(ids, deps, indegree, [], seen, queue)
  {
    indegree, queue := counters, waiting;
    var i := 0;
    assert edges[0..] == edges;
    while i < |edges|
      invariant 0 <= i <= |edges| && Sorting(ids, deps, indegree, edges[i..], seen, queue)
    {
      var next := edges[i];
      ListedTimes(edges, i);
      assert edges[i..][0] == next && edges[i..][1..] == edges[i + 1..];
      EdgeIsDone(ids, deps, indegree, edges[i..], seen, queue);
      indegree := indegree[next := indegree[next] - 1];
      if indegree[next] == 0 {
        queue := queue + [next];
      }
      i := i + 1;
    }
    assert edges[i..] == [];
  }

  lemma ListedTimes(edges: seq<Id>, i: nat)
    requires i < |edges|
    ensures Times(edges, edges[i]) > 0
  {
    NotListed(edges, edges[i]);
  }
}
