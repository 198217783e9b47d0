/** The dependency graph that orders the cells of a block (`src/graph/dependency_graph.rs`).

    A vertex is named by the ids its cell produces and mapped to the ids its cell consumes. */
module DependencyGraphs {
  import opened Basics
  import opened Cells

  type Ids = set<CellId>
  type Dependencies = map<Ids, Ids>

  datatype GraphError = DuplicateCell | UndefinedCell

  /** The cell producing `c` consumes an output of the cell producing `p`. */
  predicate Consumes(dh: Dependencies, c: Ids, p: Ids) {
    c in dh && !(dh[c] !! p)
  }

  ghost predicate Unconsumed(dh: Dependencies, p: Ids) {
    forall c | c in dh :: dh[c] !! p
  }

  /** What `roots` is for: the vertices from which nothing is consumed, each once. */
  ghost predicate RootsExact(dh: Dependencies, roots: seq<Ids>) {
    && Distinct(roots)
    && forall p :: p in roots <==> p in dh && Unconsumed(dh, p)
  }

  /** Everything that consumes from an entry stands behind it. */
  ghost predicate ProducersFirst(dh: Dependencies, sorted: seq<Ids>) {
    forall i, c :: 0 <= i < |sorted| && Consumes(dh, c, sorted[i]) ==> c in sorted[i + 1..]
  }

  /** From every member of `s` some member of `s` consumes: what a cycle looks like from inside. */
  ghost predicate Stuck(dh: Dependencies, s: set<Ids>) {
    s <= dh.Keys && forall p | p in s :: exists c :: c in s && Consumes(dh, c, p)
  }

  ghost predicate Acyclic(dh: Dependencies) {
    forall s :: Stuck(dh, s) ==> s == {}
  }

  ghost predicate Ranked(dh: Dependencies, rank: map<Ids, nat>) {
    forall c, p | p in dh && Consumes(dh, c, p) :: p in rank && c in rank && rank[p] < rank[c]
  }

  /** Any assignment of ranks (a block height, a position) that grows along consumption rules
      cycles out. */
  lemma RankedIsAcyclic(dh: Dependencies, rank: map<Ids, nat>)
    requires Ranked(dh, rank)
    ensures Acyclic(dh)
  {
    hide Stuck, Ranked;
    forall s | Stuck(dh, s) ensures s == {} {
      if s != {} {
        var p :| p in s;
        ClimbOut(dh, rank, s, p, s);
      }
    }
  }

  lemma NextConsumer(dh: Dependencies, s: set<Ids>, p: Ids) returns (c: Ids)
    requires Stuck(dh, s) && p in s
    ensures p in dh && c in s && Consumes(dh, c, p)
  {
    hide Consumes;
    c :| c in s && Consumes(dh, c, p);
  }

  lemma {:induction false} ClimbOut(dh: Dependencies, rank: map<Ids, nat>, s: set<Ids>, p: Ids, left: set<Ids>)
    requires Ranked(dh, rank) && Stuck(dh, s) && p in s && left <= s
    requires forall c | c in s && c in rank && p in rank && rank[p] <= rank[c] :: c in left
    ensures false
    decreases left
  {
    hide Consumes, Stuck;
    var c := NextConsumer(dh, s, p);
    assert p in left && rank[p] < rank[c];
    ClimbOut(dh, rank, s, c, left - {p});
  }

  /** `Topological` leaves out exactly the largest stuck set, so it is complete just when there is
      no cycle. */
  ghost predicate SortedAround(dh: Dependencies, sorted: seq<Ids>) {
    && Distinct(sorted) && Elems(sorted) <= dh.Keys
    && ProducersFirst(dh, sorted)
    && Stuck(dh, dh.Keys - Elems(sorted))
  }

  lemma {:induction false} StuckStaysOut(dh: Dependencies, sorted: seq<Ids>, s: set<Ids>, i: nat)
    requires ProducersFirst(dh, sorted) && Stuck(dh, s) && i <= |sorted|
    ensures forall k | i <= k < |sorted| :: sorted[k] !in s
    decreases |sorted| - i
  {
    hide Consumes, Stuck;
    if i < |sorted| {
      StuckStaysOut(dh, sorted, s, i + 1);
      if sorted[i] in s {
        var c := NextConsumer(dh, s, sorted[i]);
        assert false;
      }
    }
  }

  lemma CompleteIffAcyclic(dh: Dependencies, sorted: seq<Ids>)
    requires SortedAround(dh, sorted)
    ensures Elems(sorted) == dh.Keys <==> Acyclic(dh)
    ensures forall s | Stuck(dh, s) :: s <= dh.Keys - Elems(sorted)
  {
    var left := dh.Keys - Elems(sorted);
    assert Stuck(dh, left);
    hide *;
    forall s | Stuck(dh, s) ensures s <= left { StuckInLeft(dh, sorted, s); }
    if Acyclic(dh) {
      assert left == {} by { AcyclicHasNone(dh, left); }
      DifferenceEmpty(Elems(sorted), dh.Keys);
    } else {
      var s := CyclicHasOne(dh);
      assert s <= left;
    }
  }

  lemma StuckInLeft(dh: Dependencies, sorted: seq<Ids>, s: set<Ids>)
    requires SortedAround(dh, sorted) && Stuck(dh, s)
    ensures s <= dh.Keys - Elems(sorted)
  {
    StuckStaysOut(dh, sorted, s, 0);
    assert s <= dh.Keys;
    hide Stuck, Consumes;
    assert forall x | x in s :: x !in Elems(sorted);
  }

  lemma AcyclicHasNone(dh: Dependencies, s: set<Ids>)
    requires Acyclic(dh) && Stuck(dh, s)
    ensures s == {}
  {
    hide Stuck;
  }

  lemma CyclicHasOne(dh: Dependencies) returns (s: set<Ids>)
    requires !Acyclic(dh)
    ensures Stuck(dh, s) && s != {}
  {
    hide Stuck;
    s :| Stuck(dh, s) && s != {};
  }

  // Insertion

  lemma InsertKeepsRoots(dh: Dependencies, roots: seq<Ids>, produced: Ids, consumed: Ids, kept: seq<Ids>)
    requires RootsExact(dh, roots) && produced !in dh
    requires Distinct(kept) && forall p :: p in kept <==> p in roots && consumed !! p
    ensures
      var after := dh[produced := consumed];
      RootsExact(after, if Unconsumed(after, produced) then kept + [produced] else kept)
  {
    var after := dh[produced := consumed];
    assert produced !in kept;
    forall p | p in dh
      ensures Unconsumed(after, p) <==> Unconsumed(dh, p) && consumed !! p
    {
      assert produced in after && after[produced] == consumed;
      if Unconsumed(after, p) {
        forall c | c in dh ensures dh[c] !! p { assert c in after; }
      }
    }
    DistinctSnoc(kept, produced);
  }

  /** The roots that a cell consuming `consumed` leaves. */
  ghost function KeptBy(roots: seq<Ids>, consumed: Ids): seq<Ids> {
    if roots == [] then [] else
    var last := roots[|roots| - 1];
    KeptBy(roots[..|roots| - 1], consumed) + if consumed !! last then [last] else []
  }

  lemma {:induction false} KeptMembers(roots: seq<Ids>, consumed: Ids)
    requires Distinct(roots)
    ensures Distinct(KeptBy(roots, consumed))
    ensures forall p :: p in KeptBy(roots, consumed) <==> p in roots && consumed !! p
  {
    if roots != [] {
      var front, last := roots[..|roots| - 1], roots[|roots| - 1];
      assert roots == front + [last] && last !in front;
      KeptMembers(front, consumed);
      DistinctSnoc(KeptBy(front, consumed), last);
    }
  }

  ghost function RootsAfter(dh: Dependencies, roots: seq<Ids>, produced: Ids, consumed: Ids): seq<Ids> {
    KeptBy(roots, consumed) + if Unconsumed(dh[produced := consumed], produced) then [produced] else []
  }

  // The loop of `topological`

  ghost predicate ConsumersIn(dh: Dependencies, p: Ids, done: seq<Ids>) {
    forall c | Consumes(dh, c, p) :: c in done
  }

  ghost function Emptied(dh: Dependencies, sorted: seq<Ids>): Dependencies {
    map k | k in dh :: if k in sorted then {} else dh[k]
  }

  ghost predicate Sorting(dh: Dependencies, sorted: seq<Ids>, roots: seq<Ids>) {
    && Distinct(sorted + roots)
    && (forall p :: p in sorted + roots <==> p in dh && ConsumersIn(dh, p, sorted))
    && ProducersFirst(dh, sorted)
  }

  lemma SortingStarts(dh: Dependencies, roots: seq<Ids>)
    requires RootsExact(dh, roots)
    ensures Sorting(dh, [], roots) && Emptied(dh, []) == dh
  {
    assert [] + roots == roots;
    forall p | p in dh ensures Unconsumed(dh, p) <==> ConsumersIn(dh, p, []) {
      if ConsumersIn(dh, p, []) {
        forall c | c in dh ensures dh[c] !! p { assert Consumes(dh, c, p) ==> c in []; }
      }
    }
  }

  /** In the emptied graph, nothing consumes from `p` when all its consumers are done. */
  lemma EmptiedInbound(dh: Dependencies, sorted: seq<Ids>, p: Ids)
    ensures Unconsumed(Emptied(dh, sorted), p) <==> ConsumersIn(dh, p, sorted)
  {
    var graph := Emptied(dh, sorted);
    if Unconsumed(graph, p) {
      forall c | Consumes(dh, c, p) ensures c in sorted { assert c in graph && graph[c] !! p; }
    }
  }

  ghost predicate IsFreed(dh: Dependencies, sorted: seq<Ids>, root: Ids, p: Ids) {
    p in dh && Consumes(dh, root, p) && ConsumersIn(dh, p, [root] + sorted)
  }

  lemma SortingStep(dh: Dependencies, sorted: seq<Ids>, roots: seq<Ids>, root: Ids, freed: seq<Ids>)
    requires Sorting(dh, sorted, roots + [root])
    requires Distinct(freed) && forall p :: p in freed <==> IsFreed(dh, sorted, root, p)
    ensures Sorting(dh, [root] + sorted, roots + freed)
  {
    var before, after := sorted + (roots + [root]), [root] + sorted + (roots + freed);
    assert before[|before| - 1] == root;
    assert root in before && root !in sorted by {
      assert before == sorted + roots + [root] + [];
      DistinctMid(sorted + roots, root, []);
    }
    assert forall p :: p in before <==> p in sorted || p in roots || p == root;
    forall p ensures p in after <==> p in dh && ConsumersIn(dh, p, [root] + sorted) {
      assert p in after <==> p in before || p in freed;
      if p in before {
        assert ConsumersIn(dh, p, sorted);
      } else if p in dh && ConsumersIn(dh, p, [root] + sorted) {
        var c :| Consumes(dh, c, p) && c !in sorted;
        assert c in [root] + sorted;
      }
    }
    forall i, c | 0 <= i < |[root] + sorted| && Consumes(dh, c, ([root] + sorted)[i])
      ensures c in ([root] + sorted)[i + 1..]
    {
      if i == 0 {
        assert ConsumersIn(dh, root, sorted);
        assert ([root] + sorted)[1..] == sorted;
      } else {
        assert c in sorted[i - 1 + 1..];
        assert ([root] + sorted)[i + 1..] == sorted[i..];
      }
    }
    StepDistinct(sorted, roots, root, freed) by {
      forall p | p in freed ensures p !in before {
        assert IsFreed(dh, sorted, root, p);
      }
    }
  }

  lemma StepDistinct(sorted: seq<Ids>, roots: seq<Ids>, root: Ids, freed: seq<Ids>)
    requires Distinct(sorted + (roots + [root])) && Distinct(freed)
    requires forall p | p in freed :: p !in sorted + (roots + [root])
    ensures Distinct([root] + sorted + (roots + freed))
  {
    var before := sorted + (roots + [root]);
    assert before == sorted + roots + [root];
    assert before == sorted + roots + [root] + [];
    DistinctMid(sorted + roots, root, []);
    assert Distinct(sorted + roots) by { assert before[..|before| - 1] == sorted + roots; }
    DistinctConcat([root], sorted + roots);
    DistinctConcat([root] + (sorted + roots), freed) by {
      assert forall p | p in [root] + (sorted + roots) :: p in before;
    }
    assert [root] + sorted + (roots + freed) == [root] + (sorted + roots) + freed;
  }

  lemma SortingEnds(dh: Dependencies, sorted: seq<Ids>)
    requires Sorting(dh, sorted, [])
    ensures SortedAround(dh, sorted)
  {
    assert sorted + [] == sorted;
    forall p | p in dh.Keys - Elems(sorted)
      ensures exists c :: c in dh.Keys - Elems(sorted) && Consumes(dh, c, p)
    {
      var c :| Consumes(dh, c, p) && c !in sorted;
      assert c in dh.Keys - Elems(sorted);
    }
  }

  /** `freed` lists what taking `root` frees, in any order. */
  ghost predicate Frees(dh: Dependencies, sorted: seq<Ids>, root: Ids, freed: seq<Ids>) {
    Distinct(freed) && forall p :: p in freed <==> IsFreed(dh, sorted, root, p)
  }

  /** The loop can end with `out`: the iteration order of a hash map decides in which order freed
      vertices go onto the stack. */
  ghost predicate Listing(dh: Dependencies, sorted: seq<Ids>, stack: seq<Ids>, out: seq<Ids>)
    decreases |out| - |sorted|
  {
    if stack == [] then out == sorted else
    |sorted| < |out| && exists freed :: ListingBy(dh, sorted, stack, freed, out)
  }

  ghost predicate ListingBy(dh: Dependencies, sorted: seq<Ids>, stack: seq<Ids>, freed: seq<Ids>, out: seq<Ids>)
    requires stack != [] && |sorted| < |out|
    decreases |out| - |sorted|, 0
  {
    var root, rest := stack[|stack| - 1], stack[..|stack| - 1];
    Frees(dh, sorted, root, freed) && Listing(dh, [root] + sorted, rest + freed, out)
  }

  lemma {:induction false} ListingSuffix(dh: Dependencies, sorted: seq<Ids>, stack: seq<Ids>, out: seq<Ids>)
    requires Listing(dh, sorted, stack, out)
    ensures |sorted| <= |out| && out[|out| - |sorted|..] == sorted
    decreases |out| - |sorted|
  {
    if stack != [] {
      var freed :| ListingBy(dh, sorted, stack, freed, out);
      var root, rest := stack[|stack| - 1], stack[..|stack| - 1];
      ListingSuffix(dh, [root] + sorted, rest + freed, out);
      assert out[|out| - |sorted|..] == out[|out| - |sorted| - 1..][1..];
    }
  }

  lemma ListingStep(dh: Dependencies, sorted: seq<Ids>, rest: seq<Ids>, root: Ids, freed: seq<Ids>, out: seq<Ids>)
    requires Frees(dh, sorted, root, freed) && Listing(dh, [root] + sorted, rest + freed, out)
    ensures Listing(dh, sorted, rest + [root], out)
  {
    var stack := rest + [root];
    ListingSuffix(dh, [root] + sorted, rest + freed, out);
    assert stack[|stack| - 1] == root && stack[..|stack| - 1] == rest;
    assert ListingBy(dh, sorted, stack, freed, out);
  }

  lemma ListingEnds(dh: Dependencies, sorted: seq<Ids>)
    ensures Listing(dh, sorted, [], sorted)
  {
  }

  lemma ListIds(s: set<Ids>) returns (l: seq<Ids>)
    ensures Distinct(l) && forall p :: p in l <==> p in s
    decreases s
  {
    l := [];
    if s != {} {
      var x :| x in s;
      l := ListIds(s - {x});
      DistinctSnoc(l, x);
      l := l + [x];
    }
  }

  lemma {:induction false} ListingExists(dh: Dependencies, sorted: seq<Ids>, stack: seq<Ids>) returns (out: seq<Ids>)
    requires Sorting(dh, sorted, stack)
    ensures Listing(dh, sorted, stack, out)
    decreases |dh| - |sorted|
  {
    SortingFits(dh, sorted, stack);
    if stack == [] { return sorted; }
    var root, rest := stack[|stack| - 1], stack[..|stack| - 1];
    assert stack == rest + [root];
    var freed := ListIds(set p | p in dh && IsFreed(dh, sorted, root, p));
    assert Frees(dh, sorted, root, freed);
    hide *;
    SortingStep(dh, sorted, rest, root, freed) by { FreesParts(dh, sorted, root, freed); }
    out := ListingExists(dh, [root] + sorted, rest + freed);
    ListingStep(dh, sorted, rest, root, freed, out);
  }

  lemma FreesParts(dh: Dependencies, sorted: seq<Ids>, root: Ids, freed: seq<Ids>)
    requires Frees(dh, sorted, root, freed)
    ensures Distinct(freed) && forall p :: p in freed <==> IsFreed(dh, sorted, root, p)
  {
  }

  lemma {:induction false} ListingSorts(dh: Dependencies, sorted: seq<Ids>, stack: seq<Ids>, out: seq<Ids>)
    requires Sorting(dh, sorted, stack) && Listing(dh, sorted, stack, out)
    ensures SortedAround(dh, out)
    decreases |out| - |sorted|
  {
    hide Sorting, Frees, SortedAround;
    if stack == [] {
      SortingEnds(dh, sorted);
    } else {
      var freed :| ListingBy(dh, sorted, stack, freed, out);
      var root, rest := stack[|stack| - 1], stack[..|stack| - 1];
      assert stack == rest + [root];
      FreesParts(dh, sorted, root, freed);
      SortingStep(dh, sorted, rest, root, freed);
      ListingSorts(dh, [root] + sorted, rest + freed, out);
    }
  }

  /** Whatever `down` consumes is in `down`. */
  ghost predicate DownClosed(dh: Dependencies, down: set<Ids>) {
    forall c, p | c in down && p in dh && Consumes(dh, c, p) :: p in down
  }

  /** A vertex at the bottom of the stack is taken when only what it depends on is left. */
  lemma {:induction false} BottomIsLast(dh: Dependencies, sorted: seq<Ids>, stack: seq<Ids>, out: seq<Ids>, e: Ids,
                                        down: set<Ids>) returns (at: nat)
    requires Sorting(dh, sorted, stack) && Listing(dh, sorted, stack, out) && Acyclic(dh)
    requires stack != [] && stack[0] == e && e in down && DownClosed(dh, down)
    ensures at < |out| && out[at] == e && forall p | p in dh && p !in down :: p in out[at + 1..]
    decreases |out| - |sorted|
  {
    hide Sorting, Frees, Acyclic, DownClosed;
    var freed :| ListingBy(dh, sorted, stack, freed, out);
    var root, rest := stack[|stack| - 1], stack[..|stack| - 1];
    assert stack == rest + [root];
    if |stack| > 1 {
      FreesParts(dh, sorted, root, freed);
      SortingStep(dh, sorted, rest, root, freed);
      at := BottomIsLast(dh, [root] + sorted, rest + freed, out, e, down);
    } else {
      ListingSuffix(dh, [root] + sorted, rest + freed, out);
      OnlyDownLeft(dh, sorted, e, down);
      at := |out| - |sorted| - 1;
      assert out[at..] == [root] + sorted && out[at + 1..] == out[at..][1..] == sorted;
    }
  }

  lemma OnlyDownLeft(dh: Dependencies, sorted: seq<Ids>, e: Ids, down: set<Ids>)
    requires Sorting(dh, sorted, [e]) && Acyclic(dh) && e in down && DownClosed(dh, down)
    ensures forall p | p in dh && p !in down :: p in sorted
  {
    var left := set p | p in dh && p !in down && p !in sorted;
    forall p | p in left ensures exists c :: c in left && Consumes(dh, c, p) {
      assert p !in sorted + [e];
      var c :| Consumes(dh, c, p) && c !in sorted;
      assert c in left;
    }
    assert Stuck(dh, left);
    hide *;
    AcyclicHasNone(dh, left);
    forall p | p in dh && p !in down ensures p in sorted { assert p !in left; }
  }

  lemma SortingFits(dh: Dependencies, sorted: seq<Ids>, roots: seq<Ids>)
    requires Sorting(dh, sorted, roots)
    ensures |sorted| + |roots| <= |dh|
  {
    DistinctLength(sorted + roots, dh.Keys);
  }

  method HasInboundEdges(dh: Dependencies, produced: Ids) returns (b: bool)
    ensures b <==> exists c :: Consumes(dh, c, produced)
    ensures !b <==> Unconsumed(dh, produced)
  {
    var left := dh.Keys;
    while left != {}
      invariant left <= dh.Keys
      invariant forall c | c in dh && c !in left :: dh[c] !! produced
    {
      var c :| c in left;
      if !(produced !! dh[c]) {
        assert Consumes(dh, c, produced);
        return true;
      }
      left := left - {c};
    }
    return false;
  }

  /** The vertices that lost their last consumer when the edges `removed` went. */
  method Freed(graph: Dependencies, removed: Ids) returns (freed: seq<Ids>)
    ensures Distinct(freed)
    ensures forall p :: p in freed <==> p in graph && !(p !! removed) && Unconsumed(graph, p)
  {
    freed := [];
    var left := graph.Keys;
    while left != {}
      invariant left <= graph.Keys && Distinct(freed)
      invariant forall p :: p in freed <==> p in graph && p !in left && !(p !! removed) && Unconsumed(graph, p)
    {
      var p :| p in left;
      left := left - {p};
      if !(p !! removed) {
        var inbound := HasInboundEdges(graph, p);
        if !inbound {
          DistinctSnoc(freed, p);
          freed := freed + [p];
        }
      }
    }
  }

  class DependencyGraph {
    var dh: Dependencies
    var roots: seq<Ids>

    ghost predicate Valid() reads this {
      RootsExact(dh, roots)
    }

    constructor ()
      ensures Valid() && dh == map[] && roots == []
    {
      dh, roots := map[], [];
    }

    method Insert(cell: Cell) returns (r: Result<(), GraphError>)
      requires Valid()
      modifies this
      ensures Valid()
      ensures r == if Produced(cell) in old(dh) then Err(DuplicateCell) else Ok(())
      ensures dh == if r.Ok? then old(dh)[Produced(cell) := cell.inputs] else old(dh)
      ensures roots == if r.Ok? then RootsAfter(old(dh), old(roots), Produced(cell), cell.inputs) else old(roots)
    {
      var produced, consumed := Produced(cell), cell.inputs;
      if produced in dh {
        return Err(DuplicateCell);
      }
      var kept := KeptRoots(roots, consumed);
      KeptMembers(roots, consumed);
      InsertKeepsRoots(dh, roots, produced, consumed, kept);
      dh := dh[produced := consumed];
      var referenced := HasInboundEdges(dh, produced);
      roots := if referenced then kept else kept + [produced];
      return Ok(());
    }

    static method KeptRoots(roots: seq<Ids>, consumed: Ids) returns (kept: seq<Ids>)
      ensures kept == KeptBy(roots, consumed)
    {
      kept := [];
      for i := 0 to |roots|
        invariant kept == KeptBy(roots[..i], consumed)
      {
        assert roots[..i + 1][..i] == roots[..i];
        if consumed !! roots[i] { kept := kept + [roots[i]]; }
      }
      assert roots[..|roots|] == roots;
    }

    /** The lookup of a root never fails, so there is no `UndefinedCell`; the result is complete
        exactly when the graph is acyclic. */
    method Topological() returns (r: Result<seq<Ids>, GraphError>)
      requires Valid()
      ensures r.Ok? && SortedAround(dh, r.value) && Listing(dh, [], roots, r.value)
      ensures Elems(r.value) == dh.Keys <==> Acyclic(dh)
    {
      var sorted: seq<Ids>, stack, graph := [], roots, dh;
      SortingStarts(dh, roots);
      hide *;
      while |stack| != 0
        invariant Sorting(dh, sorted, stack) && graph == Emptied(dh, sorted)
        invariant forall out | Listing(dh, sorted, stack, out) :: Listing(dh, [], roots, out)
        decreases |dh| - |sorted|
      {
        SortingFits(dh, sorted, stack);
        sorted, stack, graph := SortNext(dh, sorted, stack, graph);
      }
      assert stack == [];
      ListingEnds(dh, sorted);
      SortingEnds(dh, sorted);
      CompleteIffAcyclic(dh, sorted);
      return Ok(sorted);
    }

    static method SortNext(ghost dh: Dependencies, sorted: seq<Ids>, stack: seq<Ids>, graph: Dependencies)
      returns (sorted': seq<Ids>, stack': seq<Ids>, graph': Dependencies)
      requires |stack| != 0 && Sorting(dh, sorted, stack) && graph == Emptied(dh, sorted)
      ensures |sorted'| == |sorted| + 1
      ensures Sorting(dh, sorted', stack') && graph' == Emptied(dh, sorted')
      ensures forall out | Listing(dh, sorted', stack', out) :: Listing(dh, sorted, stack, out)
    {
      var root := stack[|stack| - 1];
      ghost var rest := stack[..|stack| - 1];
      assert stack == rest + [root];
      assert root in sorted + stack && root !in sorted by {
        assert sorted + stack == sorted + rest + [root] + [];
        DistinctMid(sorted + rest, root, []);
      }
      sorted' := [root] + sorted;
      var removed := graph[root];
      graph' := graph[root := {}];
      assert graph' == Emptied(dh, sorted');
      var freed := Freed(graph', removed);
      forall p ensures p in freed <==> IsFreed(dh, sorted, root, p) { EmptiedInbound(dh, sorted', p); }
      SortingStep(dh, sorted, rest, root, freed);
      stack' := stack[..|stack| - 1] + freed;
      assert Frees(dh, sorted, root, freed);
      hide *;
      forall out | Listing(dh, sorted', stack', out) ensures Listing(dh, sorted, stack, out) {
        ListingStep(dh, sorted, rest, root, freed, out);
      }
    }

    /** The given cells in the order of `Topological`; a cell that was not inserted is dropped. */
    method TopologicalCells(cells: seq<Cell>) returns (r: Result<seq<Cell>, GraphError>, ghost sorted: seq<Ids>)
      requires Valid()
      ensures SortedAround(dh, sorted) && (Elems(sorted) == dh.Keys <==> Acyclic(dh)) && Listing(dh, [], roots, sorted)
      ensures r == Ok(Flattened(sorted, cells))
      ensures KeysDistinct(cells) && Depends(dh, cells) && Acyclic(dh) ==>
        multiset(r.value) == multiset(cells) && InDependencyOrder(r.value)
    {
      hide *;
      var ids := Topological();
      sorted := ids.value;
      var ordered := ListCells(ids.value, cells);
      r := Ok(ordered);
      if KeysDistinct(cells) && Depends(dh, cells) && Acyclic(dh) { FlattenedOrders(dh, sorted, cells); }
    }

    static method ListCells(sorted: seq<Ids>, cells: seq<Cell>) returns (ordered: seq<Cell>)
      ensures ordered == Flattened(sorted, cells)
    {
      hide Matching, Produced;
      ordered := [];
      for i := 0 to |sorted|
        invariant ordered == Flattened(sorted[..i], cells)
      {
        FlattenedSnoc(sorted[..i], sorted[i], cells);
        assert sorted[..i] + [sorted[i]] == sorted[..i + 1];
        var matching := SelectMatching(cells, sorted[i]);
        ordered := ordered + matching;
      }
      assert sorted[..|sorted|] == sorted;
    }

    static method SelectMatching(cells: seq<Cell>, ids: Ids) returns (found: seq<Cell>)
      ensures found == Matching(cells, ids)
    {
      found := [];
      for i := 0 to |cells|
        invariant found == Matching(cells[..i], ids)
      {
        assert cells[..i + 1][..i] == cells[..i];
        if Produced(cells[i]) == ids { found := found + [cells[i]]; }
      }
      assert cells[..|cells|] == cells;
    }
  }

  // The cells in order

  ghost function Matching(cells: seq<Cell>, ids: Ids): seq<Cell> {
    if cells == [] then [] else
    var last := cells[|cells| - 1];
    Matching(cells[..|cells| - 1], ids) + if Produced(last) == ids then [last] else []
  }

  ghost function Flattened(sorted: seq<Ids>, cells: seq<Cell>): seq<Cell> {
    if sorted == [] then [] else
    Flattened(sorted[..|sorted| - 1], cells) + Matching(cells, sorted[|sorted| - 1])
  }

  lemma FlattenedSnoc(sorted: seq<Ids>, ids: Ids, cells: seq<Cell>)
    ensures Flattened(sorted + [ids], cells) == Flattened(sorted, cells) + Matching(cells, ids)
  {
    assert (sorted + [ids])[..|sorted|] == sorted;
  }

  /** No two cells produce the same set of ids (in particular at most one has no outputs). */
  ghost predicate KeysDistinct(cells: seq<Cell>) {
    forall i, j :: 0 <= i < j < |cells| ==> Produced(cells[i]) != Produced(cells[j])
  }

  /** The graph that inserting `cells` builds, in whatever order. */
  ghost predicate Depends(dh: Dependencies, cells: seq<Cell>) {
    && (forall cell | cell in cells :: Produced(cell) in dh && dh[Produced(cell)] == cell.inputs)
    && (forall p | p in dh :: exists i :: 0 <= i < |cells| && Produced(cells[i]) == p)
  }

  /** Nothing is consumed before it is produced. */
  ghost predicate InDependencyOrder(cells: seq<Cell>) {
    forall i, j :: 0 <= i < |cells| && 0 <= j < |cells| && !(cells[i].inputs !! Produced(cells[j])) ==> j < i
  }

  lemma {:induction false} MatchingNone(cells: seq<Cell>, ids: Ids)
    requires forall i | 0 <= i < |cells| :: Produced(cells[i]) != ids
    ensures Matching(cells, ids) == []
  {
    if cells != [] { MatchingNone(cells[..|cells| - 1], ids); }
  }

  lemma {:induction false} MatchingOne(cells: seq<Cell>, i: nat)
    requires KeysDistinct(cells) && i < |cells|
    ensures Matching(cells, Produced(cells[i])) == [cells[i]]
  {
    var front := cells[..|cells| - 1];
    if i == |cells| - 1 {
      MatchingNone(front, Produced(cells[i]));
    } else {
      MatchingOne(front, i);
    }
  }

  lemma Producer(dh: Dependencies, cells: seq<Cell>, p: Ids) returns (i: nat)
    requires Depends(dh, cells) && p in dh
    ensures i < |cells| && Produced(cells[i]) == p
  {
    hide Produced;
    i :| 0 <= i < |cells| && Produced(cells[i]) == p;
  }

  lemma {:induction false} FlattenedPointwise(dh: Dependencies, sorted: seq<Ids>, cells: seq<Cell>)
    requires KeysDistinct(cells) && Depends(dh, cells) && forall p | p in sorted :: p in dh
    ensures var out := Flattened(sorted, cells);
      && |out| == |sorted|
      && forall k | 0 <= k < |out| :: out[k] in cells && Produced(out[k]) == sorted[k]
  {
    hide Produced, Depends, Matching;
    if sorted != [] {
      var last := sorted[|sorted| - 1];
      assert last in sorted && last in dh;
      FlattenedPointwise(dh, sorted[..|sorted| - 1], cells);
      var i := Producer(dh, cells, last);
      MatchingOne(cells, i);
    }
  }

  /** Of an acyclic set of cells every listing yields a rearrangement in dependency order. */
  lemma FlattenedOrders(dh: Dependencies, sorted: seq<Ids>, cells: seq<Cell>)
    requires KeysDistinct(cells) && Depends(dh, cells)
    requires SortedAround(dh, sorted) && Elems(sorted) == dh.Keys
    ensures multiset(Flattened(sorted, cells)) == multiset(cells)
    ensures InDependencyOrder(Flattened(sorted, cells))
  {
    var out := Flattened(sorted, cells);
    assert forall p | p in sorted :: p in Elems(sorted);
    FlattenedPointwise(dh, sorted, cells);
    forall i, j | 0 <= i < |out| && 0 <= j < |out| && !(out[i].inputs !! Produced(out[j])) ensures j < i {
      assert out[i] in cells;
      assert Consumes(dh, sorted[i], sorted[j]);
      var k :| j + 1 <= k < |sorted| && sorted[k] == sorted[i];
    }
    forall cell | cell in cells ensures cell in out {
      assert Produced(cell) in Elems(sorted);
      var k :| 0 <= k < |sorted| && sorted[k] == Produced(cell);
      assert Produced(out[k]) == Produced(cell);
    }
    DistinctSame(out, cells);
  }

  /** The graph after inserting `cells`. */
  ghost function Built(cells: seq<Cell>): Dependencies {
    if cells == [] then map[] else
    var last := cells[|cells| - 1];
    Built(cells[..|cells| - 1])[Produced(last) := last.inputs]
  }

  lemma {:induction false} BuiltKey(cells: seq<Cell>, p: Ids)
    ensures p in Built(cells) <==> exists i :: 0 <= i < |cells| && Produced(cells[i]) == p
  {
    hide Produced;
    if cells != [] {
      var front, n := cells[..|cells| - 1], |cells| - 1;
      BuiltKey(front, p);
      assert forall i | 0 <= i < n :: front[i] == cells[i];
      assert 0 <= n < |cells|;
    }
  }

  lemma {:induction false} BuiltEntry(cells: seq<Cell>, i: nat)
    requires KeysDistinct(cells) && i < |cells|
    ensures Produced(cells[i]) in Built(cells) && Built(cells)[Produced(cells[i])] == cells[i].inputs
  {
    hide Produced;
    if i < |cells| - 1 { BuiltEntry(cells[..|cells| - 1], i); }
  }

  lemma BuiltDepends(cells: seq<Cell>)
    requires KeysDistinct(cells)
    ensures Depends(Built(cells), cells)
  {
    hide Produced, Built, KeysDistinct;
    forall cell | cell in cells
      ensures Produced(cell) in Built(cells) && Built(cells)[Produced(cell)] == cell.inputs
    {
      var i :| 0 <= i < |cells| && cells[i] == cell;
      BuiltEntry(cells, i);
    }
    forall p | p in Built(cells) ensures exists i :: 0 <= i < |cells| && Produced(cells[i]) == p {
      BuiltKey(cells, p);
    }
  }

  lemma BuiltWithin(a: seq<Cell>, b: seq<Cell>, p: Ids)
    requires KeysDistinct(a) && KeysDistinct(b) && multiset(a) == multiset(b) && p in Built(a)
    ensures p in Built(b) && Built(a)[p] == Built(b)[p]
  {
    hide Produced, Built, KeysDistinct, Depends;
    BuiltDepends(a);
    var i := Producer(Built(a), a, p);
    assert a[i] in multiset(b);
    var j :| 0 <= j < |b| && b[j] == a[i];
    BuiltEntry(a, i);
    BuiltEntry(b, j);
  }

  /** The graph does not depend on the order in which the cells are inserted. */
  lemma BuiltPermutes(a: seq<Cell>, b: seq<Cell>)
    requires KeysDistinct(a) && KeysDistinct(b) && multiset(a) == multiset(b)
    ensures Built(a) == Built(b)
  {
    hide *;
    forall p | p in Built(a) ensures p in Built(b) && Built(a)[p] == Built(b)[p] { BuiltWithin(a, b, p); }
    forall p | p in Built(b) ensures p in Built(a) { BuiltWithin(b, a, p); }
  }

  /** The roots after inserting `cells`, in the order of their insertion. */
  ghost function RootsOf(cells: seq<Cell>): seq<Ids> {
    if cells == [] then [] else
    var front, last := cells[..|cells| - 1], cells[|cells| - 1];
    RootsAfter(Built(front), RootsOf(front), Produced(last), last.inputs)
  }

  lemma {:induction false} RootsOfExact(cells: seq<Cell>)
    requires KeysDistinct(cells)
    ensures RootsExact(Built(cells), RootsOf(cells))
  {
    if cells != [] {
      var front, last := cells[..|cells| - 1], cells[|cells| - 1];
      BuiltKey(front, Produced(last));
      hide Produced;
      RootsOfExact(front);
      KeptMembers(RootsOf(front), last.inputs);
      InsertKeepsRoots(Built(front), RootsOf(front), Produced(last), last.inputs, KeptBy(RootsOf(front), last.inputs));
    }
  }

  lemma {:induction false} KeptFirst(roots: seq<Ids>, consumed: Ids)
    requires roots != [] && roots[0] == {}
    ensures KeptBy(roots, consumed) != [] && KeptBy(roots, consumed)[0] == {}
  {
    if |roots| > 1 { KeptFirst(roots[..|roots| - 1], consumed); } else { assert KeptBy(roots[..0], consumed) == []; }
  }

  /** A cell without outputs that is inserted first stays at the bottom of the stack. */
  lemma {:induction false} EmptyAtBottom(cells: seq<Cell>)
    requires cells != [] && Produced(cells[0]) == {}
    ensures RootsOf(cells) != [] && RootsOf(cells)[0] == {}
  {
    var front, last := cells[..|cells| - 1], cells[|cells| - 1];
    if |cells| > 1 {
      EmptyAtBottom(front);
      KeptFirst(RootsOf(front), last.inputs);
    } else {
      assert front == [] && RootsOf(front) == [] && KeptBy([], last.inputs) == [];
    }
  }

  /** `Apply` can list `cells` as `ordered`. */
  ghost predicate Listed(cells: seq<Cell>, ordered: seq<Cell>) {
    exists sorted :: Listing(Built(cells), [], RootsOf(cells), sorted) && ordered == Flattened(sorted, cells)
  }
}
