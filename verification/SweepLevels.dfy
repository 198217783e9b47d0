/** Exactly which DAGs `remove_conflicts` sweeps completely, whatever order its sets are iterated in. */
module SweepLevels {
  import opened Basics
  import opened Graphs
  import opened Frontiers
  import opened Sweeps

  /** The distance of each vertex to be removed from the rejected ones. */
  ghost predicate IsLevel(inv: Graph, rejected: set<Hash>, level: map<Hash, nat>) {
    && level.Keys == Progeny(inv, rejected)
    && (forall v | v in level :: level[v] == 0 <==> v in rejected)
    && (forall a, c | a in level && Edge(inv, a, c) :: c in level && level[c] <= level[a] + 1)
    && (forall v | v in level && level[v] > 0 :: HasNearer(inv, level, v))
  }

  ghost predicate HasNearer(inv: Graph, level: map<Hash, nat>, v: Hash) {
    exists a :: a in level && Edge(inv, a, v) && v in level && level[a] + 1 == level[v]
  }

  /** No rejected vertex is a parent of another, and every other vertex to be removed has a single
      parent among those no farther away than itself. */
  ghost predicate Orderly(inv: Graph, rejected: set<Hash>, level: map<Hash, nat>) {
    && (forall a, c | a in rejected && Edge(inv, a, c) :: c !in rejected)
    && (forall a, b, c | Crowded(inv, level, a, b, c) :: a == b)
  }

  /** The vertices to remove are orderly at their distances. */
  ghost predicate SweptInFull(inv: Graph, rejected: set<Hash>) {
    exists level :: IsLevel(inv, rejected, level) && Orderly(inv, rejected, level)
  }

  ghost predicate Crowded(inv: Graph, level: map<Hash, nat>, a: Hash, b: Hash, c: Hash) {
    && a in level && b in level && c in level && level[c] > 0
    && Edge(inv, a, c) && Edge(inv, b, c) && level[a] <= level[c] && level[b] <= level[c]
  }

  // Levels exist

  ghost predicate Measured(inv: Graph, rejected: set<Hash>, level: map<Hash, nat>, n: nat) {
    && rejected <= level.Keys <= Progeny(inv, rejected)
    && (forall v | v in level :: level[v] <= n && (level[v] == 0 <==> v in rejected))
    && (forall a, c | a in level && level[a] < n && Edge(inv, a, c) :: c in level && level[c] <= level[a] + 1)
    && (forall v | v in level && level[v] > 0 :: HasNearer(inv, level, v))
  }

  ghost function Frontier(inv: Graph, level: map<Hash, nat>, n: nat): set<Hash> {
    set a, c | a in level && level[a] == n && a in inv && c in inv[a] && c !in level :: c
  }

  lemma Levels(inv: Graph, rejected: set<Hash>) returns (level: map<Hash, nat>)
    requires Closed(inv) && rejected <= inv.Keys
    ensures IsLevel(inv, rejected, level)
  {
    ProgenyClosed(inv, rejected);
    level := map r | r in rejected :: 0;
    var n := 0;
    var next := Frontier(inv, level, n);
    while next != {}
      invariant Measured(inv, rejected, level, n) && next == Frontier(inv, level, n)
      decreases |Progeny(inv, rejected)| - |level|
    {
      level := MeasureNext(inv, rejected, level, n);
      n := n + 1;
      next := Frontier(inv, level, n);
    }
    MeasuredAll(inv, rejected, level, n);
  }

  lemma MeasuredAll(inv: Graph, rejected: set<Hash>, level: map<Hash, nat>, n: nat)
    requires Closed(inv) && rejected <= inv.Keys
    requires Measured(inv, rejected, level, n) && Frontier(inv, level, n) == {}
    ensures IsLevel(inv, rejected, level)
  {
    hide Progeny, HasNearer;
    forall a, c | a in level && Edge(inv, a, c) ensures c in level && level[c] <= level[a] + 1 {
      assert level[a] == n && c !in level ==> c in Frontier(inv, level, n);
    }
    ProgenyLeast(inv, rejected, level.Keys);
  }

  ghost function Farther(inv: Graph, level: map<Hash, nat>, n: nat): map<Hash, nat> {
    level + map v | v in Frontier(inv, level, n) :: n + 1
  }

  lemma FartherNear(inv: Graph, level: map<Hash, nat>, n: nat, v: Hash)
    requires v in Farther(inv, level, n) && (v in level ==> HasNearer(inv, level, v))
    ensures HasNearer(inv, Farther(inv, level, n), v)
  {
    var more := Farther(inv, level, n);
    if v in level {
      var a :| a in level && Edge(inv, a, v) && level[a] + 1 == level[v];
      assert a in more && more[a] + 1 == more[v];
    } else {
      var a :| a in level && level[a] == n && a in inv && v in inv[a];
      assert Edge(inv, a, v);
      assert a in more && more[a] + 1 == more[v];
    }
  }

  lemma FrontierInside(inv: Graph, rejected: set<Hash>, level: map<Hash, nat>, n: nat)
    requires Closed(inv) && rejected <= inv.Keys && level.Keys <= Progeny(inv, rejected)
    ensures Frontier(inv, level, n) <= Progeny(inv, rejected)
  {
    ProgenyClosed(inv, rejected);
    hide Progeny;
    forall c | c in Frontier(inv, level, n) ensures c in Progeny(inv, rejected) {
      var a :| a in level && level[a] == n && a in inv && c in inv[a];
      assert Edge(inv, a, c);
    }
  }

  lemma MeasureNext(inv: Graph, rejected: set<Hash>, level: map<Hash, nat>, n: nat) returns (more: map<Hash, nat>)
    requires Closed(inv) && rejected <= inv.Keys
    requires Measured(inv, rejected, level, n) && Frontier(inv, level, n) != {}
    ensures Measured(inv, rejected, more, n + 1) && |level| < |more| <= |Progeny(inv, rejected)|
  {
    hide Progeny, HasNearer, Closed, Frontier, Farther;
    more := Farther(inv, level, n);
    FartherGrows(inv, level, n);
    FrontierInside(inv, rejected, level, n);
    forall v | v in more && more[v] > 0 ensures HasNearer(inv, more, v) { FartherNear(inv, level, n, v); }
    forall a, c | a in more && more[a] < n + 1 && Edge(inv, a, c) ensures c in more && more[c] <= more[a] + 1 {
      FartherEdge(inv, level, n, a, c);
    }
    SubsetSize(more.Keys, Progeny(inv, rejected));
  }

  lemma FartherEdge(inv: Graph, level: map<Hash, nat>, n: nat, a: Hash, c: Hash)
    requires a in Farther(inv, level, n) && Farther(inv, level, n)[a] < n + 1 && Edge(inv, a, c)
    requires a in level && level[a] < n ==> c in level && level[c] <= level[a] + 1
    requires c in level ==> level[c] <= n
    ensures c in Farther(inv, level, n) && Farther(inv, level, n)[c] <= Farther(inv, level, n)[a] + 1
  {
    assert a in level && (c in level || c in Frontier(inv, level, n));
  }

  lemma FartherGrows(inv: Graph, level: map<Hash, nat>, n: nat)
    requires Frontier(inv, level, n) != {}
    ensures |level| < |Farther(inv, level, n)|
    ensures Farther(inv, level, n).Keys == level.Keys + Frontier(inv, level, n)
    ensures forall v | v in Farther(inv, level, n) ::
      Farther(inv, level, n)[v] == if v in level then level[v] else n + 1
  {
    var c :| c in Frontier(inv, level, n);
    assert c !in level && c in Farther(inv, level, n);
    assert Farther(inv, level, n).Keys == level.Keys + Frontier(inv, level, n);
    hide Frontier;
    assert |level.Keys + {c}| == |level| + 1;
    SubsetSize(level.Keys + {c}, Farther(inv, level, n).Keys);
  }

  // Orderly is enough

  ghost predicate HasGoneParent(inv: Graph, gone: set<Hash>, c: Hash) {
    exists a :: a in gone && Edge(inv, a, c)
  }

  ghost predicate Tracked(inv: Graph, rejected: set<Hash>, level: map<Hash, nat>, gone: set<Hash>, queue: seq<Hash>) {
    && gone <= level.Keys && (forall c | c in queue :: c in level && HasGoneParent(inv, gone, c))
    && (forall x, c | x in gone && Edge(inv, x, c) :: c in gone || c in queue)
  }

  lemma {:induction false} SweepTracked(inv: Graph, rejected: set<Hash>, level: map<Hash, nat>, run: Sweep)
    requires Closed(inv) && rejected <= inv.Keys && IsLevel(inv, rejected, level) && Fair(inv, rejected, run)
    ensures Tracked(inv, rejected, level, Gone(run), Queue(run))
  {
    SweepInside(inv, rejected, run);
    hide IsLevel, Closed, Progeny;
    forall c | c in Queue(run) ensures c in Elems(Queue(run)) && HasGoneParent(inv, Gone(run), c) {
      QueuedByParent(inv, rejected, run, c);
    }
    assert level.Keys == Progeny(inv, rejected) by { LevelKeys(inv, rejected, level); }
  }

  lemma LevelKeys(inv: Graph, rejected: set<Hash>, level: map<Hash, nat>)
    requires IsLevel(inv, rejected, level)
    ensures level.Keys == Progeny(inv, rejected)
  {
  }

  lemma {:induction false} QueuedByParent(inv: Graph, rejected: set<Hash>, run: Sweep, c: Hash)
    requires Fair(inv, rejected, run) && c in Queue(run)
    ensures HasGoneParent(inv, Gone(run), c)
  {
    match run
    case Start =>
    case Reject(prev, x, children) =>
      if c in Queue(prev) {
        QueuedByParent(inv, rejected, prev, c);
      } else {
        assert c in Elems(children);
        assert Edge(inv, x, c) && x in Gone(run);
      }
    case Pop(prev, children) =>
      var x := Queue(prev)[0];
      if c in Queue(prev)[1..] {
        QueuedByParent(inv, rejected, prev, c);
      } else {
        assert c in Elems(children);
        assert Edge(inv, x, c) && x in Gone(run);
      }
  }

  lemma Nearer(inv: Graph, rejected: set<Hash>, level: map<Hash, nat>, v: Hash) returns (a: Hash)
    requires IsLevel(inv, rejected, level) && v in level && level[v] > 0
    ensures a in level && Edge(inv, a, v) && level[a] + 1 == level[v]
  {
    assert HasNearer(inv, level, v);
    a :| a in level && Edge(inv, a, v) && level[a] + 1 == level[v];
  }

  lemma RejectedAtZero(inv: Graph, rejected: set<Hash>, level: map<Hash, nat>, v: Hash)
    requires IsLevel(inv, rejected, level) && v in level
    ensures level[v] == 0 <==> v in rejected
  {
    hide HasNearer, Progeny;
  }

  lemma ChildLevel(inv: Graph, rejected: set<Hash>, level: map<Hash, nat>, a: Hash, c: Hash)
    requires IsLevel(inv, rejected, level) && a in level && Edge(inv, a, c)
    ensures c in level && level[c] <= level[a] + 1
  {
    hide HasNearer, Progeny;
  }

  lemma GoneParent(inv: Graph, rejected: set<Hash>, level: map<Hash, nat>, gone: set<Hash>, queue: seq<Hash>, c: Hash)
    returns (a: Hash)
    requires Tracked(inv, rejected, level, gone, queue) && c in queue
    ensures c in level && a in gone && a in level && Edge(inv, a, c)
  {
    assert HasGoneParent(inv, gone, c);
    a :| a in gone && Edge(inv, a, c);
  }

  lemma ChildOfGone(inv: Graph, rejected: set<Hash>, level: map<Hash, nat>, gone: set<Hash>, queue: seq<Hash>, x: Hash,
                    c: Hash)
    requires Tracked(inv, rejected, level, gone, queue) && x in gone && Edge(inv, x, c)
    ensures c in gone || c in queue
  {
    hide HasGoneParent;
  }

  /** The queue is sorted by level, spans at most two levels, and nothing gone is farther than its head. */
  ghost predicate Sorted(level: map<Hash, nat>, gone: set<Hash>, queue: seq<Hash>) {
    && gone <= level.Keys && (forall i | 0 <= i < |queue| :: queue[i] in level)
    && Distinct(queue) && Elems(queue) !! gone
    && (forall i, j | 0 <= i < j < |queue| :: level[queue[i]] <= level[queue[j]])
    && (forall i | 0 <= i < |queue| :: level[queue[i]] <= level[queue[0]] + 1)
    && (forall x | x in gone && queue != [] :: level[x] <= level[queue[0]])
  }

  /** While the head waits, everything up to its level is gone or queued. */
  lemma {:induction false} UpToHead(inv: Graph, rejected: set<Hash>, level: map<Hash, nat>, gone: set<Hash>,
                                    queue: seq<Hash>, v: Hash)
    requires IsLevel(inv, rejected, level) && rejected <= gone && queue != []
    requires Tracked(inv, rejected, level, gone, queue) && Sorted(level, gone, queue)
    requires v in level && level[v] <= level[queue[0]]
    ensures v in gone || v in queue
    decreases level[v]
  {
    if level[v] == 0 {
      assert v in rejected;
    } else {
      hide IsLevel, Tracked;
      var a := Nearer(inv, rejected, level, v);
      UpToHead(inv, rejected, level, gone, queue, a);
      assert a in gone;
      ChildOfGone(inv, rejected, level, gone, queue, a, v);
    }
  }

  lemma OnlyParent(inv: Graph, rejected: set<Hash>, level: map<Hash, nat>, a: Hash, b: Hash, c: Hash)
    requires Orderly(inv, rejected, level) && Crowded(inv, level, a, b, c)
    ensures a == b
  {
  }

  /** A child that the head of the queue puts behind it is one level farther, and new to the queue. */
  lemma HeadsChild(inv: Graph, rejected: set<Hash>, level: map<Hash, nat>, gone: set<Hash>, queue: seq<Hash>, c: Hash)
    requires IsLevel(inv, rejected, level) && Orderly(inv, rejected, level) && rejected <= gone && queue != []
    requires Tracked(inv, rejected, level, gone, queue) && Sorted(level, gone, queue)
    requires Edge(inv, queue[0], c) && c !in gone
    ensures c !in queue && c in level && level[c] == level[queue[0]] + 1
  {
    hide IsLevel, Tracked;
    var x := queue[0];
    assert x in Elems(queue);
    ChildLevel(inv, rejected, level, x, c);
    if c in queue {
      var a := GoneParent(inv, rejected, level, gone, queue, c);
      RejectedAtZero(inv, rejected, level, c);
      OnlyParent(inv, rejected, level, a, x, c);
    } else if level[c] <= level[x] {
      UpToHead(inv, rejected, level, gone, queue, c);
    }
  }

  lemma PopKeepsSorted(inv: Graph, rejected: set<Hash>, level: map<Hash, nat>, gone: set<Hash>, queue: seq<Hash>,
                       children: seq<Hash>)
    requires IsLevel(inv, rejected, level) && Orderly(inv, rejected, level) && rejected <= gone && queue != []
    requires Tracked(inv, rejected, level, gone, queue) && Sorted(level, gone, queue)
    requires ListsChildren(inv, queue[0], gone, children)
    ensures Sorted(level, gone + {queue[0]}, queue[1..] + children)
  {
    assert queue[0] in level;
    hide IsLevel, Orderly, Tracked, Sorted;
    forall k | 0 <= k < |children|
      ensures children[k] !in queue && children[k] !in gone
      ensures children[k] in level && level[children[k]] == level[queue[0]] + 1
    {
      assert children[k] in Elems(children);
      assert Edge(inv, queue[0], children[k]);
      HeadsChild(inv, rejected, level, gone, queue, children[k]);
    }
    SortedStep(level, gone, queue, children);
  }

  lemma SortedStep(level: map<Hash, nat>, gone: set<Hash>, queue: seq<Hash>, children: seq<Hash>)
    requires Sorted(level, gone, queue) && queue != [] && Distinct(children)
    requires forall k | 0 <= k < |children| :: children[k] !in queue && children[k] !in gone
    requires forall k | 0 <= k < |children| :: children[k] in level && level[children[k]] == level[queue[0]] + 1
    ensures Sorted(level, gone + {queue[0]}, queue[1..] + children)
  {
    assert queue[0] in Elems(queue);
    SortedDistinct(gone, queue, children);
    SortedLevels(level, queue, children);
    hide Distinct, Elems;
    var x, after := queue[0], queue[1..] + children;
    if after != [] { assert level[x] <= level[after[0]]; }
  }

  lemma SortedLevels(level: map<Hash, nat>, queue: seq<Hash>, children: seq<Hash>)
    requires queue != [] && (forall i | 0 <= i < |queue| :: queue[i] in level)
    requires forall i, j | 0 <= i < j < |queue| :: level[queue[i]] <= level[queue[j]]
    requires forall i | 0 <= i < |queue| :: level[queue[i]] <= level[queue[0]] + 1
    requires forall k | 0 <= k < |children| :: children[k] in level && level[children[k]] == level[queue[0]] + 1
    ensures var after := queue[1..] + children;
      && (forall i | 0 <= i < |after| :: after[i] in level && level[queue[0]] <= level[after[i]] <= level[queue[0]] + 1)
      && (forall i, j | 0 <= i < j < |after| :: level[after[i]] <= level[after[j]])
  {
    var x, rest := queue[0], queue[1..];
    var after := rest + children;
    forall i | 0 <= i < |after| ensures after[i] in level && level[x] <= level[after[i]] <= level[x] + 1 {
      if i < |rest| { assert after[i] == queue[i + 1]; } else { assert after[i] == children[i - |rest|]; }
    }
    forall i, j | 0 <= i < j < |after| ensures level[after[i]] <= level[after[j]] {
      if j < |rest| {
        assert after[i] == queue[i + 1] && after[j] == queue[j + 1];
      } else {
        assert after[j] == children[j - |rest|];
      }
    }
  }

  lemma SortedDistinct(gone: set<Hash>, queue: seq<Hash>, children: seq<Hash>)
    requires Distinct(queue) && queue != [] && Elems(queue) !! gone && Distinct(children)
    requires forall k | 0 <= k < |children| :: children[k] !in queue && children[k] !in gone
    ensures Distinct(queue[1..] + children) && Elems(queue[1..] + children) !! gone + {queue[0]}
  {
    var rest := queue[1..];
    assert forall c | c in rest :: c in queue && c in Elems(queue) && c != queue[0];
    DistinctConcat(rest, children);
  }

  /** While the rejected vertices go, only their children are queued. */
  ghost predicate Fresh(rejected: set<Hash>, level: map<Hash, nat>, gone: set<Hash>, queue: seq<Hash>) {
    && gone <= rejected && gone <= level.Keys && Distinct(queue)
    && (forall i | 0 <= i < |queue| :: queue[i] in level && level[queue[i]] == 1)
  }

  lemma FreshSorted(inv: Graph, rejected: set<Hash>, level: map<Hash, nat>, gone: set<Hash>, queue: seq<Hash>)
    requires IsLevel(inv, rejected, level) && Fresh(rejected, level, gone, queue)
    ensures Sorted(level, gone, queue)
  {
    hide Progeny, HasNearer;
    forall c | c in Elems(queue) ensures c !in gone { assert c in level && level[c] == 1; }
  }

  lemma RejectKeepsFresh(inv: Graph, rejected: set<Hash>, level: map<Hash, nat>, gone: set<Hash>, queue: seq<Hash>,
                         x: Hash, children: seq<Hash>)
    requires IsLevel(inv, rejected, level) && Orderly(inv, rejected, level) && x in rejected && x in level && x !in gone
    requires Tracked(inv, rejected, level, gone, queue) && Fresh(rejected, level, gone, queue)
    requires ListsChildren(inv, x, gone, children)
    ensures Fresh(rejected, level, gone + {x}, queue + children)
  {
    hide IsLevel, Orderly, Tracked;
    forall k | 0 <= k < |children|
      ensures children[k] !in queue && children[k] in level && level[children[k]] == 1
    {
      assert children[k] in Elems(children);
      assert Edge(inv, x, children[k]);
      RejectsChild(inv, rejected, level, gone, queue, x, children[k]);
    }
    DistinctConcat(queue, children);
  }

  lemma RejectsChild(inv: Graph, rejected: set<Hash>, level: map<Hash, nat>, gone: set<Hash>, queue: seq<Hash>,
                     x: Hash, c: Hash)
    requires IsLevel(inv, rejected, level) && Orderly(inv, rejected, level) && x in rejected && x in level && x !in gone
    requires Tracked(inv, rejected, level, gone, queue) && gone <= rejected && Edge(inv, x, c)
    ensures c !in queue && c in level && level[c] == 1
  {
    hide Progeny, HasNearer;
    assert c in level && level[c] == 1;
    assert forall a | a in gone && Edge(inv, a, c) :: Crowded(inv, level, a, x, c);
  }

  lemma {:induction false} SweepSorted(inv: Graph, rejected: set<Hash>, level: map<Hash, nat>, run: Sweep)
    requires Closed(inv) && rejected <= inv.Keys && IsLevel(inv, rejected, level) && Orderly(inv, rejected, level)
    requires Fair(inv, rejected, run)
    ensures Sorted(level, Gone(run), Queue(run))
    ensures Popped(run) == [] ==> Fresh(rejected, level, Gone(run), Queue(run))
  {
    hide IsLevel, Orderly, Sorted, Tracked, Closed;
    if run.Start? {
      FreshSorted(inv, rejected, level, {}, []);
    } else {
      SweepSorted(inv, rejected, level, run.prev);
      SweepTracked(inv, rejected, level, run.prev);
      var gone, queue := Gone(run.prev), Queue(run.prev);
      if run.Reject? {
        RejectedLevel(inv, rejected, level, run.vertex);
        RejectKeepsFresh(inv, rejected, level, gone, queue, run.vertex, run.children);
        FreshSorted(inv, rejected, level, Gone(run), Queue(run));
      } else {
        PopKeepsSorted(inv, rejected, level, gone, queue, run.children);
      }
    }
  }

  lemma RejectedLevel(inv: Graph, rejected: set<Hash>, level: map<Hash, nat>, x: Hash)
    requires Closed(inv) && rejected <= inv.Keys && IsLevel(inv, rejected, level) && x in rejected
    ensures x in level && level[x] == 0
  {
    ProgenyClosed(inv, rejected);
  }

  /** In an orderly DAG the sweep cannot stop early. */
  lemma OrderlyFinishes(inv: Graph, rejected: set<Hash>, level: map<Hash, nat>, run: Sweep)
    requires Closed(inv) && rejected <= inv.Keys && IsLevel(inv, rejected, level) && Orderly(inv, rejected, level)
    requires Fair(inv, rejected, run)
    ensures !Stuck(rejected, run)
  {
    SweepSorted(inv, rejected, level, run);
    if Queue(run) != [] { assert Queue(run)[0] in Elems(Queue(run)); }
  }

  // Orderly is needed

  lemma HeadInside(inv: Graph, rejected: set<Hash>, run: Sweep)
    requires Closed(inv) && rejected <= inv.Keys && Fair(inv, rejected, run) && Queue(run) != []
    ensures Queue(run)[0] in inv
  {
    SweepInside(inv, rejected, run);
    assert Queue(run)[0] in Elems(Queue(run));
  }

  /** Every sweep can be carried on until it ends well or stops early. */
  lemma {:induction false} Complete(inv: Graph, rejected: set<Hash>, run: Sweep) returns (full: Sweep)
    requires Closed(inv) && rejected <= inv.Keys && Fair(inv, rejected, run)
    ensures Fair(inv, rejected, full) && (Finished(rejected, full) || Stuck(rejected, full))
    ensures Enqueued(run) <= Enqueued(full)
    decreases inv.Keys - Gone(run)
  {
    SweepLedger(inv, rejected, run);
    if !(rejected <= Gone(run)) {
      var x :| x in rejected && x !in Gone(run);
      var children := ListSet(Elems(inv[x]) - Gone(run));
      full := Complete(inv, rejected, Reject(run, x, children));
    } else if Queue(run) == [] || Queue(run)[0] in Gone(run) {
      full := run;
    } else {
      var x := Queue(run)[0];
      HeadInside(inv, rejected, run);
      var children := ListSet(Elems(inv[x]) - Gone(run));
      full := Complete(inv, rejected, Pop(run, children));
    }
  }

  /** Something was queued twice, or though it was rejected. */
  ghost predicate Doomed(rejected: set<Hash>, run: Sweep) {
    !Distinct(Enqueued(run)) || !(Elems(Enqueued(run)) !! rejected)
  }

  lemma DoomedStops(inv: Graph, rejected: set<Hash>, run: Sweep) returns (full: Sweep)
    requires Closed(inv) && rejected <= inv.Keys && Fair(inv, rejected, run) && Doomed(rejected, run)
    ensures Fair(inv, rejected, full) && Stuck(rejected, full)
  {
    full := Complete(inv, rejected, run);
    SweepOutcome(inv, rejected, full);
    var before, after := Enqueued(run), Enqueued(full);
    assert after == before + after[|before|..];
    RepeatsStay(before, after[|before|..], Hash(0));
    assert forall x | x in Elems(before) :: x in Elems(after);
  }

  /** The vertex `p` waits at position `k`, and everything nearer is gone or ahead of it. */
  ghost predicate Steered(rejected: set<Hash>, level: map<Hash, nat>, gone: set<Hash>, queue: seq<Hash>, k: nat,
                          p: Hash) {
    && rejected <= gone <= level.Keys && k < |queue| && queue[k] == p && p in level
    && (forall j | 0 <= j < k :: queue[j] in level && level[queue[j]] < level[p])
    && (forall x | x in gone :: level[x] < level[p])
    && (forall v | v in level && level[v] < level[p] :: v in gone || v in queue[..k])
  }

  lemma SteeredPop(rejected: set<Hash>, level: map<Hash, nat>, gone: set<Hash>, queue: seq<Hash>, k: nat, p: Hash,
                   children: seq<Hash>)
    requires Steered(rejected, level, gone, queue, k, p) && k > 0
    ensures Steered(rejected, level, gone + {queue[0]}, queue[1..] + children, k - 1, p)
  {
    var after := queue[1..] + children;
    assert forall j | 0 <= j < k :: after[j] == queue[j + 1];
    assert queue[..k] == [queue[0]] + after[..k - 1];
  }

  /** Carries the sweep on until the vertex now at position `j`, not behind `p`, is at the head. */
  lemma {:induction false} DrainTo(inv: Graph, rejected: set<Hash>, level: map<Hash, nat>, run: Sweep, k: nat, p: Hash,
                                   j: nat)
    returns (out: Sweep)
    requires Closed(inv) && rejected <= inv.Keys && Fair(inv, rejected, run)
    requires Steered(rejected, level, Gone(run), Queue(run), k, p) && j <= k
    ensures Fair(inv, rejected, out)
    ensures Stuck(rejected, out) || (
      && Queue(out) != [] && Queue(out)[0] == Queue(run)[j]
      && Steered(rejected, level, Gone(out), Queue(out), k - j, p))
    decreases j
  {
    hide Steered, Closed, Progeny;
    out := run;
    if j == 0 {
      SteeredQueue(rejected, level, Gone(run), Queue(run), k, p);
    } else if !Stuck(rejected, run) {
      SteeredQueue(rejected, level, Gone(run), Queue(run), k, p);
      var x := Queue(run)[0];
      HeadInside(inv, rejected, run);
      var children := ListSet(Elems(inv[x]) - Gone(run));
      SteeredPop(rejected, level, Gone(run), Queue(run), k, p, children);
      out := DrainTo(inv, rejected, level, Pop(run, children), k - 1, p, j - 1);
    }
  }

  lemma SteeredQueue(rejected: set<Hash>, level: map<Hash, nat>, gone: set<Hash>, queue: seq<Hash>, k: nat, p: Hash)
    requires Steered(rejected, level, gone, queue, k, p)
    ensures k < |queue| && rejected <= gone
  {
  }

  /** From the head `a`, which lists its child `b` first, on to `b`. */
  lemma SteeredNext(inv: Graph, rejected: set<Hash>, level: map<Hash, nat>, gone: set<Hash>, queue: seq<Hash>,
                    a: Hash, b: Hash, children: seq<Hash>)
    requires IsLevel(inv, rejected, level) && Tracked(inv, rejected, level, gone, queue)
    requires Steered(rejected, level, gone, queue, 0, a)
    requires b in level && level[b] == level[a] + 1 && children != [] && children[0] == b
    ensures Steered(rejected, level, gone + {a}, queue[1..] + children, |queue| - 1, b)
  {
    hide IsLevel, Tracked;
    var rest := queue[1..];
    assert rejected <= gone + {a} <= level.Keys;
    assert forall x | x in gone + {a} :: level[x] < level[b];
    forall j | 0 <= j < |rest| ensures rest[j] in level && level[rest[j]] < level[b] {
      assert rest[j] == queue[j + 1] && rest[j] in queue;
      QueuedNear(inv, rejected, level, gone, queue, a, rest[j]);
    }
    forall v | v in level && level[v] < level[b] ensures v in gone + {a} || v in rest {
      NearGone(inv, rejected, level, gone, queue, a, v);
    }
    hide Steered;
    SteeredAt(rejected, level, gone + {a}, rest, children, b);
  }

  lemma QueuedNear(inv: Graph, rejected: set<Hash>, level: map<Hash, nat>, gone: set<Hash>, queue: seq<Hash>, a: Hash,
                   v: Hash)
    requires IsLevel(inv, rejected, level) && Tracked(inv, rejected, level, gone, queue)
    requires Steered(rejected, level, gone, queue, 0, a) && v in queue
    ensures v in level && level[v] <= level[a]
  {
    hide IsLevel, Tracked;
    var z := GoneParent(inv, rejected, level, gone, queue, v);
    ChildLevel(inv, rejected, level, z, v);
  }

  lemma SteeredAt(rejected: set<Hash>, level: map<Hash, nat>, gone: set<Hash>, rest: seq<Hash>, children: seq<Hash>,
                  b: Hash)
    requires rejected <= gone <= level.Keys && children != [] && children[0] == b && b in level
    requires forall x | x in gone :: level[x] < level[b]
    requires forall j | 0 <= j < |rest| :: rest[j] in level && level[rest[j]] < level[b]
    requires forall v | v in level && level[v] < level[b] :: v in gone || v in rest
    ensures Steered(rejected, level, gone, rest + children, |rest|, b)
  {
    assert (rest + children)[..|rest|] == rest;
  }

  lemma NearGone(inv: Graph, rejected: set<Hash>, level: map<Hash, nat>, gone: set<Hash>, queue: seq<Hash>, a: Hash,
                 v: Hash)
    requires IsLevel(inv, rejected, level) && Tracked(inv, rejected, level, gone, queue)
    requires Steered(rejected, level, gone, queue, 0, a) && v in level && level[v] <= level[a]
    ensures v in gone || v == a || v in queue[1..]
    ensures level[v] < level[a] ==> v in gone
  {
    hide IsLevel, Tracked;
    assert queue[..0] == [] && queue == [a] + queue[1..];
    if level[v] == level[a] {
      RejectedAtZero(inv, rejected, level, v);
      if level[v] > 0 {
        var z := Nearer(inv, rejected, level, v);
        assert z in gone;
        ChildOfGone(inv, rejected, level, gone, queue, z, v);
      }
    }
  }

  /** A sweep in which `b` comes to the head before anything as far away as `b` is gone. */
  lemma {:induction false} SteerTo(inv: Graph, rejected: set<Hash>, level: map<Hash, nat>, b: Hash) returns (run: Sweep)
    requires Closed(inv) && rejected <= inv.Keys && IsLevel(inv, rejected, level) && b in level && level[b] > 0
    ensures Fair(inv, rejected, run)
    ensures Stuck(rejected, run) || Steered(rejected, level, Gone(run), Queue(run), 0, b)
    decreases level[b]
  {
    hide IsLevel, Steered, Fair, Closed;
    var a := Nearer(inv, rejected, level, b);
    if level[a] == 0 {
      RejectedAtZero(inv, rejected, level, a);
      run := RejectFirst(inv, rejected, level, a, b);
    } else {
      var before := SteerTo(inv, rejected, level, a);
      run := before;
      if !Stuck(rejected, before) {
        var k;
        run, k := PopListing(inv, rejected, level, before, a, b);
        run := DrainTo(inv, rejected, level, run, k, b, k);
      }
    }
  }

  lemma SteeredHead(rejected: set<Hash>, level: map<Hash, nat>, gone: set<Hash>, queue: seq<Hash>, a: Hash, b: Hash)
    requires Steered(rejected, level, gone, queue, 0, a) && b in level && level[a] <= level[b]
    ensures queue != [] && queue[0] == a && rejected <= gone && a !in gone && b !in gone
  {
  }

  /** Removes the head, with `b` as the first child listed. */
  lemma PopListing(inv: Graph, rejected: set<Hash>, level: map<Hash, nat>, run: Sweep, a: Hash, b: Hash)
    returns (out: Sweep, k: nat)
    requires Closed(inv) && rejected <= inv.Keys && IsLevel(inv, rejected, level) && Fair(inv, rejected, run)
    requires Steered(rejected, level, Gone(run), Queue(run), 0, a)
    requires b in level && level[b] == level[a] + 1 && Edge(inv, a, b)
    ensures Fair(inv, rejected, out) && Steered(rejected, level, Gone(out), Queue(out), k, b)
    ensures k == |Queue(run)| - 1 && Queue(run)[1..] <= Queue(out)
  {
    hide IsLevel, Tracked, Steered, Closed;
    SweepTracked(inv, rejected, level, run);
    SteeredHead(rejected, level, Gone(run), Queue(run), a, b);
    var children := ListFirst(Elems(inv[a]) - Gone(run), b);
    SteeredNext(inv, rejected, level, Gone(run), Queue(run), a, b, children);
    out, k := Pop(run, children), |Queue(run)| - 1;
  }

  /** Rejects `a` first, with `b` as the first child listed, and then the others. */
  lemma RejectFirst(inv: Graph, rejected: set<Hash>, level: map<Hash, nat>, a: Hash, b: Hash) returns (run: Sweep)
    requires Closed(inv) && rejected <= inv.Keys && IsLevel(inv, rejected, level) && a in rejected
    requires b in level && level[b] == 1 && Edge(inv, a, b)
    ensures Fair(inv, rejected, run) && Steered(rejected, level, Gone(run), Queue(run), 0, b)
  {
    var children := ListFirst(Elems(inv[a]) - {}, b);
    run := RejectRest(inv, rejected, Reject(Start, a, children));
    assert Queue(run)[0] == b;
    assert Gone(run) == rejected;
    forall v | v in level ensures level[v] == 0 <==> v in rejected { RejectedAtZero(inv, rejected, level, v); }
    forall x | x in rejected ensures x in level { RejectedLevel(inv, rejected, level, x); }
  }

  lemma {:induction false} RejectRest(inv: Graph, rejected: set<Hash>, run: Sweep) returns (out: Sweep)
    requires rejected <= inv.Keys && Fair(inv, rejected, run) && Popped(run) == [] && Gone(run) <= rejected
    ensures Fair(inv, rejected, out) && Popped(out) == [] && Gone(out) == rejected && Queue(run) <= Queue(out)
    decreases rejected - Gone(run)
  {
    out := run;
    if Gone(run) != rejected {
      var x :| x in rejected && x !in Gone(run);
      var children := ListSet(Elems(inv[x]) - Gone(run));
      out := RejectRest(inv, rejected, Reject(run, x, children));
    }
  }

  /** Removing the head while its child `c` waits in the queue queues `c` twice. */
  lemma QueuedTwice(inv: Graph, rejected: set<Hash>, run: Sweep, c: Hash) returns (full: Sweep)
    requires Closed(inv) && rejected <= inv.Keys && Fair(inv, rejected, run) && rejected <= Gone(run)
    requires Queue(run) != [] && Queue(run)[0] !in Gone(run) && Edge(inv, Queue(run)[0], c)
    requires c in Queue(run) && c !in Gone(run)
    ensures Fair(inv, rejected, full) && Stuck(rejected, full)
  {
    hide Closed;
    var children := ListSet(Elems(inv[Queue(run)[0]]) - Gone(run));
    assert c in Elems(children);
    SweepLedger(inv, rejected, run);
    RepeatsStay(Enqueued(run), children, c);
    full := DoomedStops(inv, rejected, Pop(run, children));
  }

  /** The other parent is as far away as `c`. */
  lemma LevelParentStops(inv: Graph, rejected: set<Hash>, level: map<Hash, nat>, b: Hash, c: Hash) returns (full: Sweep)
    requires Closed(inv) && rejected <= inv.Keys && IsLevel(inv, rejected, level)
    requires b in level && c in level && level[b] == level[c] > 0 && Edge(inv, b, c)
    ensures Fair(inv, rejected, full) && Stuck(rejected, full)
  {
    hide IsLevel, Steered, Tracked, Closed, Fair;
    full := SteerTo(inv, rejected, level, b);
    if !Stuck(rejected, full) {
      var gone, queue := Gone(full), Queue(full);
      SweepTracked(inv, rejected, level, full);
      SteeredHead(rejected, level, gone, queue, b, c);
      NearGone(inv, rejected, level, gone, queue, b, c);
      assert queue == [b] + queue[1..];
      full := QueuedTwice(inv, rejected, full, c);
    }
  }

  /** Both parents are one level nearer than `c`, and not rejected. */
  lemma NearParentsStop(inv: Graph, rejected: set<Hash>, level: map<Hash, nat>, a: Hash, b: Hash, c: Hash)
    returns (full: Sweep)
    requires Closed(inv) && rejected <= inv.Keys && IsLevel(inv, rejected, level) && a != b
    requires a in level && b in level && c in level && level[a] == level[b] > 0 && level[c] == level[b] + 1
    requires Edge(inv, a, c) && Edge(inv, b, c)
    ensures Fair(inv, rejected, full) && Stuck(rejected, full)
  {
    hide IsLevel, Steered, Tracked, Closed, Fair;
    var run := SteerTo(inv, rejected, level, b);
    full := run;
    if !Stuck(rejected, run) {
      SweepTracked(inv, rejected, level, run);
      SteeredHead(rejected, level, Gone(run), Queue(run), b, a);
      NearGone(inv, rejected, level, Gone(run), Queue(run), b, a);
      var j :| 0 <= j < |Queue(run)[1..]| && Queue(run)[1..][j] == a;
      var next, k := PopListing(inv, rejected, level, run, b, c);
      assert Queue(next)[j] == a;
      var last := DrainTo(inv, rejected, level, next, k, c, j);
      full := last;
      if !Stuck(rejected, last) {
        SteeredHas(rejected, level, Gone(last), Queue(last), k - j, c);
        full := QueuedTwice(inv, rejected, last, c);
      }
    }
  }

  lemma SteeredHas(rejected: set<Hash>, level: map<Hash, nat>, gone: set<Hash>, queue: seq<Hash>, k: nat, p: Hash)
    requires Steered(rejected, level, gone, queue, k, p)
    ensures p in queue && p !in gone && rejected <= gone
  {
  }

  lemma CrowdedStops(inv: Graph, rejected: set<Hash>, level: map<Hash, nat>, u: Hash, w: Hash, c: Hash)
    returns (full: Sweep)
    requires Closed(inv) && rejected <= inv.Keys && IsLevel(inv, rejected, level)
    requires Crowded(inv, level, u, w, c) && u != w
    ensures Fair(inv, rejected, full) && Stuck(rejected, full)
  {
    hide IsLevel, Closed, Fair, Stuck;
    var a := Nearer(inv, rejected, level, c);
    var b := if u != a then u else w;
    ChildLevel(inv, rejected, level, b, c);
    if level[b] == level[c] {
      full := LevelParentStops(inv, rejected, level, b, c);
    } else if level[b] > 0 {
      full := NearParentsStop(inv, rejected, level, a, b, c);
    } else {
      RejectedAtZero(inv, rejected, level, a);
      RejectedAtZero(inv, rejected, level, b);
      RejectedAtZero(inv, rejected, level, c);
      assert Fair(inv, rejected, Start) by { StartFair(inv, rejected); }
      full := Complete(inv, rejected, Start);
      SweepAlwaysStops(inv, rejected, full, a, b, c);
    }
  }

  lemma StartFair(inv: Graph, rejected: set<Hash>)
    ensures Fair(inv, rejected, Start)
  {
  }

  lemma RejectedParentStops(inv: Graph, rejected: set<Hash>, a: Hash, c: Hash) returns (full: Sweep)
    requires Closed(inv) && rejected <= inv.Keys && a in rejected && c in rejected && Edge(inv, a, c)
    ensures Fair(inv, rejected, full) && Stuck(rejected, full)
  {
    hide Closed;
    var children := ListSet(Elems(inv[a]) - {});
    assert c in Elems(children);
    var run := Reject(Start, a, children);
    assert Enqueued(run) == children;
    full := DoomedStops(inv, rejected, run);
  }

  /** In whatever order the sets are iterated, the sweep runs to its end, with exactly the rejected
      vertices and their progeny removed, if and only if the DAG is orderly. */
  lemma SweepExact(inv: Graph, rejected: set<Hash>, level: map<Hash, nat>)
    requires Closed(inv) && rejected <= inv.Keys && IsLevel(inv, rejected, level)
    ensures Orderly(inv, rejected, level) <==>
      forall run | Fair(inv, rejected, run) && (Finished(rejected, run) || Stuck(rejected, run)) ::
        Finished(rejected, run) && Gone(run) == Progeny(inv, rejected)
  {
    hide IsLevel, Closed, Fair, Gone, Progeny;
    if Orderly(inv, rejected, level) {
      forall run | Fair(inv, rejected, run) && (Finished(rejected, run) || Stuck(rejected, run))
        ensures Finished(rejected, run) && Gone(run) == Progeny(inv, rejected)
      {
        OrderlyFinishes(inv, rejected, level, run);
        SweepComplete(inv, rejected, run);
      }
    } else if a, c :| a in rejected && Edge(inv, a, c) && c in rejected {
      var full := RejectedParentStops(inv, rejected, a, c);
      assert !Finished(rejected, full);
    } else {
      var a, b, c :| Crowded(inv, level, a, b, c) && a != b;
      var full := CrowdedStops(inv, rejected, level, a, b, c);
      assert !Finished(rejected, full);
    }
  }

  /** Whatever the order, a rejected vertex is not met again in the queue if and only if it is no child of
      a rejected one. */
  lemma RejectedStays(inv: Graph, rejected: set<Hash>, r: Hash)
    requires Closed(inv) && rejected <= inv.Keys && r in rejected
    ensures (forall u | u in rejected :: !Edge(inv, u, r)) <==>
      forall run | Fair(inv, rejected, run) && (Finished(rejected, run) || Stuck(rejected, run)) :: r !in Again(run)
  {
    hide Closed, Fair, Finished, Stuck;
    if u :| u in rejected && Edge(inv, u, r) {
      var run := MeetsAgain(inv, rejected, u, r);
    } else {
      forall run | Fair(inv, rejected, run) && r in Again(run) ensures false {
        RejectedQueued(inv, rejected, run, r);
      }
    }
  }

  lemma MeetsAgain(inv: Graph, rejected: set<Hash>, u: Hash, r: Hash) returns (run: Sweep)
    requires rejected <= inv.Keys && u in rejected && r in rejected && Edge(inv, u, r)
    ensures Fair(inv, rejected, run) && Stuck(rejected, run) && Again(run) == {r}
  {
    var children := ListFirst(Elems(inv[u]) - {}, r);
    run := RejectRest(inv, rejected, Reject(Start, u, children));
    assert Queue(run)[0] == r;
  }

  lemma OrderlyOutcome(inv: Graph, rejected: set<Hash>, run: Sweep)
    requires Closed(inv) && rejected <= inv.Keys
    requires Fair(inv, rejected, run) && (Finished(rejected, run) || Stuck(rejected, run))
    ensures SweptInFull(inv, rejected) ==> Finished(rejected, run) && Gone(run) == Progeny(inv, rejected)
  {
    hide IsLevel, Orderly, Fair, Finished, Stuck, Gone, Progeny, Closed;
    if level :| IsLevel(inv, rejected, level) && Orderly(inv, rejected, level) { SweepExact(inv, rejected, level); }
  }
}
