/** How `remove_conflicts` sweeps rejected vertices and their progeny out of the DAG: every run of
    its two loops, for every order in which sets happen to be iterated. */
module Sweeps {
  import opened Basics
  import opened Graphs
  import opened Frontiers

  /** The history of a sweep: each removal lists the children it put on the queue, in their order. */
  datatype Sweep =
    | Start
    | Reject(prev: Sweep, vertex: Hash, children: seq<Hash>)
    | Pop(prev: Sweep, children: seq<Hash>)

  /** The vertices taken out so far, and the queue. */
  ghost function Gone(run: Sweep): set<Hash> {
    match run
    case Start => {}
    case Reject(prev, x, _) => Gone(prev) + {x}
    case Pop(prev, _) => if Queue(prev) == [] then Gone(prev) else Gone(prev) + {Queue(prev)[0]}
  }

  ghost function Queue(run: Sweep): seq<Hash> {
    match run
    case Start => []
    case Reject(prev, _, children) => Queue(prev) + children
    case Pop(prev, children) => (if Queue(prev) == [] then [] else Queue(prev)[1..]) + children
  }

  /** The vertices that left the queue, in order. */
  ghost function Popped(run: Sweep): seq<Hash> {
    match run
    case Start => []
    case Reject(prev, _, _) => Popped(prev)
    case Pop(prev, _) => if Queue(prev) == [] then Popped(prev) else Popped(prev) + [Queue(prev)[0]]
  }

  /** Everything that was ever put on the queue, in order. */
  ghost function Enqueued(run: Sweep): seq<Hash> {
    match run
    case Start => []
    case Reject(prev, _, children) => Enqueued(prev) + children
    case Pop(prev, children) => Enqueued(prev) + children
  }

  /** `children` lists the children of `x` that are still in the DAG, in any order. */
  ghost predicate ListsChildren(inv: Graph, x: Hash, gone: set<Hash>, children: seq<Hash>) {
    x in inv && Distinct(children) && Elems(children) == Elems(inv[x]) - gone
  }

  /** First the rejected vertices go, then the queue is worked off until it is empty or its head is
      gone already. */
  ghost predicate Fair(inv: Graph, rejected: set<Hash>, run: Sweep) {
    match run
    case Start => true
    case Reject(prev, x, children) =>
      && Fair(inv, rejected, prev) && Popped(prev) == [] && x in rejected && x !in Gone(prev)
      && ListsChildren(inv, x, Gone(prev), children)
    case Pop(prev, children) =>
      && Fair(inv, rejected, prev) && rejected <= Gone(prev)
      && Queue(prev) != [] && Queue(prev)[0] !in Gone(prev)
      && ListsChildren(inv, Queue(prev)[0], Gone(prev), children)
  }

  /** The sweep ends well. */
  ghost predicate Finished(rejected: set<Hash>, run: Sweep) {
    rejected <= Gone(run) && Queue(run) == []
  }

  /** The sweep stops early: the head of the queue is no longer in the conflict graph. */
  ghost predicate Stuck(rejected: set<Hash>, run: Sweep) {
    rejected <= Gone(run) && Queue(run) != [] && Queue(run)[0] in Gone(run)
  }

  /** The head of the queue of a sweep that stops early: its status was written before it was missed. */
  ghost function Again(run: Sweep): set<Hash> {
    if Queue(run) == [] then {} else {Queue(run)[0]}
  }

  /** A rejected vertex is queued only as a child of a rejected one. */
  lemma {:induction false} RejectedQueued(inv: Graph, rejected: set<Hash>, run: Sweep, r: Hash)
    requires Fair(inv, rejected, run) && r in rejected && r in Queue(run)
    ensures exists u :: u in rejected && Edge(inv, u, r)
  {
    match run
    case Start =>
    case Reject(prev, x, children) =>
      if r in Queue(prev) {
        RejectedQueued(inv, rejected, prev, r);
      } else {
        assert r in Elems(children) && Edge(inv, x, r);
      }
    case Pop(prev, children) =>
      assert r !in Elems(children);
      assert r in Queue(prev);
      RejectedQueued(inv, rejected, prev, r);
  }

  /** Every child of a removed vertex is removed or queued, and nothing else is. */
  lemma {:induction false} SweepInside(inv: Graph, rejected: set<Hash>, run: Sweep)
    requires Closed(inv) && rejected <= inv.Keys && Fair(inv, rejected, run)
    ensures Gone(run) <= Progeny(inv, rejected) && Elems(Queue(run)) <= Progeny(inv, rejected)
    ensures forall x, c :: x in Gone(run) && Edge(inv, x, c) ==> c in Gone(run) || c in Queue(run)
  {
    ProgenyClosed(inv, rejected);
    match run
    case Start =>
    case Reject(prev, x, children) =>
      SweepInside(inv, rejected, prev);
      ChildrenInside(inv, rejected, x, Gone(prev), children);
    case Pop(prev, children) =>
      SweepInside(inv, rejected, prev);
      var x := Queue(prev)[0];
      assert x in Elems(Queue(prev));
      ChildrenInside(inv, rejected, x, Gone(prev), children);
      forall c | c in Queue(run) ensures c in Progeny(inv, rejected) {
        assert c in Elems(Queue(prev)) || c in Elems(children);
      }
  }

  lemma ChildrenInside(inv: Graph, rejected: set<Hash>, x: Hash, gone: set<Hash>, children: seq<Hash>)
    requires Closed(inv) && rejected <= inv.Keys && x in Progeny(inv, rejected) && ListsChildren(inv, x, gone, children)
    ensures Elems(children) <= Progeny(inv, rejected)
    ensures forall c :: Edge(inv, x, c) ==> c in gone || c in children
  {
    ProgenyClosed(inv, rejected);
    forall c | c in Elems(children) ensures c in Progeny(inv, rejected) { assert Edge(inv, x, c); }
    forall c | Edge(inv, x, c) ensures c in gone || c in children {
      assert c in Elems(inv[x]) && (c in gone || c in Elems(children));
    }
  }

  /** A sweep that ends well removes exactly the rejected vertices and all their progeny. */
  lemma SweepComplete(inv: Graph, rejected: set<Hash>, run: Sweep)
    requires Closed(inv) && rejected <= inv.Keys && Fair(inv, rejected, run) && Finished(rejected, run)
    ensures Gone(run) == Progeny(inv, rejected)
  {
    SweepInside(inv, rejected, run);
    ProgenyLeast(inv, rejected, Gone(run));
  }

  /** Bookkeeping: what is gone was rejected or popped, once; what was queued was popped or waits. */
  lemma {:induction false} SweepLedger(inv: Graph, rejected: set<Hash>, run: Sweep)
    requires Fair(inv, rejected, run)
    ensures Enqueued(run) == Popped(run) + Queue(run) && Distinct(Popped(run))
    ensures Elems(Popped(run)) !! rejected && (Popped(run) != [] ==> rejected <= Gone(run))
    ensures Elems(Popped(run)) <= Gone(run) <= rejected + Elems(Popped(run))
  {
    match run
    case Start =>
    case Reject(prev, x, children) =>
      SweepLedger(inv, rejected, prev);
    case Pop(prev, children) =>
      SweepLedger(inv, rejected, prev);
      var x := Queue(prev)[0];
      assert Queue(prev) == [x] + Queue(prev)[1..];
      assert x !in Elems(Popped(prev));
      DistinctSnoc(Popped(prev), x);
  }

  /** Exactly when it ends well: no vertex is ever queued twice, nor after being rejected. */
  lemma SweepOutcome(inv: Graph, rejected: set<Hash>, run: Sweep)
    requires Fair(inv, rejected, run) && (Finished(rejected, run) || Stuck(rejected, run))
    ensures Finished(rejected, run) <==> Distinct(Enqueued(run)) && Elems(Enqueued(run)) !! rejected
  {
    SweepLedger(inv, rejected, run);
    hide Fair, Gone, Queue, Popped, Enqueued;
    if Finished(rejected, run) {
      assert Enqueued(run) == Popped(run);
    } else {
      StuckRepeats(Popped(run), Queue(run), Gone(run), rejected);
    }
  }

  /** A queue whose head is gone: it was popped before, or it was rejected. */
  lemma StuckRepeats(popped: seq<Hash>, queue: seq<Hash>, gone: set<Hash>, rejected: set<Hash>)
    requires queue != [] && queue[0] in gone && gone <= rejected + Elems(popped)
    ensures !(Distinct(popped + queue) && Elems(popped + queue) !! rejected)
  {
    assert (popped + queue)[|popped|] == queue[0];
    assert queue[0] in Elems(popped + queue);
    if queue[0] in Elems(popped) {
      var i :| 0 <= i < |popped| && popped[i] == queue[0];
      assert (popped + queue)[i] == popped[i];
    }
  }

  /** Two rejected parents of a vertex that is not rejected. */
  ghost predicate SharedChild(inv: Graph, a: Hash, b: Hash, c: Hash) {
    a != b && Edge(inv, a, c) && Edge(inv, b, c)
  }

  /** Then the sweep always stops early, whatever the order. */
  lemma SweepAlwaysStops(inv: Graph, rejected: set<Hash>, run: Sweep, a: Hash, b: Hash, c: Hash)
    requires Fair(inv, rejected, run) && a in rejected && b in rejected && c !in rejected && SharedChild(inv, a, b, c)
    ensures !Finished(rejected, run)
  {
    if Finished(rejected, run) {
      SweepOutcome(inv, rejected, run);
      SharedChildQueued(inv, rejected, run, a, b, c);
    }
  }

  lemma {:induction false} SharedChildQueued(inv: Graph, rejected: set<Hash>, run: Sweep, a: Hash, b: Hash, c: Hash)
    requires Fair(inv, rejected, run) && c !in rejected && SharedChild(inv, a, b, c)
    requires a in rejected && b in rejected
    ensures a in Gone(run) || b in Gone(run) ==> c in Enqueued(run)
    ensures a in Gone(run) && b in Gone(run) ==> !Distinct(Enqueued(run))
  {
    match run
    case Start =>
    case Reject(prev, x, children) =>
      SharedChildQueued(inv, rejected, prev, a, b, c);
      RepeatsStay(Enqueued(prev), children, c);
      SweepLedger(inv, rejected, prev);
      if x == a || x == b {
        assert c in Elems(inv[x]) && c in Elems(children);
      }
    case Pop(prev, children) =>
      SharedChildQueued(inv, rejected, prev, a, b, c);
      RepeatsStay(Enqueued(prev), children, c);
  }

  lemma RepeatsStay(s: seq<Hash>, t: seq<Hash>, c: Hash)
    ensures !Distinct(s) ==> !Distinct(s + t)
    ensures c in s && c in t ==> !Distinct(s + t)
  {
    if Distinct(s + t) {
      forall i, j | 0 <= i < j < |s| ensures s[i] != s[j] { assert (s + t)[i] != (s + t)[j]; }
      forall i, j | 0 <= i < |s| && 0 <= j < |t| ensures s[i] != t[j] { assert (s + t)[i] != (s + t)[|s| + j]; }
    }
  }

  /** A sweep that stops early can leave progeny behind: `a` and `b` are the rejected parents
      of `c`, whose child `d` stays. */
  lemma LeftBehind(a: Hash, b: Hash, c: Hash, d: Hash) returns (inv: Graph, run: Sweep)
    requires Distinct([a, b, c, d])
    ensures Closed(inv) && Acyclic(inv) && Fair(inv, {a, b}, run) && Stuck({a, b}, run)
    ensures d in Progeny(inv, {a, b}) && d !in Gone(run)
  {
    assert [a, b, c, d][0] == a && [a, b, c, d][1] == b && [a, b, c, d][2] == c && [a, b, c, d][3] == d;
    inv := map[a := [c], b := [c], c := [d], d := []];
    assert Ranked(inv, map[a := 3, b := 3, c := 2, d := 1]);
    run := DiamondRun(inv, a, b, c, d);
    hide Fair, Stuck, Acyclic, Gone;
    ReachSelf(inv, d);
    assert Edge(inv, c, d) && Edge(inv, a, c);
    ReachStep(inv, c, d, d);
    ReachStep(inv, a, c, d);
  }

  lemma GrowReject(inv: Graph, rejected: set<Hash>, run: Sweep, x: Hash, children: seq<Hash>, done: seq<Hash>)
    requires Fair(inv, rejected, run) && Popped(run) == [] && x in rejected && x !in Gone(run)
    requires ListsChildren(inv, x, Gone(run), children) && Elems(done) == Gone(run)
    ensures var next := Reject(run, x, children);
      && Fair(inv, rejected, next) && Gone(next) == Gone(run) + {x} == Elems(done + [x])
      && Queue(next) == Queue(run) + children && Popped(next) == []
  {}

  lemma FairPop(inv: Graph, rejected: set<Hash>, run: Sweep, children: seq<Hash>)
    requires Fair(inv, rejected, run) && rejected <= Gone(run) && Queue(run) != [] && Queue(run)[0] !in Gone(run)
    requires Queue(run)[0] in inv && Distinct(children) && Elems(children) == Elems(inv[Queue(run)[0]]) - Gone(run)
    ensures Fair(inv, rejected, Pop(run, children)) && rejected <= Gone(Pop(run, children))
    ensures Gone(Pop(run, children)) == Gone(run) + {Queue(run)[0]}
    ensures Queue(Pop(run, children)) == Queue(run)[1..] + children
  {}

  lemma DiamondRun(inv: Graph, a: Hash, b: Hash, c: Hash, d: Hash) returns (run: Sweep)
    requires a != b && a != c && a != d && b != c && b != d && c != d
    requires inv == map[a := [c], b := [c], c := [d], d := []]
    ensures Fair(inv, {a, b}, run) && Stuck({a, b}, run) && d !in Gone(run)
  {
    assert Gone(Start) == {} && Queue(Start) == [] && Popped(Start) == [] && Fair(inv, {a, b}, Start);
    var r1 := Reject(Start, a, [c]);
    var r2 := Reject(r1, b, [c]);
    run := Pop(r2, [d]);
    hide Fair, Gone, Queue, Popped;
    GrowReject(inv, {a, b}, Start, a, [c], []);
    GrowReject(inv, {a, b}, r1, b, [c], [a]);
    FairPop(inv, {a, b}, r2, [d]);
    assert Queue(run) == [c, d];
  }
}
