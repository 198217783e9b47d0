/** Finality on a DAG, given the vertices `acc` that are accepted by themselves: what the accepted
    frontier covers, and why pruning above it changes nothing for consensus. */
module Frontiers {
  import opened Basics
  import opened Graphs
  import opened Dags

  /** The final vertices: those whose whole ancestry is accepted. */
  ghost function Final(g: Graph, acc: set<Hash>): set<Hash> {
    set v | v in g && Reach(g, v) <= acc
  }

  lemma FinalClosed(g: Graph, acc: set<Hash>, u: Hash)
    requires u in Final(g, acc)
    ensures Reach(g, u) <= Final(g, acc)
  {
    forall v | v in Reach(g, u) ensures v in Final(g, acc) { ReachSubset(g, u, v); }
  }

  /** Descendants of a vertex that is not final are not final. */
  lemma NotFinalAbove(g: Graph, acc: set<Hash>, u: Hash, v: Hash)
    requires Reaches(g, u, v) && v !in Final(g, acc)
    ensures u in g && u !in Final(g, acc)
  {
    ReachMember(g, u, v);
    if u in Final(g, acc) { FinalClosed(g, acc, u); }
  }

  /** A frontier covers the final vertices exactly. */
  ghost predicate IsFrontier(g: Graph, acc: set<Hash>, f: set<Hash>) {
    f <= Final(g, acc) && ReachAll(g, f) == Final(g, acc)
  }

  /** What is left when everything strictly above the frontier is pruned. */
  ghost function Survivors(g: Graph, f: set<Hash>): set<Hash> {
    g.Keys - (ReachAll(g, f) - f)
  }

  /** A vertex that is not final loses none of its descendants. */
  lemma DescendantsSurvive(g: Graph, acc: set<Hash>, f: set<Hash>, v: Hash)
    requires IsFrontier(g, acc, f) && v !in Final(g, acc)
    ensures forall u :: Reaches(g, u, v) ==> u in Survivors(g, f)
  {
    forall u | Reaches(g, u, v) ensures u in Survivors(g, f) { NotFinalAbove(g, acc, u, v); }
  }

  /** The survivors are exactly the vertices not yet final plus the frontier, and finality of every
      survivor is what it was. */
  lemma PruneKeepsFinality(g: Graph, acc: set<Hash>, f: set<Hash>)
    requires IsFrontier(g, acc, f)
    ensures var keep := Survivors(g, f); var pruned := Restrict(g, keep);
      && keep == (g.Keys - Final(g, acc)) + f
      && Final(pruned, acc) == Final(g, acc) * keep
  {
    var keep := Survivors(g, f);
    var pruned := Restrict(g, keep);
    forall v | v in keep ensures v in Final(pruned, acc) <==> v in Final(g, acc) {
      if v in Final(g, acc) {
        forall w | w in Reach(pruned, v) ensures w in acc {
          RestrictedReach(g, keep, v, w);
          ReachMember(g, v, w);
        }
      } else {
        var w :| w in Reach(g, v) && w !in acc;
        ReachSelf(g, w);
        DescendantsSurvive(g, acc, f, w);
        ReachSurvives(g, keep, v, w);
        ReachMember(pruned, v, w);
      }
    }
  }

  /** The progeny, and so the conviction, of every vertex not yet final is what it was. */
  lemma PruneKeepsConviction(g: Graph, inv: Graph, chits: map<Hash, u8>, acc: set<Hash>, f: set<Hash>, v: Hash)
    requires DagOk(g, inv) && IsFrontier(g, acc, f) && v in g && v !in Final(g, acc)
    ensures Reach(Restrict(inv, Survivors(g, f)), v) == Reach(inv, v)
    ensures ConvictionOf(Restrict(inv, Survivors(g, f)), chits, v) == ConvictionOf(inv, chits, v)
  {
    hide Survivors, Restrict, Reach, DagOk, SumOver;
    forall u ensures u in Reach(Restrict(inv, Survivors(g, f)), v) <==> u in Reach(inv, v) {
      ProgenySurvives(g, inv, acc, f, v, u);
    }
    assert Reach(Restrict(inv, Survivors(g, f)), v) == Reach(inv, v);
  }

  lemma ProgenySurvives(g: Graph, inv: Graph, acc: set<Hash>, f: set<Hash>, v: Hash, u: Hash)
    requires DagOk(g, inv) && IsFrontier(g, acc, f) && v in g && v !in Final(g, acc)
    ensures u in Reach(Restrict(inv, Survivors(g, f)), v) <==> u in Reach(inv, v)
  {
    var keep := Survivors(g, f);
    RestrictInverse(g, inv, keep);
    DescendantsSurvive(g, acc, f, v);
    hide Survivors, Restrict, Inverse, Acyclic, IsFrontier, Final;
    ReachInverse(g, inv, u, v);
    ReachInverse(Restrict(g, keep), Restrict(inv, keep), u, v);
    ReachSurvives(g, keep, u, v);
    ReachMember(inv, v, u);
    ReachMember(Restrict(inv, keep), v, u);
  }

  /** A set of final vertices that covers every final vertex met by searching from all leaves is a
      frontier: in a finite DAG every vertex is met. */
  lemma CoveringIsFrontier(g: Graph, inv: Graph, acc: set<Hash>, f: set<Hash>)
    requires DagOk(g, inv) && f <= Final(g, acc)
    requires forall leaf, v :: leaf in inv && inv[leaf] == [] && Reaches(g, leaf, v) && v in Final(g, acc)
               ==> v in ReachAll(g, f)
    ensures IsFrontier(g, acc, f)
  {
    forall v | v in Final(g, acc) ensures v in ReachAll(g, f) {
      var leaf := LeafAbove(g, inv, v);
    }
    forall v | v in ReachAll(g, f) ensures v in Final(g, acc) {
      var u :| u in f && Reaches(g, u, v);
      FinalClosed(g, acc, u);
    }
  }

  lemma ReachAllSnoc(g: Graph, f: set<Hash>, u: Hash)
    ensures ReachAll(g, f + {u}) == ReachAll(g, f) + Reach(g, u)
  {
    forall v ensures v in ReachAll(g, f + {u}) <==> v in ReachAll(g, f) + Reach(g, u) {
      if v in ReachAll(g, f + {u}) {
        var w :| w in f + {u} && Reaches(g, w, v);
      }
      if v in Reach(g, u) { assert u in f + {u}; }
    }
  }

  // removing progeny

  /** `r` and all its progeny: everything from which a vertex of `r` can be reached. */
  ghost function Progeny(inv: Graph, r: set<Hash>): set<Hash> {
    ReachAll(inv, r)
  }

  /** The least set that holds `r` and is closed under children. */
  lemma ProgenyLeast(inv: Graph, r: set<Hash>, s: set<Hash>)
    requires r <= s && ClosedUnder(inv, s)
    ensures Progeny(inv, r) <= s
  {
    forall v | v in Progeny(inv, r) ensures v in s {
      var u :| u in r && Reaches(inv, u, v);
      ReachLeast(inv, u, s);
      ReachMember(inv, u, v);
    }
  }

  lemma ProgenyClosed(inv: Graph, r: set<Hash>)
    requires Closed(inv) && r <= inv.Keys
    ensures r <= Progeny(inv, r) && ClosedUnder(inv, Progeny(inv, r))
  {
    forall u | u in r ensures u in Progeny(inv, r) { ReachSelf(inv, u); }
    forall u, v | u in Progeny(inv, r) && Edge(inv, u, v) ensures v in Progeny(inv, r) {
      var w :| w in r && Reaches(inv, w, u);
      ReachSelf(inv, v);
      ReachStep(inv, u, v, v);
      ReachTrans(inv, w, u, v);
    }
  }
}
