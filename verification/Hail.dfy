/** Conflicting blocks by height (`src/hail/conflict_map.rs`, `src/hail/conflict_set.rs`). */
module Hail {
  import opened Basics

  const BETA1: u8 := 11

  datatype ConflictSet = ConflictSet(conflicts: set<Hash>, pref: Hash, last: Hash, cnt: u8)

  type Conflicts = map<nat, ConflictSet>

  datatype HailError = InvalidBlockHeight(height: nat)

  predicate IsLowest(s: set<Hash>, h: Hash) {
    h in s && forall x | x in s :: h.digest <= x.digest
  }

  lemma LowestUnique(s: set<Hash>, a: Hash, b: Hash)
    requires IsLowest(s, a) && IsLowest(s, b)
    ensures a == b
  {
  }

  /** Whatever order the set is listed in. */
  method LowestHash(s: set<Hash>) returns (r: Option<Hash>)
    ensures r.None? <==> s == {}
    ensures r.Some? ==> IsLowest(s, r.value)
  {
    if |s| == 0 {
      return None;
    }
    var hashes := Collect(s);
    assert forall x | x in s :: x in Elems(hashes);
    assert hashes != [];
    var h := hashes[0];
    for i := 1 to |hashes|
      invariant h in hashes && forall j | 0 <= j < i :: h.digest <= hashes[j].digest
    {
      if hashes[i].digest < h.digest { h := hashes[i]; }
    }
    assert h in Elems(hashes);
    return Some(h);
  }

  method IsLowestHash(s: set<Hash>, h: Hash) returns (b: bool)
    ensures b <==> s == {} || IsLowest(s, h)
  {
    var lowest := LowestHash(s);
    if lowest.Some? && IsLowest(s, h) { LowestUnique(s, h, lowest.value); }
    return lowest.None? || lowest.value == h;
  }

  // The operations on values

  function NewSet(h: Hash): ConflictSet {
    ConflictSet({h}, h, h, 0)
  }

  function WithBlock(cs: ConflictSet, h: Hash): ConflictSet {
    var conflicts := cs.conflicts + {h};
    if cs.cnt < BETA1 && IsLowest(conflicts, h) then cs.(conflicts := conflicts, pref := h, cnt := 0)
    else cs.(conflicts := conflicts)
  }

  function Inserted(m: Conflicts, height: nat, h: Hash): Conflicts {
    m[height := if height in m then WithBlock(m[height], h) else NewSet(h)]
  }

  function WithVote(cs: ConflictSet, h: Hash, d1: u8, d2: u8): ConflictSet
    requires cs.cnt < 255
  {
    var voted := if d1 > d2 then cs.(pref := h) else cs;
    if h != voted.last then voted.(last := h) else voted.(cnt := voted.cnt + 1)
  }

  // Whole runs

  datatype Step = Block(height: nat, hash: Hash) | Vote(height: nat, hash: Hash, d1: u8, d2: u8)

  /** A vote is for a block that has been inserted, and the counter has room for it. */
  ghost predicate Possible(m: Conflicts, s: Step) {
    s.Vote? ==> s.height in m && s.hash in m[s.height].conflicts && m[s.height].cnt < 255
  }

  ghost function Next(m: Conflicts, s: Step): Conflicts
    requires Possible(m, s)
  {
    match s
    case Block(height, h) => Inserted(m, height, h)
    case Vote(height, h, d1, d2) => m[height := WithVote(m[height], h, d1, d2)]
  }

  ghost predicate Runs(run: seq<Step>)
    decreases |run|, 0
  {
    run == [] || (Runs(run[..|run| - 1]) && Possible(After(run[..|run| - 1]), run[|run| - 1]))
  }

  ghost function After(run: seq<Step>): Conflicts
    requires Runs(run)
    decreases |run|, 1
  {
    if run == [] then map[] else Next(After(run[..|run| - 1]), run[|run| - 1])
  }

  ghost function BlocksAt(run: seq<Step>, height: nat): set<Hash> {
    set s | s in run && s.Block? && s.height == height :: s.hash
  }

  lemma BlocksSnoc(run: seq<Step>, s: Step, height: nat)
    ensures BlocksAt(run + [s], height) ==
      BlocksAt(run, height) + if s.Block? && s.height == height then {s.hash} else {}
  {
    var all := run + [s];
    assert forall x :: x in all <==> x in run || x == s;
    if s.Block? && s.height == height { assert s in all; }
  }

  /** The conflict set of a height holds exactly the blocks inserted there, and its preference and
      its last vote are among them. */
  ghost predicate HeightOk(m: Conflicts, run: seq<Step>, height: nat) {
    && (height in m <==> BlocksAt(run, height) != {})
    && (height in m ==>
      && m[height].conflicts == BlocksAt(run, height)
      && m[height].pref in m[height].conflicts && m[height].last in m[height].conflicts)
  }

  lemma {:induction false} MembersOnly(run: seq<Step>, height: nat)
    requires Runs(run)
    ensures HeightOk(After(run), run, height)
  {
    if run != [] {
      var front, s := run[..|run| - 1], run[|run| - 1];
      assert run == front + [s];
      MembersOnly(front, height);
      MembersOnly(front, s.height);
      BlocksSnoc(front, s, height);
    }
  }

  ghost function VotesAt(run: seq<Step>, height: nat): nat {
    if run == [] then 0 else
    var s := run[|run| - 1];
    VotesAt(run[..|run| - 1], height) + if s.Vote? && s.height == height then 1 else 0
  }

  /** No vote at this height outweighs the preferred block. */
  ghost predicate Unmoved(run: seq<Step>, height: nat) {
    forall s | s in run && s.Vote? && s.height == height :: s.d1 <= s.d2
  }

  /** With fewer than `BETA1` votes and none that moves the preference, the preferred block is the
      lowest hash, in whatever order the blocks come. */
  lemma {:induction false} PrefersLowest(run: seq<Step>, height: nat)
    requires Runs(run) && VotesAt(run, height) < BETA1 && Unmoved(run, height)
    ensures HeightOk(After(run), run, height)
    ensures height in After(run) ==>
      && IsLowest(BlocksAt(run, height), After(run)[height].pref)
      && After(run)[height].cnt <= VotesAt(run, height)
  {
    MembersOnly(run, height);
    if run != [] {
      var front, s := run[..|run| - 1], run[|run| - 1];
      assert run == front + [s] && s in run;
      assert Unmoved(front, height) by { assert forall x | x in front :: x in run; }
      PrefersLowest(front, height);
      BlocksSnoc(front, s, height);
    }
  }

  /** Nodes that have seen the same blocks of a height, and no votes, prefer the same block. */
  lemma SameBlocksSamePreference(a: seq<Step>, b: seq<Step>, height: nat)
    requires Runs(a) && Runs(b) && VotesAt(a, height) == 0 == VotesAt(b, height)
    requires BlocksAt(a, height) == BlocksAt(b, height) != {}
    ensures height in After(a) && height in After(b)
    ensures After(a)[height].(last := After(b)[height].last) == After(b)[height]
  {
    NoVotesUnmoved(a, height);
    NoVotesUnmoved(b, height);
    hide Runs, After;
    PrefersLowest(a, height);
    PrefersLowest(b, height);
    LowestUnique(BlocksAt(a, height), After(a)[height].pref, After(b)[height].pref);
  }

  lemma {:induction false} NoVotesUnmoved(run: seq<Step>, height: nat)
    requires VotesAt(run, height) == 0
    ensures Unmoved(run, height)
  {
    if run != [] {
      NoVotesUnmoved(run[..|run| - 1], height);
      assert run == run[..|run| - 1] + [run[|run| - 1]];
    }
  }

  /** The preference moves only to a block voted for with more conviction, or to a new lowest hash
      while the confidence is below `BETA1`. */
  lemma PreferenceMoves(run: seq<Step>, s: Step, height: nat)
    requires Runs(run) && Possible(After(run), s) && height in After(run)
    ensures var m, n := After(run), Next(After(run), s);
      height in n && (n[height].pref != m[height].pref <==>
        && s.height == height && s.hash != m[height].pref
        && (s.Vote? ==> s.d1 > s.d2)
        && (s.Block? ==> m[height].cnt < BETA1 && IsLowest(m[height].conflicts + {s.hash}, s.hash)))
  {
    hide Runs, After;
  }

  /** What keeps the preference in place whatever blocks come. */
  ghost predicate Locked(cs: ConflictSet) {
    cs.cnt >= BETA1 || cs.pref == Hash(0)
  }

  lemma LockedStep(run: seq<Step>, s: Step, height: nat)
    requires Runs(run) && Possible(After(run), s) && height in After(run) && Locked(After(run)[height])
    requires s.Vote? && s.height == height ==> s.d1 <= s.d2
    ensures var n := Next(After(run), s);
      height in n && n[height].pref == After(run)[height].pref && Locked(n[height])
  {
    PreferenceMoves(run, s, height);
    MembersOnly(run, height);
    hide Runs, After;
  }

  lemma {:induction false} LockedStays(run: seq<Step>, more: seq<Step>, height: nat)
    requires Runs(run) && height in After(run) && Locked(After(run)[height])
    requires Runs(run + more) && Unmoved(more, height)
    ensures height in After(run + more)
    ensures After(run + more)[height].pref == After(run)[height].pref && Locked(After(run + more)[height])
    decreases |more|
  {
    if more == [] {
      assert run + more == run;
    } else {
      var front, s := more[..|more| - 1], more[|more| - 1];
      assert (run + more)[..|run + more| - 1] == run + front && s in more;
      assert forall x | x in front :: x in more;
      LockedStays(run, front, height);
      LockedStep(run + front, s, height);
    }
  }

  /** Without a vote that outweighs it, the preference of a height outlasts every continuation of the
      run if and only if the confidence has reached `BETA1` or no hash is lower. */
  lemma PreferenceLocked(run: seq<Step>, height: nat)
    requires Runs(run) && height in After(run)
    ensures Locked(After(run)[height]) <==>
      forall more | Runs(run + more) && Unmoved(more, height) ::
        height in After(run + more) && After(run + more)[height].pref == After(run)[height].pref
  {
    if Locked(After(run)[height]) {
      forall more | Runs(run + more) && Unmoved(more, height)
        ensures height in After(run + more) && After(run + more)[height].pref == After(run)[height].pref
      {
        LockedStays(run, more, height);
      }
    } else {
      var more := [Block(height, Hash(0))];
      assert (run + more)[..|run + more| - 1] == run;
      PreferenceMoves(run, more[0], height);
      assert Runs(run + more) && Unmoved(more, height);
    }
  }

  // What the conflict set of a height is

  /** The block voted for last at a height; before any vote, the first one inserted. */
  ghost function LastAt(run: seq<Step>, height: nat): Option<Hash> {
    if run == [] then None else
    var before, s := LastAt(run[..|run| - 1], height), run[|run| - 1];
    if s.height == height && (s.Vote? || before.None?) then Some(s.hash) else before
  }

  /** A vote for the block that the last one was for. */
  ghost predicate Repeats(run: seq<Step>, s: Step, height: nat) {
    s.Vote? && s.height == height && LastAt(run, height) == Some(s.hash)
  }

  /** A block with the lowest hash so far, while fewer than `BETA1` votes have repeated. */
  ghost predicate Supersedes(run: seq<Step>, s: Step, height: nat)
    decreases |run|, 1
  {
    && s.Block? && s.height == height && BlocksAt(run, height) != {}
    && IsLowest(BlocksAt(run, height) + {s.hash}, s.hash) && RepeatsAt(run, height) < BETA1
  }

  /** The repeated votes since the last block that superseded. */
  ghost function RepeatsAt(run: seq<Step>, height: nat): nat
    decreases |run|, 0
  {
    if run == [] then 0 else
    var front, s := run[..|run| - 1], run[|run| - 1];
    if Supersedes(front, s, height) then 0 else RepeatsAt(front, height) + if Repeats(front, s, height) then 1 else 0
  }

  /** The block that superseded last, or was voted for with more conviction after that; before, the first. */
  ghost function PreferredAt(run: seq<Step>, height: nat): Option<Hash> {
    if run == [] then None else
    var front, s := run[..|run| - 1], run[|run| - 1];
    var before := PreferredAt(front, height);
    if s.height == height && (before.None? || Supersedes(front, s, height) || (s.Vote? && s.d1 > s.d2))
    then Some(s.hash) else before
  }

  /** In every run the conflict set of a height is given by the blocks and the votes there. */
  lemma {:induction false} HeightIs(run: seq<Step>, height: nat)
    requires Runs(run)
    ensures height in After(run) <==> BlocksAt(run, height) != {}
    ensures height in After(run) ==>
      && LastAt(run, height).Some? && PreferredAt(run, height).Some?
      && After(run)[height].conflicts == BlocksAt(run, height)
      && After(run)[height].pref == PreferredAt(run, height).value
      && After(run)[height].last == LastAt(run, height).value
      && After(run)[height].cnt as nat == RepeatsAt(run, height)
    ensures height !in After(run) ==>
      LastAt(run, height).None? && PreferredAt(run, height).None? && RepeatsAt(run, height) == 0
  {
    MembersOnly(run, height);
    if run != [] {
      var front, s := run[..|run| - 1], run[|run| - 1];
      assert run == front + [s];
      HeightIs(front, height);
      BlocksSnoc(front, s, height);
      hide BlocksAt, IsLowest;
    }
  }

  ghost function RepeatsFrom(run: seq<Step>, height: nat, k: nat): set<nat> {
    set i | k <= i < |run| && Repeats(run[..i], run[i], height)
  }

  /** The counter: as many repeated votes as there are since the last block that superseded. */
  lemma {:induction false} RepeatsCount(run: seq<Step>, height: nat) returns (k: nat)
    ensures k <= |run| && (k > 0 ==> Supersedes(run[..k - 1], run[k - 1], height))
    ensures forall i | k <= i < |run| :: !Supersedes(run[..i], run[i], height)
    ensures RepeatsAt(run, height) == |RepeatsFrom(run, height, k)|
  {
    hide Supersedes, Repeats;
    if run == [] {
      k := 0;
      assert RepeatsFrom(run, height, 0) == {};
    } else {
      var n := |run| - 1;
      var front, s := run[..n], run[n];
      if Supersedes(front, s, height) {
        k := |run|;
        assert RepeatsFrom(run, height, k) == {};
      } else {
        k := RepeatsCount(front, height);
        assert run == front + [s];
        RepeatsOne(front, s, height, k);
      }
    }
  }

  lemma RepeatsOne(run: seq<Step>, s: Step, height: nat, k: nat)
    requires k <= |run| && (k > 0 ==> Supersedes(run[..k - 1], run[k - 1], height)) && !Supersedes(run, s, height)
    requires forall i | k <= i < |run| :: !Supersedes(run[..i], run[i], height)
    ensures k > 0 ==> Supersedes((run + [s])[..k - 1], (run + [s])[k - 1], height)
    ensures forall i | k <= i < |run + [s]| :: !Supersedes((run + [s])[..i], (run + [s])[i], height)
    ensures |RepeatsFrom(run + [s], height, k)| ==
      |RepeatsFrom(run, height, k)| + if Repeats(run, s, height) then 1 else 0
  {
    hide Supersedes, Repeats;
    var all := run + [s];
    forall i | 0 <= i <= |run| ensures all[..i] == run[..i] { }
    assert run[..|run|] == run;
    assert RepeatsFrom(all, height, k) == RepeatsFrom(run, height, k) + if Repeats(run, s, height) then {|run|} else {};
  }

  class ConflictMap {
    var inner: Conflicts

    constructor ()
      ensures inner == map[]
    {
      inner := map[];
    }

    method InsertBlock(height: nat, h: Hash) returns (r: ConflictSet)
      modifies this
      ensures inner == Next(old(inner), Block(height, h)) && r == inner[height]
    {
      if height in inner {
        var cs := inner[height];
        var conflicts := cs.conflicts + {h};
        var lowest := IsLowestHash(conflicts, h);
        cs := cs.(conflicts := conflicts);
        if cs.cnt < BETA1 && lowest {
          cs := cs.(pref := h, cnt := 0);
        }
        inner := inner[height := cs];
      } else {
        inner := inner[height := NewSet(h)];
      }
      return inner[height];
    }

    /** The counter is a byte: one vote too many overflows it. */
    method UpdateConflictSet(height: nat, h: Hash, d1: u8, d2: u8) returns (r: Result<(), HailError>)
      requires height in inner ==> inner[height].cnt < 255
      modifies this
      ensures height !in old(inner) ==> r == Err(InvalidBlockHeight(height)) && inner == old(inner)
      ensures height in old(inner) ==>
        r == Ok(()) && inner == old(inner)[height := WithVote(old(inner)[height], h, d1, d2)]
    {
      if height !in inner {
        return Err(InvalidBlockHeight(height));
      }
      var cs := inner[height];
      if d1 > d2 {
        cs := cs.(pref := h);
      }
      if h != cs.last {
        cs := cs.(last := h);
      } else {
        cs := cs.(cnt := cs.cnt + 1);
      }
      inner := inner[height := cs];
      return Ok(());
    }
  }
}
