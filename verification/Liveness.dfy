/** What the reservoir holds about a peer, read off what happened to it (`src/ice/reservoir.rs`). */
module Liveness {
  import opened Basics
  import opened Ice

  // What a history says

  /** The choice an event speaks for; a quorum speaks for the choice that all its responders reported. */
  ghost function Said(e: PeerEvent): Option<Choice> {
    match e
    case Placed(_) => Some(Live)
    case Revived => Some(Live)
    case Failed => Some(Faulty)
    case Vote(_, _) => None
    case Completed(q) => if Unanimous(q, Live) then Some(Live) else if Unanimous(q, Faulty) then Some(Faulty) else None
  }

  ghost function SaidLast(h: seq<PeerEvent>): Option<Choice> {
    if h == [] then None
    else if Said(h[|h| - 1]).Some? then Said(h[|h| - 1])
    else SaidLast(h[..|h| - 1])
  }

  /** After `h`, `e` starts the count anew: an entry, an answer, a quorum that is split, or anything that
      speaks for another choice than before. */
  ghost predicate Turns(h: seq<PeerEvent>, e: PeerEvent) {
    || e.Placed? || e.Revived? || (e.Completed? && Said(e).None?)
    || (Said(e).Some? && Said(e) != SaidLast(h))
  }

  /** The quorums since then. */
  ghost function Agreeing(h: seq<PeerEvent>): nat {
    if h == [] || Turns(h[..|h| - 1], h[|h| - 1]) then 0
    else Agreeing(h[..|h| - 1]) + if h[|h| - 1].Completed? then 1 else 0
  }

  /** The address with which the peer was last entered. */
  ghost function Address(h: seq<PeerEvent>): Option<nat> {
    if h == [] then None
    else if h[|h| - 1].Placed? then Some(h[|h| - 1].ip)
    else Address(h[..|h| - 1])
  }

  lemma Snoc(h: seq<PeerEvent>, e: PeerEvent)
    ensures SaidLast(h + [e]) == if Said(e).Some? then Said(e) else SaidLast(h)
    ensures Agreeing(h + [e]) == if Turns(h, e) then 0 else Agreeing(h) + if e.Completed? then 1 else 0
    ensures Address(h + [e]) == if e.Placed? then Some(e.ip) else Address(h)
  {
    assert (h + [e])[..|h|] == h;
  }

  lemma {:induction false} EnteredSpeaks(h: seq<PeerEvent>)
    ensures Address(h).Some? ==> SaidLast(h).Some?
  {
    if h != [] { EnteredSpeaks(h[..|h| - 1]); }
  }

  /** `k` is the last turn of `h`, and after it come as many quorums as counted, all of them unanimous for
      the choice spoken for. */
  ghost predicate CountedFrom(h: seq<PeerEvent>, k: nat) {
    && k < |h| && Turns(h[..k], h[k]) && (forall i | k < i < |h| :: !Turns(h[..i], h[i]))
    && Agreeing(h) == |QuorumsAfter(h, k)| && forall i | i in QuorumsAfter(h, k) :: Said(h[i]) == SaidLast(h)
  }

  lemma {:induction false} AgreeingCounts(h: seq<PeerEvent>) returns (k: nat)
    requires Address(h).Some?
    ensures CountedFrom(h, k)
  {
    hide Turns, SaidLast, Agreeing, Said, CountedFrom;
    var front, e := h[..|h| - 1], h[|h| - 1];
    assert h == front + [e];
    if Turns(front, e) {
      k := |front|;
      TurnCounts(front, e);
    } else {
      QuietEvent(front, e);
      k := AgreeingCounts(front);
      QuietCounts(front, e, k);
    }
  }

  lemma TurnCounts(h: seq<PeerEvent>, e: PeerEvent)
    requires Turns(h, e)
    ensures CountedFrom(h + [e], |h|)
  {
    Snoc(h, e);
    hide Turns, SaidLast, Agreeing, Said;
    assert (h + [e])[..|h|] == h;
    assert QuorumsAfter(h + [e], |h|) == {};
  }

  lemma QuietCounts(h: seq<PeerEvent>, e: PeerEvent, k: nat)
    requires CountedFrom(h, k) && !Turns(h, e)
    ensures CountedFrom(h + [e], k)
  {
    hide Turns, SaidLast, Agreeing, Said, QuorumsAfter;
    Snoc(h, e);
    QuietEvent(h, e);
    CountOne(h, e, k);
  }

  lemma QuietEvent(h: seq<PeerEvent>, e: PeerEvent)
    requires !Turns(h, e)
    ensures !e.Placed? && (Said(e).Some? ==> Said(e) == SaidLast(h)) && (e.Completed? ==> Said(e).Some?)
  {
    hide SaidLast;
  }

  lemma CountOne(h: seq<PeerEvent>, e: PeerEvent, k: nat)
    requires k < |h| && Turns(h[..k], h[k]) && (forall i | k < i < |h| :: !Turns(h[..i], h[i])) && !Turns(h, e)
    ensures Turns((h + [e])[..k], (h + [e])[k])
    ensures forall i | k < i < |h + [e]| :: !Turns((h + [e])[..i], (h + [e])[i])
    ensures |QuorumsAfter(h + [e], k)| == |QuorumsAfter(h, k)| + if e.Completed? then 1 else 0
    ensures forall i | i in QuorumsAfter(h + [e], k) ::
      && i < |h + [e]|
      && ((i == |h| && e.Completed? && (h + [e])[i] == e) || (i in QuorumsAfter(h, k) && (h + [e])[i] == h[i]))
  {
    hide Turns;
    var all := h + [e];
    forall i | 0 <= i <= |h| ensures all[..i] == h[..i] { }
    assert h[..|h|] == h;
    assert QuorumsAfter(all, k) == QuorumsAfter(h, k) + if e.Completed? then {|h|} else {};
  }

  ghost function QuorumsAfter(h: seq<PeerEvent>, k: nat): (r: set<nat>)
    ensures forall i | i in r :: i < |h|
  {
    set i | k < i < |h| && h[i].Completed?
  }

  /** What is held about a peer with history `h`. */
  ghost function Held(h: seq<PeerEvent>): Option<Decision> {
    EnteredSpeaks(h);
    if Address(h).Some? then Some(Decision(Address(h).value, SaidLast(h).value, Agreeing(h))) else None
  }

  // What happens to a peer in a run

  /** A vote is cast, and closes the quorum if it fills it. */
  ghost function Cast(h: seq<PeerEvent>, r: Hash, c: Choice): seq<PeerEvent> {
    var h' := h + [Vote(r, c)];
    if |OpenVotes(h')| >= K then h' + [Completed(OpenVotes(h'))] else h'
  }

  ghost function Heard(h: seq<PeerEvent>, r: Hash, outcomes: seq<Outcome>, p: Hash): seq<PeerEvent> {
    if outcomes == [] then h else
    var n := |outcomes| - 1;
    var before := Heard(h, r, outcomes[..n], p);
    if outcomes[n].peer == p then Cast(before, r, outcomes[n].choice) else before
  }

  ghost function Seen(h: seq<PeerEvent>, e: IceEvent, p: Hash): seq<PeerEvent> {
    match e
    case Bootstrapped(q, ip) => if q == p then h + [Placed(ip)] else h
    case Sampled(q, ip) => if q == p && Address(h).None? then h + [Placed(ip)] else h
    case PingFailure(q) => if q == p then h + [Failed] else h
    case PingSuccess(r, outcomes) =>
      Heard(if r == p && Address(h).Some? && SaidLast(h) == Some(Faulty) then h + [Revived] else h, r, outcomes, p)
  }

  ghost function PeerLog(run: seq<IceEvent>, p: Hash): seq<PeerEvent> {
    if run == [] then [] else Seen(PeerLog(run[..|run| - 1], p), run[|run| - 1], p)
  }

  /** The reservoir holds about `p` what its history `h` says. */
  ghost predicate Follows(v: ReservoirValue, p: Hash, h: seq<PeerEvent>) {
    LogOf(v.log, p) == h && Find(v.decisions, p) == Held(h)
  }

  lemma HeldPlaced(h: seq<PeerEvent>, ip: nat)
    ensures Held(h + [Placed(ip)]) == Some(Decision(ip, Live, 0))
  {
    Snoc(h, Placed(ip));
    EnteredSpeaks(h + [Placed(ip)]);
    hide SaidLast, Agreeing, Address;
  }

  lemma HeldFailed(h: seq<PeerEvent>)
    ensures Held(h + [Failed]) ==
      match Held(h)
      case Some(d) => Some(if d.choice == Live then d.(choice := Faulty, conviction := 0) else d)
      case None => None
  {
    EnteredSpeaks(h);
    Snoc(h, Failed);
    hide SaidLast, Agreeing, Address;
  }

  lemma HeldRevived(h: seq<PeerEvent>)
    requires Address(h).Some? && SaidLast(h) == Some(Faulty)
    ensures Held(h).Some? && Held(h).value.choice == Faulty
    ensures Held(h + [Revived]) == Some(Held(h).value.(choice := Live, conviction := 0))
  {
    Snoc(h, Revived);
    hide SaidLast, Agreeing, Address;
  }

  /** Who is held faulty. */
  lemma HeldFaulty(h: seq<PeerEvent>)
    ensures Held(h).Some? && Held(h).value.choice == Faulty <==> Address(h).Some? && SaidLast(h) == Some(Faulty)
  {
    EnteredSpeaks(h);
    hide SaidLast, Agreeing, Address;
  }

  lemma PlacedFollows(v: ReservoirValue, p: Hash, ip: nat, x: Hash, h: seq<PeerEvent>)
    requires Follows(v, x, h)
    ensures Follows(Inserted(v, p, ip), x, if p == x then h + [Placed(ip)] else h)
  {
    hide Held;
    HeldPlaced(h, ip);
  }

  lemma FailedFollows(v: ReservoirValue, p: Hash, x: Hash, h: seq<PeerEvent>)
    requires Follows(v, x, h)
    ensures Follows(PingFailed(v, p), x, if p == x then h + [Failed] else h)
  {
    hide Held;
    HeldFailed(h);
  }

  lemma RevivedFollows(v: ReservoirValue, p: Hash, x: Hash, h: seq<PeerEvent>)
    requires Follows(v, x, h)
    ensures Follows(Responded(v, p), x,
                    if p == x && Address(h).Some? && SaidLast(h) == Some(Faulty) then h + [Revived] else h)
  {
    hide Held, Address, SaidLast;
    HeldFaulty(h);
    if Address(h).Some? && SaidLast(h) == Some(Faulty) { HeldRevived(h); }
  }

  lemma OutcomeFollows(v: ReservoirValue, r: Hash, o: Outcome, x: Hash, h: seq<PeerEvent>)
    requires ReservoirOk(v) && Follows(v, x, h)
    ensures Follows(Processed(v, r, o), x, if o.peer == x then Cast(h, r, o.choice) else h)
  {
    if o.peer == x {
      assert PeerOk(Open(v.quorums, x), Find(v.decisions, x), LogOf(v.log, x));
      hide ReservoirOk;
      VoteFollows(v, r, o.choice, x, h);
    } else {
      OthersFollow(v, r, o, x, h);
    }
  }

  lemma OthersFollow(v: ReservoirValue, r: Hash, o: Outcome, x: Hash, h: seq<PeerEvent>)
    requires Follows(v, x, h) && o.peer != x
    ensures Follows(Processed(v, r, o), x, h)
  {
    hide Held, Verdict, Judged;
  }

  lemma VoteFollows(v: ReservoirValue, r: Hash, c: Choice, x: Hash, h: seq<PeerEvent>)
    requires PeerOk(Open(v.quorums, x), Find(v.decisions, x), h) && Follows(v, x, h)
    ensures Follows(Processed(v, r, Outcome(x, c)), x, Cast(h, r, c))
  {
    var q := Open(v.quorums, x);
    var q', h' := if r in q then q else q[r := c], h + [Vote(r, c)];
    QuorumFills(q, h, r, c);
    HeldVote(h, r, c);
    if |q'| >= K {
      HeldQuorum(h', q');
    }
    hide Held, Verdict, Judged, PeerOk, Unanimous;
  }

  lemma QuorumFills(q: Quorum, h: seq<PeerEvent>, r: Hash, c: Choice)
    requires q == OpenVotes(h) && |q| < K
    ensures var q' := if r in q then q else q[r := c]; OpenVotes(h + [Vote(r, c)]) == q' && |q'| <= K
  {
    Ice.Snoc(h, Vote(r, c));
    if r !in q { assert q[r := c].Keys == q.Keys + {r}; }
  }

  lemma HeldVote(h: seq<PeerEvent>, r: Hash, c: Choice)
    ensures Held(h + [Vote(r, c)]) == Held(h)
  {
    Snoc(h, Vote(r, c));
  }

  /** A quorum that closes is judged as its responders say. */
  lemma HeldQuorum(h: seq<PeerEvent>, q: Quorum)
    requires |q| == K
    ensures Held(h + [Completed(q)]) == match Held(h) case Some(d) => Some(Judged(d, Verdict(q))) case None => None
  {
    EnteredSpeaks(h);
    Snoc(h, Completed(q));
    VerdictIsUnanimous(q, Live);
    VerdictIsUnanimous(q, Faulty);
    hide Verdict, Unanimous, SaidLast, Agreeing, Address;
  }

  lemma {:induction false} OutcomesFollow(v: ReservoirValue, r: Hash, outcomes: seq<Outcome>, x: Hash,
                                          h: seq<PeerEvent>)
    requires ReservoirOk(v) && Follows(v, x, h)
    ensures Follows(ProcessedAll(v, r, outcomes), x, Heard(h, r, outcomes, x))
  {
    hide ReservoirOk, Follows, Processed, Cast;
    if outcomes != [] {
      var n := |outcomes| - 1;
      OutcomesKeepOk(v, r, outcomes[..n]);
      OutcomesFollow(v, r, outcomes[..n], x, h);
      OutcomeFollows(ProcessedAll(v, r, outcomes[..n]), r, outcomes[n], x, Heard(h, r, outcomes[..n], x));
    }
  }

  lemma NextFollows(v: ReservoirValue, e: IceEvent, x: Hash, h: seq<PeerEvent>)
    requires ReservoirOk(v) && Follows(v, x, h)
    ensures Follows(Next(v, e), x, Seen(h, e, x))
  {
    hide ReservoirOk, Heard, ProcessedAll, Inserted, PingFailed, Responded;
    match e
    case Bootstrapped(p, ip) => PlacedFollows(v, p, ip, x, h);
    case Sampled(p, ip) => PlacedFollows(v, p, ip, x, h);
    case PingFailure(p) => FailedFollows(v, p, x, h);
    case PingSuccess(r, outcomes) =>
      RevivedFollows(v, r, x, h);
      ResponseKeepsOk(v, r);
      hide Follows;
      OutcomesFollow(Responded(v, r), r, outcomes, x,
        if r == x && Address(h).Some? && SaidLast(h) == Some(Faulty) then h + [Revived] else h);
  }

  /** In every run the reservoir holds about each peer exactly what the events that concern it say: whether it
      is known and under which address, the choice last spoken for, the number of quorums that have agreed
      on it since, and the votes of the open quorum. */
  lemma {:induction false} HeldIs(run: seq<IceEvent>, p: Hash)
    ensures Follows(After(run), p, PeerLog(run, p)) && Open(After(run).quorums, p) == OpenVotes(PeerLog(run, p))
  {
    hide ReservoirOk, Follows, Next, Seen, OpenVotes;
    if run == [] {
      EmptyFollows(p);
    } else {
      HeldIs(run[..|run| - 1], p);
      RunKeepsOk(run[..|run| - 1]);
      NextFollows(After(run[..|run| - 1]), run[|run| - 1], p, PeerLog(run[..|run| - 1], p));
    }
    RunKeepsOk(run);
    VotesOpen(After(run), p, PeerLog(run, p));
  }

  lemma EmptyFollows(p: Hash)
    ensures Follows(Empty(), p, [])
  {
  }

  lemma VotesOpen(v: ReservoirValue, p: Hash, h: seq<PeerEvent>)
    requires ReservoirOk(v) && Follows(v, p, h)
    ensures Open(v.quorums, p) == OpenVotes(h)
  {
    hide Held, OpenVotes, Justified;
    assert PeerOk(Open(v.quorums, p), Find(v.decisions, p), LogOf(v.log, p));
  }

  // The answer that a status changed

  /** It is given just when the vote closes a quorum that is unanimous for the choice reported, the peer was held
      at that choice already, conviction now reaches BETA1, and enough peers are confirmed. */
  lemma FlipsExact(v: ReservoirValue, r: Hash, o: Outcome)
    requires ReservoirOk(v)
    ensures var q := Open(v.quorums, o.peer);
      Flips(v, r, o) <==>
        && r !in q && |q| + 1 == K && Unanimous(q[r := o.choice], o.choice) && o.peer in v.decisions
        && v.decisions[o.peer].choice == o.choice && v.decisions[o.peer].conviction + 1 >= BETA1
        && (if o.choice == Live then v.confirmed + 1 else v.confirmed - 1) >= K
    ensures Flips(v, r, o) ==> Processed(v, r, o).decisions[o.peer].choice == v.decisions[o.peer].choice
  {
    var q := Open(v.quorums, o.peer);
    assert PeerOk(q, Find(v.decisions, o.peer), LogOf(v.log, o.peer));
    hide *;
    OpenShort(q, Find(v.decisions, o.peer), LogOf(v.log, o.peer));
    if r in q || |q| + 1 < K {
      StaysOpen(v, r, o);
    } else {
      Closes(q, r, o.choice);
      ClosingFlips(v, r, o, q[r := o.choice]);
    }
  }

  lemma OpenShort(q: Quorum, d: Option<Decision>, h: seq<PeerEvent>)
    requires PeerOk(q, d, h)
    ensures |q| < K
  {
    hide Justified, OpenVotes, Backed;
  }

  lemma StaysOpen(v: ReservoirValue, r: Hash, o: Outcome)
    requires var q := Open(v.quorums, o.peer); |q| < K && (r in q || |q| + 1 < K)
    ensures !Flips(v, r, o)
  {
    hide Verdict, Decided, Extended;
    var q := Open(v.quorums, o.peer);
    if r !in q { assert q[r := o.choice].Keys == q.Keys + {r}; }
  }

  /** A full quorum is unanimous for the last vote or for nothing. */
  lemma Closes(q: Quorum, r: Hash, c: Choice)
    requires r !in q && |q| + 1 == K
    ensures var full := q[r := c]; |full| == K && Verdict(full) == if Unanimous(full, c) then Some(c) else None
  {
    var full := q[r := c];
    assert full.Keys == q.Keys + {r} && full[r] == c;
    VerdictIsUnanimous(full, Live);
    VerdictIsUnanimous(full, Faulty);
    hide Verdict;
  }

  lemma ClosingFlips(v: ReservoirValue, r: Hash, o: Outcome, full: Quorum)
    requires var q := Open(v.quorums, o.peer); r !in q && full == q[r := o.choice] && |full| == K
    requires Verdict(full) == if Unanimous(full, o.choice) then Some(o.choice) else None
    ensures Flips(v, r, o) <==>
      && Unanimous(full, o.choice) && o.peer in v.decisions && v.decisions[o.peer].choice == o.choice
      && v.decisions[o.peer].conviction + 1 >= BETA1
      && (if o.choice == Live then v.confirmed + 1 else v.confirmed - 1) >= K
    ensures Flips(v, r, o) ==>
      o.peer in v.decisions && Processed(v, r, o).decisions[o.peer].choice == v.decisions[o.peer].choice
  {
    hide Verdict, Extended, Unanimous;
    assert Voted(v, r, o.peer, o.choice).quorums[o.peer] == full;
  }
}
