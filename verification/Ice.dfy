/** Peer liveness: quorums of reported choices and the reservoir of decisions (`src/ice`). */
module Ice {
  import opened Basics

  const K: nat := 2
  const ALPHA: real := 0.5
  const BETA1: nat := 3

  datatype Choice = Live | Faulty

  /** Who reported what about a peer. */
  type Quorum = map<Hash, Choice>

  datatype Decision = Decision(ip: nat, choice: Choice, conviction: nat)

  datatype Outcome = Outcome(peer: Hash, choice: Choice)

  function Ceil(x: real): int {
    if x.Floor as real == x then x.Floor else x.Floor + 1
  }

  // Quorums

  function Reporting(q: Quorum, c: Choice): set<Hash> {
    set r | r in q && q[r] == c
  }

  ghost function Verdict(q: Quorum): Option<Choice> {
    if |Reporting(q, Live)| > Ceil(K as real * ALPHA) then Some(Live)
    else if |Reporting(q, Faulty)| > Ceil(K as real * ALPHA) then Some(Faulty)
    else None
  }

  method Decide(q: Quorum) returns (r: Option<Choice>)
    ensures r == Verdict(q)
  {
    hide Reporting, Ceil;
    var live, faulty, left := 0, 0, q.Keys;
    CountEnds(q, Live);
    CountEnds(q, Faulty);
    while left != {}
      invariant left <= q.Keys
      invariant live == |Reporting(q, Live) - left|
      invariant faulty == |Reporting(q, Faulty) - left|
    {
      var x :| x in left;
      CountOne(q, Live, left, x);
      CountOne(q, Faulty, left, x);
      if q[x] == Live { live := live + 1; } else { faulty := faulty + 1; }
      left := left - {x};
    }
    r := if live > Ceil(K as real * ALPHA) then Some(Live)
      else if faulty > Ceil(K as real * ALPHA) then Some(Faulty) else None;
  }

  lemma CountEnds(q: Quorum, c: Choice)
    ensures |Reporting(q, c) - q.Keys| == 0 && |Reporting(q, c) - {}| == |Reporting(q, c)|
  {
    assert Reporting(q, c) - q.Keys == {} && Reporting(q, c) - {} == Reporting(q, c);
  }

  lemma CountOne(q: Quorum, c: Choice, left: set<Hash>, x: Hash)
    requires x in left && x in q
    ensures |Reporting(q, c) - (left - {x})| == |Reporting(q, c) - left| + if q[x] == c then 1 else 0
  {
    var s := Reporting(q, c);
    if q[x] == c {
      assert s - (left - {x}) == (s - left) + {x};
    } else {
      assert s - (left - {x}) == s - left;
    }
  }

  ghost predicate Unanimous(q: Quorum, c: Choice) {
    forall r | r in q :: q[r] == c
  }

  /** A full quorum decides only when all its `K` responders agree. */
  lemma VerdictIsUnanimous(q: Quorum, c: Choice)
    requires |q| == K
    ensures Verdict(q) == Some(c) <==> Unanimous(q, c)
  {
    assert Ceil(K as real * ALPHA) == 1;
    var d := if c == Live then Faulty else Live;
    Split(q, c, d);
    hide Reporting, Ceil;
  }

  lemma Split(q: Quorum, c: Choice, d: Choice)
    requires c != d
    ensures |Reporting(q, c)| + |Reporting(q, d)| == |q|
    ensures |Reporting(q, d)| == 0 <==> Unanimous(q, c)
  {
    var s, t := Reporting(q, c), Reporting(q, d);
    assert s + t == q.Keys && s !! t;
    assert |s + t| == |s| + |t|;
    if |t| == 0 {
      assert forall r | r in q :: r in s || r in t;
    } else {
      var x :| x in t;
      assert q[x] != c;
    }
  }

  // The history of a peer

  datatype PeerEvent =
    | Placed(ip: nat)                     // entered as live with no conviction
    | Failed                              // did not answer a ping
    | Revived                             // answered while considered faulty
    | Vote(responder: Hash, choice: Choice) // was reported on
    | Completed(votes: Quorum)            // a quorum about it closed

  type Log = map<Hash, seq<PeerEvent>>

  function LogOf(log: Log, p: Hash): seq<PeerEvent> {
    if p in log then log[p] else []
  }

  ghost function Extended(log: Log, p: Hash, e: PeerEvent): Log {
    log[p := LogOf(log, p) + [e]]
  }

  ghost function NextVotes(before: Quorum, e: PeerEvent): Quorum {
    if e.Completed? then map[]
    else if e.Vote? && e.responder !in before then before[e.responder := e.choice] else before
  }

  /** The first vote of each responder since the last quorum closed. */
  ghost function OpenVotes(h: seq<PeerEvent>): Quorum {
    if h == [] then map[] else NextVotes(OpenVotes(h[..|h| - 1]), h[|h| - 1])
  }

  /** Quorums close with the votes cast, and with `K` of them. */
  ghost predicate Justified(h: seq<PeerEvent>) {
    forall i | 0 <= i < |h| && h[i].Completed? :: h[i].votes == OpenVotes(h[..i]) && |h[i].votes| == K
  }

  ghost function NextStreak(before: nat, e: PeerEvent): nat {
    if e.Vote? then before
    else if e.Completed? && Verdict(e.votes) == Some(Live) then before + 1 else 0
  }

  /** How many quorums in a row decided `Live`, up to now and with no other event between. */
  ghost function LiveStreak(h: seq<PeerEvent>): nat {
    if h == [] then 0 else NextStreak(LiveStreak(h[..|h| - 1]), h[|h| - 1])
  }

  // The reservoir

  /** `log` is history, kept for the specification. */
  datatype ReservoirValue = ReservoirValue(quorums: map<Hash, Quorum>, decisions: map<Hash, Decision>,
                                           confirmed: nat, log: Log)

  ghost function Open(quorums: map<Hash, Quorum>, p: Hash): Quorum {
    if p in quorums then quorums[p] else map[]
  }

  /** A live peer has as much conviction as its streak, or one less (the quorum that changed the
      decision does not count). */
  ghost predicate Backed(d: Decision, streak: nat) {
    match d.choice
    case Live => d.conviction <= streak <= d.conviction + 1
    case Faulty => streak == 0
  }

  ghost function Find(decisions: map<Hash, Decision>, p: Hash): Option<Decision> {
    if p in decisions then Some(decisions[p]) else None
  }

  /** What is kept about a peer matches its history `h`. */
  ghost predicate PeerOk(q: Quorum, d: Option<Decision>, h: seq<PeerEvent>) {
    && Justified(h) && q == OpenVotes(h) && |q| < K
    && (d.Some? ==> Backed(d.value, LiveStreak(h)))
  }

  ghost predicate ReservoirOk(v: ReservoirValue) {
    forall p :: PeerOk(Open(v.quorums, p), Find(v.decisions, p), LogOf(v.log, p))
  }

  ghost function Empty(): ReservoirValue {
    ReservoirValue(map[], map[], 0, map[])
  }

  ghost function Inserted(v: ReservoirValue, p: Hash, ip: nat): ReservoirValue {
    v.(decisions := v.decisions[p := Decision(ip, Live, 0)], log := Extended(v.log, p, Placed(ip)))
  }

  ghost function InsertedNew(v: ReservoirValue, p: Hash, ip: nat): ReservoirValue {
    if p in v.decisions then v else Inserted(v, p, ip)
  }

  ghost function PingFailed(v: ReservoirValue, p: Hash): ReservoirValue {
    v.(decisions :=
         if p in v.decisions && v.decisions[p].choice == Live
         then v.decisions[p := v.decisions[p].(choice := Faulty, conviction := 0)] else v.decisions,
       log := Extended(v.log, p, Failed))
  }

  ghost function Responded(v: ReservoirValue, p: Hash): ReservoirValue {
    if p in v.decisions && v.decisions[p].choice == Faulty then
      v.(decisions := v.decisions[p := v.decisions[p].(choice := Live, conviction := 0)],
         log := Extended(v.log, p, Revived))
    else v
  }

  ghost function Voted(v: ReservoirValue, r: Hash, p: Hash, c: Choice): ReservoirValue {
    var q := Open(v.quorums, p);
    v.(quorums := v.quorums[p := if r in q then q else q[r := c]],
       log := Extended(v.log, p, Vote(r, c)))
  }

  /** `process_decision` on an entry. */
  function Judged(d: Decision, verdict: Option<Choice>): Decision {
    match verdict
    case None => d.(conviction := 0)
    case Some(c) => if c == d.choice then d.(conviction := d.conviction + 1) else d.(choice := c, conviction := 0)
  }

  function Confirmations(confirmed: nat, d: Decision, verdict: Option<Choice>): nat {
    if verdict != Some(d.choice) || d.conviction + 1 < BETA1 then confirmed
    else if d.choice == Live then confirmed + 1
    else if confirmed > 0 then confirmed - 1 else 0
  }

  ghost function Decided(v: ReservoirValue, p: Hash, q: Quorum): ReservoirValue {
    v.(quorums := v.quorums - {p},
       decisions := if p in v.decisions then v.decisions[p := Judged(v.decisions[p], Verdict(q))] else v.decisions,
       confirmed := if p in v.decisions then Confirmations(v.confirmed, v.decisions[p], Verdict(q)) else v.confirmed,
       log := Extended(v.log, p, Completed(q)))
  }

  ghost function Processed(v: ReservoirValue, r: Hash, o: Outcome): ReservoirValue {
    var voted := Voted(v, r, o.peer, o.choice);
    var q := voted.quorums[o.peer];
    if |q| >= K then Decided(voted, o.peer, q) else voted
  }

  ghost function ProcessedAll(v: ReservoirValue, r: Hash, outcomes: seq<Outcome>): ReservoirValue {
    if outcomes == [] then v else
    Processed(ProcessedAll(v, r, outcomes[..|outcomes| - 1]), r, outcomes[|outcomes| - 1])
  }

  ghost function Filled(v: ReservoirValue, r: Hash, outcomes: seq<Outcome>): ReservoirValue {
    ProcessedAll(Responded(v, r), r, outcomes)
  }

  // What every operation keeps

  /** One event for one peer. */
  lemma Snoc(h: seq<PeerEvent>, e: PeerEvent)
    ensures OpenVotes(h + [e]) == NextVotes(OpenVotes(h), e)
    ensures LiveStreak(h + [e]) == NextStreak(LiveStreak(h), e)
    ensures Justified(h) && (e.Completed? ==> e.votes == OpenVotes(h) && |e.votes| == K) ==> Justified(h + [e])
  {
    hide Verdict;
    assert (h + [e])[..|h|] == h;
    forall i | 0 <= i < |h| ensures (h + [e])[..i] == h[..i] { }
  }

  ghost predicate SameElsewhere(v: ReservoirValue, w: ReservoirValue, p: Hash) {
    forall x | x != p ::
      Open(v.quorums, x) == Open(w.quorums, x) && Find(v.decisions, x) == Find(w.decisions, x) &&
      LogOf(v.log, x) == LogOf(w.log, x)
  }

  lemma OthersOk(v: ReservoirValue, w: ReservoirValue, p: Hash)
    requires ReservoirOk(v) && SameElsewhere(v, w, p)
    requires PeerOk(Open(w.quorums, p), Find(w.decisions, p), LogOf(w.log, p))
    ensures ReservoirOk(w)
  {
    hide PeerOk, Open, Find, LogOf;
    forall x ensures PeerOk(Open(w.quorums, x), Find(w.decisions, x), LogOf(w.log, x)) {
      assert PeerOk(Open(v.quorums, x), Find(v.decisions, x), LogOf(v.log, x));
    }
  }

  /** An event that is no vote and no quorum leaves the votes alone and ends the streak. */
  lemma OtherEvent(q: Quorum, d: Option<Decision>, h: seq<PeerEvent>, e: PeerEvent, d': Option<Decision>)
    requires PeerOk(q, d, h) && !e.Vote? && !e.Completed?
    requires d'.Some? && d'.value.choice == Live ==> d'.value.conviction == 0
    ensures PeerOk(q, d', h + [e])
  {
    hide Justified, Verdict;
    Snoc(h, e);
  }

  /** A vote, and what follows if it fills the quorum. */
  lemma VoteEvent(q: Quorum, d: Option<Decision>, h: seq<PeerEvent>, r: Hash, c: Choice)
    requires PeerOk(q, d, h)
    ensures var q' := if r in q then q else q[r := c]; var h' := h + [Vote(r, c)];
      && (|q'| < K ==> PeerOk(q', d, h'))
      && (|q'| >= K ==>
        PeerOk(map[], if d.Some? then Some(Judged(d.value, Verdict(q'))) else None, h' + [Completed(q')]))
  {
    hide Justified, Verdict;
    var q' := if r in q then q else q[r := c];
    var h' := h + [Vote(r, c)];
    Snoc(h, Vote(r, c));
    Snoc(h', Completed(q'));
    if r !in q { assert q'.Keys == q.Keys + {r}; }
  }

  lemma InsertKeepsOk(v: ReservoirValue, p: Hash, ip: nat)
    requires ReservoirOk(v)
    ensures ReservoirOk(Inserted(v, p, ip)) && ReservoirOk(InsertedNew(v, p, ip))
  {
    hide PeerOk;
    OtherEvent(Open(v.quorums, p), Find(v.decisions, p), LogOf(v.log, p), Placed(ip), Some(Decision(ip, Live, 0)));
    hide ReservoirOk;
    OthersOk(v, Inserted(v, p, ip), p);
  }

  lemma FailureKeepsOk(v: ReservoirValue, p: Hash)
    requires ReservoirOk(v)
    ensures ReservoirOk(PingFailed(v, p))
  {
    hide PeerOk;
    var w := PingFailed(v, p);
    OtherEvent(Open(v.quorums, p), Find(v.decisions, p), LogOf(v.log, p), Failed, Find(w.decisions, p));
    hide ReservoirOk;
    OthersOk(v, w, p);
  }

  lemma ResponseKeepsOk(v: ReservoirValue, p: Hash)
    requires ReservoirOk(v)
    ensures ReservoirOk(Responded(v, p))
  {
    hide PeerOk;
    var w := Responded(v, p);
    if w != v {
      OtherEvent(Open(v.quorums, p), Find(v.decisions, p), LogOf(v.log, p), Revived, Find(w.decisions, p));
      hide ReservoirOk;
      OthersOk(v, w, p);
    }
  }

  lemma OutcomeKeepsOk(v: ReservoirValue, r: Hash, o: Outcome)
    requires ReservoirOk(v)
    ensures ReservoirOk(Processed(v, r, o))
  {
    hide PeerOk, Verdict, Judged, Confirmations;
    var p := o.peer;
    VoteEvent(Open(v.quorums, p), Find(v.decisions, p), LogOf(v.log, p), r, o.choice);
    hide ReservoirOk;
    OthersOk(v, Processed(v, r, o), p);
  }

  lemma {:induction false} OutcomesKeepOk(v: ReservoirValue, r: Hash, outcomes: seq<Outcome>)
    requires ReservoirOk(v)
    ensures ReservoirOk(ProcessedAll(v, r, outcomes))
  {
    hide ReservoirOk, Processed;
    if outcomes != [] {
      var n := |outcomes| - 1;
      OutcomesKeepOk(v, r, outcomes[..n]);
      OutcomeKeepsOk(ProcessedAll(v, r, outcomes[..n]), r, outcomes[n]);
    }
  }

  // Whole runs

  datatype IceEvent =
    | Bootstrapped(peer: Hash, ip: nat)
    | Sampled(peer: Hash, ip: nat)
    | PingSuccess(responder: Hash, outcomes: seq<Outcome>)
    | PingFailure(peer: Hash)

  ghost function Next(v: ReservoirValue, e: IceEvent): ReservoirValue {
    match e
    case Bootstrapped(p, ip) => Inserted(v, p, ip)
    case Sampled(p, ip) => InsertedNew(v, p, ip)
    case PingSuccess(r, outcomes) => Filled(v, r, outcomes)
    case PingFailure(p) => PingFailed(v, p)
  }

  ghost function After(run: seq<IceEvent>): ReservoirValue {
    if run == [] then Empty() else Next(After(run[..|run| - 1]), run[|run| - 1])
  }

  lemma {:induction false} RunKeepsOk(run: seq<IceEvent>)
    ensures ReservoirOk(After(run))
  {
    hide ReservoirOk;
    if run == [] {
      EmptyOk();
    } else {
      var v := After(run[..|run| - 1]);
      RunKeepsOk(run[..|run| - 1]);
      match run[|run| - 1]
      case Bootstrapped(p, ip) => InsertKeepsOk(v, p, ip);
      case Sampled(p, ip) => InsertKeepsOk(v, p, ip);
      case PingSuccess(r, outcomes) => ResponseKeepsOk(v, r); OutcomesKeepOk(Responded(v, r), r, outcomes);
      case PingFailure(p) => FailureKeepsOk(v, p);
    }
  }

  lemma EmptyOk()
    ensures ReservoirOk(Empty())
  {
  }

  ghost predicate Reported(v: ReservoirValue, p: Hash, c: Choice) {
    p in v.decisions && v.decisions[p].choice == c && v.decisions[p].conviction >= BETA1
  }

  /** The last `n` quorums closed about a peer were unanimous for `Live`, each with `K` responders,
      and nothing but votes came between or after. */
  ghost predicate AgreedLive(h: seq<PeerEvent>, n: nat) {
    n > 0 ==>
      && h != []
      && (h[|h| - 1].Vote? ==> AgreedLive(h[..|h| - 1], n))
      && (!h[|h| - 1].Vote? ==>
        && h[|h| - 1].Completed? && |h[|h| - 1].votes| == K
        && h[|h| - 1].votes == OpenVotes(h[..|h| - 1])
        && Unanimous(h[|h| - 1].votes, Live)
        && AgreedLive(h[..|h| - 1], n - 1))
  }

  lemma {:induction false} StreakAgrees(h: seq<PeerEvent>, n: nat)
    requires Justified(h)
    ensures LiveStreak(h) >= n <==> AgreedLive(h, n)
  {
    hide Verdict;
    if n > 0 && h != [] {
      var front, e := h[..|h| - 1], h[|h| - 1];
      assert Justified(front) by {
        forall i | 0 <= i < |front| ensures front[..i] == h[..i] { }
      }
      if e.Vote? {
        StreakAgrees(front, n);
      } else if e.Completed? {
        VerdictIsUnanimous(e.votes, Live);
        StreakAgrees(front, n - 1);
      }
    }
  }

  /** In every run: a peer reported live had its last `BETA1` quorums agree on it, and a known peer
      is reported live once one quorum more than that has agreed. */
  lemma ReportedIsAgreed(run: seq<IceEvent>, p: Hash)
    ensures var v := After(run); var h := LogOf(v.log, p);
      && (Reported(v, p, Live) ==> AgreedLive(h, BETA1))
      && (p in v.decisions && AgreedLive(h, BETA1 + 1) ==> Reported(v, p, Live))
      && |Open(v.quorums, p)| < K
  {
    RunKeepsOk(run);
    var v := After(run);
    hide AgreedLive, After, LiveStreak;
    assert PeerOk(Open(v.quorums, p), Find(v.decisions, p), LogOf(v.log, p));
    StreakAgrees(LogOf(v.log, p), BETA1);
    StreakAgrees(LogOf(v.log, p), BETA1 + 1);
  }

  // The count of confirmed peers

  ghost function Strong(v: ReservoirValue): set<Hash> {
    set p | p in v.decisions && Reported(v, p, Live)
  }

  /** The bootstrap status is meant to say that `K` peers are confirmed live. By how much the counter
      behind it is ahead of their number. */
  ghost function Surplus(v: ReservoirValue): int {
    v.confirmed - |Strong(v)|
  }

  /** What a closing quorum about `p` adds to the surplus: it counts a peer already confirmed live again,
      or does not count that such a peer is lost; and it takes one off for a peer confirmed faulty. */
  ghost function QuorumDrift(v: ReservoirValue, p: Hash, q: Quorum): int {
    if p !in v.decisions then 0
    else if Reported(v, p, Live) then 1
    else if Verdict(q) == Some(Faulty) && v.decisions[p].choice == Faulty && v.decisions[p].conviction + 1 >= BETA1
      && v.confirmed > 0 then -1
    else 0
  }

  lemma QuorumDrifts(v: ReservoirValue, p: Hash, q: Quorum)
    ensures Surplus(Decided(v, p, q)) == Surplus(v) + QuorumDrift(v, p, q)
  {
    hide Verdict;
    var w := Decided(v, p, q);
    if p in v.decisions && Reported(w, p, Live) {
      assert Strong(w) == Strong(v) + {p};
      assert p in Strong(v) <==> Reported(v, p, Live);
      assert p in Strong(v) ==> Strong(v) + {p} == Strong(v);
    } else {
      assert Strong(w) == Strong(v) - {p};
      assert p !in Strong(v) ==> Strong(v) - {p} == Strong(v);
    }
  }

  ghost function OutcomeDrift(v: ReservoirValue, r: Hash, o: Outcome): int {
    var q := Voted(v, r, o.peer, o.choice).quorums[o.peer];
    if |q| >= K then QuorumDrift(v, o.peer, q) else 0
  }

  ghost function OutcomesDrift(v: ReservoirValue, r: Hash, outcomes: seq<Outcome>): int {
    if outcomes == [] then 0 else
    var front := outcomes[..|outcomes| - 1];
    OutcomesDrift(v, r, front) + OutcomeDrift(ProcessedAll(v, r, front), r, outcomes[|outcomes| - 1])
  }

  lemma OutcomeDrifts(v: ReservoirValue, r: Hash, o: Outcome)
    ensures Surplus(Processed(v, r, o)) == Surplus(v) + OutcomeDrift(v, r, o)
  {
    var voted := Voted(v, r, o.peer, o.choice);
    var q := voted.quorums[o.peer];
    assert Strong(voted) == Strong(v);
    hide Verdict, Decided, Extended;
    QuorumDrifts(voted, o.peer, q);
  }

  lemma {:induction false} OutcomesDrifts(v: ReservoirValue, r: Hash, outcomes: seq<Outcome>)
    ensures Surplus(ProcessedAll(v, r, outcomes)) == Surplus(v) + OutcomesDrift(v, r, outcomes)
  {
    hide Processed, OutcomeDrift, Surplus;
    if outcomes != [] {
      var front := outcomes[..|outcomes| - 1];
      OutcomesDrifts(v, r, front);
      OutcomeDrifts(ProcessedAll(v, r, front), r, outcomes[|outcomes| - 1]);
    }
  }

  /** What one event adds: a bootstrap entry or a failed ping loses a confirmed peer without counting. */
  ghost function Drift(v: ReservoirValue, e: IceEvent): int {
    match e
    case Bootstrapped(p, _) => if Reported(v, p, Live) then 1 else 0
    case Sampled(_, _) => 0
    case PingSuccess(r, outcomes) => OutcomesDrift(Responded(v, r), r, outcomes)
    case PingFailure(p) => if Reported(v, p, Live) then 1 else 0
  }

  /** Every event moves the surplus by exactly that; so a counter that equals the number of peers
      confirmed live still does afterwards if and only if the drift is zero. */
  lemma CounterFollows(v: ReservoirValue, e: IceEvent)
    ensures Surplus(Next(v, e)) == Surplus(v) + Drift(v, e)
    ensures v.confirmed == |Strong(v)| ==> (Next(v, e).confirmed == |Strong(Next(v, e))| <==> Drift(v, e) == 0)
  {
    match e
    case Bootstrapped(p, ip) => StrongWithout(v, Inserted(v, p, ip), p);
    case Sampled(p, ip) => StrongWithout(v, InsertedNew(v, p, ip), p);
    case PingSuccess(r, outcomes) =>
      StrongWithout(v, Responded(v, r), r);
      OutcomesDrifts(Responded(v, r), r, outcomes);
    case PingFailure(p) => StrongWithout(v, PingFailed(v, p), p);
  }

  /** A change of one entry that does not confirm it live. */
  lemma StrongWithout(v: ReservoirValue, w: ReservoirValue, p: Hash)
    requires w.confirmed == v.confirmed && !(Reported(w, p, Live) && !Reported(v, p, Live))
    requires forall x | x != p ::
      (x in w.decisions <==> x in v.decisions) && (x in v.decisions ==> w.decisions[x] == v.decisions[x])
    ensures Surplus(w) == Surplus(v) + if Reported(v, p, Live) && !Reported(w, p, Live) then 1 else 0
  {
    if Reported(v, p, Live) && !Reported(w, p, Live) {
      assert Strong(v) == Strong(w) + {p};
    } else {
      assert Strong(v) == Strong(w);
    }
  }

  ghost function TotalDrift(run: seq<IceEvent>): int {
    if run == [] then 0 else
    TotalDrift(run[..|run| - 1]) + Drift(After(run[..|run| - 1]), run[|run| - 1])
  }

  /** In every run the counter is the number of peers confirmed live plus all drifts. */
  lemma {:induction false} CounterIs(run: seq<IceEvent>)
    ensures After(run).confirmed == |Strong(After(run))| + TotalDrift(run)
  {
    hide Next, Drift, Strong;
    if run == [] {
      NoneStrong();
    } else {
      CounterIs(run[..|run| - 1]);
      CounterFollows(After(run[..|run| - 1]), run[|run| - 1]);
    }
  }

  lemma NoneStrong()
    ensures |Strong(Empty())| == 0
  {
    assert Strong(Empty()) == {};
  }

  /** One peer entered, and `n` quorums of two other nodes that agree it is live. */
  ghost function Rounds(p: Hash, a: Hash, b: Hash, n: nat): seq<IceEvent> {
    if n == 0 then [Bootstrapped(p, 0)]
    else Rounds(p, a, b, n - 1) + [PingSuccess(a, [Outcome(p, Live)]), PingSuccess(b, [Outcome(p, Live)])]
  }

  /** With a single peer the counter grows without bound. */
  lemma {:induction false} CounterRunsAway(p: Hash, a: Hash, b: Hash, n: nat)
    requires a != b && a != p && b != p
    ensures var v := After(Rounds(p, a, b, n));
      && v.quorums == map[] && v.decisions == map[p := Decision(0, Live, n)]
      && v.confirmed == if n < BETA1 then 0 else n - BETA1 + 1
  {
    hide Next, After, Processed, Empty;
    if n == 0 {
      AfterSnoc([], Bootstrapped(p, 0));
      assert [] + [Bootstrapped(p, 0)] == [Bootstrapped(p, 0)];
      FirstEvent(p);
    } else {
      CounterRunsAway(p, a, b, n - 1);
      var run, e, f := Rounds(p, a, b, n - 1), PingSuccess(a, [Outcome(p, Live)]), PingSuccess(b, [Outcome(p, Live)]);
      assert run + [e, f] == run + [e] + [f];
      AfterSnoc(run, e);
      AfterSnoc(run + [e], f);
      OneAnswer(After(run), a, p);
      OneRound(After(run), p, a, b);
      OneAnswer(Next(After(run), e), b, p);
    }
  }

  lemma AfterSnoc(run: seq<IceEvent>, e: IceEvent)
    ensures After(run + [e]) == Next(After(run), e) && After([]) == Empty()
  {
    assert (run + [e])[..|run|] == run;
  }

  lemma FirstEvent(p: Hash)
    ensures var v := Next(Empty(), Bootstrapped(p, 0));
      v.quorums == map[] && v.decisions == map[p := Decision(0, Live, 0)] && v.confirmed == 0
  {
  }

  lemma OneAnswer(v: ReservoirValue, r: Hash, p: Hash)
    requires r !in v.decisions
    ensures Next(v, PingSuccess(r, [Outcome(p, Live)])) == Processed(v, r, Outcome(p, Live))
  {
    hide Processed;
    var o := Outcome(p, Live);
    assert [o][..0] == [] && ProcessedAll(v, r, []) == v;
    assert ProcessedAll(v, r, [o]) == Processed(ProcessedAll(v, r, [o][..0]), r, [o][0]);
  }

  lemma OneRound(v: ReservoirValue, p: Hash, a: Hash, b: Hash)
    requires v.quorums == map[] && p in v.decisions && v.decisions[p].choice == Live && a != b
    ensures var first := Processed(v, a, Outcome(p, Live)); var w := Processed(first, b, Outcome(p, Live));
      && first.decisions == v.decisions && w.quorums == map[]
      && w.decisions == v.decisions[p := v.decisions[p].(conviction := v.decisions[p].conviction + 1)]
      && w.confirmed == v.confirmed + if v.decisions[p].conviction + 1 >= BETA1 then 1 else 0
  {
    FirstVote(v, p, a);
    SecondVote(Processed(v, a, Outcome(p, Live)), p, map[a := Live], b);
  }

  lemma FirstVote(v: ReservoirValue, p: Hash, a: Hash)
    requires v.quorums == map[]
    ensures var first := Processed(v, a, Outcome(p, Live));
      first.decisions == v.decisions && first.confirmed == v.confirmed && first.quorums == map[p := map[a := Live]]
  {
    var q: Quorum := map[a := Live];
    assert |q| == 1;
  }

  lemma SecondVote(v: ReservoirValue, p: Hash, q: Quorum, b: Hash)
    requires v.quorums == map[p := q] && |q| == 1 && Unanimous(q, Live) && b !in q
    requires p in v.decisions && v.decisions[p].choice == Live
    ensures var w := Processed(v, b, Outcome(p, Live));
      && w.quorums == map[]
      && w.decisions == v.decisions[p := v.decisions[p].(conviction := v.decisions[p].conviction + 1)]
      && w.confirmed == v.confirmed + if v.decisions[p].conviction + 1 >= BETA1 then 1 else 0
  {
    var both: Quorum := q[b := Live];
    assert |both| == 2 by { assert both.Keys == q.Keys + {b}; }
    VerdictIsUnanimous(both, Live);
    hide Verdict, Extended, Unanimous;
    assert Voted(v, b, p, Live).quorums[p] == both;
  }

  // The operations

  /** What `process_outcome` returns. */
  ghost predicate Flips(v: ReservoirValue, r: Hash, o: Outcome) {
    var q := Voted(v, r, o.peer, o.choice).quorums[o.peer];
    var after := Processed(v, r, o);
    |q| >= K && Verdict(q).Some? && after.confirmed >= K && Reported(after, o.peer, o.choice)
  }

  ghost predicate FlipsAny(v: ReservoirValue, r: Hash, outcomes: seq<Outcome>) {
    outcomes != [] &&
    var n := |outcomes| - 1;
    FlipsAny(v, r, outcomes[..n]) || Flips(ProcessedAll(v, r, outcomes[..n]), r, outcomes[n])
  }

  class Reservoir {
    var quorums: map<Hash, Quorum>
    var decisions: map<Hash, Decision>
    var confirmed: nat
    ghost var log: Log

    ghost function Value(): ReservoirValue reads this {
      ReservoirValue(quorums, decisions, confirmed, log)
    }

    constructor ()
      ensures Value() == Empty()
    {
      quorums, decisions, confirmed, log := map[], map[], 0, map[];
    }

    /** `insert(_, _, Live, 0)`, which is how bootstrap peers are entered. */
    method Insert(p: Hash, ip: nat)
      modifies this
      ensures Value() == Inserted(old(Value()), p, ip)
      ensures Value() == Next(old(Value()), Bootstrapped(p, ip))
    {
      decisions := decisions[p := Decision(ip, Live, 0)];
      log := Extended(log, p, Placed(ip));
    }

    /** `insert_new(_, _, Live, 0)`, which is how sampled peers are entered. */
    method InsertNew(p: Hash, ip: nat)
      modifies this
      ensures Value() == Next(old(Value()), Sampled(p, ip))
    {
      if p !in decisions {
        Insert(p, ip);
      }
    }

    /** `update_choice(_, Faulty)`, after a ping that failed. */
    method UpdateToFaulty(p: Hash) returns (bootstrapped: bool)
      modifies this
      ensures Value() == Next(old(Value()), PingFailure(p))
      ensures bootstrapped <==> confirmed >= K
    {
      if p in decisions && decisions[p].choice != Faulty {
        decisions := decisions[p := decisions[p].(choice := Faulty, conviction := 0)];
      }
      log := Extended(log, p, Failed);
      bootstrapped := confirmed >= K;
    }

    method SetChoice(p: Hash, c: Choice)
      modifies this
      ensures decisions == if p in old(decisions) then
        old(decisions)[p := old(decisions)[p].(choice := c, conviction := 0)]
        else old(decisions)
      ensures quorums == old(quorums) && confirmed == old(confirmed) && log == old(log)
    {
      if p in decisions {
        decisions := decisions[p := decisions[p].(choice := c, conviction := 0)];
      }
    }

    /** Answering a query never changes the reservoir: a choice is set only where there is no entry
        to set it in. */
    method ProcessQuery(self: Hash, p: Hash, c: Choice) returns (o: Outcome)
      modifies this
      ensures Value() == old(Value())
      ensures o == Outcome(p, if p == self then Live else if p in decisions then decisions[p].choice else c)
    {
      if p == self {
        return Outcome(p, Live);
      }
      if p in decisions {
        return Outcome(p, decisions[p].choice);
      }
      SetChoice(p, c);
      return Outcome(p, c);
    }

    method ResetFaultyDecision(p: Hash)
      modifies this
      ensures Value() == Responded(old(Value()), p)
    {
      if p in decisions && decisions[p].choice == Faulty {
        decisions := decisions[p := decisions[p].(choice := Live, conviction := 0)];
        log := Extended(log, p, Revived);
      }
    }

    method ProcessQuorum(r: Hash, p: Hash, c: Choice) returns (q: Quorum)
      modifies this
      ensures Value() == Voted(old(Value()), r, p, c) && q == Value().quorums[p]
    {
      log := Extended(log, p, Vote(r, c));
      if p in quorums {
        q := quorums[p];
        if r in q {
          assert quorums == quorums[p := q];
          return;
        }
        q := q[r := c];
      } else {
        q := map[r := c];
      }
      quorums := quorums[p := q];
    }

    method ProcessDecision(p: Hash, q: Quorum) returns (bootstrapped: bool)
      modifies this
      ensures Value() == Decided(old(Value()), p, q)
      ensures bootstrapped <==> Verdict(q).Some? && confirmed >= K
    {
      hide Verdict;
      var verdict := Decide(q);
      log := Extended(log, p, Completed(q));
      quorums := quorums - {p};
      if p in decisions {
        var d := decisions[p];
        if verdict.None? {
          decisions := decisions[p := d.(conviction := 0)];
        } else if verdict.value != d.choice {
          decisions := decisions[p := d.(choice := verdict.value, conviction := 0)];
        } else {
          var c := d.conviction + 1;
          decisions := decisions[p := d.(conviction := c)];
          if confirmed > 0 && d.choice == Faulty && c >= BETA1 {
            confirmed := confirmed - 1;
          } else if d.choice == Live && c >= BETA1 {
            confirmed := confirmed + 1;
          }
        }
      }
      return verdict.Some? && confirmed >= K;
    }

    method ProcessOutcome(r: Hash, o: Outcome) returns (flipped: bool)
      modifies this
      ensures Value() == Processed(old(Value()), r, o)
      ensures flipped <==> Flips(old(Value()), r, o)
    {
      hide Verdict, Decided, Voted;
      var q := ProcessQuorum(r, o.peer, o.choice);
      if |q| >= K {
        var bootstrapped := ProcessDecision(o.peer, q);
        if bootstrapped {
          var endpoint := StrongEndpoint(o.peer, o.choice);
          return endpoint.Some?;
        }
      }
      return false;
    }

    /** Answers to a ping, taken one after the other. */
    method Fill(r: Hash, outcomes: seq<Outcome>) returns (bootstrapped: bool, changed: bool)
      modifies this
      ensures Value() == Next(old(Value()), PingSuccess(r, outcomes))
      ensures bootstrapped <==> confirmed >= K
      ensures changed <==> FlipsAny(Responded(old(Value()), r), r, outcomes)
    {
      hide Processed, Flips;
      ResetFaultyDecision(r);
      ghost var start := Value();
      hide Responded;
      changed := false;
      for i := 0 to |outcomes|
        invariant Value() == ProcessedAll(start, r, outcomes[..i])
        invariant changed <==> FlipsAny(start, r, outcomes[..i])
      {
        assert outcomes[..i + 1][..i] == outcomes[..i];
        var flipped := ProcessOutcome(r, outcomes[i]);
        changed := changed || flipped;
      }
      assert outcomes[..|outcomes|] == outcomes;
      bootstrapped := confirmed >= K;
    }

    method StrongEndpoint(p: Hash, c: Choice) returns (ip: Option<nat>)
      ensures ip.Some? <==> Reported(Value(), p, c)
      ensures ip.Some? ==> ip.value == decisions[p].ip
    {
      if p in decisions && decisions[p].choice == c && decisions[p].conviction >= BETA1 {
        return Some(decisions[p].ip);
      }
      return None;
    }

    method GetLivePeers() returns (peers: map<Hash, nat>)
      ensures forall p :: p in peers <==> Reported(Value(), p, Live)
      ensures forall p | p in peers :: p in decisions && peers[p] == decisions[p].ip
    {
      peers := map[];
      var left := decisions.Keys;
      while left != {}
        invariant left <= decisions.Keys
        invariant forall p :: p in peers <==> p !in left && Reported(Value(), p, Live)
        invariant forall p | p in peers :: p in decisions && peers[p] == decisions[p].ip
      {
        var p :| p in left;
        if decisions[p].choice == Live && decisions[p].conviction >= BETA1 {
          peers := peers[p := decisions[p].ip];
        }
        left := left - {p};
      }
    }
  }
}
