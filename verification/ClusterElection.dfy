/** Safety of failover elections: at most one replica wins a given epoch. */
module ClusterElection {
  import opened ClusterEpochs

  /** The timing assumption behind the ACK filter of clusterProcessPacket: no ACK is
      counted by a replica between the moment it resets its vote counter and the moment
      it picks the next election epoch. */
  ghost predicate AckOutsideWindow(voters: set<NodeId>, c: Cluster, st: Step)
    requires Enabled(c, st)
  {
    st.ReceiveAck? && Counts(voters, c, st.p) ==> c.nodes[st.p.to].authSent
  }

  ghost predicate TimelyRun(voters: set<NodeId>, c: Cluster, run: seq<Step>)
    requires ValidRun(voters, c, run)
    decreases |run|
  {
    run == [] || (AckOutsideWindow(voters, c, run[0]) && TimelyRun(voters, Apply(voters, c, run[0]), run[1..]))
  }

  // ---------------------------------------------------------------------------
  // Invariants
  // ---------------------------------------------------------------------------

  /** A voter votes at most once per epoch, and its votes never run ahead of
      lastVoteEpoch nor of the replica's own attempts. */
  ghost predicate VotesUnique(c: Cluster) {
    forall v, w :: v in c.votes && w in c.votes && v.voter == w.voter && v.epoch == w.epoch ==> v == w
  }

  ghost predicate VotesBounded(voters: set<NodeId>, c: Cluster) {
    forall v :: v in c.votes ==>
      && v.voter in voters && v.voter in c.nodes && v.replica in c.nodes
      && v.epoch <= c.nodes[v.voter].lastVoteEpoch
      && v.epoch <= c.nodes[v.replica].authEpoch
  }

  ghost predicate PacketsTrue(c: Cluster) {
    && (forall p :: p in c.net && p.AuthRequest? ==>
          p.h.sender in c.nodes && p.h.currentEpoch <= c.nodes[p.h.sender].authEpoch)
    && (forall p :: p in c.net && p.AuthAck? ==> Vote(p.h.sender, p.h.currentEpoch, p.to) in c.votes)
  }

  /** Two ACKs of one voter for one epoch are the same packet. */
  ghost predicate AcksUnique(c: Cluster) {
    forall p, q :: (p in c.net && q in c.net && p.AuthAck? && q.AuthAck?
                    && p.h.sender == q.h.sender && p.h.currentEpoch == q.h.currentEpoch) ==> p == q
  }

  /** failover_auth_count is the number of distinct voters counted in this attempt; each
      of them voted for this replica in this epoch and its ACK is no longer in flight. */
  ghost predicate CountTrue(c: Cluster, r: NodeId)
    requires r in c.nodes
  {
    var s := c.nodes[r];
    && s.authCount == |Counted(c, r)|
    && (!s.authSent ==> Counted(c, r) == {})
    && (forall v :: v in Counted(c, r) ==> Vote(v, s.authEpoch, r) in c.votes)
    && (forall p :: p in c.net && p.AuthAck? && p.h.currentEpoch == s.authEpoch ==> p.h.sender !in Counted(c, r))
  }

  ghost predicate WinsSupported(voters: set<NodeId>, c: Cluster) {
    forall w :: w in c.wins ==>
      && |w.supporters| >= Quorum(|voters|)
      && (forall v :: v in w.supporters ==> Vote(v, w.epoch, w.replica) in c.votes)
  }

  ghost predicate ElectionInv(voters: set<NodeId>, c: Cluster) {
    && EpochBound(c)
    && VotesUnique(c) && VotesBounded(voters, c)
    && PacketsTrue(c) && AcksUnique(c)
    && (forall r :: r in c.nodes ==> CountTrue(c, r))
    && WinsSupported(voters, c)
  }

  lemma InitElectionInv(voters: set<NodeId>, c: Cluster)
    requires Init(c)
    ensures ElectionInv(voters, c)
  {}

  // ---------------------------------------------------------------------------
  // Steps
  // ---------------------------------------------------------------------------

  /** A change that leaves the election fields, the votes and the election packets alone. */
  ghost predicate Quiet(c: Cluster, c': Cluster) {
    && c'.nodes.Keys == c.nodes.Keys
    && (forall n :: n in c.nodes ==> SameElection(c.nodes[n], c'.nodes[n]))
    && c'.votes == c.votes && c'.counted == c.counted && c'.wins == c.wins
    && (forall p :: p in c'.net && (p.AuthAck? || p.AuthRequest?) ==> p in c.net)
  }

  ghost predicate SameElection(s: NodeView, t: NodeView) {
    && t.lastVoteEpoch == s.lastVoteEpoch && t.authEpoch == s.authEpoch
    && t.authCount == s.authCount && t.authSent == s.authSent
  }

  lemma QuietKeepsElection(voters: set<NodeId>, c: Cluster, c': Cluster)
    requires ElectionInv(voters, c) && EpochBound(c') && Quiet(c, c')
    ensures ElectionInv(voters, c')
  {
    forall r | r in c'.nodes ensures CountTrue(c', r) {
      assert SameElection(c.nodes[r], c'.nodes[r]) && CountTrue(c, r);
    }
    forall v | v in c'.votes ensures v.voter in c'.nodes && v.replica in c'.nodes
      && v.epoch <= c'.nodes[v.voter].lastVoteEpoch && v.epoch <= c'.nodes[v.replica].authEpoch
    {
      assert SameElection(c.nodes[v.voter], c'.nodes[v.voter]);
    }
  }

  lemma SeenKeepsElection(voters: set<NodeId>, c: Cluster, n: NodeId, p: Packet)
    requires ElectionInv(voters, c) && n in c.nodes && p in c.net
    ensures ElectionInv(voters, Seen(c, n, p.h))
  {
    assert PacketBound(p);
    assert EpochBound(Seen(c, n, p.h));
    QuietKeepsElection(voters, c, Seen(c, n, p.h));
  }

  lemma GrantKeepsElection(voters: set<NodeId>, c: Cluster, n: NodeId, to: NodeId)
    requires ElectionInv(voters, c) && n in c.nodes && to in c.nodes && n in voters
    requires c.nodes[n].lastVoteEpoch < c.nodes[n].currentEpoch <= c.nodes[to].authEpoch
    ensures ElectionInv(voters, Granted(c, n, to))
  {
    var c', s := Granted(c, n, to), c.nodes[n];
    forall r | r in c'.nodes ensures CountTrue(c', r) {
      GrantKeepsCount(voters, c, n, to, r);
    }
    assert NodeBound(s) && PacketBound(AuthAck(HeaderOf(s, n, n), to));
    BoundFrame(c, c', n);
    GrantKeepsVotes(voters, c, n, to);
    GrantKeepsPackets(voters, c, n, to);
  }

  lemma GrantKeepsVotes(voters: set<NodeId>, c: Cluster, n: NodeId, to: NodeId)
    requires VotesUnique(c) && VotesBounded(voters, c) && n in c.nodes && to in c.nodes && n in voters
    requires c.nodes[n].lastVoteEpoch < c.nodes[n].currentEpoch <= c.nodes[to].authEpoch
    ensures VotesUnique(Granted(c, n, to)) && VotesBounded(voters, Granted(c, n, to))
  {}

  lemma GrantKeepsPackets(voters: set<NodeId>, c: Cluster, n: NodeId, to: NodeId)
    requires VotesBounded(voters, c) && PacketsTrue(c) && AcksUnique(c) && n in c.nodes
    requires c.nodes[n].lastVoteEpoch < c.nodes[n].currentEpoch
    ensures PacketsTrue(Granted(c, n, to)) && AcksUnique(Granted(c, n, to))
  {
    forall p | p in c.net && p.AuthAck? && p.h.sender == n ensures p.h.currentEpoch < c.nodes[n].currentEpoch {
      assert Vote(n, p.h.currentEpoch, p.to) in c.votes;
    }
  }

  lemma GrantKeepsCount(voters: set<NodeId>, c: Cluster, n: NodeId, to: NodeId, r: NodeId)
    requires ElectionInv(voters, c) && n in c.nodes && r in c.nodes
    requires c.nodes[n].lastVoteEpoch < c.nodes[n].currentEpoch
    ensures CountTrue(Granted(c, n, to), r)
  {
    assert CountTrue(c, r);
    if n in Counted(c, r) {
      assert Vote(n, c.nodes[r].authEpoch, r) in c.votes;
    }
  }

  lemma RequestStep(voters: set<NodeId>, c: Cluster, st: Step)
    requires ElectionInv(voters, c) && Enabled(c, st) && st.ReceiveRequest?
    ensures ElectionInv(voters, Apply(voters, c, st))
  {
    var n, h := st.n, st.p.h;
    SeenKeepsElection(voters, c, n, st.p);
    var seen := Seen(c, n, h);
    if h.sender in c.nodes[n].configEpoch && Grants(seen.nodes[n], h, st.ctx.(amVoter := n in voters)) {
      assert NodeBound(seen.nodes[n]);
      GrantKeepsElection(voters, seen, n, h.sender);
    }
  }

  /** The count stays true when an ACK of this attempt is taken and counted. */
  lemma TakenKeepsCount(c: Cluster, p: Packet, r: NodeId)
    requires p in c.net && p.AuthAck? && p.to in c.nodes && r in c.nodes && CountTrue(c, r) && AcksUnique(c)
    requires c.nodes[p.to].authSent && p.h.currentEpoch == c.nodes[p.to].authEpoch
    requires Vote(p.h.sender, p.h.currentEpoch, p.to) in c.votes
    ensures CountTrue(Taken(c, p, true), r)
  {
    var c' := Taken(c, p, true);
    assert Counted(c', r) == if r == p.to then Counted(c, r) + {p.h.sender} else Counted(c, r);
  }

  lemma TakenKeepsElection(voters: set<NodeId>, c: Cluster, p: Packet, counts: bool)
    requires ElectionInv(voters, c) && p in c.net && p.AuthAck? && p.to in c.nodes
    requires counts ==> c.nodes[p.to].authSent && p.h.currentEpoch >= c.nodes[p.to].authEpoch
    ensures ElectionInv(voters, Taken(c, p, counts))
  {
    var c' := Taken(c, p, counts);
    if !counts {
      QuietKeepsElection(voters, c, c');
    } else {
      assert NodeBound(c.nodes[p.to]);
      BoundFrame(c, c', p.to);
      forall r | r in c'.nodes ensures CountTrue(c', r) { TakenKeepsCount(c, p, r); }
      TakenKeepsVotes(voters, c, p);
    }
  }

  lemma TakenKeepsVotes(voters: set<NodeId>, c: Cluster, p: Packet)
    requires p.AuthAck? && p.to in c.nodes && VotesBounded(voters, c) && PacketsTrue(c)
    ensures VotesBounded(voters, Taken(c, p, true)) && PacketsTrue(Taken(c, p, true))
  {}

  lemma AckStep(voters: set<NodeId>, c: Cluster, st: Step)
    requires ElectionInv(voters, c) && Enabled(c, st) && st.ReceiveAck? && AckOutsideWindow(voters, c, st)
    ensures ElectionInv(voters, Apply(voters, c, st))
  {
    SeenKeepsElection(voters, c, st.p.to, st.p);
    TakenKeepsElection(voters, Seen(c, st.p.to, st.p.h), st.p, Counts(voters, c, st.p));
  }

  /** The assumption is exact for one delivery: an ACK counted inside the window leaves a
      vote in a counter that should be empty, and nothing else breaks the invariant. */
  lemma AckKeepsElectionIff(voters: set<NodeId>, c: Cluster, st: Step)
    requires ElectionInv(voters, c) && Enabled(c, st) && st.ReceiveAck?
    ensures ElectionInv(voters, Apply(voters, c, st)) <==> AckOutsideWindow(voters, c, st)
  {
    if AckOutsideWindow(voters, c, st) {
      AckStep(voters, c, st);
    } else {
      var c' := Apply(voters, c, st);
      assert st.p.h.sender in Counted(c', st.p.to);
      assert !CountTrue(c', st.p.to);
    }
  }

  lemma ScheduleKeepsElection(voters: set<NodeId>, c: Cluster, n: NodeId, c': Cluster)
    requires ElectionInv(voters, c) && n in c.nodes
    requires c' == c.(nodes := c.nodes[n := ResetAttempt(c.nodes[n])], counted := c.counted[n := {}])
    ensures ElectionInv(voters, c')
  {
    assert NodeBound(c'.nodes[n]) by { assert NodeBound(c.nodes[n]); }
    forall r | r in c'.nodes ensures CountTrue(c', r) { assert CountTrue(c, r); }
  }

  /** A new attempt: the election epoch rises above every epoch this replica used before,
      so no vote and no ACK of an earlier attempt carries it. */
  ghost function Attempt(c: Cluster, n: NodeId, m: NodeId): Cluster
    requires n in c.nodes
  {
    c.(nodes := c.nodes[n := NewAttempt(c.nodes[n])], counted := c.counted[n := {}],
       net := c.net + {AuthRequest(HeaderOf(NewAttempt(c.nodes[n]), n, m))})
  }

  lemma AttemptKeepsElection(voters: set<NodeId>, c: Cluster, n: NodeId, m: NodeId)
    requires ElectionInv(voters, c) && n in c.nodes && !c.nodes[n].authSent
    ensures ElectionInv(voters, Attempt(c, n, m))
  {
    var c', s := Attempt(c, n, m), c.nodes[n];
    assert NodeBound(s) && CountTrue(c, n);
    SentWithinBound(s, n, m);
    BoundFrame(c, c', n);
    forall r | r in c'.nodes ensures CountTrue(c', r) {
      AttemptKeepsCount(c, n, m, r);
    }
    AttemptKeepsVotes(voters, c, n, m);
  }

  lemma AttemptKeepsCount(c: Cluster, n: NodeId, m: NodeId, r: NodeId)
    requires n in c.nodes && r in c.nodes && CountTrue(c, r) && !c.nodes[n].authSent
    ensures CountTrue(Attempt(c, n, m), r)
  {
    assert Counted(Attempt(c, n, m), r) == if r == n then {} else Counted(c, r);
  }

  lemma AttemptKeepsVotes(voters: set<NodeId>, c: Cluster, n: NodeId, m: NodeId)
    requires n in c.nodes && VotesBounded(voters, c) && PacketsTrue(c) && NodeBound(c.nodes[n]) && AcksUnique(c)
    ensures VotesBounded(voters, Attempt(c, n, m)) && PacketsTrue(Attempt(c, n, m)) && AcksUnique(Attempt(c, n, m))
  {}

  ghost function Crowned(c: Cluster, n: NodeId): Cluster
    requires n in c.nodes
  {
    c.(nodes := c.nodes[n := Promote(c.nodes[n], n)],
       wins := c.wins + {Win(n, c.nodes[n].authEpoch, Counted(c, n))})
  }

  lemma CrownKeepsElection(voters: set<NodeId>, c: Cluster, n: NodeId)
    requires ElectionInv(voters, c) && n in c.nodes && c.nodes[n].authCount >= Quorum(|voters|)
    ensures ElectionInv(voters, Crowned(c, n))
  {
    var moved := c.(nodes := c.nodes[n := Promote(c.nodes[n], n)]);
    assert NodeBound(c.nodes[n]) && CountTrue(c, n);
    BoundFrame(c, moved, n);
    QuietKeepsElection(voters, c, moved);
    WinKeepsElection(voters, moved, n);
  }

  lemma WinKeepsElection(voters: set<NodeId>, c: Cluster, n: NodeId)
    requires ElectionInv(voters, c) && n in c.nodes && c.nodes[n].authCount >= Quorum(|voters|)
    ensures ElectionInv(voters, c.(wins := c.wins + {Win(n, c.nodes[n].authEpoch, Counted(c, n))}))
  {
    var c' := c.(wins := c.wins + {Win(n, c.nodes[n].authEpoch, Counted(c, n))});
    forall r | r in c'.nodes ensures CountTrue(c', r) { assert CountTrue(c, r); }
  }

  lemma FailoverStep(voters: set<NodeId>, c: Cluster, st: Step)
    requires ElectionInv(voters, c) && Enabled(c, st) && st.HandleFailover?
    ensures ElectionInv(voters, Apply(voters, c, st))
  {
    match FailoverDecision(c.nodes[st.n], st.inputs, |voters|)
    case Idle => QuietKeepsElection(voters, c, Apply(voters, c, st));
    case Scheduled => ScheduleKeepsElection(voters, c, st.n, Apply(voters, c, st));
    case Requested => AttemptKeepsElection(voters, c, st.n, st.speaksFor);
    case Won => CrownKeepsElection(voters, c, st.n);
  }

  lemma OtherStepQuiet(voters: set<NodeId>, c: Cluster, st: Step)
    requires Enabled(c, st) && !st.ReceiveRequest? && !st.ReceiveAck? && !st.HandleFailover?
    ensures Quiet(c, Apply(voters, c, st))
  {}

  lemma OtherStep(voters: set<NodeId>, c: Cluster, st: Step)
    requires ElectionInv(voters, c) && Enabled(c, st)
    requires !st.ReceiveRequest? && !st.ReceiveAck? && !st.HandleFailover?
    ensures ElectionInv(voters, Apply(voters, c, st))
  {
    EpochBoundStep(voters, c, st);
    OtherStepQuiet(voters, c, st);
    QuietKeepsElection(voters, c, Apply(voters, c, st));
  }

  lemma ElectionInvStep(voters: set<NodeId>, c: Cluster, st: Step)
    requires ElectionInv(voters, c) && Enabled(c, st) && AckOutsideWindow(voters, c, st)
    ensures ElectionInv(voters, Apply(voters, c, st))
  {
    if st.ReceiveRequest? { RequestStep(voters, c, st); }
    else if st.ReceiveAck? { AckStep(voters, c, st); }
    else if st.HandleFailover? { FailoverStep(voters, c, st); }
    else { OtherStep(voters, c, st); }
  }

  lemma {:induction false} ElectionInvAlways(voters: set<NodeId>, c: Cluster, run: seq<Step>)
    requires ElectionInv(voters, c) && ValidRun(voters, c, run) && TimelyRun(voters, c, run)
    ensures ElectionInv(voters, Run(voters, c, run))
    decreases |run|
  {
    if run != [] {
      ElectionInvStep(voters, c, run[0]);
      ElectionInvAlways(voters, Apply(voters, c, run[0]), run[1..]);
    }
  }

  // ---------------------------------------------------------------------------
  // Safety
  // ---------------------------------------------------------------------------

  lemma QuorumsMeet(voters: set<NodeId>, a: set<NodeId>, b: set<NodeId>)
    requires a <= voters && b <= voters
    requires |a| >= Quorum(|voters|) && |b| >= Quorum(|voters|)
    ensures exists v :: v in a && v in b
  {
    if a !! b {
      assert |a + b| == |a| + |b|;
      SubsetSize(a + b, voters);
    }
  }

  /** In every timely run, two wins of one election epoch are wins of one replica. */
  lemma ElectionSafety(voters: set<NodeId>, c: Cluster, run: seq<Step>, x: Win, y: Win)
    requires Init(c) && ValidRun(voters, c, run) && TimelyRun(voters, c, run)
    requires x in Run(voters, c, run).wins && y in Run(voters, c, run).wins
    requires x.epoch == y.epoch
    ensures x.replica == y.replica
  {
    InitElectionInv(voters, c);
    ElectionInvAlways(voters, c, run);
    QuorumsMeet(voters, x.supporters, y.supporters);
    var v :| v in x.supporters && v in y.supporters;
    assert Vote(v, x.epoch, x.replica) == Vote(v, y.epoch, y.replica);
  }

  // ---------------------------------------------------------------------------
  // Why the assumption is needed
  // ---------------------------------------------------------------------------

  /** The node that takes a step. */
  function Actor(st: Step): NodeId {
    match st
    case SendPing(n, _) => n
    case SendUpdate(n, _, _) => n
    case ReceivePing(n, _, _) => n
    case ReceiveUpdate(n, _) => n
    case BumpEpoch(n) => n
    case ReceiveRequest(n, _, _) => n
    case ReceiveAck(p) => if p.AuthAck? then p.to else 0
    case HandleFailover(n, _, _) => n
  }

  ghost predicate Silent(run: seq<Step>, n: NodeId) {
    forall i :: 0 <= i < |run| ==> Actor(run[i]) != n
  }

  /** The failed master. It still counts as a voter: the size of the cluster is the number of
      masters with slots, failed or not. */
  const FAILED: NodeId := 3

  /** A run from `c` to `d` in which the failed master does nothing. */
  ghost predicate Reaches(voters: set<NodeId>, c: Cluster, d: Cluster) {
    exists run :: ValidRun(voters, c, run) && Run(voters, c, run) == d && Silent(run, FAILED)
  }

  lemma {:induction false} ExtendRun(voters: set<NodeId>, c: Cluster, run: seq<Step>, st: Step)
    requires ValidRun(voters, c, run) && Enabled(Run(voters, c, run), st)
    ensures ValidRun(voters, c, run + [st])
    ensures Run(voters, c, run + [st]) == Apply(voters, Run(voters, c, run), st)
    decreases |run|
  {
    var longer := run + [st];
    if run == [] {
      assert longer[1..] == [] && longer[0] == st;
      assert Run(voters, Apply(voters, c, st), []) == Apply(voters, c, st);
    } else {
      assert longer[1..] == run[1..] + [st] && longer[0] == run[0];
      ExtendRun(voters, Apply(voters, c, run[0]), run[1..], st);
    }
  }

  lemma ReachesNext(voters: set<NodeId>, c: Cluster, d: Cluster, st: Step)
    requires Reaches(voters, c, d) && Enabled(d, st) && Actor(st) != FAILED
    ensures Reaches(voters, c, Apply(voters, d, st))
  {
    var run :| ValidRun(voters, c, run) && Run(voters, c, run) == d && Silent(run, FAILED);
    ExtendRun(voters, c, run, st);
  }

  const ASK := FailoverInputs(true, false, false, false, false)
  const RETRY := FailoverInputs(true, false, true, false, false)
  const WILLING := VoteContext(true, false, true, true, false, false, [])

  /** Only node `n` differs, packets stay unless `gone`, and wins are kept. */
  ghost predicate OnlyMoves(c: Cluster, d: Cluster, n: NodeId, gone: set<Packet>) {
    && d.nodes.Keys == c.nodes.Keys
    && (forall m :: m in c.nodes && m != n ==> d.nodes[m] == c.nodes[m])
    && c.net - gone <= d.net && c.wins <= d.wins
  }

  lemma Asks(V: set<NodeId>, c0: Cluster, c: Cluster, n: NodeId) returns (d: Cluster)
    requires Reaches(V, c0, c) && n in c.nodes && n != FAILED && !c.nodes[n].authSent
    ensures Reaches(V, c0, d) && OnlyMoves(c, d, n, {}) && d.nodes[n] == NewAttempt(c.nodes[n])
    ensures AuthRequest(HeaderOf(d.nodes[n], n, FAILED)) in d.net
  {
    d := Apply(V, c, HandleFailover(n, ASK, FAILED));
    ReachesNext(V, c0, c, HandleFailover(n, ASK, FAILED));
  }

  lemma Retries(V: set<NodeId>, c0: Cluster, c: Cluster, n: NodeId) returns (d: Cluster)
    requires Reaches(V, c0, c) && n in c.nodes && n != FAILED
    ensures Reaches(V, c0, d) && OnlyMoves(c, d, n, {}) && d.nodes[n] == ResetAttempt(c.nodes[n])
  {
    d := Apply(V, c, HandleFailover(n, RETRY, FAILED));
    ReachesNext(V, c0, c, HandleFailover(n, RETRY, FAILED));
  }

  lemma Wins(V: set<NodeId>, c0: Cluster, c: Cluster, n: NodeId) returns (d: Cluster)
    requires Reaches(V, c0, c) && n in c.nodes && n != FAILED && c.nodes[n].authSent && c.nodes[n].authCount >= Quorum(|V|)
    ensures Reaches(V, c0, d) && OnlyMoves(c, d, n, {})
    ensures exists w :: w in d.wins && w.replica == n && w.epoch == c.nodes[n].authEpoch
  {
    d := Apply(V, c, HandleFailover(n, ASK, FAILED));
    ReachesNext(V, c0, c, HandleFailover(n, ASK, FAILED));
    assert Win(n, c.nodes[n].authEpoch, Counted(c, n)) in d.wins;
  }

  lemma Votes(V: set<NodeId>, c0: Cluster, c: Cluster, n: NodeId, h: Header) returns (d: Cluster)
    requires Reaches(V, c0, c) && n in c.nodes && n in V && n != FAILED && AuthRequest(h) in c.net
    requires h.sender in c.nodes[n].configEpoch && h.configEpoch <= c.nodes[n].configEpoch[h.sender]
    requires c.nodes[n].lastVoteEpoch < h.currentEpoch && c.nodes[n].currentEpoch <= h.currentEpoch
    ensures Reaches(V, c0, d) && OnlyMoves(c, d, n, {})
    ensures d.nodes[n] == c.nodes[n].(currentEpoch := h.currentEpoch, lastVoteEpoch := h.currentEpoch)
    ensures AuthAck(Header(n, h.currentEpoch, KnownEpoch(c.nodes[n], n)), h.sender) in d.net
  {
    var s := c.nodes[n];
    assert s.configEpoch[h.sender := s.configEpoch[h.sender]] == s.configEpoch;
    assert SeeHeader(s, h) == s.(currentEpoch := h.currentEpoch);
    d := Apply(V, c, ReceiveRequest(n, AuthRequest(h), WILLING));
    ReachesNext(V, c0, c, ReceiveRequest(n, AuthRequest(h), WILLING));
  }

  lemma Hears(V: set<NodeId>, c0: Cluster, c: Cluster, h: Header, to: NodeId) returns (d: Cluster)
    requires Reaches(V, c0, c) && to in c.nodes && to != FAILED && AuthAck(h, to) in c.net && h.sender in V
    requires h.sender in c.nodes[to].configEpoch && h.configEpoch <= c.nodes[to].configEpoch[h.sender]
    requires c.nodes[to].authEpoch <= h.currentEpoch <= c.nodes[to].currentEpoch
    ensures Reaches(V, c0, d) && OnlyMoves(c, d, to, {AuthAck(h, to)}) && d.nodes[to] == CountAck(c.nodes[to])
  {
    var s := c.nodes[to];
    assert s.configEpoch[h.sender := s.configEpoch[h.sender]] == s.configEpoch;
    assert SeeHeader(s, h) == s;
    d := Apply(V, c, ReceiveAck(AuthAck(h, to)));
    ReachesNext(V, c0, c, ReceiveAck(AuthAck(h, to)));
  }

  const FIVE: map<NodeId, nat> := map[1 := 0, 2 := 0, 3 := 0, 4 := 0, 5 := 0]
  const AT_ZERO := NodeView(0, 0, FIVE, 0, 0, false)

  /** Three masters (1, 2, 3), the last of which failed, and its replicas (4, 5), all at epoch 0. */
  ghost function Fresh(): Cluster {
    Cluster(map[1 := AT_ZERO, 2 := AT_ZERO, 3 := AT_ZERO, 4 := AT_ZERO, 5 := AT_ZERO], {}, {}, map[], {})
  }

  const VOTED := AT_ZERO.(currentEpoch := 1, lastVoteEpoch := 1)
  const COUNTED := AT_ZERO.(currentEpoch := 1, authEpoch := 1, authCount := 1)

  ghost predicate Standing(d: Cluster, one: NodeView, two: NodeView, four: NodeView, five: NodeView) {
    && d.nodes.Keys == {1, 2, 3, 4, 5}
    && d.nodes[1] == one && d.nodes[2] == two && d.nodes[4] == four && d.nodes[5] == five
    && Reaches({1, 2, 3}, Fresh(), d)
  }

  ghost predicate SameOthers(c: Cluster, d: Cluster, n: NodeId, v: NodeId) {
    d.nodes.Keys == c.nodes.Keys && forall m :: m in c.nodes && m != n && m != v ==> d.nodes[m] == c.nodes[m]
  }

  /** Replica n asks in epoch 1 and voter v answers. */
  lemma FirstAnswer(c: Cluster, n: NodeId, v: NodeId) returns (d: Cluster)
    requires Reaches({1, 2, 3}, Fresh(), c) && n in c.nodes && v in {1, 2} && v in c.nodes && n in {4, 5}
    requires c.nodes[n] == AT_ZERO && c.nodes[v] == AT_ZERO
    ensures Reaches({1, 2, 3}, Fresh(), d) && SameOthers(c, d, n, v)
    ensures d.nodes[n] == NewAttempt(AT_ZERO) && d.nodes[v] == VOTED && AuthAck(Header(v, 1, 0), n) in d.net
  {
    d := Asks({1, 2, 3}, Fresh(), c, n);
    d := Votes({1, 2, 3}, Fresh(), d, v, Header(n, 1, 0));
  }

  /** Then it gives up and resets its counter, and only then that ACK arrives and is counted. */
  lemma StaleAckCounted(c: Cluster, n: NodeId, v: NodeId) returns (d: Cluster)
    requires Reaches({1, 2, 3}, Fresh(), c) && n in c.nodes && v in {1, 2} && v in c.nodes && n in {4, 5}
    requires c.nodes[n] == AT_ZERO && c.nodes[v] == AT_ZERO
    ensures Reaches({1, 2, 3}, Fresh(), d) && SameOthers(c, d, n, v)
    ensures d.nodes[n] == COUNTED && d.nodes[v] == VOTED
  {
    d := FirstAnswer(c, n, v);
    d := Retries({1, 2, 3}, Fresh(), d, n);
    d := Hears({1, 2, 3}, Fresh(), d, Header(v, 1, 0), n);
  }

  /** Replica 4 with voter 1, and replica 5 with voter 2. */
  lemma BothCountStaleAck() returns (d: Cluster)
    ensures Standing(d, VOTED, VOTED, COUNTED, COUNTED)
  {
    var V, c0 := {1, 2, 3}, Fresh();
    assert ValidRun(V, c0, []) && Run(V, c0, []) == c0 && Silent([], FAILED);
    d := StaleAckCounted(c0, 4, 1);
    d := StaleAckCounted(d, 5, 2);
  }

  /** Both ask again in epoch 2: voter 2 answers replica 4, voter 1 answers replica 5. */
  lemma BothAnswered() returns (d: Cluster)
    ensures d.nodes.Keys == {1, 2, 3, 4, 5} && Reaches({1, 2, 3}, Fresh(), d)
    ensures d.nodes[4] == NewAttempt(COUNTED) && d.nodes[5] == NewAttempt(COUNTED)
    ensures AuthAck(Header(2, 2, 0), 4) in d.net && AuthAck(Header(1, 2, 0), 5) in d.net
  {
    var V, c0 := {1, 2, 3}, Fresh();
    d := BothCountStaleAck();
    d := Asks(V, c0, d, 4);
    d := Asks(V, c0, d, 5);
    d := Votes(V, c0, d, 2, Header(4, 2, 0));
    d := Votes(V, c0, d, 1, Header(5, 2, 0));
  }

  /** The stale ACK and the vote of v are the quorum of three. */
  lemma WinsWithOneVote(c: Cluster, n: NodeId, v: NodeId) returns (d: Cluster, w: Win)
    requires Reaches({1, 2, 3}, Fresh(), c) && n in c.nodes && n in {4, 5} && v in {1, 2}
    requires c.nodes[n] == NewAttempt(COUNTED) && AuthAck(Header(v, 2, 0), n) in c.net
    ensures Reaches({1, 2, 3}, Fresh(), d) && OnlyMoves(c, d, n, {AuthAck(Header(v, 2, 0), n)})
    ensures w in d.wins && w.replica == n && w.epoch == 2
  {
    var b := Hears({1, 2, 3}, Fresh(), c, Header(v, 2, 0), n);
    assert b.nodes[n] == CountAck(NewAttempt(COUNTED));
    assert |{1, 2, 3}| == 3;
    d := Wins({1, 2, 3}, Fresh(), b, n);
    w :| w in d.wins && w.replica == n && w.epoch == 2;
  }

  lemma FreshIsInit()
    ensures Init(Fresh())
  {}

  /** Each replica wins epoch 2 with its stale ACK and one vote, though the failed master never
      acts: without the timing assumption one epoch has two winners. */
  lemma UntimelyAckBreaksSafety() returns (d: Cluster, x: Win, y: Win)
    ensures Init(Fresh()) && Reaches({1, 2, 3}, Fresh(), d)
    ensures x in d.wins && y in d.wins && x.epoch == y.epoch && x.replica != y.replica
  {
    d := BothAnswered();
    d, x := WinsWithOneVote(d, 4, 2);
    d, y := WinsWithOneVote(d, 5, 1);
    FreshIsInit();
  }
}
