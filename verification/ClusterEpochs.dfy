/** Epoch bookkeeping and failover elections of the cluster bus (src/cluster.c).

    The first part holds what one node does to its own epoch fields, as functions on a
    `NodeView`; class `EpochState` in ClusterState.dfy updates the same fields in place.
    The second part puts the nodes together with the messages in flight. */
module ClusterEpochs {

  /** A node name. The source compares names as byte strings; the order of the
      identifiers stands for that order. */
  type NodeId = nat

  function Max(a: nat, b: nat): nat {
    if a < b then b else a
  }

  lemma SubsetSize<T>(a: set<T>, b: set<T>)
    requires a <= b
    ensures |a| <= |b|
  {
    assert b == a + (b - a);
  }

  // ---------------------------------------------------------------------------
  // One node
  // ---------------------------------------------------------------------------

  /** The epoch fields of `server.cluster`, with the configEpoch of every known node. */
  datatype NodeView = NodeView(
    currentEpoch: nat,
    lastVoteEpoch: nat,
    configEpoch: map<NodeId, nat>,
    authEpoch: nat,
    authCount: nat,
    authSent: bool)

  /** What every packet carries: the sender, its currentEpoch, and the configEpoch of the
      master it speaks for. */
  datatype Header = Header(sender: NodeId, currentEpoch: nat, configEpoch: nat)

  function KnownEpoch(s: NodeView, n: NodeId): nat {
    if n in s.configEpoch then s.configEpoch[n] else 0
  }

  /** The common part of packet processing: raise both epochs, never lower them. Packets
      of unknown senders change nothing. */
  function SeeHeader(s: NodeView, h: Header): NodeView {
    if h.sender !in s.configEpoch then s
    else s.(currentEpoch := Max(s.currentEpoch, h.currentEpoch),
            configEpoch := s.configEpoch[h.sender := Max(s.configEpoch[h.sender], h.configEpoch)])
  }

  /** The body of an UPDATE packet: a newer configuration of a third node. */
  function SeeUpdate(s: NodeView, about: NodeId, epoch: nat): NodeView {
    if about !in s.configEpoch || s.configEpoch[about] >= epoch then s
    else s.(configEpoch := s.configEpoch[about := epoch])
  }

  function TakeNextEpoch(s: NodeView, myself: NodeId): NodeView {
    s.(currentEpoch := s.currentEpoch + 1,
       configEpoch := s.configEpoch[myself := s.currentEpoch + 1])
  }

  /** Two masters with one configEpoch: the one with the smaller name moves. */
  function ResolveCollision(s: NodeView, myself: NodeId, sender: NodeId, bothMasters: bool): NodeView {
    if KnownEpoch(s, sender) != KnownEpoch(s, myself) || !bothMasters || sender <= myself then s
    else TakeNextEpoch(s, myself)
  }

  ghost predicate IsMaxEpoch(s: NodeView, m: nat) {
    && s.currentEpoch <= m
    && (forall n :: n in s.configEpoch ==> s.configEpoch[n] <= m)
    && (m == s.currentEpoch || exists n :: n in s.configEpoch && s.configEpoch[n] == m)
  }

  /** A new configEpoch without agreement, unless ours is already the greatest (`maxEpoch`). */
  function Bump(s: NodeView, myself: NodeId, maxEpoch: nat): NodeView {
    if KnownEpoch(s, myself) == 0 || KnownEpoch(s, myself) != maxEpoch
    then TakeNextEpoch(s, myself)
    else s
  }

  /** What a vote depends on besides epochs: roles, failure flags, the time since the last
      vote about the same master, and the slots the requester claims, each with the
      configEpoch of the owner the voter knows (if any). */
  datatype VoteContext = VoteContext(
    amVoter: bool,
    requesterIsMaster: bool,
    masterKnown: bool,
    masterFailed: bool,
    forceAck: bool,
    votedRecently: bool,
    claimed: seq<ClaimedSlot>)

  datatype ClaimedSlot = Unclaimed | Unowned | OwnedAt(epoch: nat)

  predicate Outdated(slot: ClaimedSlot, requestEpoch: nat) {
    slot.OwnedAt? && slot.epoch > requestEpoch
  }

  predicate Grants(s: NodeView, h: Header, ctx: VoteContext) {
    && ctx.amVoter
    && h.currentEpoch >= s.currentEpoch
    && s.lastVoteEpoch != s.currentEpoch
    && !ctx.requesterIsMaster && ctx.masterKnown && (ctx.masterFailed || ctx.forceAck)
    && !ctx.votedRecently
    && (forall j :: 0 <= j < |ctx.claimed| ==> !Outdated(ctx.claimed[j], h.configEpoch))
  }

  function RecordVote(s: NodeView): NodeView {
    s.(lastVoteEpoch := s.currentEpoch)
  }

  /** A vote counts when it comes from a voter whose epoch is not below the election's. */
  predicate AckCounts(s: NodeView, h: Header, senderVotes: bool) {
    senderVotes && h.currentEpoch >= s.authEpoch
  }

  function CountAck(s: NodeView): NodeView {
    s.(authCount := s.authCount + 1)
  }

  /** The clock and configuration tests of clusterHandleSlaveFailover, in its order. */
  datatype FailoverInputs = FailoverInputs(
    wanted: bool,        // a replica of a failed (or manually replaced) master with slots
    dataTooOld: bool,    // and not a manual failover
    retryElapsed: bool,  // auth_age > auth_retry_time
    tooEarly: bool,      // now < failover_auth_time
    expired: bool)       // auth_age > auth_timeout

  datatype FailoverOutcome = Idle | Scheduled | Requested | Won

  function Quorum(size: nat): nat {
    size / 2 + 1
  }

  function FailoverDecision(s: NodeView, i: FailoverInputs, size: nat): FailoverOutcome {
    if !i.wanted || i.dataTooOld then Idle
    else if i.retryElapsed then Scheduled
    else if i.tooEarly || i.expired then Idle
    else if !s.authSent then Requested
    else if s.authCount >= Quorum(size) then Won
    else Idle
  }

  function SlaveFailover(s: NodeView, myself: NodeId, i: FailoverInputs, size: nat): NodeView {
    match FailoverDecision(s, i, size)
    case Idle => s
    case Scheduled => ResetAttempt(s)
    case Requested => NewAttempt(s)
    case Won => Promote(s, myself)
  }

  function ResetAttempt(s: NodeView): NodeView {
    s.(authCount := 0, authSent := false)
  }

  function NewAttempt(s: NodeView): NodeView {
    s.(currentEpoch := s.currentEpoch + 1, authEpoch := s.currentEpoch + 1, authSent := true)
  }

  function Promote(s: NodeView, myself: NodeId): NodeView {
    s.(configEpoch := s.configEpoch[myself := Max(KnownEpoch(s, myself), s.authEpoch)])
  }

  // ---------------------------------------------------------------------------
  // The cluster: nodes and messages in flight
  // ---------------------------------------------------------------------------

  /** Packets in flight. Only an ACK has a fixed receiver; any other packet may reach any
      node, any number of times, or none. */
  datatype Packet =
    | Ping(h: Header)
    | Update(h: Header, about: NodeId, epoch: nat)
    | AuthRequest(h: Header)
    | AuthAck(h: Header, to: NodeId)

  datatype Vote = Vote(voter: NodeId, epoch: nat, replica: NodeId)
  datatype Win = Win(replica: NodeId, epoch: nat, supporters: set<NodeId>)

  /** `votes`, `counted` and `wins` record history; no transition reads them. */
  datatype Cluster = Cluster(
    nodes: map<NodeId, NodeView>,
    net: set<Packet>,
    votes: set<Vote>,
    counted: map<NodeId, set<NodeId>>,
    wins: set<Win>)

  datatype Step =
    | SendPing(n: NodeId, speaksFor: NodeId)
    | SendUpdate(n: NodeId, speaksFor: NodeId, about: NodeId)
    | ReceivePing(n: NodeId, p: Packet, bothMasters: bool)
    | ReceiveUpdate(n: NodeId, p: Packet)
    | BumpEpoch(n: NodeId)
    | ReceiveRequest(n: NodeId, p: Packet, ctx: VoteContext)
    | ReceiveAck(p: Packet)
    | HandleFailover(n: NodeId, inputs: FailoverInputs, speaksFor: NodeId)

  function HeaderOf(s: NodeView, n: NodeId, speaksFor: NodeId): Header {
    Header(n, s.currentEpoch, KnownEpoch(s, speaksFor))
  }

  ghost predicate Enabled(c: Cluster, st: Step) {
    match st
    case SendPing(n, _) => n in c.nodes
    case SendUpdate(n, _, _) => n in c.nodes
    case ReceivePing(n, p, _) => n in c.nodes && p in c.net && p.Ping?
    case ReceiveUpdate(n, p) => n in c.nodes && p in c.net && p.Update?
    case BumpEpoch(n) => n in c.nodes
    case ReceiveRequest(n, p, _) => n in c.nodes && p in c.net && p.AuthRequest?
    case ReceiveAck(p) => p in c.net && p.AuthAck? && p.to in c.nodes
    case HandleFailover(n, _, _) => n in c.nodes
  }

  /** One event-loop turn of one node. `voters` are the masters with slots; every node
      agrees on them. */
  ghost function Apply(voters: set<NodeId>, c: Cluster, st: Step): Cluster
    requires Enabled(c, st)
  {
    match st
    case SendPing(n, m) => c.(net := c.net + {Ping(HeaderOf(c.nodes[n], n, m))})
    case SendUpdate(n, m, about) =>
      c.(net := c.net + {Update(HeaderOf(c.nodes[n], n, m), about, KnownEpoch(c.nodes[n], about))})
    case ReceivePing(n, p, bothMasters) => c.(nodes := c.nodes[n := OnPing(c.nodes[n], n, p.h, bothMasters)])
    case ReceiveUpdate(n, p) =>
      c.(nodes := c.nodes[n := OnUpdate(c.nodes[n], p.h, p.about, p.epoch)])
    case BumpEpoch(n) => c.(nodes := c.nodes[n := Bump(c.nodes[n], n, MaxEpoch(c.nodes[n]))])
    case ReceiveRequest(n, p, ctx) => ApplyRequest(voters, c, n, p.h, ctx)
    case ReceiveAck(p) => ApplyAck(voters, c, p)
    case HandleFailover(n, i, m) => ApplyFailover(voters, c, n, i, m)
  }

  /** PING/PONG: the common part, then collision handling when the announced configEpoch
      is our own. */
  function OnPing(s: NodeView, n: NodeId, h: Header, bothMasters: bool): NodeView {
    var seen := SeeHeader(s, h);
    if h.sender in s.configEpoch && bothMasters && h.configEpoch == KnownEpoch(seen, n)
    then ResolveCollision(seen, n, h.sender, bothMasters)
    else seen
  }

  function OnUpdate(s: NodeView, h: Header, about: NodeId, epoch: nat): NodeView {
    if h.sender in s.configEpoch then SeeUpdate(SeeHeader(s, h), about, epoch) else s
  }

  ghost function MaxEpoch(s: NodeView): nat {
    if exists m: nat :: IsMaxEpoch(s, m) then var m: nat :| IsMaxEpoch(s, m); m else s.currentEpoch
  }

  /** The cluster after node `n` has processed the epochs of a packet header. */
  ghost function Seen(c: Cluster, n: NodeId, h: Header): Cluster
    requires n in c.nodes
  {
    c.(nodes := c.nodes[n := SeeHeader(c.nodes[n], h)])
  }

  ghost function ApplyRequest(voters: set<NodeId>, c: Cluster, n: NodeId, h: Header, ctx: VoteContext): Cluster
    requires n in c.nodes
  {
    var seen := Seen(c, n, h);
    if h.sender in c.nodes[n].configEpoch && Grants(seen.nodes[n], h, ctx.(amVoter := n in voters))
    then Granted(seen, n, h.sender)
    else seen
  }

  /** A vote of `n` for `to` in n's current epoch, with the ACK on its way. */
  ghost function Granted(c: Cluster, n: NodeId, to: NodeId): Cluster
    requires n in c.nodes
  {
    var s := c.nodes[n];
    c.(nodes := c.nodes[n := RecordVote(s)],
       votes := c.votes + {Vote(n, s.currentEpoch, to)},
       net := c.net + {AuthAck(HeaderOf(s, n, n), to)})
  }

  ghost function ApplyAck(voters: set<NodeId>, c: Cluster, p: Packet): Cluster
    requires p.AuthAck? && p.to in c.nodes
  {
    Taken(Seen(c, p.to, p.h), p, Counts(voters, c, p))
  }

  ghost predicate Counts(voters: set<NodeId>, c: Cluster, p: Packet)
    requires p.AuthAck? && p.to in c.nodes
  {
    p.h.sender in c.nodes[p.to].configEpoch && AckCounts(c.nodes[p.to], p.h, p.h.sender in voters)
  }

  /** An ACK taken off the network, counted or not. */
  ghost function Taken(c: Cluster, p: Packet, counts: bool): Cluster
    requires p.AuthAck? && p.to in c.nodes
  {
    if counts then
      c.(nodes := c.nodes[p.to := CountAck(c.nodes[p.to])],
         counted := c.counted[p.to := Counted(c, p.to) + {p.h.sender}],
         net := c.net - {p})
    else c.(net := c.net - {p})
  }

  ghost function Counted(c: Cluster, r: NodeId): set<NodeId> {
    if r in c.counted then c.counted[r] else {}
  }

  ghost function ApplyFailover(voters: set<NodeId>, c: Cluster, n: NodeId, i: FailoverInputs, m: NodeId): Cluster
    requires n in c.nodes
  {
    var s := c.nodes[n];
    var s' := SlaveFailover(s, n, i, |voters|);
    var moved := c.(nodes := c.nodes[n := s']);
    match FailoverDecision(s, i, |voters|)
    case Idle => moved
    case Scheduled => moved.(counted := c.counted[n := {}])
    case Requested => moved.(counted := c.counted[n := {}],
                             net := c.net + {AuthRequest(HeaderOf(s', n, m))})
    case Won => moved.(wins := c.wins + {Win(n, s.authEpoch, Counted(c, n))})
  }

  ghost predicate ValidRun(voters: set<NodeId>, c: Cluster, run: seq<Step>)
    decreases |run|
  {
    run == [] || (Enabled(c, run[0]) && ValidRun(voters, Apply(voters, c, run[0]), run[1..]))
  }

  ghost function Run(voters: set<NodeId>, c: Cluster, run: seq<Step>): Cluster
    requires ValidRun(voters, c, run)
    decreases |run|
  {
    if run == [] then c else Run(voters, Apply(voters, c, run[0]), run[1..])
  }

  /** Any epochs within the bounds, no packet in flight, no election started. */
  ghost predicate Init(c: Cluster) {
    && c.net == {} && c.votes == {} && c.wins == {}
    && forall n :: n in c.nodes ==>
         && NodeBound(c.nodes[n])
         && c.nodes[n].authCount == 0 && !c.nodes[n].authSent && Counted(c, n) == {}
  }

  // ---------------------------------------------------------------------------
  // Epoch bound
  // ---------------------------------------------------------------------------

  ghost predicate NodeBound(s: NodeView) {
    && (forall k :: k in s.configEpoch ==> s.configEpoch[k] <= s.currentEpoch)
    && s.lastVoteEpoch <= s.currentEpoch
    && s.authEpoch <= s.currentEpoch
  }

  ghost predicate PacketBound(p: Packet) {
    && p.h.configEpoch <= p.h.currentEpoch
    && (p.Update? ==> p.epoch <= p.h.currentEpoch)
  }

  /** Every node's currentEpoch bounds every configEpoch it knows, and every packet's
      currentEpoch bounds every configEpoch in the packet. */
  ghost predicate EpochBound(c: Cluster) {
    && (forall n :: n in c.nodes ==> NodeBound(c.nodes[n]))
    && (forall p :: p in c.net ==> PacketBound(p))
  }

  lemma MaxEpochIsCurrent(s: NodeView)
    requires NodeBound(s)
    ensures forall m: nat :: IsMaxEpoch(s, m) <==> m == s.currentEpoch
    ensures MaxEpoch(s) == s.currentEpoch
  {
    assert IsMaxEpoch(s, s.currentEpoch);
  }

  /** A successful bump, and a collision move, end above every epoch the node knew. */
  lemma FreshEpochIsAbove(s: NodeView, myself: NodeId)
    requires NodeBound(s)
    ensures var t := TakeNextEpoch(s, myself);
      && NodeBound(t)
      && t.configEpoch[myself] == t.currentEpoch
      && (forall k :: k in s.configEpoch ==> s.configEpoch[k] < t.configEpoch[myself])
    ensures Bump(s, myself, MaxEpoch(s)) == s <==> KnownEpoch(s, myself) == s.currentEpoch != 0
  {
    MaxEpochIsCurrent(s);
    var t := TakeNextEpoch(s, myself);
    assert t != s by { assert t.currentEpoch != s.currentEpoch; }
  }

  lemma HeaderKeepsBound(s: NodeView, h: Header)
    requires NodeBound(s) && h.configEpoch <= h.currentEpoch
    ensures NodeBound(SeeHeader(s, h))
  {}

  lemma PingKeepsBound(s: NodeView, n: NodeId, h: Header, bothMasters: bool)
    requires NodeBound(s) && h.configEpoch <= h.currentEpoch
    ensures NodeBound(OnPing(s, n, h, bothMasters))
  {
    HeaderKeepsBound(s, h);
    FreshEpochIsAbove(SeeHeader(s, h), n);
  }

  lemma UpdateKeepsBound(s: NodeView, h: Header, about: NodeId, epoch: nat)
    requires NodeBound(s) && h.configEpoch <= h.currentEpoch && epoch <= h.currentEpoch
    ensures NodeBound(OnUpdate(s, h, about, epoch))
  {
    HeaderKeepsBound(s, h);
  }

  lemma FailoverKeepsBound(s: NodeView, n: NodeId, i: FailoverInputs, size: nat)
    requires NodeBound(s)
    ensures NodeBound(SlaveFailover(s, n, i, size))
  {}

  lemma SentWithinBound(s: NodeView, n: NodeId, speaksFor: NodeId)
    requires NodeBound(s)
    ensures HeaderOf(s, n, speaksFor).configEpoch <= HeaderOf(s, n, speaksFor).currentEpoch
  {}

  lemma BoundFrame(c: Cluster, c': Cluster, n: NodeId)
    requires EpochBound(c) && n in c'.nodes && NodeBound(c'.nodes[n])
    requires forall k :: k in c'.nodes && k != n ==> k in c.nodes && c'.nodes[k] == c.nodes[k]
    requires forall p :: p in c'.net ==> p in c.net || PacketBound(p)
    ensures EpochBound(c')
  {}

  lemma SendKeepsBound(voters: set<NodeId>, c: Cluster, st: Step)
    requires EpochBound(c) && Enabled(c, st) && (st.SendPing? || st.SendUpdate?)
    ensures EpochBound(Apply(voters, c, st))
  {
    SentWithinBound(c.nodes[st.n], st.n, st.speaksFor);
    BoundFrame(c, Apply(voters, c, st), st.n);
  }

  lemma ReceiveKeepsBound(voters: set<NodeId>, c: Cluster, st: Step)
    requires EpochBound(c) && Enabled(c, st) && (st.ReceivePing? || st.ReceiveUpdate?)
    ensures EpochBound(Apply(voters, c, st))
  {
    assert PacketBound(st.p);
    if st.ReceivePing? {
      PingKeepsBound(c.nodes[st.n], st.n, st.p.h, st.bothMasters);
    } else {
      UpdateKeepsBound(c.nodes[st.n], st.p.h, st.p.about, st.p.epoch);
    }
    BoundFrame(c, Apply(voters, c, st), st.n);
  }

  lemma RequestKeepsBound(voters: set<NodeId>, c: Cluster, st: Step)
    requires EpochBound(c) && Enabled(c, st) && st.ReceiveRequest?
    ensures EpochBound(Apply(voters, c, st))
  {
    assert PacketBound(st.p);
    HeaderKeepsBound(c.nodes[st.n], st.p.h);
    BoundFrame(c, Apply(voters, c, st), st.n);
  }

  lemma AckKeepsBound(voters: set<NodeId>, c: Cluster, p: Packet)
    requires EpochBound(c) && Enabled(c, ReceiveAck(p))
    ensures EpochBound(ApplyAck(voters, c, p))
  {
    assert PacketBound(p);
    HeaderKeepsBound(c.nodes[p.to], p.h);
    BoundFrame(c, ApplyAck(voters, c, p), p.to);
  }

  lemma OwnStepKeepsBound(voters: set<NodeId>, c: Cluster, st: Step)
    requires EpochBound(c) && Enabled(c, st) && (st.BumpEpoch? || st.HandleFailover?)
    ensures EpochBound(Apply(voters, c, st))
  {
    if st.BumpEpoch? {
      FreshEpochIsAbove(c.nodes[st.n], st.n);
    } else {
      FailoverKeepsBound(c.nodes[st.n], st.n, st.inputs, |voters|);
    }
    BoundFrame(c, Apply(voters, c, st), st.n);
  }

  lemma EpochBoundStep(voters: set<NodeId>, c: Cluster, st: Step)
    requires EpochBound(c) && Enabled(c, st)
    ensures EpochBound(Apply(voters, c, st))
  {
    if st.SendPing? || st.SendUpdate? {
      SendKeepsBound(voters, c, st);
    } else if st.ReceivePing? || st.ReceiveUpdate? {
      ReceiveKeepsBound(voters, c, st);
    } else if st.ReceiveRequest? {
      RequestKeepsBound(voters, c, st);
    } else if st.ReceiveAck? {
      AckKeepsBound(voters, c, st.p);
    } else {
      OwnStepKeepsBound(voters, c, st);
    }
  }

  /** The bound holds in every reachable state, whatever packets are lost, repeated or
      reordered. */
  lemma {:induction false} EpochBoundAlways(voters: set<NodeId>, c: Cluster, run: seq<Step>)
    requires EpochBound(c) && ValidRun(voters, c, run)
    ensures EpochBound(Run(voters, c, run))
    decreases |run|
  {
    if run != [] {
      EpochBoundStep(voters, c, run[0]);
      EpochBoundAlways(voters, Apply(voters, c, run[0]), run[1..]);
    }
  }
}
