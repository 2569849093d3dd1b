/** What the packets and elections of src/cluster.c achieve: nodes learn, epochs never fall, a
    replica that a quorum answers wins, and a winner's epoch takes its slots over. */
module ClusterProgress {
  import opened ClusterBitmap
  import opened ClusterEpochs
  import opened ClusterClaims

  // ---------------------------------------------------------------------------
  // Nodes learn
  // ---------------------------------------------------------------------------

  /** Nothing a node knows gets older. */
  ghost predicate Later(s: NodeView, t: NodeView) {
    && s.currentEpoch <= t.currentEpoch && s.lastVoteEpoch <= t.lastVoteEpoch
    && (forall n :: n in s.configEpoch ==> n in t.configEpoch && s.configEpoch[n] <= t.configEpoch[n])
  }

  /** A packet of a known sender teaches at least what it says, one of an unknown sender nothing. */
  lemma HeaderTeaches(s: NodeView, h: Header)
    ensures Later(s, SeeHeader(s, h))
    ensures h.sender in s.configEpoch ==>
              SeeHeader(s, h).currentEpoch >= h.currentEpoch && KnownEpoch(SeeHeader(s, h), h.sender) >= h.configEpoch
    ensures h.sender !in s.configEpoch ==> SeeHeader(s, h) == s
    ensures SeeHeader(s, h).currentEpoch in {s.currentEpoch, h.currentEpoch}
    ensures forall n :: n != h.sender ==> KnownEpoch(SeeHeader(s, h), n) == KnownEpoch(s, n)
  {}

  lemma PingTeaches(s: NodeView, n: NodeId, h: Header, bothMasters: bool)
    requires NodeBound(s) && h.sender in s.configEpoch && h.configEpoch <= h.currentEpoch && n in s.configEpoch
    ensures var t := OnPing(s, n, h, bothMasters);
      && Later(s, t) && t.currentEpoch >= h.currentEpoch && KnownEpoch(t, h.sender) >= h.configEpoch
      && (bothMasters && h.sender > n && h.configEpoch == KnownEpoch(SeeHeader(s, h), n) == KnownEpoch(SeeHeader(s, h), h.sender) ==>
            forall k :: k in s.configEpoch && k != n ==> KnownEpoch(SeeHeader(s, h), k) < KnownEpoch(t, n))
  {
    HeaderKeepsBound(s, h);
    FreshEpochIsAbove(SeeHeader(s, h), n);
  }

  lemma UpdateTeaches(s: NodeView, h: Header, about: NodeId, epoch: nat)
    ensures Later(s, OnUpdate(s, h, about, epoch))
    ensures h.sender in s.configEpoch && about in s.configEpoch ==>
              && KnownEpoch(OnUpdate(s, h, about, epoch), about) >= epoch
              && OnUpdate(s, h, about, epoch).currentEpoch >= h.currentEpoch
  {}

  /** A PING sent and received carries the sender's epochs over. */
  lemma PingInforms(voters: set<NodeId>, c: Cluster, n: NodeId, m: NodeId) returns (run: seq<Step>)
    requires EpochBound(c) && n in c.nodes && m in c.nodes && n != m && n in c.nodes[m].configEpoch && m in c.nodes[m].configEpoch
    ensures ValidRun(voters, c, run)
    ensures var d := Run(voters, c, run);
      && m in d.nodes && d.nodes[m].currentEpoch >= c.nodes[n].currentEpoch
      && KnownEpoch(d.nodes[m], n) >= KnownEpoch(c.nodes[n], n)
  {
    var p := Ping(HeaderOf(c.nodes[n], n, n));
    run := [SendPing(n, n), ReceivePing(m, p, false)];
    PingTeaches(c.nodes[m], m, p.h, false);
    RunTwo(voters, c, run[0], run[1]);
  }

  /** So does an UPDATE about a third node. */
  lemma UpdateInforms(voters: set<NodeId>, c: Cluster, n: NodeId, m: NodeId, about: NodeId) returns (run: seq<Step>)
    requires n in c.nodes && m in c.nodes && n in c.nodes[m].configEpoch && about in c.nodes[m].configEpoch
    ensures ValidRun(voters, c, run)
    ensures m in Run(voters, c, run).nodes
    ensures KnownEpoch(Run(voters, c, run).nodes[m], about) >= KnownEpoch(c.nodes[n], about)
  {
    var p := Update(HeaderOf(c.nodes[n], n, n), about, KnownEpoch(c.nodes[n], about));
    run := [SendUpdate(n, n, about), ReceiveUpdate(m, p)];
    UpdateTeaches(c.nodes[m], p.h, about, p.epoch);
    RunTwo(voters, c, run[0], run[1]);
  }

  lemma RunTwo(voters: set<NodeId>, c: Cluster, a: Step, b: Step)
    requires Enabled(c, a) && Enabled(Apply(voters, c, a), b)
    ensures ValidRun(voters, c, [a, b]) && Run(voters, c, [a, b]) == Apply(voters, Apply(voters, c, a), b)
  {
    RunOne(voters, Apply(voters, c, a), b);
    assert [a, b][1..] == [b];
  }

  lemma RunOne(voters: set<NodeId>, c: Cluster, st: Step)
    requires Enabled(c, st)
    ensures ValidRun(voters, c, [st]) && Run(voters, c, [st]) == Apply(voters, c, st)
  {
    assert [st][1..] == [];
    assert ValidRun(voters, Apply(voters, c, st), []);
  }

  // ---------------------------------------------------------------------------
  // Epochs never fall
  // ---------------------------------------------------------------------------

  /** Every node knows itself. */
  ghost predicate SelfAware(c: Cluster) {
    forall n :: n in c.nodes ==> n in c.nodes[n].configEpoch
  }

  ghost predicate AllLater(c: Cluster, d: Cluster) {
    d.nodes.Keys == c.nodes.Keys && forall n :: n in c.nodes ==> Later(c.nodes[n], d.nodes[n])
  }

  lemma FailoverTeaches(s: NodeView, n: NodeId, i: FailoverInputs, size: nat)
    requires NodeBound(s) && n in s.configEpoch
    ensures Later(s, SlaveFailover(s, n, i, size))
  {}

  lemma BumpTeaches(s: NodeView, n: NodeId)
    requires NodeBound(s) && n in s.configEpoch
    ensures Later(s, Bump(s, n, MaxEpoch(s)))
  {
    FreshEpochIsAbove(s, n);
  }

  lemma RequestTeaches(s: NodeView, h: Header)
    requires NodeBound(s)
    ensures Later(s, SeeHeader(s, h)) && Later(s, RecordVote(SeeHeader(s, h)))
  {}

  lemma LaterAt(c: Cluster, d: Cluster, n: NodeId)
    requires SelfAware(c) && n in c.nodes && d.nodes.Keys == c.nodes.Keys && Later(c.nodes[n], d.nodes[n])
    requires forall k :: k in c.nodes && k != n ==> d.nodes[k] == c.nodes[k]
    ensures AllLater(c, d) && SelfAware(d)
  {}

  lemma LaterStep(voters: set<NodeId>, c: Cluster, st: Step)
    requires EpochBound(c) && SelfAware(c) && Enabled(c, st)
    ensures AllLater(c, Apply(voters, c, st)) && SelfAware(Apply(voters, c, st))
  {
    var d := Apply(voters, c, st);
    match st
    case SendPing(n, _) => LaterAt(c, d, n);
    case SendUpdate(n, _, _) => LaterAt(c, d, n);
    case ReceivePing(n, p, b) =>
      assert PacketBound(p);
      if p.h.sender in c.nodes[n].configEpoch { PingTeaches(c.nodes[n], n, p.h, b); }
      LaterAt(c, d, n);
    case ReceiveUpdate(n, p) => UpdateTeaches(c.nodes[n], p.h, p.about, p.epoch); LaterAt(c, d, n);
    case BumpEpoch(n) => BumpTeaches(c.nodes[n], n); LaterAt(c, d, n);
    case ReceiveRequest(n, p, ctx) => LaterRequest(voters, c, n, p.h, ctx);
    case ReceiveAck(p) => LaterAck(voters, c, p);
    case HandleFailover(n, i, m) => FailoverTeaches(c.nodes[n], n, i, |voters|); LaterAt(c, d, n);
  }

  lemma LaterRequest(voters: set<NodeId>, c: Cluster, n: NodeId, h: Header, ctx: VoteContext)
    requires EpochBound(c) && SelfAware(c) && n in c.nodes
    ensures AllLater(c, ApplyRequest(voters, c, n, h, ctx)) && SelfAware(ApplyRequest(voters, c, n, h, ctx))
  {
    RequestTeaches(c.nodes[n], h);
    LaterAt(c, ApplyRequest(voters, c, n, h, ctx), n);
  }

  lemma LaterAck(voters: set<NodeId>, c: Cluster, p: Packet)
    requires SelfAware(c) && p.AuthAck? && p.to in c.nodes
    ensures AllLater(c, ApplyAck(voters, c, p)) && SelfAware(ApplyAck(voters, c, p))
  {
    HeaderTeaches(c.nodes[p.to], p.h);
    LaterAt(c, ApplyAck(voters, c, p), p.to);
  }

  /** In every run, no epoch that a node knows ever falls. */
  lemma {:induction false} EpochsNeverFall(voters: set<NodeId>, c: Cluster, run: seq<Step>)
    requires EpochBound(c) && SelfAware(c) && ValidRun(voters, c, run)
    ensures AllLater(c, Run(voters, c, run)) && SelfAware(Run(voters, c, run))
    decreases |run|
  {
    if run != [] {
      EpochBoundStep(voters, c, run[0]);
      LaterStep(voters, c, run[0]);
      EpochsNeverFall(voters, Apply(voters, c, run[0]), run[1..]);
    }
  }

  // ---------------------------------------------------------------------------
  // A winner owns its epoch
  // ---------------------------------------------------------------------------

  ghost predicate WinnersCrowned(c: Cluster) {
    forall w :: w in c.wins ==> w.replica in c.nodes && KnownEpoch(c.nodes[w.replica], w.replica) >= w.epoch
  }

  /** Winning raises the winner's own epoch to the election's, and no other. */
  lemma WinRaisesEpoch(s: NodeView, n: NodeId, i: FailoverInputs, size: nat)
    requires FailoverDecision(s, i, size) == Won
    ensures KnownEpoch(SlaveFailover(s, n, i, size), n) == Max(KnownEpoch(s, n), s.authEpoch)
    ensures forall k :: k != n ==> KnownEpoch(SlaveFailover(s, n, i, size), k) == KnownEpoch(s, k)
    ensures SlaveFailover(s, n, i, size).currentEpoch == s.currentEpoch
  {}

  lemma CrownedStep(voters: set<NodeId>, c: Cluster, st: Step)
    requires EpochBound(c) && SelfAware(c) && WinnersCrowned(c) && Enabled(c, st)
    ensures WinnersCrowned(Apply(voters, c, st))
  {
    var d := Apply(voters, c, st);
    LaterStep(voters, c, st);
    forall w | w in d.wins ensures w.replica in d.nodes && KnownEpoch(d.nodes[w.replica], w.replica) >= w.epoch {
      if w in c.wins {
        assert Later(c.nodes[w.replica], d.nodes[w.replica]);
      } else {
        WinRaisesEpoch(c.nodes[st.n], st.n, st.inputs, |voters|);
      }
    }
  }

  /** In every reachable state, each winner holds at least the epoch it won. */
  lemma {:induction false} WinnersKeepTheirEpoch(voters: set<NodeId>, c: Cluster, run: seq<Step>)
    requires EpochBound(c) && SelfAware(c) && WinnersCrowned(c) && ValidRun(voters, c, run)
    ensures WinnersCrowned(Run(voters, c, run))
    decreases |run|
  {
    if run != [] {
      EpochBoundStep(voters, c, run[0]);
      LaterStep(voters, c, run[0]);
      CrownedStep(voters, c, run[0]);
      WinnersKeepTheirEpoch(voters, Apply(voters, c, run[0]), run[1..]);
    }
  }

  /** So when the winner of a failover announces its epoch with the slots it took over, and all
      other claims and the epoch of the old owner are from before the election, every node that
      hears everybody ends with the winner as the owner, in whatever order it hears them. */
  lemma FailoverTakesOver(voters: set<NodeId>, c: Cluster, run: seq<Step>, w: Win, t: Table, importing: Marks,
                          announced: map<NodeId, Announcement>, packets: seq<NodeId>, j: Slot)
    requires Init(c) && SelfAware(c) && ValidRun(voters, c, run) && w in Run(voters, c, run).wins
    requires Claims(announced, w.replica, j)
    requires w.replica in Run(voters, c, run).nodes ==>
               announced[w.replica].epoch == KnownEpoch(Run(voters, c, run).nodes[w.replica], w.replica)
    requires forall n :: Claims(announced, n, j) && n != w.replica ==> announced[n].epoch < w.epoch
    requires t.owners[j].Node? && t.owners[j].id != w.replica ==> FinalEpoch(t, announced, t.owners[j].id) < w.epoch
    requires Consistent(t, announced) && Complete(announced, packets) && !importing[j]
    ensures ReceiveAll(t, importing, announced, packets).owners[j] == Node(w.replica)
  {
    WinnersKeepTheirEpoch(voters, c, run);
    HighestClaimWins(t, importing, announced, packets, w.replica, j);
  }

  // ---------------------------------------------------------------------------
  // A quorum elects
  // ---------------------------------------------------------------------------

  const ON_TIME := FailoverInputs(true, false, false, false, false)
  const WILLING := VoteContext(true, false, true, true, false, false, [])

  /** Voters that have not voted in epoch e or later, and know the replica as it knows them. */
  ghost predicate Ready(c: Cluster, n: NodeId, e: nat, q: set<NodeId>) {
    n in c.nodes && forall v :: v in q ==>
      && v in c.nodes && v != n && n in c.nodes[v].configEpoch && v in c.nodes[n].configEpoch
      && c.nodes[v].currentEpoch <= e && c.nodes[v].lastVoteEpoch < e
  }

  /** The election of epoch e is under way: replica n asked and counted `count` answers. */
  ghost predicate Campaign(c: Cluster, n: NodeId, e: nat, h: Header, count: nat) {
    && n in c.nodes && AuthRequest(h) in c.net && h.sender == n && h.currentEpoch == e
    && c.nodes[n].authSent && c.nodes[n].authEpoch == e && c.nodes[n].currentEpoch == e && c.nodes[n].authCount == count
  }

  lemma {:induction false} RunConcat(voters: set<NodeId>, c: Cluster, a: seq<Step>, b: seq<Step>)
    requires ValidRun(voters, c, a) && ValidRun(voters, Run(voters, c, a), b)
    ensures ValidRun(voters, c, a + b) && Run(voters, c, a + b) == Run(voters, Run(voters, c, a), b)
    decreases |a|
  {
    if a == [] {
      assert a + b == b;
    } else {
      assert (a + b)[1..] == a[1..] + b;
      RunConcat(voters, Apply(voters, c, a[0]), a[1..], b);
    }
  }

  /** One voter receives the request and its answer is counted. */
  lemma OneMoreVote(voters: set<NodeId>, c: Cluster, n: NodeId, e: nat, h: Header, count: nat, q: set<NodeId>, v: NodeId)
    returns (run: seq<Step>)
    requires Campaign(c, n, e, h, count) && Ready(c, n, e, q) && v in q && v in voters
    ensures ValidRun(voters, c, run)
    ensures Campaign(Run(voters, c, run), n, e, h, count + 1) && Ready(Run(voters, c, run), n, e, q - {v})
  {
    var ask := ReceiveRequest(v, AuthRequest(h), WILLING);
    var d := Apply(voters, c, ask);
    var seen := SeeHeader(c.nodes[v], h);
    assert Grants(seen, h, WILLING.(amVoter := true));
    var p := AuthAck(HeaderOf(seen, v, v), n);
    assert p in d.net;
    run := [ask, ReceiveAck(p)];
    RunTwo(voters, c, ask, ReceiveAck(p));
  }

  lemma {:induction false} AllVote(voters: set<NodeId>, c: Cluster, n: NodeId, e: nat, h: Header, count: nat, q: set<NodeId>)
    returns (run: seq<Step>)
    requires Campaign(c, n, e, h, count) && Ready(c, n, e, q) && q <= voters
    ensures ValidRun(voters, c, run) && Campaign(Run(voters, c, run), n, e, h, count + |q|)
    decreases |q|
  {
    if q == {} {
      run := [];
    } else {
      var v :| v in q;
      var first := OneMoreVote(voters, c, n, e, h, count, q, v);
      var rest := AllVote(voters, Run(voters, c, first), n, e, h, count + 1, q - {v});
      RunConcat(voters, c, first, rest);
      run := first + rest;
    }
  }

  /** A replica that asks, and whom a quorum of voters can answer, can win the next epoch, and
      then holds it. */
  lemma QuorumElects(voters: set<NodeId>, c: Cluster, n: NodeId, master: NodeId, q: set<NodeId>) returns (run: seq<Step>)
    requires n in c.nodes && !c.nodes[n].authSent && c.nodes[n].authCount == 0
    requires Ready(c, n, c.nodes[n].currentEpoch + 1, q) && q <= voters && |q| >= Quorum(|voters|)
    ensures ValidRun(voters, c, run)
    ensures var d, e := Run(voters, c, run), c.nodes[n].currentEpoch + 1;
      (exists w :: w in d.wins && w.replica == n && w.epoch == e) && n in d.nodes && KnownEpoch(d.nodes[n], n) >= e
  {
    var e := c.nodes[n].currentEpoch + 1;
    var start := HandleFailover(n, ON_TIME, master);
    var c1 := Apply(voters, c, start);
    var h := HeaderOf(c1.nodes[n], n, master);
    assert Campaign(c1, n, e, h, 0);
    var votes := AllVote(voters, c1, n, e, h, 0, q);
    var c2 := Run(voters, c1, votes);
    WinRaisesEpoch(c2.nodes[n], n, ON_TIME, |voters|);
    assert Win(n, e, Counted(c2, n)) in Apply(voters, c2, start).wins;
    RunOne(voters, c2, start);
    RunConcat(voters, c1, votes, [start]);
    RunConcat(voters, c, [start], votes + [start]);
    RunOne(voters, c, start);
    run := [start] + (votes + [start]);
  }
}
