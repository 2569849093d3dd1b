/** The epoch fields of one cluster node, updated in place by the packet handlers and the
    cron functions of src/cluster.c. Each method is proved against the transition of
    ClusterEpochs that the run theorems are about. */
module ClusterState {
  import opened ClusterEpochs

  class EpochState {
    const myself: NodeId
    var currentEpoch: nat
    var lastVoteEpoch: nat
    var configEpoch: map<NodeId, nat>
    var authEpoch: nat
    var authCount: nat
    var authSent: bool

    constructor (myself: NodeId)
      ensures Valid() && this.myself == myself
      ensures View() == NodeView(0, 0, map[myself := 0], 0, 0, false)
    {
      this.myself := myself;
      currentEpoch, lastVoteEpoch, configEpoch := 0, 0, map[myself := 0];
      authEpoch, authCount, authSent := 0, 0, false;
    }

    ghost predicate Valid()
      reads this
    {
      myself in configEpoch
    }

    function View(): NodeView
      reads this
    {
      NodeView(currentEpoch, lastVoteEpoch, configEpoch, authEpoch, authCount, authSent)
    }

    method ProcessHeader(h: Header)
      requires Valid()
      modifies this
      ensures Valid()
      ensures View() == SeeHeader(old(View()), h)
      ensures h.sender in old(configEpoch) ==> currentEpoch >= h.currentEpoch && configEpoch[h.sender] >= h.configEpoch
      ensures currentEpoch == old(currentEpoch) || currentEpoch == h.currentEpoch > old(currentEpoch)
    {
      if h.sender in configEpoch {
        if h.currentEpoch > currentEpoch { currentEpoch := h.currentEpoch; }
        if h.configEpoch > configEpoch[h.sender] {
          configEpoch := configEpoch[h.sender := h.configEpoch];
        } else {
          assert configEpoch[h.sender := configEpoch[h.sender]] == configEpoch;
        }
      }
    }

    method ProcessPing(h: Header, bothMasters: bool)
      requires Valid()
      modifies this
      ensures Valid()
      ensures View() == OnPing(old(View()), myself, h, bothMasters)
      ensures h.sender in old(configEpoch) && h.sender != myself ==>
        var seen := Max(old(configEpoch)[h.sender], h.configEpoch);
        && configEpoch[h.sender] == seen
        && if bothMasters && myself < h.sender && h.configEpoch == seen == old(configEpoch)[myself]
           then configEpoch[myself] == currentEpoch == Max(old(currentEpoch), h.currentEpoch) + 1
           else configEpoch[myself] == old(configEpoch)[myself] && currentEpoch == Max(old(currentEpoch), h.currentEpoch)
    {
      var known := h.sender in configEpoch;
      ProcessHeader(h);
      if known && bothMasters && h.configEpoch == configEpoch[myself] {
        HandleConfigEpochCollision(h.sender, bothMasters);
      }
    }

    method HandleConfigEpochCollision(sender: NodeId, bothMasters: bool)
      requires Valid()
      modifies this
      ensures Valid()
      ensures View() == ResolveCollision(old(View()), myself, sender, bothMasters)
      ensures currentEpoch == old(currentEpoch) + 1 == configEpoch[myself] <==>
              bothMasters && myself < sender && old(KnownEpoch(View(), sender) == configEpoch[myself])
    {
      if KnownEpoch(View(), sender) != configEpoch[myself] || !bothMasters { return; }
      if sender <= myself { return; }
      currentEpoch := currentEpoch + 1;
      configEpoch := configEpoch[myself := currentEpoch];
    }

    method ProcessUpdate(h: Header, about: NodeId, epoch: nat)
      requires Valid()
      modifies this
      ensures Valid()
      ensures View() == OnUpdate(old(View()), h, about, epoch)
      ensures h.sender in old(configEpoch) && about in configEpoch ==> configEpoch[about] >= epoch
    {
      if h.sender !in configEpoch { return; }
      ProcessHeader(h);
      if about !in configEpoch || configEpoch[about] >= epoch { return; }
      configEpoch := configEpoch[about := epoch];
    }

    /** The greatest epoch around: a scan of the node table, topped by currentEpoch. */
    method GetMaxEpoch() returns (max: nat)
      ensures IsMaxEpoch(View(), max)
    {
      max := 0;
      var todo := configEpoch.Keys;
      while todo != {}
        invariant todo <= configEpoch.Keys
        invariant forall n :: n in configEpoch && n !in todo ==> configEpoch[n] <= max
        invariant max == 0 || exists n :: n in configEpoch && configEpoch[n] == max
        decreases todo
      {
        var n :| n in todo;
        if configEpoch[n] > max { max := configEpoch[n]; }
        todo := todo - {n};
      }
      if max < currentEpoch { max := currentEpoch; }
    }

    method BumpConfigEpochWithoutConsensus() returns (bumped: bool)
      requires Valid()
      modifies this
      ensures Valid()
      ensures exists m: nat :: IsMaxEpoch(old(View()), m) && View() == Bump(old(View()), myself, m)
      ensures NodeBound(old(View())) ==> View() == Bump(old(View()), myself, MaxEpoch(old(View())))
      ensures NodeBound(old(View())) && bumped ==>
        NodeBound(View()) && forall k :: k in old(configEpoch) ==> old(configEpoch)[k] < configEpoch[myself]
      ensures !bumped ==> View() == old(View()) && KnownEpoch(View(), myself) != 0
    {
      var m := GetMaxEpoch();
      ghost var before := View();
      assert IsMaxEpoch(before, m);
      if NodeBound(before) {
        MaxEpochIsCurrent(before);
        FreshEpochIsAbove(before, myself);
      }
      if configEpoch[myself] == 0 || configEpoch[myself] != m {
        currentEpoch := currentEpoch + 1;
        configEpoch := configEpoch[myself := currentEpoch];
        bumped := true;
        assert View() == Bump(before, myself, m);
      } else {
        bumped := false;
        assert View() == Bump(before, myself, m);
      }
    }

    /** The voter's checks in the order of the source, with its scan of the claimed slots. */
    method SendFailoverAuthIfNeeded(h: Header, ctx: VoteContext) returns (granted: bool)
      requires Valid()
      modifies this
      ensures Valid()
      ensures granted <==> Grants(old(View()), h, ctx)
      ensures granted <==>
        && ctx.amVoter && !ctx.requesterIsMaster && ctx.masterKnown && (ctx.masterFailed || ctx.forceAck) && !ctx.votedRecently
        && h.currentEpoch >= old(currentEpoch) && old(lastVoteEpoch) != old(currentEpoch)
        && (forall slot :: slot in ctx.claimed && slot.OwnedAt? ==> slot.epoch <= h.configEpoch)
      ensures granted ==> lastVoteEpoch == currentEpoch == old(currentEpoch)
      ensures View() == if granted then RecordVote(old(View())) else old(View())
    {
      granted := false;
      if !ctx.amVoter { return; }
      if h.currentEpoch < currentEpoch { return; }
      if lastVoteEpoch == currentEpoch { return; }
      if ctx.requesterIsMaster || !ctx.masterKnown || (!ctx.masterFailed && !ctx.forceAck) { return; }
      if ctx.votedRecently { return; }
      for j := 0 to |ctx.claimed|
        invariant View() == old(View())
        invariant forall i :: 0 <= i < j ==> !Outdated(ctx.claimed[i], h.configEpoch)
      {
        if Outdated(ctx.claimed[j], h.configEpoch) { return; }
      }
      lastVoteEpoch := currentEpoch;
      granted := true;
    }

    method ProcessAuthAck(h: Header, senderVotes: bool)
      requires Valid()
      modifies this
      ensures Valid()
      ensures View() == var seen := SeeHeader(old(View()), h);
                        if h.sender in old(configEpoch) && AckCounts(seen, h, senderVotes)
                        then CountAck(seen) else seen
      ensures authCount == old(authCount) + 1 <==> h.sender in old(configEpoch) && senderVotes && h.currentEpoch >= authEpoch
      ensures authEpoch == old(authEpoch) && authSent == old(authSent)
    {
      var known := h.sender in configEpoch;
      ProcessHeader(h);
      if known && senderVotes && h.currentEpoch >= authEpoch {
        authCount := authCount + 1;
      }
    }

    method HandleSlaveFailover(i: FailoverInputs, size: nat) returns (outcome: FailoverOutcome)
      requires Valid()
      modifies this
      ensures Valid()
      ensures outcome == FailoverDecision(old(View()), i, size)
      ensures View() == SlaveFailover(old(View()), myself, i, size)
      ensures outcome == Won <==>
        && i.wanted && !i.dataTooOld && !i.retryElapsed && !i.tooEarly && !i.expired
        && old(authSent) && 2 * old(authCount) > size
      ensures outcome == Requested <==>
        i.wanted && !i.dataTooOld && !i.retryElapsed && !i.tooEarly && !i.expired && !old(authSent)
      ensures outcome == Scheduled <==> i.wanted && !i.dataTooOld && i.retryElapsed
      ensures outcome == Won ==>
        && configEpoch[myself] == Max(old(configEpoch)[myself], authEpoch) && currentEpoch == old(currentEpoch)
        && forall n :: n in old(configEpoch) && n != myself ==> n in configEpoch && configEpoch[n] == old(configEpoch)[n]
      ensures outcome != Won ==> configEpoch == old(configEpoch)
      ensures outcome == Requested ==> authEpoch == currentEpoch == old(currentEpoch) + 1 && authSent && authCount == old(authCount)
      ensures outcome == Scheduled ==> authCount == 0 && !authSent && currentEpoch == old(currentEpoch)
      ensures outcome == Idle ==> View() == old(View())
    {
      var neededQuorum := size / 2 + 1;
      if !i.wanted { return Idle; }
      if i.dataTooOld { return Idle; }
      if i.retryElapsed {
        authCount, authSent := 0, false;
        return Scheduled;
      }
      if i.tooEarly { return Idle; }
      if i.expired { return Idle; }
      if !authSent {
        currentEpoch := currentEpoch + 1;
        authEpoch := currentEpoch;
        authSent := true;
        return Requested;
      }
      if authCount < neededQuorum { return Idle; }
      if configEpoch[myself] < authEpoch {
        configEpoch := configEpoch[myself := authEpoch];
      } else {
        assert configEpoch[myself := configEpoch[myself]] == configEpoch;
      }
      return Won;
    }
  }
}
