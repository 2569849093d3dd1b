/** The slot table of one node, updated in place (src/cluster.c, "Slots management" and its
    callers): who serves each slot, and for each known node the bitmap and the number of its
    slots. */
module ClusterSlots {
  import opened ClusterBitmap
  import opened ClusterEpochs
  import opened ClusterClaims
  import R = ClusterReplicas

  datatype NodeInfo = NodeInfo(configEpoch: nat, slots: Bitmap, numslots: nat)

  /** What merging a claim leads to, besides the new table. */
  datatype MergeOutcome =
    | Discarded               // a claim about ourselves
    | Unaffected
    | Demoted                 // our master (or we) lost the last slot: replicate the sender
    | Dirty(lost: seq<Slot>)  // slots we lost while still holding keys of them

  ghost function Held(owners: Owners, n: NodeId): set<nat> {
    set j: nat | j < CLUSTER_SLOTS && owners[j] == Node(n)
  }

  ghost predicate Grabbed(before: Owners, after: Owners, who: NodeId, j: Slot) {
    before[j] == Node(who) && after[j] != Node(who)
  }

  /** slots[j] is n exactly when bit j of n's bitmap is set, and numslots counts the bits. */
  ghost predicate Agree(owners: Owners, nodes: map<NodeId, NodeInfo>) {
    && (forall j: Slot :: owners[j].Node? ==> owners[j].id in nodes)
    && (forall n :: n in nodes ==> NodeAgrees(owners, nodes[n], n))
  }

  ghost predicate NodeAgrees(owners: Owners, info: NodeInfo, n: NodeId) {
    Bits(info.slots) == Held(owners, n) && info.numslots == |Held(owners, n)|
  }

  ghost function EpochsOf(nodes: map<NodeId, NodeInfo>): map<NodeId, nat> {
    map n | n in nodes :: nodes[n].configEpoch
  }

  /** What changing one entry does to the slots a node holds. */
  lemma HeldAfter(owners: Owners, j: Slot, owner: Owner, n: NodeId)
    ensures Held(owners[j := owner], n) ==
            if owner == Node(n) then Held(owners, n) + {j} else Held(owners, n) - {j}
  {}

  lemma OtherAfterAdd(owners: Owners, n: NodeId, j: Slot, k: NodeId, info: NodeInfo)
    requires owners[j].Nobody? && k != n && NodeAgrees(owners, info, k)
    ensures NodeAgrees(owners[j := Node(n)], info, k)
  {
    HeldAfter(owners, j, Node(n), k);
    assert Held(owners, k) - {j} == Held(owners, k);
  }

  lemma OwnAfterAdd(owners: Owners, n: NodeId, j: Slot, before: NodeInfo, info: NodeInfo)
    requires NodeAgrees(owners, before, n)
    requires Bits(info.slots) == Bits(before.slots) + {j} && info.numslots == |Bits(info.slots)|
    ensures NodeAgrees(owners[j := Node(n)], info, n)
  {
    HeldAfter(owners, j, Node(n), n);
  }

  lemma AgreeAfterAdd(owners: Owners, nodes: map<NodeId, NodeInfo>, n: NodeId, j: Slot, info: NodeInfo)
    requires Agree(owners, nodes) && n in nodes && owners[j].Nobody?
    requires Bits(info.slots) == Bits(nodes[n].slots) + {j} && info.numslots == |Bits(info.slots)|
    requires info.configEpoch == nodes[n].configEpoch
    ensures Agree(owners[j := Node(n)], nodes[n := info])
    ensures EpochsOf(nodes[n := info]) == EpochsOf(nodes)
  {
    var after := owners[j := Node(n)];
    var nodes' := nodes[n := info];
    OwnAfterAdd(owners, n, j, nodes[n], info);
    forall k | k in nodes' ensures NodeAgrees(after, nodes'[k], k) {
      if k != n { OtherAfterAdd(owners, n, j, k, nodes[k]); }
    }
  }

  lemma AgreeAfterDel(owners: Owners, nodes: map<NodeId, NodeInfo>, n: NodeId, j: Slot, info: NodeInfo)
    requires Agree(owners, nodes) && n in nodes && owners[j] == Node(n)
    requires Bits(info.slots) == Bits(nodes[n].slots) - {j} && info.numslots == |Bits(info.slots)|
    requires info.configEpoch == nodes[n].configEpoch
    ensures Agree(owners[j := Nobody], nodes[n := info])
    ensures EpochsOf(nodes[n := info]) == EpochsOf(nodes)
  {
    var after := owners[j := Nobody];
    var nodes' := nodes[n := info];
    forall k | k in nodes' ensures NodeAgrees(after, nodes'[k], k) {
      assert k in nodes && NodeAgrees(owners, nodes[k], k);
      HeldAfter(owners, j, Nobody, k);
      assert k != n ==> Held(after, k) == Held(owners, k);
    }
  }

  /** The table after the first j slots have been taken from n. */
  ghost function Released(owners: Owners, n: NodeId, j: nat): Owners {
    seq(CLUSTER_SLOTS, i requires 0 <= i < CLUSTER_SLOTS => if i < j && owners[i] == Node(n) then Nobody else owners[i])
  }

  lemma ReleaseOne(owners: Owners, n: NodeId, j: Slot)
    ensures Released(owners, n, j + 1) ==
            if owners[j] == Node(n) then Released(owners, n, j)[j := Nobody] else Released(owners, n, j)
  {}

  lemma ReleasedHoldsNothing(owners: Owners, n: NodeId)
    ensures Released(owners, n, 0) == owners
    ensures Held(Released(owners, n, CLUSTER_SLOTS), n) == {}
    ensures forall k :: k != n ==> Held(Released(owners, n, CLUSTER_SLOTS), k) == Held(owners, k)
  {}

  /** The table after the first j slots of a claim have been merged. */
  ghost function MergedUpTo(owners: Owners, importing: Marks, epochs: map<NodeId, nat>, claim: Bitmap,
                            sender: NodeId, epoch: nat, j: nat): Owners
  {
    seq(CLUSTER_SLOTS, i requires 0 <= i < CLUSTER_SLOTS =>
      MergeSlot(owners[i], i < j && TestBit(claim, i), importing[i], epochs, sender, epoch))
  }

  lemma MergeOne(owners: Owners, importing: Marks, epochs: map<NodeId, nat>, claim: Bitmap,
                 sender: NodeId, epoch: nat, j: Slot)
    ensures var before := MergedUpTo(owners, importing, epochs, claim, sender, epoch, j);
      && before[j] == owners[j]
      && MergedUpTo(owners, importing, epochs, claim, sender, epoch, j + 1) ==
         if TestBit(claim, j) && Rebinds(owners[j], importing[j], epochs, sender, epoch)
         then before[j := Node(sender)] else before
  {}

  lemma MergeAllOrNone(owners: Owners, importing: Marks, epochs: map<NodeId, nat>, claim: Bitmap,
                       sender: NodeId, epoch: nat)
    ensures MergedUpTo(owners, importing, epochs, claim, sender, epoch, 0) == owners
    ensures MergedUpTo(owners, importing, epochs, claim, sender, epoch, CLUSTER_SLOTS) ==
            Merge(owners, importing, epochs, claim, sender, epoch)
  {}

  /** The bookkeeping of the merge loop: whether `master` lost one of the first j slots, and
      which of them `me` lost while holding keys. */
  ghost predicate Tracks(before: Owners, after: Owners, me: NodeId, master: NodeId, keys: seq<nat>, j: nat,
                         newmaster: bool, lost: seq<Slot>)
    requires |keys| == CLUSTER_SLOTS
  {
    && (newmaster <==> exists i: Slot :: i < j && Grabbed(before, after, master, i))
    && (forall i: Slot :: i in lost <==> i < j && Grabbed(before, after, me, i) && keys[i] > 0)
  }

  /** Slots of ours that went to somebody else with keys in them. */
  ghost predicate Dirtied(before: Owners, after: Owners, me: NodeId, keys: seq<nat>, j: Slot)
    requires |keys| == CLUSTER_SLOTS
  {
    Grabbed(before, after, me, j) && keys[j] > 0
  }

  /** What the handler answers: nothing about ourselves; a demotion iff our master lost a slot
      and has none left; else exactly the dirty slots, if there are any and the node redirects. */
  ghost predicate Answers(before: Owners, after: Owners, me: NodeId, master: NodeId, keys: seq<nat>, sender: NodeId,
                          noRedirection: bool, outcome: MergeOutcome)
    requires |keys| == CLUSTER_SLOTS
  {
    && (outcome.Discarded? <==> sender == me)
    && (outcome.Demoted? <==>
          && sender != me && !noRedirection
          && (exists j: Slot :: Grabbed(before, after, master, j)) && Held(after, master) == {})
    && (outcome.Dirty? <==>
          && sender != me && !noRedirection && !outcome.Demoted?
          && exists j: Slot :: Dirtied(before, after, me, keys, j))
    && (outcome.Dirty? ==> forall j: Slot :: j in outcome.lost <==> Dirtied(before, after, me, keys, j))
  }

  lemma TracksAnswer(before: Owners, after: Owners, me: NodeId, master: NodeId, keys: seq<nat>, sender: NodeId,
                     newmaster: bool, lost: seq<Slot>)
    requires |keys| == CLUSTER_SLOTS && sender != me && Tracks(before, after, me, master, keys, CLUSTER_SLOTS, newmaster, lost)
    ensures Answers(before, after, me, master, keys, sender, false,
                    if newmaster && Held(after, master) == {} then Demoted else if lost != [] then Dirty(lost) else Unaffected)
    ensures Answers(before, after, me, master, keys, sender, true, Unaffected)
  {
    if lost != [] {
      assert lost[0] in lost;
      assert Dirtied(before, after, me, keys, lost[0]);
    } else {
      forall j: Slot ensures !Dirtied(before, after, me, keys, j) { assert j !in lost; }
    }
  }

  /** The claim stored for the sender changes nothing... */
  lemma StoredClaimMergesToNothing(owners: Owners, node: NodeInfo, marks: Marks, epochs: map<NodeId, nat>,
                                   sender: NodeId, epoch: nat)
    requires NodeAgrees(owners, node, sender)
    ensures Merge(owners, marks, epochs, node.slots, sender, epoch) == owners
  {
    forall j: Slot ensures TestBit(node.slots, j) <==> owners[j] == Node(sender) {
      assert TestBit(node.slots, j) <==> j in Bits(node.slots);
    }
    KnownClaimMergesToNothing(owners, marks, epochs, node.slots, sender, epoch);
  }

  /** ...and then there is nothing to answer. */
  lemma NothingAnswers(owners: Owners, me: NodeId, master: NodeId, keys: seq<nat>, sender: NodeId, noRedirection: bool)
    requires |keys| == CLUSTER_SLOTS && sender != me
    ensures Answers(owners, owners, me, master, keys, sender, noRedirection, Unaffected)
  {
    forall j: Slot ensures !Dirtied(owners, owners, me, keys, j) && !Grabbed(owners, owners, master, j) {}
  }

  lemma TrackKept(before: Owners, after: Owners, me: NodeId, master: NodeId, keys: seq<nat>, j: Slot,
                  newmaster: bool, lost: seq<Slot>)
    requires |keys| == CLUSTER_SLOTS && after[j] == before[j]
    requires Tracks(before, after, me, master, keys, j, newmaster, lost)
    ensures Tracks(before, after, me, master, keys, j + 1, newmaster, lost)
  {
    assert !Grabbed(before, after, master, j) && !Grabbed(before, after, me, j);
  }

  lemma TrackMoved(before: Owners, after: Owners, me: NodeId, master: NodeId, keys: seq<nat>, j: Slot,
                   newmaster: bool, lost: seq<Slot>, sender: NodeId)
    requires |keys| == CLUSTER_SLOTS && after[j] == before[j] != Node(sender)
    requires Tracks(before, after, me, master, keys, j, newmaster, lost)
    ensures Tracks(before, after[j := Node(sender)], me, master, keys, j + 1,
                   newmaster || before[j] == Node(master),
                   if before[j] == Node(me) && keys[j] > 0 then lost + [j] else lost)
  {
    var after' := after[j := Node(sender)];
    forall i: Slot, n: NodeId | i < j ensures Grabbed(before, after', n, i) == Grabbed(before, after, n, i) {}
    assert forall n: NodeId :: Grabbed(before, after', n, j) <==> before[j] == Node(n);
    if newmaster {
      var i: Slot :| i < j && Grabbed(before, after, master, i);
      assert Grabbed(before, after', master, i);
    }
  }

  lemma TrackStep(before: Owners, after: Owners, me: NodeId, master: NodeId, keys: seq<nat>, j: Slot,
                  newmaster: bool, lost: seq<Slot>, sender: NodeId, moved: bool)
    requires |keys| == CLUSTER_SLOTS && after[j] == before[j] && (moved ==> before[j] != Node(sender))
    requires Tracks(before, after, me, master, keys, j, newmaster, lost)
    ensures Tracks(before, if moved then after[j := Node(sender)] else after, me, master, keys, j + 1,
                   newmaster || (moved && before[j] == Node(master)),
                   if moved && before[j] == Node(me) && keys[j] > 0 then lost + [j] else lost)
  {
    if moved {
      TrackMoved(before, after, me, master, keys, j, newmaster, lost, sender);
    } else {
      TrackKept(before, after, me, master, keys, j, newmaster, lost);
    }
  }

  /** The table after the first j slots have passed from `from` to `to`. */
  ghost function Transferred(owners: Owners, from: NodeId, to: NodeId, j: nat): Owners {
    seq(CLUSTER_SLOTS, i requires 0 <= i < CLUSTER_SLOTS => if i < j && owners[i] == Node(from) then Node(to) else owners[i])
  }

  lemma TransferOne(owners: Owners, from: NodeId, to: NodeId, j: Slot)
    ensures Transferred(owners, from, to, j)[j] == owners[j]
    ensures Transferred(owners, from, to, j + 1) ==
            if owners[j] == Node(from) then Transferred(owners, from, to, j)[j := Node(to)]
            else Transferred(owners, from, to, j)
  {}

  /** The slots of the old master, all of them and no others, change hands. */
  lemma TransferMovesExactly(owners: Owners, from: NodeId, to: NodeId)
    requires from != to && Held(owners, to) == {}
    ensures Transferred(owners, from, to, 0) == owners
    ensures Held(Transferred(owners, from, to, CLUSTER_SLOTS), to) == Held(owners, from)
    ensures Held(Transferred(owners, from, to, CLUSTER_SLOTS), from) == {}
    ensures forall n :: n != from && n != to ==> Held(Transferred(owners, from, to, CLUSTER_SLOTS), n) == Held(owners, n)
  {
    assert forall j: Slot :: owners[j] == Node(to) ==> j in Held(owners, to);
    forall n | n != from && n != to ensures Held(Transferred(owners, from, to, CLUSTER_SLOTS), n) == Held(owners, n) {}
  }

  class SlotTable {
    const myself: NodeId
    var nodes: map<NodeId, NodeInfo>
    const slots: array<Owner>
    const importing: array<Owner>
    const migrating: array<Owner>
    var isMaster: bool
    var slaveof: Owner
    var links: R.Links

    /** The table and the bitmaps agree; a replica knows its master and serves nothing. */
    ghost predicate Valid()
      reads this, slots, importing, migrating
    {
      && slots.Length == importing.Length == migrating.Length == CLUSTER_SLOTS
      && slots != importing && slots != migrating && importing != migrating
      && Agree(slots[..], nodes)
      && myself in nodes
      && (!isMaster ==> slaveof.Node? && slaveof.id in nodes && nodes[myself].numslots == 0)
    }

    /** The lists of replicas agree with the pointers to masters, of which this node's is one, and
        no report outlives its sender. */
    ghost predicate Linked()
      reads this
    {
      R.Linked(links, nodes.Keys, myself, isMaster, slaveof)
    }

    ghost function Owners(): Owners
      reads slots
      requires slots.Length == CLUSTER_SLOTS
    {
      slots[..]
    }

    ghost function Epochs(): map<NodeId, nat>
      reads this
    {
      EpochsOf(nodes)
    }

    constructor (myself: NodeId)
      ensures Valid() && Linked() && fresh(slots) && fresh(importing) && fresh(migrating)
      ensures this.myself == myself && isMaster && nodes.Keys == {myself}
      ensures forall j: Slot :: slots[j] == Nobody && importing[j] == Nobody && migrating[j] == Nobody
    {
      this.myself := myself;
      nodes := map[myself := NodeInfo(0, EMPTY, 0)];
      slots := new Owner[CLUSTER_SLOTS](_ => Nobody);
      importing := new Owner[CLUSTER_SLOTS](_ => Nobody);
      migrating := new Owner[CLUSTER_SLOTS](_ => Nobody);
      isMaster, slaveof := true, Nobody;
      links := R.Links(map[myself := []], map[], map[myself := []]);
      EmptyHasNoBits();
    }

    /** Sets the bit of slot j for n and returns its old value. */
    method SetSlotBit(n: NodeId, j: Slot) returns (was: bool)
      requires n in nodes && nodes[n].numslots == |Bits(nodes[n].slots)|
      modifies this`nodes
      ensures was == TestBit(old(nodes)[n].slots, j)
      ensures nodes.Keys == old(nodes).Keys && nodes[n].configEpoch == old(nodes)[n].configEpoch
      ensures nodes == old(nodes)[n := nodes[n]]
      ensures Bits(nodes[n].slots) == Bits(old(nodes)[n].slots) + {j}
      ensures nodes[n].numslots == |Bits(nodes[n].slots)|
    {
      var info := nodes[n];
      was := TestBit(info.slots, j);
      SetBitAdds(info.slots, j);
      nodes := nodes[n := info.(slots := SetBit(info.slots, j),
                                numslots := if was then info.numslots else info.numslots + 1)];
      assert was ==> Bits(info.slots) + {j} == Bits(info.slots);
    }

    /** Clears the bit of slot j for n and returns its old value. */
    method ClearSlotBit(n: NodeId, j: Slot) returns (was: bool)
      requires n in nodes && nodes[n].numslots == |Bits(nodes[n].slots)|
      modifies this`nodes
      ensures was == TestBit(old(nodes)[n].slots, j)
      ensures nodes.Keys == old(nodes).Keys && nodes[n].configEpoch == old(nodes)[n].configEpoch
      ensures nodes == old(nodes)[n := nodes[n]]
      ensures Bits(nodes[n].slots) == Bits(old(nodes)[n].slots) - {j}
      ensures nodes[n].numslots == |Bits(nodes[n].slots)|
    {
      var info := nodes[n];
      was := TestBit(info.slots, j);
      ClearBitRemoves(info.slots, j);
      assert was ==> j in Bits(info.slots);
      assert !was ==> Bits(info.slots) - {j} == Bits(info.slots);
      nodes := nodes[n := info.(slots := ClearBit(info.slots, j),
                                numslots := if was then info.numslots - 1 else info.numslots)];
    }

    method AddSlot(n: NodeId, j: Slot) returns (ok: bool)
      requires Valid() && n in nodes && (n == myself ==> isMaster)
      modifies this`nodes, slots
      ensures Valid() && Epochs() == old(Epochs()) && nodes.Keys == old(nodes).Keys
      ensures ok == old(slots[j]).Nobody?
      ensures Owners() == if ok then old(Owners())[j := Node(n)] else old(Owners())
    {
      if slots[j].Node? { return false; }
      assert NodeAgrees(slots[..], nodes[n], n);
      var _ := SetSlotBit(n, j);
      slots[j] := Node(n);
      AgreeAfterAdd(old(slots[..]), old(nodes), n, j, nodes[n]);
      assert slots[..] == old(slots[..])[j := Node(n)];
      return true;
    }

    /** Frees slot j. The bit of its owner is always found set. */
    method DelSlot(j: Slot) returns (ok: bool)
      requires Valid()
      modifies this`nodes, slots
      ensures Valid() && Epochs() == old(Epochs()) && nodes.Keys == old(nodes).Keys
      ensures ok == old(slots[j]).Node?
      ensures Owners() == old(Owners())[j := Nobody]
    {
      if slots[j].Nobody? {
        assert slots[..] == old(slots[..])[j := Nobody];
        return false;
      }
      var n := slots[j].id;
      assert NodeAgrees(slots[..], nodes[n], n) && j in Held(slots[..], n);
      var was := ClearSlotBit(n, j);
      assert was; // serverAssert in the source
      slots[j] := Nobody;
      AgreeAfterDel(old(slots[..]), old(nodes), n, j, nodes[n]);
      assert slots[..] == old(slots[..])[j := Nobody];
      return true;
    }

    /** Frees every slot of n and returns how many there were. */
    method DelNodeSlots(n: NodeId) returns (deleted: nat)
      requires Valid() && n in nodes
      modifies this`nodes, slots
      ensures Valid() && Epochs() == old(Epochs()) && nodes.Keys == old(nodes).Keys
      ensures deleted == old(nodes)[n].numslots && nodes[n].numslots == 0
      ensures Owners() == Released(old(Owners()), n, CLUSTER_SLOTS)
    {
      deleted := 0;
      ReleasedHoldsNothing(slots[..], n);
      for j := 0 to CLUSTER_SLOTS
        invariant Valid() && Epochs() == old(Epochs()) && nodes.Keys == old(nodes).Keys
        invariant Owners() == Released(old(Owners()), n, j)
        invariant deleted + nodes[n].numslots == old(nodes)[n].numslots
      {
        ReleaseOne(old(slots[..]), n, j);
        var held := TestSlot(n, j);
        if held {
          HeldAfter(slots[..], j, Nobody, n);
          ghost var before := slots[..];
          assert NodeAgrees(before, nodes[n], n) && j in Held(before, n);
          var ok := DelSlot(j);
          assert NodeAgrees(slots[..], nodes[n], n);
          deleted := deleted + 1;
        }
      }
      assert NodeAgrees(slots[..], nodes[n], n);
    }

    /** The bitmap bit answers whether the table gives the slot to n. */
    method TestSlot(n: NodeId, j: Slot) returns (held: bool)
      requires Valid() && n in nodes
      ensures held <==> slots[j] == Node(n)
    {
      held := TestBit(nodes[n].slots, j);
      assert NodeAgrees(slots[..], nodes[n], n);
      assert held <==> j in Bits(nodes[n].slots);
    }

    /** Hands slot j to n, whoever had it: clusterDelSlot followed by clusterAddSlot. */
    method MoveSlot(n: NodeId, j: Slot)
      requires Valid() && n in nodes && (n == myself ==> isMaster)
      modifies this`nodes, slots
      ensures Valid() && Epochs() == old(Epochs()) && nodes.Keys == old(nodes).Keys
      ensures Owners() == old(Owners())[j := Node(n)]
    {
      var _ := DelSlot(j);
      var _ := AddSlot(n, j);
    }

    ghost function ImportMarks(): Marks
      reads importing
      requires importing.Length == CLUSTER_SLOTS
    {
      MarksOf(importing[..])
    }

    /** This node, or the master it replicates. */
    function CurrentMaster(): NodeId
      reads this
      requires !isMaster ==> slaveof.Node?
    {
      if isMaster then myself else slaveof.id
    }

    method CloseAllSlots()
      requires Valid()
      modifies importing, migrating
      ensures Valid()
      ensures forall j: Slot :: importing[j] == Nobody && migrating[j] == Nobody
    {
      ghost var owners := slots[..];
      forall j | 0 <= j < migrating.Length { migrating[j] := Nobody; }
      forall j | 0 <= j < importing.Length { importing[j] := Nobody; }
      assert slots[..] == owners;
      forall j: Slot ensures importing[j] == Nobody && migrating[j] == Nobody {}
    }

    /** Become (or stay) a replica, now of n. */
    method SetMaster(n: NodeId)
      requires Valid() && Linked() && n in nodes && n != myself && nodes[myself].numslots == 0
      modifies this`isMaster, this`slaveof, this`links, importing, migrating
      ensures Valid() && Linked() && !isMaster && slaveof == Node(n)
      ensures links == R.Followed(old(links), myself, n)
      ensures if old(isMaster) then forall j: Slot :: importing[j] == Nobody && migrating[j] == Nobody
              else importing[..] == old(importing[..]) && migrating[..] == old(migrating[..])
    {
      if isMaster { CloseAllSlots(); }
      Follow(n);
    }

    method Follow(n: NodeId)
      requires Linked() && myself in nodes && n in nodes && n != myself
      modifies this`isMaster, this`slaveof, this`links
      ensures Linked() && links == R.Followed(old(links), myself, n) && !isMaster && slaveof == Node(n)
    {
      R.FollowedLinked(links, nodes.Keys, myself, isMaster, slaveof, n);
      R.NotListed(links, nodes.Keys, myself, n);
      links := R.Follow(links, myself, n);
      isMaster := false;
      slaveof := Node(n);
    }

    /** A claim on slot j: rebind it if the source's three tests allow. */
    method ClaimSlot(sender: NodeId, epoch: nat, j: Slot) returns (moved: bool)
      requires Valid() && sender in nodes && sender != myself
      modifies this`nodes, slots
      ensures Valid() && Epochs() == old(Epochs()) && nodes.Keys == old(nodes).Keys
      ensures moved <==> Rebinds(old(slots[j]), importing[j].Node?, Epochs(), sender, epoch)
      ensures Owners() == if moved then old(Owners())[j := Node(sender)] else old(Owners())
    {
      if slots[j] == Node(sender) { return false; }
      if importing[j].Node? { return false; }
      if slots[j].Node? && nodes[slots[j].id].configEpoch >= epoch { return false; }
      MoveSlot(sender, j);
      return true;
    }

    /** Rebinds the claimed slots one by one and collects what was lost. */
    method MergeClaim(sender: NodeId, epoch: nat, claim: Bitmap, keys: seq<nat>)
      returns (newmaster: bool, lost: seq<Slot>)
      requires Valid() && sender in nodes && sender != myself && |keys| == CLUSTER_SLOTS
      modifies this`nodes, slots
      ensures Valid() && Epochs() == old(Epochs()) && nodes.Keys == old(nodes).Keys
      ensures Owners() == Merge(old(Owners()), ImportMarks(), old(Epochs()), claim, sender, epoch)
      ensures Tracks(old(Owners()), Owners(), myself, CurrentMaster(), keys, CLUSTER_SLOTS, newmaster, lost)
    {
      var curmaster := CurrentMaster();
      ghost var before, marks, epochs := slots[..], ImportMarks(), Epochs();
      newmaster, lost := false, [];
      MergeAllOrNone(before, marks, epochs, claim, sender, epoch);
      for j := 0 to CLUSTER_SLOTS
        invariant Valid() && Epochs() == epochs && nodes.Keys == old(nodes).Keys
        invariant Owners() == MergedUpTo(before, marks, epochs, claim, sender, epoch, j)
        invariant Tracks(before, Owners(), myself, curmaster, keys, j, newmaster, lost)
      {
        newmaster, lost := MergeTurn(sender, epoch, claim, keys, j, curmaster, newmaster, lost, before, marks, epochs);
      }
    }

    /** One turn of the merge loop. */
    method MergeTurn(sender: NodeId, epoch: nat, claim: Bitmap, keys: seq<nat>, j: Slot, curmaster: NodeId,
                     newmaster: bool, lost: seq<Slot>, ghost before: Owners, ghost marks: Marks, ghost epochs: map<NodeId, nat>)
      returns (newmaster': bool, lost': seq<Slot>)
      requires Valid() && sender in nodes && sender != myself && |keys| == CLUSTER_SLOTS
      requires Epochs() == epochs && ImportMarks() == marks
      requires Owners() == MergedUpTo(before, marks, epochs, claim, sender, epoch, j)
      requires Tracks(before, Owners(), myself, curmaster, keys, j, newmaster, lost)
      modifies this`nodes, slots
      ensures Valid() && Epochs() == epochs && nodes.Keys == old(nodes).Keys
      ensures Owners() == MergedUpTo(before, marks, epochs, claim, sender, epoch, j + 1)
      ensures Tracks(before, Owners(), myself, curmaster, keys, j + 1, newmaster', lost')
    {
      MergeOne(before, marks, epochs, claim, sender, epoch, j);
      var owner, moved := slots[j], false;
      ghost var sofar := slots[..];
      if TestBit(claim, j) {
        moved := ClaimSlot(sender, epoch, j);
      }
      TrackStep(before, sofar, myself, curmaster, keys, j, newmaster, lost, sender, moved);
      newmaster', lost' := newmaster, lost;
      if moved {
        if owner == Node(myself) && keys[j] > 0 { lost' := lost + [j]; }
        if owner == Node(curmaster) { newmaster' := true; }
      }
    }

    /** clusterUpdateSlotsConfigWith: merge a claim, then follow a new master or report the
        slots whose keys must go. */
    method UpdateSlotsConfigWith(sender: NodeId, epoch: nat, claim: Bitmap, keys: seq<nat>, noRedirection: bool)
      returns (outcome: MergeOutcome)
      requires Valid() && Linked() && sender in nodes && |keys| == CLUSTER_SLOTS
      modifies this, slots, importing, migrating
      ensures Valid() && Linked() && Epochs() == old(Epochs()) && nodes.Keys == old(nodes).Keys
      ensures Owners() == if sender == myself then old(Owners())
                          else Merge(old(Owners()), old(ImportMarks()), old(Epochs()), claim, sender, epoch)
      ensures Answers(old(Owners()), Owners(), myself, old(CurrentMaster()), keys, sender, noRedirection, outcome)
      ensures links == if outcome.Demoted? then R.Followed(old(links), myself, sender) else old(links)
      ensures if outcome.Demoted? then !isMaster && slaveof == Node(sender)
              else isMaster == old(isMaster) && slaveof == old(slaveof)
      ensures if outcome.Demoted? && old(isMaster) then forall j: Slot :: importing[j] == Nobody && migrating[j] == Nobody
              else importing[..] == old(importing[..]) && migrating[..] == old(migrating[..])
    {
      if sender == myself {
        return Discarded;
      }
      var curmaster := CurrentMaster();
      var newmaster, lost := MergeClaim(sender, epoch, claim, keys);
      TracksAnswer(old(slots[..]), slots[..], myself, curmaster, keys, sender, newmaster, lost);
      if noRedirection { return Unaffected; }
      outcome := FollowOrReport(sender, curmaster, newmaster, lost);
    }

    /** What follows from the merge. */
    method FollowOrReport(sender: NodeId, curmaster: NodeId, newmaster: bool, lost: seq<Slot>) returns (outcome: MergeOutcome)
      requires Valid() && Linked() && sender in nodes && sender != myself && curmaster == CurrentMaster()
      modifies this`isMaster, this`slaveof, this`links, importing, migrating
      ensures Valid() && Linked()
      ensures outcome == if newmaster && Held(Owners(), curmaster) == {} then Demoted else if lost != [] then Dirty(lost) else Unaffected
      ensures links == if outcome.Demoted? then R.Followed(old(links), myself, sender) else old(links)
      ensures if outcome.Demoted? then !isMaster && slaveof == Node(sender)
              else isMaster == old(isMaster) && slaveof == old(slaveof)
      ensures if outcome.Demoted? && old(isMaster) then forall j: Slot :: importing[j] == Nobody && migrating[j] == Nobody
              else importing[..] == old(importing[..]) && migrating[..] == old(migrating[..])
    {
      ghost var owners := slots[..];
      assert NodeAgrees(owners, nodes[curmaster], curmaster);
      if newmaster && nodes[curmaster].numslots == 0 {
        SetMaster(sender);
        return Demoted;
      } else if |lost| > 0 {
        return Dirty(lost);
      }
      return Unaffected;
    }

    /** The PING path: the announced slots are merged only when they differ from the bitmap
        stored for the sender. The outcome is that of merging always. */
    method ProcessClaim(sender: NodeId, epoch: nat, claim: Bitmap, keys: seq<nat>, noRedirection: bool)
      returns (outcome: MergeOutcome)
      requires Valid() && Linked() && sender in nodes && |keys| == CLUSTER_SLOTS && sender != myself
      modifies this, slots, importing, migrating
      ensures Valid() && Linked() && Epochs() == old(Epochs())
      ensures links == if outcome.Demoted? then R.Followed(old(links), myself, sender) else old(links)
      ensures Owners() == Merge(old(Owners()), old(ImportMarks()), old(Epochs()), claim, sender, epoch)
      ensures Answers(old(Owners()), Owners(), myself, old(CurrentMaster()), keys, sender, noRedirection, outcome)
      ensures if outcome.Demoted? then !isMaster && slaveof == Node(sender)
              else isMaster == old(isMaster) && slaveof == old(slaveof)
      ensures if outcome.Demoted? && old(isMaster) then forall j: Slot :: importing[j] == Nobody && migrating[j] == Nobody
              else importing[..] == old(importing[..]) && migrating[..] == old(migrating[..])
    {
      if nodes[sender].slots != claim {
        outcome := UpdateSlotsConfigWith(sender, epoch, claim, keys, noRedirection);
      } else {
        outcome := Unaffected;
        assert NodeAgrees(slots[..], nodes[sender], sender);
        StoredClaimMergesToNothing(slots[..], nodes[sender], ImportMarks(), Epochs(), sender, epoch);
        NothingAnswers(slots[..], myself, CurrentMaster(), keys, sender, noRedirection);
      }
    }

    /** Takes over every slot of `oldmaster`, one after the other. */
    method TakeSlotsOf(oldmaster: NodeId)
      requires Valid() && isMaster && oldmaster in nodes && oldmaster != myself && nodes[myself].numslots == 0
      modifies this`nodes, slots
      ensures Valid() && Epochs() == old(Epochs()) && nodes.Keys == old(nodes).Keys
      ensures Owners() == Transferred(old(Owners()), oldmaster, myself, CLUSTER_SLOTS)
      ensures Held(Owners(), myself) == old(Held(Owners(), oldmaster))
      ensures nodes[oldmaster].numslots == 0 && nodes[myself].numslots == old(nodes)[oldmaster].numslots
    {
      ghost var before := slots[..];
      assert NodeAgrees(before, nodes[myself], myself) && NodeAgrees(before, nodes[oldmaster], oldmaster);
      TransferMovesExactly(before, oldmaster, myself);
      for j := 0 to CLUSTER_SLOTS
        invariant Valid() && Epochs() == old(Epochs()) && nodes.Keys == old(nodes).Keys
        invariant Owners() == Transferred(before, oldmaster, myself, j)
      {
        TransferOne(before, oldmaster, myself, j);
        var held := TestSlot(oldmaster, j);
        if held { MoveSlot(myself, j); }
      }
      assert NodeAgrees(slots[..], nodes[myself], myself) && NodeAgrees(slots[..], nodes[oldmaster], oldmaster);
    }

    /** A replica that won its election replaces its master: exactly the master's slots
        become its own. A master keeps everything. */
    method FailoverReplaceYourMaster()
      requires Valid() && Linked()
      modifies this, slots
      ensures Valid() && Linked() && Epochs() == old(Epochs()) && isMaster
      ensures links == R.Detached(old(links), myself)
      ensures old(isMaster) ==> Owners() == old(Owners())
      ensures !old(isMaster) ==>
        && Owners() == Transferred(old(Owners()), old(slaveof).id, myself, CLUSTER_SLOTS)
        && Held(Owners(), myself) == old(Held(Owners(), slaveof.id))
    {
      if isMaster { return; }
      var oldmaster := slaveof.id;
      SetMyselfAsMaster();
      TakeSlotsOf(oldmaster);
    }

    /** clusterSetNodeAsMaster for this node, a replica. */
    method SetMyselfAsMaster()
      requires Linked() && slaveof.Node?
      modifies this`isMaster, this`slaveof, this`links
      ensures Linked() && links == R.Detached(old(links), myself) && isMaster && slaveof == Nobody
      ensures old(slaveof) != Node(myself)
    {
      R.DetachedLinked(links, nodes.Keys, myself, isMaster, slaveof);
      links := R.Detach(links, myself);
      isMaster, slaveof := true, Nobody;
    }

    /** No slot is migrated to or imported from n any more. */
    method CloseSlotsWith(n: NodeId)
      requires Valid()
      modifies importing, migrating
      ensures Valid()
      ensures importing[..] == Released(old(importing[..]), n, CLUSTER_SLOTS)
      ensures migrating[..] == Released(old(migrating[..]), n, CLUSTER_SLOTS)
    {
      ghost var importing0, migrating0 := importing[..], migrating[..];
      ReleasedHoldsNothing(importing0, n);
      ReleasedHoldsNothing(migrating0, n);
      for j := 0 to CLUSTER_SLOTS
        invariant slots[..] == old(slots[..])
        invariant importing[..] == Released(importing0, n, j)
        invariant migrating[..] == Released(migrating0, n, j)
      {
        ReleaseOne(importing0, n, j);
        ReleaseOne(migrating0, n, j);
        if importing[j] == Node(n) { importing[j] := Nobody; }
        if migrating[j] == Node(n) { migrating[j] := Nobody; }
      }
    }

    /** Forgets n: its slots become free, no slot is migrated to or imported from it, and no list,
        pointer or report mentions it. */
    method DelNode(n: NodeId, now: int, validity: int)
      requires Valid() && Linked() && n in nodes && n != myself && slaveof != Node(n)
      modifies this`nodes, this`links, slots, importing, migrating
      ensures Valid() && Linked() && nodes.Keys == old(nodes).Keys - {n}
      ensures Owners() == Released(old(Owners()), n, CLUSTER_SLOTS)
      ensures Epochs() == old(Epochs()) - {n}
      ensures importing[..] == Released(old(importing[..]), n, CLUSTER_SLOTS)
      ensures migrating[..] == Released(old(migrating[..]), n, CLUSTER_SLOTS)
      ensures R.Forgotten(links, n)
      ensures links == R.Deleted(old(links), n, now, validity)
    {
      DropSlots(n);
      Unlink(n, now, validity);
    }

    /** Steps 2 and 3 of clusterDelNode. */
    method Unlink(n: NodeId, now: int, validity: int)
      requires Valid() && Linked() && n in nodes && n != myself && slaveof != Node(n) && nodes[n].numslots == 0
      modifies this`nodes, this`links
      ensures Valid() && Linked() && nodes == old(nodes) - {n} && Epochs() == old(Epochs()) - {n}
      ensures links == R.Deleted(old(links), n, now, validity) && R.Forgotten(links, n)
    {
      ghost var keys := nodes.Keys - {n};
      ghost var after := DelReports(n, now, validity);
      FreeNode(n);
      R.SameLinked(after, keys, links, nodes.Keys, myself, isMaster, slaveof, n);
    }

    /** Step 1 of clusterDelNode. */
    method DropSlots(n: NodeId)
      requires Valid() && n in nodes && n != myself
      modifies this`nodes, slots, importing, migrating
      ensures Valid() && nodes.Keys == old(nodes).Keys && Epochs() == old(Epochs()) && nodes[n].numslots == 0
      ensures Owners() == Released(old(Owners()), n, CLUSTER_SLOTS)
      ensures importing[..] == Released(old(importing[..]), n, CLUSTER_SLOTS)
      ensures migrating[..] == Released(old(migrating[..]), n, CLUSTER_SLOTS)
    {
      CloseSlotsWith(n);
      var _ := DelNodeSlots(n);
    }

    /** Step 2 of clusterDelNode, which makes ready for step 3. */
    method DelReports(n: NodeId, now: int, validity: int) returns (ghost after: R.Links)
      requires Linked() && n in nodes && n != myself && slaveof != Node(n)
      modifies this`links
      ensures R.Freeable(links, n) && R.Freed(links, n) == after == R.Deleted(old(links), n, now, validity)
      ensures R.Linked(after, nodes.Keys - {n}, myself, isMaster, slaveof) && R.Forgotten(after, n)
    {
      after := R.Deleted(links, n, now, validity);
      R.DeletedLinked(links, nodes.Keys, myself, isMaster, slaveof, n, now, validity);
      var reports := R.WithdrawReports(links.reports, n, now, validity);
      R.MirrorsFreeable(links, nodes.Keys, n, reports);
      links := links.(reports := reports);
    }

    /** Unlinks a node without slots: its replicas have no master then, and its master has one
        replica less. */
    method FreeNode(n: NodeId)
      requires Valid() && R.Freeable(links, n) && n in nodes && n != myself && slaveof != Node(n) && nodes[n].numslots == 0
      modifies this`nodes, this`links
      ensures Valid() && nodes == old(nodes) - {n} && Epochs() == old(Epochs()) - {n}
      ensures nodes.Keys == old(nodes).Keys - {n} && links == R.Freed(old(links), n)
    {
      assert NodeAgrees(slots[..], nodes[n], n);
      AgreeWithout(slots[..], nodes, n);
      links := R.Free(links, n);
      nodes := nodes - {n};
    }
  }

  lemma AgreeWithout(owners: Owners, nodes: map<NodeId, NodeInfo>, n: NodeId)
    requires Agree(owners, nodes) && Held(owners, n) == {}
    ensures Agree(owners, nodes - {n}) && EpochsOf(nodes - {n}) == EpochsOf(nodes) - {n}
  {
    forall j: Slot | owners[j].Node? ensures owners[j].id in nodes - {n} {
      assert owners[j] == Node(n) ==> j in Held(owners, n);
    }
  }

  ghost function MarksOf(importing: seq<Owner>): Marks
    requires |importing| == CLUSTER_SLOTS
  {
    seq(CLUSTER_SLOTS, j requires 0 <= j < CLUSTER_SLOTS => importing[j].Node?)
  }
}
