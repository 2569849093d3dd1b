/** Merging slot claims (src/cluster.c, clusterUpdateSlotsConfigWith) as a function of the
    slot table, and what the order of the claims can and cannot change. */
module ClusterClaims {
  import opened ClusterBitmap
  import opened ClusterEpochs

  datatype Owner = Nobody | Node(id: NodeId)

  /** One entry per slot: server.cluster->slots. */
  type Owners = o: seq<Owner> | |o| == CLUSTER_SLOTS
    witness seq(CLUSTER_SLOTS, _ => Nobody)

  type Marks = m: seq<bool> | |m| == CLUSTER_SLOTS
    witness seq(CLUSTER_SLOTS, _ => false)

  function EpochOf(epochs: map<NodeId, nat>, n: NodeId): nat {
    if n in epochs then epochs[n] else 0
  }

  /** A claimed slot changes hands when it is not the sender's already, is not being
      imported here, and is free or held under a smaller epoch. */
  predicate Rebinds(owner: Owner, importing: bool, epochs: map<NodeId, nat>, sender: NodeId, epoch: nat) {
    && owner != Node(sender)
    && !importing
    && (owner.Nobody? || EpochOf(epochs, owner.id) < epoch)
  }

  function MergeSlot(owner: Owner, claimed: bool, importing: bool, epochs: map<NodeId, nat>,
                     sender: NodeId, epoch: nat): Owner
  {
    if claimed && Rebinds(owner, importing, epochs, sender, epoch) then Node(sender) else owner
  }

  function Merge(owners: Owners, importing: Marks, epochs: map<NodeId, nat>, claim: Bitmap,
                 sender: NodeId, epoch: nat): Owners
  {
    seq(CLUSTER_SLOTS, j requires 0 <= j < CLUSTER_SLOTS =>
      MergeSlot(owners[j], TestBit(claim, j), importing[j], epochs, sender, epoch))
  }

  /** The shortcut of clusterProcessPacket: when the claim is the set of slots we already
      have for the sender, merging it changes nothing and takes no slot from anybody. */
  lemma KnownClaimMergesToNothing(owners: Owners, importing: Marks, epochs: map<NodeId, nat>, claim: Bitmap,
                                  sender: NodeId, epoch: nat)
    requires forall j: Slot :: TestBit(claim, j) <==> owners[j] == Node(sender)
    ensures Merge(owners, importing, epochs, claim, sender, epoch) == owners
    ensures forall j: Slot :: TestBit(claim, j) ==> !Rebinds(owners[j], importing[j], epochs, sender, epoch)
  {
    forall j: Slot | TestBit(claim, j) ensures owners[j] == Node(sender) {}
  }

  // ---------------------------------------------------------------------------
  // Many claims
  // ---------------------------------------------------------------------------

  /** What one sender announces, always the same. */
  datatype Announcement = Announcement(epoch: nat, slots: Bitmap)

  datatype Table = Table(owners: Owners, epochs: map<NodeId, nat>)

  /** A packet of `sender`: its configEpoch is raised first, then its claim is merged. */
  function Receive(t: Table, importing: Marks, sender: NodeId, a: Announcement): Table {
    var epochs := t.epochs[sender := Max(EpochOf(t.epochs, sender), a.epoch)];
    Table(Merge(t.owners, importing, epochs, a.slots, sender, a.epoch), epochs)
  }

  function ReceiveAll(t: Table, importing: Marks, announced: map<NodeId, Announcement>, packets: seq<NodeId>): Table
    requires forall p :: p in packets ==> p in announced
    decreases |packets|
  {
    if packets == [] then t
    else ReceiveAll(Receive(t, importing, packets[0], announced[packets[0]]), importing, announced, packets[1..])
  }

  ghost predicate Claims(announced: map<NodeId, Announcement>, n: NodeId, j: Slot) {
    n in announced && TestBit(announced[n].slots, j)
  }

  ghost predicate HighestClaimant(announced: map<NodeId, Announcement>, m: NodeId, j: Slot) {
    && Claims(announced, m, j)
    && forall n :: Claims(announced, n, j) ==> announced[n].epoch <= announced[m].epoch
  }

  /** Distinct epochs, none below what is already known of its sender. */
  ghost predicate Consistent(t: Table, announced: map<NodeId, Announcement>) {
    && (forall n :: n in announced ==> EpochOf(t.epochs, n) <= announced[n].epoch)
    && (forall n, k :: n in announced && k in announced && n != k ==> announced[n].epoch != announced[k].epoch)
  }

  /** The epoch a node has once every packet arrived. */
  ghost function FinalEpoch(t: Table, announced: map<NodeId, Announcement>, n: NodeId): nat {
    if n in announced then announced[n].epoch else EpochOf(t.epochs, n)
  }

  /** The owner we start with gives way to the highest claimant `m`: there is none, it is
      `m` itself, or it ends with a smaller epoch than m's claim. */
  ghost predicate GivesWay(t: Table, announced: map<NodeId, Announcement>, m: NodeId, j: Slot)
    requires m in announced
  {
    || t.owners[j].Nobody?
    || t.owners[j] == Node(m)
    || FinalEpoch(t, announced, t.owners[j].id) < announced[m].epoch
  }

  /** `m` holds the slot under the epoch it announces. */
  ghost predicate Settled(t: Table, announced: map<NodeId, Announcement>, m: NodeId, j: Slot)
    requires m in announced
  {
    t.owners[j] == Node(m) && EpochOf(t.epochs, m) == announced[m].epoch
  }

  ghost predicate Complete(announced: map<NodeId, Announcement>, packets: seq<NodeId>) {
    && (forall p :: p in packets ==> p in announced)
    && (forall n :: n in announced ==> n in packets)
  }

  /** Each change of owner is to a strictly greater epoch. */
  lemma RebindRaisesEpoch(t: Table, importing: Marks, sender: NodeId, a: Announcement, j: Slot)
    requires Receive(t, importing, sender, a).owners[j] != t.owners[j]
    ensures var t' := Receive(t, importing, sender, a);
      && t'.owners[j] == Node(sender)
      && (t.owners[j].Node? ==> EpochOf(t.epochs, t.owners[j].id) < EpochOf(t'.epochs, sender))
  {}

  lemma ReceiveKeepsConsistent(t: Table, importing: Marks, announced: map<NodeId, Announcement>, p: NodeId, m: NodeId, j: Slot)
    requires p in announced && Consistent(t, announced) && HighestClaimant(announced, m, j) && !importing[j]
    requires GivesWay(t, announced, m, j)
    ensures var t' := Receive(t, importing, p, announced[p]);
      && Consistent(t', announced) && GivesWay(t', announced, m, j)
      && (p == m || Settled(t, announced, m, j) ==> Settled(t', announced, m, j))
  {
    var t' := Receive(t, importing, p, announced[p]);
    if t'.owners[j] != t.owners[j] && p != m {
      assert Claims(announced, p, j) && announced[p].epoch < announced[m].epoch;
    }
  }

  /** Whatever the order and the repetitions, the slot ends with its highest claimant. */
  lemma {:induction false} HighestClaimWins(t: Table, importing: Marks, announced: map<NodeId, Announcement>,
                                            packets: seq<NodeId>, m: NodeId, j: Slot)
    requires forall p :: p in packets ==> p in announced
    requires Consistent(t, announced) && HighestClaimant(announced, m, j) && !importing[j]
    requires GivesWay(t, announced, m, j)
    requires m in packets || Settled(t, announced, m, j)
    ensures ReceiveAll(t, importing, announced, packets).owners[j] == Node(m)
    decreases |packets|
  {
    if packets != [] {
      ReceiveKeepsConsistent(t, importing, announced, packets[0], m, j);
      HighestClaimWins(Receive(t, importing, packets[0], announced[packets[0]]), importing, announced, packets[1..], m, j);
    }
  }

  /** An owner whose known epoch is not below any claim keeps the slot. */
  lemma {:induction false} StrongOwnerKeeps(t: Table, importing: Marks, announced: map<NodeId, Announcement>,
                                            packets: seq<NodeId>, j: Slot)
    requires forall p :: p in packets ==> p in announced
    requires t.owners[j].Node?
    requires forall n :: Claims(announced, n, j) ==> announced[n].epoch <= EpochOf(t.epochs, t.owners[j].id)
    ensures ReceiveAll(t, importing, announced, packets).owners[j] == t.owners[j]
    decreases |packets|
  {
    if packets != [] {
      var p := packets[0];
      var t' := Receive(t, importing, p, announced[p]);
      assert t'.owners[j] == t.owners[j] by {
        assert TestBit(announced[p].slots, j) ==> Claims(announced, p, j);
      }
      StrongOwnerKeeps(t', importing, announced, packets[1..], j);
    }
  }

  lemma {:induction false} Enumerate(s: set<NodeId>) returns (q: seq<NodeId>)
    ensures forall n :: n in q <==> n in s
    decreases |s|
  {
    if s == {} {
      q := [];
    } else {
      var n :| n in s;
      var rest := Enumerate(s - {n});
      q := [n] + rest;
      assert s == (s - {n}) + {n};
    }
  }

  /** An owner that does not give way survives when its own packet comes first: it has
      stopped claiming the slot, but its newer epoch protects the old binding. */
  lemma StaleOwnerKeeps(t: Table, importing: Marks, announced: map<NodeId, Announcement>, m: NodeId, j: Slot)
    returns (packets: seq<NodeId>)
    requires Consistent(t, announced) && HighestClaimant(announced, m, j) && !importing[j]
    requires !GivesWay(t, announced, m, j)
    ensures Complete(announced, packets)
    ensures ReceiveAll(t, importing, announced, packets).owners[j] == t.owners[j] != Node(m)
  {
    var x := t.owners[j].id;
    var all := Enumerate(announced.Keys);
    if x in announced {
      packets := [x] + all;
      var t' := Receive(t, importing, x, announced[x]);
      assert t'.owners[j] == t.owners[j];
      assert EpochOf(t'.epochs, x) == FinalEpoch(t, announced, x);
      StrongOwnerKeeps(t', importing, announced, all, j);
      assert packets[0] == x && packets[1..] == all;
    } else {
      packets := all;
      StrongOwnerKeeps(t, importing, announced, all, j);
    }
  }

  /** Such an owner: node 0 held every slot under epoch 1 and now announces epoch 5 and no slot,
      node 1 claims slot j under epoch 3. The order of the two packets decides. */
  lemma OrderMatters(importing: Marks, j: Slot)
    requires !importing[j]
    ensures var t := Table(seq(CLUSTER_SLOTS, _ => Node(0)), map[0 := 1]);
      var announced := map[0 := Announcement(5, EMPTY), 1 := Announcement(3, SetBit(EMPTY, j))];
      && HighestClaimant(announced, 1, j)
      && ReceiveAll(t, importing, announced, [1, 0]).owners[j] == Node(1)
      && ReceiveAll(t, importing, announced, [0, 1]).owners[j] == Node(0)
  {
    var t := Table(seq(CLUSTER_SLOTS, _ => Node(0)), map[0 := 1]);
    var first, second := Announcement(5, EMPTY), Announcement(3, SetBit(EMPTY, j));
    var announced := map[0 := first, 1 := second];
    TestAfterSet(EMPTY, j, j);
    assert j !in Bits(EMPTY) by { EmptyHasNoBits(); }
    assert [1, 0][1..] == [0] && [0, 1][1..] == [1] && [0][1..] == [] && [1][1..] == [];
    var late, early := Receive(t, importing, 1, second), Receive(t, importing, 0, first);
    assert late.owners[j] == Node(1) && early.owners[j] == Node(0);
    assert Receive(late, importing, 0, first).owners[j] == Node(1);
    assert Receive(early, importing, 1, second).owners[j] == Node(0);
  }

  /** The exact condition for the order of the claims not to matter. */
  lemma OrderIndependentIff(t: Table, importing: Marks, announced: map<NodeId, Announcement>, m: NodeId, j: Slot)
    requires Consistent(t, announced) && HighestClaimant(announced, m, j) && !importing[j]
    ensures GivesWay(t, announced, m, j) <==>
      forall packets :: Complete(announced, packets) ==>
        ReceiveAll(t, importing, announced, packets).owners[j] == Node(m)
  {
    if GivesWay(t, announced, m, j) {
      forall packets | Complete(announced, packets)
        ensures ReceiveAll(t, importing, announced, packets).owners[j] == Node(m)
      {
        HighestClaimWins(t, importing, announced, packets, m, j);
      }
    } else {
      var packets := StaleOwnerKeeps(t, importing, announced, m, j);
    }
  }

  /** From an empty table every slot ends with its highest claimant. */
  lemma EmptyTableConverges(importing: Marks, announced: map<NodeId, Announcement>, packets: seq<NodeId>,
                            m: NodeId, j: Slot)
    requires Complete(announced, packets)
    requires forall n, k :: n in announced && k in announced && n != k ==> announced[n].epoch != announced[k].epoch
    requires HighestClaimant(announced, m, j) && !importing[j]
    ensures ReceiveAll(Table(seq(CLUSTER_SLOTS, _ => Nobody), map[]), importing, announced, packets).owners[j] == Node(m)
  {
    var t := Table(seq(CLUSTER_SLOTS, _ => Nobody), map[]);
    HighestClaimWins(t, importing, announced, packets, m, j);
  }

  /** A slot nobody claims, or that is being imported, keeps its owner. */
  lemma {:induction false} UnclaimedKeepsOwner(t: Table, importing: Marks, announced: map<NodeId, Announcement>,
                                               packets: seq<NodeId>, j: Slot)
    requires forall p :: p in packets ==> p in announced
    requires importing[j] || forall n :: !Claims(announced, n, j)
    ensures ReceiveAll(t, importing, announced, packets).owners[j] == t.owners[j]
    decreases |packets|
  {
    if packets != [] {
      var p := packets[0];
      assert !importing[j] ==> !Claims(announced, p, j);
      UnclaimedKeepsOwner(Receive(t, importing, p, announced[p]), importing, announced, packets[1..], j);
    }
  }
}
