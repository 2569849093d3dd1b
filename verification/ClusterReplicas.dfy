/** Which node replicates which, seen from both ends, and who reported whom as failing
    (src/cluster.c): a node points to its master, a master lists its replicas, and a node lists the
    senders of failure reports about it. */
module ClusterReplicas {
  import opened ClusterEpochs
  import opened ClusterClaims

  datatype Report = Report(sender: NodeId, time: int)

  /** `master` has no entry for a node whose slaveof is null. */
  datatype Links = Links(slaves: map<NodeId, seq<NodeId>>, master: map<NodeId, NodeId>, reports: map<NodeId, seq<Report>>)

  ghost predicate NoDup(s: seq<NodeId>) {
    forall i, j :: 0 <= i < j < |s| ==> s[i] != s[j]
  }

  ghost predicate OneEach(s: seq<Report>) {
    forall i, j :: 0 <= i < j < |s| ==> s[i].sender != s[j].sender
  }

  /** The two ends agree: a master lists exactly the nodes that point to it, each once. */
  ghost predicate Mirrors(l: Links, known: set<NodeId>) {
    && l.slaves.Keys == known && l.master.Keys <= known
    && (forall m :: m in l.master ==> l.master[m] in known && l.master[m] != m)
    && (forall n, m :: n in known ==> (m in l.slaves[n] <==> m in l.master && l.master[m] == n))
    && (forall n :: n in known ==> NoDup(l.slaves[n]))
  }

  /** Reports are about known nodes and by known nodes, one by each. */
  ghost predicate Reported(l: Links, known: set<NodeId>) {
    && l.reports.Keys == known
    && (forall n :: n in known ==> OneEach(l.reports[n]))
    && (forall n, i :: n in known && 0 <= i < |l.reports[n]| ==> l.reports[n][i].sender in known)
  }

  /** All of it, for a node with its own role and master. */
  ghost predicate Linked(l: Links, known: set<NodeId>, myself: NodeId, isMaster: bool, slaveof: Owner) {
    && Mirrors(l, known) && Reported(l, known)
    && (slaveof.Node? <==> myself in l.master) && (slaveof.Node? ==> l.master[myself] == slaveof.id)
    && (isMaster ==> slaveof == Nobody)
  }

  lemma SameLinked(l: Links, known: set<NodeId>, r: Links, left: set<NodeId>, myself: NodeId, isMaster: bool, slaveof: Owner, n: NodeId)
    requires Linked(l, known, myself, isMaster, slaveof) && Forgotten(l, n) && l == r && known == left
    ensures Linked(r, left, myself, isMaster, slaveof) && Forgotten(r, n)
  {}

  // ---------------------------------------------------------------------------
  // One list of replicas
  // ---------------------------------------------------------------------------

  function IndexOf(s: seq<NodeId>, m: NodeId): (i: nat)
    ensures i <= |s| && (i < |s| ==> s[i] == m) && forall j :: 0 <= j < i ==> s[j] != m
    decreases |s|
  {
    if s == [] || s[0] == m then 0
    else
      var i := 1 + IndexOf(s[1..], m);
      assert forall j :: 0 < j < i ==> s[j] == s[1..][j - 1];
      i
  }

  function Dropped(s: seq<NodeId>, m: NodeId): seq<NodeId> {
    var i := IndexOf(s, m);
    if i == |s| then s else s[..i] + s[i + 1..]
  }

  /** Exactly m leaves. */
  lemma DroppedIs(s: seq<NodeId>, m: NodeId)
    requires NoDup(s)
    ensures NoDup(Dropped(s, m)) && forall x :: x in Dropped(s, m) <==> x in s && x != m
  {
    var i, r := IndexOf(s, m), Dropped(s, m);
    if i < |s| {
      assert forall j :: 0 <= j < |r| ==> r[j] == s[if j < i then j else j + 1];
      forall x ensures x in r <==> x in s && x != m {
        if x in s && x != m {
          var j :| 0 <= j < |s| && s[j] == x;
          assert r[if j < i then j else j - 1] == x;
        }
      }
    }
  }

  /** clusterNodeRemoveSlave on the list of the master. */
  method RemoveSlave(s: seq<NodeId>, m: NodeId) returns (r: seq<NodeId>, ok: bool)
    ensures r == Dropped(s, m) && ok == (m in s)
  {
    for j := 0 to |s|
      invariant forall i :: 0 <= i < j ==> s[i] != m
    {
      if s[j] == m {
        assert IndexOf(s, m) == j;
        return s[..j] + s[j + 1..], true;
      }
    }
    return s, false;
  }

  /** clusterNodeAddSlave: no node is listed twice. */
  method AddSlave(s: seq<NodeId>, m: NodeId) returns (r: seq<NodeId>, ok: bool)
    ensures ok == (m !in s) && r == if m in s then s else s + [m]
  {
    for j := 0 to |s|
      invariant forall i :: 0 <= i < j ==> s[i] != m
    {
      if s[j] == m { return s, false; }
    }
    return s + [m], true;
  }

  // ---------------------------------------------------------------------------
  // Both ends
  // ---------------------------------------------------------------------------

  /** m leaves its master, if it has one. */
  function Detached(l: Links, m: NodeId): Links {
    if m !in l.master || l.master[m] !in l.slaves then l
    else
      var n := l.master[m];
      l.(slaves := l.slaves[n := Dropped(l.slaves[n], m)], master := l.master - {m})
  }

  function Attached(l: Links, m: NodeId, n: NodeId): Links
    requires n in l.slaves
  {
    l.(slaves := l.slaves[n := l.slaves[n] + [m]], master := l.master[m := n])
  }

  /** m turns from its master to n. */
  function Followed(l: Links, m: NodeId, n: NodeId): Links
    requires n in l.slaves
  {
    Attached(Detached(l, m), m, n)
  }

  lemma DetachedMirrors(l: Links, known: set<NodeId>, m: NodeId)
    requires Mirrors(l, known)
    ensures Mirrors(Detached(l, m), known) && m !in Detached(l, m).master
  {
    if m in l.master { DroppedIs(l.slaves[l.master[m]], m); }
  }

  lemma AttachedMirrors(l: Links, known: set<NodeId>, m: NodeId, n: NodeId)
    requires Mirrors(l, known) && m in known && n in known && m !in l.master && m != n
    ensures Mirrors(Attached(l, m, n), known)
  {
    var r := Attached(l, m, n);
    assert m !in l.slaves[n];
    forall k, x | k in known ensures x in r.slaves[k] <==> x in r.master && r.master[x] == k {
      assert x in l.slaves[k] <==> x in l.master && l.master[x] == k;
    }
  }

  lemma FollowedMirrors(l: Links, known: set<NodeId>, m: NodeId, n: NodeId)
    requires Mirrors(l, known) && m in known && n in known && m != n
    ensures Mirrors(Followed(l, m, n), known)
  {
    DetachedMirrors(l, known, m);
    AttachedMirrors(Detached(l, m), known, m, n);
  }

  lemma FollowedPoints(l: Links, m: NodeId, n: NodeId)
    requires (m in l.master ==> l.master[m] in l.slaves) && n in l.slaves
    ensures Followed(l, m, n).master == l.master[m := n] && Followed(l, m, n).reports == l.reports
  {
    assert (l.master - {m})[m := n] == l.master[m := n];
  }

  lemma FollowedLinked(l: Links, known: set<NodeId>, myself: NodeId, isMaster: bool, slaveof: Owner, n: NodeId)
    requires Linked(l, known, myself, isMaster, slaveof) && myself in known && n in known && myself != n
    ensures Linked(Followed(l, myself, n), known, myself, false, Node(n))
  {
    FollowedMirrors(l, known, myself, n);
    FollowedPoints(l, myself, n);
  }

  lemma NotListed(l: Links, known: set<NodeId>, m: NodeId, n: NodeId)
    requires Mirrors(l, known) && n in known
    ensures n in Detached(l, m).slaves && m !in Detached(l, m).slaves[n]
  {
    DetachedMirrors(l, known, m);
  }

  lemma DetachedLinked(l: Links, known: set<NodeId>, myself: NodeId, isMaster: bool, slaveof: Owner)
    requires Linked(l, known, myself, isMaster, slaveof)
    ensures Linked(Detached(l, myself), known, myself, true, Nobody)
  {
    DetachedMirrors(l, known, myself);
  }

  /** clusterSetMaster for m, seen from the lists. */
  method Follow(l: Links, m: NodeId, n: NodeId) returns (r: Links)
    requires (m in l.master ==> l.master[m] in l.slaves) && n in l.slaves && m !in Detached(l, m).slaves[n]
    ensures r == Followed(l, m, n)
  {
    r := Detach(l, m);
    var list, _ := AddSlave(r.slaves[n], m);
    r := r.(slaves := r.slaves[n := list], master := r.master[m := n]);
  }

  method Detach(l: Links, m: NodeId) returns (r: Links)
    requires m in l.master ==> l.master[m] in l.slaves
    ensures r == Detached(l, m)
  {
    if m !in l.master { return l; }
    var n := l.master[m];
    var list, _ := RemoveSlave(l.slaves[n], m);
    return l.(slaves := l.slaves[n := list], master := l.master - {m});
  }

  // ---------------------------------------------------------------------------
  // Removing a node
  // ---------------------------------------------------------------------------

  /** freeClusterNode: its replicas lose their master, its master loses it, and it is gone. */
  function Freed(l: Links, n: NodeId): Links {
    var d := Detached(l.(master := Orphaned(l.master, n)), n);
    Links(d.slaves - {n}, d.master, d.reports - {n})
  }

  function Orphaned(master: map<NodeId, NodeId>, n: NodeId): map<NodeId, NodeId> {
    map m | m in master && (master[m] != n || m == n) :: master[m]
  }

  /** No list, pointer or report mentions the node any more. */
  ghost predicate Forgotten(l: Links, n: NodeId) {
    && n !in l.slaves && n !in l.master && n !in l.reports
    && (forall m :: m in l.slaves ==> n !in l.slaves[m])
    && (forall m :: m in l.master ==> l.master[m] != n)
    && NoneBy(l.reports, n)
  }

  lemma FreedPoints(l: Links, n: NodeId)
    requires (n in l.master ==> l.master[n] in l.slaves && l.master[n] != n)
    ensures forall m :: m in Freed(l, n).master <==> m in l.master && m != n && l.master[m] != n
    ensures forall m :: m in Freed(l, n).master ==> Freed(l, n).master[m] == l.master[m]
    ensures Freed(l, n).slaves.Keys == l.slaves.Keys - {n} && Freed(l, n).reports == l.reports - {n}
    ensures forall k :: k in l.slaves && k != n ==>
              Freed(l, n).slaves[k] == if n in l.master && l.master[n] == k then Dropped(l.slaves[k], n) else l.slaves[k]
  {}

  lemma FreedList(l: Links, known: set<NodeId>, n: NodeId, k: NodeId)
    requires Mirrors(l, known) && n in known && k in known - {n}
    ensures var r := Freed(l, n);
      k in r.slaves && NoDup(r.slaves[k]) && forall x :: x in r.slaves[k] <==> x in l.master && l.master[x] == k && x != n
  {
    FreedPoints(l, n);
    DroppedIs(l.slaves[k], n);
    assert forall x :: x in l.slaves[k] <==> x in l.master && l.master[x] == k;
  }

  lemma FreedMirrors(l: Links, known: set<NodeId>, n: NodeId)
    requires Mirrors(l, known) && n in known
    ensures Mirrors(Freed(l, n), known - {n})
    ensures n !in Freed(l, n).master && forall m :: m in Freed(l, n).slaves ==> n !in Freed(l, n).slaves[m]
  {
    FreedPoints(l, n);
    forall k | k in known - {n}
      ensures k in Freed(l, n).slaves && NoDup(Freed(l, n).slaves[k])
      ensures forall x :: x in Freed(l, n).slaves[k] <==> x in l.master && l.master[x] == k && x != n
    {
      FreedList(l, known, n, k);
    }
  }

  /** The loop that clears the slaveof of the replicas. */
  method ClearMasters(master: map<NodeId, NodeId>, slaves: seq<NodeId>, ghost n: NodeId) returns (r: map<NodeId, NodeId>)
    requires forall m :: m in slaves <==> m in master && master[m] == n
    requires n in master ==> master[n] != n
    ensures r == Orphaned(master, n)
  {
    r := master;
    for j := 0 to |slaves|
      invariant r == map m | m in master && m !in slaves[..j] :: master[m]
    {
      r := r - {slaves[j]};
      assert slaves[..j + 1] == slaves[..j] + [slaves[j]];
    }
    assert slaves[..|slaves|] == slaves;
  }

  /** The replicas of n are exactly the nodes that point to it. */
  ghost predicate Freeable(l: Links, n: NodeId) {
    && n in l.slaves && (n in l.master ==> l.master[n] in l.slaves && l.master[n] != n)
    && (forall m :: m in l.slaves[n] <==> m in l.master && l.master[m] == n)
  }

  /** freeClusterNode. */
  method Free(l: Links, n: NodeId) returns (r: Links)
    requires Freeable(l, n)
    ensures r == Freed(l, n)
  {
    var master := ClearMasters(l.master, l.slaves[n], n);
    r := Detach(l.(master := master), n);
    r := Links(r.slaves - {n}, r.master, r.reports - {n});
  }

  // ---------------------------------------------------------------------------
  // Failure reports
  // ---------------------------------------------------------------------------

  /** clusterNodeCleanupFailureReports. */
  function Recent(s: seq<Report>, now: int, validity: int): seq<Report>
    decreases |s|
  {
    if s == [] then []
    else (if now - s[0].time > validity then [] else [s[0]]) + Recent(s[1..], now, validity)
  }

  function BySender(s: seq<Report>, n: NodeId): (i: nat)
    ensures i <= |s| && (i < |s| ==> s[i].sender == n) && forall j :: 0 <= j < i ==> s[j].sender != n
    decreases |s|
  {
    if s == [] || s[0].sender == n then 0
    else
      var i := 1 + BySender(s[1..], n);
      assert forall j :: 0 < j < i ==> s[j] == s[1..][j - 1];
      i
  }

  /** clusterNodeDelFailureReport: old reports go as well, but only if there was one to delete. */
  function Withdrawn(s: seq<Report>, n: NodeId, now: int, validity: int): seq<Report> {
    var i := BySender(s, n);
    if i == |s| then s else Recent(s[..i] + s[i + 1..], now, validity)
  }

  lemma {:induction false} RecentHas(s: seq<Report>, now: int, validity: int, r: Report)
    ensures r in Recent(s, now, validity) <==> r in s && now - r.time <= validity
    decreases |s|
  {
    if s != [] {
      RecentHas(s[1..], now, validity, r);
      assert s == [s[0]] + s[1..];
    }
  }

  lemma {:induction false} RecentOneEach(s: seq<Report>, now: int, validity: int)
    requires OneEach(s)
    ensures OneEach(Recent(s, now, validity))
    decreases |s|
  {
    if s != [] {
      RecentOneEach(s[1..], now, validity);
      var rest := Recent(s[1..], now, validity);
      forall j | 0 <= j < |rest| ensures rest[j].sender != s[0].sender {
        RecentHas(s[1..], now, validity, rest[j]);
        assert rest[j] in s[1..];
      }
    }
  }

  lemma WithoutOne(s: seq<Report>, i: nat)
    requires OneEach(s) && i < |s|
    ensures OneEach(s[..i] + s[i + 1..])
  {
    var d := s[..i] + s[i + 1..];
    assert forall j :: 0 <= j < |d| ==> d[j] == s[if j < i then j else j + 1];
  }

  lemma WithoutHas(s: seq<Report>, i: nat, x: Report)
    requires OneEach(s) && i < |s|
    ensures x in s[..i] + s[i + 1..] <==> x in s && x.sender != s[i].sender
  {
    var d := s[..i] + s[i + 1..];
    if x in s && x.sender != s[i].sender {
      var j :| 0 <= j < |s| && s[j] == x;
      assert d[if j < i then j else j - 1] == x;
    }
  }

  lemma WithdrawnOneEach(s: seq<Report>, n: NodeId, now: int, validity: int)
    requires OneEach(s)
    ensures OneEach(Withdrawn(s, n, now, validity))
  {
    var i := BySender(s, n);
    if i < |s| {
      var d := s[..i] + s[i + 1..];
      WithoutOne(s, i);
      RecentOneEach(d, now, validity);
      assert Withdrawn(s, n, now, validity) == Recent(d, now, validity);
    } else {
      assert Withdrawn(s, n, now, validity) == s;
    }
  }

  /** The report of n goes, and old ones with it; others stay. */
  lemma WithdrawnHas(s: seq<Report>, n: NodeId, now: int, validity: int, x: Report)
    requires OneEach(s)
    ensures x in Withdrawn(s, n, now, validity) ==> x in s && x.sender != n
    ensures x in s && x.sender != n && now - x.time <= validity ==> x in Withdrawn(s, n, now, validity)
  {
    var i := BySender(s, n);
    if i < |s| {
      WithoutHas(s, i, x);
      RecentHas(s[..i] + s[i + 1..], now, validity, x);
    }
  }

  lemma {:induction false} RecentSnoc(s: seq<Report>, x: Report, now: int, validity: int)
    ensures Recent(s + [x], now, validity) == Recent(s, now, validity) + if now - x.time > validity then [] else [x]
    decreases |s|
  {
    if s == [] {
      assert s + [x] == [x] && [x][1..] == [];
    } else {
      assert (s + [x])[1..] == s[1..] + [x];
      RecentSnoc(s[1..], x, now, validity);
      Assoc(if now - s[0].time > validity then [] else [s[0]], Recent(s[1..], now, validity),
            if now - x.time > validity then [] else [x]);
    }
  }

  lemma Assoc(a: seq<Report>, b: seq<Report>, c: seq<Report>)
    ensures (a + b) + c == a + (b + c)
  {}

  method DelFailureReport(s: seq<Report>, n: NodeId, now: int, validity: int) returns (r: seq<Report>)
    ensures r == Withdrawn(s, n, now, validity)
  {
    var i := 0;
    while i < |s| && s[i].sender != n
      invariant i <= |s| && forall j :: 0 <= j < i ==> s[j].sender != n
    {
      i := i + 1;
    }
    assert i == BySender(s, n);
    if i == |s| { return s; }
    r := CleanupFailureReports(s[..i] + s[i + 1..], now, validity);
  }

  method CleanupFailureReports(s: seq<Report>, now: int, validity: int) returns (r: seq<Report>)
    ensures r == Recent(s, now, validity)
  {
    r := [];
    for i := 0 to |s|
      invariant r == Recent(s[..i], now, validity)
    {
      assert s[..i + 1] == s[..i] + [s[i]];
      RecentSnoc(s[..i], s[i], now, validity);
      if now - s[i].time <= validity { r := r + [s[i]]; }
    }
    assert s[..|s|] == s;
  }

  /** Step 2 of clusterDelNode: what n reported about the others is withdrawn. */
  function WithdrawnAll(reports: map<NodeId, seq<Report>>, n: NodeId, now: int, validity: int): map<NodeId, seq<Report>> {
    map m | m in reports :: if m == n then reports[m] else Withdrawn(reports[m], n, now, validity)
  }

  method WithdrawReports(reports: map<NodeId, seq<Report>>, n: NodeId, now: int, validity: int)
    returns (r: map<NodeId, seq<Report>>)
    ensures r == WithdrawnAll(reports, n, now, validity)
  {
    var left := reports.Keys;
    r := reports;
    while left != {}
      invariant left <= reports.Keys && r.Keys == reports.Keys
      invariant forall m :: m in reports ==>
        r[m] == if m in left || m == n then reports[m] else Withdrawn(reports[m], n, now, validity)
      decreases |left|
    {
      var m :| m in left;
      if m != n {
        var l := DelFailureReport(r[m], n, now, validity);
        r := r[m := l];
      }
      left := left - {m};
    }
  }

  ghost predicate NoneBy(reports: map<NodeId, seq<Report>>, n: NodeId) {
    forall m, i :: m in reports && 0 <= i < |reports[m]| ==> reports[m][i].sender != n
  }

  lemma WithdrawnReported(l: Links, known: set<NodeId>, n: NodeId, now: int, validity: int)
    requires Reported(l, known) && n in known
    ensures var r := l.(reports := WithdrawnAll(l.reports, n, now, validity) - {n});
      Reported(r, known - {n}) && NoneBy(r.reports, n)
  {
    var r := WithdrawnAll(l.reports, n, now, validity) - {n};
    forall m | m in known - {n} ensures OneEach(r[m]) { WithdrawnOneEach(l.reports[m], n, now, validity); }
    forall m, i | m in known - {n} && 0 <= i < |r[m]| ensures r[m][i].sender in known - {n} {
      WithdrawnHas(l.reports[m], n, now, validity, r[m][i]);
      var j :| 0 <= j < |l.reports[m]| && l.reports[m][j] == r[m][i];
    }
  }

  /** Steps 2 and 3 of clusterDelNode. */
  function Deleted(l: Links, n: NodeId, now: int, validity: int): Links {
    Freed(l.(reports := WithdrawnAll(l.reports, n, now, validity)), n)
  }

  /** clusterDelNode leaves no pointer to the node it frees. */
  lemma DeletedIsForgotten(l: Links, known: set<NodeId>, n: NodeId, now: int, validity: int)
    requires Mirrors(l, known) && Reported(l, known) && n in known
    ensures var r := Deleted(l, n, now, validity);
      Mirrors(r, known - {n}) && Reported(r, known - {n}) && Forgotten(r, n)
  {
    var w := l.(reports := WithdrawnAll(l.reports, n, now, validity));
    FreedMirrors(w, known, n);
    FreedPoints(w, n);
    WithdrawnReported(l, known, n, now, validity);
  }

  lemma DeletedLinked(l: Links, known: set<NodeId>, myself: NodeId, isMaster: bool, slaveof: Owner, n: NodeId, now: int, validity: int)
    requires Linked(l, known, myself, isMaster, slaveof) && n in known && n != myself && slaveof != Node(n)
    ensures Linked(Deleted(l, n, now, validity), known - {n}, myself, isMaster, slaveof)
    ensures Forgotten(Deleted(l, n, now, validity), n)
  {
    DeletedIsForgotten(l, known, n, now, validity);
    FreedPoints(l.(reports := WithdrawnAll(l.reports, n, now, validity)), n);
  }

  lemma MirrorsFreeable(l: Links, known: set<NodeId>, n: NodeId, reports: map<NodeId, seq<Report>>)
    requires Mirrors(l, known) && n in known
    ensures Freeable(l.(reports := reports), n)
  {
    assert forall m :: m in l.slaves[n] <==> m in l.master && l.master[m] == n;
  }
}
