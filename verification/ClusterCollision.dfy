/** Collisions of configuration epochs among masters, and why resolving them ends
    (src/cluster.c, clusterHandleConfigEpochCollision). */
module ClusterCollision {
  import opened ClusterEpochs

  /** The configEpoch of each master. */
  type Epochs = map<NodeId, nat>

  /** Master `i` hears master `j`. Its view of the two is current, and its currentEpoch is
      not below any master's configEpoch. */
  datatype Meeting = Meeting(i: NodeId, j: NodeId, view: NodeView)

  ghost predicate Meets(e: Epochs, m: Meeting) {
    && m.i in e && m.j in e
    && KnownEpoch(m.view, m.i) == e[m.i] && KnownEpoch(m.view, m.j) == e[m.j]
    && (forall k :: k in e ==> e[k] <= m.view.currentEpoch)
  }

  ghost function Resolve(e: Epochs, m: Meeting): Epochs
    requires Meets(e, m)
  {
    e[m.i := KnownEpoch(ResolveCollision(m.view, m.i, m.j, true), m.i)]
  }

  /** A meeting that moves somebody. */
  ghost predicate Moves(e: Epochs, m: Meeting) {
    Meets(e, m) && Resolve(e, m) != e
  }

  ghost predicate AllMove(e: Epochs, ms: seq<Meeting>)
    decreases |ms|
  {
    ms == [] || (Moves(e, ms[0]) && AllMove(Resolve(e, ms[0]), ms[1..]))
  }

  ghost function ResolveAll(e: Epochs, ms: seq<Meeting>): Epochs
    requires AllMove(e, ms)
    decreases |ms|
  {
    if ms == [] then e else ResolveAll(Resolve(e, ms[0]), ms[1..])
  }

  ghost predicate PairwiseDistinct(e: Epochs) {
    forall i, j :: i in e && j in e && i != j ==> e[i] != e[j]
  }

  /** The greatest name among the masters sharing its epoch. */
  ghost predicate GreatestOfGroup(e: Epochs, i: NodeId) {
    i in e && forall j :: j in e && e[j] == e[i] ==> j <= i
  }

  /** A move happens exactly when the two collide and the mover has the smaller name, and
      it takes an epoch nobody has. */
  lemma MovesIff(e: Epochs, m: Meeting)
    requires Meets(e, m)
    ensures Moves(e, m) <==> e[m.i] == e[m.j] && m.i < m.j
    ensures Moves(e, m) ==> Resolve(e, m) == e[m.i := m.view.currentEpoch + 1]
    ensures !Moves(e, m) ==> Resolve(e, m) == e
  {
    if e[m.i] == e[m.j] && m.i < m.j {
      assert Resolve(e, m)[m.i] != e[m.i];
    } else {
      assert e[m.i := e[m.i]] == e;
    }
  }

  /** A PING of a master with a greater name that is not older than what we know of it leaves
      the two with different epochs. */
  lemma PingSeparates(s: NodeView, n: NodeId, h: Header)
    requires NodeBound(s) && h.sender in s.configEpoch && n in s.configEpoch && n < h.sender
    requires KnownEpoch(s, h.sender) <= h.configEpoch <= h.currentEpoch
    ensures var t := OnPing(s, n, h, true);
      KnownEpoch(t, n) != KnownEpoch(t, h.sender) && KnownEpoch(t, h.sender) == h.configEpoch
  {}

  lemma MoveAddsOneEpoch(e: Epochs, m: Meeting)
    requires Moves(e, m)
    ensures |Resolve(e, m).Values| == |e.Values| + 1
    ensures Resolve(e, m).Keys == e.Keys
  {
    MovesIff(e, m);
    var e', next := Resolve(e, m), m.view.currentEpoch + 1;
    assert next !in e.Values;
    forall v ensures v in e'.Values <==> v in e.Values || v == next {
      if v in e.Values {
        var k :| k in e && e[k] == v;
        if k == m.i { assert e'[m.j] == v; } else { assert e'[k] == v; }
      }
      if v == next { assert e'[m.i] == v; }
    }
    assert e'.Values == e.Values + {next};
  }

  lemma {:induction false} ValuesNoMoreThanKeys(e: Epochs)
    ensures |e.Values| <= |e|
    decreases |e|
  {
    if e != map[] {
      var k :| k in e;
      var rest := e - {k};
      ValuesNoMoreThanKeys(rest);
      forall v | v in e.Values ensures v in rest.Values + {e[k]} {
        var j :| j in e && e[j] == v;
        if j != k { assert rest[j] == v; }
      }
      assert e.Keys == rest.Keys + {k};
      SubsetSize(e.Values, rest.Values + {e[k]});
    } else {
      assert e.Values == {};
    }
  }

  /** N masters settle after at most N-1 moves, in whatever order they meet. */
  lemma {:induction false} ResolutionTerminates(e: Epochs, ms: seq<Meeting>)
    requires AllMove(e, ms)
    ensures ResolveAll(e, ms).Keys == e.Keys
    ensures |ResolveAll(e, ms).Values| == |e.Values| + |ms| <= |e|
    ensures e != map[] ==> |ms| <= |e| - 1
    decreases |ms|
  {
    ValuesNoMoreThanKeys(e);
    if e != map[] {
      var k :| k in e;
      assert e[k] in e.Values;
    }
    if ms != [] {
      MoveAddsOneEpoch(e, ms[0]);
      assert |Resolve(e, ms[0])| == |e| by {
        assert |Resolve(e, ms[0])| == |Resolve(e, ms[0]).Keys|;
        assert |e| == |e.Keys|;
      }
      ResolutionTerminates(Resolve(e, ms[0]), ms[1..]);
    }
  }

  /** When no meeting moves anybody the epochs are pairwise distinct, and conversely. */
  lemma SettledIffDistinct(e: Epochs)
    ensures PairwiseDistinct(e) <==> forall m :: Meets(e, m) ==> !Moves(e, m)
  {
    if PairwiseDistinct(e) {
      forall m | Meets(e, m) ensures !Moves(e, m) { MovesIff(e, m); }
    } else {
      var i, j :| i in e && j in e && i < j && e[i] == e[j];
      var top := SomeBound(e);
      var m := Meeting(i, j, NodeView(top, 0, e, 0, 0, false));
      MovesIff(e, m);
    }
  }

  lemma {:induction false} SomeBound(e: Epochs) returns (top: nat)
    ensures forall k :: k in e ==> e[k] <= top
    decreases |e|
  {
    if e == map[] {
      top := 0;
    } else {
      var k :| k in e;
      var below := SomeBound(e - {k});
      top := Max(below, e[k]);
      assert forall j :: j in e && j != k ==> j in e - {k};
    }
  }

  /** The greatest name of a colliding group keeps its epoch through every run. */
  lemma {:induction false} GreatestNeverMoves(e: Epochs, ms: seq<Meeting>, i: NodeId)
    requires AllMove(e, ms) && GreatestOfGroup(e, i)
    ensures i in ResolveAll(e, ms) && ResolveAll(e, ms)[i] == e[i]
    ensures GreatestOfGroup(ResolveAll(e, ms), i)
    decreases |ms|
  {
    if ms != [] {
      MovesIff(e, ms[0]);
      GreatestNeverMoves(Resolve(e, ms[0]), ms[1..], i);
    }
  }
}
