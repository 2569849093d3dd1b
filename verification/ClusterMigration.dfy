/** Moving one slot from node A to node B while clients keep working: the two key spaces
    behave as one map. Routing is that of ClusterRouting.Decide; a key move (MIGRATE) is one
    atomic step. */
module ClusterMigration {
  import opened ClusterEpochs
  import opened ClusterClaims
  import opened ClusterRouting

  type Val = string
  type Store = map<Key, Val>

  const A: NodeId := 0
  const B: NodeId := 1

  /** The operator's order: B imports, A migrates, keys move, B takes the slot, A lets go. */
  datatype Phase = Stable | Importing | Migrating | Taken | Done

  function Rank(p: Phase): nat {
    match p case Stable => 0 case Importing => 1 case Migrating => 2 case Taken => 3 case Done => 4
  }

  /** What a command does to the keys it names: any function of their values. */
  type Effect = Store -> Store

  function Restrict(m: Store, keys: set<Key>): Store {
    map k | k in m && k in keys :: m[k]
  }

  function Exec(effect: Effect, keys: set<Key>, m: Store): Store {
    (m - keys) + Restrict(effect(Restrict(m, keys)), keys)
  }

  function KeySet(keys: seq<Key>): set<Key> {
    set k | k in keys
  }

  /** A request on its way to a node, after `hops` redirections. */
  datatype Flight = Flight(keys: seq<Key>, effect: Effect, at: NodeId, asking: bool, hops: nat)

  /** `learned` are the other nodes that already see B as the owner. */
  datatype System = System(a: Store, b: Store, phase: Phase, learned: set<NodeId>, flights: seq<Flight>)

  /** The slot as node n sees it. */
  function OwnerAt(s: System, n: NodeId): NodeId {
    if n == A then (if s.phase.Done? then B else A)
    else if n == B then (if s.phase.Taken? || s.phase.Done? then B else A)
    else if n in s.learned then B else A
  }

  function MigratingAt(s: System, n: NodeId): Owner {
    if n == A && (s.phase.Migrating? || s.phase.Taken?) then Node(B) else Nobody
  }

  function ImportingAt(s: System, n: NodeId): Owner {
    if n == B && (s.phase.Importing? || s.phase.Migrating?) then Node(A) else Nobody
  }

  function LocalAt(s: System, n: NodeId): set<Key> {
    if n == A then s.a.Keys else if n == B then s.b.Keys else {}
  }

  ghost function RouteFlight(s: System, f: Flight): Route {
    Decide(f.at, OwnerAt(s, f.at), MigratingAt(s, f.at), ImportingAt(s, f.at), true, Nobody,
           Flags(false, false, f.asking, false), !SameKey(f.keys), !AllIn(f.keys, LocalAt(s, f.at)))
  }

  datatype Step =
    | Issue(f: Flight)
    | Deliver(i: nat)
    | MoveKey(k: Key)
    | Advance
    | Learn(n: NodeId)

  /** A closes the slot only when it holds no key (the check of CLUSTER SETSLOT NODE), and
      the operator lets B take it only then. */
  ghost predicate Enabled(s: System, st: Step) {
    match st
    case Issue(f) => f.keys != [] && !f.asking && f.hops == 0
    case Deliver(i) => i < |s.flights|
    case MoveKey(k) => s.phase.Migrating? && k in s.a
    case Advance => !s.phase.Done? && (Rank(s.phase) >= 2 ==> s.a == map[])
    case Learn(n) => n != A && n != B && Rank(s.phase) >= 3
  }

  function Without<T>(xs: seq<T>, i: nat): seq<T>
    requires i < |xs|
  {
    xs[..i] + xs[i + 1..]
  }

  ghost function ServeAt(s: System, f: Flight): System {
    if f.at == A then s.(a := Exec(f.effect, KeySet(f.keys), s.a))
    else if f.at == B then s.(b := Exec(f.effect, KeySet(f.keys), s.b))
    else s
  }

  ghost function DeliverTo(s: System, i: nat): System
    requires i < |s.flights|
  {
    var f := s.flights[i];
    match RouteFlight(s, f)
    case Serve => ServeAt(s, f).(flights := Without(s.flights, i))
    case Moved(n) => s.(flights := s.flights[i := f.(at := n, asking := false, hops := f.hops + 1)])
    case Ask(n) => s.(flights := s.flights[i := f.(at := n, asking := true, hops := f.hops + 1)])
    case _ => s.(flights := Without(s.flights, i))
  }

  function NextPhase(p: Phase): Phase {
    match p case Stable => Importing case Importing => Migrating case Migrating => Taken case _ => Done
  }

  ghost function Apply(s: System, st: Step): System
    requires Enabled(s, st)
  {
    match st
    case Issue(f) => s.(flights := s.flights + [f])
    case Deliver(i) => DeliverTo(s, i)
    case MoveKey(k) => s.(a := s.a - {k}, b := s.b[k := s.a[k]])
    case Advance => s.(phase := NextPhase(s.phase))
    case Learn(n) => s.(learned := s.learned + {n})
  }

  // ---------------------------------------------------------------------------
  // Invariant
  // ---------------------------------------------------------------------------

  /** Where a request can be, by the number of redirections it went through. A request
      under ASKING names a key that A does not have, and A will not get it back. */
  ghost predicate FlightOk(s: System, f: Flight) {
    && f.keys != []
    && f.hops <= 2
    && (f.asking ==> f.at == B && f.hops > 0 && Rank(s.phase) >= 2 && !AllIn(f.keys, s.a.Keys))
    && (f.hops == 1 && !f.asking ==> f.at == A || (f.at == B && Rank(s.phase) >= 3))
    && (f.hops == 2 ==> f.at == B && (f.asking || Rank(s.phase) >= 3))
  }

  ghost predicate Inv(s: System) {
    && s.a.Keys !! s.b.Keys
    && (Rank(s.phase) < 2 ==> s.b == map[])
    && (Rank(s.phase) >= 3 ==> s.a == map[])
    && (s.learned != {} ==> Rank(s.phase) >= 3)
    && (forall i :: 0 <= i < |s.flights| ==> FlightOk(s, s.flights[i]))
  }

  /** The one map A and B stand for. */
  ghost function Whole(s: System): Store {
    s.a + s.b
  }

  lemma ExecKeys(effect: Effect, keys: set<Key>, m: Store)
    ensures Exec(effect, keys, m).Keys <= m.Keys + keys
  {}

  lemma DisjointCommutes(x: Store, y: Store)
    requires x.Keys !! y.Keys
    ensures x + y == y + x
  {}

  lemma AddDisjointLast(x: Store, y: Store, z: Store)
    requires y.Keys !! z.Keys
    ensures (x + y) + z == (x + z) + y
  {}

  lemma RemoveFromPart(part: Store, rest: Store, keys: set<Key>)
    requires keys !! rest.Keys
    ensures (part + rest) - keys == (part - keys) + rest
    ensures Restrict(part + rest, keys) == Restrict(part, keys)
  {}

  /** Running a command on a part of the map that holds all of the command's keys that
      exist at all is running it on the whole map. */
  lemma ExecOnPart(effect: Effect, keys: set<Key>, part: Store, rest: Store)
    requires keys !! rest.Keys
    ensures Exec(effect, keys, part) + rest == Exec(effect, keys, part + rest)
  {
    var out := Restrict(effect(Restrict(part, keys)), keys);
    RemoveFromPart(part, rest, keys);
    AddDisjointLast(part - keys, out, rest);
  }

  /** A request is served only where none of its keys can live elsewhere; during the
      migration a request naming several keys is served only where all of them are local. */
  lemma ServedWhereKeysAre(s: System, f: Flight)
    requires Inv(s) && FlightOk(s, f) && RouteFlight(s, f) == Serve
    ensures f.at == A || f.at == B
    ensures KeySet(f.keys) !! LocalAt(s, if f.at == A then B else A)
    ensures s.phase.Migrating? && !SameKey(f.keys) ==> AllIn(f.keys, LocalAt(s, f.at))
    ensures f.at == A && s.phase.Migrating? ==> AllIn(f.keys, s.a.Keys)
  {
    if f.at == B && !AllIn(f.keys, s.b.Keys) && Rank(s.phase) < 3 {
      assert SameKey(f.keys);
    }
  }

  function StoreAt(s: System, n: NodeId): Store {
    if n == A then s.a else if n == B then s.b else map[]
  }

  /** What a request reads where it is served, and so its reply, is what the one map holds. */
  lemma ReadsOneMap(s: System, f: Flight)
    requires Inv(s) && FlightOk(s, f) && RouteFlight(s, f) == Serve
    ensures Restrict(StoreAt(s, f.at), KeySet(f.keys)) == Restrict(Whole(s), KeySet(f.keys))
  {
    ServedWhereKeysAre(s, f);
    if f.at == A {
      RemoveFromPart(s.a, s.b, KeySet(f.keys));
    } else {
      RemoveFromPart(s.b, s.a, KeySet(f.keys));
      DisjointCommutes(s.a, s.b);
    }
  }

  lemma ServeStep(s: System, i: nat)
    requires Inv(s) && i < |s.flights| && RouteFlight(s, s.flights[i]) == Serve
    ensures var s' := DeliverTo(s, i); var f := s.flights[i];
      Inv(s') && Whole(s') == Exec(f.effect, KeySet(f.keys), Whole(s))
  {
    var f := s.flights[i];
    var keys := KeySet(f.keys);
    ServedWhereKeysAre(s, f);
    var s' := DeliverTo(s, i);
    if f.at == A {
      ExecOnPart(f.effect, keys, s.a, s.b);
      ExecKeys(f.effect, keys, s.a);
      assert Rank(s.phase) >= 2 ==> keys <= s.a.Keys;
    } else {
      ExecOnPart(f.effect, keys, s.b, s.a);
      ExecKeys(f.effect, keys, s.b);
      DisjointCommutes(s.a, s.b);
      DisjointCommutes(s.a, s'.b);
    }
    FlightsKept(s, s', i);
  }

  /** Requests stay well placed when A gains no key during the migration. */
  lemma FlightsKept(s: System, s': System, i: nat)
    requires i < |s.flights| && s'.phase == s.phase && s'.flights == Without(s.flights, i)
    requires forall j :: 0 <= j < |s.flights| ==> FlightOk(s, s.flights[j])
    requires Rank(s.phase) >= 2 ==> s'.a.Keys <= s.a.Keys
    ensures forall j :: 0 <= j < |s'.flights| ==> FlightOk(s', s'.flights[j])
  {
    forall j | 0 <= j < |s'.flights| ensures FlightOk(s', s'.flights[j]) {
      var f := s.flights[if j < i then j else j + 1];
      assert s'.flights[j] == f && FlightOk(s, f);
    }
  }

  /** A redirection is never the third, and leaves the request well placed. */
  lemma RedirectStep(s: System, f: Flight)
    requires Inv(s) && FlightOk(s, f)
    ensures f.hops == 2 ==> RouteFlight(s, f) == Serve || (RouteFlight(s, f) == TryAgain && !SameKey(f.keys))
    ensures RouteFlight(s, f).Moved? ==>
              FlightOk(s, f.(at := RouteFlight(s, f).n, asking := false, hops := f.hops + 1))
    ensures RouteFlight(s, f).Ask? ==>
              FlightOk(s, f.(at := RouteFlight(s, f).n, asking := true, hops := f.hops + 1))
    ensures RouteFlight(s, f) in {Serve, TryAgain} || RouteFlight(s, f).Moved? || RouteFlight(s, f).Ask?
  {}

  ghost predicate Redirects(s: System, f: Flight) {
    RouteFlight(s, f).Moved? || RouteFlight(s, f).Ask?
  }

  /** A request on one key is never turned away; one on several keys is, exactly at B under
      ASKING while the slot moves and B lacks one of them. */
  lemma TurnedAwayIff(s: System, f: Flight)
    requires Inv(s) && FlightOk(s, f)
    ensures SameKey(f.keys) ==> RouteFlight(s, f) == Serve || Redirects(s, f)
    ensures RouteFlight(s, f) == TryAgain <==>
              f.at == B && f.asking && s.phase.Migrating? && !SameKey(f.keys) && !AllIn(f.keys, s.b.Keys)
  {}

  /** The node that owns the slot and has the keys serves them; so does the node that owns
      the slot and does not move it, whether it has them or not. */
  lemma OwnerServes(s: System, f: Flight)
    requires Inv(s) && OwnerAt(s, f.at) == f.at
    requires AllIn(f.keys, LocalAt(s, f.at)) || MigratingAt(s, f.at) == Nobody
    ensures RouteFlight(s, f) == Serve
  {}

  lemma DeliverStep(s: System, i: nat)
    requires Inv(s) && i < |s.flights|
    ensures Inv(DeliverTo(s, i))
    ensures RouteFlight(s, s.flights[i]) != Serve ==> Whole(DeliverTo(s, i)) == Whole(s)
  {
    var f := s.flights[i];
    RedirectStep(s, f);
    if RouteFlight(s, f) == Serve {
      ServeStep(s, i);
    } else if RouteFlight(s, f) == TryAgain {
      FlightsKept(s, DeliverTo(s, i), i);
    }
  }

  lemma MoveKeyStep(s: System, k: Key)
    requires Inv(s) && Enabled(s, MoveKey(k))
    ensures Inv(Apply(s, MoveKey(k))) && Whole(Apply(s, MoveKey(k))) == Whole(s)
  {
    var s' := Apply(s, MoveKey(k));
    forall i | 0 <= i < |s'.flights| ensures FlightOk(s', s'.flights[i]) {
      assert FlightOk(s, s.flights[i]);
    }
  }

  ghost predicate Serves(s: System, st: Step)
    requires Enabled(s, st)
  {
    st.Deliver? && RouteFlight(s, s.flights[st.i]) == Serve
  }

  /** What each step does to one map: a served command runs on it, any other step leaves it. */
  ghost function MapAfter(s: System, st: Step, m: Store): Store
    requires Enabled(s, st)
  {
    if Serves(s, st) then Exec(s.flights[st.i].effect, KeySet(s.flights[st.i].keys), m) else m
  }

  /** What a served command finds in the store `m`. */
  ghost function Found(s: System, st: Step, m: Store): seq<Store>
    requires Enabled(s, st)
  {
    if Serves(s, st) then [Restrict(m, KeySet(s.flights[st.i].keys))] else []
  }

  ghost function FoundLocally(s: System, st: Step): seq<Store>
    requires Enabled(s, st)
  {
    Found(s, st, if st.Deliver? then StoreAt(s, s.flights[st.i].at) else map[])
  }

  lemma StepRefinesOneMap(s: System, st: Step)
    requires Inv(s) && Enabled(s, st)
    ensures Inv(Apply(s, st))
    ensures Whole(Apply(s, st)) == MapAfter(s, st, Whole(s))
    ensures FoundLocally(s, st) == Found(s, st, Whole(s))
  {
    match st
    case Issue(f) =>
      var s' := Apply(s, st);
      forall i | 0 <= i < |s'.flights| ensures FlightOk(s', s'.flights[i]) {
        if i < |s.flights| { assert FlightOk(s, s.flights[i]); }
      }
    case Deliver(i) =>
      DeliverStep(s, i);
      if RouteFlight(s, s.flights[i]) == Serve {
        ServeStep(s, i);
        ReadsOneMap(s, s.flights[i]);
      }
    case MoveKey(k) => MoveKeyStep(s, k);
    case Advance =>
      var s' := Apply(s, st);
      forall i | 0 <= i < |s'.flights| ensures FlightOk(s', s'.flights[i]) {
        assert FlightOk(s, s.flights[i]);
      }
    case Learn(n) =>
      var s' := Apply(s, st);
      forall i | 0 <= i < |s'.flights| ensures FlightOk(s', s'.flights[i]) {
        assert FlightOk(s, s.flights[i]);
      }
  }

  ghost predicate ValidRun(s: System, run: seq<Step>)
    decreases |run|
  {
    run == [] || (Enabled(s, run[0]) && ValidRun(Apply(s, run[0]), run[1..]))
  }

  ghost function Run(s: System, run: seq<Step>): System
    requires ValidRun(s, run)
    decreases |run|
  {
    if run == [] then s else Run(Apply(s, run[0]), run[1..])
  }

  /** The served commands of a run, in the order they were served, on one map. */
  ghost function OneMapRun(s: System, run: seq<Step>, m: Store): Store
    requires ValidRun(s, run)
    decreases |run|
  {
    if run == [] then m else OneMapRun(Apply(s, run[0]), run[1..], MapAfter(s, run[0], m))
  }

  /** What the served commands of a run find on the nodes, one after the other. */
  ghost function Reads(s: System, run: seq<Step>): seq<Store>
    requires ValidRun(s, run)
    decreases |run|
  {
    if run == [] then [] else FoundLocally(s, run[0]) + Reads(Apply(s, run[0]), run[1..])
  }

  /** What they find on one map. */
  ghost function OneMapReads(s: System, run: seq<Step>, m: Store): seq<Store>
    requires ValidRun(s, run)
    decreases |run|
  {
    if run == [] then [] else Found(s, run[0], m) + OneMapReads(Apply(s, run[0]), run[1..], MapAfter(s, run[0], m))
  }

  ghost predicate Start(s: System) {
    s.phase.Stable? && s.b == map[] && s.learned == {} && s.flights == []
  }

  lemma {:induction false} InvAlways(s: System, run: seq<Step>)
    requires Inv(s) && ValidRun(s, run)
    ensures Inv(Run(s, run))
    ensures Whole(Run(s, run)) == OneMapRun(s, run, Whole(s))
    ensures Reads(s, run) == OneMapReads(s, run, Whole(s))
    decreases |run|
  {
    if run != [] {
      StepRefinesOneMap(s, run[0]);
      InvAlways(Apply(s, run[0]), run[1..]);
    }
  }

  /** Under any interleaving of requests, key moves and configuration steps: no key is on
      both nodes, the two nodes hold the map a single store would hold, every served command
      reads what it would read there, no request is redirected more than twice, a single-key
      request is served or redirected, and after two redirections it is served. */
  lemma MigrationIsInvisible(s: System, run: seq<Step>)
    requires Start(s) && ValidRun(s, run)
    ensures var s' := Run(s, run);
      && s'.a.Keys !! s'.b.Keys
      && Whole(s') == OneMapRun(s, run, s.a)
      && Reads(s, run) == OneMapReads(s, run, s.a)
      && (forall i :: 0 <= i < |s'.flights| ==> s'.flights[i].hops <= 2)
      && (forall i :: 0 <= i < |s'.flights| && SameKey(s'.flights[i].keys) ==>
            RouteFlight(s', s'.flights[i]) == Serve || (s'.flights[i].hops < 2 && Redirects(s', s'.flights[i])))
      && (forall i :: 0 <= i < |s'.flights| && s'.flights[i].hops == 2 && SameKey(s'.flights[i].keys) ==>
            RouteFlight(s', s'.flights[i]) == Serve)
  {
    InvAlways(s, run);
    assert Whole(s) == s.a;
    var s' := Run(s, run);
    forall i | 0 <= i < |s'.flights| ensures FlightOk(s', s'.flights[i]) {}
    forall i | 0 <= i < |s'.flights| && SameKey(s'.flights[i].keys)
      ensures RouteFlight(s', s'.flights[i]) == Serve || (s'.flights[i].hops < 2 && Redirects(s', s'.flights[i]))
    {
      RedirectStep(s', s'.flights[i]);
      TurnedAwayIff(s', s'.flights[i]);
    }
    forall i | 0 <= i < |s'.flights| && s'.flights[i].hops == 2 && SameKey(s'.flights[i].keys)
      ensures RouteFlight(s', s'.flights[i]) == Serve
    {
      RedirectStep(s', s'.flights[i]);
    }
  }

  /** What became of one request: still on its way, as flight `i`, or answered. */
  datatype Fate = Flying(i: nat) | Answered(route: Route, deliveries: nat)

  ghost function FateStep(s: System, st: Step, i: nat): Fate
    requires Enabled(s, st) && i < |s.flights|
  {
    if !st.Deliver? then Flying(i)
    else
      var route := RouteFlight(s, s.flights[st.i]);
      if route.Moved? || route.Ask? then Flying(i)
      else if st.i == i then Answered(route, s.flights[i].hops + 1)
      else if st.i < i then Flying(i - 1)
      else Flying(i)
  }

  ghost function FateOf(s: System, run: seq<Step>, i: nat): Fate
    requires ValidRun(s, run) && i < |s.flights|
    decreases |run|
  {
    if run == [] then Flying(i)
    else
      var fate := FateStep(s, run[0], i);
      if fate.Answered? then fate
      else FateAfter(s, run[0], i); FateOf(Apply(s, run[0]), run[1..], fate.i)
  }

  /** A step either answers the request or leaves it flying, redirected iff it was delivered. */
  lemma FateAfter(s: System, st: Step, i: nat)
    requires Enabled(s, st) && i < |s.flights|
    ensures var s' := Apply(s, st); var fate := FateStep(s, st, i);
      fate.Flying? ==>
        && fate.i < |s'.flights|
        && s'.flights[fate.i].keys == s.flights[i].keys && s'.flights[fate.i].effect == s.flights[i].effect
        && s'.flights[fate.i].hops == s.flights[i].hops + (if st == Deliver(i) then 1 else 0)
  {}

  /** What the run has done to a request that started as `f`. */
  ghost predicate WellTreated(s: System, f: Flight, fate: Fate) {
    match fate
    case Flying(j) =>
      j < |s.flights| && s.flights[j].keys == f.keys && s.flights[j].effect == f.effect && s.flights[j].hops <= 2
    case Answered(route, deliveries) =>
      deliveries <= 3 && (route == Serve || (route == TryAgain && !SameKey(f.keys)))
  }

  lemma {:induction false} TreatedWell(s: System, run: seq<Step>, i: nat)
    requires Inv(s) && ValidRun(s, run) && i < |s.flights|
    ensures WellTreated(Run(s, run), s.flights[i], FateOf(s, run, i))
    decreases |run|
  {
    if run == [] {
      assert FlightOk(s, s.flights[i]);
    } else {
      var st, fate := run[0], FateStep(s, run[0], i);
      assert FlightOk(s, s.flights[i]);
      StepRefinesOneMap(s, st);
      FateAfter(s, st, i);
      if fate.Flying? {
        TreatedWell(Apply(s, st), run[1..], fate.i);
      } else {
        RedirectStep(s, s.flights[i]);
      }
    }
  }

  /** A request sent to any node at any moment of the migration: whatever else happens, it is
      on its way with at most two redirections behind it, or it was served by its third
      delivery at the latest; only a request on several keys can be told to try again. */
  lemma ServedByThirdDelivery(s: System, before: seq<Step>, f: Flight, after: seq<Step>)
    requires Start(s) && ValidRun(s, before) && Enabled(Run(s, before), Issue(f))
    requires ValidRun(Apply(Run(s, before), Issue(f)), after)
    ensures var t := Apply(Run(s, before), Issue(f));
      WellTreated(Run(t, after), f, FateOf(t, after, |t.flights| - 1))
  {
    InvAlways(s, before);
    StepRefinesOneMap(Run(s, before), Issue(f));
    TreatedWell(Apply(Run(s, before), Issue(f)), after, |Run(s, before).flights|);
  }

  /** A run that ends the migration with every key at B and no request touched. */
  ghost predicate Ends(s: System, run: seq<Step>) {
    && ValidRun(s, run)
    && var s' := Run(s, run); s'.phase.Done? && s'.a == map[] && s'.b == Whole(s) && s'.flights == s.flights
  }

  lemma EndsFirst(s: System, st: Step, run: seq<Step>)
    requires Enabled(s, st) && Apply(s, st).flights == s.flights && Whole(Apply(s, st)) == Whole(s)
    requires Ends(Apply(s, st), run)
    ensures Ends(s, [st] + run)
  {
    assert ([st] + run)[1..] == run;
  }

  lemma EndsDone(s: System)
    requires Inv(s) && s.phase.Done?
    ensures Ends(s, [])
  {
    assert s.a == map[] && Whole(s) == s.b;
  }

  /** The operator's next step: move a key while there is one to move, else go on. */
  lemma NextStep(s: System) returns (st: Step)
    requires Inv(s) && !s.phase.Done?
    ensures Enabled(s, st) && Inv(Apply(s, st))
    ensures Apply(s, st).flights == s.flights && Whole(Apply(s, st)) == Whole(s)
    ensures Rank(Apply(s, st).phase) > Rank(s.phase) ||
            (Apply(s, st).phase == s.phase && |Apply(s, st).a.Keys| < |s.a.Keys|)
  {
    if s.phase.Migrating? && s.a != map[] {
      var k :| k in s.a;
      st := MoveKey(k);
      assert (s.a - {k}).Keys == s.a.Keys - {k};
    } else {
      st := Advance;
    }
    StepRefinesOneMap(s, st);
  }

  /** From every state the operator can finish, whatever is in flight. */
  lemma {:induction false} CanFinish(s: System) returns (run: seq<Step>)
    requires Inv(s)
    ensures Ends(s, run)
    decreases 4 - Rank(s.phase), |s.a.Keys|
  {
    if s.phase.Done? {
      run := [];
      EndsDone(s);
    } else {
      var st := NextStep(s);
      var rest := CanFinish(Apply(s, st));
      run := [st] + rest;
      EndsFirst(s, st, rest);
    }
  }

  /** The client side of the protocol matters: a single-key command sent to B under ASKING
      without an ASK from A leaves the nodes disjoint exactly when A has no such key, or the
      command leaves no such key behind. */
  lemma UnsolicitedAsking(s: System, k: Key, effect: Effect)
    requires Inv(s) && s.phase.Migrating?
    ensures var f := Flight([k], effect, B, true, 1);
      && RouteFlight(s, f) == Serve
      && (s.a.Keys !! ServeAt(s, f).b.Keys <==> k !in s.a || k !in effect(Restrict(s.b, {k})))
  {
    var f := Flight([k], effect, B, true, 1);
    assert KeySet([k]) == {k};
    var b' := ServeAt(s, f).b;
    assert k in b' <==> k in effect(Restrict(s.b, {k}));
    assert forall j :: j != k ==> (j in b' <==> j in s.b);
    assert s.a.Keys * b'.Keys == if k in s.a && k in b' then {k} else {};
  }

  /** Such a command: a SET under ASKING that nobody asked for puts the key on both nodes. */
  lemma UnsolicitedSetDuplicates(k: Key, v: Val, w: Val)
    ensures var s := System(map[k := v], map[], Migrating, {}, []);
      var f := Flight([k], (m: Store) => map[k := w], B, true, 1);
      && Inv(s) && RouteFlight(s, f) == Serve
      && k in ServeAt(s, f).a && k in ServeAt(s, f).b
  {
    var s := System(map[k := v], map[], Migrating, {}, []);
    var effect := (m: Store) => map[k := w];
    UnsolicitedAsking(s, k, effect);
    assert k in s.a && k in effect(Restrict(s.b, {k}));
  }
}
