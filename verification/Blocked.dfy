/** Blocking commands (src/blocked.c): the handlers as they change the server's dictionaries,
    lists and counters in place, down to handleClientsBlockedOnKeys. */
module Blocked {
  import opened BlockedIndex
  import opened Options
  import opened BlockedServe
  import opened BlockedQueue
  import opened BlockedOrder

  // ---------------------------------------------------------------------------
  // The serving loop, on values
  // ---------------------------------------------------------------------------

  /** Clients only leave, and keys are only queued, at the end and on behalf of one that left. */
  ghost predicate Progress(s0: State, s: State) {
    s0.ready <= s.ready && |s.blocked| <= |s0.blocked| && (|s.blocked| == |s0.blocked| ==> s.ready == s0.ready)
  }

  /** What holds at the top of the loop over the waiters of `k`, `n` of whom are still to be
      looked at. */
  ghost predicate Serving(o: State, s0: State, s: State, k: Key, n: nat, todo: seq<Key>) {
    && Inv(s, todo) && Steady(o, s, Some(k)) && NoEmpty(s.dict, Some(k))
    && (forall c :: !Asleep(o, k, c))
    && AllElements(s) == AllElements(s0)
    && Behind(s, k, n) && s.dict[k].Coll?
    && Progress(s0, s)
  }

  lemma ServeTurn(o: State, s0: State, s: State, k: Key, n: nat, todo: seq<Key>)
    requires Serving(o, s0, s, k, n, todo) && n > 0 && CanServe(s, k)
    ensures Serving(o, s0, ServeFirst(s, k), k, n - 1, todo)
  {
    ServeKeeps(s, k, todo);
    ServeKeepsAwake(o, s, k);
    ServeKeepsUndisturbed(o, s, k);
    ServeKeepsQueued(o, s, k);
    ServeKeepsNoEmpty(s, k);
    ServeConserves(s, k);
    BehindServed(s, k, n);
    ServeKeepsKind(s, k);
    ServeQueuesBehind(s, k);
  }

  lemma ServeQueuesBehind(s: State, k: Key)
    requires CanServe(s, k)
    ensures s.ready <= ServeFirst(s, k).ready
  {}

  lemma RotateTurn(o: State, s0: State, s: State, k: Key, n: nat, todo: seq<Key>)
    requires Serving(o, s0, s, k, n, todo) && n > 0
    requires var c := s.waiters[k][0]; c in s.blocked && !Matches(s.dict[k], s.blocked[c].wtype)
    ensures Serving(o, s0, RotateFirst(s, k), k, n - 1, todo)
  {
    RotateKeeps(s, k, todo);
    RotateKeepsAwake(o, s, k);
    BehindRotated(s, k, n);
  }

  /** The first of the waiters still to be looked at exists and is blocked. */
  lemma FirstIsBlocked(o: State, s0: State, s: State, k: Key, n: nat, todo: seq<Key>)
    requires Serving(o, s0, s, k, n, todo) && n > 0
    ensures k in s.waiters && s.waiters[k] != [] && s.waiters[k][0] in s.blocked
  {
    assert s.waiters[k][0] in s.waiters[k];
  }

  /** What every operation keeps, `todo` being keys still to be handled. */
  ghost predicate Sound(s: State, todo: seq<Key>) {
    Inv(s, todo) && NoEmpty(s.dict, None)
  }

  /** What holds between two keys while the ready keys are handled, `o` being the state in
      which that began. */
  ghost predicate Handling(o: State, s: State, todo: seq<Key>) {
    Sound(s, todo) && Steady(o, s, None)
  }

  lemma HandlingStarts(s: State)
    requires Sound(s, [])
    ensures Handling(s, s, [])
  {}

  /** The ready list becomes the list to work through. */
  lemma TakeAll(o: State, s: State)
    requires Handling(o, s, [])
    ensures Handling(o, s.(ready := []), s.ready)
  {
    var r := s.(ready := []);
    assert [] + s.ready == s.ready + [];
    forall k, c | HasTaker(r, k, c) ensures k in r.signaled || Asleep(o, k, c) {
      assert HasTaker(s, k, c);
    }
  }

  /** When nothing is left to handle, a client waits for something it could have exactly when
      the key was asleep for it at the beginning and nothing else released the client. */
  lemma WhoStillWaits(o: State, s: State)
    requires Handling(o, s, []) && s.ready == [] && Sound(o, [])
    ensures s.signaled == {}
    ensures forall k, c :: HasTaker(s, k, c) <==> Asleep(o, k, c) && c in s.blocked
  {
    assert [] + s.ready == [];
    assert s.signaled == {};
    forall k, c ensures HasTaker(s, k, c) <==> Asleep(o, k, c) && c in s.blocked {
      if Asleep(o, k, c) && c in s.blocked { SleeperStays(o, s, k, c); }
    }
  }

  lemma SleeperStays(o: State, s: State, k: Key, c: Client)
    requires KeysToClients(o.waiters, o.blocked) && Index(s.waiters, s.blocked) && Undisturbed(o, s)
    requires Asleep(o, k, c) && c in s.blocked
    ensures HasTaker(s, k, c)
  {}

  /** A key that holds no collection serves nobody. */
  ghost predicate Idle(s0: State, s: State, k: Key, served: seq<Client>) {
    !(k in s0.dict && s0.dict[k].Coll?) ==>
      served == [] && s.dict == s0.dict && s.waiters == s0.waiters && s.out == s0.out
  }

  ghost predicate SameElements(s0: State, s: State) {
    AllElements(s) == AllElements(s0)
  }

  /** What the handling of one key does. */
  ghost predicate KeyHandled(s0: State, s: State, k: Key, served: seq<Client>) {
    && SameElements(s0, s) && Released(s0, s, served) && FromTheFront(s0, s, k, served)
    && Ordered(s0, s, k, served) && Idle(s0, s, k, served)
  }

  /** Handling of one key is over. */
  ghost predicate Handled(o: State, s0: State, s: State, k: Key, todo: seq<Key>, served: seq<Client>) {
    Handling(o, s, todo) && Progress(s0, s) && KeyHandled(s0, s, k, served)
  }

  lemma ServingEnds(o: State, s0: State, s: State, k: Key, n: nat, todo: seq<Key>)
    requires Serving(o, s0, s, k, n, todo) && (n == 0 || s.dict[k].elems == [])
    ensures Handling(o, Cleaned(s, k), todo) && SameElements(s0, Cleaned(s, k)) && Progress(s0, Cleaned(s, k))
  {
    DoneIsSteady(o, s, k);
    DoneIsNoEmpty(s, k);
    CleanConserves(s, k);
    assert Cleaned(s, k) == s.(dict := Cleaned(s, k).dict);
  }

  lemma PathEnds(s0: State, s: State, k: Key, path: seq<State>)
    requires Path(path, s0, s, k) && Kept(s0, s0, k) && SameElements(s0, Cleaned(s, k))
    ensures KeyHandled(s0, Cleaned(s, k), k, ServedOn(path, k))
  {
    var served := ServedOn(path, k);
    PathOrdered(path, s0, s, k);
    AllMatchAtFront(s0, s, k, served);
    OrderCleaned(s0, s, k, served);
  }

  lemma DoneIsSteady(o: State, s: State, k: Key)
    requires Index(s.waiters, s.blocked) && Steady(o, s, Some(k)) && k in s.dict && s.dict[k].Coll?
    requires (forall c :: !Asleep(o, k, c)) && (s.dict[k].elems == [] || Behind(s, k, 0))
    ensures Steady(o, Cleaned(s, k), None)
  {
    DoneIsAwake(o, s, k);
    DoneIsUndisturbed(o, s, k);
  }

  lemma ReadyTail(k: Key, rest: seq<Key>, signaled: set<Key>)
    requires ReadyOk([k] + rest, signaled)
    ensures ReadyOk(rest, signaled - {k})
  {
    var all := [k] + rest;
    assert forall i :: 0 <= i < |rest| ==> rest[i] == all[i + 1];
    forall x ensures x in rest <==> x in signaled - {k} {
      assert x in all <==> x == k || x in rest;
      if x in rest {
        var i :| 0 <= i < |rest| && rest[i] == x;
        assert all[0] != all[i + 1];
      }
    }
  }

  /** Taking `k` off the list of keys to handle. A queued key was not asleep. */
  lemma TakeKey(o: State, s: State, k: Key, todo: seq<Key>)
    requires Handling(o, s, [k] + todo)
    ensures var r := s.(signaled := s.signaled - {k});
      Inv(r, todo) && Steady(o, r, Some(k)) && forall c :: !Asleep(o, k, c)
  {
    assert ([k] + todo) + s.ready == [k] + (todo + s.ready);
    ReadyTail(k, todo + s.ready, s.signaled);
    assert ([k] + (todo + s.ready))[0] == k;
    var r := s.(signaled := s.signaled - {k});
    forall k', c | HasTaker(r, k', c) ensures k' in r.signaled || k' == k || Asleep(o, k', c) {
      assert HasTaker(s, k', c);
    }
  }

  lemma ServingStarts(o: State, s: State, k: Key, todo: seq<Key>)
    requires Inv(s, todo) && Steady(o, s, Some(k)) && NoEmpty(s.dict, Some(k)) && k in s.dict && s.dict[k].Coll?
    requires forall c :: !Asleep(o, k, c)
    ensures Serving(o, s, s, k, |WaitersOf(s.waiters, k)|, todo) && Kept(s, s, k)
  {}

  lemma NothingToServe(o: State, s: State, k: Key, todo: seq<Key>)
    requires Inv(s, todo) && Steady(o, s, Some(k)) && NoEmpty(s.dict, None) && (k in s.dict ==> !s.dict[k].Coll?)
    ensures Handled(o, s, s, k, todo, [])
  {
    OrderStarts(s, k);
    assert [] + WaitersOf(s.waiters, k) == WaitersOf(s.waiters, k);
    forall k', c | HasTaker(s, k', c) ensures k' in s.signaled || Asleep(o, k', c) {
      assert k' != k;
    }
  }

  /** Which keys are queued does not matter to what was done. */
  ghost predicate Same(s: State, r: State) {
    s.dict == r.dict && s.waiters == r.waiters && s.blocked == r.blocked && s.out == r.out
  }

  lemma SameOrdered(s0: State, s: State, r0: State, r: State, k: Key, served: seq<Client>)
    requires Same(s0, r0) && Same(s, r) && Ordered(s0, s, k, served)
    ensures Ordered(r0, r, k, served)
  {}

  lemma SameReleased(s0: State, s: State, r0: State, r: State, served: seq<Client>)
    requires Same(s0, r0) && Same(s, r) && Released(s0, s, served)
    ensures Released(r0, r, served)
  {}

  lemma SameRest(s0: State, s: State, r0: State, r: State, k: Key, served: seq<Client>)
    requires Same(s0, r0) && Same(s, r) && SameElements(s0, s) && FromTheFront(s0, s, k, served) && Idle(s0, s, k, served)
    ensures SameElements(r0, r) && FromTheFront(r0, r, k, served) && Idle(r0, r, k, served)
  {}

  lemma SameHandled(s0: State, s: State, r0: State, r: State, k: Key, served: seq<Client>)
    requires Same(s0, r0) && Same(s, r) && KeyHandled(s0, s, k, served)
    ensures KeyHandled(r0, r, k, served)
  {
    SameOrdered(s0, s, r0, r, k, served);
    SameReleased(s0, s, r0, r, served);
    SameRest(s0, s, r0, r, k, served);
  }

  // ---------------------------------------------------------------------------
  // The keys, one after the other
  // ---------------------------------------------------------------------------

  /** A key was handled: whom it served and what it left. */
  datatype Turn = Turn(key: Key, served: seq<Client>, after: State)

  ghost function After(s: State, turns: seq<Turn>): State {
    if turns == [] then s else turns[|turns| - 1].after
  }

  /** The state with the keys still to be handled counted as queued. */
  ghost function Pending(s: State, l: seq<Key>): State {
    s.(ready := l + s.ready)
  }

  /** The key is the first in the queue, and keys are only added behind. */
  ghost predicate TurnOk(s: State, t: Turn) {
    && s.ready != [] && t.key == s.ready[0] && s.ready[1..] <= t.after.ready
    && KeyHandled(s, t.after, t.key, t.served)
  }

  ghost predicate TurnAt(s: State, turns: seq<Turn>, i: nat)
    requires i < |turns|
  {
    TurnOk(After(s, turns[..i]), turns[i])
  }

  ghost predicate Turns(s: State, turns: seq<Turn>) {
    forall i: nat :: i < |turns| ==> TurnAt(s, turns, i)
  }

  function KeysOf(turns: seq<Turn>): seq<Key>
    decreases |turns|
  {
    if turns == [] then [] else KeysOf(turns[..|turns| - 1]) + [turns[|turns| - 1].key]
  }

  function ServedIn(turns: seq<Turn>): seq<Client>
    decreases |turns|
  {
    if turns == [] then [] else ServedIn(turns[..|turns| - 1]) + turns[|turns| - 1].served
  }

  lemma TurnsMore(s: State, turns: seq<Turn>, t: Turn)
    requires Turns(s, turns) && TurnOk(After(s, turns), t)
    ensures Turns(s, turns + [t])
  {
    var longer := turns + [t];
    forall i: nat | i < |longer| ensures TurnAt(s, longer, i) {
      if i < |turns| {
        assert TurnAt(s, turns, i);
        assert longer[..i] == turns[..i];
      } else {
        assert longer[..i] == turns;
      }
    }
  }

  lemma TurnsLess(s: State, turns: seq<Turn>)
    requires Turns(s, turns) && turns != []
    ensures Turns(s, turns[..|turns| - 1]) && TurnOk(After(s, turns[..|turns| - 1]), turns[|turns| - 1])
  {
    var first := turns[..|turns| - 1];
    forall i: nat | i < |first| ensures TurnAt(s, first, i) {
      assert TurnAt(s, turns, i);
      assert first[..i] == turns[..i];
    }
    assert TurnAt(s, turns, |turns| - 1);
  }

  lemma TurnTaken(s: State, s': State, l: seq<Key>, served: seq<Client>)
    requires l != [] && Progress(s, s') && KeyHandled(s, s', l[0], served)
    ensures TurnOk(Pending(s, l), Turn(l[0], served, Pending(s', l[1..])))
  {
    assert (l + s.ready)[1..] == l[1..] + s.ready;
    SameHandled(s, s', Pending(s, l), Pending(s', l[1..]), l[0], served);
  }

  /** Clients replied to are those of one turn after those of the other. */
  lemma {:induction false} RepliedConcat(b: BlockedIndex.Blocked, x: seq<Client>, y: seq<Client>)
    ensures Replied(b, x + y) == Replied(b, x) + Replied(b, y)
    decreases |y|
  {
    if y == [] {
      assert x + y == x;
    } else {
      assert (x + y)[..|x + y| - 1] == x + y[..|y| - 1];
      RepliedConcat(b, x, y[..|y| - 1]);
    }
  }

  lemma {:induction false} RecipientsConcat(x: seq<Delivery>, y: seq<Delivery>)
    ensures Recipients(x + y) == Recipients(x) + Recipients(y)
    decreases |y|
  {
    if y == [] {
      assert x + y == x;
    } else {
      assert (x + y)[..|x + y| - 1] == x + y[..|y| - 1];
      RecipientsConcat(x, y[..|y| - 1]);
    }
  }

  /** Clients that were blocked all along count the same. */
  lemma {:induction false} RepliedAgrees(b0: BlockedIndex.Blocked, b: BlockedIndex.Blocked, x: seq<Client>)
    requires forall c :: c in b ==> c in b0 && b[c] == b0[c]
    requires forall c :: c in x ==> c in b
    ensures Replied(b, x) == Replied(b0, x)
    decreases |x|
  {
    if x != [] { RepliedAgrees(b0, b, x[..|x| - 1]); }
  }

  lemma {:induction false} OfKindIn(q: seq<Client>, b: BlockedIndex.Blocked, t: WaitType, c: Client)
    requires c in OfKind(q, b, t)
    ensures c in b
    decreases |q|
  {
    if c != q[0] || c !in b { OfKindIn(q[1..], b, t, c); }
  }

  /** Only blocked clients are served. */
  lemma ServedWereBlocked(s: State, s': State, k: Key, served: seq<Client>, c: Client)
    requires KeyHandled(s, s', k, served) && c in served
    ensures c in s.blocked
  {
    var t := KindOf(s.dict[k]);
    var q := OfKind(WaitersOf(s.waiters, k), s.blocked, t);
    assert served <= q;
    assert c in q;
    OfKindIn(WaitersOf(s.waiters, k), s.blocked, t, c);
  }

  lemma NewConcat(a: seq<Delivery>, b: seq<Delivery>, c: seq<Delivery>)
    requires a <= b <= c
    ensures a <= c && c[|a|..] == b[|a|..] + c[|b|..]
  {}

  /** What one turn, or several, did to the clients. */
  ghost predicate Sent(b0: BlockedIndex.Blocked, out0: seq<Delivery>, b: BlockedIndex.Blocked, out: seq<Delivery>,
                       served: seq<Client>) {
    && Unchanged(b0, b)
    && (forall c :: c in b <==> c in b0 && c !in served) && (forall c :: c in served ==> c in b0)
    && out0 <= out && Recipients(out[|out0|..]) == Replied(b0, served)
  }

  lemma HandledSends(s: State, s': State, k: Key, served: seq<Client>)
    requires KeyHandled(s, s', k, served)
    ensures Sent(s.blocked, s.out, s'.blocked, s'.out, served)
  {
    forall c | c in served ensures c in s.blocked { ServedWereBlocked(s, s', k, served, c); }
  }

  lemma SentTwice(b0: BlockedIndex.Blocked, out0: seq<Delivery>, b1: BlockedIndex.Blocked, out1: seq<Delivery>,
                  b2: BlockedIndex.Blocked, out2: seq<Delivery>, served1: seq<Client>, served2: seq<Client>)
    requires Sent(b0, out0, b1, out1, served1) && Sent(b1, out1, b2, out2, served2)
    ensures Sent(b0, out0, b2, out2, served1 + served2)
  {
    RepliedAgrees(b0, b1, served2);
    RepliedConcat(b0, served1, served2);
    NewConcat(out0, out1, out2);
    RecipientsConcat(out1[|out0|..], out2[|out1|..]);
  }

  lemma KeysInOrder(ready: seq<Key>, keys: seq<Key>, ready1: seq<Key>, k: Key, ready2: seq<Key>)
    requires ready <= keys + ready1 && ready1 != [] && ready1[0] == k && ready1[1..] <= ready2
    ensures ready <= keys + [k] + ready2
  {
    assert keys + ready1 == keys + [k] + ready1[1..];
  }

  /** What the turns did, all together. */
  lemma {:induction false} TurnsInOrder(s: State, turns: seq<Turn>)
    requires Turns(s, turns)
    ensures var s' := After(s, turns);
      s.ready <= KeysOf(turns) + s'.ready && Sent(s.blocked, s.out, s'.blocked, s'.out, ServedIn(turns))
    decreases |turns|
  {
    if turns == [] {
      assert [] + s.ready == s.ready;
      assert s.out[|s.out|..] == [];
    } else {
      var first, t := turns[..|turns| - 1], turns[|turns| - 1];
      var s1 := After(s, first);
      TurnsLess(s, turns);
      TurnsInOrder(s, first);
      HandledSends(s1, t.after, t.key, t.served);
      SentTwice(s.blocked, s.out, s1.blocked, s1.out, t.after.blocked, t.after.out, ServedIn(first), t.served);
      KeysInOrder(s.ready, KeysOf(first), s1.ready, t.key, t.after.ready);
    }
  }

  // ---------------------------------------------------------------------------
  // The handlers
  // ---------------------------------------------------------------------------

  class Blocking {
    var dict: Dict
    var waiters: Waiters
    var blocked: BlockedIndex.Blocked
    var ready: seq<Key>
    var signaled: set<Key>
    var counters: Counters
    var unblocked: seq<Client>
    var flagged: set<Client>
    var out: seq<Delivery>

    ghost function View(): State
      reads this
    {
      State(dict, waiters, blocked, ready, signaled, counters, unblocked, flagged, out)
    }

    constructor ()
      ensures Sound(View(), []) && NobodyAsleep(View()) && View().dict == map[] && View().blocked == map[] && View().ready == []
    {
      dict, waiters, blocked := map[], map[], map[];
      ready, signaled, counters := [], {}, Counters(0, 0, 0, 0);
      unblocked, flagged, out := [], {}, [];
      new;
      forall t: WaitType ensures OfType(blocked, t) == {} {}
    }

    /** queueClientForReprocessing. */
    method QueueForReprocessing(c: Client)
      modifies `unblocked, `flagged
      ensures View() == Queue(old(View()), c)
    {
      if c !in flagged {
        flagged := flagged + {c};
        unblocked := unblocked + [c];
      }
    }

    /** The first client leaves the queue of those to be reprocessed. */
    method TakeUnblocked() returns (c: Client)
      requires |unblocked| > 0 && Sound(View(), [])
      modifies `unblocked, `flagged
      ensures c == old(unblocked)[0] && unblocked == old(unblocked)[1..] && Sound(View(), [])
    {
      c := unblocked[0];
      QueueTail(unblocked, flagged);
      unblocked, flagged := unblocked[1..], flagged - {c};
    }

    /** signalKeyAsReady. */
    method SignalKeyAsReady(k: Key)
      modifies `ready, `signaled
      ensures View() == Signal(old(View()), k)
    {
      if k !in waiters { return; }
      if k in signaled { return; }
      ready := ready + [k];
      signaled := signaled + {k};
    }

    /** unblockClientWaitingData: the client leaves the list of each of its keys. */
    method UnblockClientWaitingData(c: Client)
      requires c in blocked && Index(waiters, blocked)
      modifies `waiters
      ensures waiters == Removed(old(waiters), c, blocked[c].keys)
    {
      var left := blocked[c].keys;
      ghost var done: set<Key> := {};
      RemovedNothing(waiters, c);
      while left != {}
        invariant left !! done && left + done == blocked[c].keys
        invariant waiters == Removed(old(waiters), c, done)
        decreases |left|
      {
        var k :| k in left;
        RemovedNext(old(waiters), c, done, k);
        var l := Without(waiters[k], c);
        if l == [] {
          waiters := waiters - {k};
        } else {
          waiters := waiters[k := l];
        }
        left, done := left - {k}, done + {k};
      }
    }

    /** unblockClient. */
    method UnblockClient(c: Client)
      requires c in blocked && Index(waiters, blocked)
      modifies this
      ensures View() == Unblock(old(View()), c)
      ensures old(Sound(View(), [])) ==> Sound(View(), [])
      ensures forall k, c' :: Asleep(View(), k, c') <==> old(Asleep(View(), k, c')) && c' != c
    {
      if Sound(View(), []) { UnblockKeeps(View(), c, []); }
      UnblockSleepers(View(), c);
      UnblockClientWaitingData(c);
      counters := counters.Plus(blocked[c].wtype, -1);
      blocked := blocked - {c};
      QueueForReprocessing(c);
    }

    /** blockForKeys: the client joins the queue of every key it does not already wait for. */
    method BlockForKeys(c: Client, t: WaitType, keys: seq<Key>, target: Option<Key>, head: bool)
      requires c !in blocked && Sound(View(), [])
      modifies `waiters, `blocked, `counters
      ensures Sound(View(), [])
      ensures forall k, c' :: Asleep(View(), k, c') <==>
                old(Asleep(View(), k, c')) || (c' == c && k in keys && k in dict && Matches(dict[k], t) && k !in signaled)
      ensures blocked == old(blocked)[c := Waiting(t, KeySet(keys), target, head)]
      ensures forall k :: WaitersOf(waiters, k) == WaitersOf(old(waiters), k) + if k in keys then [c] else []
    {
      NewClientKeepsIndex(waiters, blocked, c, t, target, head);
      ghost var before := blocked;
      blocked := blocked[c := Waiting(t, {}, target, head)];
      assert keys[..0] == [];
      JoinStart(waiters, before, c, Waiting(t, {}, target, head));
      for j := 0 to |keys|
        invariant c in blocked && Index(waiters, blocked) && counters == old(counters)
        invariant Joined(old(waiters), waiters, before, blocked, keys[..j], c, Waiting(t, {}, target, head))
      {
        assert keys[..j + 1] == keys[..j] + [keys[j]];
        JoinOne(c, keys[j], old(waiters), before, keys[..j], Waiting(t, {}, target, head));
      }
      assert keys[..|keys|] == keys;
      CountersAdd(before, counters, c, blocked[c]);
      counters := counters.Plus(t, 1);
      JoinSleepers(old(View()), View(), keys, c, Waiting(t, {}, target, head));
    }

    /** One key of blockForKeys; a key named twice is skipped. */
    method JoinOne(c: Client, k: Key, ghost w0: Waiters, ghost b0: BlockedIndex.Blocked, ghost keys: seq<Key>, ghost v: Waiting)
      requires c in blocked && Index(waiters, blocked) && Joined(w0, waiters, b0, blocked, keys, c, v)
      modifies `waiters, `blocked
      ensures c in blocked && Index(waiters, blocked) && Joined(w0, waiters, b0, blocked, keys + [k], c, v)
    {
      if k in blocked[c].keys {
        JoinSame(w0, waiters, b0, blocked, keys, c, v, k);
      } else {
        AddKeepsIndex(waiters, blocked, c, k);
        JoinNext(w0, waiters, b0, blocked, keys, c, v, k);
        blocked := AddKey(blocked, c, k);
        waiters := AddWaiter(waiters, k, c);
      }
    }

    method Push(k: Key, x: Elem, head: bool)
      requires TakesList(dict, k)
      modifies `dict, `ready, `signaled
      ensures View() == PushOne(old(View()), k, x, head)
    {
      if k !in dict {
        dict := dict[k := Coll(false, [x])];
        SignalKeyAsReady(k);
      } else {
        dict := dict[k := Coll(false, Pushed(dict[k].elems, x, head))];
      }
    }

    /** pushGenericCommand: nothing happens to a key of another type. */
    method PushGeneric(k: Key, xs: seq<Elem>, head: bool)
      requires Sound(View(), [])
      modifies `dict, `ready, `signaled
      ensures Sound(View(), []) && SameSleepers(old(View()), View())
      ensures Total(dict) == Total(old(dict)) + if TakesList(old(dict), k) then multiset(xs) else multiset{}
      ensures dict == if TakesList(old(dict), k) then AfterPushes(old(dict), k, xs, head) else old(dict)
    {
      if k in dict && (!dict[k].Coll? || dict[k].zset) { return; }
      ghost var s0 := View();
      PushingStarts(s0, k, xs, head);
      for j := 0 to |xs|
        invariant Pushing(s0, View(), k, xs, j, head)
      {
        PushingNext(s0, View(), k, xs, j, head);
        Push(k, xs[j], head);
      }
      PushingEnds(s0, View(), k, xs, head);
    }

    /** serveClientBlockedOnList for an unblocked client and the element popped for it. */
    method ServeClient(k: Key, c: Client, v: Waiting, x: Elem, popped: seq<Elem>)
      modifies `dict, `ready, `signaled, `out
      ensures View() == Handed(old(View()), k, c, v, x, popped)
    {
      if v.wtype != OnList || v.target.None? {
        out := out + [Delivery(c, k, x)];
      } else {
        var d := v.target.value;
        if d !in dict {
          dict := dict[d := Coll(false, [x])];
          SignalKeyAsReady(d);
        } else if dict[d].Coll? && !dict[d].zset {
          dict := dict[d := Coll(false, [x] + dict[d].elems)];
        } else {
          dict := dict[k := Coll(false, Pushed(popped, x, v.head))];
        }
      }
    }

    /** One waiter of `k` is served. */
    method ServeFirstWaiter(k: Key)
      requires CanServe(View(), k) && Index(waiters, blocked)
      modifies this
      ensures View() == ServeFirst(old(View()), k)
    {
      var c := waiters[k][0];
      var v, elems := blocked[c], dict[k].elems;
      var x, popped := Popped(elems, v.head), Rest(elems, v.head);
      dict := dict[k := dict[k].(elems := popped)];
      UnblockClient(c);
      ServeClient(k, c, v, x, popped);
    }

    /** One turn of the loop over the waiters of `k`; stops when there is nothing left to pop. */
    method ServeTurnOf(k: Key, n: nat, ghost o: State, ghost s0: State, ghost todo: seq<Key>, ghost path: seq<State>)
      returns (stop: bool, ghost path': seq<State>)
      requires n > 0 && Serving(o, s0, View(), k, n, todo) && Path(path, s0, View(), k)
      modifies this
      ensures Path(path', s0, View(), k)
      ensures stop ==> Serving(o, s0, View(), k, n, todo) && dict[k].elems == []
      ensures !stop ==> Serving(o, s0, View(), k, n - 1, todo)
    {
      path' := path;
      if dict[k].zset && dict[k].elems == [] { return true, path; }
      ghost var s := View();
      FirstIsBlocked(o, s0, s, k, n, todo);
      var c := waiters[k][0];
      if !Matches(dict[k], blocked[c].wtype) {
        RotateTurn(o, s0, s, k, n, todo);
        waiters := Rotated(waiters, k);
      } else if dict[k].elems == [] {
        return true, path;
      } else {
        ServeTurn(o, s0, s, k, n, todo);
        ServeFirstWaiter(k);
      }
      PathMore(path, s0, s, View(), k);
      return false, path + [View()];
    }

    /** The loop over the clients waiting for `k`. */
    method ServeLoop(k: Key, ghost todo: seq<Key>, ghost o: State, ghost s0: State) returns (n: nat, ghost path: seq<State>)
      requires Serving(o, s0, View(), k, |WaitersOf(waiters, k)|, todo) && View() == s0
      modifies this
      ensures Serving(o, s0, View(), k, n, todo) && (n == 0 || dict[k].elems == [])
      ensures Path(path, s0, View(), k)
    {
      path := [s0];
      n := if k in waiters then |waiters[k]| else 0;
      while n > 0
        invariant Serving(o, s0, View(), k, n, todo) && Path(path, s0, View(), k)
        decreases n
      {
        var stop;
        stop, path := ServeTurnOf(k, n, o, s0, todo, path);
        if stop { return; }
        n := n - 1;
      }
    }

    /** An emptied key is removed. */
    method CleanKey(k: Key)
      modifies `dict
      ensures View() == Cleaned(old(View()), k)
    {
      if k in dict && dict[k].Coll? && dict[k].elems == [] { dict := dict - {k}; }
    }

    /** The waiters of `k` are served and the key is removed if it was emptied. */
    method ServeWaiters(k: Key, ghost todo: seq<Key>, ghost o: State) returns (ghost served: seq<Client>)
      requires Serving(o, View(), View(), k, |WaitersOf(waiters, k)|, todo) && Kept(View(), View(), k)
      modifies this
      ensures Handled(o, old(View()), View(), k, todo, served)
    {
      ghost var s0 := View();
      var n; ghost var path;
      n, path := ServeLoop(k, todo, o, s0);
      ServingEnds(o, s0, View(), k, n, todo);
      PathEnds(s0, View(), k, path);
      served := ServedOn(path, k);
      CleanKey(k);
    }

    /** handleClientsBlockedOnKeys: ends although serving may queue keys again, takes the keys in
        the order in which they were queued, loses no element, releases exactly the clients it
        serves, and afterwards a client waits for something it could have exactly when the key
        was asleep for it before and no other key released it. */
    method HandleClientsBlockedOnKeys() returns (ghost turns: seq<Turn>)
      requires Sound(View(), [])
      modifies this
      ensures Sound(View(), []) && ready == [] && signaled == {}
      ensures AllElements(View()) == old(AllElements(View()))
      ensures forall k, c :: HasTaker(View(), k, c) <==> old(Asleep(View(), k, c)) && c in blocked
      ensures Queued(old(View()), View())
      ensures Turns(old(View()), turns) && After(old(View()), turns) == View()
      ensures old(ready) <= KeysOf(turns)
      ensures Sent(old(blocked), old(out), blocked, out, ServedIn(turns))
    {
      ghost var o := View();
      turns := [];
      HandlingStarts(o);
      while |ready| != 0
        invariant Handling(o, View(), []) && AllElements(View()) == AllElements(o)
        invariant Turns(o, turns) && After(o, turns) == View()
        decreases |blocked|, |ready|
      {
        ghost var s1 := View();
        TakeAll(o, View());
        var l := ready;
        ready := [];
        assert l + [] == l;
        while |l| != 0
          invariant Handling(o, View(), l) && AllElements(View()) == AllElements(o)
          invariant |blocked| <= |s1.blocked| && (|blocked| == |s1.blocked| ==> ready == [])
          invariant Turns(o, turns) && After(o, turns) == Pending(View(), l)
          decreases |l|
        {
          turns := HandleNext(l, o, turns);
          l := l[1..];
        }
        assert [] + ready == ready;
      }
      WhoStillWaits(o, View());
      TurnsInOrder(o, turns);
    }

    /** The first key of the list. */
    method HandleNext(l: seq<Key>, ghost o: State, ghost turns: seq<Turn>) returns (ghost turns': seq<Turn>)
      requires l != [] && Handling(o, View(), l) && Turns(o, turns) && After(o, turns) == Pending(View(), l)
      modifies this
      ensures Handling(o, View(), l[1..]) && AllElements(View()) == old(AllElements(View())) && Progress(old(View()), View())
      ensures Turns(o, turns') && After(o, turns') == Pending(View(), l[1..])
    {
      ghost var s := View();
      assert l == [l[0]] + l[1..];
      ghost var served := HandleKey(l[0], l[1..], o);
      TurnTaken(s, View(), l, served);
      ghost var t := Turn(l[0], served, Pending(View(), l[1..]));
      TurnsMore(o, turns, t);
      turns' := turns + [t];
    }

    /** The handling of one ready key. */
    method HandleKey(k: Key, ghost todo: seq<Key>, ghost o: State) returns (ghost served: seq<Client>)
      requires Handling(o, View(), [k] + todo)
      modifies this
      ensures Handled(o, old(View()), View(), k, todo, served)
    {
      TakeKey(o, View(), k, todo);
      ghost var s := View();
      signaled := signaled - {k};
      ghost var s0 := View();
      if k in dict && dict[k].Coll? {
        ServingStarts(o, View(), k, todo);
        served := ServeWaiters(k, todo, o);
      } else {
        served := [];
        NothingToServe(o, View(), k, todo);
      }
      SameHandled(s0, View(), s, View(), k, served);
    }

    /** setKey as far as blocked clients are concerned: dbAdd signals, dbOverwrite does not. */
    method SetKey(k: Key, v: Value)
      modifies `dict, `ready, `signaled
      ensures View() == SetValue(old(View()), k, v)
      ensures old(Sound(View(), [])) && (v.Coll? ==> v.elems != []) ==> Sound(View(), [])
    {
      ghost var s := View();
      if Sound(s, []) && (v.Coll? ==> v.elems != []) { SetKeepsSound(s, k, v); }
      if k !in dict {
        dict := dict[k := v];
        if v.Coll? { SignalKeyAsReady(k); }
      } else {
        dict := dict[k := v];
      }
    }
  }

  // ---------------------------------------------------------------------------
  // Who is asleep after an operation
  // ---------------------------------------------------------------------------

  /** Joining a queue puts nobody else to sleep, and the newcomer only where the key could
      serve it at once. */
  lemma JoinSleeper(s: State, s': State, keys: seq<Key>, c: Client, v: Waiting, k: Key, c': Client)
    requires Index(s.waiters, s.blocked) && c !in s.blocked && s'.dict == s.dict && s'.signaled == s.signaled
    requires Joined(s.waiters, s'.waiters, s.blocked, s'.blocked, keys, c, v)
    ensures Asleep(s', k, c') <==>
            Asleep(s, k, c') || (c' == c && k in keys && k in s.dict && Matches(s.dict[k], v.wtype) && k !in s.signaled)
  {
    assert WaitersOf(s'.waiters, k) == WaitersOf(s.waiters, k) + if k in keys then [c] else [];
  }

  lemma JoinSleepers(s: State, s': State, keys: seq<Key>, c: Client, v: Waiting)
    requires Index(s.waiters, s.blocked) && c !in s.blocked && s'.dict == s.dict && s'.signaled == s.signaled
    requires Joined(s.waiters, s'.waiters, s.blocked, s'.blocked, keys, c, v)
    ensures forall k, c' :: Asleep(s', k, c') <==>
              Asleep(s, k, c') || (c' == c && k in keys && k in s.dict && Matches(s.dict[k], v.wtype) && k !in s.signaled)
  {
    forall k, c' ensures Asleep(s', k, c') <==>
      Asleep(s, k, c') || (c' == c && k in keys && k in s.dict && Matches(s.dict[k], v.wtype) && k !in s.signaled)
    {
      JoinSleeper(s, s', keys, c, v, k, c');
    }
  }

  lemma UnblockSleeper(s: State, c: Client, k: Key, c': Client)
    requires Index(s.waiters, s.blocked) && c in s.blocked
    ensures Asleep(Unblock(s, c), k, c') <==> Asleep(s, k, c') && c' != c
  {
    if k in s.waiters { WithoutMembers(s.waiters[k], c, c'); }
  }

  lemma UnblockSleepers(s: State, c: Client)
    requires Index(s.waiters, s.blocked) && c in s.blocked
    ensures forall k, c' :: Asleep(Unblock(s, c), k, c') <==> Asleep(s, k, c') && c' != c
  {
    forall k, c' ensures Asleep(Unblock(s, c), k, c') <==> Asleep(s, k, c') && c' != c {
      UnblockSleeper(s, c, k, c');
    }
  }

  /** setKey. */
  function SetValue(s: State, k: Key, v: Value): State {
    if k in s.dict then s.(dict := s.dict[k := v])
    else if v.Coll? then Signal(s.(dict := s.dict[k := v]), k)
    else s.(dict := s.dict[k := v])
  }

  lemma SetKeepsSound(s: State, k: Key, v: Value)
    requires Sound(s, []) && (v.Coll? ==> v.elems != [])
    ensures Sound(SetValue(s, k, v), [])
  {
    if k !in s.dict && v.Coll? { SignalKeeps(s.(dict := s.dict[k := v]), k, []); }
  }

  /** The value could serve the client, which waits for the key. */
  ghost predicate Wants(s: State, k: Key, v: Value, c: Client) {
    k in s.waiters && c in s.waiters[k] && c in s.blocked && Matches(v, s.blocked[c].wtype)
  }

  lemma SetSleeper(s: State, k: Key, v: Value, k': Key, c: Client)
    ensures Asleep(SetValue(s, k, v), k', c) <==>
            if k' != k then Asleep(s, k', c) else k in s.dict && k !in s.signaled && Wants(s, k, v, c)
  {}

  /** setKey wakes the clients that can use the new value, unless it overwrites a key that is
      not queued yet and somebody waits for a value of the new type. */
  lemma SetWakesIff(s: State, k: Key, v: Value)
    requires NobodyAsleep(s)
    ensures NobodyAsleep(SetValue(s, k, v)) <==>
            !(k in s.dict && k !in s.signaled && exists c :: Wants(s, k, v, c))
  {
    var r := SetValue(s, k, v);
    forall k', c ensures Asleep(r, k', c) <==> k' == k && k in s.dict && k !in s.signaled && Wants(s, k, v, c) {
      SetSleeper(s, k, v, k', c);
    }
    if k in s.dict && k !in s.signaled && exists c :: Wants(s, k, v, c) {
      var c :| Wants(s, k, v, c);
      assert Asleep(r, k, c);
    }
  }

  /** BLPOP k, SET k, SORT src STORE k: the key is a non-empty list, its client stays blocked
      and nothing is queued. */
  lemma OverwriteLeavesClientAsleep(k: Key, c: Client, x: Elem)
    ensures var waiting := Waiting(OnList, {k}, None, true);
      var s0 := State(map[], map[k := [c]], map[c := waiting], [], {}, Counters(1, 1, 0, 0), [], {}, []);
      var s1 := SetValue(s0, k, Plain);
      var s2 := SetValue(s1, k, Coll(false, [x]));
      && Sound(s0, []) && NobodyAsleep(s0) && NobodyAsleep(s1)
      && Sound(s2, []) && s2.ready == [] && Asleep(s2, k, c)
  {
    var waiting := Waiting(OnList, {k}, None, true);
    var blocked := map[c := waiting];
    assert OfType(blocked, OnList) == {c} && OfType(blocked, OnZSet) == {} && OfType(blocked, OnStream) == {};
    var s0 := State(map[], map[k := [c]], blocked, [], {}, Counters(1, 1, 0, 0), [], {}, []);
    forall t ensures s0.counters.Of(t) == |OfType(blocked, t)| {}
    var s1 := SetValue(s0, k, Plain);
    var s2 := SetValue(s1, k, Coll(false, [x]));
    assert HasTaker(s2, k, c);
  }

  /** LPUSH and RPUSH of one element: a key that springs into existence is signaled. */
  function PushOne(s: State, k: Key, x: Elem, head: bool): State {
    if k !in s.dict then Signal(s.(dict := s.dict[k := Coll(false, [x])]), k)
    else if s.dict[k].Coll? && !s.dict[k].zset then s.(dict := s.dict[k := Coll(false, Pushed(s.dict[k].elems, x, head))])
    else s
  }

  lemma PushKeepsSound(s: State, k: Key, x: Elem, head: bool)
    requires Sound(s, [])
    ensures Sound(PushOne(s, k, x, head), [])
  {
    if k !in s.dict { SignalKeeps(s.(dict := s.dict[k := Coll(false, [x])]), k, []); }
  }

  lemma PushSleeper(s: State, k: Key, x: Elem, head: bool, k': Key, c: Client)
    ensures Asleep(PushOne(s, k, x, head), k', c) <==> Asleep(s, k', c)
  {}

  lemma PushKeepsSleepers(o: State, s: State, k: Key, x: Elem, head: bool)
    requires SameSleepers(o, s)
    ensures SameSleepers(o, PushOne(s, k, x, head))
  {
    forall k', c ensures Asleep(PushOne(s, k, x, head), k', c) <==> Asleep(o, k', c) {
      PushSleeper(s, k, x, head, k', c);
    }
  }

  lemma PushAdds(s: State, k: Key, x: Elem, head: bool)
    requires TakesList(s.dict, k)
    ensures TakesList(PushOne(s, k, x, head).dict, k)
    ensures Total(PushOne(s, k, x, head).dict) == Total(s.dict) + multiset{x}
  {
    if k in s.dict {
      PushConserves(s.dict[k].elems, x, head);
      TotalGrow(s.dict, k, Coll(false, Pushed(s.dict[k].elems, x, head)), x);
    } else {
      assert multiset([x]) == multiset{x};
      TotalGrow(s.dict, k, Coll(false, [x]), x);
    }
  }

  lemma PrefixMore(xs: seq<Elem>, j: nat)
    requires j < |xs|
    ensures multiset(xs[..j + 1]) == multiset(xs[..j]) + multiset{xs[j]}
  {
    assert xs[..j + 1] == xs[..j] + [xs[j]];
  }

  /** The elements pushed one after another. */
  function PushAll(elems: seq<Elem>, xs: seq<Elem>, head: bool): seq<Elem>
    decreases |xs|
  {
    if xs == [] then elems else Pushed(PushAll(elems, xs[..|xs| - 1], head), xs[|xs| - 1], head)
  }

  function Reversed(xs: seq<Elem>): seq<Elem>
    decreases |xs|
  {
    if xs == [] then [] else [xs[|xs| - 1]] + Reversed(xs[..|xs| - 1])
  }

  /** RPUSH appends the elements in order, LPUSH puts them in front in reverse order. */
  lemma {:induction false} PushAllIs(elems: seq<Elem>, xs: seq<Elem>, head: bool)
    ensures PushAll(elems, xs, head) == if head then Reversed(xs) + elems else elems + xs
    decreases |xs|
  {
    if xs != [] {
      PushAllIs(elems, xs[..|xs| - 1], head);
      assert xs == xs[..|xs| - 1] + [xs[|xs| - 1]];
    }
  }

  lemma PushAllNext(d0: Dict, d: Dict, k: Key, xs: seq<Elem>, j: nat, head: bool)
    requires j < |xs| && TakesList(d0, k) && d == AfterPushes(d0, k, xs[..j], head)
    ensures AfterPushes(d0, k, xs[..j + 1], head) ==
            d[k := Coll(false, if k in d then Pushed(ListAt(d, k), xs[j], head) else [xs[j]])]
  {
    var init, more := xs[..j], xs[..j + 1];
    assert more[..j] == init && more[j] == xs[j];
    assert PushAll(ListAt(d0, k), more, head) == Pushed(PushAll(ListAt(d0, k), init, head), xs[j], head);
    assert Pushed([], xs[j], head) == [xs[j]];
    if j == 0 {
      assert init == [] && d == d0;
    } else {
      assert d == d0[k := Coll(false, PushAll(ListAt(d0, k), init, head))];
    }
  }

  /** The dictionary once `xs` are pushed. */
  function AfterPushes(d: Dict, k: Key, xs: seq<Elem>, head: bool): Dict {
    if xs == [] then d else d[k := Coll(false, PushAll(ListAt(d, k), xs, head))]
  }

  /** What holds once the first `j` elements are pushed. */
  ghost predicate Pushing(s0: State, s: State, k: Key, xs: seq<Elem>, j: nat, head: bool) {
    && j <= |xs| && Sound(s, []) && SameSleepers(s0, s) && TakesList(s0.dict, k) && TakesList(s.dict, k)
    && Total(s.dict) == Total(s0.dict) + multiset(xs[..j])
    && s.dict == AfterPushes(s0.dict, k, xs[..j], head)
  }

  lemma PushingStarts(s: State, k: Key, xs: seq<Elem>, head: bool)
    requires Sound(s, []) && TakesList(s.dict, k)
    ensures Pushing(s, s, k, xs, 0, head)
  {
    assert xs[..0] == [];
  }

  lemma PushingDict(d0: Dict, s: State, k: Key, xs: seq<Elem>, j: nat, head: bool)
    requires j < |xs| && TakesList(d0, k) && TakesList(s.dict, k) && s.dict == AfterPushes(d0, k, xs[..j], head)
    ensures PushOne(s, k, xs[j], head).dict == AfterPushes(d0, k, xs[..j + 1], head)
  {
    PushAllNext(d0, s.dict, k, xs, j, head);
  }

  lemma PushingTotal(all: multiset<Elem>, s: State, k: Key, xs: seq<Elem>, j: nat, head: bool)
    requires j < |xs| && TakesList(s.dict, k) && Total(s.dict) == all + multiset(xs[..j])
    ensures Total(PushOne(s, k, xs[j], head).dict) == all + multiset(xs[..j + 1])
    ensures TakesList(PushOne(s, k, xs[j], head).dict, k)
  {
    PushAdds(s, k, xs[j], head);
    PrefixMore(xs, j);
  }

  lemma PushingNext(s0: State, s: State, k: Key, xs: seq<Elem>, j: nat, head: bool)
    requires j < |xs| && Pushing(s0, s, k, xs, j, head)
    ensures Pushing(s0, PushOne(s, k, xs[j], head), k, xs, j + 1, head)
  {
    PushKeepsSound(s, k, xs[j], head);
    PushKeepsSleepers(s0, s, k, xs[j], head);
    PushingTotal(Total(s0.dict), s, k, xs, j, head);
    PushingDict(s0.dict, s, k, xs, j, head);
  }

  lemma PushingEnds(s0: State, s: State, k: Key, xs: seq<Elem>, head: bool)
    requires Pushing(s0, s, k, xs, |xs|, head)
    ensures Sound(s, []) && SameSleepers(s0, s) && Total(s.dict) == Total(s0.dict) + multiset(xs) && s.dict == AfterPushes(s0.dict, k, xs, head)
  {
    assert xs[..|xs|] == xs;
  }

  /** The key takes list elements. */
  predicate TakesList(d: Dict, k: Key) {
    k in d ==> d[k].Coll? && !d[k].zset
  }

  lemma QueueTail(unblocked: seq<Client>, flagged: set<Client>)
    requires QueueOk(unblocked, flagged) && unblocked != []
    ensures QueueOk(unblocked[1..], flagged - {unblocked[0]})
  {
    var rest := unblocked[1..];
    assert unblocked == [unblocked[0]] + rest;
    assert forall i :: 0 <= i < |rest| ==> rest[i] == unblocked[i + 1];
  }

  function KeySet(keys: seq<Key>): set<Key> {
    set k | k in keys
  }

  /** The client waits for the keys handled so far, behind everybody else. */
  ghost predicate Joined(w0: Waiters, w: Waiters, b0: BlockedIndex.Blocked, b: BlockedIndex.Blocked, keys: seq<Key>,
                         c: Client, v: Waiting) {
    && b == b0[c := v.(keys := KeySet(keys))]
    && forall k :: WaitersOf(w, k) == WaitersOf(w0, k) + if k in keys then [c] else []
  }

  lemma JoinStart(w: Waiters, b: BlockedIndex.Blocked, c: Client, v: Waiting)
    requires v.keys == {}
    ensures Joined(w, w, b, b[c := v], [], c, v)
  {
    assert KeySet([]) == {};
    forall k ensures WaitersOf(w, k) == WaitersOf(w, k) + if k in [] then [c] else [] {}
  }

  lemma JoinSame(w0: Waiters, w: Waiters, b0: BlockedIndex.Blocked, b: BlockedIndex.Blocked, keys: seq<Key>,
                 c: Client, v: Waiting, k: Key)
    requires Joined(w0, w, b0, b, keys, c, v) && k in keys
    ensures Joined(w0, w, b0, b, keys + [k], c, v)
  {
    assert KeySet(keys + [k]) == KeySet(keys);
    forall x ensures x in keys + [k] <==> x in keys {}
  }

  lemma JoinNext(w0: Waiters, w: Waiters, b0: BlockedIndex.Blocked, b: BlockedIndex.Blocked, keys: seq<Key>,
                 c: Client, v: Waiting, k: Key)
    requires Joined(w0, w, b0, b, keys, c, v) && k !in keys
    ensures c in b && Joined(w0, AddWaiter(w, k, c), b0, AddKey(b, c, k), keys + [k], c, v)
  {
    assert KeySet(keys + [k]) == KeySet(keys) + {k};
    assert AddKey(b, c, k) == b0[c := v.(keys := KeySet(keys + [k]))];
    forall x ensures WaitersOf(AddWaiter(w, k, c), x) == WaitersOf(w0, x) + if x in keys + [k] then [c] else [] {
      assert WaitersOf(w, x) == WaitersOf(w0, x) + if x in keys then [c] else [];
      assert WaitersOf(w0, k) + [] == WaitersOf(w0, k);
    }
  }
}
