/** What serving a key does to its queue of waiters (src/blocked.c): first come, first served,
    nobody with something to receive is left behind, and a failed hand-over undoes the pop. */
module BlockedQueue {
  import opened BlockedIndex
  import opened Options
  import opened BlockedServe

  function WaitersOf(w: Waiters, k: Key): seq<Client> {
    if k in w then w[k] else []
  }

  // ---------------------------------------------------------------------------
  // One turn
  // ---------------------------------------------------------------------------

  lemma HandedFrame(s: State, k: Key, c: Client, v: Waiting, x: Elem, popped: seq<Elem>)
    requires k in s.dict && Matches(s.dict[k], v.wtype)
    ensures var r := Handed(s, k, c, v, x, popped);
      && r.waiters == s.waiters && r.blocked == s.blocked && s.signaled <= r.signaled
      && k in r.dict && r.dict[k].Coll? && r.dict[k].zset == s.dict[k].zset
  {}

  /** The queue loses exactly its first client. */
  lemma ServeTakesFirst(s: State, k: Key)
    requires Index(s.waiters, s.blocked) && CanServe(s, k)
    ensures WaitersOf(ServeFirst(s, k).waiters, k) == s.waiters[k][1..]
    ensures ServeFirst(s, k).blocked == s.blocked - {s.waiters[k][0]}
  {
    var c := s.waiters[k][0];
    var v, elems := s.blocked[c], s.dict[k].elems;
    var popped := Rest(elems, v.head);
    var s1 := Unblock(s.(dict := s.dict[k := s.dict[k].(elems := popped)]), c);
    HandedFrame(s1, k, c, v, Popped(elems, v.head), popped);
    assert c in s.waiters[k];
    assert k in v.keys;
    assert Without(s.waiters[k], c) == s.waiters[k][1..];
  }

  lemma ServeKeepsKind(s: State, k: Key)
    requires CanServe(s, k)
    ensures var d := ServeFirst(s, k).dict; k in d && d[k].Coll? && d[k].zset == s.dict[k].zset
  {
    var c := s.waiters[k][0];
    var v, elems := s.blocked[c], s.dict[k].elems;
    var popped := Rest(elems, v.head);
    HandedFrame(Unblock(s.(dict := s.dict[k := s.dict[k].(elems := popped)]), c), k, c, v, Popped(elems, v.head), popped);
  }

  /** Popping takes the named end off, and pushing at that end puts it back. */
  lemma PopThenPush(elems: seq<Elem>, head: bool)
    requires elems != []
    ensures elems == if head then [Popped(elems, head)] + Rest(elems, head) else Rest(elems, head) + [Popped(elems, head)]
    ensures Pushed(Rest(elems, head), Popped(elems, head), head) == elems
  {}

  /** BRPOPLPUSH towards a key that is not a list: the client is released, and the data is
      exactly what it was. */
  lemma WrongTargetUndoes(s: State, k: Key)
    requires CanServe(s, k)
    requires var v := s.blocked[s.waiters[k][0]];
      && v.wtype == OnList && v.target.Some?
      && v.target.value in s.dict && (s.dict[v.target.value].Coll? ==> s.dict[v.target.value].zset)
    ensures ServeFirst(s, k).dict == s.dict && ServeFirst(s, k).out == s.out
    ensures s.waiters[k][0] !in ServeFirst(s, k).blocked
  {
    var v, elems := s.blocked[s.waiters[k][0]], s.dict[k].elems;
    PopThenPush(elems, v.head);
    assert s.dict[k := s.dict[k].(elems := Rest(elems, v.head))][k := s.dict[k]] == s.dict;
  }

  /** BRPOPLPUSH towards a list or a missing key: one list loses its end, the other gains it
      at the head, also when both are the same list. */
  lemma TargetGains(s: State, k: Key)
    requires CanServe(s, k)
    requires var v := s.blocked[s.waiters[k][0]];
      && v.wtype == OnList && v.target.Some?
      && (v.target.value in s.dict ==> s.dict[v.target.value].Coll? && !s.dict[v.target.value].zset)
    ensures var v := s.blocked[s.waiters[k][0]];
      var d, x, rest := v.target.value, Popped(s.dict[k].elems, v.head), Rest(s.dict[k].elems, v.head);
      ServeFirst(s, k).dict ==
        if d == k then s.dict[k := Coll(false, [x] + rest)]
        else s.dict[k := Coll(false, rest)][d := Coll(false, [x] + if d in s.dict then s.dict[d].elems else [])]
  {
    var v := s.blocked[s.waiters[k][0]];
    var d, x, rest := v.target.value, Popped(s.dict[k].elems, v.head), Rest(s.dict[k].elems, v.head);
    assert [x] + [] == [x];
    assert d == k ==> s.dict[k := Coll(false, rest)][k := Coll(false, [x] + rest)] == s.dict[k := Coll(false, [x] + rest)];
  }

  // ---------------------------------------------------------------------------
  // The waiters behind the first `n` cannot be served
  // ---------------------------------------------------------------------------

  ghost predicate Behind(s: State, k: Key, n: nat) {
    && k in s.dict && n <= |WaitersOf(s.waiters, k)|
    && forall i :: n <= i < |WaitersOf(s.waiters, k)| ==>
         WaitersOf(s.waiters, k)[i] in s.blocked && !Matches(s.dict[k], s.blocked[WaitersOf(s.waiters, k)[i]].wtype)
  }

  lemma BehindServed(s: State, k: Key, n: nat)
    requires Index(s.waiters, s.blocked) && CanServe(s, k) && n > 0 && Behind(s, k, n)
    ensures Behind(ServeFirst(s, k), k, n - 1)
  {
    ServeTakesFirst(s, k);
    ServeKeepsKind(s, k);
    var q, q' := s.waiters[k], s.waiters[k][1..];
    forall i | n - 1 <= i < |q'| ensures q'[i] == q[i + 1] && q[i + 1] != q[0] {}
  }

  lemma BehindRotated(s: State, k: Key, n: nat)
    requires Index(s.waiters, s.blocked) && n > 0 && Behind(s, k, n)
    requires !Matches(s.dict[k], s.blocked[s.waiters[k][0]].wtype)
    ensures Behind(RotateFirst(s, k), k, n - 1)
  {
    var q := s.waiters[k];
    var q' := q[1..] + [q[0]];
    forall i | n - 1 <= i < |q'| ensures q'[i] in s.blocked && !Matches(s.dict[k], s.blocked[q'[i]].wtype) {
      if i < |q| - 1 { assert q'[i] == q[i + 1]; }
    }
  }

  // ---------------------------------------------------------------------------
  // Nobody is left behind
  // ---------------------------------------------------------------------------

  ghost predicate HasTaker(s: State, k: Key, c: Client) {
    && k in s.dict && k in s.waiters && c in s.waiters[k]
    && c in s.blocked && Matches(s.dict[k], s.blocked[c].wtype)
  }

  /** The key could serve the client and is not queued. */
  ghost predicate Asleep(s: State, k: Key, c: Client) {
    HasTaker(s, k, c) && k !in s.signaled
  }

  ghost predicate NobodyAsleep(s: State) {
    forall k, c :: !Asleep(s, k, c)
  }

  ghost predicate SameSleepers(s: State, s': State) {
    forall k, c :: Asleep(s', k, c) <==> Asleep(s, k, c)
  }

  /** Every key that could serve one of its waiters is queued, `current` aside, or was asleep
      for that waiter in `o`, where handling began. */
  ghost predicate Awake(o: State, s: State, current: Option<Key>) {
    forall k, c :: HasTaker(s, k, c) ==> k in s.signaled || current == Some(k) || Asleep(o, k, c)
  }

  /** Since `o` clients only left, and keys that were asleep are still there and not queued. */
  ghost predicate Undisturbed(o: State, s: State) {
    && (forall c :: c in s.blocked ==> c in o.blocked && s.blocked[c] == o.blocked[c])
    && (forall k, c :: Asleep(o, k, c) ==>
          k in s.dict && s.dict[k].Coll? && s.dict[k].zset == o.dict[k].zset && k !in s.signaled)
  }

  /** Clients only leave, and whoever left is queued for reprocessing behind those that were. */
  ghost predicate Queued(o: State, s: State) {
    && o.unblocked <= s.unblocked
    && (forall c :: c in s.blocked ==> c in o.blocked)
    && (forall c :: c in o.blocked && c !in s.blocked ==> c in s.unblocked)
  }

  ghost predicate Steady(o: State, s: State, current: Option<Key>) {
    Awake(o, s, current) && Undisturbed(o, s) && Queued(o, s)
  }

  /** Collections are stored only while they have elements, `current` aside. */
  ghost predicate NoEmpty(d: Dict, current: Option<Key>) {
    forall k :: k in d && d[k].Coll? && current != Some(k) ==> d[k].elems != []
  }

  lemma ServeWaitersAt(s: State, k: Key)
    requires CanServe(s, k)
    ensures var c := s.waiters[k][0]; ServeFirst(s, k).waiters == Removed(s.waiters, c, s.blocked[c].keys)
  {}

  lemma RemovedShrinks(w: Waiters, first: Client, keys: set<Key>, k: Key, c: Client)
    requires ListsSound(w) && k in Removed(w, first, keys) && c in Removed(w, first, keys)[k]
    ensures k in w && c in w[k]
  {
    WithoutMembers(w[k], first, c);
  }

  /** What stayed in the waiter lists was there before. */
  lemma ServeShrinks(s: State, k: Key, k': Key, c: Client)
    requires Index(s.waiters, s.blocked) && CanServe(s, k)
    requires k' in ServeFirst(s, k).waiters && c in ServeFirst(s, k).waiters[k']
    ensures k' in s.waiters && c in s.waiters[k']
  {
    var first := s.waiters[k][0];
    ServeWaitersAt(s, k);
    RemovedShrinks(s.waiters, first, s.blocked[first].keys, k', c);
  }

  /** A stored key is of its old kind, or was just created and queued if somebody waits for it. */
  lemma ServeStores(s: State, k: Key, k': Key)
    requires CanServe(s, k) && k' in ServeFirst(s, k).dict
    ensures var r := ServeFirst(s, k);
      || (k' in s.dict && r.dict[k'].Coll? == s.dict[k'].Coll? && (s.dict[k'].Coll? ==> r.dict[k'].zset == s.dict[k'].zset))
      || (k' !in s.dict && (k' in r.waiters ==> k' in r.signaled))
    ensures s.signaled <= ServeFirst(s, k).signaled
  {
    ServeKeepsKind(s, k);
  }

  /** A key that can serve somebody now could before, or was just created and queued. */
  lemma ServeWakes(s: State, k: Key, k': Key, c: Client)
    requires Index(s.waiters, s.blocked) && CanServe(s, k) && HasTaker(ServeFirst(s, k), k', c)
    ensures HasTaker(s, k', c) || k' in ServeFirst(s, k).signaled
    ensures s.signaled <= ServeFirst(s, k).signaled
  {
    ServeShrinks(s, k, k', c);
    ServeTakesFirst(s, k);
    ServeStores(s, k, k');
  }

  lemma ServeKeepsAwake(o: State, s: State, k: Key)
    requires Index(s.waiters, s.blocked) && CanServe(s, k) && Awake(o, s, Some(k))
    ensures Awake(o, ServeFirst(s, k), Some(k))
  {
    var r := ServeFirst(s, k);
    forall k', c | HasTaker(r, k', c) ensures k' in r.signaled || k' == k || Asleep(o, k', c) {
      ServeWakes(s, k, k', c);
    }
  }

  /** Serving `k` leaves a stored key of its kind, and queues only keys that were not stored. */
  lemma ServeKeepsKey(s: State, k: Key, k': Key)
    requires CanServe(s, k) && k' in s.dict && s.dict[k'].Coll? && k' !in s.signaled
    ensures var r := ServeFirst(s, k);
      k' in r.dict && r.dict[k'].Coll? && r.dict[k'].zset == s.dict[k'].zset && k' !in r.signaled
  {
    ServeKeepsKind(s, k);
  }

  lemma ServeKeepsQueued(o: State, s: State, k: Key)
    requires CanServe(s, k) && QueueOk(s.unblocked, s.flagged) && Queued(o, s)
    ensures Queued(o, ServeFirst(s, k))
  {
    var c := s.waiters[k][0];
    var r := ServeFirst(s, k);
    assert r.blocked == s.blocked - {c};
    assert r.unblocked == if c in s.flagged then s.unblocked else s.unblocked + [c];
  }

  lemma ServeKeepsUndisturbed(o: State, s: State, k: Key)
    requires Index(s.waiters, s.blocked) && CanServe(s, k) && Undisturbed(o, s)
    ensures Undisturbed(o, ServeFirst(s, k))
  {
    ServeTakesFirst(s, k);
    var r := ServeFirst(s, k);
    forall k', c | Asleep(o, k', c)
      ensures k' in r.dict && r.dict[k'].Coll? && r.dict[k'].zset == o.dict[k'].zset && k' !in r.signaled
    {
      ServeKeepsKey(s, k, k');
    }
  }

  lemma RotateKeepsAwake(o: State, s: State, k: Key)
    requires k in s.waiters && s.waiters[k] != [] && Awake(o, s, Some(k))
    ensures Awake(o, RotateFirst(s, k), Some(k))
  {
    var r := RotateFirst(s, k);
    forall k', c | HasTaker(r, k', c) ensures k' in r.signaled || k' == k || Asleep(o, k', c) {
      if k' != k { assert HasTaker(s, k', c); }
    }
  }

  lemma ServeKeepsNoEmpty(s: State, k: Key)
    requires CanServe(s, k) && NoEmpty(s.dict, Some(k))
    ensures NoEmpty(ServeFirst(s, k).dict, Some(k))
  {}

  /** Once the loop is over, the key is gone or none of its waiters can use it. */
  lemma DoneIsAwake(o: State, s: State, k: Key)
    requires Index(s.waiters, s.blocked) && Awake(o, s, Some(k)) && k in s.dict && s.dict[k].Coll?
    requires s.dict[k].elems == [] || Behind(s, k, 0)
    ensures Awake(o, Cleaned(s, k), None)
  {
    var r := Cleaned(s, k);
    forall k', c | HasTaker(r, k', c) ensures k' in r.signaled || Asleep(o, k', c) {
      assert HasTaker(s, k', c);
    }
  }

  lemma DoneIsUndisturbed(o: State, s: State, k: Key)
    requires Undisturbed(o, s) && forall c :: !Asleep(o, k, c)
    ensures Undisturbed(o, Cleaned(s, k))
  {}

  lemma DoneIsNoEmpty(s: State, k: Key)
    requires NoEmpty(s.dict, Some(k)) && k in s.dict && s.dict[k].Coll?
    ensures NoEmpty(Cleaned(s, k).dict, None)
  {}

  // ---------------------------------------------------------------------------
  // First come, first served
  // ---------------------------------------------------------------------------

  /** Every client waiting for `k` waits for its type. */
  ghost predicate AllMatch(s: State, k: Key) {
    k in s.dict && forall c :: c in WaitersOf(s.waiters, k) ==> c in s.blocked && Matches(s.dict[k], s.blocked[c].wtype)
  }

  /** What a list or sorted set pop sends to the client without a target. */
  lemma ServeDelivers(s: State, k: Key)
    requires CanServe(s, k)
    requires s.blocked[s.waiters[k][0]].wtype == OnZSet || s.blocked[s.waiters[k][0]].target.None?
    ensures var v, elems := s.blocked[s.waiters[k][0]], s.dict[k].elems;
      && ServeFirst(s, k).out == s.out + [Delivery(s.waiters[k][0], k, Popped(elems, v.head))]
      && ServeFirst(s, k).dict == s.dict[k := s.dict[k].(elems := Rest(elems, v.head))]
  {}
}
