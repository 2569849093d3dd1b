/** The two-sided index between blocked clients and the keys they wait for (src/blocked.c): the
    waiter list of every key on one side, the key set of every client on the other. */
module BlockedIndex {
  import opened Options

  /** A key of one database. */
  datatype Key = Key(db: nat, name: string)

  type Client = nat

  /** BLOCKED_LIST, BLOCKED_ZSET, BLOCKED_STREAM. */
  datatype WaitType = OnList | OnZSet | OnStream

  /** A client's btype and bpop fields; `head` says which end its command pops. */
  datatype Waiting = Waiting(wtype: WaitType, keys: set<Key>, target: Option<Key>, head: bool)

  type Waiters = map<Key, seq<Client>>
  type Blocked = map<Client, Waiting>

  ghost predicate NoDup<T>(s: seq<T>) {
    forall i, j :: 0 <= i < j < |s| ==> s[i] != s[j]
  }

  ghost predicate ListsSound(w: Waiters) {
    forall k :: k in w ==> w[k] != [] && NoDup(w[k])
  }

  ghost predicate KeysToClients(w: Waiters, b: Blocked) {
    forall k, c :: k in w && c in w[k] ==> c in b && k in b[c].keys
  }

  ghost predicate ClientsToKeys(w: Waiters, b: Blocked) {
    forall c, k :: c in b && k in b[c].keys ==> k in w && c in w[k]
  }

  /** A key is among a client's keys iff the client occurs, exactly once, in the key's waiter
      list, and no empty list is stored. */
  ghost predicate Index(w: Waiters, b: Blocked) {
    ListsSound(w) && KeysToClients(w, b) && ClientsToKeys(w, b)
  }

  function OfType(b: Blocked, t: WaitType): set<Client> {
    set c | c in b && b[c].wtype == t
  }

  // ---------------------------------------------------------------------------
  // Blocking
  // ---------------------------------------------------------------------------

  function AddWaiter(w: Waiters, k: Key, c: Client): Waiters {
    w[k := (if k in w then w[k] else []) + [c]]
  }

  function AddKey(b: Blocked, c: Client, k: Key): Blocked
    requires c in b
  {
    b[c := b[c].(keys := b[c].keys + {k})]
  }

  lemma NoDupSnoc<T>(s: seq<T>, x: T)
    requires NoDup(s) && x !in s
    ensures NoDup(s + [x])
  {}

  lemma AddWaiterSound(w: Waiters, k: Key, c: Client)
    requires ListsSound(w) && (k in w ==> c !in w[k])
    ensures ListsSound(AddWaiter(w, k, c))
  {
    NoDupSnoc(if k in w then w[k] else [], c);
  }

  /** One turn of blockForKeys keeps both sides in agreement. */
  lemma AddKeepsIndex(w: Waiters, b: Blocked, c: Client, k: Key)
    requires Index(w, b) && c in b && k !in b[c].keys
    ensures Index(AddWaiter(w, k, c), AddKey(b, c, k))
  {
    AddWaiterSound(w, k, c);
    var w', b' := AddWaiter(w, k, c), AddKey(b, c, k);
    forall k', c' | k' in w' && c' in w'[k'] ensures c' in b' && k' in b'[c'].keys {
      if k' == k && c' == c {} else { assert k' in w && c' in w[k']; }
    }
    forall c', k' | c' in b' && k' in b'[c'].keys ensures k' in w' && c' in w'[k'] {
      if k' == k && c' == c { assert w'[k][|w'[k]| - 1] == c; } else { assert k' in b[c'].keys; }
    }
  }

  lemma NewClientKeepsIndex(w: Waiters, b: Blocked, c: Client, t: WaitType, target: Option<Key>, head: bool)
    requires Index(w, b) && c !in b
    ensures Index(w, b[c := Waiting(t, {}, target, head)])
  {
    var b' := b[c := Waiting(t, {}, target, head)];
    forall k, c' | k in w && c' in w[k] ensures c' in b' && k in b'[c'].keys {
      assert c' in b && k in b[c'].keys;
    }
  }

  // ---------------------------------------------------------------------------
  // Unblocking
  // ---------------------------------------------------------------------------

  /** listDelNode of listSearchKey: the first occurrence goes. */
  function Without<T(==)>(s: seq<T>, x: T): seq<T>
    decreases |s|
  {
    if s == [] then [] else if s[0] == x then s[1..] else [s[0]] + Without(s[1..], x)
  }

  lemma {:induction false} WithoutMembers<T>(s: seq<T>, x: T, y: T)
    requires NoDup(s)
    ensures y in Without(s, x) <==> y in s && y != x
    decreases |s|
  {
    if s != [] {
      assert s == [s[0]] + s[1..];
      if s[0] == x {
        assert forall i :: 0 <= i < |s[1..]| ==> s[1..][i] == s[i + 1];
      } else {
        WithoutMembers(s[1..], x, y);
      }
    }
  }

  lemma {:induction false} WithoutNoDup<T>(s: seq<T>, x: T)
    requires NoDup(s)
    ensures NoDup(Without(s, x))
    decreases |s|
  {
    if s != [] && s[0] != x {
      WithoutNoDup(s[1..], x);
      var r := Without(s[1..], x);
      forall i | 0 <= i < |r| ensures r[i] != s[0] {
        WithoutMembers(s[1..], x, r[i]);
        assert r[i] in s[1..];
      }
    }
  }

  /** The waiter lists once `c` is taken out of the lists of `done`. */
  function Removed(w: Waiters, c: Client, done: set<Key>): Waiters {
    map k | k in w && !(k in done && Without(w[k], c) == []) :: if k in done then Without(w[k], c) else w[k]
  }

  /** One turn of unblockClientWaitingData. */
  lemma RemovedNext(w: Waiters, c: Client, done: set<Key>, k: Key)
    requires k in w && k !in done
    ensures var r := Removed(w, c, done);
      && k in r && r[k] == w[k]
      && Removed(w, c, done + {k}) == if Without(r[k], c) == [] then r - {k} else r[k := Without(r[k], c)]
  {}

  lemma RemovedNothing(w: Waiters, c: Client)
    ensures Removed(w, c, {}) == w
  {}

  lemma RemovedSound(w: Waiters, c: Client, done: set<Key>)
    requires ListsSound(w)
    ensures ListsSound(Removed(w, c, done))
  {
    var r := Removed(w, c, done);
    forall k | k in r ensures r[k] != [] && NoDup(r[k]) {
      WithoutNoDup(w[k], c);
    }
  }

  /** Who is still in a list was there before, and is not the client removed. */
  lemma RemovedMember(w: Waiters, c: Client, done: set<Key>, k: Key, c': Client)
    requires ListsSound(w) && k in Removed(w, c, done) && c' in Removed(w, c, done)[k]
    ensures k in w && c' in w[k] && (k in done ==> c' != c)
  {
    if k in done { WithoutMembers(w[k], c, c'); }
  }

  lemma StillPointsBack(w: Waiters, b: Blocked, c: Client, w': Waiters, b': Blocked, k: Key, c': Client)
    requires Index(w, b) && c in b && w' == Removed(w, c, b[c].keys) && b' == b - {c}
    requires k in w' && c' in w'[k]
    ensures c' in b' && k in b'[c'].keys
  {
    RemovedMember(w, c, b[c].keys, k, c');
  }

  lemma StillListed(w: Waiters, b: Blocked, c: Client, w': Waiters, b': Blocked, k: Key, c': Client)
    requires Index(w, b) && c in b && w' == Removed(w, c, b[c].keys) && b' == b - {c}
    requires c' in b' && k in b'[c'].keys
    ensures k in w' && c' in w'[k]
  {
    assert c' in w[k];
    WithoutMembers(w[k], c, c');
  }

  lemma RemovedKeysToClients(w: Waiters, b: Blocked, c: Client, w': Waiters, b': Blocked)
    requires Index(w, b) && c in b && w' == Removed(w, c, b[c].keys) && b' == b - {c}
    ensures KeysToClients(w', b')
  {
    forall k, c' | k in w' && c' in w'[k] ensures c' in b' && k in b'[c'].keys {
      StillPointsBack(w, b, c, w', b', k, c');
    }
  }

  lemma RemovedClientsToKeys(w: Waiters, b: Blocked, c: Client, w': Waiters, b': Blocked)
    requires Index(w, b) && c in b && w' == Removed(w, c, b[c].keys) && b' == b - {c}
    ensures ClientsToKeys(w', b')
  {
    forall c', k | c' in b' && k in b'[c'].keys ensures k in w' && c' in w'[k] {
      StillListed(w, b, c, w', b', k, c');
    }
  }

  /** unblockClient keeps both sides in agreement and forgets the client. */
  lemma UnblockKeepsIndex(w: Waiters, b: Blocked, c: Client)
    requires Index(w, b) && c in b
    ensures Index(Removed(w, c, b[c].keys), b - {c})
  {
    RemovedSound(w, c, b[c].keys);
    var w', b' := Removed(w, c, b[c].keys), b - {c};
    RemovedKeysToClients(w, b, c, w', b');
    RemovedClientsToKeys(w, b, c, w', b');
  }

  // ---------------------------------------------------------------------------
  // Rotating a waiter of another type to the tail
  // ---------------------------------------------------------------------------

  function Rotated(w: Waiters, k: Key): Waiters
    requires k in w && w[k] != []
  {
    w[k := w[k][1..] + [w[k][0]]]
  }

  lemma RotateMembers<T>(s: seq<T>, x: T)
    requires s != []
    ensures x in s[1..] + [s[0]] <==> x in s
  {
    assert s == [s[0]] + s[1..];
  }

  lemma RotateKeepsIndex(w: Waiters, b: Blocked, k: Key)
    requires Index(w, b) && k in w
    ensures w[k] != [] && Index(Rotated(w, k), b)
  {
    var w' := Rotated(w, k);
    forall k', c | k' in w' ensures c in w'[k'] <==> c in w[k'] {
      if k' == k { RotateMembers(w[k], c); }
    }
  }

  // ---------------------------------------------------------------------------
  // Counters
  // ---------------------------------------------------------------------------

  lemma CountAdd(b: Blocked, c: Client, v: Waiting, t: WaitType)
    requires c !in b
    ensures |OfType(b[c := v], t)| == |OfType(b, t)| + if v.wtype == t then 1 else 0
    ensures |b[c := v]| == |b| + 1
  {
    var b' := b[c := v];
    assert OfType(b', t) == if v.wtype == t then OfType(b, t) + {c} else OfType(b, t);
    assert b'.Keys == b.Keys + {c};
  }

  lemma CountRemove(b: Blocked, c: Client, t: WaitType)
    requires c in b
    ensures |OfType(b - {c}, t)| == |OfType(b, t)| - if b[c].wtype == t then 1 else 0
    ensures |b - {c}| == |b| - 1
  {
    var b' := b - {c};
    assert OfType(b', t) == OfType(b, t) - {c};
    assert b'.Keys == b.Keys - {c};
  }
}
