/** The order in which a ready key serves its clients (src/blocked.c): among those waiting for
    the key's type first come, first served, one reply each, with elements taken from the end
    each client asked for. */
module BlockedOrder {
  import opened BlockedIndex
  import opened Options
  import opened BlockedServe
  import opened BlockedQueue

  function ListAt(d: Dict, k: Key): seq<Elem> {
    if k in d && d[k].Coll? then d[k].elems else []
  }

  /** The clients of a queue that wait for one type. */
  function OfKind(q: seq<Client>, b: Blocked, t: WaitType): seq<Client>
    decreases |q|
  {
    if q == [] then [] else (if q[0] in b && b[q[0]].wtype == t then [q[0]] else []) + OfKind(q[1..], b, t)
  }

  function KindOf(v: Value): WaitType {
    if v.Coll? && v.zset then OnZSet else OnList
  }

  /** A queue after some clients left it, one after the other. */
  function LessAll(q: seq<Client>, gone: seq<Client>): seq<Client>
    decreases |gone|
  {
    if gone == [] then q else Without(LessAll(q, gone[..|gone| - 1]), gone[|gone| - 1])
  }

  /** The client is sent the element itself. */
  predicate Replies(v: Waiting) {
    v.wtype != OnList || v.target.None?
  }

  function Replied(b: Blocked, served: seq<Client>): seq<Client>
    decreases |served|
  {
    if served == [] then []
    else
      var c := served[|served| - 1];
      Replied(b, served[..|served| - 1]) + if c in b && Replies(b[c]) then [c] else []
  }

  function Recipients(d: seq<Delivery>): seq<Client>
    decreases |d|
  {
    if d == [] then [] else Recipients(d[..|d| - 1]) + [d[|d| - 1].client]
  }

  predicate PopsHead(b: Blocked, c: Client) {
    c in b && b[c].head
  }

  /** What was sent to the clients that pop the head, in order. */
  function Fronts(b: Blocked, d: seq<Delivery>): seq<Elem>
    decreases |d|
  {
    if d == [] then []
    else
      var last := d[|d| - 1];
      Fronts(b, d[..|d| - 1]) + if PopsHead(b, last.client) then [last.elem] else []
  }

  /** What was sent to the clients that pop the tail, latest first. */
  function Backs(b: Blocked, d: seq<Delivery>): seq<Elem>
    decreases |d|
  {
    if d == [] then []
    else
      var last := d[|d| - 1];
      (if PopsHead(b, last.client) then [] else [last.elem]) + Backs(b, d[..|d| - 1])
  }

  // ---------------------------------------------------------------------------
  // The law
  // ---------------------------------------------------------------------------

  ghost predicate Unchanged(b0: Blocked, b: Blocked) {
    forall c :: c in b ==> c in b0 && b[c] == b0[c]
  }

  /** Those served are the first that waited for type `t`, and the others of that type keep
      their places. */
  ghost predicate FirstOfKind(w0: Waiters, b0: Blocked, w: Waiters, b: Blocked, k: Key, t: WaitType, served: seq<Client>) {
    served + OfKind(WaitersOf(w, k), b, t) == OfKind(WaitersOf(w0, k), b0, t)
  }

  /** The queues of other keys only lose those served. */
  ghost predicate OthersKept(w0: Waiters, w: Waiters, k: Key, served: seq<Client>) {
    forall k' :: k' != k ==> WaitersOf(w, k') == LessAll(WaitersOf(w0, k'), served)
  }

  /** Each client served without a target gets one reply, from this key, in that order. */
  ghost predicate OneReplyEach(out0: seq<Delivery>, out: seq<Delivery>, b0: Blocked, k: Key, served: seq<Client>) {
    && out0 <= out
    && Recipients(out[|out0|..]) == Replied(b0, served)
    && forall i :: |out0| <= i < |out| ==> out[i].key == k
  }

  /** Nobody waits for the key with a target. */
  ghost predicate NoTargets(w: Waiters, b: Blocked, k: Key) {
    forall c :: c in WaitersOf(w, k) ==> c in b && Replies(b[c])
  }

  /** What was sent are the two ends of the collection. */
  ghost predicate FromTheEnds(elems0: seq<Elem>, elems: seq<Elem>, b0: Blocked, sent: seq<Delivery>) {
    elems0 == Fronts(b0, sent) + elems + Backs(b0, sent)
  }

  ghost predicate InTurn(s0: State, s: State, k: Key, served: seq<Client>) {
    k in s0.dict && s0.dict[k].Coll? ==>
      FirstOfKind(s0.waiters, s0.blocked, s.waiters, s.blocked, k, KindOf(s0.dict[k]), served)
  }

  /** If nobody waits with a target, everything sent comes from the ends. */
  ghost predicate Ends(s0: State, s: State, k: Key) {
    && |s0.out| <= |s.out|
    && (NoTargets(s0.waiters, s0.blocked, k) ==>
          && NoTargets(s.waiters, s.blocked, k)
          && FromTheEnds(ListAt(s0.dict, k), ListAt(s.dict, k), s0.blocked, s.out[|s0.out|..]))
  }

  ghost predicate Ordered(s0: State, s: State, k: Key, served: seq<Client>) {
    && Unchanged(s0.blocked, s.blocked)
    && InTurn(s0, s, k, served)
    && OthersKept(s0.waiters, s.waiters, k, served)
    && OneReplyEach(s0.out, s.out, s0.blocked, k, served)
    && Ends(s0, s, k)
  }

  lemma OrderStarts(s: State, k: Key)
    ensures Ordered(s, s, k, [])
  {
    assert s.out[|s.out|..] == [];
  }

  // ---------------------------------------------------------------------------
  // A client is served
  // ---------------------------------------------------------------------------

  /** Whoever is not in the queue does not matter to it. */
  lemma {:induction false} OfKindLess(q: seq<Client>, b: Blocked, c: Client, t: WaitType)
    requires c !in q
    ensures OfKind(q, b - {c}, t) == OfKind(q, b, t)
    decreases |q|
  {
    if q != [] { OfKindLess(q[1..], b, c, t); }
  }

  lemma {:induction false} OfKindSnoc(q: seq<Client>, c: Client, b: Blocked, t: WaitType)
    ensures OfKind(q + [c], b, t) == OfKind(q, b, t) + if c in b && b[c].wtype == t then [c] else []
    decreases |q|
  {
    if q == [] {
      assert [] + [c] == [c];
    } else {
      assert (q + [c])[1..] == q[1..] + [c] && (q + [c])[0] == q[0];
      OfKindSnoc(q[1..], c, b, t);
      assert OfKind(q, b, t) == (if q[0] in b && b[q[0]].wtype == t then [q[0]] else []) + OfKind(q[1..], b, t);
    }
  }

  lemma FirstTaken(q: seq<Client>, b: Blocked, t: WaitType)
    requires q != [] && NoDup(q) && q[0] in b && b[q[0]].wtype == t
    ensures [q[0]] + OfKind(q[1..], b - {q[0]}, t) == OfKind(q, b, t)
  {
    OfKindLess(q[1..], b, q[0], t);
  }

  lemma FirstMovedBack(q: seq<Client>, b: Blocked, t: WaitType)
    requires q != [] && q[0] in b && b[q[0]].wtype != t
    ensures OfKind(q[1..] + [q[0]], b, t) == OfKind(q, b, t)
  {
    OfKindSnoc(q[1..], q[0], b, t);
  }

  lemma {:induction false} WithoutAbsent(q: seq<Client>, c: Client)
    requires c !in q
    ensures Without(q, c) == q
    decreases |q|
  {
    if q != [] {
      WithoutAbsent(q[1..], c);
      assert q == [q[0]] + q[1..];
    }
  }

  lemma UnblockedLeavesQueue(w: Waiters, b: Blocked, c: Client, k: Key)
    requires Index(w, b) && c in b
    ensures WaitersOf(Removed(w, c, b[c].keys), k) == Without(WaitersOf(w, k), c)
  {
    if k !in b[c].keys { WithoutAbsent(WaitersOf(w, k), c); }
  }

  lemma LessAllSnoc(q: seq<Client>, gone: seq<Client>, c: Client)
    ensures LessAll(q, gone + [c]) == Without(LessAll(q, gone), c)
  {
    assert (gone + [c])[..|gone|] == gone;
  }

  lemma OthersKeptServed(w0: Waiters, w: Waiters, b: Blocked, k: Key, served: seq<Client>, c: Client)
    requires Index(w, b) && c in b && OthersKept(w0, w, k, served)
    ensures OthersKept(w0, Removed(w, c, b[c].keys), k, served + [c])
  {
    var w' := Removed(w, c, b[c].keys);
    forall k' | k' != k ensures WaitersOf(w', k') == LessAll(WaitersOf(w0, k'), served + [c]) {
      UnblockedLeavesQueue(w, b, c, k');
      LessAllSnoc(WaitersOf(w0, k'), served, c);
    }
  }

  lemma ServedNext(served: seq<Client>, c: Client, left: seq<Client>, all: seq<Client>)
    requires served + ([c] + left) == all
    ensures (served + [c]) + left == all
  {}

  lemma FirstOfKindServed(w0: Waiters, b0: Blocked, w: Waiters, b: Blocked, w': Waiters, k: Key, t: WaitType,
                          served: seq<Client>)
    requires FirstOfKind(w0, b0, w, b, k, t, served)
    requires k in w && w[k] != [] && NoDup(w[k]) && w[k][0] in b && b[w[k][0]].wtype == t
    requires WaitersOf(w', k) == w[k][1..]
    ensures FirstOfKind(w0, b0, w', b - {w[k][0]}, k, t, served + [w[k][0]])
  {
    FirstTaken(w[k], b, t);
    ServedNext(served, w[k][0], OfKind(w[k][1..], b - {w[k][0]}, t), OfKind(WaitersOf(w0, k), b0, t));
  }

  /** Serving adds at most one reply. */
  lemma ServeReplies(s: State, k: Key)
    requires CanServe(s, k)
    ensures var c := s.waiters[k][0]; var v, elems := s.blocked[c], s.dict[k].elems;
      ServeFirst(s, k).out == s.out + if Replies(v) then [Delivery(c, k, Popped(elems, v.head))] else []
  {
    assert s.out + [] == s.out;
  }

  lemma NewSnoc(out0: seq<Delivery>, out: seq<Delivery>, d: Delivery)
    requires out0 <= out
    ensures (out + [d])[|out0|..] == out[|out0|..] + [d]
    ensures var now := (out + [d])[|out0|..]; now[..|now| - 1] == out[|out0|..] && now[|now| - 1] == d
  {}

  lemma OneReplyServed(out0: seq<Delivery>, out: seq<Delivery>, b0: Blocked, k: Key, served: seq<Client>, c: Client, x: Elem)
    requires OneReplyEach(out0, out, b0, k, served) && c in b0
    ensures OneReplyEach(out0, out + if Replies(b0[c]) then [Delivery(c, k, x)] else [], b0, k, served + [c])
  {
    assert (served + [c])[..|served|] == served;
    if Replies(b0[c]) { NewSnoc(out0, out, Delivery(c, k, x)); } else { assert out + [] == out; }
  }

  lemma NoTargetsServed(w: Waiters, b: Blocked, w': Waiters, k: Key)
    requires k in w && w[k] != [] && NoDup(w[k]) && NoTargets(w, b, k) && WaitersOf(w', k) == w[k][1..]
    ensures NoTargets(w', b - {w[k][0]}, k)
  {
    var q := w[k];
    forall c | c in q[1..] ensures c in q && c != q[0] {
      var i :| 0 <= i < |q[1..]| && q[1..][i] == c;
      assert q[i + 1] == c;
    }
  }

  /** One element off the collection, at one end or the other. */
  lemma EndsPopped(fronts: seq<Elem>, elems: seq<Elem>, backs: seq<Elem>, head: bool)
    requires elems != []
    ensures var x, rest := Popped(elems, head), Rest(elems, head);
      fronts + elems + backs == if head then (fronts + [x]) + rest + backs else fronts + rest + ([x] + backs)
  {
    PopThenPush(elems, head);
  }

  lemma FrontsBacksSnoc(b: Blocked, d: seq<Delivery>, e: Delivery)
    ensures Fronts(b, d + [e]) == Fronts(b, d) + if PopsHead(b, e.client) then [e.elem] else []
    ensures Backs(b, d + [e]) == (if PopsHead(b, e.client) then [] else [e.elem]) + Backs(b, d)
  {
    assert (d + [e])[..|d|] == d;
  }

  lemma FromTheEndsServed(elems0: seq<Elem>, elems: seq<Elem>, b0: Blocked, sent: seq<Delivery>, c: Client, k: Key)
    requires FromTheEnds(elems0, elems, b0, sent) && elems != [] && c in b0
    ensures var head := b0[c].head;
      FromTheEnds(elems0, Rest(elems, head), b0, sent + [Delivery(c, k, Popped(elems, head))])
  {
    var d := Delivery(c, k, Popped(elems, b0[c].head));
    EndsPopped(Fronts(b0, sent), elems, Backs(b0, sent), b0[c].head);
    FrontsBacksSnoc(b0, sent, d);
    assert Fronts(b0, sent) + [] == Fronts(b0, sent) && [] + Backs(b0, sent) == Backs(b0, sent);
  }

  lemma EndsServed(s0: State, s: State, k: Key, served: seq<Client>)
    requires Index(s.waiters, s.blocked) && CanServe(s, k) && Ordered(s0, s, k, served)
    requires NoTargets(s0.waiters, s0.blocked, k)
    ensures Ends(s0, ServeFirst(s, k), k)
  {
    var c := s.waiters[k][0];
    assert c in WaitersOf(s.waiters, k);
    var v, elems := s.blocked[c], s.dict[k].elems;
    ServeTakesFirst(s, k);
    NoTargetsServed(s.waiters, s.blocked, ServeFirst(s, k).waiters, k);
    ServeDelivers(s, k);
    NewSnoc(s0.out, s.out, Delivery(c, k, Popped(elems, v.head)));
    FromTheEndsServed(ListAt(s0.dict, k), elems, s0.blocked, s.out[|s0.out|..], c, k);
  }

  lemma OrderServed(s0: State, s: State, k: Key, served: seq<Client>)
    requires Index(s.waiters, s.blocked) && CanServe(s, k) && Ordered(s0, s, k, served)
    requires k in s0.dict && s0.dict[k].Coll? && KindOf(s.dict[k]) == KindOf(s0.dict[k])
    ensures Ordered(s0, ServeFirst(s, k), k, served + [s.waiters[k][0]])
  {
    var c, r := s.waiters[k][0], ServeFirst(s, k);
    ServeTakesFirst(s, k);
    ServeWaitersAt(s, k);
    ServeReplies(s, k);
    FirstOfKindServed(s0.waiters, s0.blocked, s.waiters, s.blocked, r.waiters, k, KindOf(s0.dict[k]), served);
    OthersKeptServed(s0.waiters, s.waiters, s.blocked, k, served, c);
    OneReplyServed(s0.out, s.out, s0.blocked, k, served, c, Popped(s.dict[k].elems, s.blocked[c].head));
    if NoTargets(s0.waiters, s0.blocked, k) { EndsServed(s0, s, k, served); }
  }

  // ---------------------------------------------------------------------------
  // A client of another type moves to the end; the key is removed
  // ---------------------------------------------------------------------------

  lemma NoTargetsRotated(w: Waiters, b: Blocked, k: Key)
    requires k in w && w[k] != [] && NoTargets(w, b, k)
    ensures NoTargets(Rotated(w, k), b, k)
  {
    var q := w[k];
    forall c | c in q[1..] + [q[0]] ensures c in q {}
  }

  lemma OrderRotated(s0: State, s: State, k: Key, served: seq<Client>)
    requires Ordered(s0, s, k, served) && k in s.waiters
    requires k in s0.dict && s0.dict[k].Coll? && s.waiters[k] != []
    requires s.waiters[k][0] in s.blocked && s.blocked[s.waiters[k][0]].wtype != KindOf(s0.dict[k])
    ensures Ordered(s0, RotateFirst(s, k), k, served)
  {
    FirstMovedBack(s.waiters[k], s.blocked, KindOf(s0.dict[k]));
    if NoTargets(s0.waiters, s0.blocked, k) { NoTargetsRotated(s.waiters, s.blocked, k); }
  }

  lemma OrderCleaned(s0: State, s: State, k: Key, served: seq<Client>)
    requires Ordered(s0, s, k, served)
    ensures Ordered(s0, Cleaned(s, k), k, served)
  {}

  // ---------------------------------------------------------------------------
  // The whole loop over the waiters of a key
  // ---------------------------------------------------------------------------

  /** Exactly the clients served have left. */
  ghost predicate Released(s0: State, s: State, served: seq<Client>) {
    forall c :: c in s.blocked <==> c in s0.blocked && c !in served
  }

  ghost predicate CanRotate(s: State, k: Key) {
    && k in s.dict && s.dict[k].Coll? && k in s.waiters && s.waiters[k] != [] && s.waiters[k][0] in s.blocked
    && !Matches(s.dict[k], s.blocked[s.waiters[k][0]].wtype)
  }

  /** One turn of the loop. */
  ghost predicate Moves(s: State, s': State, k: Key) {
    (CanServe(s, k) && s' == ServeFirst(s, k)) || (CanRotate(s, k) && s' == RotateFirst(s, k))
  }

  ghost predicate MoveAt(path: seq<State>, k: Key, i: nat)
    requires i + 1 < |path|
  {
    Moves(path[i], path[i + 1], k)
  }

  /** The states of the loop, from `s0` to `s`. */
  ghost predicate Path(path: seq<State>, s0: State, s: State, k: Key) {
    && path != [] && path[0] == s0 && path[|path| - 1] == s
    && forall i: nat :: i + 1 < |path| ==> MoveAt(path, k, i)
  }

  ghost function ServedOn(path: seq<State>, k: Key): seq<Client>
    decreases |path|
  {
    if |path| < 2 then []
    else
      var s := path[|path| - 2];
      ServedOn(path[..|path| - 1], k) + if CanServe(s, k) then [s.waiters[k][0]] else []
  }

  lemma PathMore(path: seq<State>, s0: State, s: State, s': State, k: Key)
    requires Path(path, s0, s, k) && Moves(s, s', k)
    ensures Path(path + [s'], s0, s', k)
  {
    var longer := path + [s'];
    forall i: nat | i + 1 < |longer| ensures MoveAt(longer, k, i) {
      if i + 1 < |path| { assert MoveAt(path, k, i); }
    }
  }

  lemma PathLess(path: seq<State>, s0: State, s: State, k: Key)
    requires Path(path, s0, s, k) && |path| > 1
    ensures Path(path[..|path| - 1], s0, path[|path| - 2], k) && Moves(path[|path| - 2], s, k)
  {
    var shorter := path[..|path| - 1];
    forall i: nat | i + 1 < |shorter| ensures MoveAt(shorter, k, i) { assert MoveAt(path, k, i); }
    assert MoveAt(path, k, |path| - 2);
  }

  /** What every state of the loop keeps of the first. */
  ghost predicate Kept(s0: State, s: State, k: Key) {
    && Index(s.waiters, s.blocked)
    && k in s0.dict && s0.dict[k].Coll? && k in s.dict && s.dict[k].Coll? && KindOf(s.dict[k]) == KindOf(s0.dict[k])
  }

  lemma ServedKept(s0: State, s: State, k: Key)
    requires Kept(s0, s, k) && CanServe(s, k)
    ensures Kept(s0, ServeFirst(s, k), k)
  {
    var c := s.waiters[k][0];
    UnblockKeepsIndex(s.waiters, s.blocked, c);
    ServeWaitersAt(s, k);
    ServeTakesFirst(s, k);
    ServeKeepsKind(s, k);
  }

  lemma ReleasedServed(s0: State, s: State, k: Key, served: seq<Client>)
    requires Index(s.waiters, s.blocked) && CanServe(s, k) && Released(s0, s, served)
    ensures Released(s0, ServeFirst(s, k), served + [s.waiters[k][0]])
  {
    ServeTakesFirst(s, k);
  }

  lemma MovedOn(s0: State, s: State, s': State, k: Key, served: seq<Client>)
    requires Moves(s, s', k) && Kept(s0, s, k) && Ordered(s0, s, k, served) && Released(s0, s, served)
    ensures var served' := served + if CanServe(s, k) then [s.waiters[k][0]] else [];
      Kept(s0, s', k) && Ordered(s0, s', k, served') && Released(s0, s', served')
  {
    if CanServe(s, k) {
      ServedKept(s0, s, k);
      OrderServed(s0, s, k, served);
      ReleasedServed(s0, s, k, served);
    } else {
      RotateKeepsIndex(s.waiters, s.blocked, k);
      OrderRotated(s0, s, k, served);
      assert served + [] == served;
    }
  }

  /** The loop as a whole: exactly those served left, and they were served in order. */
  lemma {:induction false} PathOrdered(path: seq<State>, s0: State, s: State, k: Key)
    requires Path(path, s0, s, k) && Kept(s0, s0, k)
    ensures Kept(s0, s, k) && Ordered(s0, s, k, ServedOn(path, k)) && Released(s0, s, ServedOn(path, k))
    decreases |path|
  {
    if |path| == 1 {
      OrderStarts(s0, k);
    } else {
      PathLess(path, s0, s, k);
      PathOrdered(path[..|path| - 1], s0, path[|path| - 2], k);
      MovedOn(s0, path[|path| - 2], s, k, ServedOn(path[..|path| - 1], k));
    }
  }

  // ---------------------------------------------------------------------------
  // Everybody waits for the same type
  // ---------------------------------------------------------------------------

  lemma {:induction false} AllOfKind(q: seq<Client>, b: Blocked, t: WaitType)
    requires forall c :: c in q ==> c in b && b[c].wtype == t
    ensures OfKind(q, b, t) == q
    decreases |q|
  {
    if q != [] {
      assert q == [q[0]] + q[1..];
      forall c | c in q[1..] ensures c in q {}
      AllOfKind(q[1..], b, t);
    }
  }

  /** Then those served are the front of the queue. */
  ghost predicate FromTheFront(s0: State, s: State, k: Key, served: seq<Client>) {
    AllMatch(s0, k) ==> served + WaitersOf(s.waiters, k) == WaitersOf(s0.waiters, k)
  }

  lemma AllMatchAtFront(s0: State, s: State, k: Key, served: seq<Client>)
    requires Index(s0.waiters, s0.blocked) && Kept(s0, s, k) && Ordered(s0, s, k, served)
    ensures FromTheFront(s0, s, k, served)
  {
    if AllMatch(s0, k) {
      var t := KindOf(s0.dict[k]);
      AllOfKind(WaitersOf(s0.waiters, k), s0.blocked, t);
      forall c | c in WaitersOf(s.waiters, k) ensures c in s.blocked && s.blocked[c].wtype == t {
        assert c in s.blocked && k in s.blocked[c].keys;
        assert c in WaitersOf(s0.waiters, k);
      }
      AllOfKind(WaitersOf(s.waiters, k), s.blocked, t);
    }
  }
}
