/** Serving clients blocked on keys (src/blocked.c, src/t_list.c): the state the handlers work
    on, one turn of the serving loop, and what a turn keeps. */
module BlockedServe {
  import opened BlockedIndex
  import opened Options

  type Elem = string

  /** A list, a sorted set in ascending order, or any other type. */
  datatype Value = Coll(zset: bool, elems: seq<Elem>) | Plain

  type Dict = map<Key, Value>

  datatype Delivery = Delivery(client: Client, key: Key, elem: Elem)

  datatype Counters = Counters(total: int, list: int, zset: int, stream: int) {
    function Of(t: WaitType): int {
      match t
      case OnList => list
      case OnZSet => zset
      case OnStream => stream
    }

    function Plus(t: WaitType, n: int): Counters {
      match t
      case OnList => this.(total := total + n, list := list + n)
      case OnZSet => this.(total := total + n, zset := zset + n)
      case OnStream => this.(total := total + n, stream := stream + n)
    }
  }

  /** `ready` is server.ready_keys, `signaled` the per-database ready_keys dictionaries,
      `unblocked` and `flagged` the unblocked list and CLIENT_UNBLOCKED, `out` the replies. */
  datatype State = State(
    dict: Dict,
    waiters: Waiters,
    blocked: Blocked,
    ready: seq<Key>,
    signaled: set<Key>,
    counters: Counters,
    unblocked: seq<Client>,
    flagged: set<Client>,
    out: seq<Delivery>)

  // ---------------------------------------------------------------------------
  // Operations
  // ---------------------------------------------------------------------------

  /** queueClientForReprocessing. */
  function Queue(s: State, c: Client): State {
    if c in s.flagged then s else s.(flagged := s.flagged + {c}, unblocked := s.unblocked + [c])
  }

  /** unblockClient for a client waiting for data. */
  function Unblock(s: State, c: Client): State
    requires c in s.blocked
  {
    var v := s.blocked[c];
    Queue(s.(waiters := Removed(s.waiters, c, v.keys), blocked := s.blocked - {c}, counters := s.counters.Plus(v.wtype, -1)), c)
  }

  /** signalKeyAsReady. */
  function Signal(s: State, k: Key): State {
    if k !in s.waiters || k in s.signaled then s else s.(ready := s.ready + [k], signaled := s.signaled + {k})
  }

  function Popped(elems: seq<Elem>, head: bool): Elem
    requires elems != []
  {
    if head then elems[0] else elems[|elems| - 1]
  }

  function Rest(elems: seq<Elem>, head: bool): seq<Elem>
    requires elems != []
  {
    if head then elems[1..] else elems[..|elems| - 1]
  }

  function Pushed(elems: seq<Elem>, x: Elem, head: bool): seq<Elem> {
    if head then [x] + elems else elems + [x]
  }

  /** serveClientBlockedOnList for a popped element `x`: replied, pushed to the target, or
      pushed back where it came from when the target is not a list. */
  function Handed(s: State, k: Key, c: Client, v: Waiting, x: Elem, popped: seq<Elem>): State {
    if v.wtype != OnList || v.target.None? then s.(out := s.out + [Delivery(c, k, x)])
    else
      var d := v.target.value;
      if d !in s.dict then Signal(s.(dict := s.dict[d := Coll(false, [x])]), d)
      else if s.dict[d].Coll? && !s.dict[d].zset then
        s.(dict := s.dict[d := Coll(false, [x] + s.dict[d].elems)])
      else s.(dict := s.dict[k := Coll(false, Pushed(popped, x, v.head))])
  }

  predicate Matches(v: Value, t: WaitType) {
    v.Coll? && (if v.zset then t == OnZSet else t == OnList)
  }

  /** The first waiter of `k` can be served. */
  predicate CanServe(s: State, k: Key) {
    && k in s.dict && k in s.waiters && s.waiters[k] != [] && s.waiters[k][0] in s.blocked
    && Matches(s.dict[k], s.blocked[s.waiters[k][0]].wtype) && s.dict[k].elems != []
  }

  function ServeFirst(s: State, k: Key): State
    requires CanServe(s, k)
  {
    var c := s.waiters[k][0];
    var v := s.blocked[c];
    var elems := s.dict[k].elems;
    var x, popped := Popped(elems, v.head), Rest(elems, v.head);
    Handed(Unblock(s.(dict := s.dict[k := s.dict[k].(elems := popped)]), c), k, c, v, x, popped)
  }

  function RotateFirst(s: State, k: Key): State
    requires k in s.waiters && s.waiters[k] != []
  {
    s.(waiters := Rotated(s.waiters, k))
  }

  /** An emptied collection is removed. */
  function Cleaned(s: State, k: Key): State {
    if k in s.dict && s.dict[k].Coll? && s.dict[k].elems == [] then s.(dict := s.dict - {k}) else s
  }

  // ---------------------------------------------------------------------------
  // Invariants
  // ---------------------------------------------------------------------------

  ghost predicate ReadyOk(ready: seq<Key>, signaled: set<Key>) {
    NoDup(ready) && forall k :: k in ready <==> k in signaled
  }

  ghost predicate CountersOk(b: Blocked, n: Counters) {
    n.total == |b| && forall t :: n.Of(t) == |OfType(b, t)|
  }

  ghost predicate QueueOk(unblocked: seq<Client>, flagged: set<Client>) {
    NoDup(unblocked) && forall c :: c in unblocked <==> c in flagged
  }

  /** Keys, waiters, counters and queues all agree; `todo` are keys taken off the ready list
      that are still to be handled. */
  ghost predicate Inv(s: State, todo: seq<Key>) {
    && Index(s.waiters, s.blocked)
    && ReadyOk(todo + s.ready, s.signaled)
    && CountersOk(s.blocked, s.counters)
    && QueueOk(s.unblocked, s.flagged)
  }

  lemma QueueKeeps(s: State, c: Client)
    requires QueueOk(s.unblocked, s.flagged)
    ensures QueueOk(Queue(s, c).unblocked, Queue(s, c).flagged)
  {
    if c !in s.flagged { NoDupSnoc(s.unblocked, c); }
  }

  lemma CountersRemove(b: Blocked, n: Counters, c: Client)
    requires CountersOk(b, n) && c in b
    ensures CountersOk(b - {c}, n.Plus(b[c].wtype, -1))
  {
    forall t ensures n.Plus(b[c].wtype, -1).Of(t) == |OfType(b - {c}, t)| {
      CountRemove(b, c, t);
    }
    CountRemove(b, c, OnList);
  }

  lemma CountersAdd(b: Blocked, n: Counters, c: Client, v: Waiting)
    requires CountersOk(b, n) && c !in b
    ensures CountersOk(b[c := v], n.Plus(v.wtype, 1))
  {
    forall t ensures n.Plus(v.wtype, 1).Of(t) == |OfType(b[c := v], t)| {
      CountAdd(b, c, v, t);
    }
    CountAdd(b, c, v, OnList);
  }

  lemma UnblockKeeps(s: State, c: Client, todo: seq<Key>)
    requires Inv(s, todo) && c in s.blocked
    ensures Inv(Unblock(s, c), todo) && |Unblock(s, c).blocked| == |s.blocked| - 1
  {
    UnblockKeepsIndex(s.waiters, s.blocked, c);
    CountersRemove(s.blocked, s.counters, c);
    CountRemove(s.blocked, c, OnList);
    QueueKeeps(s, c);
  }

  lemma SignalKeeps(s: State, k: Key, todo: seq<Key>)
    requires Inv(s, todo)
    ensures Inv(Signal(s, k), todo)
  {
    if k in s.waiters && k !in s.signaled {
      NoDupSnoc(todo + s.ready, k);
      assert (todo + s.ready) + [k] == todo + (s.ready + [k]);
    }
  }

  lemma HandedKeeps(s: State, k: Key, c: Client, v: Waiting, x: Elem, popped: seq<Elem>, todo: seq<Key>)
    requires Inv(s, todo)
    ensures var r := Handed(s, k, c, v, x, popped);
      Inv(r, todo) && r.waiters == s.waiters && r.blocked == s.blocked
  {
    if v.wtype == OnList && v.target.Some? && v.target.value !in s.dict {
      SignalKeeps(s.(dict := s.dict[v.target.value := Coll(false, [x])]), v.target.value, todo);
    }
  }

  lemma ServeKeeps(s: State, k: Key, todo: seq<Key>)
    requires Inv(s, todo) && CanServe(s, k)
    ensures Inv(ServeFirst(s, k), todo) && |ServeFirst(s, k).blocked| == |s.blocked| - 1
  {
    var c := s.waiters[k][0];
    var v, elems := s.blocked[c], s.dict[k].elems;
    var popped := Rest(elems, v.head);
    var s1 := s.(dict := s.dict[k := s.dict[k].(elems := popped)]);
    UnblockKeeps(s1, c, todo);
    HandedKeeps(Unblock(s1, c), k, c, v, Popped(elems, v.head), popped, todo);
  }

  lemma RotateKeeps(s: State, k: Key, todo: seq<Key>)
    requires Inv(s, todo) && k in s.waiters
    ensures s.waiters[k] != [] && Inv(RotateFirst(s, k), todo)
  {
    RotateKeepsIndex(s.waiters, s.blocked, k);
  }

  // ---------------------------------------------------------------------------
  // No element is lost
  // ---------------------------------------------------------------------------

  function Contents(v: Value): multiset<Elem> {
    if v.Coll? then multiset(v.elems) else multiset{}
  }

  ghost function Total(m: Dict): multiset<Elem> {
    if m == map[] then multiset{} else var k :| k in m; Contents(m[k]) + Total(m - {k})
  }

  lemma RemoveSmaller(m: Dict, k: Key)
    requires k in m
    ensures |m - {k}| < |m|
  {
    assert (m - {k}).Keys == m.Keys - {k};
  }

  lemma SwapTotals(a: multiset<Elem>, b: multiset<Elem>, rest: multiset<Elem>)
    ensures a + (b + rest) == b + (a + rest)
  {}

  lemma {:induction false} TotalRemove(m: Dict, k: Key)
    requires k in m
    ensures Total(m) == Contents(m[k]) + Total(m - {k})
    decreases |m|
  {
    var p :| p in m && Total(m) == Contents(m[p]) + Total(m - {p});
    if p != k {
      RemoveSmaller(m, p);
      RemoveSmaller(m, k);
      var a, b := m - {p}, m - {k};
      TotalRemove(a, k);
      TotalRemove(b, p);
      assert a - {k} == b - {p};
      SwapTotals(Contents(m[p]), Contents(m[k]), Total(a - {k}));
    }
  }

  lemma TotalUpdate(m: Dict, k: Key, v: Value)
    ensures Total(m[k := v]) == Contents(v) + Total(m - {k})
    ensures k in m ==> Total(m) == Contents(m[k]) + Total(m - {k})
    ensures k !in m ==> m - {k} == m
  {
    TotalRemove(m[k := v], k);
    assert m[k := v] - {k} == m - {k};
    if k in m { TotalRemove(m, k); }
  }

  function Delivered(out: seq<Delivery>): multiset<Elem>
    decreases |out|
  {
    if out == [] then multiset{} else multiset{out[|out| - 1].elem} + Delivered(out[..|out| - 1])
  }

  /** Everything stored or handed out. */
  ghost function AllElements(s: State): multiset<Elem> {
    Total(s.dict) + Delivered(s.out)
  }

  lemma DeliveredSnoc(out: seq<Delivery>, d: Delivery)
    ensures Delivered(out + [d]) == Delivered(out) + multiset{d.elem}
  {
    assert (out + [d])[..|out|] == out;
  }

  lemma PopConserves(elems: seq<Elem>, head: bool)
    requires elems != []
    ensures multiset(elems) == multiset(Rest(elems, head)) + multiset{Popped(elems, head)}
  {
    if head { assert elems == [elems[0]] + elems[1..]; } else { assert elems == elems[..|elems| - 1] + [elems[|elems| - 1]]; }
  }

  lemma PushConserves(elems: seq<Elem>, x: Elem, head: bool)
    ensures multiset(Pushed(elems, x, head)) == multiset(elems) + multiset{x}
  {}

  lemma TotalGrow(m: Dict, k: Key, v: Value, x: Elem)
    requires Contents(v) == (if k in m then Contents(m[k]) else multiset{}) + multiset{x}
    ensures Total(m[k := v]) == Total(m) + multiset{x}
  {
    TotalUpdate(m, k, v);
  }

  /** The popped element is not in the dictionary any more; handing it over puts it in a reply,
      in the target or back. */
  lemma HandedConserves(s: State, k: Key, c: Client, v: Waiting, x: Elem, popped: seq<Elem>)
    requires k in s.dict && Matches(s.dict[k], v.wtype) && s.dict[k].elems == popped
    ensures AllElements(Handed(s, k, c, v, x, popped)) == AllElements(s) + multiset{x}
  {
    if v.wtype != OnList || v.target.None? {
      DeliveredSnoc(s.out, Delivery(c, k, x));
      assert Total(s.dict) + (Delivered(s.out) + multiset{x}) == AllElements(s) + multiset{x};
    } else {
      HandedGrows(s, k, c, v, x, popped);
    }
  }

  lemma HandedGrows(s: State, k: Key, c: Client, v: Waiting, x: Elem, popped: seq<Elem>)
    requires k in s.dict && s.dict[k] == Coll(false, popped) && v.wtype == OnList && v.target.Some?
    ensures var r := Handed(s, k, c, v, x, popped);
      r.out == s.out && Total(r.dict) == Total(s.dict) + multiset{x}
  {
    var d := v.target.value;
    if d !in s.dict {
      assert multiset([x]) == multiset{x};
      TotalGrow(s.dict, d, Coll(false, [x]), x);
    } else if s.dict[d].Coll? && !s.dict[d].zset {
      PushConserves(s.dict[d].elems, x, true);
      TotalGrow(s.dict, d, Coll(false, [x] + s.dict[d].elems), x);
    } else {
      PushConserves(popped, x, v.head);
      TotalGrow(s.dict, k, Coll(false, Pushed(popped, x, v.head)), x);
    }
  }

  lemma ServeConserves(s: State, k: Key)
    requires CanServe(s, k)
    ensures AllElements(ServeFirst(s, k)) == AllElements(s)
  {
    var c := s.waiters[k][0];
    var v, elems := s.blocked[c], s.dict[k].elems;
    var x, popped := Popped(elems, v.head), Rest(elems, v.head);
    var s1 := s.(dict := s.dict[k := s.dict[k].(elems := popped)]);
    PopConserves(elems, v.head);
    TotalUpdate(s.dict, k, s.dict[k].(elems := popped));
    HandedConserves(Unblock(s1, c), k, c, v, x, popped);
  }

  lemma CleanConserves(s: State, k: Key)
    ensures AllElements(Cleaned(s, k)) == AllElements(s)
  {
    if k in s.dict { TotalRemove(s.dict, k); }
  }
}
