/** processUnblockedClients (src/blocked.c): clients that were blocked are looked at again, and the
    commands they sent meanwhile are executed. Those commands may block the client anew and release
    others, which join the queue that is being worked through. */
module BlockedLoop {
  import opened Options
  import opened BlockedIndex
  import opened BlockedServe
  import opened BlockedQueue
  import opened Blocked

  /** A command as far as blocked clients are concerned. */
  datatype Request =
    | Blocks(t: WaitType, keys: seq<Key>, target: Option<Key>, head: bool)
    | Pushes(k: Key, xs: seq<Elem>, head: bool)
    | Sets(k: Key, v: Value)
    | Releases(c: Client)     // CLIENT UNBLOCK, CLIENT KILL
    | Other

  datatype Sent = Sent(c: Client, r: Request)

  ghost predicate AllStorable(input: seq<Sent>) {
    forall i :: 0 <= i < |input| ==> input[i].r.Sets? && input[i].r.v.Coll? ==> input[i].r.v.elems != []
  }

  // ---------------------------------------------------------------------------
  // The query buffers
  // ---------------------------------------------------------------------------

  /** What is left in the buffer of one client. */
  function BufferOf(input: seq<Sent>, c: Client): seq<Request>
    decreases |input|
  {
    if input == [] then []
    else (if input[0].c == c then [input[0].r] else []) + BufferOf(input[1..], c)
  }

  /** The position of its next request. */
  function Next(input: seq<Sent>, c: Client): (i: nat)
    ensures i <= |input| && (i < |input| ==> input[i].c == c) && forall j :: 0 <= j < i ==> input[j].c != c
    decreases |input|
  {
    if input == [] || input[0].c == c then 0
    else
      var i := 1 + Next(input[1..], c);
      assert forall j :: 0 < j < i ==> input[j] == input[1..][j - 1];
      i
  }

  function Took(input: seq<Sent>, i: nat): seq<Sent>
    requires i < |input|
  {
    input[..i] + input[i + 1..]
  }

  lemma {:induction false} BufferConcat(a: seq<Sent>, b: seq<Sent>, c: Client)
    ensures BufferOf(a + b, c) == BufferOf(a, c) + BufferOf(b, c)
    decreases |a|
  {
    if a == [] {
      assert a + b == b;
    } else {
      assert (a + b)[1..] == a[1..] + b && (a + b)[0] == a[0];
      BufferConcat(a[1..], b, c);
      Assoc(if a[0].c == c then [a[0].r] else [], BufferOf(a[1..], c), BufferOf(b, c));
    }
  }

  lemma Assoc(a: seq<Request>, b: seq<Request>, c: seq<Request>)
    ensures (a + b) + c == a + (b + c)
  {}

  lemma {:induction false} BufferEmpty(a: seq<Sent>, c: Client)
    requires forall j :: 0 <= j < |a| ==> a[j].c != c
    ensures BufferOf(a, c) == []
    decreases |a|
  {
    if a != [] { BufferEmpty(a[1..], c); }
  }

  /** Taking the next request of c shortens its buffer and no other. */
  lemma TookBuffers(input: seq<Sent>, c: Client, d: Client)
    requires Next(input, c) < |input|
    ensures var i := Next(input, c);
      if d == c then BufferOf(input, c) == [input[i].r] + BufferOf(Took(input, i), c)
      else BufferOf(input, d) == BufferOf(Took(input, i), d)
  {
    var i := Next(input, c);
    var before, after := input[..i], input[i + 1..];
    assert input == before + ([input[i]] + after);
    assert [input[i]][1..] == [];
    BufferConcat(before, [input[i]] + after, d);
    BufferConcat([input[i]], after, d);
    BufferConcat(before, after, d);
    if d == c { BufferEmpty(before, c); }
  }

  lemma NoRequest(input: seq<Sent>, c: Client)
    requires Next(input, c) == |input|
    ensures BufferOf(input, c) == []
  {
    BufferEmpty(input, c);
  }

  ghost predicate Suffix(a: seq<Request>, b: seq<Request>) {
    |a| <= |b| && a == b[|b| - |a|..]
  }

  lemma SuffixNext(a: seq<Request>, r: Request, b: seq<Request>)
    requires Suffix([r] + a, b)
    ensures Suffix(a, b)
  {
    assert a == ([r] + a)[1..];
  }

  // ---------------------------------------------------------------------------
  // One request
  // ---------------------------------------------------------------------------

  /** Only c may have been blocked, and whoever was released is queued behind the others. */
  ghost predicate Ran(o: State, s: State, c: Client) {
    && o.unblocked <= s.unblocked
    && (forall d :: d in s.blocked ==> d in o.blocked || d == c)
    && (forall d :: d in o.blocked && d !in s.blocked ==> d in s.unblocked)
  }

  /** What a request does, before the keys it made ready are handled. */
  ghost predicate Did(o: State, s: State, c: Client, r: Request) {
    match r
    case Blocks(t, keys, target, head) =>
      && s.blocked == o.blocked[c := Waiting(t, KeySet(keys), target, head)] && s.dict == o.dict && s.out == o.out
      && forall k :: WaitersOf(s.waiters, k) == WaitersOf(o.waiters, k) + if k in keys then [c] else []
    case Pushes(k, xs, head) =>
      && s.dict == (if TakesList(o.dict, k) then AfterPushes(o.dict, k, xs, head) else o.dict)
      && s.blocked == o.blocked && s.waiters == o.waiters && s.out == o.out
    case Sets(k, v) => s == SetValue(o, k, v)
    case Releases(d) => s == if d in o.blocked then Unblock(o, d) else o
    case Other => s == o
  }

  /** A request was executed: the state before, the state it made, the ready keys handled then. */
  datatype Executed = Executed(c: Client, r: Request, before: State, mid: State, turns: seq<Turn>)

  ghost predicate ExecutedOk(e: Executed) {
    Did(e.before, e.mid, e.c, e.r) && Turns(e.mid, e.turns) && (e.turns == [] ==> e.mid.ready == [])
  }

  ghost function StateAfter(s: State, log: seq<Executed>): State {
    if log == [] then s else After(log[|log| - 1].mid, log[|log| - 1].turns)
  }

  ghost predicate LogAt(s: State, log: seq<Executed>, i: nat)
    requires i < |log|
  {
    Same(StateAfter(s, log[..i]), log[i].before) && ExecutedOk(log[i])
  }

  /** From `s0` to `s` exactly the requests of the log were executed, one after the other. */
  ghost predicate Logged(s0: State, log: seq<Executed>, s: State) {
    (forall i: nat :: i < |log| ==> LogAt(s0, log, i)) && Same(StateAfter(s0, log), s)
  }

  lemma LoggedMore(s0: State, log: seq<Executed>, s: State, e: Executed, s': State)
    requires Logged(s0, log, s) && Same(s, e.before) && ExecutedOk(e) && After(e.mid, e.turns) == s'
    ensures Logged(s0, log + [e], s')
  {
    var longer := log + [e];
    forall i: nat | i < |longer| ensures LogAt(s0, longer, i) {
      if i < |log| {
        assert LogAt(s0, log, i);
        assert longer[..i] == log[..i];
      } else {
        assert longer[..i] == log;
      }
    }
  }

  /** The requests of one client that were executed, in order. */
  function RequestsOf(log: seq<Executed>, c: Client): seq<Request>
    decreases |log|
  {
    if log == [] then []
    else RequestsOf(log[..|log| - 1], c) + if log[|log| - 1].c == c then [log[|log| - 1].r] else []
  }

  /** Every buffer is what was executed of it followed by what is left. */
  ghost predicate ReadBy(input: seq<Sent>, log: seq<Executed>, left: seq<Sent>) {
    forall c :: BufferOf(input, c) == RequestsOf(log, c) + BufferOf(left, c)
  }

  lemma ReadByMore(input: seq<Sent>, log: seq<Executed>, left: seq<Sent>, e: Executed)
    requires ReadBy(input, log, left) && Next(left, e.c) < |left| && left[Next(left, e.c)].r == e.r
    ensures ReadBy(input, log + [e], Took(left, Next(left, e.c)))
  {
    var rest := Took(left, Next(left, e.c));
    forall d ensures BufferOf(input, d) == RequestsOf(log + [e], d) + BufferOf(rest, d) {
      TookBuffers(left, e.c, d);
      assert (log + [e])[..|log|] == log;
      if d == e.c {
        Assoc(RequestsOf(log, d), [e.r], BufferOf(rest, d));
      } else {
        assert RequestsOf(log, d) + [] == RequestsOf(log, d);
      }
    }
  }

  lemma ReadByNone(input: seq<Sent>)
    ensures ReadBy(input, [], input)
  {
    forall c ensures BufferOf(input, c) == RequestsOf([], c) + BufferOf(input, c) {
      assert [] + BufferOf(input, c) == BufferOf(input, c);
    }
  }

  lemma RanTwice(o: State, s: State, s': State, c: Client)
    requires Ran(o, s, c) && Ran(s, s', c)
    ensures Ran(o, s', c)
  {}

  /** processCommand for a request of c, with the ready keys it leaves behind. */
  method Execute(b: Blocking, c: Client, r: Request) returns (ghost e: Executed)
    requires Sound(b.View(), []) && c !in b.blocked && (r.Sets? && r.v.Coll? ==> r.v.elems != [])
    modifies b
    ensures Sound(b.View(), []) && b.ready == [] && Ran(old(b.View()), b.View(), c)
    ensures e.c == c && e.r == r && e.before == old(b.View()) && ExecutedOk(e) && After(e.mid, e.turns) == b.View()
  {
    ghost var o := b.View();
    ExecuteOnly(b, c, r);
    ghost var s := b.View();
    ghost var turns: seq<Turn> := [];
    if |b.ready| > 0 {
      turns := b.HandleClientsBlockedOnKeys();
      RanTwice(o, s, b.View(), c);
    }
    e := Executed(c, r, o, s, turns);
  }

  method ExecuteOnly(b: Blocking, c: Client, r: Request)
    requires Sound(b.View(), []) && c !in b.blocked && (r.Sets? && r.v.Coll? ==> r.v.elems != [])
    modifies b
    ensures Sound(b.View(), []) && Ran(old(b.View()), b.View(), c) && Did(old(b.View()), b.View(), c, r)
  {
    match r
    case Blocks(t, keys, target, head) => b.BlockForKeys(c, t, keys, target, head);
    case Pushes(k, xs, head) => b.PushGeneric(k, xs, head);
    case Sets(k, v) => b.SetKey(k, v);
    case Releases(d) => if d in b.blocked { b.UnblockClient(d); }
    case Other =>
  }

  // ---------------------------------------------------------------------------
  // One client
  // ---------------------------------------------------------------------------

  /** Requests of c were taken in order, and nothing else. */
  ghost predicate Consumed(input: seq<Sent>, left: seq<Sent>, c: Client) {
    && (forall d :: d != c ==> BufferOf(left, d) == BufferOf(input, d))
    && Suffix(BufferOf(left, c), BufferOf(input, c))
  }

  lemma ConsumeNext(input: seq<Sent>, left: seq<Sent>, c: Client)
    requires Consumed(input, left, c) && Next(left, c) < |left|
    ensures Consumed(input, Took(left, Next(left, c)), c)
  {
    var i := Next(left, c);
    forall d ensures if d == c then BufferOf(left, c) == [left[i].r] + BufferOf(Took(left, i), c)
                     else BufferOf(left, d) == BufferOf(Took(left, i), d)
    {
      TookBuffers(left, c, d);
    }
    SuffixNext(BufferOf(Took(left, i), c), left[i].r, BufferOf(input, c));
  }

  /** processInputBuffer: requests are executed until the client is blocked or sent no more. */
  method ProcessInput(b: Blocking, c: Client, input: seq<Sent>, ghost s0: State, ghost all: seq<Sent>, ghost log: seq<Executed>)
    returns (left: seq<Sent>, ghost log': seq<Executed>)
    requires Sound(b.View(), []) && AllStorable(input) && Logged(s0, log, b.View()) && ReadBy(all, log, input)
    modifies b
    ensures Sound(b.View(), []) && AllStorable(left) && Ran(old(b.View()), b.View(), c) && Consumed(input, left, c)
    ensures c in b.blocked || BufferOf(left, c) == []
    ensures |left| < |input| || (left == input && b.View() == old(b.View()))
    ensures old(b.ready) == [] ==> b.ready == []
    ensures Logged(s0, log', b.View()) && ReadBy(all, log', left)
  {
    left, log' := input, log;
    var i := Next(left, c);
    while c !in b.blocked && i < |left|
      invariant Sound(b.View(), []) && AllStorable(left) && Ran(old(b.View()), b.View(), c) && Consumed(input, left, c)
      invariant i == Next(left, c)
      invariant |left| < |input| || (left == input && b.View() == old(b.View()))
      invariant old(b.ready) == [] ==> b.ready == []
      invariant Logged(s0, log', b.View()) && ReadBy(all, log', left)
      decreases |left|
    {
      ghost var s := b.View();
      ConsumeNext(input, left, c);
      var r := left[i].r;
      ghost var had := left;
      left := Took(left, i);
      ghost var e := Execute(b, c, r);
      LoggedMore(s0, log', s, e, b.View());
      ReadByMore(all, log', had, e);
      log' := log' + [e];
      RanTwice(old(b.View()), s, b.View(), c);
      i := Next(left, c);
    }
    if i == |left| { NoRequest(left, c); }
  }

  // ---------------------------------------------------------------------------
  // The queue
  // ---------------------------------------------------------------------------

  /** Every client looked at is blocked, has sent nothing more, or is queued again. */
  ghost predicate LookedAt(order: seq<Client>, s: State, left: seq<Sent>) {
    forall c :: c in order ==> c in s.blocked || c in s.unblocked || BufferOf(left, c) == []
  }

  /** Buffers are only read from the front, and only of clients looked at. */
  ghost predicate ReadInOrder(order: seq<Client>, input: seq<Sent>, left: seq<Sent>) {
    && (forall c :: c !in order ==> BufferOf(left, c) == BufferOf(input, c))
    && (forall c :: Suffix(BufferOf(left, c), BufferOf(input, c)))
  }

  lemma LookedAtNext(order: seq<Client>, c: Client, o: State, s: State, left: seq<Sent>, left': seq<Sent>)
    requires o.unblocked != [] && o.unblocked[0] == c && LookedAt(order, o, left)
    requires Ran(o.(unblocked := o.unblocked[1..]), s, c) && Consumed(left, left', c)
    requires c in s.blocked || BufferOf(left', c) == []
    ensures LookedAt(order + [c], s, left')
  {
    forall d | d in order + [c] ensures d in s.blocked || d in s.unblocked || BufferOf(left', d) == [] {
      if d != c && d in o.unblocked {
        assert d in o.unblocked[1..];
        assert d in s.unblocked[..|o.unblocked| - 1];
      }
    }
  }

  lemma SuffixTwice(a: seq<Request>, b: seq<Request>, c: seq<Request>)
    requires Suffix(a, b) && Suffix(b, c)
    ensures Suffix(a, c)
  {}

  lemma ReadNext(order: seq<Client>, c: Client, input: seq<Sent>, left: seq<Sent>, left': seq<Sent>)
    requires ReadInOrder(order, input, left) && Consumed(left, left', c)
    ensures ReadInOrder(order + [c], input, left')
  {
    forall d ensures Suffix(BufferOf(left', d), BufferOf(input, d)) {
      if d == c { SuffixTwice(BufferOf(left', c), BufferOf(left, c), BufferOf(input, c)); }
    }
  }

  lemma QueueGoesOn(first: seq<Client>, order: seq<Client>, queue: seq<Client>, c: Client, longer: seq<Client>)
    requires first <= order + queue && queue != [] && queue[0] == c && queue[1..] <= longer
    ensures first <= order + [c] + longer
  {
    assert order + queue == order + [c] + queue[1..];
  }

  /** processUnblockedClients ends, works through the queue in order, and afterwards every client
      it looked at is blocked again or has no request left unread; `log` are the requests it
      executed, each client's in the order it sent them. */
  method ProcessUnblockedClients(b: Blocking, input: seq<Sent>)
    returns (left: seq<Sent>, order: seq<Client>, ghost log: seq<Executed>)
    requires Sound(b.View(), []) && AllStorable(input)
    modifies b
    ensures Sound(b.View(), []) && b.unblocked == [] && b.flagged == {} && (old(b.ready) == [] ==> b.ready == [])
    ensures old(b.unblocked) <= order
    ensures forall c :: c in order ==> c in b.blocked || BufferOf(left, c) == []
    ensures ReadInOrder(order, input, left)
    ensures Logged(old(b.View()), log, b.View()) && ReadBy(input, log, left)
  {
    left, order, log := input, [], [];
    ReadByNone(input);
    assert [] + b.unblocked == b.unblocked;
    while |b.unblocked| > 0
      invariant Sound(b.View(), []) && AllStorable(left) && (old(b.ready) == [] ==> b.ready == [])
      invariant old(b.unblocked) <= order + b.unblocked
      invariant LookedAt(order, b.View(), left) && ReadInOrder(order, input, left)
      invariant Logged(old(b.View()), log, b.View()) && ReadBy(input, log, left)
      decreases |left|, |b.unblocked|
    {
      left, order, log := LookAtNext(b, input, left, order, old(b.unblocked), old(b.View()), log);
    }
    assert order + [] == order;
  }

  /** One turn of the loop. */
  method LookAtNext(b: Blocking, ghost input: seq<Sent>, left: seq<Sent>, order: seq<Client>, ghost first: seq<Client>,
                    ghost s0: State, ghost log: seq<Executed>)
    returns (left': seq<Sent>, order': seq<Client>, ghost log': seq<Executed>)
    requires Sound(b.View(), []) && AllStorable(left) && |b.unblocked| > 0 && first <= order + b.unblocked
    requires LookedAt(order, b.View(), left) && ReadInOrder(order, input, left)
    requires Logged(s0, log, b.View()) && ReadBy(input, log, left)
    modifies b
    ensures Sound(b.View(), []) && AllStorable(left') && (old(b.ready) == [] ==> b.ready == [])
    ensures first <= order' + b.unblocked
    ensures LookedAt(order', b.View(), left') && ReadInOrder(order', input, left')
    ensures |left'| < |left| || (left' == left && |b.unblocked| < |old(b.unblocked)|)
    ensures Logged(s0, log', b.View()) && ReadBy(input, log', left')
  {
    ghost var o := b.View();
    var c := b.TakeUnblocked();
    left', log' := left, log;
    if c !in b.blocked {
      left', log' := ProcessInput(b, c, left, s0, input, log);
    }
    order' := order + [c];
    LookedAtNext(order, c, o, b.View(), left, left');
    ReadNext(order, c, input, left, left');
    QueueGoesOn(first, order, o.unblocked, c, b.unblocked);
  }
}
