/** The rewritten log (src/aof.c): the commands rewriteAppendOnlyFileRio emits for a dataset,
    the bytes the writer produces for them, and the dataset that replaying them rebuilds. */
module AofRebuild {
  import opened AofBytes
  import opened AofCodec
  import opened AofData
  import opened Options

  const ITEMS_PER_CMD: nat := 64

  // ---------------------------------------------------------------------------
  // Commands for one aggregate
  // ---------------------------------------------------------------------------

  function Flat(items: seq<Argv>): Argv
    decreases |items|
  {
    if items == [] then [] else items[0] + Flat(items[1..])
  }

  ghost predicate AllWide(kind: Kind, items: seq<Argv>) {
    forall i :: 0 <= i < |items| ==> |items[i]| == Width(kind)
  }

  function ChunkSize(n: nat): (r: nat)
    ensures r <= n && (n > 0 ==> r > 0)
  {
    if n > ITEMS_PER_CMD then ITEMS_PER_CMD else n
  }

  function ChunkCommand(kind: Kind, key: Bytes, items: seq<Argv>): Argv {
    [AddName(kind), key] + Flat(items)
  }

  /** An aggregate as commands of at most 64 items. */
  function ChunkCommands(kind: Kind, key: Bytes, items: seq<Argv>): seq<Argv>
    decreases |items|
  {
    if items == [] then []
    else
      var n := ChunkSize(|items|);
      [ChunkCommand(kind, key, items[..n])] + ChunkCommands(kind, key, items[n..])
  }

  lemma {:induction false} FlatLength(kind: Kind, items: seq<Argv>)
    requires AllWide(kind, items)
    ensures |Flat(items)| == |items| * Width(kind)
    decreases |items|
  {
    if items != [] { FlatLength(kind, items[1..]); }
  }

  lemma {:induction false} FlatConcat(a: seq<Argv>, b: seq<Argv>)
    ensures Flat(a + b) == Flat(a) + Flat(b)
    decreases |a|
  {
    if a == [] {
      assert a + b == b;
    } else {
      assert (a + b)[1..] == a[1..] + b;
      FlatConcat(a[1..], b);
      assert a[0] + (Flat(a[1..]) + Flat(b)) == (a[0] + Flat(a[1..])) + Flat(b);
    }
  }

  lemma {:induction false} BulksConcat(a: Argv, b: Argv)
    ensures Bulks(a + b) == Bulks(a) + Bulks(b)
    decreases |a|
  {
    if a == [] {
      assert a + b == b;
    } else {
      assert (a + b)[1..] == a[1..] + b;
      BulksConcat(a[1..], b);
      Assoc(Bulk(a[0]), Bulks(a[1..]), Bulks(b));
    }
  }

  // ---------------------------------------------------------------------------
  // The writer
  // ---------------------------------------------------------------------------

  /** The text that opens a command of `n` items. */
  function Opening(kind: Kind, key: Bytes, n: nat): Bytes {
    Head(STAR, 2 + n * Width(kind)) + Bulk(AddName(kind)) + Bulk(key)
  }

  /** How many of the `left` items belong to a command that has `count` already. */
  function OpenItems(count: nat, left: nat): nat
    requires count < ITEMS_PER_CMD
  {
    if ITEMS_PER_CMD - count < left then ITEMS_PER_CMD - count else left
  }

  /** What is still to be written inside an open command and after it. */
  function InChunk(kind: Kind, key: Bytes, left: seq<Argv>, count: nat): Bytes
    requires count < ITEMS_PER_CMD
  {
    var m := OpenItems(count, |left|);
    Bulks(Flat(left[..m])) + EncodeAll(ChunkCommands(kind, key, left[m..]))
  }

  /** What the item loop has still to write with `count` items of a command written. */
  function Remaining(kind: Kind, key: Bytes, left: seq<Argv>, count: nat): Bytes
    requires count < ITEMS_PER_CMD
  {
    if count == 0 then EncodeAll(ChunkCommands(kind, key, left)) else InChunk(kind, key, left, count)
  }

  lemma TwoBulks(a: Bytes, b: Bytes, c: Argv)
    ensures Bulks([a, b] + c) == Bulk(a) + (Bulk(b) + Bulks(c))
  {
    assert ([a, b] + c)[1..] == [b] + c && ([b] + c)[1..] == c;
    assert Bulks([b] + c) == Bulk(b) + Bulks(c);
  }

  lemma AssocFour(a: Bytes, b: Bytes, c: Bytes, d: Bytes)
    ensures a + (b + (c + d)) == (a + b + c) + d
  {}

  /** The announced argument count is the number of arguments that follow. */
  lemma EncodeChunk(kind: Kind, key: Bytes, items: seq<Argv>)
    requires AllWide(kind, items)
    ensures Encode(ChunkCommand(kind, key, items)) == Opening(kind, key, |items|) + Bulks(Flat(items))
  {
    FlatLength(kind, items);
    TwoBulks(AddName(kind), key, Flat(items));
    AssocFour(Head(STAR, 2 + |Flat(items)|), Bulk(AddName(kind)), Bulk(key), Bulks(Flat(items)));
  }

  lemma EncodeAllCons(cmd: Argv, cmds: seq<Argv>)
    ensures EncodeAll([cmd] + cmds) == Encode(cmd) + EncodeAll(cmds)
  {
    assert ([cmd] + cmds)[1..] == cmds;
  }

  /** Opening a command leaves its items, then the other commands. */
  lemma OpenStep(kind: Kind, key: Bytes, left: seq<Argv>, n: nat, out: Bytes)
    requires left != [] && n == ChunkSize(|left|) && AllWide(kind, left)
    ensures out + Remaining(kind, key, left, 0) == (out + Opening(kind, key, n)) + InChunk(kind, key, left, 0)
  {
    EncodeChunk(kind, key, left[..n]);
    EncodeAllCons(ChunkCommand(kind, key, left[..n]), ChunkCommands(kind, key, left[n..]));
    Assoc(Opening(kind, key, n), Bulks(Flat(left[..n])), EncodeAll(ChunkCommands(kind, key, left[n..])));
    Assoc(out, Opening(kind, key, n), InChunk(kind, key, left, 0));
  }

  lemma BulksOfFirst(left: seq<Argv>, m: nat)
    requires 0 < m <= |left|
    ensures Bulks(Flat(left[..m])) == Bulks(left[0]) + Bulks(Flat(left[1..][..m - 1]))
  {
    assert left[..m][1..] == left[1..][..m - 1];
    BulksConcat(left[0], Flat(left[1..][..m - 1]));
  }

  function NextCount(count: nat): nat
    requires count < ITEMS_PER_CMD
  {
    if count + 1 == ITEMS_PER_CMD then 0 else count + 1
  }

  /** Writing one item of an open command. */
  lemma ItemStep(kind: Kind, key: Bytes, left: seq<Argv>, count: nat, out: Bytes)
    requires left != [] && count < ITEMS_PER_CMD
    ensures out + InChunk(kind, key, left, count) ==
            (out + Bulks(left[0])) + Remaining(kind, key, left[1..], NextCount(count))
  {
    var m := OpenItems(count, |left|);
    var inner, others := Bulks(Flat(left[1..][..m - 1])), EncodeAll(ChunkCommands(kind, key, left[m..]));
    BulksOfFirst(left, m);
    Assoc(Bulks(left[0]), inner, others);
    assert left[m..] == left[1..][m - 1..];
    assert NextCount(count) == 0 ==> inner == [] && [] + others == others;
    Assoc(out, Bulks(left[0]), inner + others);
  }

  /** One turn of the item loop: a header if a command starts here, then the item. */
  lemma Turn(kind: Kind, key: Bytes, left: seq<Argv>, count: nat, out: Bytes, all: Bytes)
    requires left != [] && AllWide(kind, left) && count < ITEMS_PER_CMD
    requires out + Remaining(kind, key, left, count) == all
    ensures var start := if count == 0 then out + Opening(kind, key, ChunkSize(|left|)) else out;
      (start + Bulks(left[0])) + Remaining(kind, key, left[1..], NextCount(count)) == all
  {
    if count == 0 {
      OpenStep(kind, key, left, ChunkSize(|left|), out);
      ItemStep(kind, key, left, count, out + Opening(kind, key, ChunkSize(|left|)));
    } else {
      ItemStep(kind, key, left, count, out);
    }
  }

  /** rewriteListObject, rewriteSetObject, rewriteSortedSetObject and rewriteHashObject: the
      loop over an aggregate's items, with its two counters. */
  method RewriteItems(dst: Bytes, kind: Kind, key: Bytes, items: seq<Argv>) returns (out: Bytes)
    requires AllWide(kind, items)
    ensures out == dst + EncodeAll(ChunkCommands(kind, key, items))
  {
    out := dst;
    var count, itemsLeft := 0, |items|;
    ghost var all := dst + Remaining(kind, key, items, 0);
    assert items[0..] == items;
    for i := 0 to |items|
      invariant itemsLeft == |items| - i && count < ITEMS_PER_CMD
      invariant out + Remaining(kind, key, items[i..], count) == all
    {
      assert items[i..][1..] == items[i + 1..];
      out := WriteItem(out, kind, key, items[i], count, itemsLeft, items[i..], all);
      count := count + 1;
      if count == ITEMS_PER_CMD { count := 0; }
      itemsLeft := itemsLeft - 1;
    }
    NothingRemains(kind, key, count);
    assert items[|items|..] == [] && out + [] == out;
  }

  /** The body of the item loop. */
  method WriteItem(dst: Bytes, kind: Kind, key: Bytes, item: Argv, count: nat, itemsLeft: nat, ghost left: seq<Argv>,
                   ghost all: Bytes) returns (out: Bytes)
    requires AllWide(kind, left) && count < ITEMS_PER_CMD && itemsLeft == |left| > 0 && item == left[0]
    requires dst + Remaining(kind, key, left, count) == all
    ensures out + Remaining(kind, key, left[1..], NextCount(count)) == all
  {
    Turn(kind, key, left, count, dst, all);
    out := dst;
    if count == 0 {
      var cmdItems := if itemsLeft > ITEMS_PER_CMD then ITEMS_PER_CMD else itemsLeft;
      out := out + Opening(kind, key, cmdItems);
    }
    out := out + Bulks(item);
  }

  lemma NothingRemains(kind: Kind, key: Bytes, count: nat)
    requires count < ITEMS_PER_CMD
    ensures Remaining(kind, key, [], count) == []
  {
    var none: seq<Argv> := [];
    assert none[..0] == [] && none[0..] == [];
  }

  // ---------------------------------------------------------------------------
  // Replaying one aggregate
  // ---------------------------------------------------------------------------

  lemma {:induction false} AddArgsConcat(kind: Kind, v: Option<Value>, a: Argv, b: Argv)
    requires Fits(kind, v) && |a| % Width(kind) == 0
    ensures AddArgs(kind, v, a + b) == AddArgs(kind, AddArgs(kind, v, a), b)
    decreases |a|
  {
    var w := Width(kind);
    if |a| < w {
      assert a + b == b;
    } else {
      assert (a + b)[..w] == a[..w] && (a + b)[w..] == a[w..] + b;
      AddArgsConcat(kind, AddItem(kind, v, a[..w]), a[w..], b);
    }
  }

  lemma ExecChunk(sem: Semantics, db: Db, kind: Kind, key: Bytes, items: seq<Argv>)
    requires items != [] && AllWide(kind, items) && Fits(kind, ValueOf(db, key))
    ensures ExecDb(sem, db, ChunkCommand(kind, key, items)) ==
            db[key := Entry(AddArgs(kind, ValueOf(db, key), Flat(items)).value, ExpireOf(db, key))]
  {
    Names();
    FlatLength(kind, items);
    var argv := ChunkCommand(kind, key, items);
    assert argv[0] == AddName(kind) && argv[1] == key && argv[2..] == Flat(items);
    assert |items| * Width(kind) % Width(kind) == 0;
  }

  ghost predicate ReplaysTo(sem: Semantics, db: Db, cmds: seq<Argv>, key: Bytes, v: Option<Value>, expire: Option<int>) {
    v.Some? && ExecDbAll(sem, db, cmds) == db[key := Entry(v.value, expire)]
  }

  lemma ReplayCons(sem: Semantics, db: Db, cmd: Argv, mid: Db, cmds: seq<Argv>, key: Bytes, v: Option<Value>, expire: Option<int>)
    requires mid.Keys == db.Keys + {key} && (forall k :: k in db && k != key ==> mid[k] == db[k])
    requires ExecDb(sem, db, cmd) == mid && ReplaysTo(sem, mid, cmds, key, v, expire)
    ensures ReplaysTo(sem, db, [cmd] + cmds, key, v, expire)
  {
    assert ([cmd] + cmds)[1..] == cmds;
    assert mid[key := Entry(v.value, expire)] == db[key := Entry(v.value, expire)];
  }

  lemma SplitAdds(kind: Kind, v: Option<Value>, first: seq<Argv>, others: seq<Argv>)
    requires Fits(kind, v) && AllWide(kind, first)
    ensures AddArgs(kind, v, Flat(first + others)) == AddArgs(kind, AddArgs(kind, v, Flat(first)), Flat(others))
  {
    FlatConcat(first, others);
    FlatLength(kind, first);
    assert |first| * Width(kind) % Width(kind) == 0;
    AddArgsConcat(kind, v, Flat(first), Flat(others));
  }

  lemma AddsSomething(kind: Kind, v: Option<Value>, items: seq<Argv>)
    requires Fits(kind, v) && AllWide(kind, items) && items != []
    ensures AddArgs(kind, v, Flat(items)).Some?
  {
    FlatLength(kind, items);
  }

  /** Replaying the chunks adds all items, however they were split. */
  lemma {:induction false} ChunksReplay(sem: Semantics, db: Db, kind: Kind, key: Bytes, items: seq<Argv>, v: Option<Value>)
    requires items != [] && AllWide(kind, items) && Fits(kind, ValueOf(db, key))
    requires v == AddArgs(kind, ValueOf(db, key), Flat(items))
    ensures ReplaysTo(sem, db, ChunkCommands(kind, key, items), key, v, ExpireOf(db, key))
    decreases |items|
  {
    var n := ChunkSize(|items|);
    var first, others := items[..n], items[n..];
    var cmd, cmds := ChunkCommand(kind, key, first), ChunkCommands(kind, key, others);
    assert items == first + others;
    ExecChunk(sem, db, kind, key, first);
    SplitAdds(kind, ValueOf(db, key), first, others);
    AddsSomething(kind, ValueOf(db, key), first);
    AddsSomething(kind, ValueOf(db, key), items);
    var mid := ExecDb(sem, db, cmd);
    if others == [] {
      LastChunk(sem, mid, key, v, ExpireOf(db, key));
    } else {
      ChunksReplay(sem, mid, kind, key, others, v);
    }
    ReplayCons(sem, db, cmd, mid, cmds, key, v, ExpireOf(db, key));
  }

  lemma LastChunk(sem: Semantics, mid: Db, key: Bytes, v: Option<Value>, expire: Option<int>)
    requires v.Some? && key in mid && mid[key] == Entry(v.value, expire)
    ensures ReplaysTo(sem, mid, [], key, v, expire)
  {
    assert mid[key := mid[key]] == mid;
  }

  // ---------------------------------------------------------------------------
  // Iterating over a value
  // ---------------------------------------------------------------------------

  function KindOf(v: Value): Kind
    requires !v.Str?
  {
    match v
    case List(_) => ListKind
    case Set(_) => SetKind
    case ZSet(_) => ZSetKind
    case Hash(_) => HashKind
  }

  /** No aggregate is ever stored empty. */
  predicate Stored(v: Value) {
    match v
    case Str(_) => true
    case List(xs) => xs != []
    case Set(s) => s != {}
    case ZSet(m) => m != map[]
    case Hash(m) => m != map[]
  }

  ghost predicate Pairs(m: map<Bytes, Bytes>, items: seq<Argv>, k: nat)
    requires k < 2
  {
    && |items| == |m|
    && (forall i :: 0 <= i < |items| ==> |items[i]| == 2 && items[i][k] in m && items[i][1 - k] == m[items[i][k]])
    && (forall x :: x in m ==> exists i :: 0 <= i < |items| && |items[i]| == 2 && items[i][k] == x)
  }

  /** `items` are the elements of `v` in some order an iterator may give them. */
  ghost predicate Iterates(v: Value, items: seq<Argv>) {
    match v
    case Str(_) => items == []
    case List(xs) => |items| == |xs| && forall i :: 0 <= i < |xs| ==> items[i] == [xs[i]]
    case Set(s) =>
      && |items| == |s|
      && (forall i :: 0 <= i < |items| ==> |items[i]| == 1 && items[i][0] in s)
      && (forall x :: x in s ==> exists i :: 0 <= i < |items| && |items[i]| == 1 && items[i][0] == x)
    case ZSet(m) => Pairs(m, items, 1)
    case Hash(m) => Pairs(m, items, 0)
  }

  function Empty(kind: Kind): Value {
    match kind
    case ListKind => List([])
    case SetKind => Set({})
    case ZSetKind => ZSet(map[])
    case HashKind => Hash(map[])
  }

  function AddItems(kind: Kind, v: Option<Value>, items: seq<Argv>): (r: Option<Value>)
    requires Fits(kind, v) && AllWide(kind, items)
    ensures Fits(kind, r)
    decreases |items|
  {
    if items == [] then v else AddItems(kind, AddItem(kind, v, items[0]), items[1..])
  }

  lemma {:induction false} AddArgsOfFlat(kind: Kind, v: Option<Value>, items: seq<Argv>)
    requires Fits(kind, v) && AllWide(kind, items)
    ensures AddArgs(kind, v, Flat(items)) == AddItems(kind, v, items)
    decreases |items|
  {
    if items != [] {
      assert Flat(items)[..Width(kind)] == items[0] && Flat(items)[Width(kind)..] == Flat(items[1..]);
      AddArgsOfFlat(kind, AddItem(kind, v, items[0]), items[1..]);
    }
  }

  lemma FromNothing(kind: Kind, items: seq<Argv>)
    requires AllWide(kind, items) && items != []
    ensures AddItems(kind, None, items) == AddItems(kind, Some(Empty(kind)), items)
  {
    var v: Option<Value> := None;
    assert AddItem(kind, v, items[0]) == AddItem(kind, Some(Empty(kind)), items[0]);
  }

  lemma {:induction false} AddsList(done: seq<Bytes>, items: seq<Argv>, xs: seq<Bytes>)
    requires AllWide(ListKind, items) && |items| == |xs| && forall i :: 0 <= i < |xs| ==> items[i] == [xs[i]]
    ensures AddItems(ListKind, Some(List(done)), items) == Some(List(done + xs))
    decreases |items|
  {
    if items == [] {
      assert done + xs == done;
    } else {
      AddsList(done + [xs[0]], items[1..], xs[1..]);
      assert done + [xs[0]] + xs[1..] == done + xs;
    }
  }

  lemma {:induction false} AddsSet(done: set<Bytes>, items: seq<Argv>, s: set<Bytes>)
    requires AllWide(SetKind, items) && done <= s
    requires forall i :: 0 <= i < |items| ==> items[i][0] in s
    requires forall x :: x in s && x !in done ==> exists i :: 0 <= i < |items| && items[i][0] == x
    ensures AddItems(SetKind, Some(Set(done)), items) == Some(Set(s))
    decreases |items|
  {
    if items == [] {
      assert done == s;
    } else {
      var more := done + {items[0][0]};
      forall x | x in s && x !in more ensures exists i :: 0 <= i < |items[1..]| && items[1..][i][0] == x {
        var i :| 0 <= i < |items| && items[i][0] == x;
        assert items[1..][i - 1] == items[i];
      }
      AddsSet(more, items[1..], s);
    }
  }

  /** The pairs still to be added to `done` complete it to `m`. */
  ghost predicate Completes(m: map<Bytes, Bytes>, items: seq<Argv>, k: nat, done: map<Bytes, Bytes>)
    requires k < 2
  {
    && (forall i :: 0 <= i < |items| ==> |items[i]| == 2 && items[i][k] in m && items[i][1 - k] == m[items[i][k]])
    && (forall x :: x in m && x !in done ==> exists i :: 0 <= i < |items| && |items[i]| == 2 && items[i][k] == x)
    && (forall x :: x in done ==> x in m && m[x] == done[x])
  }

  lemma CompletesNext(m: map<Bytes, Bytes>, items: seq<Argv>, k: nat, done: map<Bytes, Bytes>)
    requires k < 2 && items != [] && Completes(m, items, k, done)
    ensures Completes(m, items[1..], k, done[items[0][k] := items[0][1 - k]])
  {
    var more := done[items[0][k] := items[0][1 - k]];
    forall x | x in m && x !in more
      ensures exists i :: 0 <= i < |items[1..]| && |items[1..][i]| == 2 && items[1..][i][k] == x
    {
      var i :| 0 <= i < |items| && |items[i]| == 2 && items[i][k] == x;
      assert items[1..][i - 1] == items[i];
    }
  }

  lemma {:induction false} AddsScores(done: map<Bytes, Bytes>, items: seq<Argv>, m: map<Bytes, Bytes>)
    requires AllWide(ZSetKind, items) && Completes(m, items, 1, done)
    ensures AddItems(ZSetKind, Some(ZSet(done)), items) == Some(ZSet(m))
    decreases |items|
  {
    if items == [] {
      assert done == m;
    } else {
      CompletesNext(m, items, 1, done);
      AddsScores(done[items[0][1] := items[0][0]], items[1..], m);
    }
  }

  lemma {:induction false} AddsFields(done: map<Bytes, Bytes>, items: seq<Argv>, m: map<Bytes, Bytes>)
    requires AllWide(HashKind, items) && Completes(m, items, 0, done)
    ensures AddItems(HashKind, Some(Hash(done)), items) == Some(Hash(m))
    decreases |items|
  {
    if items == [] {
      assert done == m;
    } else {
      CompletesNext(m, items, 0, done);
      AddsFields(done[items[0][0] := items[0][1]], items[1..], m);
    }
  }

  lemma IterationIsWide(v: Value, items: seq<Argv>)
    requires !v.Str? && Stored(v) && Iterates(v, items)
    ensures items != [] && AllWide(KindOf(v), items)
  {}

  /** Adding the items of any iteration to nothing gives the value back. */
  lemma IterationRebuilds(v: Value, items: seq<Argv>)
    requires !v.Str? && Stored(v) && Iterates(v, items)
    ensures items != [] && AllWide(KindOf(v), items)
    ensures AddArgs(KindOf(v), None, Flat(items)) == Some(v)
  {
    IterationIsWide(v, items);
    AddArgsOfFlat(KindOf(v), None, items);
    FromNothing(KindOf(v), items);
    match v
    case List(xs) => AddsList([], items, xs); assert [] + xs == xs;
    case Set(s) => AddsSet({}, items, s);
    case ZSet(m) => AddsScores(map[], items, m);
    case Hash(m) => AddsFields(map[], items, m);
  }

  // ---------------------------------------------------------------------------
  // One key
  // ---------------------------------------------------------------------------

  /** getExpire answers -1 for "no expire", so a stored -1 is not written. */
  function Written(e: Entry): Entry {
    if e.expire == Some(-1) then e.(expire := None) else e
  }

  function ValueCommands(key: Bytes, v: Value, items: seq<Argv>): seq<Argv> {
    if v.Str? then [[SET, key, v.text]] else ChunkCommands(KindOf(v), key, items)
  }

  function ExpireCommands(key: Bytes, e: Entry): seq<Argv> {
    if Written(e).expire.Some? then [ExpireAtCommand(key, e.expire.value)] else []
  }

  function KeyCommands(key: Bytes, e: Entry, items: seq<Argv>): seq<Argv> {
    ValueCommands(key, e.value, items) + ExpireCommands(key, e)
  }

  lemma ValueReplays(sem: Semantics, db: Db, key: Bytes, v: Value, items: seq<Argv>)
    requires key !in db && Stored(v) && Iterates(v, items)
    ensures ExecDbAll(sem, db, ValueCommands(key, v, items)) == db[key := Entry(v, None)]
  {
    if v.Str? {
      Names();
      var cmd := [SET, key, v.text];
      assert [cmd][1..] == [];
    } else {
      IterationRebuilds(v, items);
      ChunksReplay(sem, db, KindOf(v), key, items, Some(v));
    }
  }

  lemma ExpireReplays(sem: Semantics, db: Db, key: Bytes, e: Entry)
    requires key in db && db[key] == Entry(e.value, None)
    ensures ExecDbAll(sem, db, ExpireCommands(key, e)) == db[key := Written(e)]
  {
    if Written(e).expire.Some? {
      var cmd := ExpireAtCommand(key, e.expire.value);
      ExecExpireAt(sem, db, key, e.expire.value);
      assert [cmd][1..] == [];
    } else {
      assert db[key := db[key]] == db;
    }
  }

  lemma KeyReplays(sem: Semantics, db: Db, key: Bytes, e: Entry, items: seq<Argv>)
    requires key !in db && Stored(e.value) && Iterates(e.value, items)
    ensures ExecDbAll(sem, db, KeyCommands(key, e, items)) == db[key := Written(e)]
  {
    ValueReplays(sem, db, key, e.value, items);
    var mid := db[key := Entry(e.value, None)];
    ExecDbAllConcat(sem, db, ValueCommands(key, e.value, items), ExpireCommands(key, e));
    ExpireReplays(sem, mid, key, e);
    assert mid[key := Written(e)] == db[key := Written(e)];
  }

  // ---------------------------------------------------------------------------
  // One database
  // ---------------------------------------------------------------------------

  /** A key and the order in which its items come out. */
  datatype Visit = Visit(key: Bytes, items: seq<Argv>)

  ghost predicate Visits(db: Db, order: seq<Visit>) {
    && (forall i :: 0 <= i < |order| ==>
          order[i].key in db && Stored(db[order[i].key].value) && Iterates(db[order[i].key].value, order[i].items))
    && (forall i, j :: 0 <= i < j < |order| ==> order[i].key != order[j].key)
  }

  /** The database iterator visits every key once. */
  ghost predicate Covers(db: Db, order: seq<Visit>) {
    Visits(db, order) && forall k :: k in db ==> exists i :: 0 <= i < |order| && order[i].key == k
  }

  function DbCommands(db: Db, order: seq<Visit>): seq<Argv>
    requires forall i :: 0 <= i < |order| ==> order[i].key in db
    decreases |order|
  {
    if order == [] then []
    else KeyCommands(order[0].key, db[order[0].key], order[0].items) + DbCommands(db, order[1..])
  }

  function WrittenDb(db: Db): Db {
    map k | k in db :: Written(db[k])
  }

  /** `done` holds the visited part of the database. */
  ghost predicate Rest(db: Db, done: Db, order: seq<Visit>) {
    && (forall k :: k in done ==> k in db && done[k] == Written(db[k]))
    && (forall i :: 0 <= i < |order| ==> order[i].key !in done)
    && (forall k :: k in db && k !in done ==> exists i :: 0 <= i < |order| && order[i].key == k)
  }

  lemma VisitsTail(db: Db, order: seq<Visit>)
    requires order != [] && Visits(db, order)
    ensures Visits(db, order[1..])
  {
    assert forall i :: 0 <= i < |order[1..]| ==> order[1..][i] == order[i + 1];
  }

  lemma RestNext(db: Db, done: Db, order: seq<Visit>, key: Bytes)
    requires order != [] && order[0].key == key && key in db && Rest(db, done, order)
    requires forall j :: 0 < j < |order| ==> key != order[j].key
    ensures Rest(db, done[key := Written(db[key])], order[1..])
  {
    var more := done[key := Written(db[key])];
    forall k | k in db && k !in more ensures exists i :: 0 <= i < |order[1..]| && order[1..][i].key == k {
      var i :| 0 <= i < |order| && order[i].key == k;
      assert order[1..][i - 1] == order[i];
    }
  }

  lemma {:induction false} DbReplays(sem: Semantics, db: Db, done: Db, order: seq<Visit>)
    requires Visits(db, order) && Rest(db, done, order)
    ensures ExecDbAll(sem, done, DbCommands(db, order)) == WrittenDb(db)
    decreases |order|
  {
    if order == [] {
      assert done == WrittenDb(db);
    } else {
      var v := order[0];
      KeyReplays(sem, done, v.key, db[v.key], v.items);
      ExecDbAllConcat(sem, done, KeyCommands(v.key, db[v.key], v.items), DbCommands(db, order[1..]));
      VisitsTail(db, order);
      RestNext(db, done, order, v.key);
      DbReplays(sem, db, done[v.key := Written(db[v.key])], order[1..]);
    }
  }
}
