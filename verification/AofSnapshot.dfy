/** The snapshot part of a rewritten log: rewriteAppendOnlyFileRio over all databases (src/aof.c),
    and what replaying it into an empty server gives. */
module AofSnapshot {
  import opened AofBytes
  import opened AofCodec
  import opened AofData
  import opened Options
  import opened AofRebuild
  import AofLoad

  ghost predicate AllCover(dbs: seq<Db>, orders: seq<seq<Visit>>) {
    |orders| == |dbs| && forall i :: 0 <= i < |dbs| ==> Covers(dbs[i], orders[i])
  }

  /** The commands for one database: nothing if it is empty, else SELECT and its keys. */
  ghost function SelectedCommands(j: nat, db: Db, order: seq<Visit>): seq<Argv>
    requires Covers(db, order)
  {
    if db == map[] then [] else [SelectCommand(j)] + DbCommands(db, order)
  }

  /** The commands for the databases from `j` on. */
  ghost function CommandsFrom(dbs: seq<Db>, orders: seq<seq<Visit>>, j: nat): seq<Argv>
    requires AllCover(dbs, orders) && j <= |dbs|
    decreases |dbs| - j
  {
    if j == |dbs| then [] else SelectedCommands(j, dbs[j], orders[j]) + CommandsFrom(dbs, orders, j + 1)
  }

  ghost function Snapshot(dbs: seq<Db>, orders: seq<seq<Visit>>): seq<Argv>
    requires AllCover(dbs, orders)
  {
    CommandsFrom(dbs, orders, 0)
  }

  // ---------------------------------------------------------------------------
  // Replay
  // ---------------------------------------------------------------------------

  lemma ChunkIsNoSelect(kind: Kind, key: Bytes, items: seq<Argv>)
    ensures NoSelect([ChunkCommand(kind, key, items)])
  {
    Names();
    assert ChunkCommand(kind, key, items)[0] == AddName(kind);
  }

  lemma {:induction false} ChunksAreNoSelect(kind: Kind, key: Bytes, items: seq<Argv>)
    ensures NoSelect(ChunkCommands(kind, key, items))
    decreases |items|
  {
    if items != [] {
      ChunkIsNoSelect(kind, key, items[..ChunkSize(|items|)]);
      ChunksAreNoSelect(kind, key, items[ChunkSize(|items|)..]);
    }
  }

  lemma KeyIsNoSelect(key: Bytes, e: Entry, items: seq<Argv>)
    ensures NoSelect(KeyCommands(key, e, items))
  {
    Names();
    if !e.value.Str? { ChunksAreNoSelect(KindOf(e.value), key, items); }
  }

  lemma {:induction false} DbIsNoSelect(db: Db, order: seq<Visit>)
    requires forall i :: 0 <= i < |order| ==> order[i].key in db
    ensures NoSelect(DbCommands(db, order))
    decreases |order|
  {
    if order != [] {
      KeyIsNoSelect(order[0].key, db[order[0].key], order[0].items);
      DbIsNoSelect(db, order[1..]);
    }
  }

  lemma SelectedReplays(sem: Semantics, s: State, j: nat, db: Db, order: seq<Visit>)
    requires Covers(db, order) && j < |s.dbs| && s.dbs[j] == map[]
    ensures ExecAll(sem, s, SelectedCommands(j, db, order)).dbs == s.dbs[j := WrittenDb(db)]
  {
    if db == map[] {
      assert s.dbs[j := map[]] == s.dbs;
    } else {
      var select, cmds := SelectCommand(j), DbCommands(db, order);
      ExecSelect(sem, s, j);
      assert ([select] + cmds)[1..] == cmds;
      DbIsNoSelect(db, order);
      ExecAllInDb(sem, s.(cur := j), cmds);
      DbReplays(sem, db, map[], order);
    }
  }

  /** The databases up to `j` are rebuilt, the others are empty. */
  ghost predicate RebuiltUpTo(s: State, dbs: seq<Db>, j: nat) {
    && |s.dbs| == |dbs|
    && (forall i :: 0 <= i < j && i < |dbs| ==> s.dbs[i] == WrittenDb(dbs[i]))
    && (forall i :: j <= i < |dbs| ==> s.dbs[i] == map[])
  }

  lemma {:induction false} CommandsReplay(sem: Semantics, s: State, dbs: seq<Db>, orders: seq<seq<Visit>>, j: nat)
    requires AllCover(dbs, orders) && j <= |dbs| && RebuiltUpTo(s, dbs, j)
    ensures RebuiltUpTo(ExecAll(sem, s, CommandsFrom(dbs, orders, j)), dbs, |dbs|)
    decreases |dbs| - j
  {
    if j < |dbs| {
      SelectedReplays(sem, s, j, dbs[j], orders[j]);
      ExecAllConcat(sem, s, SelectedCommands(j, dbs[j], orders[j]), CommandsFrom(dbs, orders, j + 1));
      CommandsReplay(sem, ExecAll(sem, s, SelectedCommands(j, dbs[j], orders[j])), dbs, orders, j + 1);
    }
  }

  function NoDbs(n: nat): seq<Db> {
    seq(n, i => map[])
  }

  function WrittenDbs(dbs: seq<Db>): seq<Db> {
    seq(|dbs|, i requires 0 <= i < |dbs| => WrittenDb(dbs[i]))
  }

  /** Replaying the snapshot into an empty server rebuilds every database, in whatever order
      keys and elements were visited; only an expire time of -1 is not carried over. */
  lemma SnapshotRebuilds(sem: Semantics, dbs: seq<Db>, orders: seq<seq<Visit>>, cur: nat)
    requires AllCover(dbs, orders)
    ensures ExecAll(sem, State(NoDbs(|dbs|), cur), Snapshot(dbs, orders)).dbs == WrittenDbs(dbs)
  {
    CommandsReplay(sem, State(NoDbs(|dbs|), cur), dbs, orders, 0);
  }

  ghost predicate NoMinusOne(dbs: seq<Db>) {
    forall i, k :: 0 <= i < |dbs| && k in dbs[i] ==> dbs[i][k].expire != Some(-1)
  }

  /** The rebuilt dataset is the original exactly when no key is stored with expire time -1,
      the value that getExpire uses for "none". */
  lemma SnapshotIsExactIff(sem: Semantics, dbs: seq<Db>, orders: seq<seq<Visit>>, cur: nat)
    requires AllCover(dbs, orders)
    ensures ExecAll(sem, State(NoDbs(|dbs|), cur), Snapshot(dbs, orders)).dbs == dbs <==> NoMinusOne(dbs)
  {
    SnapshotRebuilds(sem, dbs, orders, cur);
    if NoMinusOne(dbs) {
      forall i | 0 <= i < |dbs| ensures WrittenDb(dbs[i]) == dbs[i] {}
    } else {
      var i, k :| 0 <= i < |dbs| && k in dbs[i] && dbs[i][k].expire == Some(-1);
      assert WrittenDbs(dbs)[i] == WrittenDb(dbs[i]) && WrittenDb(dbs[i])[k] != dbs[i][k];
    }
  }

  // ---------------------------------------------------------------------------
  // The writer
  // ---------------------------------------------------------------------------

  /** A set iterator. */
  method IterateSet(s: set<Bytes>) returns (items: seq<Argv>)
    ensures Iterates(Set(s), items)
  {
    var left := s;
    items := [];
    while left != {}
      invariant left <= s && |items| + |left| == |s|
      invariant forall i :: 0 <= i < |items| ==> |items[i]| == 1 && items[i][0] in s
      invariant forall x :: x in s && x !in left ==> exists i :: 0 <= i < |items| && |items[i]| == 1 && items[i][0] == x
      decreases |left|
    {
      var x :| x in left;
      ghost var before := items;
      left := left - {x};
      items := items + [[x]];
      assert forall i :: 0 <= i < |before| ==> items[i] == before[i];
      assert items[|before|][0] == x;
    }
  }

  /** A dictionary iterator; `k` says which half of a pair is the key. */
  method IterateMap(m: map<Bytes, Bytes>, k: nat) returns (items: seq<Argv>)
    requires k < 2
    ensures Pairs(m, items, k)
  {
    var left := m.Keys;
    items := [];
    while left != {}
      invariant left <= m.Keys && |items| + |left| == |m|
      invariant forall i :: 0 <= i < |items| ==> |items[i]| == 2 && items[i][k] in m && items[i][1 - k] == m[items[i][k]]
      invariant forall x :: x in m && x !in left ==> exists i :: 0 <= i < |items| && |items[i]| == 2 && items[i][k] == x
      decreases |left|
    {
      var x :| x in left;
      ghost var before := items;
      left := left - {x};
      items := items + [if k == 0 then [x, m[x]] else [m[x], x]];
      assert forall i :: 0 <= i < |before| ==> items[i] == before[i];
      assert items[|before|][k] == x;
    }
  }

  method IterateValue(v: Value) returns (items: seq<Argv>)
    ensures Iterates(v, items)
  {
    match v
    case Str(_) => items := [];
    case List(xs) => items := seq(|xs|, i requires 0 <= i < |xs| => [xs[i]]);
    case Set(s) => items := IterateSet(s);
    case ZSet(m) => items := IterateMap(m, 1);
    case Hash(m) => items := IterateMap(m, 0);
  }

  lemma EncodeOne(cmd: Argv)
    ensures EncodeAll([cmd]) == Encode(cmd)
  {
    assert [cmd][1..] == [] && Encode(cmd) + [] == Encode(cmd);
  }

  /** The body of the key loop: the value, then its expire time unless it reads -1. */
  method RewriteKey(dst: Bytes, key: Bytes, e: Entry) returns (out: Bytes, ghost items: seq<Argv>)
    requires Stored(e.value)
    ensures Iterates(e.value, items)
    ensures out == dst + EncodeAll(KeyCommands(key, e, items))
  {
    var order := IterateValue(e.value);
    items := order;
    if e.value.Str? {
      out := AofLoad.CatGenericCommand(dst, [SET, key, e.value.text]);
      EncodeOne([SET, key, e.value.text]);
    } else {
      IterationIsWide(e.value, order);
      out := RewriteItems(dst, KindOf(e.value), key, order);
    }
    var expireTime := if e.expire.Some? then e.expire.value else -1;
    ghost var value := ValueCommands(key, e.value, items);
    AofLoad.EncodeAllConcat(value, ExpireCommands(key, e));
    Assoc(dst, EncodeAll(value), EncodeAll(ExpireCommands(key, e)));
    if expireTime != -1 {
      out := AofLoad.CatGenericCommand(out, ExpireAtCommand(key, expireTime));
      EncodeOne(ExpireAtCommand(key, expireTime));
    } else {
      assert out + [] == out;
    }
  }

  /** The iterator has visited all keys but those in `left`. */
  ghost predicate Visited(db: Db, order: seq<Visit>, left: set<Bytes>) {
    && Visits(db, order) && left <= db.Keys
    && (forall i :: 0 <= i < |order| ==> order[i].key !in left)
    && (forall k :: k in db && k !in left ==> exists i :: 0 <= i < |order| && order[i].key == k)
  }

  lemma VisitsSnoc(db: Db, order: seq<Visit>, v: Visit)
    requires Visits(db, order) && v.key in db && Stored(db[v.key].value) && Iterates(db[v.key].value, v.items)
    requires forall i :: 0 <= i < |order| ==> order[i].key != v.key
    ensures Visits(db, order + [v])
  {
    var more := order + [v];
    assert forall i :: 0 <= i < |order| ==> more[i] == order[i];
    assert more[|order|] == v;
  }

  lemma VisitedNext(db: Db, order: seq<Visit>, left: set<Bytes>, v: Visit)
    requires Visited(db, order, left) && v.key in left
    requires Stored(db[v.key].value) && Iterates(db[v.key].value, v.items)
    ensures Visited(db, order + [v], left - {v.key})
  {
    VisitsSnoc(db, order, v);
    var more := order + [v];
    forall k | k in db && k !in left - {v.key} ensures exists i :: 0 <= i < |more| && more[i].key == k {
      if k == v.key {
        assert more[|order|].key == k;
      } else {
        var i :| 0 <= i < |order| && order[i].key == k;
        assert more[i].key == k;
      }
    }
  }

  lemma {:induction false} DbCommandsSnoc(db: Db, order: seq<Visit>, v: Visit)
    requires v.key in db && forall i :: 0 <= i < |order| ==> order[i].key in db
    ensures (forall i :: 0 <= i < |order + [v]| ==> (order + [v])[i].key in db)
    ensures DbCommands(db, order + [v]) == DbCommands(db, order) + KeyCommands(v.key, db[v.key], v.items)
    decreases |order|
  {
    if order == [] {
      assert order + [v] == [v] && [v][1..] == [];
      assert KeyCommands(v.key, db[v.key], v.items) + [] == [] + KeyCommands(v.key, db[v.key], v.items);
    } else {
      assert (order + [v])[1..] == order[1..] + [v];
      DbCommandsSnoc(db, order[1..], v);
      var a := KeyCommands(order[0].key, db[order[0].key], order[0].items);
      AssocCommands(a, DbCommands(db, order[1..]), KeyCommands(v.key, db[v.key], v.items));
    }
  }

  lemma AssocCommands(a: seq<Argv>, b: seq<Argv>, c: seq<Argv>)
    ensures (a + b) + c == a + (b + c)
  {}

  lemma EncodeMore(dst: Bytes, done: seq<Argv>, more: seq<Argv>)
    ensures (dst + EncodeAll(done)) + EncodeAll(more) == dst + EncodeAll(done + more)
  {
    AofLoad.EncodeAllConcat(done, more);
    Assoc(dst, EncodeAll(done), EncodeAll(more));
  }

  /** The key loop over one database. */
  method RewriteDb(dst: Bytes, db: Db) returns (out: Bytes, ghost order: seq<Visit>)
    requires forall k :: k in db ==> Stored(db[k].value)
    ensures Covers(db, order)
    ensures out == dst + EncodeAll(DbCommands(db, order))
  {
    var left := db.Keys;
    out, order := dst, [];
    assert dst + [] == dst;
    while left != {}
      invariant Visited(db, order, left)
      invariant out == dst + EncodeAll(DbCommands(db, order))
      decreases |left|
    {
      var key :| key in left;
      ghost var items;
      out, items := RewriteKey(out, key, db[key]);
      ghost var v := Visit(key, items);
      EncodeMore(dst, DbCommands(db, order), KeyCommands(key, db[key], items));
      DbCommandsSnoc(db, order, v);
      VisitedNext(db, order, left, v);
      order, left := order + [v], left - {key};
    }
  }

  /** One turn of the database loop; an empty database is skipped. */
  method RewriteSelected(dst: Bytes, j: nat, db: Db) returns (out: Bytes, ghost order: seq<Visit>)
    requires forall k :: k in db ==> Stored(db[k].value)
    ensures Covers(db, order)
    ensures out == dst + EncodeAll(SelectedCommands(j, db, order))
  {
    if db == map[] {
      assert dst + [] == dst;
      return dst, [];
    }
    out := AofLoad.CatGenericCommand(dst, SelectCommand(j));
    EncodeOne(SelectCommand(j));
    out, order := RewriteDb(out, db);
    EncodeMore(dst, [SelectCommand(j)], DbCommands(db, order));
  }

  /** The first databases are covered. */
  ghost predicate FirstCover(dbs: seq<Db>, orders: seq<seq<Visit>>) {
    |orders| <= |dbs| && forall i :: 0 <= i < |orders| ==> Covers(dbs[i], orders[i])
  }

  /** The commands for the first databases. */
  ghost function CommandsUpTo(dbs: seq<Db>, orders: seq<seq<Visit>>): seq<Argv>
    requires FirstCover(dbs, orders)
    decreases |orders|
  {
    if orders == [] then []
    else
      var j := |orders| - 1;
      CommandsUpTo(dbs, orders[..j]) + SelectedCommands(j, dbs[j], orders[j])
  }

  lemma FirstCoverNext(dbs: seq<Db>, orders: seq<seq<Visit>>, order: seq<Visit>)
    requires FirstCover(dbs, orders) && |orders| < |dbs| && Covers(dbs[|orders|], order)
    ensures FirstCover(dbs, orders + [order])
  {
    var more := orders + [order];
    forall i | 0 <= i < |more| ensures Covers(dbs[i], more[i]) {
      if i < |orders| { assert more[i] == orders[i]; }
    }
  }

  lemma UpToNext(dbs: seq<Db>, orders: seq<seq<Visit>>, order: seq<Visit>, more: seq<seq<Visit>>, last: seq<Argv>)
    requires FirstCover(dbs, orders) && |orders| < |dbs| && Covers(dbs[|orders|], order)
    requires FirstCover(dbs, more) && more == orders + [order] && last == SelectedCommands(|orders|, dbs[|orders|], order)
    ensures EncodeAll(CommandsUpTo(dbs, orders)) + EncodeAll(last) == EncodeAll(CommandsUpTo(dbs, more))
  {
    assert more[..|orders|] == orders && more[|orders|] == order;
    assert CommandsUpTo(dbs, more) == CommandsUpTo(dbs, orders) + last;
    AofLoad.EncodeAllConcat(CommandsUpTo(dbs, orders), last);
  }

  lemma {:induction false} UpToIsSnapshot(dbs: seq<Db>, orders: seq<seq<Visit>>, j: nat)
    requires AllCover(dbs, orders) && j <= |dbs|
    ensures CommandsUpTo(dbs, orders[..j]) + CommandsFrom(dbs, orders, j) == Snapshot(dbs, orders)
  {
    if j == 0 {
      assert [] + Snapshot(dbs, orders) == Snapshot(dbs, orders);
    } else {
      UpToIsSnapshot(dbs, orders, j - 1);
      assert orders[..j][..j - 1] == orders[..j - 1];
      AssocCommands(CommandsUpTo(dbs, orders[..j - 1]), SelectedCommands(j - 1, dbs[j - 1], orders[j - 1]),
                    CommandsFrom(dbs, orders, j));
    }
  }

  lemma AllUpTo(dbs: seq<Db>, orders: seq<seq<Visit>>)
    requires AllCover(dbs, orders)
    ensures CommandsUpTo(dbs, orders) == Snapshot(dbs, orders)
  {
    UpToIsSnapshot(dbs, orders, |dbs|);
    assert orders[..|dbs|] == orders;
    assert CommandsUpTo(dbs, orders) + [] == CommandsUpTo(dbs, orders);
  }

  /** rewriteAppendOnlyFileRio: the encoded snapshot, for some order of the keys and elements. */
  method RewriteAppendOnlyFileRio(dbs: seq<Db>) returns (out: Bytes)
    requires forall i, k :: 0 <= i < |dbs| && k in dbs[i] ==> Stored(dbs[i][k].value)
    ensures exists orders :: AllCover(dbs, orders) && out == EncodeAll(Snapshot(dbs, orders))
  {
    out := [];
    ghost var orders: seq<seq<Visit>> := [];
    for j := 0 to |dbs|
      invariant |orders| == j && FirstCover(dbs, orders)
      invariant out == EncodeAll(CommandsUpTo(dbs, orders))
    {
      ghost var order;
      out, order := RewriteSelected(out, j, dbs[j]);
      FirstCoverNext(dbs, orders, order);
      UpToNext(dbs, orders, order, orders + [order], SelectedCommands(j, dbs[j], order));
      orders := orders + [order];
    }
    AllUpTo(dbs, orders);
  }
}
