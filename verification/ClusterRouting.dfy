/** Where a command may run: getNodeByQuery of src/cluster.c. */
module ClusterRouting {
  import opened ClusterBitmap
  import opened ClusterEpochs
  import opened ClusterClaims

  type Key = string

  /** What one node knows when a query arrives. `slotOf` is keyHashSlot; `local` are the
      keys in its dataset. */
  datatype NodeConfig = NodeConfig(
    myself: NodeId,
    slotOf: Key -> Slot,
    owners: Owners,
    migratingTo: Owners,
    importingFrom: Owners,
    stateOk: bool,
    replicaOf: Owner,
    local: set<Key>)

  /** The flags of the client and of the command. `noRedirection` stands for the module
      flag and for an EXEC outside MULTI; `readonly` for a read command (or a script) of a
      client in READONLY mode. */
  datatype Flags = Flags(noRedirection: bool, migrate: bool, asking: bool, readonly: bool)

  datatype Route =
    | Serve
    | Moved(n: NodeId)
    | Ask(n: NodeId)
    | TryAgain
    | CrossSlot
    | DownUnbound
    | DownState

  function Flatten(commands: seq<seq<Key>>): seq<Key> {
    if commands == [] then [] else commands[0] + Flatten(commands[1..])
  }

  ghost predicate AllIn(keys: seq<Key>, s: set<Key>) {
    forall i :: 0 <= i < |keys| ==> keys[i] in s
  }

  ghost predicate SameKey(keys: seq<Key>) {
    forall i :: 0 <= i < |keys| ==> keys[i] == keys[0]
  }

  /** The decision once the slot is known to be unique and bound to `n`. */
  function Decide(me: NodeId, n: NodeId, migratingTo: Owner, importingFrom: Owner, stateOk: bool,
                  myMaster: Owner, flags: Flags, multiple: bool, missing: bool): Route
  {
    var migrating := n == me && migratingTo.Node?;
    var importing := !migrating && importingFrom.Node?;
    if !stateOk then DownState
    else if (migrating || importing) && flags.migrate then Serve
    else if migrating && missing then Ask(migratingTo.id)
    else if importing && flags.asking then (if multiple && missing then TryAgain else Serve)
    else if flags.readonly && myMaster == Node(n) then Serve
    else if n != me then Moved(n)
    else Serve
  }

  /** The whole query: every key of every queued command. */
  ghost function RouteOf(c: NodeConfig, flags: Flags, keys: seq<Key>): Route {
    if flags.noRedirection || keys == [] then Serve
    else
      var slot := c.slotOf(keys[0]);
      if c.owners[slot].Nobody? then DownUnbound
      else if exists i :: 0 <= i < |keys| && c.slotOf(keys[i]) != slot then CrossSlot
      else Decide(c.myself, c.owners[slot].id, c.migratingTo[slot], c.importingFrom[slot], c.stateOk,
                  c.replicaOf, flags, !SameKey(keys), !AllIn(keys, c.local))
  }

  ghost predicate OneSlot(c: NodeConfig, keys: seq<Key>) {
    keys != [] ==> forall i :: 0 <= i < |keys| ==> c.slotOf(keys[i]) == c.slotOf(keys[0])
  }

  /** The keys are in one slot that somebody owns, and the cluster is up. */
  ghost predicate Routable(c: NodeConfig, flags: Flags, keys: seq<Key>) {
    && !flags.noRedirection && keys != [] && OneSlot(c, keys)
    && c.owners[c.slotOf(keys[0])].Node? && c.stateOk
  }

  /** This node owns the slot and is moving it away. */
  ghost predicate MovingOut(c: NodeConfig, slot: Slot) {
    c.owners[slot] == Node(c.myself) && c.migratingTo[slot].Node?
  }

  ghost predicate MovingIn(c: NodeConfig, slot: Slot) {
    c.importingFrom[slot].Node? && !MovingOut(c, slot)
  }

  /** When each answer is right, each by itself. */
  ghost predicate Right(c: NodeConfig, flags: Flags, keys: seq<Key>, route: Route) {
    var slot := if keys == [] then 0 else c.slotOf(keys[0]);
    match route
    case DownUnbound => !flags.noRedirection && keys != [] && c.owners[slot].Nobody?
    case CrossSlot => !flags.noRedirection && c.owners[slot].Node? && !OneSlot(c, keys)
    case DownState => !flags.noRedirection && keys != [] && c.owners[slot].Node? && OneSlot(c, keys) && !c.stateOk
    case Ask(n) =>
      && Routable(c, flags, keys) && MovingOut(c, slot) && c.migratingTo[slot] == Node(n)
      && !flags.migrate && !AllIn(keys, c.local)
    case TryAgain =>
      && Routable(c, flags, keys) && MovingIn(c, slot)
      && flags.asking && !flags.migrate && !SameKey(keys) && !AllIn(keys, c.local)
    case Moved(n) =>
      && Routable(c, flags, keys) && c.owners[slot] == Node(n) && n != c.myself
      && !(MovingIn(c, slot) && (flags.asking || flags.migrate))
      && !(flags.readonly && c.replicaOf == Node(n))
    case Serve =>
      || flags.noRedirection || keys == []
      || (&& Routable(c, flags, keys)
          && (|| (flags.migrate && (MovingOut(c, slot) || MovingIn(c, slot)))
              || (c.owners[slot] == Node(c.myself) && !MovingIn(c, slot) && (MovingOut(c, slot) ==> AllIn(keys, c.local)))
              || (c.owners[slot] == Node(c.myself) && MovingIn(c, slot) && !flags.asking)
              || (MovingIn(c, slot) && flags.asking && (SameKey(keys) || AllIn(keys, c.local)))
              || (c.owners[slot] != Node(c.myself) && flags.readonly && c.replicaOf == c.owners[slot]
                  && (flags.asking ==> !MovingIn(c, slot)))))
  }

  /** Exactly one answer is right, and it is the one given. */
  lemma RouteIsRight(c: NodeConfig, flags: Flags, keys: seq<Key>, route: Route)
    ensures Right(c, flags, keys, route) <==> route == RouteOf(c, flags, keys)
  {
    if keys != [] {
      var slot := c.slotOf(keys[0]);
      assert OneSlot(c, keys) <==> !exists i :: 0 <= i < |keys| && c.slotOf(keys[i]) != slot;
    }
  }

  lemma {:induction false} FlattenSplit(commands: seq<seq<Key>>, i: nat)
    requires i < |commands|
    ensures Flatten(commands[..i + 1]) == Flatten(commands[..i]) + commands[i]
  {
    if i == 0 {
      assert commands[..1] == [commands[0]] && commands[..0] == [];
      assert Flatten([commands[0]]) == commands[0] + Flatten([]);
    } else {
      var rest := commands[1..];
      assert commands[..i + 1][1..] == rest[..i] && commands[..i][1..] == rest[..i - 1];
      FlattenSplit(rest, i - 1);
    }
  }

  /** The scan state after the keys seen so far. */
  ghost predicate Scanned(c: NodeConfig, seen: seq<Key>, slot: Slot, n: Owner, open: bool,
                          multiple: bool, missing: nat)
  {
    && (seen == [] ==> n.Nobody? && !open && !multiple && missing == 0)
    && (seen != [] ==>
          && slot == c.slotOf(seen[0]) && n == c.owners[slot] && n.Node?
          && open == ((n.id == c.myself && c.migratingTo[slot].Node?) || c.importingFrom[slot].Node?)
          && (forall i :: 0 <= i < |seen| ==> c.slotOf(seen[i]) == slot)
          && multiple == !SameKey(seen)
          && (missing > 0 <==> open && !AllIn(seen, c.local)))
  }

  /** One more key: the body of the inner loop of getNodeByQuery. */
  method ScanKey(c: NodeConfig, key: Key, firstkey: Key, first: bool, slot: Slot, n: Owner, open: bool,
                 multiple: bool, missing: nat, ghost seen: seq<Key>)
    returns (error: Route, slot': Slot, n': Owner, open': bool, multiple': bool, missing': nat)
    requires Scanned(c, seen, slot, n, open, multiple, missing)
    requires first <==> seen == []
    requires !first ==> firstkey == seen[0]
    ensures error == Serve || error == DownUnbound || error == CrossSlot
    ensures error == DownUnbound <==> seen == [] && c.owners[c.slotOf(key)].Nobody?
    ensures error == CrossSlot <==> seen != [] && c.slotOf(key) != c.slotOf(seen[0])
    ensures error == Serve ==> Scanned(c, seen + [key], slot', n', open', multiple', missing')
  {
    error, slot', n', open', multiple', missing' := Serve, slot, n, open, multiple, missing;
    var thisslot := c.slotOf(key);
    if first {
      slot', n' := thisslot, c.owners[thisslot];
      if n'.Nobody? { error := DownUnbound; return; }
      open' := (n'.id == c.myself && c.migratingTo[slot'].Node?) || c.importingFrom[slot'].Node?;
    } else if firstkey != key {
      if slot != thisslot { error := CrossSlot; return; }
      multiple' := true;
    }
    if open' && key !in c.local { missing' := missing + 1; }
    ghost var now := seen + [key];
    assert now[|seen|] == key;
    assert forall i :: 0 <= i < |seen| ==> now[i] == seen[i];
  }

  /** Keys already known to clash decide the route, whatever follows them. */
  lemma EarlyExit(c: NodeConfig, flags: Flags, keys: seq<Key>, seen: seq<Key>, key: Key)
    requires !flags.noRedirection && seen + [key] <= keys
    ensures seen == [] && c.owners[c.slotOf(key)].Nobody? ==> RouteOf(c, flags, keys) == DownUnbound
    ensures seen != [] && c.owners[c.slotOf(seen[0])].Node? && c.slotOf(key) != c.slotOf(seen[0]) ==>
              RouteOf(c, flags, keys) == CrossSlot
  {
    assert keys[|seen|] == (seen + [key])[|seen|] == key;
    assert seen != [] ==> keys[0] == (seen + [key])[0] == seen[0];
  }

  /** The decision after a complete scan. */
  lemma ScanDecides(c: NodeConfig, flags: Flags, keys: seq<Key>, slot: Slot, n: Owner, open: bool,
                    multiple: bool, missing: nat)
    requires !flags.noRedirection && keys != [] && Scanned(c, keys, slot, n, open, multiple, missing)
    ensures RouteOf(c, flags, keys) ==
            Decide(c.myself, n.id, c.migratingTo[slot], c.importingFrom[slot], c.stateOk, c.replicaOf, flags,
                   multiple, missing > 0)
  {}

  lemma PrefixOfFlatten(commands: seq<seq<Key>>, i: nat, j: nat)
    requires i < |commands| && j < |commands[i]|
    ensures Flatten(commands[..i]) + commands[i][..j] + [commands[i][j]] <= Flatten(commands)
    ensures Flatten(commands[..i]) + commands[i][..j] + [commands[i][j]] == Flatten(commands[..i]) + commands[i][..j + 1]
  {
    FlattenSplit(commands, i);
    FlattenPrefix(commands, i + 1);
    assert commands[i][..j] + [commands[i][j]] == commands[i][..j + 1];
    assert commands[i] == commands[i][..j + 1] + commands[i][j + 1..];
  }

  lemma {:induction false} FlattenPrefix(commands: seq<seq<Key>>, i: nat)
    requires i <= |commands|
    ensures Flatten(commands[..i]) <= Flatten(commands)
  {
    if i == |commands| {
      assert commands[..i] == commands;
    } else if i > 0 {
      FlattenPrefix(commands[1..], i - 1);
      assert commands[..i][1..] == commands[1..][..i - 1];
    }
  }

  /** getNodeByQuery: scan the keys of every command, then decide. */
  method GetNodeByQuery(c: NodeConfig, flags: Flags, commands: seq<seq<Key>>) returns (route: Route)
    ensures route == RouteOf(c, flags, Flatten(commands))
    ensures forall other :: Right(c, flags, Flatten(commands), other) <==> other == route
  {
    forall other ensures Right(c, flags, Flatten(commands), other) <==> other == RouteOf(c, flags, Flatten(commands)) {
      RouteIsRight(c, flags, Flatten(commands), other);
    }
    if flags.noRedirection { return Serve; }
    var firstkey, first: bool := "", true;
    var slot: Slot, n, open, multiple := 0, Nobody, false, false;
    var missing: nat := 0;
    ghost var keys := Flatten(commands);
    assert commands[..0] == [];
    for i := 0 to |commands|
      invariant Scanned(c, Flatten(commands[..i]), slot, n, open, multiple, missing)
      invariant first <==> Flatten(commands[..i]) == []
      invariant !first ==> firstkey == Flatten(commands[..i])[0]
    {
      ghost var before := Flatten(commands[..i]);
      assert before + commands[i][..0] == before;
      for j := 0 to |commands[i]|
        invariant Scanned(c, before + commands[i][..j], slot, n, open, multiple, missing)
        invariant first <==> before + commands[i][..j] == []
        invariant !first ==> firstkey == (before + commands[i][..j])[0]
      {
        ghost var seen, key := before + commands[i][..j], commands[i][j];
        PrefixOfFlatten(commands, i, j);
        EarlyExit(c, flags, keys, seen, commands[i][j]);
        var error;
        error, slot, n, open, multiple, missing :=
          ScanKey(c, commands[i][j], firstkey, first, slot, n, open, multiple, missing, seen);
        if error != Serve { return error; }
        if first { firstkey, first := commands[i][j], false; }
      }
      FlattenSplit(commands, i);
      assert commands[i][..|commands[i]|] == commands[i];
    }
    assert commands[..|commands|] == commands;
    if first { return Serve; }
    ScanDecides(c, flags, keys, slot, n, open, multiple, missing);
    return Decide(c.myself, n.id, c.migratingTo[slot], c.importingFrom[slot], c.stateOk, c.replicaOf, flags,
                  multiple, missing > 0);
  }
}
