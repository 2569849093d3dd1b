/** Commands and transactions as the log sees them: execCommand of src/multi.c feeds MULTI before
    the first command that is not quiet and EXEC after the last one, each in the database the
    client has selected by then. Loading the log executes the same commands in the same order. */
module AofTurns {
  import opened AofBytes
  import opened AofCodec
  import opened AofData
  import opened AofTranslate
  import AofLoad

  datatype Event =
    | Did(call: Call)     // a command, inside or outside a transaction
    | Began(db: nat)      // MULTI is fed
    | Ended(db: nat)      // EXEC is fed

  predicate Possible(dbnum: nat, ev: Event) {
    match ev
    case Did(call) => call.db < dbnum && WellFormed(call.cmd)
    case Began(db) => db < dbnum
    case Ended(db) => db < dbnum
  }

  function Sent(s: Server, db: nat, argv: Argv): Server {
    Server(s.dbs, db, s.log + Fed(s.selected, db, [argv]))
  }

  function After(sem: Semantics, s: Server, ev: Event): (r: Server)
    requires Possible(|s.dbs|, ev)
    ensures |r.dbs| == |s.dbs|
  {
    match ev
    case Did(call) => Called(sem, s, call)
    case Began(db) => Sent(s, db, [AofLoad.MULTI])
    case Ended(db) => Sent(s, db, [AofLoad.EXEC])
  }

  function AfterAll(sem: Semantics, s: Server, events: seq<Event>): (r: Server)
    requires forall i :: 0 <= i < |events| ==> Possible(|s.dbs|, events[i])
    ensures |r.dbs| == |s.dbs|
    decreases |events|
  {
    if events == [] then s else AfterAll(sem, After(sem, s, events[0]), events[1..])
  }

  // ---------------------------------------------------------------------------
  // Runs
  // ---------------------------------------------------------------------------

  /** Neither MULTI nor EXEC. */
  predicate Bare(table: AofLoad.Table, argv: Argv) {
    !AofLoad.KindOf(table, argv).Multi? && !AofLoad.KindOf(table, argv).Exec?
  }

  ghost predicate AllBare(table: AofLoad.Table, cmds: seq<Argv>) {
    forall i :: 0 <= i < |cmds| ==> Bare(table, cmds[i])
  }

  /** The table knows MULTI and EXEC under these names only. */
  ghost predicate Named(table: AofLoad.Table) {
    && table.kinds(AofLoad.MULTI) == AofLoad.Multi && table.kinds(AofLoad.EXEC) == AofLoad.Exec
    && Bare(table, [SELECT]) && Bare(table, [SET]) && Bare(table, [DEL]) && Bare(table, [UNLINK]) && Bare(table, [PEXPIREAT])
    && forall kind: Kind :: Bare(table, [AddName(kind)])
  }

  /** Where the server is: outside EXEC, inside one whose MULTI is in the log, or inside one whose
      MULTI went to an older log, because BGREWRITEAOF was among the queued commands. */
  datatype Mode = Outside | Within | Orphaned

  /** What can happen in each. Commands are logged as what they do: one that stores a relative
      expire time reads one clock for storing and logging it, and no INCRBYFLOAT meets an expire
      time. */
  ghost predicate Allowed(sem: Semantics, table: AofLoad.Table, s: Server, mode: Mode, ev: Event) {
    && Possible(|s.dbs|, ev)
    && match ev
       case Did(call) =>
         && CanCall(|s.dbs|, call) && (call.cmd.Plain? ==> Bare(table, call.cmd.argv))
         && Faithful(s.dbs[call.db], call.cmd, call.clock, call.lazy)
       case Began(_) => mode.Outside?
       case Ended(_) => !mode.Outside?
  }

  function ModeAfter(mode: Mode, ev: Event): Mode {
    match ev
    case Did(_) => mode
    case Began(_) => Within
    case Ended(_) => Outside
  }

  /** A run that ends outside a transaction. */
  ghost predicate ValidRun(sem: Semantics, table: AofLoad.Table, s: Server, mode: Mode, events: seq<Event>)
    decreases |events|
  {
    if events == [] then mode.Outside?
    else
      && Allowed(sem, table, s, mode, events[0])
      && ValidRun(sem, table, After(sem, s, events[0]), ModeAfter(mode, events[0]), events[1..])
  }

  lemma {:induction false} RunIsPossible(sem: Semantics, table: AofLoad.Table, s: Server, mode: Mode, events: seq<Event>)
    requires ValidRun(sem, table, s, mode, events)
    ensures forall i :: 0 <= i < |events| ==> Possible(|s.dbs|, events[i])
    decreases |events|
  {
    if events != [] {
      RunIsPossible(sem, table, After(sem, s, events[0]), ModeAfter(mode, events[0]), events[1..]);
      forall i | 0 <= i < |events| ensures Possible(|s.dbs|, events[i]) {
        if i > 0 { assert events[i] == events[1..][i - 1]; }
      }
    }
  }

  // ---------------------------------------------------------------------------
  // The loading client follows
  // ---------------------------------------------------------------------------

  function Loading(table: AofLoad.Table, log: seq<Argv>): AofLoad.Client {
    AofLoad.ProcessAll(table, AofLoad.FRESH, log, 0)
  }

  /** Executed or queued so far. */
  function Taken(c: AofLoad.Client): seq<Argv> {
    c.executed + c.queued
  }

  /** After the log so far the client is in a transaction exactly when the log has its MULTI, and
      what it took, executed from `from`, gives the server's databases. */
  ghost predicate Follows(sem: Semantics, table: AofLoad.Table, s: Server, from: State, mode: Mode) {
    var c := Loading(table, s.log);
    && c.inMulti == mode.Within? && (!mode.Within? ==> c.queued == [])
    && InStep(sem, s.(log := Taken(c)), from) && -1 <= s.selected
  }

  lemma TakeOne(table: AofLoad.Table, c: AofLoad.Client, argv: Argv, end: nat)
    requires !c.inMulti ==> c.queued == []
    ensures var d := AofLoad.Process(table, c, AofLoad.KindOf(table, argv), argv, end);
      && (Bare(table, argv) ==>
            d.inMulti == c.inMulti && Taken(d) == Taken(c) + [argv] && (!c.inMulti ==> d.queued == []))
      && (AofLoad.KindOf(table, argv).Multi? && !c.inMulti ==> d.inMulti && Taken(d) == Taken(c))
      && (AofLoad.KindOf(table, argv).Exec? ==> !d.inMulti && d.queued == [] && Taken(d) == Taken(c))
  {
    assert c.executed + c.queued + [argv] == c.executed + (c.queued + [argv]);
    assert c.executed + [] == c.executed && c.executed + [argv] + [] == c.executed + [argv];
    assert c.executed + c.queued + [] == c.executed + c.queued;
  }

  lemma {:induction false} TakeBare(table: AofLoad.Table, log: seq<Argv>, more: seq<Argv>)
    requires AllBare(table, more)
    requires var c := Loading(table, log); !c.inMulti ==> c.queued == []
    ensures var c, d := Loading(table, log), Loading(table, log + more);
      d.inMulti == c.inMulti && Taken(d) == Taken(c) + more && (!c.inMulti ==> d.queued == [])
    decreases |more|
  {
    var c := Loading(table, log);
    if more == [] {
      assert log + more == log && Taken(c) + more == Taken(c);
    } else {
      var init, last := more[..|more| - 1], more[|more| - 1];
      TakeBare(table, log, init);
      var mid := Loading(table, log + init);
      assert log + more == log + init + [last] && Taken(c) + more == Taken(c) + init + [last];
      AofLoad.ProcessAllSnoc(table, AofLoad.FRESH, log + init, last, 0, mid);
      TakeOne(table, mid, last, |EncodeAll(log + init)| + |Encode(last)|);
    }
  }

  // ---------------------------------------------------------------------------
  // Each event keeps it
  // ---------------------------------------------------------------------------

  lemma {:induction false} ExpiriesAreBare(table: AofLoad.Table, db: Db, keys: seq<Bytes>, now: int, lazy: bool)
    requires Named(table)
    ensures AllBare(table, AfterExpiries(db, keys, now, lazy).log)
    decreases |keys|
  {
    if keys != [] { ExpiriesAreBare(table, AfterExpiry(db, keys[0], now, lazy).db, keys[1..], now, lazy); }
  }

  lemma LiveIsBare(sem: Semantics, table: AofLoad.Table, db: Db, cmd: Command, clock: Clock, lazy: bool)
    requires Named(table) && WellFormed(cmd) && (cmd.Plain? ==> Bare(table, cmd.argv))
    ensures AllBare(table, Live(sem, db, cmd, clock, lazy).log)
  {
    if cmd.Plain? { ExpiriesAreBare(table, db, cmd.keys, clock.cached, lazy); }
  }

  lemma DidFollows(sem: Semantics, table: AofLoad.Table, s: Server, from: State, mode: Mode, ev: Event)
    requires Named(table) && ev.Did? && Allowed(sem, table, s, mode, ev) && Follows(sem, table, s, from, mode)
    ensures Follows(sem, table, After(sem, s, ev), from, mode)
  {
    var call := ev.call;
    var log := Live(sem, s.dbs[call.db], call.cmd, call.clock, call.lazy).log;
    LiveIsBare(sem, table, s.dbs[call.db], call.cmd, call.clock, call.lazy);
    TakeBare(table, s.log, Fed(s.selected, call.db, log));
    CallKeepsStep(sem, s.(log := Taken(Loading(table, s.log))), from, call);
  }

  /** The SELECT before MULTI or EXEC. */
  function Selects(selected: int, db: nat): seq<Argv> {
    if db != selected then [SelectCommand(db)] else []
  }

  lemma SelectKeepsStep(sem: Semantics, s: Server, from: State, db: nat)
    requires InStep(sem, s, from) && -1 <= s.selected && db < |s.dbs|
    ensures InStep(sem, Server(s.dbs, db, s.log + Selects(s.selected, db)), from)
  {
    var r := ExecAll(sem, from, s.log);
    ExecAllConcat(sem, from, s.log, Selects(s.selected, db));
    ExecSelect(sem, r, db);
    assert [SelectCommand(db)][1..] == [];
  }

  lemma SentTaken(table: AofLoad.Table, log: seq<Argv>, selected: int, db: nat, argv: Argv)
    requires Named(table) && (argv == [AofLoad.EXEC] || argv == [AofLoad.MULTI])
    requires var c := Loading(table, log);
      (argv == [AofLoad.MULTI] ==> !c.inMulti) && (!c.inMulti ==> c.queued == [])
    ensures var c, d := Loading(table, log), Loading(table, log + Fed(selected, db, [argv]));
      && d.inMulti == (argv == [AofLoad.MULTI]) && (!d.inMulti ==> d.queued == [])
      && Taken(d) == Taken(c) + Selects(selected, db)
  {
    var more := Selects(selected, db);
    TakeBare(table, log, more);
    var d := Loading(table, log + more);
    assert log + Fed(selected, db, [argv]) == log + more + [argv];
    AofLoad.ProcessAllSnoc(table, AofLoad.FRESH, log + more, argv, 0, d);
    TakeOne(table, d, argv, |EncodeAll(log + more)| + |Encode(argv)|);
  }

  /** A client outside MULTI ignores EXEC. */
  lemma SentFollows(sem: Semantics, table: AofLoad.Table, s: Server, from: State, mode: Mode, db: nat, argv: Argv)
    requires Named(table) && Follows(sem, table, s, from, mode) && db < |s.dbs|
    requires argv == [AofLoad.EXEC] || (argv == [AofLoad.MULTI] && mode.Outside?)
    ensures Follows(sem, table, Sent(s, db, argv), from, if argv == [AofLoad.MULTI] then Within else Outside)
  {
    SentTaken(table, s.log, s.selected, db, argv);
    SelectKeepsStep(sem, s.(log := Taken(Loading(table, s.log))), from, db);
  }

  lemma EventFollows(sem: Semantics, table: AofLoad.Table, s: Server, from: State, mode: Mode, ev: Event)
    requires Named(table) && Allowed(sem, table, s, mode, ev) && Follows(sem, table, s, from, mode)
    ensures Follows(sem, table, After(sem, s, ev), from, ModeAfter(mode, ev))
  {
    match ev
    case Did(_) => DidFollows(sem, table, s, from, mode, ev);
    case Began(db) => SentFollows(sem, table, s, from, mode, db, [AofLoad.MULTI]);
    case Ended(db) =>
      assert [AofLoad.EXEC][0] != [AofLoad.MULTI][0];
      SentFollows(sem, table, s, from, mode, db, [AofLoad.EXEC]);
  }

  lemma {:induction false} RunFollows(sem: Semantics, table: AofLoad.Table, s: Server, from: State, mode: Mode,
                                      events: seq<Event>)
    requires Named(table) && ValidRun(sem, table, s, mode, events) && Follows(sem, table, s, from, mode)
    requires forall i :: 0 <= i < |events| ==> Possible(|s.dbs|, events[i])
    ensures Follows(sem, table, AfterAll(sem, s, events), from, Outside)
    decreases |events|
  {
    if events != [] {
      EventFollows(sem, table, s, from, mode, events[0]);
      RunFollows(sem, table, After(sem, s, events[0]), from, ModeAfter(mode, events[0]), events[1..]);
    }
  }

  /** Any run of commands and transactions over any databases, also one that starts inside a
      transaction: what loading the log puts into effect rebuilds the same databases with the same
      absolute expire times, and the log ends outside a transaction. */
  lemma CommittedRebuilds(sem: Semantics, table: AofLoad.Table, s: Server, from: State, mode: Mode, events: seq<Event>)
    requires Named(table) && !mode.Within? && ValidRun(sem, table, s, mode, events)
    requires AllBare(table, s.log) && InStep(sem, s, from) && -1 <= s.selected
    requires forall i :: 0 <= i < |events| ==> Possible(|s.dbs|, events[i])
    ensures var now := AfterAll(sem, s, events);
      && !AofLoad.Open(table, now.log)
      && ExecAll(sem, from, AofLoad.Committed(table, now.log)).dbs == now.dbs
  {
    TakeBare(table, [], s.log);
    assert [] + s.log == s.log && s.(log := s.log) == s;
    RunFollows(sem, table, s, from, mode, events);
    var log := AfterAll(sem, s, events).log;
    AofLoad.LoadCommits(table, log, Loading(table, log));
    assert Loading(table, log).executed + [] == Loading(table, log).executed;
  }
}
