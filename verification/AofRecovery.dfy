/** From clients to disk and back: feedAppendOnlyFile filling both buffers, and the theorem that
    the log installed by a background rewrite recovers the dataset of the running server. */
module AofRecovery {
  import opened AofBytes
  import opened AofCodec
  import opened AofData
  import opened AofTranslate
  import opened Int64
  import opened Options
  import AofLoad
  import AofRewrite
  import AofRebuild
  import AofSnapshot
  import AofHandoff
  import opened AofTurns

  // ---------------------------------------------------------------------------
  // Feeding
  // ---------------------------------------------------------------------------

  /** The cases feedAppendOnlyFile tells apart. */
  datatype FedCommand =
    | FedExpire(unit: Unit, relative: bool, key: Bytes, amount: int)
    | FedSetex(unit: Unit, key: Bytes, value: Bytes, amount: int)
    | FedSet(key: Bytes, value: Bytes, options: seq<SetOption>)
    | FedAsIs(argv: Argv)

  function Translated(cmd: FedCommand, now: int): seq<Argv> {
    match cmd
    case FedExpire(unit, relative, key, amount) =>
      [ExpireAtCommand(key, When(unit, amount, if relative then now else 0))]
    case FedSetex(unit, key, value, amount) =>
      [[SET, key, value], ExpireAtCommand(key, When(unit, amount, now))]
    case FedSet(key, value, options) =>
      [[SET, key, value]] + TimeCommands(key, Seconds, LastEx(options), now) + TimeCommands(key, Millis, LastPx(options), now)
    case FedAsIs(argv) => [argv]
  }

  function TimeCommands(key: Bytes, unit: Unit, amount: Option<int>, now: int): seq<Argv> {
    if amount.None? then [] else [ExpireAtCommand(key, When(unit, amount.value, now))]
  }

  class Feeder {
    var aofOn: bool
    var childRunning: bool
    var aofBuf: Bytes
    var selectedDb: int
    const rewrite: AofRewrite.RewriteBuffer

    constructor (rewrite: AofRewrite.RewriteBuffer)
      ensures aofOn && !childRunning && aofBuf == [] && selectedDb == -1 && this.rewrite == rewrite
    {
      aofOn, childRunning, aofBuf, selectedDb := true, false, [], -1;
      this.rewrite := rewrite;
    }

    /** feedAppendOnlyFile: the same bytes go to the log buffer and, while a rewrite runs, to
        the rewrite buffer. */
    method FeedAppendOnlyFile(d: nat, cmd: FedCommand, now: int)
      requires rewrite.Valid()
      modifies `aofBuf, `selectedDb, rewrite
      ensures rewrite.Valid() && selectedDb == d
      ensures var text := EncodeAll(Fed(old(selectedDb), d, Translated(cmd, now)));
        && aofBuf == old(aofBuf) + (if aofOn then text else [])
        && rewrite.Contents() == old(rewrite.Contents()) + (if childRunning then text else [])
    {
      var buf := TextFor(selectedDb, d, cmd, now);
      selectedDb := d;
      assert aofBuf + [] == aofBuf && rewrite.Contents() + [] == rewrite.Contents();
      if aofOn { aofBuf := aofBuf + buf; }
      if childRunning { rewrite.Append(buf); }
    }
  }

  /** The part of feedAppendOnlyFile that builds the text. */
  method TextFor(selectedDb: int, d: nat, cmd: FedCommand, now: int) returns (buf: Bytes)
    ensures buf == EncodeAll(Fed(selectedDb, d, Translated(cmd, now)))
  {
    ghost var start: seq<Argv> := if d != selectedDb then [SelectCommand(d)] else [];
    buf := [];
    if d != selectedDb {
      buf := AofLoad.CatGenericCommand(buf, SelectCommand(d));
      AofSnapshot.EncodeOne(SelectCommand(d));
    }
    buf := CatTranslated(buf, cmd, now, start);
  }

  method CatTranslated(buf: Bytes, cmd: FedCommand, now: int, ghost cmds: seq<Argv>) returns (out: Bytes)
    requires buf == EncodeAll(cmds)
    ensures out == EncodeAll(cmds + Translated(cmd, now))
  {
    match cmd
    case FedExpire(unit, relative, key, amount) =>
      out := CatExpireAt(buf, unit, relative, key, amount, now, cmds);
    case FedSetex(unit, key, value, amount) =>
      Grow(cmds, [SET, key, value]);
      out := AofLoad.CatGenericCommand(buf, [SET, key, value]);
      out := CatExpireAt(out, unit, true, key, amount, now, cmds + [[SET, key, value]]);
      assert cmds + [[SET, key, value]] + [ExpireAtCommand(key, When(unit, amount, now))] == cmds + Translated(cmd, now);
    case FedSet(key, value, options) =>
      Grow(cmds, [SET, key, value]);
      out := AofLoad.CatGenericCommand(buf, [SET, key, value]);
      out := CatTimes(out, key, options, now, cmds + [[SET, key, value]]);
      Assoc(cmds, [[SET, key, value]], TimeCommands(key, Seconds, LastEx(options), now));
      Assoc(cmds, [[SET, key, value]] + TimeCommands(key, Seconds, LastEx(options), now),
            TimeCommands(key, Millis, LastPx(options), now));
    case FedAsIs(argv) =>
      Grow(cmds, argv);
      out := AofLoad.CatGenericCommand(buf, argv);
  }

  /** The loop over the options of SET. */
  method FindTimes(options: seq<SetOption>) returns (ex: Option<int>, px: Option<int>)
    ensures ex == LastEx(options) && px == LastPx(options)
  {
    ex, px := None, None;
    for i := 0 to |options|
      invariant ex == LastEx(options[..i]) && px == LastPx(options[..i])
    {
      assert options[..i + 1][..i] == options[..i];
      if options[i].Ex? { ex := Some(options[i].amount); }
      if options[i].Px? { px := Some(options[i].amount); }
    }
    assert options[..|options|] == options;
  }

  /** The PEXPIREAT for the options of SET. */
  method CatTimes(buf: Bytes, key: Bytes, options: seq<SetOption>, now: int, ghost cmds: seq<Argv>) returns (out: Bytes)
    requires buf == EncodeAll(cmds)
    ensures out == EncodeAll(cmds + TimeCommands(key, Seconds, LastEx(options), now) +
                             TimeCommands(key, Millis, LastPx(options), now))
  {
    var ex, px := FindTimes(options);
    out := CatTime(buf, key, Seconds, ex, now, cmds);
    out := CatTime(out, key, Millis, px, now, cmds + TimeCommands(key, Seconds, ex, now));
  }

  method CatTime(buf: Bytes, key: Bytes, unit: Unit, amount: Option<int>, now: int, ghost cmds: seq<Argv>)
    returns (out: Bytes)
    requires buf == EncodeAll(cmds)
    ensures out == EncodeAll(cmds + TimeCommands(key, unit, amount, now))
  {
    assert cmds + [] == cmds;
    out := buf;
    if amount.Some? { out := CatExpireAt(buf, unit, true, key, amount.value, now, cmds); }
  }

  /** catAppendOnlyExpireAtCommand. */
  method CatExpireAt(buf: Bytes, unit: Unit, relative: bool, key: Bytes, amount: int, now: int, ghost cmds: seq<Argv>)
    returns (out: Bytes)
    requires buf == EncodeAll(cmds)
    ensures out == EncodeAll(cmds + [ExpireAtCommand(key, When(unit, amount, if relative then now else 0))])
  {
    var when := if unit == Seconds then Wrap64(amount * 1000) else amount;
    if relative { when := Wrap64(when + now); } else { when := Wrap64(when); }
    Grow(cmds, ExpireAtCommand(key, when));
    out := AofLoad.CatGenericCommand(buf, ExpireAtCommand(key, when));
  }

  lemma Grow(cmds: seq<Argv>, cmd: Argv)
    ensures EncodeAll(cmds + [cmd]) == EncodeAll(cmds) + Encode(cmd)
  {
    AofLoad.EncodeAllConcat(cmds, [cmd]);
    AofSnapshot.EncodeOne(cmd);
  }

  // ---------------------------------------------------------------------------
  // What the commands feed
  // ---------------------------------------------------------------------------

  /** The calls of feedAppendOnlyFile that a command leads to. */
  function FeedsOf(sem: Semantics, db: Db, cmd: Command, clock: Clock, lazy: bool): seq<FedCommand>
    requires WellFormed(cmd)
  {
    match cmd
    case Expire(unit, relative, key, amount) =>
      var e := AfterExpiry(db, key, clock.cached, lazy);
      ExpiryFeeds(db, key, clock.cached, lazy) + (
        if key !in e.db then []
        else if When(unit, amount, if relative then clock.base else 0) <= clock.check then [FedAsIs(Delete(lazy, key))]
        else if unit == Millis && !relative then [FedAsIs(ExpireAtCommand(key, amount))]
        else [FedExpire(unit, relative, key, amount)])
    case Setex(unit, key, value, amount) =>
      if amount <= 0 then [] else ExpiryFeeds(db, key, clock.cached, lazy) + [FedSetex(unit, key, value, amount)]
    case SetWith(key, value, options) =>
      if Parsed(options).None? then [] else SetFeeds(db, key, value, options, clock, lazy)
    case IncrByFloat(key, result) =>
      var e := AfterExpiry(db, key, clock.cached, lazy);
      ExpiryFeeds(db, key, clock.cached, lazy) +
      if key in e.db && !e.db[key].value.Str? then [] else [FedAsIs([SET, key, result])]
    case Plain(argv, keys, dirty) =>
      var e := AfterExpiries(db, keys, clock.cached, lazy);
      ExpiriesFeeds(db, keys, clock.cached, lazy) +
      if dirty || ExecDb(sem, e.db, argv) != e.db then [FedAsIs(argv)] else []
    case Access(key) => ExpiryFeeds(db, key, clock.cached, lazy)
    case ActiveExpire(key) =>
      if key in db && db[key].expire.Some? && clock.cached > db[key].expire.value then [FedAsIs(Delete(lazy, key))] else []
  }

  function SetFeeds(db: Db, key: Bytes, value: Bytes, options: seq<SetOption>, clock: Clock, lazy: bool): seq<FedCommand>
    requires Parsed(options).Some?
  {
    var flags := Parsed(options).value;
    if flags.expire.Some? && flags.expire.value.amount <= 0 then []
    else
      ExpiryFeeds(db, key, clock.cached, lazy) +
      if Refused(flags.condition, key in AfterExpiry(db, key, clock.cached, lazy).db) then []
      else [FedSet(key, value, options)]
  }

  function ExpiryFeeds(db: Db, key: Bytes, now: int, lazy: bool): seq<FedCommand> {
    if IsExpired(db, key, now) then [FedAsIs(Delete(lazy, key))] else []
  }

  function ExpiriesFeeds(db: Db, keys: seq<Bytes>, now: int, lazy: bool): seq<FedCommand>
    decreases |keys|
  {
    if keys == [] then []
    else ExpiryFeeds(db, keys[0], now, lazy) + ExpiriesFeeds(AfterExpiry(db, keys[0], now, lazy).db, keys[1..], now, lazy)
  }

  function TranslatedAll(cmds: seq<FedCommand>, now: int): seq<Argv>
    decreases |cmds|
  {
    if cmds == [] then [] else Translated(cmds[0], now) + TranslatedAll(cmds[1..], now)
  }

  lemma {:induction false} TranslatedConcat(a: seq<FedCommand>, b: seq<FedCommand>, now: int)
    ensures TranslatedAll(a + b, now) == TranslatedAll(a, now) + TranslatedAll(b, now)
    decreases |a|
  {
    if a == [] {
      assert a + b == b;
    } else {
      assert (a + b)[1..] == a[1..] + b;
      TranslatedConcat(a[1..], b, now);
    }
  }

  lemma TranslatedOne(a: FedCommand, now: int)
    ensures TranslatedAll([a], now) == Translated(a, now)
  {
    assert [a][1..] == [] && Translated(a, now) + [] == Translated(a, now);
  }

  lemma ExpiryIsFed(db: Db, key: Bytes, now: int, lazy: bool, feed: int)
    ensures TranslatedAll(ExpiryFeeds(db, key, now, lazy), feed) == AfterExpiry(db, key, now, lazy).log
  {
    TranslatedOne(FedAsIs(Delete(lazy, key)), feed);
  }

  lemma {:induction false} ExpiriesAreFed(db: Db, keys: seq<Bytes>, now: int, lazy: bool, feed: int)
    ensures TranslatedAll(ExpiriesFeeds(db, keys, now, lazy), feed) == AfterExpiries(db, keys, now, lazy).log
    decreases |keys|
  {
    if keys != [] {
      var after := AfterExpiry(db, keys[0], now, lazy).db;
      ExpiryIsFed(db, keys[0], now, lazy, feed);
      ExpiriesAreFed(after, keys[1..], now, lazy, feed);
      TranslatedConcat(ExpiryFeeds(db, keys[0], now, lazy), ExpiriesFeeds(after, keys[1..], now, lazy), feed);
    }
  }

  /** Expiry first, then at most one more call. */
  lemma ExpiryThenFed(db: Db, key: Bytes, now: int, lazy: bool, last: FedCommand, feed: int)
    ensures TranslatedAll(ExpiryFeeds(db, key, now, lazy) + [last], feed) ==
            AfterExpiry(db, key, now, lazy).log + Translated(last, feed)
    ensures TranslatedAll(ExpiryFeeds(db, key, now, lazy) + [], feed) == AfterExpiry(db, key, now, lazy).log
  {
    ExpiryIsFed(db, key, now, lazy, feed);
    TranslatedOne(last, feed);
    TranslatedConcat(ExpiryFeeds(db, key, now, lazy), [last], feed);
    assert ExpiryFeeds(db, key, now, lazy) + [] == ExpiryFeeds(db, key, now, lazy);
  }

  /** The log of a command is what feedAppendOnlyFile makes of its calls at one clock reading. */
  lemma LiveIsFed(sem: Semantics, db: Db, cmd: Command, clock: Clock, lazy: bool)
    requires WellFormed(cmd) && (cmd.Expire? ==> Is64(cmd.amount))
    ensures Live(sem, db, cmd, clock, lazy).log == TranslatedAll(FeedsOf(sem, db, cmd, clock, lazy), clock.feed)
  {
    match cmd
    case Expire(unit, relative, key, amount) => ExpireIsFed(sem, db, cmd, clock, lazy);
    case Setex(unit, key, value, amount) =>
      if amount > 0 { ExpiryThenFed(db, key, clock.cached, lazy, FedSetex(unit, key, value, amount), clock.feed); }
    case SetWith(key, value, options) =>
      if Parsed(options).Some? { SetIsFed(db, key, value, options, clock, lazy); }
    case IncrByFloat(key, result) =>
      ExpiryThenFed(db, key, clock.cached, lazy, FedAsIs([SET, key, result]), clock.feed);
    case Plain(argv, keys, dirty) => PlainIsFed(sem, db, cmd, clock, lazy);
    case Access(key) => ExpiryIsFed(db, key, clock.cached, lazy, clock.feed);
    case ActiveExpire(key) => TranslatedOne(FedAsIs(Delete(lazy, key)), clock.feed);
  }

  /** A SET with options is fed as SET and the expire time it used. */
  lemma SetIsFed(db: Db, key: Bytes, value: Bytes, options: seq<SetOption>, clock: Clock, lazy: bool)
    requires Parsed(options).Some?
    ensures StoreString(db, key, value, Parsed(options).value, clock, lazy).log ==
            TranslatedAll(SetFeeds(db, key, value, options, clock, lazy), clock.feed)
  {
    ExpiryThenFed(db, key, clock.cached, lazy, FedSet(key, value, options), clock.feed);
    FeedSeesExpire(options);
    var store: seq<Argv> := [[SET, key, value]];
    assert store + [] == store;
  }

  lemma PlainIsFed(sem: Semantics, db: Db, cmd: Command, clock: Clock, lazy: bool)
    requires cmd.Plain? && WellFormed(cmd)
    ensures Live(sem, db, cmd, clock, lazy).log == TranslatedAll(FeedsOf(sem, db, cmd, clock, lazy), clock.feed)
  {
    var e := AfterExpiries(db, cmd.keys, clock.cached, lazy);
    var last := if cmd.dirty || ExecDb(sem, e.db, cmd.argv) != e.db then [FedAsIs(cmd.argv)] else [];
    ExpiriesAreFed(db, cmd.keys, clock.cached, lazy, clock.feed);
    TranslatedConcat(ExpiriesFeeds(db, cmd.keys, clock.cached, lazy), last, clock.feed);
    TranslatedOne(FedAsIs(cmd.argv), clock.feed);
  }

  lemma ExpireIsFed(sem: Semantics, db: Db, cmd: Command, clock: Clock, lazy: bool)
    requires cmd.Expire? && Is64(cmd.amount)
    ensures Live(sem, db, cmd, clock, lazy).log == TranslatedAll(FeedsOf(sem, db, cmd, clock, lazy), clock.feed)
  {
    var when := When(cmd.unit, cmd.amount, if cmd.relative then clock.base else 0);
    var last :=
      if when <= clock.check then FedAsIs(Delete(lazy, cmd.key))
      else if cmd.unit == Millis && !cmd.relative then FedAsIs(ExpireAtCommand(cmd.key, cmd.amount))
      else FedExpire(cmd.unit, cmd.relative, cmd.key, cmd.amount);
    ExpiryThenFed(db, cmd.key, clock.cached, lazy, last, clock.feed);
  }

  /** One call of feedAppendOnlyFile. */
  datatype Feed = Feed(db: nat, cmd: FedCommand, now: int)

  /** The text a row of calls appends, the databases logged last being carried along. */
  function TextOf(selected: int, feeds: seq<Feed>): Bytes
    decreases |feeds|
  {
    if feeds == [] then [] else FeedText(selected, feeds[0]) + TextOf(feeds[0].db, feeds[1..])
  }

  function FeedText(selected: int, f: Feed): Bytes {
    EncodeAll(Fed(selected, f.db, Translated(f.cmd, f.now)))
  }

  function SelectedAfter(selected: int, feeds: seq<Feed>): int
    decreases |feeds|
  {
    if feeds == [] then selected else SelectedAfter(feeds[0].db, feeds[1..])
  }

  lemma {:induction false} TextConcat(selected: int, a: seq<Feed>, b: seq<Feed>)
    ensures TextOf(selected, a + b) == TextOf(selected, a) + TextOf(SelectedAfter(selected, a), b)
    decreases |a|
  {
    if a == [] {
      assert a + b == b;
    } else {
      TailConcat(a, b);
      TextConcat(a[0].db, a[1..], b);
      Assoc(FeedText(selected, a[0]), TextOf(a[0].db, a[1..]), TextOf(SelectedAfter(selected, a), b));
    }
  }

  lemma TextAfter(before: Bytes, selected: int, a: seq<Feed>, b: seq<Feed>)
    ensures before + TextOf(selected, a + b) == before + TextOf(selected, a) + TextOf(SelectedAfter(selected, a), b)
  {
    TextConcat(selected, a, b);
  }

  /** The calls for a row of commands in one database. */
  function InDb(db: nat, cmds: seq<FedCommand>, now: int): seq<Feed> {
    seq(|cmds|, i requires 0 <= i < |cmds| => Feed(db, cmds[i], now))
  }

  /** SELECT is written at most once. */
  lemma {:induction false} TextInDb(selected: int, db: nat, cmds: seq<FedCommand>, now: int)
    ensures TextOf(selected, InDb(db, cmds, now)) == EncodeAll(Fed(selected, db, TranslatedAll(cmds, now)))
    ensures SelectedAfter(selected, InDb(db, cmds, now)) == if cmds == [] then selected else db
    decreases |cmds|
  {
    if cmds != [] {
      assert InDb(db, cmds, now)[1..] == InDb(db, cmds[1..], now);
      TextInDb(db, db, cmds[1..], now);
      var first, rest := Translated(cmds[0], now), TranslatedAll(cmds[1..], now);
      FedTwice(selected, db, first, rest);
      AofLoad.EncodeAllConcat(Fed(selected, db, first), Fed(db, db, rest));
    }
  }

  /** Feeding twice to one database is feeding both at once. */
  lemma FedTwice(selected: int, d: nat, a: seq<Argv>, b: seq<Argv>)
    requires a != []
    ensures Fed(selected, d, a) + Fed(d, d, b) == Fed(selected, d, a + b)
  {
    var first := Selects(selected, d);
    NothingBefore(b);
    Assoc(first, a, b);
    assert Fed(selected, d, a) == first + a && Fed(d, d, b) == b && Fed(selected, d, a + b) == first + (a + b);
  }

  lemma NothingBefore<T>(a: seq<T>)
    ensures [] + a == a
  {}

  /** The calls an event leads to: propagateExpire and propagate for a command, and those of
      execCommand and of EXEC itself. */
  function EventFeeds(sem: Semantics, s: Server, ev: Event): seq<Feed>
    requires Possible(|s.dbs|, ev)
  {
    match ev
    case Did(call) =>
      InDb(call.db, FeedsOf(sem, s.dbs[call.db], call.cmd, call.clock, call.lazy), call.clock.feed)
    case Began(db) => [Feed(db, FedAsIs([AofLoad.MULTI]), 0)]
    case Ended(db) => [Feed(db, FedAsIs([AofLoad.EXEC]), 0)]
  }

  function RunFeeds(sem: Semantics, s: Server, events: seq<Event>): seq<Feed>
    requires forall i :: 0 <= i < |events| ==> Possible(|s.dbs|, events[i])
    decreases |events|
  {
    if events == [] then [] else EventFeeds(sem, s, events[0]) + RunFeeds(sem, After(sem, s, events[0]), events[1..])
  }

  /** The expire time of a command is read with getLongLongFromObject. */
  predicate Counts(ev: Event) {
    ev.Did? && ev.call.cmd.Expire? ==> Is64(ev.call.cmd.amount)
  }

  lemma EventText(sem: Semantics, s: Server, ev: Event)
    requires Possible(|s.dbs|, ev) && Counts(ev)
    ensures EncodeAll(After(sem, s, ev).log) == EncodeAll(s.log) + TextOf(s.selected, EventFeeds(sem, s, ev))
    ensures SelectedAfter(s.selected, EventFeeds(sem, s, ev)) == After(sem, s, ev).selected
  {
    match ev
    case Did(call) => CallText(sem, s, call);
    case Began(db) => SentText(s, db, [AofLoad.MULTI]);
    case Ended(db) => SentText(s, db, [AofLoad.EXEC]);
  }

  lemma CallText(sem: Semantics, s: Server, call: Call)
    requires Possible(|s.dbs|, Did(call)) && Counts(Did(call))
    ensures EncodeAll(Called(sem, s, call).log) == EncodeAll(s.log) + TextOf(s.selected, EventFeeds(sem, s, Did(call)))
    ensures SelectedAfter(s.selected, EventFeeds(sem, s, Did(call))) == Called(sem, s, call).selected
  {
    var db := s.dbs[call.db];
    var feeds := FeedsOf(sem, db, call.cmd, call.clock, call.lazy);
    LiveIsFed(sem, db, call.cmd, call.clock, call.lazy);
    TextInDb(s.selected, call.db, feeds, call.clock.feed);
    AofLoad.EncodeAllConcat(s.log, Fed(s.selected, call.db, Live(sem, db, call.cmd, call.clock, call.lazy).log));
    SomethingFed(feeds, call.clock.feed);
  }

  lemma SomethingFed(cmds: seq<FedCommand>, now: int)
    ensures TranslatedAll(cmds, now) == [] <==> cmds == []
  {}

  lemma SentText(s: Server, db: nat, argv: Argv)
    ensures EncodeAll(Sent(s, db, argv).log) == EncodeAll(s.log) + TextOf(s.selected, [Feed(db, FedAsIs(argv), 0)])
  {
    AofLoad.EncodeAllConcat(s.log, Fed(s.selected, db, [argv]));
    var text := EncodeAll(Fed(s.selected, db, [argv]));
    assert [Feed(db, FedAsIs(argv), 0)][1..] == [] && text + [] == text;
  }

  /** Over any run, the calls of feedAppendOnlyFile append exactly the text of the log. */
  lemma {:induction false} RunText(sem: Semantics, s: Server, events: seq<Event>)
    requires forall i :: 0 <= i < |events| ==> Possible(|s.dbs|, events[i]) && Counts(events[i])
    ensures EncodeAll(AfterAll(sem, s, events).log) == EncodeAll(s.log) + TextOf(s.selected, RunFeeds(sem, s, events))
    decreases |events|
  {
    if events == [] {
      assert EncodeAll(s.log) + [] == EncodeAll(s.log);
    } else {
      var first, next := EventFeeds(sem, s, events[0]), After(sem, s, events[0]);
      var rest := RunFeeds(sem, next, events[1..]);
      EventText(sem, s, events[0]);
      RunText(sem, next, events[1..]);
      TextAfter(EncodeAll(s.log), s.selected, first, rest);
    }
  }

  // ---------------------------------------------------------------------------
  // Recovery
  // ---------------------------------------------------------------------------

  /** Loading the file and replaying what is executed. */
  function Recovered(sem: Semantics, table: AofLoad.Table, file: Bytes, dbnum: nat): seq<Db> {
    ExecAll(sem, State(AofSnapshot.NoDbs(dbnum), 0), AofLoad.Load(table, file).executed).dbs
  }

  /** The time that means "none" can be stored at every eighth millisecond: the seconds of a SETEX
      overflow to the number that adds up to -1 with the time. The snapshot then loses it. */
  lemma OverflowIsNotSaved(sem: Semantics, key: Bytes, value: Bytes, orders: seq<seq<AofRebuild.Visit>>, cur: nat, now: nat)
    returns (amount: int)
    requires AofSnapshot.AllCover([map[key := Entry(Str(value), Some(-1))]], orders)
    requires Is64(now) && now % 8 == 7
    ensures Is64(amount) && amount > 0
    ensures var db := map[key := Entry(Str(value), Some(-1))];
      && Timed(map[], Setex(Seconds, key, value, amount), Clock(now, now, now, now), false).db == db
      && ExecAll(sem, State(AofSnapshot.NoDbs(1), cur), AofSnapshot.Snapshot([db], orders)).dbs != [db]
  {
    var db := map[key := Entry(Str(value), Some(-1))];
    amount := SecondsThatOverflow(now);
    assert !AofSnapshot.NoMinusOne([db]) by { assert [db][0][key].expire == Some(-1); }
    AofSnapshot.SnapshotIsExactIff(sem, [db], orders, cur);
  }

  const INVERSE: int := 2066035336255469781
  const TURNS: int := 112

  /** 1000 is 8 times 125, and 125 has an inverse modulo 2^61. */
  lemma SecondsThatOverflow(now: nat) returns (amount: int)
    requires Is64(now) && now % 8 == 7
    ensures 0 < amount < 0x2000_0000_0000_0000 && Wrap64(amount * 1000) == -1 - now
  {
    var m := 0x2000_0000_0000_0000;
    var q := (now + 1) / 8;
    var k := INVERSE * q / m;
    amount := m - INVERSE * q % m;
    assert INVERSE * q == k * m + INVERSE * q % m;
    assert 125 * INVERSE == 1 + TURNS * m;
    assert amount * 125 == m * 125 - 125 * INVERSE * q + 125 * k * m;
    assert amount * 1000 == -(now + 1) + (125 - TURNS * q + 125 * k) * (8 * m);
    WrapShift(-(now + 1), 125 - TURNS * q + 125 * k);
  }

  lemma WrapShift(n: int, t: int)
    requires Is64(n)
    ensures Wrap64(n + t * 0x1_0000_0000_0000_0000) == n
  {}

  /** The server at the fork; the first command logged after it starts with SELECT. */
  ghost function AtFork(forked: seq<Db>, orders: seq<seq<AofRebuild.Visit>>): Server
    requires AofSnapshot.AllCover(forked, orders)
  {
    Server(forked, -1, AofSnapshot.Snapshot(forked, orders))
  }

  /** A rewrite writes no transaction. */
  lemma {:induction false} SnapshotIsBare(table: AofLoad.Table, dbs: seq<Db>, orders: seq<seq<AofRebuild.Visit>>, j: nat)
    requires Named(table) && AofSnapshot.AllCover(dbs, orders) && j <= |dbs|
    ensures AllBare(table, AofSnapshot.CommandsFrom(dbs, orders, j))
    decreases |dbs| - j
  {
    if j < |dbs| {
      SelectedIsBare(table, j, dbs[j], orders[j]);
      SnapshotIsBare(table, dbs, orders, j + 1);
      BareConcat(table, AofSnapshot.SelectedCommands(j, dbs[j], orders[j]), AofSnapshot.CommandsFrom(dbs, orders, j + 1));
    }
  }

  lemma BareConcat(table: AofLoad.Table, a: seq<Argv>, b: seq<Argv>)
    requires AllBare(table, a) && AllBare(table, b)
    ensures AllBare(table, a + b)
  {}

  lemma SelectedIsBare(table: AofLoad.Table, j: nat, db: Db, order: seq<AofRebuild.Visit>)
    requires Named(table) && AofRebuild.Covers(db, order)
    ensures AllBare(table, AofSnapshot.SelectedCommands(j, db, order))
  {
    DbIsBare(table, db, order);
  }

  lemma {:induction false} DbIsBare(table: AofLoad.Table, db: Db, order: seq<AofRebuild.Visit>)
    requires Named(table) && forall i :: 0 <= i < |order| ==> order[i].key in db
    ensures AllBare(table, AofRebuild.DbCommands(db, order))
    decreases |order|
  {
    if order != [] {
      var key := order[0].key;
      ChunksAreBare(table, db[key].value, key, order[0].items);
      DbIsBare(table, db, order[1..]);
    }
  }

  lemma {:induction false} ChunksAreBare(table: AofLoad.Table, v: Value, key: Bytes, items: seq<Argv>)
    requires Named(table)
    ensures AllBare(table, AofRebuild.ValueCommands(key, v, items))
    decreases |items|
  {
    if !v.Str? && items != [] {
      assert Bare(table, [AddName(AofRebuild.KindOf(v))]);
      ChunksAreBare(table, v, key, items[AofRebuild.ChunkSize(|items|)..]);
    }
  }

  /** The snapshot taken at the fork followed by the commands and transactions logged since is a
      log of the current dataset. */
  lemma SnapshotAndDiff(sem: Semantics, table: AofLoad.Table, forked: seq<Db>, orders: seq<seq<AofRebuild.Visit>>,
                        mode: Mode, events: seq<Event>)
    requires AofSnapshot.AllCover(forked, orders) && AofSnapshot.NoMinusOne(forked)
    requires Named(table)
    requires !mode.Within? && ValidRun(sem, table, AtFork(forked, orders), mode, events)
    requires forall i :: 0 <= i < |events| ==> Possible(|forked|, events[i])
    requires AofLoad.AllKnown(table, AfterAll(sem, AtFork(forked, orders), events).log)
    ensures var now := AfterAll(sem, AtFork(forked, orders), events);
      Recovered(sem, table, EncodeAll(now.log), |forked|) == now.dbs
  {
    var zero := State(AofSnapshot.NoDbs(|forked|), 0);
    AofSnapshot.SnapshotIsExactIff(sem, forked, orders, 0);
    SnapshotIsBare(table, forked, orders, 0);
    CommittedRebuilds(sem, table, AtFork(forked, orders), zero, mode, events);
    AofLoad.WholeLogLoads(table, AfterAll(sem, AtFork(forked, orders), events).log);
  }

  /** Every run of the handoff in which the child wrote the snapshot of the dataset at the fork
      and the server then went through `events`, commands and transactions, the first of which may
      be the one that forked, with its MULTI in the old file: once the new file is installed, a restart recovers exactly the dataset of the running server, although
      the regular buffer was thrown away. */
  lemma RewriteRecovers(sem: Semantics, table: AofLoad.Table, forked: seq<Db>, orders: seq<seq<AofRebuild.Visit>>,
                        mode: Mode, events: seq<Event>, file: Bytes, aofBuf: Bytes, steps: seq<AofHandoff.Step>, done: AofHandoff.Step)
    requires AofSnapshot.AllCover(forked, orders) && AofSnapshot.NoMinusOne(forked)
    requires Named(table)
    requires !mode.Within? && ValidRun(sem, table, AtFork(forked, orders), mode, events)
    requires forall i :: 0 <= i < |events| ==> Possible(|forked|, events[i]) && Counts(events[i])
    requires AofLoad.AllKnown(table, AfterAll(sem, AtFork(forked, orders), events).log)
    requires var start := AofHandoff.Forked(EncodeAll(AofSnapshot.Snapshot(forked, orders)), file, aofBuf);
      && AofHandoff.ValidRun(start, steps)
      && done.ParentDone? && AofHandoff.Enabled(AofHandoff.Run(start, steps), done)
      && AofHandoff.Switches(AofHandoff.Run(start, steps), done)
      && AofHandoff.Run(start, steps).fed == TextOf(-1, RunFeeds(sem, AtFork(forked, orders), events))
    ensures var start := AofHandoff.Forked(EncodeAll(AofSnapshot.Snapshot(forked, orders)), file, aofBuf);
      var after := AofHandoff.Apply(AofHandoff.Run(start, steps), done);
      Recovered(sem, table, after.installed + after.aofBuf, |forked|) == AfterAll(sem, AtFork(forked, orders), events).dbs
  {
    var snapshot := AofSnapshot.Snapshot(forked, orders);
    var start := AofHandoff.Forked(EncodeAll(snapshot), file, aofBuf);
    AofHandoff.HandoffIsExact(EncodeAll(snapshot), file, aofBuf, steps, done);
    var after := AofHandoff.Apply(AofHandoff.Run(start, steps), done);
    assert after.installed + [] == after.installed;
    RunText(sem, AtFork(forked, orders), events);
    SnapshotAndDiff(sem, table, forked, orders, mode, events);
  }

  /** And such a switch follows: from any point of any handoff at which the child is alive, the
      bytes fed so far being those of `events`, a run goes on to install a file that recovers
      the running dataset. */
  lemma RewriteCompletes(sem: Semantics, table: AofLoad.Table, forked: seq<Db>, orders: seq<seq<AofRebuild.Visit>>,
                         mode: Mode, events: seq<Event>, file: Bytes, aofBuf: Bytes, steps: seq<AofHandoff.Step>)
    returns (more: seq<AofHandoff.Step>, done: AofHandoff.Step)
    requires AofSnapshot.AllCover(forked, orders) && AofSnapshot.NoMinusOne(forked)
    requires Named(table)
    requires !mode.Within? && ValidRun(sem, table, AtFork(forked, orders), mode, events)
    requires forall i :: 0 <= i < |events| ==> Possible(|forked|, events[i]) && Counts(events[i])
    requires AofLoad.AllKnown(table, AfterAll(sem, AtFork(forked, orders), events).log)
    requires var start := AofHandoff.Forked(EncodeAll(AofSnapshot.Snapshot(forked, orders)), file, aofBuf);
      && AofHandoff.ValidRun(start, steps) && AofHandoff.Alive(AofHandoff.Run(start, steps))
      && AofHandoff.Run(start, steps).fed == TextOf(-1, RunFeeds(sem, AtFork(forked, orders), events))
    ensures var start := AofHandoff.Forked(EncodeAll(AofSnapshot.Snapshot(forked, orders)), file, aofBuf);
      && AofHandoff.ValidRun(start, steps + more) && AofHandoff.Enabled(AofHandoff.Run(start, steps + more), done)
      && AofHandoff.Switches(AofHandoff.Run(start, steps + more), done)
      && var after := AofHandoff.Apply(AofHandoff.Run(start, steps + more), done);
         Recovered(sem, table, after.installed + after.aofBuf, |forked|) == AfterAll(sem, AtFork(forked, orders), events).dbs
  {
    more, done := AofHandoff.SwitchFollows(EncodeAll(AofSnapshot.Snapshot(forked, orders)), file, aofBuf, steps);
    RewriteRecovers(sem, table, forked, orders, mode, events, file, aofBuf, steps + more, done);
  }
}
