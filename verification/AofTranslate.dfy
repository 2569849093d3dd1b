/** What a live server logs (feedAppendOnlyFile of src/aof.c with the expiry rules of src/db.c,
    src/expire.c and src/t_string.c), and why replaying it gives the same databases with the
    same absolute expire times. */
module AofTranslate {
  import opened AofBytes
  import opened AofCodec
  import opened AofData
  import opened Int64
  import opened Options

  datatype Unit = Seconds | Millis

  /** The clock readings a command can make: the time cached when the command started, the
      base of a relative expire, the one an expire is compared with, and the one
      feedAppendOnlyFile makes. */
  datatype Clock = Clock(cached: int, base: int, check: int, feed: int)

  datatype Condition = Anyway | IfMissing | IfPresent

  /** What may follow SET key value. */
  datatype SetOption = Nx | Xx | Ex(amount: int) | Px(amount: int)

  datatype Command =
    | Expire(unit: Unit, relative: bool, key: Bytes, amount: int)     // EXPIRE, PEXPIRE, EXPIREAT, PEXPIREAT
    | Setex(unit: Unit, key: Bytes, value: Bytes, amount: int)        // SETEX, PSETEX
    | SetWith(key: Bytes, value: Bytes, options: seq<SetOption>)      // SET with options
    | IncrByFloat(key: Bytes, result: Bytes)                          // logged as SET
    | Plain(argv: Argv, keys: seq<Bytes>, dirty: bool)                // looks up `keys`, logged as it is
    | Access(key: Bytes)                                              // any lookup
    | ActiveExpire(key: Bytes)                                        // the expire cycle

  /** The database after a command and what feedAppendOnlyFile turned it into, SELECT aside. */
  datatype Effect = Effect(db: Db, log: seq<Argv>)

  function Delete(lazy: bool, key: Bytes): Argv {
    [if lazy then UNLINK else DEL, key]
  }

  /** The absolute time of an expire argument counted from `start`. */
  function When(unit: Unit, amount: int, start: int): int {
    Wrap64((if unit == Seconds then Wrap64(amount * 1000) else amount) + start)
  }

  /** Within 64 bits the time is the argument in milliseconds after the start. */
  lemma WhenIsExact(unit: Unit, amount: int, start: int)
    requires Is64(amount * 1000) && Is64((if unit == Seconds then amount * 1000 else amount) + start) && Is64(amount)
    ensures When(unit, amount, start) == (if unit == Seconds then amount * 1000 else amount) + start
  {}

  /** keyIsExpired: a negative time reads as "no expire". */
  predicate IsExpired(db: Db, key: Bytes, now: int) {
    key in db && db[key].expire.Some? && db[key].expire.value >= 0 && now > db[key].expire.value
  }

  /** expireIfNeeded. */
  function AfterExpiry(db: Db, key: Bytes, now: int, lazy: bool): Effect {
    if IsExpired(db, key, now) then Effect(db - {key}, [Delete(lazy, key)]) else Effect(db, [])
  }

  /** A command that looks up several keys. */
  function AfterExpiries(db: Db, keys: seq<Bytes>, now: int, lazy: bool): Effect
    decreases |keys|
  {
    if keys == [] then Effect(db, [])
    else
      var first := AfterExpiry(db, keys[0], now, lazy);
      var rest := AfterExpiries(first.db, keys[1..], now, lazy);
      Effect(rest.db, first.log + rest.log)
  }

  const EXPIRE: Bytes := [69, 88, 80, 73, 82, 69]
  const PEXPIRE: Bytes := [80] + EXPIRE
  const EXPIREAT: Bytes := EXPIRE + [65, 84]
  const SETEX: Bytes := [83, 69, 84, 69, 88]
  const PSETEX: Bytes := [80] + SETEX
  const INCRBYFLOAT: Bytes := [73, 78, 67, 82, 66, 89, 70, 76, 79, 65, 84]

  /** Neither SELECT nor one of the commands above. */
  predicate IsPlain(argv: Argv) {
    && argv != [] && !OpOf(argv[0]).SelectOp? && !OpOf(argv[0]).ExpireAtOp?
    && argv[0] !in [EXPIRE, PEXPIRE, EXPIREAT, SETEX, PSETEX, INCRBYFLOAT]
    && (argv[0] == SET ==> |argv| == 3)
  }

  predicate WellFormed(cmd: Command) {
    cmd.Plain? ==> IsPlain(cmd.argv)
  }

  /** expireGenericCommand once the key is known to exist. */
  function SetExpireTime(e: Effect, cmd: Command, clock: Clock, lazy: bool): Effect
    requires cmd.Expire? && cmd.key in e.db
  {
    var when := When(cmd.unit, cmd.amount, if cmd.relative then clock.base else 0);
    if when <= clock.check then Effect(e.db - {cmd.key}, e.log + [Delete(lazy, cmd.key)])
    else
      var logged := When(cmd.unit, cmd.amount, if cmd.relative then clock.feed else 0);
      Effect(e.db[cmd.key := Entry(e.db[cmd.key].value, Some(when))], e.log + [ExpireAtCommand(cmd.key, logged)])
  }

  datatype Expiry = Expiry(unit: Unit, amount: int)

  datatype SetFlags = SetFlags(condition: Condition, expire: Option<Expiry>)

  /** One option of SET; NX excludes XX and EX excludes PX. */
  function Accept(f: SetFlags, o: SetOption): Option<SetFlags> {
    match o
    case Nx => if f.condition == IfPresent then None else Some(f.(condition := IfMissing))
    case Xx => if f.condition == IfMissing then None else Some(f.(condition := IfPresent))
    case Ex(n) => if f.expire.Some? && f.expire.value.unit == Millis then None else Some(f.(expire := Some(Expiry(Seconds, n))))
    case Px(n) => if f.expire.Some? && f.expire.value.unit == Seconds then None else Some(f.(expire := Some(Expiry(Millis, n))))
  }

  const NO_FLAGS := SetFlags(Anyway, None)

  /** setCommand: the options, or a syntax error. */
  function Parsed(options: seq<SetOption>): Option<SetFlags>
    decreases |options|
  {
    if options == [] then Some(NO_FLAGS)
    else
      var n := |options| - 1;
      var before := Parsed(options[..n]);
      if before.None? then None else Accept(before.value, options[n])
  }

  ghost predicate HasNx(options: seq<SetOption>) {
    exists i :: 0 <= i < |options| && options[i].Nx?
  }

  ghost predicate HasXx(options: seq<SetOption>) {
    exists i :: 0 <= i < |options| && options[i].Xx?
  }

  ghost predicate HasEx(options: seq<SetOption>) {
    exists i :: 0 <= i < |options| && options[i].Ex?
  }

  ghost predicate HasPx(options: seq<SetOption>) {
    exists i :: 0 <= i < |options| && options[i].Px?
  }

  lemma HasMore(options: seq<SetOption>, o: SetOption)
    ensures HasNx(options + [o]) <==> HasNx(options) || o.Nx?
    ensures HasXx(options + [o]) <==> HasXx(options) || o.Xx?
    ensures HasEx(options + [o]) <==> HasEx(options) || o.Ex?
    ensures HasPx(options + [o]) <==> HasPx(options) || o.Px?
  {
    var more := options + [o];
    assert more[|options|] == o && forall i :: 0 <= i < |options| ==> more[i] == options[i];
  }

  /** Options are refused exactly when NX meets XX or EX meets PX; else each has its effect. */
  lemma {:induction false} ParsedIs(options: seq<SetOption>)
    ensures Parsed(options).None? <==> (HasNx(options) && HasXx(options)) || (HasEx(options) && HasPx(options))
    ensures Parsed(options).Some? ==>
      && Parsed(options).value.condition == (if HasNx(options) then IfMissing else if HasXx(options) then IfPresent else Anyway)
      && (Parsed(options).value.expire.None? <==> !HasEx(options) && !HasPx(options))
      && (HasEx(options) ==> Parsed(options).value.expire.value.unit == Seconds)
      && (HasPx(options) ==> Parsed(options).value.expire.value.unit == Millis)
    decreases |options|
  {
    if options != [] {
      var init, last := options[..|options| - 1], options[|options| - 1];
      assert options == init + [last];
      ParsedIs(init);
      HasMore(init, last);
    }
  }

  lemma {:induction false} SyntaxErrorStays(options: seq<SetOption>, i: nat)
    requires i <= |options| && Parsed(options[..i]).None?
    ensures Parsed(options).None?
    decreases |options|
  {
    if i < |options| {
      var init := options[..|options| - 1];
      assert init[..i] == options[..i];
      SyntaxErrorStays(init, i);
    } else {
      assert options[..i] == options;
    }
  }

  /** The option loop of setCommand. */
  method ParseOptions(options: seq<SetOption>) returns (r: Option<SetFlags>)
    ensures r == Parsed(options)
  {
    var flags := NO_FLAGS;
    for j := 0 to |options|
      invariant Parsed(options[..j]) == Some(flags)
    {
      assert options[..j + 1][..j] == options[..j];
      var next := Accept(flags, options[j]);
      if next.None? {
        SyntaxErrorStays(options, j + 1);
        return None;
      }
      flags := next.value;
    }
    assert options[..|options|] == options;
    return Some(flags);
  }

  /** The last EX, the last PX: what feedAppendOnlyFile looks for. */
  function LastEx(options: seq<SetOption>): Option<int>
    decreases |options|
  {
    if options == [] then None
    else
      var n := |options| - 1;
      if options[n].Ex? then Some(options[n].amount) else LastEx(options[..n])
  }

  function LastPx(options: seq<SetOption>): Option<int>
    decreases |options|
  {
    if options == [] then None
    else
      var n := |options| - 1;
      if options[n].Px? then Some(options[n].amount) else LastPx(options[..n])
  }

  /** For options that setCommand accepts it finds the expire time the command used; both are
      never there, so its assertion does not fire. */
  lemma {:induction false} FeedSeesExpire(options: seq<SetOption>)
    requires Parsed(options).Some?
    ensures Parsed(options).value.expire ==
            if LastEx(options).Some? then Some(Expiry(Seconds, LastEx(options).value))
            else if LastPx(options).Some? then Some(Expiry(Millis, LastPx(options).value))
            else None
    ensures LastEx(options).None? || LastPx(options).None?
    decreases |options|
  {
    if options != [] { FeedSeesExpire(options[..|options| - 1]); }
  }

  predicate Refused(condition: Condition, present: bool) {
    (condition == IfMissing && present) || (condition == IfPresent && !present)
  }

  /** setGenericCommand, and what is fed for it. */
  function StoreString(db: Db, key: Bytes, value: Bytes, flags: SetFlags, clock: Clock, lazy: bool): Effect {
    if flags.expire.Some? && flags.expire.value.amount <= 0 then Effect(db, [])
    else
      var e := AfterExpiry(db, key, clock.cached, lazy);
      if Refused(flags.condition, key in e.db) then e
      else match flags.expire
           case None => Effect(e.db[key := Entry(Str(value), None)], e.log + [[SET, key, value]])
           case Some(Expiry(unit, amount)) =>
             var when, logged := When(unit, amount, clock.base), When(unit, amount, clock.feed);
             Effect(e.db[key := Entry(Str(value), Some(when))], e.log + [[SET, key, value], ExpireAtCommand(key, logged)])
  }

  /** incrbyfloatCommand: the key keeps its expire time, and SET is fed. */
  function StoreFloat(db: Db, key: Bytes, result: Bytes, clock: Clock, lazy: bool): Effect {
    var e := AfterExpiry(db, key, clock.cached, lazy);
    if key in e.db && !e.db[key].value.Str? then e
    else Effect(e.db[key := Entry(Str(result), ExpireOf(e.db, key))], e.log + [[SET, key, result]])
  }

  /** All commands but the plain ones. */
  function Timed(db: Db, cmd: Command, clock: Clock, lazy: bool): Effect
    requires !cmd.Plain?
  {
    match cmd
    case Expire(_, _, key, _) =>
      var e := AfterExpiry(db, key, clock.cached, lazy);
      if key in e.db then SetExpireTime(e, cmd, clock, lazy) else e
    case Setex(unit, key, value, amount) =>
      StoreString(db, key, value, SetFlags(Anyway, Some(Expiry(unit, amount))), clock, lazy)
    case SetWith(key, value, options) =>
      var flags := Parsed(options);
      if flags.None? then Effect(db, []) else StoreString(db, key, value, flags.value, clock, lazy)
    case IncrByFloat(key, result) => StoreFloat(db, key, result, clock, lazy)
    case Access(key) => AfterExpiry(db, key, clock.cached, lazy)
    case ActiveExpire(key) =>
      if key in db && db[key].expire.Some? && clock.cached > db[key].expire.value then
        Effect(db - {key}, [Delete(lazy, key)])
      else Effect(db, [])
  }

  function Live(sem: Semantics, db: Db, cmd: Command, clock: Clock, lazy: bool): Effect
    requires WellFormed(cmd)
  {
    match cmd
    case Plain(argv, keys, dirty) =>
      var e := AfterExpiries(db, keys, clock.cached, lazy);
      var after := ExecDb(sem, e.db, argv);
      Effect(after, e.log + if dirty || after != e.db then [argv] else [])
    case _ => Timed(db, cmd, clock, lazy)
  }

  // ---------------------------------------------------------------------------
  // One command
  // ---------------------------------------------------------------------------

  /** Replaying the log has the effect of the command. */
  ghost predicate Replays(sem: Semantics, db: Db, e: Effect) {
    ExecDbAll(sem, db, e.log) == e.db
  }

  lemma ExecOne(sem: Semantics, db: Db, argv: Argv)
    ensures ExecDbAll(sem, db, [argv]) == ExecDb(sem, db, argv)
  {
    assert [argv][1..] == [];
  }

  lemma ExecDelete(sem: Semantics, db: Db, lazy: bool, key: Bytes)
    ensures ExecDb(sem, db, Delete(lazy, key)) == db - {key}
  {
    Names();
  }

  lemma ReplayMore(sem: Semantics, db: Db, e: Effect, cmds: seq<Argv>, after: Db)
    requires Replays(sem, db, e) && ExecDbAll(sem, e.db, cmds) == after
    ensures Replays(sem, db, Effect(after, e.log + cmds))
  {
    ExecDbAllConcat(sem, db, e.log, cmds);
  }

  lemma ExpiryReplays(sem: Semantics, db: Db, key: Bytes, now: int, lazy: bool)
    ensures Replays(sem, db, AfterExpiry(db, key, now, lazy))
  {
    ExecDelete(sem, db, lazy, key);
    ExecOne(sem, db, Delete(lazy, key));
  }

  lemma {:induction false} ExpiriesReplay(sem: Semantics, db: Db, keys: seq<Bytes>, now: int, lazy: bool)
    ensures Replays(sem, db, AfterExpiries(db, keys, now, lazy))
    decreases |keys|
  {
    if keys != [] {
      var first := AfterExpiry(db, keys[0], now, lazy);
      var rest := AfterExpiries(first.db, keys[1..], now, lazy);
      ExpiryReplays(sem, db, keys[0], now, lazy);
      ExpiriesReplay(sem, first.db, keys[1..], now, lazy);
      ReplayMore(sem, db, first, rest.log, rest.db);
    }
  }

  lemma SetReplays(sem: Semantics, db: Db, key: Bytes, value: Bytes, when: int)
    ensures ExecDbAll(sem, db, [[SET, key, value], ExpireAtCommand(key, when)]) == db[key := Entry(Str(value), Some(when))]
  {
    Names();
    var store, expire := [SET, key, value], ExpireAtCommand(key, when);
    var mid := db[key := Entry(Str(value), None)];
    assert ExecDb(sem, db, store) == mid;
    assert [store, expire][1..] == [expire];
    ExecOne(sem, mid, expire);
    ExecExpireAt(sem, mid, key, when);
  }

  /** The command stores an expire time counted from the current time. */
  ghost predicate StoresRelative(db: Db, cmd: Command, clock: Clock, lazy: bool)
    requires WellFormed(cmd)
  {
    match cmd
    case Expire(unit, relative, key, amount) =>
      && relative && key in db && !IsExpired(db, key, clock.cached)
      && When(unit, amount, clock.base) > clock.check
    case Setex(unit, key, _, amount) => StoresTimed(db, key, SetFlags(Anyway, Some(Expiry(unit, amount))), clock)
    case SetWith(key, _, options) => Parsed(options).Some? && StoresTimed(db, key, Parsed(options).value, clock)
    case _ => false
  }

  predicate Present(db: Db, key: Bytes, clock: Clock) {
    key in db && !IsExpired(db, key, clock.cached)
  }

  predicate StoresTimed(db: Db, key: Bytes, flags: SetFlags, clock: Clock) {
    flags.expire.Some? && flags.expire.value.amount > 0 && !Refused(flags.condition, Present(db, key, clock))
  }

  /** The command keeps an expire time that the SET fed for it drops. */
  ghost predicate DropsExpire(db: Db, cmd: Command, clock: Clock) {
    && cmd.IncrByFloat? && Present(db, cmd.key, clock)
    && db[cmd.key].value.Str? && db[cmd.key].expire.Some?
  }

  /** A command whose log entry says what it did. */
  ghost predicate Faithful(db: Db, cmd: Command, clock: Clock, lazy: bool)
    requires WellFormed(cmd)
  {
    (StoresRelative(db, cmd, clock, lazy) ==> clock.base == clock.feed) && !DropsExpire(db, cmd, clock)
  }

  lemma LiveExpire(sem: Semantics, db: Db, cmd: Command, clock: Clock, lazy: bool)
    requires cmd.Expire?
    ensures StoresRelative(db, cmd, clock, lazy) ==>
              Live(sem, db, cmd, clock, lazy) ==
              Effect(db[cmd.key := Entry(db[cmd.key].value, Some(When(cmd.unit, cmd.amount, clock.base)))],
                     [ExpireAtCommand(cmd.key, When(cmd.unit, cmd.amount, clock.feed))])
    ensures !StoresRelative(db, cmd, clock, lazy) ==> Replays(sem, db, Live(sem, db, cmd, clock, lazy))
  {
    ExpiryReplays(sem, db, cmd.key, clock.cached, lazy);
    var e := AfterExpiry(db, cmd.key, clock.cached, lazy);
    if cmd.key in e.db {
      assert e == Effect(db, []);
      var when := When(cmd.unit, cmd.amount, if cmd.relative then clock.base else 0);
      if when <= clock.check {
        ExecDelete(sem, db, lazy, cmd.key);
        ExecOne(sem, db, Delete(lazy, cmd.key));
        ReplayMore(sem, db, e, [Delete(lazy, cmd.key)], db - {cmd.key});
      } else {
        ExecExpireAt(sem, db, cmd.key, when);
        ExecOne(sem, db, ExpireAtCommand(cmd.key, when));
        if !cmd.relative {
          ReplayMore(sem, db, e, [ExpireAtCommand(cmd.key, when)], db[cmd.key := Entry(db[cmd.key].value, Some(when))]);
        }
      }
    }
  }

  lemma WrapInjective(x: int, a: int, b: int)
    requires Is64(a) && Is64(b)
    ensures Wrap64(x + a) == Wrap64(x + b) <==> a == b
  {
    var m := 0x1_0000_0000_0000_0000;
    var u, v := x + a + 0x8000_0000_0000_0000, x + b + 0x8000_0000_0000_0000;
    if Wrap64(x + a) == Wrap64(x + b) {
      assert u == u / m * m + u % m && v == v / m * m + v % m;
      assert u - v == (u / m - v / m) * m;
      assert u / m == v / m;
    }
  }

  /** One command: its log replays to the same database exactly when it stored no relative
      expire time, or read the same clock for storing and for logging it, and it is no
      INCRBYFLOAT on a string with an expire time. */
  lemma CommandReplaysIff(sem: Semantics, db: Db, cmd: Command, clock: Clock, lazy: bool)
    requires WellFormed(cmd) && Is64(clock.base) && Is64(clock.feed)
    ensures Replays(sem, db, Live(sem, db, cmd, clock, lazy)) <==> Faithful(db, cmd, clock, lazy)
  {
    match cmd
    case Expire(unit, _, key, amount) =>
      LiveExpire(sem, db, cmd, clock, lazy);
      if StoresRelative(db, cmd, clock, lazy) {
        var stored, logged := When(unit, amount, clock.base), When(unit, amount, clock.feed);
        ExecExpireAt(sem, db, key, logged);
        ExecOne(sem, db, ExpireAtCommand(key, logged));
        WrapInjective(if unit == Seconds then Wrap64(amount * 1000) else amount, clock.base, clock.feed);
        DiffersIff(db, key, db[key].value, stored, logged);
      }
    case Setex(unit, key, value, amount) =>
      StoreReplaysIff(sem, db, key, value, SetFlags(Anyway, Some(Expiry(unit, amount))), clock, lazy);
    case SetWith(key, value, options) =>
      if Parsed(options).Some? { StoreReplaysIff(sem, db, key, value, Parsed(options).value, clock, lazy); }
    case IncrByFloat(key, result) => FloatReplaysIff(sem, db, cmd, clock, lazy);
    case Plain(argv, keys, dirty) =>
      ExpiriesReplay(sem, db, keys, clock.cached, lazy);
      var e := AfterExpiries(db, keys, clock.cached, lazy);
      ExecOne(sem, e.db, argv);
      var after := ExecDb(sem, e.db, argv);
      ReplayMore(sem, db, e, if dirty || after != e.db then [argv] else [], after);
    case Access(key) => ExpiryReplays(sem, db, key, clock.cached, lazy);
    case ActiveExpire(key) =>
      ExecDelete(sem, db, lazy, key);
      ExecOne(sem, db, Delete(lazy, key));
  }

  lemma DiffersIff(db: Db, key: Bytes, value: Value, stored: int, logged: int)
    ensures db[key := Entry(value, Some(logged))] == db[key := Entry(value, Some(stored))] <==> logged == stored
  {
    assert db[key := Entry(value, Some(logged))][key] == Entry(value, Some(logged));
    assert db[key := Entry(value, Some(stored))][key] == Entry(value, Some(stored));
  }

  lemma StoreReplaysIff(sem: Semantics, db: Db, key: Bytes, value: Bytes, flags: SetFlags, clock: Clock, lazy: bool)
    requires Is64(clock.base) && Is64(clock.feed)
    ensures Replays(sem, db, StoreString(db, key, value, flags, clock, lazy)) <==>
            (StoresTimed(db, key, flags, clock) ==> clock.base == clock.feed)
  {
    ExpiryReplays(sem, db, key, clock.cached, lazy);
    var e := AfterExpiry(db, key, clock.cached, lazy);
    if !Refused(flags.condition, key in e.db) {
      if flags.expire.None? {
        StoredReplays(sem, e.db, key, value);
        ReplayMore(sem, db, e, [[SET, key, value]], e.db[key := Entry(Str(value), None)]);
      } else if flags.expire.value.amount > 0 {
        TimedReplaysIff(sem, db, e, key, value, flags.expire.value, clock);
      }
    }
  }

  lemma StoredReplays(sem: Semantics, db: Db, key: Bytes, value: Bytes)
    ensures ExecDbAll(sem, db, [[SET, key, value]]) == db[key := Entry(Str(value), None)]
  {
    Names();
    ExecOne(sem, db, [SET, key, value]);
  }

  lemma TimedReplaysIff(sem: Semantics, db: Db, e: Effect, key: Bytes, value: Bytes, x: Expiry, clock: Clock)
    requires Is64(clock.base) && Is64(clock.feed) && Replays(sem, db, e)
    ensures var when, logged := When(x.unit, x.amount, clock.base), When(x.unit, x.amount, clock.feed);
      Replays(sem, db, Effect(e.db[key := Entry(Str(value), Some(when))],
                              e.log + [[SET, key, value], ExpireAtCommand(key, logged)])) <==>
      clock.base == clock.feed
  {
    var when, logged := When(x.unit, x.amount, clock.base), When(x.unit, x.amount, clock.feed);
    var cmds := [[SET, key, value], ExpireAtCommand(key, logged)];
    SetReplays(sem, e.db, key, value, logged);
    WrapInjective(if x.unit == Seconds then Wrap64(x.amount * 1000) else x.amount, clock.base, clock.feed);
    DiffersIff(e.db, key, Str(value), when, logged);
    ExecDbAllConcat(sem, db, e.log, cmds);
  }

  lemma FloatReplaysIff(sem: Semantics, db: Db, cmd: Command, clock: Clock, lazy: bool)
    requires cmd.IncrByFloat?
    ensures Replays(sem, db, Live(sem, db, cmd, clock, lazy)) <==> !DropsExpire(db, cmd, clock)
  {
    var key, result := cmd.key, cmd.result;
    ExpiryReplays(sem, db, key, clock.cached, lazy);
    var e := AfterExpiry(db, key, clock.cached, lazy);
    StoredReplays(sem, e.db, key, result);
    ExecDbAllConcat(sem, db, e.log, [[SET, key, result]]);
    var kept, replayed := e.db[key := Entry(Str(result), ExpireOf(e.db, key))], e.db[key := Entry(Str(result), None)];
    assert kept[key] == Entry(Str(result), ExpireOf(e.db, key)) && replayed[key] == Entry(Str(result), None);
  }

  /** INCRBYFLOAT on a key with an expire time: replaying the SET makes the key persistent. */
  lemma FloatForgetsExpire(sem: Semantics, key: Bytes, value: Bytes, result: Bytes, when: int)
    ensures var db := map[key := Entry(Str(value), Some(when))];
      var e := Live(sem, db, IncrByFloat(key, result), Clock(when, when, when, when), false);
      && e.db == map[key := Entry(Str(result), Some(when))]
      && ExecDbAll(sem, db, e.log) == map[key := Entry(Str(result), None)]
  {
    var db := map[key := Entry(Str(value), Some(when))];
    StoredReplays(sem, db, key, result);
    assert [] + [[SET, key, result]] == [[SET, key, result]];
  }

  // ---------------------------------------------------------------------------
  // Whole runs over several databases
  // ---------------------------------------------------------------------------

  datatype Server = Server(dbs: seq<Db>, selected: int, log: seq<Argv>)

  datatype Call = Call(db: nat, cmd: Command, clock: Clock, lazy: bool)

  ghost predicate CanCall(dbnum: nat, call: Call) {
    && call.db < dbnum && WellFormed(call.cmd)
    && Is64(call.clock.base) && Is64(call.clock.feed)
  }

  function Called(sem: Semantics, s: Server, call: Call): Server
    requires call.db < |s.dbs| && WellFormed(call.cmd)
  {
    var e := Live(sem, s.dbs[call.db], call.cmd, call.clock, call.lazy);
    Server(s.dbs[call.db := e.db], if e.log == [] then s.selected else call.db, s.log + Fed(s.selected, call.db, e.log))
  }

  ghost predicate ValidCalls(dbnum: nat, calls: seq<Call>) {
    forall i :: 0 <= i < |calls| ==> CanCall(dbnum, calls[i])
  }

  function CallAll(sem: Semantics, s: Server, calls: seq<Call>): (r: Server)
    requires forall i :: 0 <= i < |calls| ==> calls[i].db < |s.dbs| && WellFormed(calls[i].cmd)
    ensures |r.dbs| == |s.dbs|
    decreases |calls|
  {
    if calls == [] then s else CallAll(sem, Called(sem, s, calls[0]), calls[1..])
  }

  /** Every call is logged as what it did. */
  ghost predicate AllFaithful(sem: Semantics, s: Server, calls: seq<Call>)
    requires forall i :: 0 <= i < |calls| ==> calls[i].db < |s.dbs| && WellFormed(calls[i].cmd)
    decreases |calls|
  {
    calls == [] || (
      var c := calls[0];
      && Faithful(s.dbs[c.db], c.cmd, c.clock, c.lazy)
      && AllFaithful(sem, Called(sem, s, c), calls[1..]))
  }

  /** Replaying the log so far from `from` gives the server's databases, and the client
      replaying it is in the database logged last. */
  ghost predicate InStep(sem: Semantics, s: Server, from: State) {
    var r := ExecAll(sem, from, s.log);
    r.dbs == s.dbs && (s.selected != -1 ==> r.cur == s.selected)
  }

  lemma {:induction false} ExpiriesHaveNoSelect(db: Db, keys: seq<Bytes>, now: int, lazy: bool)
    ensures NoSelect(AfterExpiries(db, keys, now, lazy).log)
    decreases |keys|
  {
    Names();
    if keys != [] { ExpiriesHaveNoSelect(AfterExpiry(db, keys[0], now, lazy).db, keys[1..], now, lazy); }
  }

  lemma LogHasNoSelect(sem: Semantics, db: Db, cmd: Command, clock: Clock, lazy: bool)
    requires WellFormed(cmd)
    ensures NoSelect(Live(sem, db, cmd, clock, lazy).log)
  {
    Names();
    if cmd.Plain? { ExpiriesHaveNoSelect(db, cmd.keys, clock.cached, lazy); }
  }

  lemma FedReplays(sem: Semantics, r: State, selected: int, d: nat, e: Effect)
    requires d < |r.dbs| && (selected != -1 ==> r.cur == selected) && -1 <= selected
    requires Replays(sem, r.dbs[d], e) && NoSelect(e.log)
    ensures var r' := ExecAll(sem, r, Fed(selected, d, e.log));
      r'.dbs == r.dbs[d := e.db] && (e.log != [] ==> r'.cur == d) && (e.log == [] ==> r'.cur == r.cur)
  {
    if e.log == [] {
      assert r.dbs[d := r.dbs[d]] == r.dbs;
    } else if d != selected {
      ExecSelect(sem, r, d);
      assert ([SelectCommand(d)] + e.log)[1..] == e.log;
      ExecAllInDb(sem, r.(cur := d), e.log);
    } else {
      assert [] + e.log == e.log;
      ExecAllInDb(sem, r, e.log);
    }
  }

  lemma CallKeepsStep(sem: Semantics, s: Server, from: State, call: Call)
    requires CanCall(|s.dbs|, call) && InStep(sem, s, from) && -1 <= s.selected
    requires Faithful(s.dbs[call.db], call.cmd, call.clock, call.lazy)
    ensures InStep(sem, Called(sem, s, call), from)
  {
    var e := Live(sem, s.dbs[call.db], call.cmd, call.clock, call.lazy);
    CommandReplaysIff(sem, s.dbs[call.db], call.cmd, call.clock, call.lazy);
    LogHasNoSelect(sem, s.dbs[call.db], call.cmd, call.clock, call.lazy);
    ExecAllConcat(sem, from, s.log, Fed(s.selected, call.db, e.log));
    FedReplays(sem, ExecAll(sem, from, s.log), s.selected, call.db, e);
  }

  /** Any run of commands over any databases: replaying what was logged, at whatever time,
      gives the same values and the same absolute expire times in the same databases. */
  lemma {:induction false} LogReplays(sem: Semantics, s: Server, from: State, calls: seq<Call>)
    requires ValidCalls(|s.dbs|, calls) && AllFaithful(sem, s, calls) && InStep(sem, s, from) && -1 <= s.selected
    ensures InStep(sem, CallAll(sem, s, calls), from)
    decreases |calls|
  {
    if calls != [] {
      CallKeepsStep(sem, s, from, calls[0]);
      LogReplays(sem, Called(sem, s, calls[0]), from, calls[1..]);
    }
  }

  /** With two readings the replayed key lives longer than the original did. */
  lemma LateFeedMovesExpire(sem: Semantics, key: Bytes, value: Bytes)
    ensures var e := Live(sem, map[], Setex(Millis, key, value, 5), Clock(1, 1, 1, 2), false);
      && e.db == map[key := Entry(Str(value), Some(6))]
      && ExecDbAll(sem, map[], e.log) == map[key := Entry(Str(value), Some(7))]
  {
    assert When(Millis, 5, 1) == 6 && When(Millis, 5, 2) == 7;
    var cmds := [[SET, key, value], ExpireAtCommand(key, 7)];
    SetReplays(sem, map[], key, value, 7);
    assert [] + cmds == cmds;
  }

  // ---------------------------------------------------------------------------
  // The dictionaries of a database
  // ---------------------------------------------------------------------------

  function Joined(dict: map<Bytes, Value>, expires: map<Bytes, int>): Db {
    map k | k in dict :: Entry(dict[k], if k in expires then Some(expires[k]) else None)
  }

  lemma JoinedDelete(dict: map<Bytes, Value>, expires: map<Bytes, int>, key: Bytes)
    ensures Joined(dict - {key}, expires - {key}) == Joined(dict, expires) - {key}
  {}

  lemma JoinedSet(dict: map<Bytes, Value>, expires: map<Bytes, int>, key: Bytes, value: Value, when: int)
    ensures Joined(dict[key := value], expires[key := when]) == Joined(dict, expires)[key := Entry(value, Some(when))]
  {}

  /** The expire times once the key is stored. */
  ghost predicate Stored(before: map<Bytes, int>, after: map<Bytes, int>, key: Bytes, expire: Option<Expiry>, clock: Clock) {
    match expire
    case None => after == before - {key}
    case Some(Expiry(unit, amount)) => after == before[key := When(unit, amount, clock.base)]
  }

  class Keyspace {
    var dict: map<Bytes, Value>
    var expires: map<Bytes, int>

    /** Only stored keys have an expire time. */
    ghost predicate Valid()
      reads this
    {
      expires.Keys <= dict.Keys
    }

    ghost function View(): Db
      reads this
    {
      Joined(dict, expires)
    }

    /** The key has an expire time that is not negative and is over. */
    predicate Due(key: Bytes, now: int)
      reads this
    {
      key in expires && 0 <= expires[key] < now
    }

    constructor ()
      ensures Valid() && View() == map[]
    {
      dict, expires := map[], map[];
    }

    /** dbSyncDelete. */
    method DbDelete(key: Bytes) returns (deleted: bool)
      requires Valid()
      modifies this
      ensures Valid() && View() == old(View()) - {key} && deleted == (key in old(dict))
      ensures dict == old(dict) - {key} && expires == old(expires) - {key}
    {
      JoinedDelete(dict, expires, key);
      assert |expires| == 0 ==> expires - {key} == expires;
      if |expires| > 0 { expires := expires - {key}; }
      deleted := key in dict;
      dict := dict - {key};
    }

    /** expireIfNeeded, with the DEL that propagateExpire feeds. */
    method ExpireIfNeeded(key: Bytes, now: int, lazy: bool) returns (log: seq<Argv>)
      requires Valid()
      modifies this
      ensures Valid() && Effect(View(), log) == AfterExpiry(old(View()), key, now, lazy)
      ensures if key in old(expires) && 0 <= old(expires)[key] < now
              then dict == old(dict) - {key} && expires == old(expires) - {key} && log == [[if lazy then UNLINK else DEL, key]]
              else dict == old(dict) && expires == old(expires) && log == []
    {
      var when := if key in expires then expires[key] else -1;
      if when < 0 || now <= when { return []; }
      log := [Delete(lazy, key)];
      var _ := DbDelete(key);
    }

    /** activeExpireCycleTryExpire on an entry of the expires dictionary. */
    method TryActiveExpire(key: Bytes, clock: Clock, lazy: bool) returns (log: seq<Argv>)
      requires Valid()
      modifies this
      ensures Valid() && Effect(View(), log) == Timed(old(View()), ActiveExpire(key), clock, lazy)
      ensures if key in old(expires) && old(expires)[key] < clock.cached
              then dict == old(dict) - {key} && expires == old(expires) - {key} && log == [[if lazy then UNLINK else DEL, key]]
              else dict == old(dict) && expires == old(expires) && log == []
    {
      log := [];
      if key in expires && clock.cached > expires[key] {
        log := [Delete(lazy, key)];
        var _ := DbDelete(key);
      }
    }

    /** expireGenericCommand on a master that is not loading, and what is fed for it. */
    method ExpireGeneric(unit: Unit, relative: bool, key: Bytes, amount: int, clock: Clock, lazy: bool)
      returns (log: seq<Argv>)
      requires Valid()
      modifies this
      ensures Valid()
      ensures Effect(View(), log) == Timed(old(View()), Expire(unit, relative, key, amount), clock, lazy)
      ensures var when := When(unit, amount, if relative then clock.base else 0);
        if key in old(dict) && !old(Due(key, clock.cached)) && when > clock.check
        then dict == old(dict) && expires == old(expires)[key := when]
        else dict == if key in old(dict) then old(dict) - {key} else old(dict)
    {
      var when := if unit == Seconds then Wrap64(amount * 1000) else amount;
      when := Wrap64(when + if relative then clock.base else 0);
      log := ExpireIfNeeded(key, clock.cached, lazy);
      if key !in dict { return; }
      JoinedSet(dict, expires, key, dict[key], when);
      assert dict[key := dict[key]] == dict;
      if when <= clock.check {
        var deleted := DbDelete(key);
        log := log + [Delete(lazy, key)];
      } else {
        expires := expires[key := when];
        log := log + [ExpireAtCommand(key, When(unit, amount, if relative then clock.feed else 0))];
      }
    }

    /** NX wants the key absent, XX wants it present; an expired key is absent. */
    predicate Allows(condition: Condition, key: Bytes, now: int)
      reads this
    {
      && (condition == IfMissing ==> key !in dict || Due(key, now))
      && (condition == IfPresent ==> key in dict && !Due(key, now))
    }

    /** setGenericCommand, and what is fed for it. */
    method SetGeneric(key: Bytes, value: Bytes, flags: SetFlags, clock: Clock, lazy: bool) returns (log: seq<Argv>)
      requires Valid()
      modifies this
      ensures Valid()
      ensures Effect(View(), log) == StoreString(old(View()), key, value, flags, clock, lazy)
      ensures flags.expire.Some? && flags.expire.value.amount <= 0 ==>
                dict == old(dict) && expires == old(expires) && log == []
      ensures (flags.expire.Some? ==> flags.expire.value.amount > 0) && old(Allows(flags.condition, key, clock.cached)) ==>
                dict == old(dict)[key := Str(value)] && Stored(old(expires), expires, key, flags.expire, clock)
      ensures (flags.expire.Some? ==> flags.expire.value.amount > 0) && !old(Allows(flags.condition, key, clock.cached)) ==>
                if old(Due(key, clock.cached)) then dict == old(dict) - {key} && expires == old(expires) - {key}
                else dict == old(dict) && expires == old(expires)
    {
      if flags.expire.Some? && flags.expire.value.amount <= 0 { return []; }
      log := ExpireIfNeeded(key, clock.cached, lazy);
      if (flags.condition == IfMissing && key in dict) || (flags.condition == IfPresent && key !in dict) { return; }
      var more := StoreNow(key, value, flags.expire, clock);
      log := log + more;
    }

    /** The end of setGenericCommand: the value, then the expire time. */
    method StoreNow(key: Bytes, value: Bytes, expire: Option<Expiry>, clock: Clock) returns (log: seq<Argv>)
      requires Valid()
      modifies this
      ensures Valid() && dict == old(dict)[key := Str(value)] && Stored(old(expires), expires, key, expire, clock)
      ensures expire.None? ==> View() == old(View())[key := Entry(Str(value), None)] && log == [[SET, key, value]]
      ensures expire.Some? ==>
                && View() == old(View())[key := Entry(Str(value), Some(When(expire.value.unit, expire.value.amount, clock.base)))]
                && log == [[SET, key, value],
                           ExpireAtCommand(key, When(expire.value.unit, expire.value.amount, clock.feed))]
    {
      SetKey(key, Str(value));
      log := [[SET, key, value]];
      if expire.Some? {
        var milliseconds := expire.value.amount;
        if expire.value.unit == Seconds { milliseconds := Wrap64(milliseconds * 1000); }
        JoinedSet(dict, expires, key, Str(value), Wrap64(milliseconds + clock.base));
        assert dict[key := Str(value)] == dict;
        expires := expires[key := Wrap64(milliseconds + clock.base)];
        log := log + [ExpireAtCommand(key, When(expire.value.unit, expire.value.amount, clock.feed))];
      }
    }

    /** setKey: the key is stored and becomes persistent. */
    method SetKey(key: Bytes, value: Value)
      requires Valid()
      modifies this
      ensures Valid() && View() == old(View())[key := Entry(value, None)]
      ensures dict == old(dict)[key := value] && expires == old(expires) - {key}
    {
      dict := dict[key := value];
      expires := expires - {key};
    }

    /** incrbyfloatCommand for a sum that is a number, `result`. */
    method IncrementByFloat(key: Bytes, result: Bytes, clock: Clock, lazy: bool) returns (log: seq<Argv>)
      requires Valid()
      modifies this
      ensures Valid() && Effect(View(), log) == StoreFloat(old(View()), key, result, clock, lazy)
      ensures var gone := old(Due(key, clock.cached));
        if !gone && key in old(dict) && !old(dict)[key].Str? then dict == old(dict) && expires == old(expires)
        else dict == old(dict)[key := Str(result)] && expires == if gone then old(expires) - {key} else old(expires)
    {
      log := ExpireIfNeeded(key, clock.cached, lazy);
      if key in dict && !dict[key].Str? { return; }
      dict := dict[key := Str(result)];
      log := log + [[SET, key, result]];
    }
  }
}
