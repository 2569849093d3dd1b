/** Writing commands to the append only file and loading it back (src/aof.c), for every file
    the writer can leave behind, complete or cut at any byte. */
module AofLoad {
  import opened AofBytes
  import opened AofCodec
  import AofData

  // ---------------------------------------------------------------------------
  // Writer
  // ---------------------------------------------------------------------------

  lemma {:induction false} BulksSplit(argv: Argv, j: nat)
    requires j < |argv|
    ensures Bulks(argv[..j + 1]) == Bulks(argv[..j]) + Bulk(argv[j])
    decreases j
  {
    if j == 0 {
      assert argv[..1] == [argv[0]] && argv[..0] == [];
      assert Bulks([argv[0]]) == Bulk(argv[0]) + Bulks([]);
    } else {
      assert argv[..j + 1][1..] == argv[1..][..j] && argv[..j][1..] == argv[1..][..j - 1];
      BulksSplit(argv[1..], j - 1);
    }
  }

  lemma AppendBulk(dst: Bytes, done: Bytes, arg: Bytes)
    ensures (dst + done) + Head(DOLLAR, |arg|) + arg + CRLF == dst + (done + Bulk(arg))
  {
    AppendFive(dst, done, Head(DOLLAR, |arg|), arg, CRLF);
  }

  lemma AppendFive(a: Bytes, b: Bytes, c: Bytes, d: Bytes, e: Bytes)
    ensures (a + b) + c + d + e == a + (b + (c + d + e))
  {
    Assoc(a + b, c, d);
    Assoc(a + b, c + d, e);
    Assoc(a, b, c + d + e);
  }

  /** catAppendOnlyGenericCommand: appends one command to a buffer. */
  method CatGenericCommand(dst: Bytes, argv: Argv) returns (out: Bytes)
    ensures out == dst + Encode(argv)
  {
    ghost var head := Head(STAR, |argv|);
    out := dst + Head(STAR, |argv|);
    assert argv[..0] == [] && head + Bulks([]) == head;
    for j := 0 to |argv|
      invariant out == dst + (head + Bulks(argv[..j]))
    {
      BulksSplit(argv, j);
      AppendBulk(dst, head + Bulks(argv[..j]), argv[j]);
      Assoc(head, Bulks(argv[..j]), Bulk(argv[j]));
      out := out + Head(DOLLAR, |argv[j]|);
      out := out + argv[j];
      out := out + CRLF;
    }
    assert argv[..|argv|] == argv;
  }

  // ---------------------------------------------------------------------------
  // Loader
  // ---------------------------------------------------------------------------

  /** What the command table says about a command name; `quiet` commands are read-only or
      administrative. */
  datatype Kind = Unknown | Multi | Exec | Select | Other(quiet: bool)

  datatype Table = Table(kinds: Bytes -> Kind, dbnum: nat)

  function KindOf(table: Table, argv: Argv): Kind {
    if argv == [] then Unknown else table.kinds(argv[0])
  }

  const MULTI: Bytes := [77, 85, 76, 84, 73]
  const EXEC: Bytes := [69, 88, 69, 67]

  /** The log is not switched off while it is loaded: what EXEC propagates is fed to it again.
      `db` is the database of the fake client, `selected` the one logged last, `fed` the
      commands fed. */
  datatype Echo = Echo(db: nat, selected: int, fed: seq<Argv>)

  function DbAfter(table: Table, db: nat, cmds: seq<Argv>): nat
    decreases |cmds|
  {
    if cmds == [] then db
    else
      var argv := cmds[|cmds| - 1];
      var before := DbAfter(table, db, cmds[..|cmds| - 1]);
      if KindOf(table, argv) == Select && |argv| == 2 && 0 <= ParseInt(argv[1]) < table.dbnum then ParseInt(argv[1])
      else before
  }

  /** It is the database a client replaying the commands is in. */
  lemma {:induction false} DbAfterIsSelected(table: Table, sem: AofData.Semantics, s: AofData.State, cmds: seq<Argv>)
    requires |s.dbs| == table.dbnum && s.cur < table.dbnum
    requires forall name :: table.kinds(name) == Select <==> name == AofData.SELECT
    ensures DbAfter(table, s.cur, cmds) == AofData.ExecAll(sem, s, cmds).cur
    ensures |AofData.ExecAll(sem, s, cmds).dbs| == |s.dbs|
    decreases |cmds|
  {
    if cmds != [] {
      var init, last := cmds[..|cmds| - 1], cmds[|cmds| - 1];
      DbAfterIsSelected(table, sem, s, init);
      assert cmds == init + [last] && [last][1..] == [];
      AofData.ExecAllConcat(sem, s, init, [last]);
      var t := AofData.ExecAll(sem, s, init);
      assert AofData.ExecAll(sem, t, [last]) == AofData.Exec(sem, t, last);
      AofData.Names();
    }
  }

  /** Some command makes execCommand propagate a MULTI. */
  predicate Loud(table: Table, block: seq<Argv>) {
    exists i :: 0 <= i < |block| && KindOf(table, block[i]) != Other(true)
  }

  /** A command outside a transaction propagates nothing. */
  function AfterCommand(table: Table, e: Echo, argv: Argv): Echo {
    e.(db := DbAfter(table, e.db, [argv]))
  }

  /** execCommand while loading: the commands and the EXEC are not propagated, the MULTI before
      the first command that is not quiet is. */
  function AfterBlock(table: Table, e: Echo, block: seq<Argv>): Echo {
    var fed := if Loud(table, block) then AofData.Fed(e.selected, e.db, [[MULTI]]) else [];
    Echo(DbAfter(table, e.db, block), if fed == [] then e.selected else e.db, e.fed + fed)
  }

  /** The fake client and the two offsets of loadAppendOnlyFile. */
  datatype Client = Client(
    executed: seq<Argv>,
    inMulti: bool,
    queued: seq<Argv>,
    validUpTo: nat,
    beforeMulti: nat,
    echo: Echo)

  const SILENT := Echo(0, -1, [])

  const FRESH := Client([], false, [], 0, 0, SILENT)

  /** One loaded command, ending at file offset `end`. */
  function Process(table: Table, c: Client, kind: Kind, argv: Argv, end: nat): Client {
    var c1 := if kind == Multi then c.(beforeMulti := c.validUpTo) else c;
    var c2 :=
      if c1.inMulti && kind != Exec then c1.(queued := c1.queued + [argv])
      else match kind
           case Multi => c1.(inMulti := true, queued := [])
           case Exec =>
             if c1.inMulti then
               c1.(executed := c1.executed + c1.queued, inMulti := false, queued := [],
                   echo := AfterBlock(table, c1.echo, c1.queued))
             else c1
           case _ => c1.(executed := c1.executed + [argv], echo := AfterCommand(table, c1.echo, argv));
    c2.(validUpTo := end)
  }

  /** How the load ends. The loader exits on everything but `Loaded`, `Truncated` and
      `EmptyFile`; `Preamble` hands over to the RDB loader. */
  datatype Outcome = Loaded | Truncated(offset: nat) | FormatError | UnknownCommand | EmptyFile | Preamble

  /** `fed` is what loading left in the log buffer. */
  datatype Result = Result(outcome: Outcome, executed: seq<Argv>, fed: seq<Argv>)

  /** Loading the bytes that are left, with aof-load-truncated on. `size` is the file size. */
  function LoadRest(table: Table, size: nat, rest: Bytes, c: Client): Result
    requires |rest| <= size
    decreases |rest|
  {
    match ReadCommand(rest)
    case Eof => Result(if c.inMulti then Truncated(c.beforeMulti) else Loaded, c.executed, c.echo.fed)
    case Short => Result(Truncated(c.validUpTo), c.executed, c.echo.fed)
    case Bad => Result(FormatError, c.executed, c.echo.fed)
    case Got(argv, rest') =>
      ReadsForward(rest);
      if KindOf(table, argv) == Unknown then Result(UnknownCommand, c.executed, c.echo.fed)
      else LoadRest(table, size, rest', Process(table, c, KindOf(table, argv), argv, size - |rest'|))
  }

  lemma {:induction false} ReadBulksForward(s: Bytes, n: nat)
    ensures ReadBulks(s, n).Got? ==> |ReadBulks(s, n).rest| <= |s|
    decreases n
  {
    if n > 0 && ReadBulk(s).Got? { ReadBulksForward(ReadBulk(s).rest, n - 1); }
  }

  lemma ReadsForward(s: Bytes)
    ensures ReadCommand(s).Got? ==> |ReadCommand(s).rest| < |s|
  {
    if ReadCommand(s).Got? {
      ReadBulksForward(ReadLine(s).rest, ParseInt(ReadLine(s).value[1..]));
    }
  }

  const REDIS: Bytes := [82, 69, 68, 73, 83]

  function Load(table: Table, file: Bytes): Result {
    if file == [] then Result(EmptyFile, [], [])
    else if REDIS <= file then Result(Preamble, [], [])
    else LoadRest(table, |file|, file, FRESH)
  }

  /** The argument loop: reads until the first failure. */
  method ReadArguments(s: Bytes, argc: nat) returns (r: Read<Argv>)
    ensures r == ReadBulks(s, argc)
  {
    var argv, rest: Bytes := [], s;
    PrependNothing(ReadBulks(s, argc));
    for j := 0 to argc
      invariant ReadBulks(s, argc) == Prepend(argv, ReadBulks(rest, argc - j))
    {
      var bulk := ReadBulk(rest);
      if !bulk.Got? {
        return if bulk.Bad? then Bad else Short;
      }
      PrependTwice(argv, bulk.value, ReadBulks(bulk.rest, argc - j - 1));
      argv, rest := argv + [bulk.value], bulk.rest;
    }
    assert argv + [] == argv;
    return Got(argv, rest);
  }

  lemma PrependNothing(r: Read<Argv>)
    ensures Prepend([], r) == r
  {
    if r.Got? { assert [] + r.value == r.value; }
  }

  lemma PrependTwice(argv: Argv, arg: Bytes, r: Read<Argv>)
    ensures Prepend(argv, Prepend([arg], r)) == Prepend(argv + [arg], r)
  {
    if r.Got? { assert argv + ([arg] + r.value) == argv + [arg] + r.value; }
  }

  /** One turn of the read loop up to the command lookup. */
  method ReadNext(s: Bytes) returns (r: Read<Argv>)
    ensures r == ReadCommand(s)
  {
    var line := ReadLine(s);
    if line.Eof? { return Eof; }
    if line.value[0] != STAR { return Bad; }
    if |line.value| == 1 { return Short; }
    var argc := ParseInt(line.value[1..]);
    if argc < 1 { return Bad; }
    r := ReadArguments(line.rest, argc);
  }

  /** loadAppendOnlyFile. */
  method LoadAppendOnlyFile(table: Table, file: Bytes) returns (outcome: Outcome, executed: seq<Argv>, fed: seq<Argv>)
    ensures Result(outcome, executed, fed) == Load(table, file)
    ensures file == [] ==> outcome == EmptyFile && executed == [] && fed == []
    ensures REDIS <= file ==> outcome == Preamble && executed == [] && fed == []
  {
    if file == [] { return EmptyFile, [], []; }
    if REDIS <= file { return Preamble, [], []; }
    var r := LoadCommands(table, file);
    return r.outcome, r.executed, r.fed;
  }

  /** The read loop, over a file without preamble. */
  method LoadCommands(table: Table, file: Bytes) returns (r: Result)
    ensures r == LoadRest(table, |file|, file, FRESH)
  {
    var rest, c := file, FRESH;
    var done := false;
    r := Result(Loaded, [], []);
    while !done
      invariant Reading(table, file, done, r, rest, c)
      decreases !done, |rest|
    {
      ghost var was, client := rest, c;
      done, r, rest, c := LoadOne(table, |file|, rest, c);
      ReadOn(table, |file|, was, client, done, r, rest, c);
    }
  }

  /** The result so far, or what is left to load, is that of the whole file. */
  ghost predicate Reading(table: Table, file: Bytes, done: bool, r: Result, rest: Bytes, c: Client) {
    && |rest| <= |file|
    && (if done then r else LoadRest(table, |file|, rest, c)) == LoadRest(table, |file|, file, FRESH)
  }

  ghost predicate Turned(table: Table, size: nat, rest: Bytes, c: Client, done: bool, r: Result, rest': Bytes, c': Client)
    requires |rest| <= size
  {
    var next := ReadCommand(rest);
    && done == Stops(table, next)
    && (done ==> r == Stopped(next, c) && rest' == rest)
    && (!done ==>
          && rest' == next.rest && |rest'| < |rest|
          && c' == Process(table, c, KindOf(table, next.value), next.value, size - |rest'|))
  }

  lemma ReadOn(table: Table, size: nat, rest: Bytes, c: Client, done: bool, r: Result, rest': Bytes, c': Client)
    requires |rest| <= size && Turned(table, size, rest, c, done, r, rest', c')
    ensures |rest'| <= size && (if done then r else LoadRest(table, size, rest', c')) == LoadRest(table, size, rest, c)
  {
    var next := ReadCommand(rest);
    if done {
      LoadStops(table, size, rest, c);
    } else {
      LoadStep(table, size, rest, c, next.value, next.rest);
    }
  }

  /** The loop is left: nothing whole to read, or a command the table does not have. */
  predicate Stops(table: Table, next: Read<Argv>) {
    !next.Got? || KindOf(table, next.value) == Unknown
  }

  /** One turn of the read loop. */
  method LoadOne(table: Table, size: nat, rest: Bytes, c: Client) returns (done: bool, r: Result, rest': Bytes, c': Client)
    requires |rest| <= size
    ensures Turned(table, size, rest, c, done, r, rest', c')
  {
    var next := ReadNext(rest);
    if Stops(table, next) { return true, Stopped(next, c), rest, c; }
    ReadsForward(rest);
    c' := Process(table, c, KindOf(table, next.value), next.value, size - |next.rest|);
    return false, Result(Loaded, [], []), next.rest, c';
  }

  /** How the load ends when the loop is left. */
  function Stopped(next: Read<Argv>, c: Client): Result {
    match next
    case Eof => Result(if c.inMulti then Truncated(c.beforeMulti) else Loaded, c.executed, c.echo.fed)
    case Short => Result(Truncated(c.validUpTo), c.executed, c.echo.fed)
    case Bad => Result(FormatError, c.executed, c.echo.fed)
    case Got(_, _) => Result(UnknownCommand, c.executed, c.echo.fed)
  }

  lemma LoadStops(table: Table, size: nat, rest: Bytes, c: Client)
    requires |rest| <= size && Stops(table, ReadCommand(rest))
    ensures LoadRest(table, size, rest, c) == Stopped(ReadCommand(rest), c)
  {}

  lemma LoadStep(table: Table, size: nat, rest: Bytes, c: Client, argv: Argv, after: Bytes)
    requires |rest| <= size && ReadCommand(rest) == Got(argv, after) && KindOf(table, argv) != Unknown
    ensures |after| < |rest|
    ensures LoadRest(table, size, rest, c) ==
            LoadRest(table, size, after, Process(table, c, KindOf(table, argv), argv, size - |after|))
  {
    ReadsForward(rest);
  }

  // ---------------------------------------------------------------------------
  // What a log commits
  // ---------------------------------------------------------------------------

  /** The commands a log puts into effect: those outside MULTI, and the blocks that a
      MULTI opens and an EXEC closes. */
  function Committed(table: Table, cmds: seq<Argv>): seq<Argv>
    decreases |cmds|
  {
    if cmds == [] then []
    else match KindOf(table, cmds[0])
         case Multi =>
           var e := FirstExec(table, cmds[1..]);
           if e == |cmds| - 1 then []
           else cmds[1..e + 1] + Committed(table, cmds[e + 2..])
         case Exec => Committed(table, cmds[1..])
         case _ => [cmds[0]] + Committed(table, cmds[1..])
  }

  function FirstExec(table: Table, cmds: seq<Argv>): nat
    ensures FirstExec(table, cmds) <= |cmds|
    decreases |cmds|
  {
    if cmds == [] || KindOf(table, cmds[0]) == Exec then 0 else 1 + FirstExec(table, cmds[1..])
  }

  ghost predicate AllKnown(table: Table, cmds: seq<Argv>) {
    forall i :: 0 <= i < |cmds| ==> Sized(cmds[i]) && KindOf(table, cmds[i]) != Unknown
  }

  /** The client after loading `cmds`, the first of which starts at offset `from`. */
  function ProcessAll(table: Table, c: Client, cmds: seq<Argv>, from: nat): Client
    decreases |cmds|
  {
    if cmds == [] then c
    else
      var end := from + |Encode(cmds[0])|;
      ProcessAll(table, Process(table, c, KindOf(table, cmds[0]), cmds[0], end), cmds[1..], end)
  }

  /** The loader, at `rest` with client `c`, reads exactly the commands `cmds` and is then
      at `tail` with client `d`. */
  ghost predicate LoadsTo(table: Table, size: nat, rest: Bytes, c: Client, cmds: seq<Argv>, tail: Bytes, d: Client)
    decreases |cmds|
  {
    if cmds == [] then rest == tail && c == d
    else exists more ::
           && LoadsOne(table, size, rest, cmds[0], more)
           && LoadsTo(table, size, more, Process(table, c, KindOf(table, cmds[0]), cmds[0], size - |more|), cmds[1..], tail, d)
  }

  ghost predicate LoadsOne(table: Table, size: nat, rest: Bytes, argv: Argv, more: Bytes) {
    && |more| < |rest| <= size
    && ReadCommand(rest) == Got(argv, more)
    && KindOf(table, argv) != Unknown
  }

  lemma {:induction false} LoadsToSame(table: Table, size: nat, rest: Bytes, c: Client, cmds: seq<Argv>, tail: Bytes, d: Client)
    requires LoadsTo(table, size, rest, c, cmds, tail, d) && |rest| <= size
    ensures |tail| <= size && LoadRest(table, size, rest, c) == LoadRest(table, size, tail, d)
    decreases |cmds|
  {
    if cmds != [] {
      var more :| LoadsOne(table, size, rest, cmds[0], more)
        && LoadsTo(table, size, more, Process(table, c, KindOf(table, cmds[0]), cmds[0], size - |more|), cmds[1..], tail, d);
      LoadStep(table, size, rest, c, cmds[0], more);
      LoadsToSame(table, size, more, Process(table, c, KindOf(table, cmds[0]), cmds[0], size - |more|), cmds[1..], tail, d);
    }
  }

  lemma LoadsWholeOne(table: Table, size: nat, argv: Argv, more: Bytes)
    requires Sized(argv) && KindOf(table, argv) != Unknown && size >= |Encode(argv) + more|
    ensures LoadsOne(table, size, Encode(argv) + more, argv, more)
  {
    ReadWholeCommand(argv, more);
  }

  lemma LoadsCons(table: Table, size: nat, rest: Bytes, c: Client, cmds: seq<Argv>, more: Bytes, mid: Client,
                  tail: Bytes, d: Client)
    requires cmds != [] && Sized(cmds[0]) && KindOf(table, cmds[0]) != Unknown
    requires rest == Encode(cmds[0]) + more && size >= |rest|
    requires mid == Process(table, c, KindOf(table, cmds[0]), cmds[0], size - |more|)
    requires LoadsTo(table, size, more, mid, cmds[1..], tail, d)
    ensures LoadsTo(table, size, rest, c, cmds, tail, d)
  {
    LoadsWholeOne(table, size, cmds[0], more);
  }

  /** Loading whole commands followed by `tail` is processing them. */
  lemma {:induction false} LoadWhole(table: Table, size: nat, rest: Bytes, cmds: seq<Argv>, tail: Bytes, c: Client,
                                     from: nat, d: Client)
    requires AllKnown(table, cmds) && rest == EncodeAll(cmds) + tail && size == from + |rest|
    requires d == ProcessAll(table, c, cmds, from)
    ensures LoadsTo(table, size, rest, c, cmds, tail, d)
    decreases |cmds|
  {
    if cmds == [] {
      assert EncodeAll(cmds) + tail == tail;
    } else {
      var more := EncodeAll(cmds[1..]) + tail;
      Assoc(Encode(cmds[0]), EncodeAll(cmds[1..]), tail);
      var end := from + |Encode(cmds[0])|;
      var mid := Process(table, c, KindOf(table, cmds[0]), cmds[0], end);
      LoadWhole(table, size, more, cmds[1..], tail, mid, end, d);
      LoadsCons(table, size, rest, c, cmds, more, mid, tail, d);
    }
  }

  /** What is executed after `cmds`, given the state of the queue. */
  ghost function Expected(table: Table, c: Client, cmds: seq<Argv>): seq<Argv> {
    if !c.inMulti then c.executed + Committed(table, cmds)
    else
      var e := FirstExec(table, cmds);
      if e == |cmds| then c.executed
      else c.executed + (c.queued + cmds[..e]) + Committed(table, cmds[e + 1..])
  }

  lemma ExpectedStep(table: Table, c: Client, cmds: seq<Argv>, end: nat)
    requires cmds != []
    ensures Expected(table, Process(table, c, KindOf(table, cmds[0]), cmds[0], end), cmds[1..]) == Expected(table, c, cmds)
  {
    var rest, e := cmds[1..], FirstExec(table, cmds[1..]);
    if e < |rest| {
      assert cmds[1..e + 1] == rest[..e] && cmds[e + 2..] == rest[e + 1..];
    }
    if c.inMulti {
      if KindOf(table, cmds[0]) == Exec {
        assert c.queued + cmds[..0] == c.queued;
      } else if e < |rest| {
        assert c.queued + [cmds[0]] + rest[..e] == c.queued + cmds[..e + 1];
      }
    } else {
      match KindOf(table, cmds[0])
      case Multi => if e < |rest| { MultiCommits(c.executed, rest[..e], Committed(table, rest[e + 1..])); }
      case Exec =>
      case _ => assert c.executed + ([cmds[0]] + Committed(table, rest)) == c.executed + [cmds[0]] + Committed(table, rest);
    }
  }

  lemma MultiCommits(done: seq<Argv>, block: seq<Argv>, later: seq<Argv>)
    ensures done + ([] + block) + later == done + (block + later)
  {}

  /** The client's queue discipline computes the committed commands. */
  lemma {:induction false} ProcessCommits(table: Table, c: Client, cmds: seq<Argv>, from: nat)
    ensures ProcessAll(table, c, cmds, from).executed == Expected(table, c, cmds)
    decreases |cmds|
  {
    if cmds != [] {
      var end := from + |Encode(cmds[0])|;
      ExpectedStep(table, c, cmds, end);
      ProcessCommits(table, Process(table, c, KindOf(table, cmds[0]), cmds[0], end), cmds[1..], end);
    }
  }

  /** What loading a log feeds: along the commands outside MULTI and the closed blocks. */
  function Echoes(table: Table, e: Echo, cmds: seq<Argv>): Echo
    decreases |cmds|
  {
    if cmds == [] then e
    else match KindOf(table, cmds[0])
         case Multi =>
           var n := FirstExec(table, cmds[1..]);
           if n == |cmds| - 1 then e
           else Echoes(table, AfterBlock(table, e, cmds[1..n + 1]), cmds[n + 2..])
         case Exec => Echoes(table, e, cmds[1..])
         case _ => Echoes(table, AfterCommand(table, e, cmds[0]), cmds[1..])
  }

  ghost function ExpectedEcho(table: Table, c: Client, cmds: seq<Argv>): Echo {
    if !c.inMulti then Echoes(table, c.echo, cmds)
    else
      var n := FirstExec(table, cmds);
      if n == |cmds| then c.echo
      else Echoes(table, AfterBlock(table, c.echo, c.queued + cmds[..n]), cmds[n + 1..])
  }

  lemma EchoStep(table: Table, c: Client, cmds: seq<Argv>, end: nat)
    requires cmds != []
    ensures ExpectedEcho(table, Process(table, c, KindOf(table, cmds[0]), cmds[0], end), cmds[1..]) ==
            ExpectedEcho(table, c, cmds)
  {
    if c.inMulti {
      EchoQueued(table, c, cmds, end);
    } else if KindOf(table, cmds[0]) == Multi {
      EchoBegins(table, c, cmds, end);
    }
  }

  lemma EchoBegins(table: Table, c: Client, cmds: seq<Argv>, end: nat)
    requires cmds != [] && !c.inMulti && KindOf(table, cmds[0]) == Multi
    ensures ExpectedEcho(table, Process(table, c, Multi, cmds[0], end), cmds[1..]) == Echoes(table, c.echo, cmds)
  {
    var rest, n := cmds[1..], FirstExec(table, cmds[1..]);
    if n < |rest| {
      assert cmds[1..n + 1] == rest[..n] && cmds[n + 2..] == rest[n + 1..];
      assert [] + rest[..n] == rest[..n];
    }
  }

  lemma EchoQueued(table: Table, c: Client, cmds: seq<Argv>, end: nat)
    requires cmds != [] && c.inMulti
    ensures ExpectedEcho(table, Process(table, c, KindOf(table, cmds[0]), cmds[0], end), cmds[1..]) ==
            ExpectedEcho(table, c, cmds)
  {
    var rest, n := cmds[1..], FirstExec(table, cmds[1..]);
    if KindOf(table, cmds[0]) == Exec {
      assert c.queued + cmds[..0] == c.queued;
    } else if n < |rest| {
      assert cmds[n + 2..] == rest[n + 1..];
      assert c.queued + [cmds[0]] + rest[..n] == c.queued + cmds[..n + 1];
    }
  }

  /** The client feeds exactly that. */
  lemma {:induction false} ProcessEchoes(table: Table, c: Client, cmds: seq<Argv>, from: nat)
    ensures ProcessAll(table, c, cmds, from).echo == ExpectedEcho(table, c, cmds)
    decreases |cmds|
  {
    if cmds != [] {
      var end := from + |Encode(cmds[0])|;
      EchoStep(table, c, cmds, end);
      ProcessEchoes(table, Process(table, c, KindOf(table, cmds[0]), cmds[0], end), cmds[1..], end);
    }
  }

  /** Whether a MULTI is still open at the end of the log. */
  function Open(table: Table, cmds: seq<Argv>): bool {
    OpenFrom(table, false, cmds)
  }

  function OpenFrom(table: Table, inMulti: bool, cmds: seq<Argv>): bool
    decreases |cmds|
  {
    if cmds == [] then inMulti
    else OpenFrom(table, KindOf(table, cmds[0]) == Multi || (inMulti && KindOf(table, cmds[0]) != Exec), cmds[1..])
  }

  /** The index of the last MULTI, or 0. */
  function LastMulti(table: Table, cmds: seq<Argv>): nat
    ensures LastMulti(table, cmds) <= |cmds|
    decreases |cmds|
  {
    if cmds == [] then 0
    else if KindOf(table, cmds[|cmds| - 1]) == Multi then |cmds| - 1
    else LastMulti(table, cmds[..|cmds| - 1])
  }

  lemma {:induction false} EncodeAllConcat(xs: seq<Argv>, ys: seq<Argv>)
    ensures EncodeAll(xs + ys) == EncodeAll(xs) + EncodeAll(ys)
    decreases |xs|
  {
    if xs == [] {
      assert xs + ys == ys;
    } else {
      assert (xs + ys)[1..] == xs[1..] + ys;
      EncodeAllConcat(xs[1..], ys);
      Assoc(Encode(xs[0]), EncodeAll(xs[1..]), EncodeAll(ys));
    }
  }

  lemma EncodeAllUpTo(cmds: seq<Argv>, n: nat)
    requires n < |cmds|
    ensures EncodeAll(cmds[..n + 1]) == EncodeAll(cmds[..n]) + Encode(cmds[n])
  {
    assert cmds[..n + 1] == cmds[..n] + [cmds[n]];
    EncodeAllConcat(cmds[..n], [cmds[n]]);
    assert EncodeAll([cmds[n]]) == Encode(cmds[n]) + EncodeAll([]);
  }

  lemma {:induction false} ProcessAllSnoc(table: Table, c: Client, xs: seq<Argv>, last: Argv, from: nat, d: Client)
    requires d == ProcessAll(table, c, xs, from)
    ensures ProcessAll(table, c, xs + [last], from) ==
            Process(table, d, KindOf(table, last), last, from + |EncodeAll(xs)| + |Encode(last)|)
    decreases |xs|
  {
    if xs == [] {
      assert xs + [last] == [last] && [last][1..] == [];
    } else {
      assert (xs + [last])[1..] == xs[1..] + [last];
      var end := from + |Encode(xs[0])|;
      ProcessAllSnoc(table, Process(table, c, KindOf(table, xs[0]), xs[0], end), xs[1..], last, end, d);
    }
  }

  /** The offsets and the MULTI flag after a log loaded from the start. */
  lemma {:induction false} ClientAfter(table: Table, cmds: seq<Argv>)
    ensures var c := ProcessAll(table, FRESH, cmds, 0);
      && c.validUpTo == |EncodeAll(cmds)|
      && c.inMulti == Open(table, cmds)
      && c.beforeMulti == |EncodeAll(cmds[..LastMulti(table, cmds)])|
    decreases |cmds|
  {
    if cmds != [] {
      var n := |cmds| - 1;
      var init, last := cmds[..n], cmds[n];
      ClientAfter(table, init);
      assert cmds == init + [last];
      var before := ProcessAll(table, FRESH, init, 0);
      ProcessAllSnoc(table, FRESH, init, last, 0, before);
      EncodeAllUpTo(cmds, n);
      assert cmds[..n + 1] == cmds;
      OpenSnoc(table, false, init, last);
      var m := LastMulti(table, cmds);
      if m < n { assert cmds[..m] == init[..m]; }
    } else {
      assert cmds[..0] == [];
    }
  }

  lemma {:induction false} OpenSnoc(table: Table, inMulti: bool, cmds: seq<Argv>, last: Argv)
    ensures OpenFrom(table, inMulti, cmds + [last]) ==
            (KindOf(table, last) == Multi || (OpenFrom(table, inMulti, cmds) && KindOf(table, last) != Exec))
    decreases |cmds|
  {
    if cmds == [] {
      assert cmds + [last] == [last] && [last][1..] == [];
    } else {
      assert (cmds + [last])[1..] == cmds[1..] + [last];
      OpenSnoc(table, KindOf(table, cmds[0]) == Multi || (inMulti && KindOf(table, cmds[0]) != Exec), cmds[1..], last);
    }
  }

  // ---------------------------------------------------------------------------
  // Every prefix of a log loads safely
  // ---------------------------------------------------------------------------

  /** The log cut after n whole commands and k bytes of the next one. */
  function CutFile(cmds: seq<Argv>, n: nat, k: nat): Bytes
    requires n <= |cmds| && (if n < |cmds| then k < |Encode(cmds[n])| else k == 0)
  {
    EncodeAll(cmds[..n]) + if n < |cmds| then Encode(cmds[n])[..k] else []
  }

  /** Where the loader truncates such a file, if it does. */
  function CutOutcome(table: Table, cmds: seq<Argv>, n: nat, k: nat): Outcome
    requires n <= |cmds|
  {
    if k > 0 then Truncated(|EncodeAll(cmds[..n])|)
    else if Open(table, cmds[..n]) then Truncated(|EncodeAll(cmds[..LastMulti(table, cmds[..n])])|)
    else Loaded
  }

  /** Every prefix of a log is cut somewhere. */
  lemma {:induction false} PrefixIsCut(cmds: seq<Argv>, p: Bytes) returns (n: nat, k: nat)
    requires p <= EncodeAll(cmds)
    ensures n <= |cmds| && (if n < |cmds| then k < |Encode(cmds[n])| else k == 0)
    ensures p == CutFile(cmds, n, k)
    decreases |cmds|
  {
    if cmds == [] {
      n, k := 0, 0;
      assert cmds[..0] == [];
    } else {
      var first, others := Encode(cmds[0]), EncodeAll(cmds[1..]);
      assert p == (first + others)[..|p|];
      CutOfSum(first, others, |p|);
      if |p| < |first| {
        n, k := 0, |p|;
        assert cmds[..0] == [] && EncodeAll([]) == [];
        assert [] + first[..k] == first[..k];
      } else {
        n, k := PrefixIsCut(cmds[1..], others[..|p| - |first|]);
        n := n + 1;
        assert cmds[..n][1..] == cmds[1..][..n - 1] && cmds[..n][0] == cmds[0];
        Assoc(first, EncodeAll(cmds[1..][..n - 1]), if n < |cmds| then Encode(cmds[n])[..k] else []);
      }
    }
  }

  lemma StartsWithStar(cmds: seq<Argv>, p: Bytes)
    requires p <= EncodeAll(cmds) && p != []
    ensures p[0] == STAR
  {
    assert p[0] == EncodeAll(cmds)[0];
    assert Encode(cmds[0])[0] == STAR;
  }

  lemma CutIsPrefix(cmds: seq<Argv>, n: nat, k: nat)
    requires n <= |cmds| && (if n < |cmds| then k < |Encode(cmds[n])| else k == 0)
    ensures CutFile(cmds, n, k) <= EncodeAll(cmds)
  {
    assert cmds == cmds[..n] + cmds[n..];
    EncodeAllConcat(cmds[..n], cmds[n..]);
    if n < |cmds| {
      assert cmds[n..][0] == cmds[n];
      assert EncodeAll(cmds[n..]) == Encode(cmds[n]) + EncodeAll(cmds[n..][1..]);
      assert Encode(cmds[n])[..k] <= EncodeAll(cmds[n..]);
    }
  }

  /** Loading the rest of a cut file once its whole commands are processed. */
  lemma LoadTail(table: Table, size: nat, argv: Argv, k: nat, c: Client)
    requires Sized(argv) && k < |Encode(argv)| && k <= size
    ensures LoadRest(table, size, Encode(argv)[..k], c) ==
            Result(if k > 0 then Truncated(c.validUpTo) else if c.inMulti then Truncated(c.beforeMulti) else Loaded,
                   c.executed, c.echo.fed)
  {
    ReadCutCommand(argv, k);
  }

  /** A log cut at any byte loads without a format error: exactly the commands committed by
      its whole commands are executed, and the offset to truncate at is the end of the last
      whole command, or the start of the open transaction when the cut falls between two
      commands. */
  lemma CutFileLoads(table: Table, cmds: seq<Argv>, n: nat, k: nat)
    requires AllKnown(table, cmds) && n <= |cmds|
    requires if n < |cmds| then k < |Encode(cmds[n])| else k == 0
    requires CutFile(cmds, n, k) != []
    ensures Load(table, CutFile(cmds, n, k)) ==
            Result(CutOutcome(table, cmds, n, k), Committed(table, cmds[..n]), Echoes(table, SILENT, cmds[..n]).fed)
  {
    var whole, file := cmds[..n], CutFile(cmds, n, k);
    var tail := if n < |cmds| then Encode(cmds[n])[..k] else [];
    CutIsPrefix(cmds, n, k);
    StartsWithStar(cmds, file);
    var c := ProcessAll(table, FRESH, whole, 0);
    LoadWhole(table, |file|, file, whole, tail, FRESH, 0, c);
    LoadsToSame(table, |file|, file, FRESH, whole, tail, c);
    if n < |cmds| { LoadTail(table, |file|, cmds[n], k, c); }
    ClientAfterCut(table, cmds, n, k);
  }

  lemma ClientAfterCut(table: Table, cmds: seq<Argv>, n: nat, k: nat)
    requires n <= |cmds|
    ensures var c := ProcessAll(table, FRESH, cmds[..n], 0);
      && c.executed == Committed(table, cmds[..n])
      && c.echo.fed == Echoes(table, SILENT, cmds[..n]).fed
      && CutOutcome(table, cmds, n, k) ==
         if k > 0 then Truncated(c.validUpTo) else if c.inMulti then Truncated(c.beforeMulti) else Loaded
  {
    ClientAfter(table, cmds[..n]);
    ProcessCommits(table, FRESH, cmds[..n], 0);
    ProcessEchoes(table, FRESH, cmds[..n], 0);
    var m := LastMulti(table, cmds[..n]);
    assert cmds[..n][..m] == cmds[..m];
    assert [] + Committed(table, cmds[..n]) == Committed(table, cmds[..n]);
  }

  /** Whatever prefix of a log is on disk, `n` commands of it are whole; loading executes what
      those commit and reports a truncation offset, never a format error. */
  lemma EveryPrefixLoads(table: Table, cmds: seq<Argv>, p: Bytes) returns (n: nat, k: nat)
    requires AllKnown(table, cmds) && p <= EncodeAll(cmds) && p != []
    ensures n <= |cmds| && |p| == |EncodeAll(cmds[..n])| + k
    ensures n < |cmds| ==> |p| < |EncodeAll(cmds[..n + 1])|
    ensures Load(table, p) ==
            Result(CutOutcome(table, cmds, n, k), Committed(table, cmds[..n]), Echoes(table, SILENT, cmds[..n]).fed)
  {
    n, k := PrefixIsCut(cmds, p);
    CutFileLoads(table, cmds, n, k);
    if n < |cmds| { EncodeAllUpTo(cmds, n); }
  }

  // ---------------------------------------------------------------------------
  // Files that no writer left behind
  // ---------------------------------------------------------------------------

  /** What follows the whole commands decides how the load ends; they have taken effect. */
  lemma TailDecides(table: Table, cmds: seq<Argv>, tail: Bytes)
    requires AllKnown(table, cmds) && tail != [] && (cmds == [] ==> !(REDIS <= tail))
    requires ReadCommand(tail).Bad? || (ReadCommand(tail).Got? && KindOf(table, ReadCommand(tail).value) == Unknown)
    ensures Load(table, EncodeAll(cmds) + tail) ==
            Result(if ReadCommand(tail).Bad? then FormatError else UnknownCommand,
                   Committed(table, cmds), Echoes(table, SILENT, cmds).fed)
  {
    var file, c := EncodeAll(cmds) + tail, ProcessAll(table, FRESH, cmds, 0);
    if cmds == [] {
      assert file == tail;
    } else {
      assert Encode(cmds[0])[0] == STAR;
      assert file[0] == STAR;
    }
    LoadWhole(table, |file|, file, cmds, tail, FRESH, 0, c);
    LoadsToSame(table, |file|, file, FRESH, cmds, tail, c);
    LoadStops(table, |file|, tail, c);
    assert cmds[..|cmds|] == cmds;
    ClientAfterCut(table, cmds, |cmds|, 0);
  }

  /** A line that is not the head of a command, a count below one, or an argument without its
      length is a format error. */
  lemma MalformedIsFormatError(table: Table, cmds: seq<Argv>, tail: Bytes, argc: nat, more: Bytes)
    requires AllKnown(table, cmds) && tail != [] && (cmds == [] ==> !(REDIS <= tail))
    requires tail[0] != STAR || tail == Head(STAR, 0) + more
          || (tail == Head(STAR, argc) + more && 1 <= argc < 0x8000_0000 && more != [] && more[0] != DOLLAR)
    ensures Load(table, EncodeAll(cmds) + tail) ==
            Result(FormatError, Committed(table, cmds), Echoes(table, SILENT, cmds).fed)
  {
    if tail[0] == STAR {
      if tail == Head(STAR, 0) + more { ReadHead(STAR, 0, more); } else { ReadHead(STAR, argc, more); }
    }
    assert ReadCommand(tail).Bad?;
    TailDecides(table, cmds, tail);
  }

  /** A whole command that the table does not have ends the load there. */
  lemma UnknownIsReported(table: Table, cmds: seq<Argv>, argv: Argv, more: Bytes)
    requires AllKnown(table, cmds) && Sized(argv) && KindOf(table, argv) == Unknown
    ensures Load(table, EncodeAll(cmds) + (Encode(argv) + more)) ==
            Result(UnknownCommand, Committed(table, cmds), Echoes(table, SILENT, cmds).fed)
  {
    ReadWholeCommand(argv, more);
    assert Encode(argv)[0] == STAR;
    assert (Encode(argv) + more)[0] == STAR;
    TailDecides(table, cmds, Encode(argv) + more);
  }

  // ---------------------------------------------------------------------------
  // Logs one after another
  // ---------------------------------------------------------------------------

  lemma {:induction false} NoExec(table: Table, cmds: seq<Argv>)
    requires forall i :: 0 <= i < |cmds| ==> KindOf(table, cmds[i]) != Exec
    ensures FirstExec(table, cmds) == |cmds|
    decreases |cmds|
  {
    if cmds != [] { NoExec(table, cmds[1..]); }
  }

  lemma LoadCommits(table: Table, xs: seq<Argv>, c: Client)
    requires c == ProcessAll(table, FRESH, xs, 0)
    ensures c.executed == Committed(table, xs) && c.inMulti == Open(table, xs)
  {
    ProcessCommits(table, FRESH, xs, 0);
    ClientAfter(table, xs);
    assert [] + Committed(table, xs) == Committed(table, xs);
  }

  lemma {:induction false} LoadCommitsMore(table: Table, c: Client, xs: seq<Argv>, ys: seq<Argv>, from: nat, d: Client)
    requires d == ProcessAll(table, c, xs, from)
    ensures Expected(table, c, xs + ys) == Expected(table, d, ys)
    decreases |xs|
  {
    if xs == [] {
      assert xs + ys == ys;
    } else {
      var end := from + |Encode(xs[0])|;
      var next := Process(table, c, KindOf(table, xs[0]), xs[0], end);
      ExpectedStep(table, c, xs + ys, end);
      assert (xs + ys)[1..] == xs[1..] + ys;
      LoadCommitsMore(table, next, xs[1..], ys, end, d);
    }
  }

  /** What a log commits followed by what the commands appended to it add. */
  lemma CommittedConcat(table: Table, xs: seq<Argv>, ys: seq<Argv>)
    ensures !Open(table, xs) ==> Committed(table, xs + ys) == Committed(table, xs) + Committed(table, ys)
    ensures Open(table, xs) && FirstExec(table, ys) == |ys| ==> Committed(table, xs + ys) == Committed(table, xs)
  {
    var c := ProcessAll(table, FRESH, xs, 0);
    LoadCommits(table, xs, c);
    LoadCommitsMore(table, FRESH, xs, ys, 0, c);
    assert [] + Committed(table, xs + ys) == Committed(table, xs + ys);
  }

  lemma WholeLogLoads(table: Table, cmds: seq<Argv>)
    requires AllKnown(table, cmds)
    ensures Load(table, EncodeAll(cmds)).executed == Committed(table, cmds)
  {
    if cmds != [] {
      assert CutFile(cmds, |cmds|, 0) == EncodeAll(cmds) by { assert cmds[..|cmds|] == cmds; }
      assert EncodeAll(cmds)[0] == STAR by { assert Encode(cmds[0])[0] == STAR; }
      CutFileLoads(table, cmds, |cmds|, 0);
      assert cmds[..|cmds|] == cmds;
    }
  }
}
