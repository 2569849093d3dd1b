/** What becomes of a log that was loaded, truncated where the loader says, and written to again
    (src/aof.c with execCommand of src/multi.c). The log stays on while it is loaded, so every
    transaction that is replayed leaves a MULTI in the log buffer. */
module AofRepair {
  import opened AofBytes
  import opened AofCodec
  import opened AofLoad
  import AofData

  // ---------------------------------------------------------------------------
  // The file that is left
  // ---------------------------------------------------------------------------

  /** What is left of the file after the loader's truncation. */
  function Repaired(file: Bytes, outcome: Outcome): Bytes {
    if outcome.Truncated? && outcome.offset <= |file| then file[..outcome.offset] else file
  }

  /** How many whole commands the truncation keeps. */
  function Kept(table: Table, cmds: seq<Argv>, n: nat, k: nat): (m: nat)
    requires n <= |cmds|
    ensures m <= n
  {
    if k > 0 || !Open(table, cmds[..n]) then n else LastMulti(table, cmds[..n])
  }

  lemma EncodeAllPrefix(cmds: seq<Argv>, m: nat, n: nat)
    requires m <= n <= |cmds|
    ensures EncodeAll(cmds[..m]) <= EncodeAll(cmds[..n])
  {
    assert cmds[..n] == cmds[..m] + cmds[m..n];
    EncodeAllConcat(cmds[..m], cmds[m..n]);
  }

  lemma RepairedIsKept(table: Table, cmds: seq<Argv>, n: nat, k: nat)
    requires n <= |cmds| && (if n < |cmds| then k < |Encode(cmds[n])| else k == 0)
    ensures Repaired(CutFile(cmds, n, k), CutOutcome(table, cmds, n, k)) == EncodeAll(cmds[..Kept(table, cmds, n, k)])
  {
    var m := LastMulti(table, cmds[..n]);
    assert cmds[..n][..m] == cmds[..m];
    EncodeAllPrefix(cmds, m, n);
  }

  /** An open log ends with its last MULTI and no EXEC after it. */
  lemma {:induction false} OpenEnds(table: Table, cmds: seq<Argv>)
    requires Open(table, cmds)
    ensures var m := LastMulti(table, cmds);
      && m < |cmds| && KindOf(table, cmds[m]) == Multi
      && forall i :: m < i < |cmds| ==> KindOf(table, cmds[i]) != Exec
    decreases |cmds|
  {
    var n := |cmds| - 1;
    var init, last := cmds[..n], cmds[n];
    assert cmds == init + [last];
    OpenSnoc(table, false, init, last);
    if KindOf(table, last) != Multi { OpenEnds(table, init); }
  }

  /** Dropping the open transaction drops nothing that was committed. */
  lemma KeptCommits(table: Table, cmds: seq<Argv>, n: nat, k: nat)
    requires n <= |cmds|
    requires !Open(table, cmds[..Kept(table, cmds, n, k)])
    ensures Committed(table, cmds[..Kept(table, cmds, n, k)]) == Committed(table, cmds[..n])
  {
    var m := Kept(table, cmds, n, k);
    if m < n {
      OpenEnds(table, cmds[..n]);
      var block := cmds[m..n];
      assert cmds[..n] == cmds[..m] + block;
      CommittedConcat(table, cmds[..m], block);
      NoExec(table, block[1..]);
      assert Committed(table, block) == [];
    }
  }

  /** The kept commands commit no more than all of them. */
  lemma OnlyMore(table: Table, cmds: seq<Argv>, n: nat, k: nat)
    requires n <= |cmds|
    ensures |Committed(table, cmds[..Kept(table, cmds, n, k)])| <= |Committed(table, cmds[..n])|
  {
    var m := Kept(table, cmds, n, k);
    if m < n {
      OpenEnds(table, cmds[..n]);
      assert cmds[..n] == cmds[..m] + cmds[m..n];
      if Open(table, cmds[..m]) { NoExec(table, cmds[m..n]); }
      CommittedConcat(table, cmds[..m], cmds[m..n]);
    }
  }

  // ---------------------------------------------------------------------------
  // What loading added to it
  // ---------------------------------------------------------------------------

  /** A closed block holds a command that is not quiet. */
  predicate HasLoudBlock(table: Table, cmds: seq<Argv>)
    decreases |cmds|
  {
    cmds != [] &&
    match KindOf(table, cmds[0])
    case Multi =>
      var n := FirstExec(table, cmds[1..]);
      n < |cmds| - 1 && (Loud(table, cmds[1..n + 1]) || HasLoudBlock(table, cmds[n + 2..]))
    case _ => HasLoudBlock(table, cmds[1..])
  }

  /** The names the server feeds are those of the table, and databases are numbered by ints. */
  ghost predicate WellNamed(table: Table) {
    table.kinds(MULTI) == Multi && table.kinds(AofData.SELECT) == Select && table.dbnum < 0x8000_0000
  }

  /** Only SELECT and MULTI are fed, the first time one after the other. */
  ghost predicate FedWell(table: Table, e: Echo) {
    && (forall i :: 0 <= i < |e.fed| ==>
          Sized(e.fed[i]) && (KindOf(table, e.fed[i]) == Select || KindOf(table, e.fed[i]) == Multi))
    && (e.fed == [] ==> e.selected == -1)
    && (e.fed != [] ==> |e.fed| >= 2 && KindOf(table, e.fed[0]) == Select && KindOf(table, e.fed[1]) == Multi)
    && e.db < 0x8000_0000
  }

  lemma {:induction false} DbInRange(table: Table, db: nat, cmds: seq<Argv>)
    requires db < 0x8000_0000 && table.dbnum < 0x8000_0000
    ensures DbAfter(table, db, cmds) < 0x8000_0000
    decreases |cmds|
  {
    if cmds != [] { DbInRange(table, db, cmds[..|cmds| - 1]); }
  }

  lemma SelectIsSized(table: Table, db: nat)
    requires WellNamed(table) && db < 0x8000_0000
    ensures Sized(AofData.SelectCommand(db)) && KindOf(table, AofData.SelectCommand(db)) == Select
    ensures Sized([MULTI]) && KindOf(table, [MULTI]) == Multi
  {
    SizeDigits(db);
  }

  lemma BlockFeedsWell(table: Table, e: Echo, block: seq<Argv>)
    requires WellNamed(table) && FedWell(table, e)
    ensures FedWell(table, AfterBlock(table, e, block))
  {
    SelectIsSized(table, e.db);
    DbInRange(table, e.db, block);
  }

  lemma {:induction false} EchoesFeedWell(table: Table, e: Echo, cmds: seq<Argv>)
    requires WellNamed(table) && FedWell(table, e)
    ensures FedWell(table, Echoes(table, e, cmds))
    decreases |cmds|
  {
    if cmds != [] {
      match KindOf(table, cmds[0])
      case Multi =>
        var n := FirstExec(table, cmds[1..]);
        if n < |cmds| - 1 {
          BlockFeedsWell(table, e, cmds[1..n + 1]);
          EchoesFeedWell(table, AfterBlock(table, e, cmds[1..n + 1]), cmds[n + 2..]);
        }
      case Exec => EchoesFeedWell(table, e, cmds[1..]);
      case _ =>
        DbInRange(table, e.db, [cmds[0]]);
        EchoesFeedWell(table, AfterCommand(table, e, cmds[0]), cmds[1..]);
    }
  }

  /** Something is fed exactly when such a block is closed. */
  lemma {:induction false} EchoesAnythingIff(table: Table, e: Echo, cmds: seq<Argv>)
    ensures Echoes(table, e, cmds).fed != [] <==> e.fed != [] || HasLoudBlock(table, cmds)
    decreases |cmds|
  {
    if cmds != [] {
      match KindOf(table, cmds[0])
      case Multi =>
        var n := FirstExec(table, cmds[1..]);
        if n < |cmds| - 1 { EchoesAnythingIff(table, AfterBlock(table, e, cmds[1..n + 1]), cmds[n + 2..]); }
      case Exec => EchoesAnythingIff(table, e, cmds[1..]);
      case _ => EchoesAnythingIff(table, AfterCommand(table, e, cmds[0]), cmds[1..]);
    }
  }

  /** The log as fed leaves a client that replays it in the database logged last. */
  ghost predicate FedSelects(table: Table, e: Echo) {
    && e.db < table.dbnum
    && (if e.fed == [] then e.selected == -1 else e.selected == DbAfter(table, 0, e.fed))
  }

  lemma DbAfterSnoc(table: Table, db: nat, cmds: seq<Argv>, last: Argv)
    ensures DbAfter(table, db, cmds + [last]) ==
            if KindOf(table, last) == Select && |last| == 2 && 0 <= ParseInt(last[1]) < table.dbnum then ParseInt(last[1])
            else DbAfter(table, db, cmds)
  {
    assert (cmds + [last])[..|cmds|] == cmds;
  }

  lemma {:induction false} DbBelow(table: Table, db: nat, cmds: seq<Argv>)
    requires db < table.dbnum
    ensures DbAfter(table, db, cmds) < table.dbnum
    decreases |cmds|
  {
    if cmds != [] { DbBelow(table, db, cmds[..|cmds| - 1]); }
  }

  lemma BlockFeedsSelects(table: Table, e: Echo, block: seq<Argv>)
    requires WellNamed(table) && FedSelects(table, e)
    ensures FedSelects(table, AfterBlock(table, e, block))
  {
    DbBelow(table, e.db, block);
    if Loud(table, block) {
      var sel := AofData.SelectCommand(e.db);
      AofData.ParseSigned(e.db);
      var fed := if e.db != e.selected then e.fed + [sel] else e.fed;
      DbAfterSnoc(table, 0, e.fed, sel);
      assert DbAfter(table, 0, fed) == e.db;
      DbAfterSnoc(table, 0, fed, [MULTI]);
      assert e.fed + ([sel] + [[MULTI]]) == e.fed + [sel] + [[MULTI]] && [] + [[MULTI]] == [[MULTI]];
    } else {
      assert e.fed + [] == e.fed;
    }
  }

  lemma {:induction false} EchoesSelect(table: Table, e: Echo, cmds: seq<Argv>)
    requires WellNamed(table) && FedSelects(table, e)
    ensures FedSelects(table, Echoes(table, e, cmds))
    decreases |cmds|
  {
    if cmds != [] {
      match KindOf(table, cmds[0])
      case Multi =>
        var n := FirstExec(table, cmds[1..]);
        if n < |cmds| - 1 {
          BlockFeedsSelects(table, e, cmds[1..n + 1]);
          EchoesSelect(table, AfterBlock(table, e, cmds[1..n + 1]), cmds[n + 2..]);
        }
      case Exec => EchoesSelect(table, e, cmds[1..]);
      case _ =>
        DbBelow(table, e.db, [cmds[0]]);
        EchoesSelect(table, AfterCommand(table, e, cmds[0]), cmds[1..]);
    }
  }

  function LoudBlocks(table: Table, cmds: seq<Argv>): nat
    decreases |cmds|
  {
    if cmds == [] then 0
    else match KindOf(table, cmds[0])
         case Multi =>
           var n := FirstExec(table, cmds[1..]);
           if n == |cmds| - 1 then 0
           else (if Loud(table, cmds[1..n + 1]) then 1 else 0) + LoudBlocks(table, cmds[n + 2..])
         case _ => LoudBlocks(table, cmds[1..])
  }

  function Multis(table: Table, cmds: seq<Argv>): nat
    decreases |cmds|
  {
    if cmds == [] then 0
    else Multis(table, cmds[..|cmds| - 1]) + if KindOf(table, cmds[|cmds| - 1]) == Multi then 1 else 0
  }

  lemma MultisSnoc(table: Table, cmds: seq<Argv>, last: Argv)
    ensures Multis(table, cmds + [last]) == Multis(table, cmds) + if KindOf(table, last) == Multi then 1 else 0
  {
    assert (cmds + [last])[..|cmds|] == cmds;
  }

  lemma BlockFeedsOne(table: Table, e: Echo, block: seq<Argv>)
    requires WellNamed(table)
    ensures Multis(table, AfterBlock(table, e, block).fed) == Multis(table, e.fed) + if Loud(table, block) then 1 else 0
  {
    var sel := AofData.SelectCommand(e.db);
    var fed := if e.db != e.selected then e.fed + [sel] else e.fed;
    MultisSnoc(table, e.fed, sel);
    MultisSnoc(table, fed, [MULTI]);
    assert e.fed + ([sel] + [[MULTI]]) == e.fed + [sel] + [[MULTI]] && [] + [[MULTI]] == [[MULTI]] && e.fed + [] == e.fed;
  }

  ghost predicate OnePerBlock(table: Table, e: Echo, cmds: seq<Argv>) {
    Multis(table, Echoes(table, e, cmds).fed) == Multis(table, e.fed) + LoudBlocks(table, cmds)
  }

  lemma BlockThenRest(table: Table, e: Echo, cmds: seq<Argv>, n: nat)
    requires WellNamed(table) && cmds != [] && KindOf(table, cmds[0]) == Multi
    requires n == FirstExec(table, cmds[1..]) < |cmds| - 1
    requires OnePerBlock(table, AfterBlock(table, e, cmds[1..n + 1]), cmds[n + 2..])
    ensures OnePerBlock(table, e, cmds)
  {
    BlockFeedsOne(table, e, cmds[1..n + 1]);
  }

  lemma OtherThenRest(table: Table, e: Echo, cmds: seq<Argv>)
    requires cmds != [] && KindOf(table, cmds[0]) != Multi
    requires OnePerBlock(table, if KindOf(table, cmds[0]) == Exec then e else AfterCommand(table, e, cmds[0]), cmds[1..])
    ensures OnePerBlock(table, e, cmds)
  {}

  /** Loading feeds one MULTI for every closed block with a command that is not quiet. */
  lemma {:induction false} OneMultiPerBlock(table: Table, e: Echo, cmds: seq<Argv>)
    requires WellNamed(table)
    ensures OnePerBlock(table, e, cmds)
    decreases |cmds|
  {
    if cmds != [] {
      if KindOf(table, cmds[0]) == Multi {
        var n := FirstExec(table, cmds[1..]);
        if n < |cmds| - 1 {
          OneMultiPerBlock(table, AfterBlock(table, e, cmds[1..n + 1]), cmds[n + 2..]);
          BlockThenRest(table, e, cmds, n);
        }
      } else {
        OneMultiPerBlock(table, if KindOf(table, cmds[0]) == Exec then e else AfterCommand(table, e, cmds[0]), cmds[1..]);
        OtherThenRest(table, e, cmds);
      }
    }
  }

  // ---------------------------------------------------------------------------
  // Writing on
  // ---------------------------------------------------------------------------

  ghost predicate IsCut(cmds: seq<Argv>, n: nat, k: nat) {
    n <= |cmds| && if n < |cmds| then k < |Encode(cmds[n])| else k == 0
  }

  /** The file after the load and the next flush: truncated, then what loading fed. */
  ghost function Reopened(table: Table, cmds: seq<Argv>, n: nat, k: nat): Bytes
    requires IsCut(cmds, n, k)
  {
    var r := Load(table, CutFile(cmds, n, k));
    Repaired(CutFile(cmds, n, k), r.outcome) + EncodeAll(r.fed)
  }

  /** With `later` logged after it, that file loads to what was in effect before plus what
      `later` commits. */
  ghost predicate Continues(table: Table, cmds: seq<Argv>, n: nat, k: nat, later: seq<Argv>)
    requires IsCut(cmds, n, k)
  {
    Load(table, Reopened(table, cmds, n, k) + EncodeAll(later)).executed
      == Committed(table, cmds[..n]) + Committed(table, later)
  }

  /** What loading the first `n` commands feeds. */
  ghost function Refed(table: Table, cmds: seq<Argv>, n: nat): seq<Argv>
    requires n <= |cmds|
  {
    Echoes(table, SILENT, cmds[..n]).fed
  }

  lemma ReopenedIs(table: Table, cmds: seq<Argv>, n: nat, k: nat)
    requires IsCut(cmds, n, k) && AllKnown(table, cmds)
    ensures Reopened(table, cmds, n, k) == EncodeAll(cmds[..Kept(table, cmds, n, k)] + Refed(table, cmds, n))
  {
    RepairedIsKept(table, cmds, n, k);
    EncodeAllConcat(cmds[..Kept(table, cmds, n, k)], Refed(table, cmds, n));
    if CutFile(cmds, n, k) != [] {
      CutFileLoads(table, cmds, n, k);
    } else {
      OnlyEmptyCut(cmds, n, k);
    }
  }

  lemma OnlyEmptyCut(cmds: seq<Argv>, n: nat, k: nat)
    requires IsCut(cmds, n, k)
    ensures CutFile(cmds, n, k) == [] ==> cmds[..n] == []
  {
    if n > 0 { assert Encode(cmds[..n][0])[0] == STAR; }
  }

  /** Loading the reopened file with more behind it. */
  lemma LoadReopened(table: Table, kept: seq<Argv>, fed: seq<Argv>, later: seq<Argv>)
    requires AllKnown(table, kept) && AllKnown(table, fed) && AllKnown(table, later)
    ensures Load(table, EncodeAll(kept + fed) + EncodeAll(later)).executed == Committed(table, kept + (fed + later))
  {
    Regroup(kept, fed, later);
    KnownConcat(table, fed, later);
    KnownConcat(table, kept, fed + later);
    WholeLogLoads(table, kept + (fed + later));
  }

  lemma Regroup(kept: seq<Argv>, fed: seq<Argv>, later: seq<Argv>)
    ensures EncodeAll(kept + fed) + EncodeAll(later) == EncodeAll(kept + (fed + later))
  {
    EncodeAllConcat(kept + fed, later);
    Assoc(kept, fed, later);
  }

  lemma KnownConcat(table: Table, a: seq<Argv>, b: seq<Argv>)
    requires AllKnown(table, a) && AllKnown(table, b)
    ensures AllKnown(table, a + b)
  {}

  lemma RefedKnown(table: Table, cmds: seq<Argv>, n: nat)
    requires n <= |cmds| && WellNamed(table)
    ensures AllKnown(table, Refed(table, cmds, n))
  {
    EchoesFeedWell(table, SILENT, cmds[..n]);
  }

  lemma ContinuesMeans(table: Table, cmds: seq<Argv>, n: nat, k: nat, later: seq<Argv>)
    requires IsCut(cmds, n, k) && WellNamed(table) && AllKnown(table, cmds) && AllKnown(table, later)
    ensures Continues(table, cmds, n, k, later) <==>
            Committed(table, cmds[..Kept(table, cmds, n, k)] + (Refed(table, cmds, n) + later)) ==
            Committed(table, cmds[..n]) + Committed(table, later)
  {
    ReopenedIs(table, cmds, n, k);
    RefedKnown(table, cmds, n);
    LoadReopened(table, cmds[..Kept(table, cmds, n, k)], Refed(table, cmds, n), later);
  }

  /** The reopened file can be appended to exactly when nothing open is kept in it and no
      transaction with a command that is not quiet was replayed. After a cut inside a command
      the loader truncates at that command and leaves an open MULTI in the file; and each such
      transaction leaves one in the log buffer. Either swallows whatever is logged next. `probe`
      is any plain command of the table. */
  lemma RepairIsSafeIff(table: Table, cmds: seq<Argv>, n: nat, k: nat, probe: Argv)
    requires IsCut(cmds, n, k) && WellNamed(table)
    requires AllKnown(table, cmds) && Sized(probe) && KindOf(table, probe).Other?
    ensures (forall later :: AllKnown(table, later) ==> Continues(table, cmds, n, k, later)) <==>
            !Open(table, cmds[..Kept(table, cmds, n, k)]) && !HasLoudBlock(table, cmds[..n])
  {
    var kept := cmds[..Kept(table, cmds, n, k)];
    if !Open(table, kept) && !HasLoudBlock(table, cmds[..n]) {
      forall later | AllKnown(table, later) ensures Continues(table, cmds, n, k, later) {
        LaterSurvives(table, cmds, n, k, later);
      }
    } else {
      ProbeIsLost(table, cmds, n, k, probe);
    }
  }

  lemma LaterSurvives(table: Table, cmds: seq<Argv>, n: nat, k: nat, later: seq<Argv>)
    requires IsCut(cmds, n, k) && WellNamed(table) && AllKnown(table, cmds) && AllKnown(table, later)
    requires !Open(table, cmds[..Kept(table, cmds, n, k)]) && !HasLoudBlock(table, cmds[..n])
    ensures Continues(table, cmds, n, k, later)
  {
    ContinuesMeans(table, cmds, n, k, later);
    EchoesAnythingIff(table, SILENT, cmds[..n]);
    assert [] + later == later;
    CommittedConcat(table, cmds[..Kept(table, cmds, n, k)], later);
    KeptCommits(table, cmds, n, k);
  }

  lemma ProbeCommits(table: Table, probe: Argv)
    requires KindOf(table, probe).Other?
    ensures Committed(table, [probe]) == [probe] && FirstExec(table, [probe]) == 1
  {
    assert [probe][1..] == [];
    NoExec(table, [probe]);
  }

  /** Otherwise the next command is lost. */
  lemma ProbeIsLost(table: Table, cmds: seq<Argv>, n: nat, k: nat, probe: Argv)
    requires IsCut(cmds, n, k) && WellNamed(table)
    requires AllKnown(table, cmds) && Sized(probe) && KindOf(table, probe).Other?
    requires Open(table, cmds[..Kept(table, cmds, n, k)]) || HasLoudBlock(table, cmds[..n])
    ensures AllKnown(table, [probe]) && !Continues(table, cmds, n, k, [probe])
  {
    ContinuesMeans(table, cmds, n, k, [probe]);
    ProbeCommits(table, probe);
    if Open(table, cmds[..Kept(table, cmds, n, k)]) {
      LostInKept(table, cmds, n, k, probe);
    } else {
      LostInFed(table, cmds, n, k, probe);
    }
  }

  lemma LostInKept(table: Table, cmds: seq<Argv>, n: nat, k: nat, probe: Argv)
    requires IsCut(cmds, n, k) && WellNamed(table) && KindOf(table, probe).Other?
    requires Open(table, cmds[..Kept(table, cmds, n, k)])
    ensures Committed(table, cmds[..Kept(table, cmds, n, k)] + (Refed(table, cmds, n) + [probe])) !=
            Committed(table, cmds[..n]) + [probe]
  {
    var kept, more := cmds[..Kept(table, cmds, n, k)], Refed(table, cmds, n) + [probe];
    EchoesFeedWell(table, SILENT, cmds[..n]);
    NoExec(table, more);
    CommittedConcat(table, kept, more);
    OnlyMore(table, cmds, n, k);
  }

  lemma LostInFed(table: Table, cmds: seq<Argv>, n: nat, k: nat, probe: Argv)
    requires IsCut(cmds, n, k) && WellNamed(table) && KindOf(table, probe).Other?
    requires !Open(table, cmds[..Kept(table, cmds, n, k)]) && HasLoudBlock(table, cmds[..n])
    ensures Committed(table, cmds[..Kept(table, cmds, n, k)] + (Refed(table, cmds, n) + [probe])) !=
            Committed(table, cmds[..n]) + [probe]
  {
    var fed := Refed(table, cmds, n);
    EchoesFeedWell(table, SILENT, cmds[..n]);
    EchoesAnythingIff(table, SILENT, cmds[..n]);
    SwallowedAfterSelect(table, fed, probe);
    CommittedConcat(table, cmds[..Kept(table, cmds, n, k)], fed + [probe]);
    KeptCommits(table, cmds, n, k);
    var was := Committed(table, cmds[..n]);
    assert (was + [fed[0]])[|was|] != (was + [probe])[|was|];
  }

  /** What is fed commits its first SELECT; the MULTI after it takes the rest. */
  lemma SwallowedAfterSelect(table: Table, fed: seq<Argv>, probe: Argv)
    requires |fed| >= 2 && KindOf(table, fed[0]) == Select && KindOf(table, fed[1]) == Multi
    requires forall i :: 0 <= i < |fed| ==> KindOf(table, fed[i]) == Select || KindOf(table, fed[i]) == Multi
    requires KindOf(table, probe).Other?
    ensures Committed(table, fed + [probe]) == [fed[0]] && fed[0] != probe
  {
    var all := fed + [probe];
    assert all[0] == fed[0] && all[1..][0] == fed[1];
    NoExec(table, all[2..]);
    assert all[1..][1..] == all[2..];
  }

  // ---------------------------------------------------------------------------
  // Two logs that lose what follows
  // ---------------------------------------------------------------------------

  ghost predicate KnowsBasics(table: Table) {
    WellNamed(table) && table.kinds(EXEC) == Exec && table.kinds(AofData.SET) == Other(false)
  }

  /** The block of one command that is not quiet. */
  lemma ShortBlock(table: Table, cmds: seq<Argv>)
    requires |cmds| == 3 && KindOf(table, cmds[0]) == Multi && KindOf(table, cmds[2]) == Exec
    requires KindOf(table, cmds[1]) == Other(false)
    ensures FirstExec(table, cmds[1..]) == 1
    ensures Committed(table, cmds) == [cmds[1]] && HasLoudBlock(table, cmds) && !Open(table, cmds)
  {
    var rest := cmds[1..];
    assert rest[1..] == [cmds[2]];
    assert FirstExec(table, rest) == 1 + FirstExec(table, rest[1..]);
    assert cmds[1..2] == [cmds[1]] && cmds[3..] == [];
    assert OpenFrom(table, false, cmds) == OpenFrom(table, true, rest);
    assert OpenFrom(table, true, rest) == OpenFrom(table, true, rest[1..]);
    assert OpenFrom(table, true, rest[1..]) == OpenFrom(table, false, rest[1..][1..]);
    assert rest[1..][1..] == [];
    assert Loud(table, [cmds[1]]) by { assert KindOf(table, [cmds[1]][0]) != Other(true); }
  }

  /** A complete log with one committed transaction. */
  lemma CommittedTransactionSwallows(table: Table, key: Bytes, value: Bytes, probe: Argv)
    requires KnowsBasics(table) && Sized([AofData.SET, key, value]) && Sized(probe) && KindOf(table, probe).Other?
    ensures var cmds := [[MULTI], [AofData.SET, key, value], [EXEC]];
      && IsCut(cmds, 3, 0) && AllKnown(table, cmds) && !Open(table, cmds)
      && Committed(table, cmds) == [[AofData.SET, key, value]]
      && !Continues(table, cmds, 3, 0, [probe])
  {
    var cmds := [[MULTI], [AofData.SET, key, value], [EXEC]];
    ShortBlock(table, cmds);
    assert cmds[..3] == cmds;
    ProbeIsLost(table, cmds, 3, 0, probe);
  }

  /** A log cut one byte into the second command of a transaction. */
  lemma CutTransactionSwallows(table: Table, key: Bytes, value: Bytes, probe: Argv)
    requires KnowsBasics(table) && Sized([AofData.SET, key, value]) && Sized(probe) && KindOf(table, probe).Other?
    ensures var cmds := [[MULTI], [AofData.SET, key, value]];
      && IsCut(cmds, 1, 1) && AllKnown(table, cmds) && !HasLoudBlock(table, cmds[..1])
      && !Continues(table, cmds, 1, 1, [probe])
  {
    var cmds := [[MULTI], [AofData.SET, key, value]];
    var one := cmds[..1];
    assert one == [[MULTI]] && one[1..] == [];
    assert OpenFrom(table, false, one) == OpenFrom(table, true, one[1..]);
    ProbeIsLost(table, cmds, 1, 1, probe);
  }
}
