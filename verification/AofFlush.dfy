/** Writing the buffered log to disk: aofWrite and flushAppendOnlyFile of src/aof.c, under
    arbitrary short writes, interrupted writes, errors and failing truncations. */
module AofFlush {
  import opened AofBytes
  import opened AofCodec
  import AofLoad

  /** What write(2) does with a request; a longer count means the whole request. */
  datatype WriteOutcome = Wrote(n: nat) | Interrupted | Failed

  datatype Fsync = Always | EverySec | Never

  /** The log state of the server. `postponed` is 0 or the time a flush was first delayed. */
  datatype Log = Log(file: Bytes, buf: Bytes, currentSize: nat, lastWriteOk: bool, postponed: int)

  /** The circumstances of one flush. */
  datatype Flush = Flush(policy: Fsync, force: bool, syncing: bool, now: int, script: seq<WriteOutcome>, truncates: bool)

  datatype Flushed = Running(log: Log) | Exited(log: Log)

  /** What aofWrite returns for `len` bytes once `total` are written; a script that runs out
      is an error. */
  function Written(script: seq<WriteOutcome>, len: nat, total: nat): (r: int)
    ensures r == -1 || total <= r <= total + len
    ensures r == -1 ==> total == 0 && len > 0
    ensures r == 0 ==> len == 0
    decreases |script|
  {
    if len == 0 then total
    else if script == [] || script[0].Failed? then (if total > 0 then total else -1)
    else if script[0].Interrupted? then Written(script[1..], len, total)
    else
      var n := if script[0].n < len then script[0].n else len;
      Written(script[1..], len - n, total + n)
  }

  function Max0(n: int): nat {
    if n < 0 then 0 else n
  }

  /** A flush that may wait for the background fsync. */
  function Delayed(log: Log, f: Flush): bool {
    f.policy == EverySec && !f.force && f.syncing && (log.postponed == 0 || f.now - log.postponed < 2)
  }

  /** There is something to write and no reason to wait: another policy, a forced flush, no
      fsync going on, or one that has held writes up for two seconds. */
  predicate MustWrite(log: Log, f: Flush) {
    && log.buf != []
    && (f.policy != EverySec || f.force || !f.syncing || (log.postponed != 0 && f.now >= log.postponed + 2))
  }

  /** The log after aofWrite returned `n` and the flush handled it. */
  function AfterWrite(log: Log, f: Flush, n: int): (r: Flushed)
    requires -1 <= n <= |log.buf| && log.currentSize <= |log.file|
  {
    var grown := log.(file := log.file + log.buf[..Max0(n)], postponed := 0);
    if n == |log.buf| then Running(grown.(buf := [], currentSize := log.currentSize + n, lastWriteOk := true))
    else
      var undone := n != -1 && f.truncates;
      var kept := if undone then grown.(file := grown.file[..log.currentSize]) else grown;
      if f.policy == Always then Exited(kept)
      else if !undone && n > 0 then
        Running(kept.(buf := log.buf[n..], currentSize := log.currentSize + n, lastWriteOk := false))
      else Running(kept.(lastWriteOk := false))
  }

  /** flushAppendOnlyFile. */
  function FlushLog(log: Log, f: Flush): (r: Flushed)
    requires log.currentSize <= |log.file|
  {
    if log.buf == [] then Running(log)
    else if Delayed(log, f) then Running(if log.postponed == 0 then log.(postponed := f.now) else log)
    else AfterWrite(log, f, Written(f.script, |log.buf|, 0))
  }

  /** Nothing is lost, duplicated or reordered: the file has the recorded size and the file
      followed by the buffer is everything fed so far. */
  ghost predicate Conserved(log: Log, fed: Bytes) {
    |log.file| == log.currentSize && log.file + log.buf == fed
  }

  class Aof {
    var file: Bytes
    var buf: Bytes
    var currentSize: nat
    var lastWriteOk: bool
    var postponed: int
    var isOpen: bool            // aof_fd is not -1
    var waitingRewrite: bool    // AOF_WAIT_REWRITE, the state before the first rewrite ends
    var selectedDb: int

    constructor (contents: Bytes)
      ensures View() == Log(contents, [], |contents|, true, 0) && isOpen && !waitingRewrite && selectedDb == -1
    {
      file, buf, currentSize, lastWriteOk, postponed := contents, [], |contents|, true, 0;
      isOpen, waitingRewrite, selectedDb := true, false, -1;
    }

    ghost function View(): Log
      reads this
    {
      Log(file, buf, currentSize, lastWriteOk, postponed)
    }

    /** aofWrite: the data reaches the end of the file piece by piece. */
    method Write(data: Bytes, script: seq<WriteOutcome>) returns (n: int)
      modifies `file
      ensures n == Written(script, |data|, 0)
      ensures file == old(file) + data[..Max0(n)]
    {
      var rest, total: nat, i := data, 0, 0;
      assert data[..0] == [] && old(file) + [] == old(file);
      while |rest| > 0
        invariant i <= |script| && total <= |data| && rest == data[total..]
        invariant file == old(file) + data[..total]
        invariant Written(script, |data|, 0) == Written(script[i..], |rest|, total)
        decreases |script| - i
      {
        if i == |script| || script[i].Failed? {
          return if total > 0 then total else -1;
        }
        var outcome := script[i];
        assert script[i..][1..] == script[i + 1..];
        i := i + 1;
        if outcome.Interrupted? { continue; }
        var n := if outcome.n < |rest| then outcome.n else |rest|;
        file := file + rest[..n];
        assert data[..total] + rest[..n] == data[..total + n];
        rest, total := rest[n..], total + n;
      }
      n := total;
    }

    /** flushAppendOnlyFile. */
    method FlushAppendOnlyFile(f: Flush) returns (exits: bool)
      requires currentSize == |file|
      modifies `file, `buf, `currentSize, `lastWriteOk, `postponed
      ensures FlushLog(old(View()), f) == if exits then Exited(View()) else Running(View())
      ensures exits <==> f.policy == Always && Written(f.script, |old(buf)|, 0) != |old(buf)|
      ensures MustWrite(old(View()), f) && Written(f.script, |old(buf)|, 0) == |old(buf)| ==>
                file == old(file) + old(buf) && buf == [] && lastWriteOk && postponed == 0
      ensures old(buf) != [] && !MustWrite(old(View()), f) ==>
                && file == old(file) && buf == old(buf) && lastWriteOk == old(lastWriteOk)
                && postponed == if old(postponed) == 0 then f.now else old(postponed)
      ensures MustWrite(old(View()), f) && Written(f.script, |old(buf)|, 0) != |old(buf)| ==>
                postponed == 0 && (!exits ==> !lastWriteOk) && (f.truncates ==> file == old(file) && buf == old(buf))
    {
      if buf == [] { return false; }
      if f.policy == EverySec && !f.force {
        if f.syncing {
          if postponed == 0 {
            postponed := f.now;
            return false;
          } else if f.now - postponed < 2 {
            return false;
          }
        }
      }
      var n := Write(buf, f.script);
      postponed := 0;
      if n != |buf| {
        if n != -1 && f.truncates {
          file := file[..currentSize];
          n := -1;
        }
        if f.policy == Always { return true; }
        lastWriteOk := false;
        if n > 0 {
          currentSize := currentSize + n;
          buf := buf[n..];
        }
        return false;
      }
      lastWriteOk := true;
      currentSize := currentSize + n;
      buf := [];
      return false;
    }

    /** The end of feedAppendOnlyFile: the encoded command goes to the buffer. */
    method Feed(data: Bytes)
      modifies `buf
      ensures buf == old(buf) + data
    {
      buf := buf + data;
    }
  }

  lemma SplitWrite(file: Bytes, buf: Bytes, n: nat)
    requires n <= |buf|
    ensures (file + buf[..n]) + buf[n..] == file + buf
    ensures (file + buf[..n])[..|file|] == file
  {
    assert buf[..n] + buf[n..] == buf;
  }

  /** One flush loses nothing unless it ends the process, and then the file is a prefix of
      what was fed. */
  lemma FlushConserves(log: Log, f: Flush, fed: Bytes)
    requires Conserved(log, fed)
    ensures FlushLog(log, f).Running? ==> Conserved(FlushLog(log, f).log, fed)
    ensures FlushLog(log, f).log.file <= fed && |FlushLog(log, f).log.file| >= |log.file|
    ensures FlushLog(log, f).Exited? ==> f.policy == Always
  {
    var n := Written(f.script, |log.buf|, 0);
    SplitWrite(log.file, log.buf, Max0(n));
    if n == |log.buf| { assert log.buf[..n] == log.buf && log.file + log.buf + [] == fed; }
    if n == -1 { assert log.file + log.buf[..0] == log.file; }
  }

  /** A flush whose writes succeed, however short and often interrupted, leaves an empty
      buffer and the whole log in the file. */
  lemma CompleteWriteFlushes(log: Log, f: Flush, fed: Bytes)
    requires Conserved(log, fed) && !Delayed(log, f)
    requires Written(f.script, |log.buf|, 0) == |log.buf|
    ensures FlushLog(log, f).Running? && FlushLog(log, f).log.buf == []
    ensures FlushLog(log, f).log.file == fed && FlushLog(log, f).log.currentSize == |fed|
  {
    assert log.buf[..|log.buf|] == log.buf;
    assert log.buf == [] ==> log.file + log.buf == log.file;
  }

  /** A flush that must write, with writes that succeed, puts everything fed into the file;
      one that need not leaves file and buffer alone. */
  lemma MustWriteWrites(log: Log, f: Flush, fed: Bytes)
    requires Conserved(log, fed) && Written(f.script, |log.buf|, 0) == |log.buf|
    ensures MustWrite(log, f) ==> FlushLog(log, f) == Running(Log(fed, [], |fed|, true, 0))
    ensures !MustWrite(log, f) ==>
              && FlushLog(log, f).Running? && FlushLog(log, f).log.file == log.file && FlushLog(log, f).log.buf == log.buf
              && (log.buf != [] ==> FlushLog(log, f).log.postponed == if log.postponed == 0 then f.now else log.postponed)
              && (log.buf == [] ==> FlushLog(log, f).log == log)
  {
    assert log.buf[..|log.buf|] == log.buf;
  }

  /** Under the always policy the process ends exactly when a write is incomplete. */
  lemma AlwaysExitsIff(log: Log, f: Flush)
    requires log.currentSize <= |log.file| && f.policy == Always
    ensures FlushLog(log, f).Exited? <==> Written(f.script, |log.buf|, 0) != |log.buf|
  {}

  function Total(script: seq<WriteOutcome>): nat
    decreases |script|
  {
    if script == [] then 0 else (if script[0].Wrote? then script[0].n else 0) + Total(script[1..])
  }

  /** aofWrite writes everything exactly when the writes before the first error add up. */
  lemma {:induction false} WrittenIsAll(script: seq<WriteOutcome>, len: nat, total: nat)
    requires forall i :: 0 <= i < |script| ==> !script[i].Failed?
    ensures Written(script, len, total) == total + len <==> (len <= Total(script))
    decreases |script|
  {
    if len > 0 && script != [] {
      if script[0].Interrupted? {
        WrittenIsAll(script[1..], len, total);
      } else {
        var n := if script[0].n < len then script[0].n else len;
        WrittenIsAll(script[1..], len - n, total + n);
      }
    }
  }

  // ---------------------------------------------------------------------------
  // Whole runs
  // ---------------------------------------------------------------------------

  datatype Step = Feed(data: Bytes) | DoFlush(flush: Flush)

  function Fed(steps: seq<Step>): Bytes
    decreases |steps|
  {
    if steps == [] then []
    else (if steps[0].Feed? then steps[0].data else []) + Fed(steps[1..])
  }

  /** A run stops at the flush that exits. */
  function Run(log: Log, steps: seq<Step>): Flushed
    requires log.currentSize == |log.file|
    decreases |steps|
  {
    if steps == [] then Running(log)
    else match steps[0]
         case Feed(data) => Run(log.(buf := log.buf + data), steps[1..])
         case DoFlush(f) =>
           var r := FlushLog(log, f);
           FlushConserves(log, f, log.file + log.buf);
           if r.Exited? then r else Run(r.log, steps[1..])
  }

  /** In every run the file only grows and is a prefix of all bytes fed, and while the server lives, file and
      buffer together are exactly those bytes and the recorded size is the file's. */
  lemma {:induction false} RunConserves(log: Log, steps: seq<Step>, fed: Bytes)
    requires Conserved(log, fed)
    ensures Run(log, steps).log.file <= fed + Fed(steps) && |Run(log, steps).log.file| >= |log.file|
    ensures Run(log, steps).Running? ==> Conserved(Run(log, steps).log, fed + Fed(steps))
    decreases |steps|
  {
    if steps == [] {
      assert fed + [] == fed;
    } else {
      match steps[0]
      case Feed(data) =>
        Assoc(log.file, log.buf, data);
        Assoc(fed, data, Fed(steps[1..]));
        RunConserves(log.(buf := log.buf + data), steps[1..], fed + data);
      case DoFlush(f) =>
        FlushConserves(log, f, log.file + log.buf);
        FlushConserves(log, f, fed);
        assert [] + Fed(steps[1..]) == Fed(steps[1..]);
        var r := FlushLog(log, f);
        if r.Running? { RunConserves(r.log, steps[1..], fed); }
    }
  }

  /** Every flush of the run that writes writes everything. */
  ghost predicate Healthy(log: Log, steps: seq<Step>)
    requires log.currentSize == |log.file|
    decreases |steps|
  {
    steps == [] ||
    match steps[0]
    case Feed(data) => Healthy(log.(buf := log.buf + data), steps[1..])
    case DoFlush(f) =>
      FlushConserves(log, f, log.file + log.buf);
      && Written(f.script, |log.buf|, 0) == |log.buf|
      && FlushLog(log, f).Running? && Healthy(FlushLog(log, f).log, steps[1..])
  }

  /** The first `size` bytes fed are in the file, or a flush has been waiting since `since`. */
  ghost predicate Underway(log: Log, size: nat, since: int) {
    && log.currentSize == |log.file|
    && (|log.file| >= size || (log.buf != [] && log.postponed == since && |log.file| + |log.buf| >= size))
  }

  lemma {:induction false} StaysUnderway(log: Log, steps: seq<Step>, size: nat, since: int)
    requires Underway(log, size, since) && since != 0 && Healthy(log, steps)
    ensures Run(log, steps).Running? && Underway(Run(log, steps).log, size, since)
    decreases |steps|
  {
    if steps != [] {
      match steps[0]
      case Feed(data) => StaysUnderway(log.(buf := log.buf + data), steps[1..], size, since);
      case DoFlush(f) =>
        MustWriteWrites(log, f, log.file + log.buf);
        FlushConserves(log, f, log.file + log.buf);
        StaysUnderway(FlushLog(log, f).log, steps[1..], size, since);
    }
  }

  /** Nothing waits longer than two seconds: bytes in the buffer when a flush was first put off
      are in the file after any later flush that comes two or more seconds after it, whatever
      was fed or flushed in between, as long as writes succeed. */
  lemma PostponedBytesReachFile(log: Log, first: Flush, steps: seq<Step>, last: Flush)
    requires log.currentSize == |log.file| && log.buf != [] && log.postponed == 0 && first.now != 0
    requires FlushLog(log, first).Running? && FlushLog(log, first).log == log.(postponed := first.now)
    requires Healthy(log.(postponed := first.now), steps + [DoFlush(last)]) && last.now >= first.now + 2
    ensures Run(log.(postponed := first.now), steps).Running?
    ensures var r := Run(log.(postponed := first.now), steps).log;
      r.currentSize == |r.file| && FlushLog(r, last).Running? && log.file + log.buf <= FlushLog(r, last).log.file
  {
    var s, size := log.(postponed := first.now), |log.file + log.buf|;
    HealthyUpTo(s, steps, last);
    StaysUnderway(s, steps, size, first.now);
    RunConserves(s, steps, log.file + log.buf);
    var r := Run(s, steps).log;
    MustWriteWrites(r, last, log.file + log.buf + Fed(steps));
    FlushConserves(r, last, log.file + log.buf + Fed(steps));
  }

  lemma {:induction false} HealthyUpTo(log: Log, steps: seq<Step>, last: Flush)
    requires log.currentSize == |log.file| && Healthy(log, steps + [DoFlush(last)])
    ensures Healthy(log, steps)
    ensures var r := Run(log, steps);
      && r.Running? && r.log.currentSize == |r.log.file|
      && Written(last.script, |r.log.buf|, 0) == |r.log.buf|
    decreases |steps|
  {
    if steps != [] {
      assert (steps + [DoFlush(last)])[1..] == steps[1..] + [DoFlush(last)];
      match steps[0]
      case Feed(data) => HealthyUpTo(log.(buf := log.buf + data), steps[1..], last);
      case DoFlush(f) =>
        FlushConserves(log, f, log.file + log.buf);
        HealthyUpTo(FlushLog(log, f).log, steps[1..], last);
    }
  }

  /** A server that starts with the log of the commands `before`. */
  function Started(before: seq<Argv>): Log {
    Log(EncodeAll(before), [], |EncodeAll(before)|, true, 0)
  }

  /** Whenever the server stops, by an exit or at any step of a run that fed `cmds` in
      encoded form, the file on disk is a log the loader accepts: it executes exactly what the
      first `n` commands commit, for the number `n` of commands that reached the disk whole. Those
      that were there before are among them. */
  lemma StoppedServerRestarts(table: AofLoad.Table, before: seq<Argv>, steps: seq<Step>, cmds: seq<Argv>)
    returns (n: nat, k: nat)
    requires AofLoad.AllKnown(table, before + cmds) && Fed(steps) == EncodeAll(cmds)
    requires Run(Started(before), steps).log.file != []
    ensures var file, all := Run(Started(before), steps).log.file, before + cmds;
      && |before| <= n <= |all|
      && |file| == |EncodeAll(all[..n])| + k
      && (n < |all| ==> |file| < |EncodeAll(all[..n + 1])|)
      && AofLoad.Load(table, file) ==
         AofLoad.Result(AofLoad.CutOutcome(table, all, n, k), AofLoad.Committed(table, all[..n]),
                        AofLoad.Echoes(table, AofLoad.SILENT, all[..n]).fed)
  {
    var file := Run(Started(before), steps).log.file;
    assert EncodeAll(before) + [] == EncodeAll(before);
    RunConserves(Started(before), steps, EncodeAll(before));
    AofLoad.EncodeAllConcat(before, cmds);
    n, k := AofLoad.EveryPrefixLoads(table, before + cmds, file);
    if n < |before| { PartIsShorter(before, cmds, n + 1); }
  }

  lemma PartIsShorter(before: seq<Argv>, cmds: seq<Argv>, n: nat)
    requires n <= |before|
    ensures |EncodeAll((before + cmds)[..n])| <= |EncodeAll(before)|
  {
    assert (before + cmds)[..n] == before[..n] && before == before[..n] + before[n..];
    AofLoad.EncodeAllConcat(before[..n], before[n..]);
  }
}
