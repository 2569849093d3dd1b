/** The rewrite handoff of src/aof.c as two processes and three pipes. The parent serves
    clients, buffers what they write and sends it down the data pipe; the child writes the
    snapshot, collects the data, asks the parent to stop, drains the pipe and exits; the parent
    then appends what is left to the child's file and installs it. Every interleaving of their
    steps is a run. */
module AofHandoff {
  import opened AofBytes
  import opened AofRewrite
  import AofFlush

  /** What the child reads at once. */
  const READ_SIZE: nat := 65536

  datatype Child = Rewriting | Asked | Draining | Exited(ok: bool)

  datatype Parent = Serving | Finished

  /** `fed` is what clients wrote since the fork, `pending` the contents of the rewrite buffer,
      `temp` the child's file, `installed` the file the server writes to. */
  datatype System = System(
    snapshot: Bytes,
    fed: Bytes,
    parent: Parent,
    pending: Bytes,
    aofBuf: Bytes,
    stopSending: bool,
    dataPipe: Bytes,
    askPipe: nat,
    ackPipe: nat,
    child: Child,
    childDiff: Bytes,
    temp: Bytes,
    installed: Bytes)

  datatype Step =
    | ParentFeed(data: Bytes)
    | ParentSend(n: nat)
    | ParentFlush
    | ParentAck(sent: bool)
    | ParentDone(opens: bool, wrote: nat, renamed: bool)
    | ChildRead(n: nat)
    | ChildAsk
    | ChildAcked
    | ChildFinish
    | ChildFail

  ghost predicate Enabled(s: System, step: Step) {
    match step
    // feedAppendOnlyFile while a rewrite child exists
    case ParentFeed(_) => s.parent.Serving?
    // aofChildWriteDiffData: one write of at most the buffered bytes
    case ParentSend(n) => s.parent.Serving? && !s.stopSending && 0 < n <= |s.pending|
    // the regular flush keeps writing to the old file
    case ParentFlush => s.parent.Serving?
    // aofChildPipeReadable
    case ParentAck(_) => s.parent.Serving? && s.askPipe > 0 && !s.stopSending
    // backgroundRewriteDoneHandler
    case ParentDone(_, wrote, _) => s.parent.Serving? && s.child.Exited? && wrote <= |s.pending|
    // one turn of aofReadDiffFromParent
    case ChildRead(n) => (s.child.Rewriting? || s.child.Draining?) && 0 < n <= |s.dataPipe| && n <= READ_SIZE
    case ChildAsk => s.child.Rewriting?
    case ChildAcked => s.child.Asked? && s.ackPipe > 0
    // the last read finds the pipe empty
    case ChildFinish => s.child.Draining? && s.dataPipe == []
    case ChildFail => !s.child.Exited?
  }

  function Apply(s: System, step: Step): System {
    match step
    case ParentFeed(data) => s.(fed := s.fed + data, pending := s.pending + data, aofBuf := s.aofBuf + data)
    case ParentSend(n) =>
      if n <= |s.pending| then s.(dataPipe := s.dataPipe + s.pending[..n], pending := s.pending[n..]) else s
    case ParentFlush => s.(installed := s.installed + s.aofBuf, aofBuf := [])
    case ParentAck(sent) => s.(stopSending := true, askPipe := 0, ackPipe := s.ackPipe + if sent then 1 else 0)
    case ParentDone(opens, wrote, renamed) =>
      if s.child == Exited(true) && opens && wrote == |s.pending| && renamed then
        s.(parent := Finished, installed := s.temp + s.pending, aofBuf := [], pending := [])
      else s.(parent := Finished, pending := [])
    case ChildRead(n) =>
      if n <= |s.dataPipe| then s.(childDiff := s.childDiff + s.dataPipe[..n], dataPipe := s.dataPipe[n..]) else s
    case ChildAsk => s.(child := Asked, askPipe := s.askPipe + 1)
    case ChildAcked => s.(child := Draining, ackPipe := 0)
    case ChildFinish => s.(child := Exited(true), temp := s.snapshot + s.childDiff)
    case ChildFail => s.(child := Exited(false))
  }

  ghost predicate ValidRun(s: System, steps: seq<Step>)
    decreases |steps|
  {
    steps == [] || (Enabled(s, steps[0]) && ValidRun(Apply(s, steps[0]), steps[1..]))
  }

  function Run(s: System, steps: seq<Step>): System
    decreases |steps|
  {
    if steps == [] then s else Run(Apply(s, steps[0]), steps[1..])
  }

  /** Right after the fork: the old file and what was still buffered for it, empty pipes. */
  function Forked(snapshot: Bytes, file: Bytes, aofBuf: Bytes): System {
    System(snapshot, [], Serving, [], aofBuf, false, [], 0, 0, Rewriting, [], [], file)
  }

  /** The switch itself. */
  ghost predicate Switches(s: System, step: Step) {
    s.child == Exited(true) && step == ParentDone(true, |s.pending|, true)
  }

  /** The state of the machine that a server's log and rewrite buffer stand for. */
  ghost predicate Stands(s: System, log: AofFlush.Log, pending: Bytes, temp: Bytes) {
    s.installed == log.file && s.aofBuf == log.buf && s.pending == pending && s.temp == temp
  }

  /** backgroundRewriteDoneHandler does what the machine's last step says. A server whose log is
      switched off only gets the new file; otherwise the log is written there from now on,
      starting with SELECT. */
  method BackgroundRewriteDone(aof: AofFlush.Aof, rw: RewriteBuffer, ok: bool, opens: bool, temp: Bytes, script: seq<int>,
                               renames: bool, ghost s: System) returns (installed: bool, ghost step: Step)
    requires rw.Valid() && s.parent.Serving? && s.child == Exited(ok)
    requires Stands(s, aof.View(), rw.Contents(), temp)
    modifies aof, rw
    ensures step.ParentDone? && Enabled(s, step) && installed == Switches(s, step)
    ensures installed <==> ok && opens && renames && AllTaken(old(rw.blocks), script)
    ensures aof.file == Apply(s, step).installed && rw.Contents() == Apply(s, step).pending
    ensures aof.isOpen || old(aof.buf) == [] ==> Stands(Apply(s, step), aof.View(), rw.Contents(), temp)
    ensures aof.isOpen == old(aof.isOpen) && aof.lastWriteOk == old(aof.lastWriteOk) && aof.postponed == old(aof.postponed)
    ensures installed && aof.isOpen ==> aof.currentSize == |aof.file| && aof.buf == [] && aof.selectedDb == -1
    ensures !(installed && aof.isOpen) ==>
      aof.currentSize == old(aof.currentSize) && aof.buf == old(aof.buf) && aof.selectedDb == old(aof.selectedDb)
    ensures aof.waitingRewrite == (old(aof.waitingRewrite) && !installed)
    ensures !installed ==> aof.file == old(aof.file)
  {
    var count, renamed := -1, false;
    step := ParentDone(opens, 0, renames);
    if ok && opens {
      var out;
      out, count := rw.Write(temp, script);
      if count != -1 && renames {
        renamed := true;
        aof.file := out;
        if aof.isOpen {
          aof.selectedDb := -1;
          aof.currentSize := |out|;
          aof.buf := [];
        }
        if aof.waitingRewrite { aof.waitingRewrite := false; }
      }
      step := ParentDone(opens, if count == -1 then 0 else count, renames && count != -1);
    } else {
      step := ParentDone(false, 0, false);
    }
    rw.Reset();
    installed := renamed;
  }

  // ---------------------------------------------------------------------------
  // The invariant
  // ---------------------------------------------------------------------------

  /** Nothing is lost, duplicated or reordered between the two processes. */
  ghost predicate Conserved(s: System) {
    s.parent.Serving? ==> s.childDiff + s.dataPipe + s.pending == s.fed
  }

  /** The child only leaves the first phase for the last with the parent silenced, and the
      drained child has it all. */
  ghost predicate Silenced(s: System) {
    && (s.ackPipe > 0 ==> s.stopSending)
    && (s.child.Draining? ==> s.stopSending)
    && (s.child == Exited(true) ==> s.stopSending && s.dataPipe == [] && s.temp == s.snapshot + s.childDiff)
  }

  /** The old file never loses what the clients wrote. */
  ghost predicate OldFile(s: System, before: Bytes) {
    s.parent.Serving? ==> s.installed + s.aofBuf == before + s.fed
  }

  lemma ConservedStep(s: System, step: Step)
    requires Conserved(s) && Enabled(s, step)
    ensures Conserved(Apply(s, step))
  {
    match step
    case ParentFeed(data) => Assoc(s.childDiff + s.dataPipe, s.pending, data);
    case ParentSend(n) => Moved(s.childDiff, s.dataPipe, s.pending, n);
    case ChildRead(n) => Received(s.childDiff, s.dataPipe, s.pending, n);
    case _ =>
  }

  lemma Moved(diff: Bytes, pipe: Bytes, pending: Bytes, n: nat)
    requires n <= |pending|
    ensures diff + (pipe + pending[..n]) + pending[n..] == diff + pipe + pending
  {
    assert pending == pending[..n] + pending[n..];
    Assoc(diff, pipe, pending[..n]);
    Assoc(diff + pipe, pending[..n], pending[n..]);
  }

  lemma Received(diff: Bytes, pipe: Bytes, pending: Bytes, n: nat)
    requires n <= |pipe|
    ensures (diff + pipe[..n]) + pipe[n..] + pending == diff + pipe + pending
  {
    assert pipe == pipe[..n] + pipe[n..];
    Assoc(diff, pipe[..n], pipe[n..]);
  }

  lemma SilencedStep(s: System, step: Step)
    requires Silenced(s) && Enabled(s, step)
    ensures Silenced(Apply(s, step))
  {}

  lemma OldFileStep(s: System, step: Step, before: Bytes)
    requires OldFile(s, before) && Enabled(s, step)
    ensures OldFile(Apply(s, step), before)
  {
    match step
    case ParentFeed(data) =>
      Assoc(s.installed, s.aofBuf, data);
      Assoc(before, s.fed, data);
    case ParentFlush => assert s.installed + s.aofBuf + [] == s.installed + s.aofBuf;
    case _ =>
  }

  /** At every point of every run, the child's diff, the pipe and the buffer make up exactly
      the bytes fed since the fork. */
  lemma {:induction false} HandoffConserves(s: System, steps: seq<Step>, before: Bytes)
    requires Conserved(s) && Silenced(s) && OldFile(s, before) && ValidRun(s, steps)
    ensures Conserved(Run(s, steps)) && Silenced(Run(s, steps)) && OldFile(Run(s, steps), before)
    decreases |steps|
  {
    if steps != [] {
      ConservedStep(s, steps[0]);
      SilencedStep(s, steps[0]);
      OldFileStep(s, steps[0], before);
      HandoffConserves(Apply(s, steps[0]), steps[1..], before);
    }
  }

  lemma SwitchInstalls(s: System, step: Step)
    requires Conserved(s) && Silenced(s) && Enabled(s, step) && Switches(s, step)
    ensures Apply(s, step).installed == s.snapshot + s.fed && Apply(s, step).aofBuf == []
  {
    assert s.childDiff + [] == s.childDiff;
    Assoc(s.snapshot, s.childDiff, s.pending);
  }

  lemma {:induction false} SnapshotFixed(s: System, steps: seq<Step>)
    ensures Run(s, steps).snapshot == s.snapshot
    decreases |steps|
  {
    if steps != [] { SnapshotFixed(Apply(s, steps[0]), steps[1..]); }
  }

  /** In every run, when the parent is told of the child's end, either the file installed is
      the snapshot followed by exactly the bytes fed since the fork and the regular buffer is
      empty, or the old file with its buffer still holds everything ever fed. */
  lemma HandoffIsExact(snapshot: Bytes, file: Bytes, aofBuf: Bytes, steps: seq<Step>, done: Step)
    requires ValidRun(Forked(snapshot, file, aofBuf), steps)
    requires done.ParentDone? && Enabled(Run(Forked(snapshot, file, aofBuf), steps), done)
    ensures var s := Run(Forked(snapshot, file, aofBuf), steps);
      var s' := Apply(s, done);
      if Switches(s, done) then s'.installed == snapshot + s.fed && s'.aofBuf == []
      else s'.installed + s'.aofBuf == file + aofBuf + s.fed
  {
    var s0 := Forked(snapshot, file, aofBuf);
    assert file + aofBuf + [] == file + aofBuf;
    HandoffConserves(s0, steps, file + aofBuf);
    SnapshotFixed(s0, steps);
    var s := Run(s0, steps);
    if Switches(s, done) { SwitchInstalls(s, done); }
  }

  // ---------------------------------------------------------------------------
  // The protocol can always be completed
  // ---------------------------------------------------------------------------

  /** Where the child waits for nothing it cannot get. */
  ghost predicate Alive(s: System) {
    s.parent.Serving? && !s.child.Exited? && !Refused(s)
  }

  /** The parent stopped sending but could not say so: the child waits in vain. */
  ghost predicate Refused(s: System) {
    s.child.Asked? && s.stopSending && s.ackPipe == 0
  }

  /** The pipes tell where the child is. */
  ghost predicate InTurn(s: System) {
    && (s.child.Rewriting? ==> s.askPipe == 0 && s.ackPipe == 0 && !s.stopSending)
    && (s.child.Asked? && !s.stopSending ==> s.askPipe > 0)
  }

  lemma InTurnStep(s: System, step: Step)
    requires InTurn(s) && Enabled(s, step)
    ensures InTurn(Apply(s, step))
  {}

  lemma {:induction false} InTurnAlways(s: System, steps: seq<Step>)
    requires InTurn(s) && ValidRun(s, steps)
    ensures InTurn(Run(s, steps))
    decreases |steps|
  {
    if steps != [] {
      InTurnStep(s, steps[0]);
      InTurnAlways(Apply(s, steps[0]), steps[1..]);
    }
  }

  /** Ready for the switch, with nothing fed or sent meanwhile. */
  ghost predicate ReadyToSwitch(s: System, t: System) {
    t.parent.Serving? && t.child == Exited(true) && t.fed == s.fed && t.pending == s.pending
  }

  lemma RunCons(s: System, step: Step, more: seq<Step>)
    requires Enabled(s, step) && ValidRun(Apply(s, step), more)
    ensures ValidRun(s, [step] + more) && Run(s, [step] + more) == Run(Apply(s, step), more)
  {
    assert ([step] + more)[1..] == more;
  }

  /** A draining child reads what is in the pipe and exits. */
  lemma {:induction false} Drains(s: System) returns (more: seq<Step>)
    requires s.parent.Serving? && s.child.Draining?
    ensures ValidRun(s, more) && ReadyToSwitch(s, Run(s, more))
    decreases |s.dataPipe|
  {
    if s.dataPipe == [] {
      RunCons(s, ChildFinish, []);
      more := [ChildFinish];
    } else {
      var n := if |s.dataPipe| < READ_SIZE then |s.dataPipe| else READ_SIZE;
      var rest := Drains(Apply(s, ChildRead(n)));
      RunCons(s, ChildRead(n), rest);
      more := [ChildRead(n)] + rest;
    }
  }

  /** From wherever it is, the protocol can be brought to its end without another byte fed. */
  lemma Completes(s: System) returns (more: seq<Step>)
    requires InTurn(s) && Alive(s)
    ensures ValidRun(s, more) && ReadyToSwitch(s, Run(s, more))
  {
    match s.child
    case Draining => more := Drains(s);
    case Rewriting => more := CompletesAsking(s);
    case Asked => more := CompletesAsked(s);
  }

  lemma CompletesAsking(s: System) returns (more: seq<Step>)
    requires InTurn(s) && Alive(s) && s.child.Rewriting?
    ensures ValidRun(s, more) && ReadyToSwitch(s, Run(s, more))
  {
    var rest := CompletesAsked(Apply(s, ChildAsk));
    RunCons(s, ChildAsk, rest);
    more := [ChildAsk] + rest;
  }

  lemma CompletesAsked(s: System) returns (more: seq<Step>)
    requires InTurn(s) && Alive(s) && s.child.Asked?
    ensures ValidRun(s, more) && ReadyToSwitch(s, Run(s, more))
  {
    if s.ackPipe > 0 {
      more := CompletesAcked(s);
    } else {
      var rest := CompletesAcked(Apply(s, ParentAck(true)));
      RunCons(s, ParentAck(true), rest);
      more := [ParentAck(true)] + rest;
    }
  }

  lemma CompletesAcked(s: System) returns (more: seq<Step>)
    requires s.parent.Serving? && s.child.Asked? && s.ackPipe > 0
    ensures ValidRun(s, more) && ReadyToSwitch(s, Run(s, more))
  {
    var rest := Drains(Apply(s, ChildAcked));
    RunCons(s, ChildAcked, rest);
    more := [ChildAcked] + rest;
  }

  /** No switch can follow. */
  ghost predicate Lost(s: System) {
    s.parent.Finished? || s.child == Exited(false) || Refused(s)
  }

  lemma {:induction false} LostStaysLost(s: System, steps: seq<Step>)
    requires Lost(s) && InTurn(s) && ValidRun(s, steps)
    ensures Lost(Run(s, steps))
    decreases |steps|
  {
    if steps != [] {
      InTurnStep(s, steps[0]);
      LostStaysLost(Apply(s, steps[0]), steps[1..]);
    }
  }

  lemma {:induction false} ValidConcat(s: System, a: seq<Step>, b: seq<Step>)
    requires ValidRun(s, a) && ValidRun(Run(s, a), b)
    ensures ValidRun(s, a + b) && Run(s, a + b) == Run(Run(s, a), b)
    decreases |a|
  {
    if a == [] {
      assert a + b == b;
    } else {
      assert (a + b)[1..] == a[1..] + b;
      ValidConcat(Apply(s, a[0]), a[1..], b);
    }
  }

  /** `more` leads to a state in which the new file can be installed. */
  ghost predicate LeadsToSwitch(s: System, more: seq<Step>) {
    ValidRun(s, more) && Run(s, more).parent.Serving? && Run(s, more).child == Exited(true)
  }

  /** After any steps of any run, the rewrite can still be completed unless it is over, the
      child failed, or the parent's answer was lost. */
  lemma CompletesIff(snapshot: Bytes, file: Bytes, aofBuf: Bytes, steps: seq<Step>)
    requires ValidRun(Forked(snapshot, file, aofBuf), steps)
    ensures var s := Run(Forked(snapshot, file, aofBuf), steps);
      (exists more :: LeadsToSwitch(s, more)) <==> !Lost(s)
  {
    var s := Run(Forked(snapshot, file, aofBuf), steps);
    InTurnAlways(Forked(snapshot, file, aofBuf), steps);
    if Lost(s) {
      forall more | ValidRun(s, more) ensures !LeadsToSwitch(s, more) { LostStaysLost(s, more); }
    } else if s.child.Exited? {
      assert LeadsToSwitch(s, []);
    } else {
      var more := Completes(s);
      assert LeadsToSwitch(s, more);
    }
  }

  /** In particular, whatever was fed, sent, flushed and read so far: a run goes on from there to
      a switch that installs the snapshot followed by exactly what was fed. */
  lemma SwitchFollows(snapshot: Bytes, file: Bytes, aofBuf: Bytes, steps: seq<Step>) returns (more: seq<Step>, done: Step)
    requires ValidRun(Forked(snapshot, file, aofBuf), steps) && Alive(Run(Forked(snapshot, file, aofBuf), steps))
    ensures var s0, all := Forked(snapshot, file, aofBuf), steps + more;
      && ValidRun(s0, all) && done.ParentDone? && Enabled(Run(s0, all), done) && Switches(Run(s0, all), done)
      && Run(s0, all).fed == Run(s0, steps).fed
      && Apply(Run(s0, all), done).installed == snapshot + Run(s0, steps).fed
      && Apply(Run(s0, all), done).aofBuf == []
  {
    var s0 := Forked(snapshot, file, aofBuf);
    InTurnAlways(s0, steps);
    more := Completes(Run(s0, steps));
    ValidConcat(s0, steps, more);
    done := ParentDone(true, |Run(s0, steps + more).pending|, true);
    HandoffIsExact(snapshot, file, aofBuf, steps + more, done);
  }

  /** What the parent sends, the child can have in its file when it exits, all of it. */
  lemma ChildTakesAll(snapshot: Bytes, file: Bytes, aofBuf: Bytes, data: Bytes) returns (steps: seq<Step>)
    requires data != []
    ensures var s0 := Forked(snapshot, file, aofBuf);
      && ValidRun(s0, steps) && Run(s0, steps).child == Exited(true)
      && Run(s0, steps).temp == snapshot + data && Run(s0, steps).pending == []
  {
    var s0 := Forked(snapshot, file, aofBuf);
    var s1 := Apply(s0, ParentFeed(data));
    var s2 := Apply(s1, ParentSend(|data|));
    var more := Completes(s2);
    RunCons(s1, ParentSend(|data|), more);
    RunCons(s0, ParentFeed(data), [ParentSend(|data|)] + more);
    steps := [ParentFeed(data)] + ([ParentSend(|data|)] + more);
    assert file + aofBuf + [] == file + aofBuf;
    HandoffConserves(s0, steps, file + aofBuf);
    SnapshotFixed(s0, steps);
    var t := Run(s0, steps);
    assert t.childDiff + [] + [] == t.childDiff;
  }

  /** A flush during the rewrite puts everything ever fed into the old file. */
  lemma FlushKeepsOldFile(snapshot: Bytes, file: Bytes, aofBuf: Bytes, steps: seq<Step>)
    requires ValidRun(Forked(snapshot, file, aofBuf), steps) && Run(Forked(snapshot, file, aofBuf), steps).parent.Serving?
    ensures var s := Run(Forked(snapshot, file, aofBuf), steps);
      Apply(s, ParentFlush).installed == file + aofBuf + s.fed && Apply(s, ParentFlush).aofBuf == []
  {
    assert file + aofBuf + [] == file + aofBuf;
    HandoffConserves(Forked(snapshot, file, aofBuf), steps, file + aofBuf);
  }
}
