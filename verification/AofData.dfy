/** The dataset a log rebuilds: databases of keys with values and expire times, and what each
    logged command does to it while the server is loading (src/aof.c, src/db.c, src/expire.c).
    While loading nothing expires and PEXPIREAT never deletes, so no clock appears here. */
module AofData {
  import opened AofBytes
  import opened AofCodec
  import opened Options

  /** The aggregate types that are rebuilt piece by piece. */
  datatype Kind = ListKind | SetKind | ZSetKind | HashKind

  /** Scores are kept as the text they are written in. */
  datatype Value =
    | Str(text: Bytes)
    | List(elements: seq<Bytes>)
    | Set(members: set<Bytes>)
    | ZSet(scores: map<Bytes, Bytes>)
    | Hash(fields: map<Bytes, Bytes>)

  datatype Entry = Entry(value: Value, expire: Option<int>)

  type Db = map<Bytes, Entry>

  /** The dataset and the database the replaying client has selected. */
  datatype State = State(dbs: seq<Db>, cur: nat)

  // ---------------------------------------------------------------------------
  // Commands
  // ---------------------------------------------------------------------------

  const SELECT: Bytes := [83, 69, 76, 69, 67, 84]
  const SET: Bytes := [83, 69, 84]
  const DEL: Bytes := [68, 69, 76]
  const UNLINK: Bytes := [85, 78, 76, 73, 78, 75]
  const PEXPIREAT: Bytes := [80, 69, 88, 80, 73, 82, 69, 65, 84]
  const RPUSH: Bytes := [82, 80, 85, 83, 72]
  const SADD: Bytes := [83, 65, 68, 68]
  const ZADD: Bytes := [90, 65, 68, 68]
  const HMSET: Bytes := [72, 77, 83, 69, 84]

  datatype Op = SelectOp | SetOp | DelOp | ExpireAtOp | AddOp(kind: Kind) | OtherOp

  function OpOf(name: Bytes): Op {
    if name == SELECT then SelectOp
    else if name == SET then SetOp
    else if name == DEL || name == UNLINK then DelOp
    else if name == PEXPIREAT then ExpireAtOp
    else if name == RPUSH then AddOp(ListKind)
    else if name == SADD then AddOp(SetKind)
    else if name == ZADD then AddOp(ZSetKind)
    else if name == HMSET then AddOp(HashKind)
    else OtherOp
  }

  function AddName(kind: Kind): Bytes {
    match kind
    case ListKind => RPUSH
    case SetKind => SADD
    case ZSetKind => ZADD
    case HashKind => HMSET
  }

  /** Arguments per item: an element, or a pair. */
  function Width(kind: Kind): nat {
    if kind.ListKind? || kind.SetKind? then 1 else 2
  }

  lemma Names()
    ensures OpOf(SELECT) == SelectOp && OpOf(SET) == SetOp && OpOf(DEL) == DelOp && OpOf(UNLINK) == DelOp
    ensures OpOf(PEXPIREAT) == ExpireAtOp
    ensures forall kind :: OpOf(AddName(kind)) == AddOp(kind)
  {
    assert |SELECT| == 6 && |SET| == 3 && |DEL| == 3 && |UNLINK| == 6 && |PEXPIREAT| == 9;
    assert |RPUSH| == 5 && |SADD| == 4 && |ZADD| == 4 && |HMSET| == 5;
    assert SET[0] != DEL[0] && SELECT[0] != UNLINK[0] && RPUSH[0] != HMSET[0] && SADD[0] != ZADD[0];
  }

  /** An aggregate of this kind, or room for one. */
  predicate Fits(kind: Kind, v: Option<Value>) {
    match v
    case None => true
    case Some(value) =>
      match kind
      case ListKind => value.List?
      case SetKind => value.Set?
      case ZSetKind => value.ZSet?
      case HashKind => value.Hash?
  }

  /** One item added; ZADD takes the score first, HMSET the field. */
  function AddItem(kind: Kind, v: Option<Value>, item: Argv): (r: Option<Value>)
    requires Fits(kind, v) && |item| == Width(kind)
    ensures r.Some? && Fits(kind, r)
  {
    match kind
    case ListKind => Some(List((if v.None? then [] else v.value.elements) + [item[0]]))
    case SetKind => Some(Set((if v.None? then {} else v.value.members) + {item[0]}))
    case ZSetKind => Some(ZSet((if v.None? then map[] else v.value.scores)[item[1] := item[0]]))
    case HashKind => Some(Hash((if v.None? then map[] else v.value.fields)[item[0] := item[1]]))
  }

  function AddArgs(kind: Kind, v: Option<Value>, args: Argv): (r: Option<Value>)
    requires Fits(kind, v)
    ensures Fits(kind, r) && (r.None? ==> v.None? && |args| < Width(kind))
    decreases |args|
  {
    var w := Width(kind);
    if |args| < w then v else AddArgs(kind, AddItem(kind, v, args[..w]), args[w..])
  }

  function ValueOf(db: Db, key: Bytes): Option<Value> {
    if key in db then Some(db[key].value) else None
  }

  function ExpireOf(db: Db, key: Bytes): Option<int> {
    if key in db then db[key].expire else None
  }

  /** What the commands that a rewrite never writes, and the longer forms of those it does, do
      to the selected database: any function of the database and the arguments. */
  type Semantics = (Db, Argv) -> Db

  /** A command other than SELECT, on the selected database. A wrong type is an error and
      changes nothing. */
  function ExecDb(sem: Semantics, db: Db, argv: Argv): Db {
    if |argv| < 2 then sem(db, argv)
    else
      var key := argv[1];
      match OpOf(argv[0])
      case SetOp => if |argv| == 3 then db[key := Entry(Str(argv[2]), None)] else sem(db, argv)
      case DelOp => if |argv| == 2 then db - {key} else sem(db, argv)
      case ExpireAtOp =>
        if |argv| != 3 then sem(db, argv)
        else if key in db then db[key := Entry(db[key].value, Some(ParseInt(argv[2])))]
        else db
      case AddOp(kind) =>
        var args := argv[2..];
        if args == [] || |args| % Width(kind) != 0 then sem(db, argv)
        else if !Fits(kind, ValueOf(db, key)) then db
        else db[key := Entry(AddArgs(kind, ValueOf(db, key), args).value, ExpireOf(db, key))]
      case _ => sem(db, argv)
  }

  function Exec(sem: Semantics, s: State, argv: Argv): State {
    if |argv| == 2 && OpOf(argv[0]) == SelectOp then
      var n := ParseInt(argv[1]);
      if 0 <= n < |s.dbs| then s.(cur := n) else s
    else if s.cur < |s.dbs| then s.(dbs := s.dbs[s.cur := ExecDb(sem, s.dbs[s.cur], argv)])
    else s
  }

  function ExecAll(sem: Semantics, s: State, cmds: seq<Argv>): State
    decreases |cmds|
  {
    if cmds == [] then s else ExecAll(sem, Exec(sem, s, cmds[0]), cmds[1..])
  }

  function ExecDbAll(sem: Semantics, db: Db, cmds: seq<Argv>): Db
    decreases |cmds|
  {
    if cmds == [] then db else ExecDbAll(sem, ExecDb(sem, db, cmds[0]), cmds[1..])
  }

  lemma {:induction false} ExecAllConcat(sem: Semantics, s: State, a: seq<Argv>, b: seq<Argv>)
    ensures ExecAll(sem, s, a + b) == ExecAll(sem, ExecAll(sem, s, a), b)
    decreases |a|
  {
    if a == [] {
      assert a + b == b;
    } else {
      assert (a + b)[1..] == a[1..] + b;
      ExecAllConcat(sem, Exec(sem, s, a[0]), a[1..], b);
    }
  }

  lemma {:induction false} ExecDbAllConcat(sem: Semantics, db: Db, a: seq<Argv>, b: seq<Argv>)
    ensures ExecDbAll(sem, db, a + b) == ExecDbAll(sem, ExecDbAll(sem, db, a), b)
    decreases |a|
  {
    if a == [] {
      assert a + b == b;
    } else {
      assert (a + b)[1..] == a[1..] + b;
      ExecDbAllConcat(sem, ExecDb(sem, db, a[0]), a[1..], b);
    }
  }

  ghost predicate NoSelect(cmds: seq<Argv>) {
    forall i :: 0 <= i < |cmds| ==> |cmds[i]| != 2 || OpOf(cmds[i][0]) != SelectOp
  }

  /** Commands without SELECT act on one database. */
  lemma {:induction false} ExecAllInDb(sem: Semantics, s: State, cmds: seq<Argv>)
    requires s.cur < |s.dbs| && NoSelect(cmds)
    ensures ExecAll(sem, s, cmds) == s.(dbs := s.dbs[s.cur := ExecDbAll(sem, s.dbs[s.cur], cmds)])
    decreases |cmds|
  {
    if cmds == [] {
      assert s.dbs[s.cur := s.dbs[s.cur]] == s.dbs;
    } else {
      var s' := Exec(sem, s, cmds[0]);
      ExecAllInDb(sem, s', cmds[1..]);
      assert s'.dbs[s.cur := ExecDbAll(sem, s'.dbs[s.cur], cmds[1..])] == s.dbs[s.cur := ExecDbAll(sem, s'.dbs[s.cur], cmds[1..])];
    }
  }

  // ---------------------------------------------------------------------------
  // Numbers in commands
  // ---------------------------------------------------------------------------

  /** ll2string. */
  function SignedDec(n: int): Bytes {
    if n < 0 then [45] + Dec(-n) else Dec(n)
  }

  lemma ParseSigned(n: int)
    ensures ParseInt(SignedDec(n)) == n
  {
    var m: nat := if n < 0 then -n else n;
    DecDigits(m);
    FoldDec(m);
    ParseFolds(0, Dec(m), []);
    assert Dec(m) + [] == Dec(m);
    assert n < 0 ==> SignedDec(n)[1..] == Dec(m);
    assert IsDigit(Dec(m)[0]);
  }

  function SelectCommand(db: nat): Argv {
    [SELECT, Dec(db)]
  }

  /** feedAppendOnlyFile: a SELECT when the database differs from the last one logged. */
  function Fed(selected: int, db: nat, log: seq<Argv>): seq<Argv> {
    if log == [] then [] else (if db != selected then [SelectCommand(db)] else []) + log
  }

  function ExpireAtCommand(key: Bytes, when: int): Argv {
    [PEXPIREAT, key, SignedDec(when)]
  }

  lemma ExecSelect(sem: Semantics, s: State, db: nat)
    requires db < |s.dbs|
    ensures Exec(sem, s, SelectCommand(db)) == s.(cur := db)
  {
    Names();
    ParseSigned(db);
  }

  lemma ExecExpireAt(sem: Semantics, db: Db, key: Bytes, when: int)
    ensures ExecDb(sem, db, ExpireAtCommand(key, when)) ==
            if key in db then db[key := Entry(db[key].value, Some(when))] else db
  {
    Names();
    ParseSigned(when);
  }
}
