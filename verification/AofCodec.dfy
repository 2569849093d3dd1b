/** The text of the append only file: the encoder (catAppendOnlyGenericCommand) and the
    reader inside loadAppendOnlyFile of src/aof.c, and what the reader makes of a file that
    was cut at an arbitrary byte. */
module AofCodec {
  import opened AofBytes

  type Argv = seq<Bytes>

  // ---------------------------------------------------------------------------
  // Encoder
  // ---------------------------------------------------------------------------

  function Head(kind: byte, n: nat): Bytes {
    [kind] + Dec(n) + CRLF
  }

  function Bulk(arg: Bytes): Bytes {
    Head(DOLLAR, |arg|) + arg + CRLF
  }

  function Bulks(argv: Argv): Bytes {
    if argv == [] then [] else Bulk(argv[0]) + Bulks(argv[1..])
  }

  function Encode(argv: Argv): Bytes {
    Head(STAR, |argv|) + Bulks(argv)
  }

  function EncodeAll(cmds: seq<Argv>): Bytes {
    if cmds == [] then [] else Encode(cmds[0]) + EncodeAll(cmds[1..])
  }

  /** What the C types allow: argc is an int, lengths are read as longs. */
  ghost predicate Sized(argv: Argv) {
    && 1 <= |argv| < 0x8000_0000
    && forall i :: 0 <= i < |argv| ==> |argv[i]| < 0x8000_0000_0000_0000
  }

  // ---------------------------------------------------------------------------
  // Reader
  // ---------------------------------------------------------------------------

  /** The length of what fgets takes: up to and including a newline, at most `limit`. */
  function LineLength(s: Bytes, limit: nat): nat
    ensures LineLength(s, limit) <= |s|
    decreases |s|
  {
    if s == [] || limit == 0 then 0
    else if s[0] == LF then 1
    else 1 + LineLength(s[1..], limit - 1)
  }

  /** fgets into a buffer of 128 bytes. */
  const LINE_LIMIT: nat := 127

  datatype Read<T> = Got(value: T, rest: Bytes) | Eof | Short | Bad

  function ReadLine(s: Bytes): Read<Bytes> {
    if s == [] then Eof
    else var k := LineLength(s, LINE_LIMIT); Got(s[..k], s[k..])
  }

  /** One argument: "$<len>", that many bytes, two more bytes. A negative length makes the
      allocation fail. */
  function ReadBulk(s: Bytes): Read<Bytes> {
    match ReadLine(s)
    case Got(line, rest) =>
      if line == [] || line[0] != DOLLAR then Bad
      else
        var len := ParseInt(line[1..]);
        if len < 0 then Bad
        else if len > 0 && |rest| < len then Short
        else if |rest| < len + 2 then Short
        else Got(rest[..len], rest[len + 2..])
    case _ => Short
  }

  function Prepend(argv: Argv, r: Read<Argv>): Read<Argv> {
    if r.Got? then Got(argv + r.value, r.rest) else r
  }

  function ReadBulks(s: Bytes, n: nat): Read<Argv>
    decreases n
  {
    if n == 0 then Got([], s)
    else
      match ReadBulk(s)
      case Got(arg, rest) => Prepend([arg], ReadBulks(rest, n - 1))
      case Bad => Bad
      case _ => Short
  }

  function ReadCommand(s: Bytes): Read<Argv> {
    match ReadLine(s)
    case Got(line, rest) =>
      if line == [] || line[0] != STAR then Bad
      else if |line| == 1 then Short
      else
        var argc := ParseInt(line[1..]);
        if argc < 1 then Bad else ReadBulks(rest, argc)
    case _ => Eof
  }

  // ---------------------------------------------------------------------------
  // Reading back what was written
  // ---------------------------------------------------------------------------

  lemma {:induction false} LineOfText(text: Bytes, rest: Bytes, limit: nat)
    requires |text| < limit && LF !in text
    ensures LineLength(text + [LF] + rest, limit) == |text| + 1
    ensures LineLength(text, limit) == |text|
    decreases |text|
  {
    if text != [] {
      assert (text + [LF] + rest)[1..] == text[1..] + [LF] + rest;
      LineOfText(text[1..], rest, limit - 1);
    }
  }

  lemma HeadHasNoNewline(kind: byte, n: nat)
    requires kind != LF
    ensures LF !in [kind] + Dec(n) + [CR]
    ensures Head(kind, n) == [kind] + Dec(n) + [CR] + [LF]
  {
    DecDigits(n);
  }

  lemma ReadHead(kind: byte, n: nat, rest: Bytes)
    requires kind != LF && n < 0x8000_0000_0000_0000
    ensures ReadLine(Head(kind, n) + rest) == Got(Head(kind, n), rest)
    ensures ParseInt(Head(kind, n)[1..]) == n && |Head(kind, n)| >= 4
  {
    SizeDigits(n);
    DecDigits(n);
    HeadHasNoNewline(kind, n);
    var text := [kind] + Dec(n) + [CR];
    LineOfText(text, rest, LINE_LIMIT);
    assert Head(kind, n) + rest == text + [LF] + rest;
    assert Head(kind, n)[1..] == Dec(n) + CRLF;
    ParseDec(n);
  }

  lemma ReadWholeBulk(arg: Bytes, rest: Bytes)
    requires |arg| < 0x8000_0000_0000_0000
    ensures ReadBulk(Bulk(arg) + rest) == Got(arg, rest)
  {
    var after := arg + CRLF + rest;
    ReadHead(DOLLAR, |arg|, after);
    assert Bulk(arg) + rest == Head(DOLLAR, |arg|) + after;
    assert after[..|arg|] == arg && after[|arg| + 2..] == rest;
  }

  lemma {:induction false} ReadWholeBulks(argv: Argv, rest: Bytes)
    requires forall i :: 0 <= i < |argv| ==> |argv[i]| < 0x8000_0000_0000_0000
    ensures ReadBulks(Bulks(argv) + rest, |argv|) == Got(argv, rest)
    decreases |argv|
  {
    if argv == [] {
      assert Bulks(argv) + rest == rest;
    } else {
      var more := Bulks(argv[1..]) + rest;
      Assoc(Bulk(argv[0]), Bulks(argv[1..]), rest);
      ReadWholeBulk(argv[0], more);
      ReadWholeBulks(argv[1..], rest);
      LaterIsGot(Bulks(argv) + rest, argv[0], more, argv[1..], rest);
      assert [argv[0]] + argv[1..] == argv;
    }
  }

  lemma LaterIsGot(s: Bytes, arg: Bytes, more: Bytes, others: Argv, rest: Bytes)
    requires ReadBulk(s) == Got(arg, more) && ReadBulks(more, |others|) == Got(others, rest)
    ensures ReadBulks(s, |others| + 1) == Got([arg] + others, rest)
  {}

  /** Decoding an encoded command gives it back, whatever bytes it holds. */
  lemma ReadWholeCommand(argv: Argv, rest: Bytes)
    requires Sized(argv)
    ensures ReadCommand(Encode(argv) + rest) == Got(argv, rest)
  {
    var more := Bulks(argv) + rest;
    assert Encode(argv) + rest == Head(STAR, |argv|) + more;
    ReadHead(STAR, |argv|, more);
    ReadWholeBulks(argv, rest);
  }

  // ---------------------------------------------------------------------------
  // Reading what was cut short
  // ---------------------------------------------------------------------------

  /** A header cut before its newline is one line that ends the file. */
  lemma ReadCutHead(kind: byte, n: nat, k: nat)
    requires kind != LF && n < 0x8000_0000_0000_0000
    requires 1 <= k < |Head(kind, n)|
    ensures var cut := Head(kind, n)[..k];
      && ReadLine(cut) == Got(cut, [])
      && cut[0] == kind
      && ParseInt(cut[1..]) >= 0
      && (n >= 1 && k >= 2 ==> ParseInt(cut[1..]) >= 1)
  {
    SizeDigits(n);
    HeadHasNoNewline(kind, n);
    var text := [kind] + Dec(n) + [CR];
    var cut := Head(kind, n)[..k];
    assert cut == text[..k];
    LineOfText(cut, [], LINE_LIMIT);
    assert cut[..|cut|] == cut && cut[|cut|..] == [];
    if k == |text| {
      assert cut[1..] == Dec(n)[..|Dec(n)|] + [CR];
      ParseCutDec(n, |Dec(n)|, [CR]);
    } else {
      assert cut[1..] == Dec(n)[..k - 1] + [];
      ParseCutDec(n, k - 1, []);
    }
  }

  lemma ReadCutBulk(arg: Bytes, k: nat)
    requires |arg| < 0x8000_0000_0000_0000 && k < |Bulk(arg)|
    ensures ReadBulk(Bulk(arg)[..k]) == Short
  {
    var head, cut := Head(DOLLAR, |arg|), Bulk(arg)[..k];
    if k == 0 {
      assert cut == [];
    } else if k < |head| {
      assert cut == head[..k];
      ReadCutHead(DOLLAR, |arg|, k);
    } else {
      var rest := (arg + CRLF)[..k - |head|];
      assert cut == head + rest;
      ReadHead(DOLLAR, |arg|, rest);
    }
  }

  /** Read `n` arguments from a text: nothing but a short read comes out. */
  ghost predicate RunsShort(s: Bytes, n: nat) {
    ReadBulks(s, n) == Short
  }

  lemma CutInFirst(arg: Bytes, others: Bytes, k: nat, n: nat)
    requires |arg| < 0x8000_0000_0000_0000 && k < |Bulk(arg)| && n > 0
    ensures RunsShort((Bulk(arg) + others)[..k], n)
  {
    CutOfSum(Bulk(arg), others, k);
    ReadCutBulk(arg, k);
  }

  lemma CutInOthers(arg: Bytes, others: Bytes, k: nat, n: nat)
    requires |arg| < 0x8000_0000_0000_0000 && |Bulk(arg)| <= k <= |Bulk(arg)| + |others| && n > 0
    requires RunsShort(others[..k - |Bulk(arg)|], n - 1)
    ensures RunsShort((Bulk(arg) + others)[..k], n)
  {
    var more := others[..k - |Bulk(arg)|];
    CutOfSum(Bulk(arg), others, k);
    ReadWholeBulk(arg, more);
    LaterIsShort(Bulk(arg) + more, n, arg, more);
  }

  lemma LaterIsShort(s: Bytes, n: nat, arg: Bytes, rest: Bytes)
    requires n > 0 && ReadBulk(s) == Got(arg, rest) && ReadBulks(rest, n - 1) == Short
    ensures ReadBulks(s, n) == Short
  {}

  lemma {:induction false} ReadCutBulks(argv: Argv, k: nat)
    requires forall i :: 0 <= i < |argv| ==> |argv[i]| < 0x8000_0000_0000_0000
    requires k < |Bulks(argv)|
    ensures RunsShort(Bulks(argv)[..k], |argv|)
    decreases |argv|
  {
    if argv != [] {
      var first, others := Bulk(argv[0]), Bulks(argv[1..]);
      assert Bulks(argv) == first + others;
      if k < |first| {
        CutInFirst(argv[0], others, k, |argv|);
      } else {
        ReadCutBulks(argv[1..], k - |first|);
        CutInOthers(argv[0], others, k, |argv|);
      }
    }
  }

  /** A command cut anywhere inside is a short read, never a format error. */
  lemma ReadCutCommand(argv: Argv, k: nat)
    requires Sized(argv) && k < |Encode(argv)|
    ensures ReadCommand(Encode(argv)[..k]) == if k == 0 then Eof else Short
  {
    var head, cut := Head(STAR, |argv|), Encode(argv)[..k];
    if k == 0 {
      assert cut == [];
    } else if k < |head| {
      assert cut == head[..k];
      ReadCutHead(STAR, |argv|, k);
    } else {
      var rest := Bulks(argv)[..k - |head|];
      assert cut == head + rest;
      ReadHead(STAR, |argv|, rest);
      ReadCutBulks(argv, k - |head|);
    }
  }
}
