/** The background rewrite of the append only file (src/aof.c): the parent's block buffer, and
    the two processes that move its contents through a pipe while clients keep writing. */
module AofRewrite {
  import opened AofBytes

  // ---------------------------------------------------------------------------
  // The rewrite buffer
  // ---------------------------------------------------------------------------

  const BLOCK_SIZE: nat := 1024 * 1024 * 10

  /** A block of the rewrite buffer: the used part of its memory and what is free. */
  datatype Block = Block(data: Bytes, free: nat)

  function Concat(blocks: seq<Block>): Bytes
    decreases |blocks|
  {
    if blocks == [] then [] else blocks[0].data + Concat(blocks[1..])
  }

  ghost predicate Sound(blocks: seq<Block>) {
    forall i :: 0 <= i < |blocks| ==> |blocks[i].data| + blocks[i].free == BLOCK_SIZE
  }

  ghost predicate NoneEmpty(blocks: seq<Block>) {
    forall i :: 0 <= i < |blocks| ==> blocks[i].data != []
  }

  lemma {:induction false} ConcatSnoc(blocks: seq<Block>, b: Block)
    ensures Concat(blocks + [b]) == Concat(blocks) + b.data
    decreases |blocks|
  {
    if blocks == [] {
      assert blocks + [b] == [b] && [b][1..] == [];
      assert b.data + [] == b.data && [] + b.data == b.data;
    } else {
      assert (blocks + [b])[1..] == blocks[1..] + [b];
      ConcatSnoc(blocks[1..], b);
      Assoc(blocks[0].data, Concat(blocks[1..]), b.data);
    }
  }

  /** Growing the last block grows the contents. */
  lemma GrowLast(blocks: seq<Block>, init: seq<Block>, last: Block, b: Block, add: Bytes)
    requires blocks == init + [last] && b.data == last.data + add
    ensures Concat(init + [b]) == Concat(blocks) + add
  {
    ConcatSnoc(init, last);
    ConcatSnoc(init, b);
    Assoc(Concat(init), last.data, add);
  }

  ghost predicate NoneEmptyButLast(blocks: seq<Block>) {
    forall i :: 0 <= i < |blocks| - 1 ==> blocks[i].data != []
  }

  /** One fill of the last block with the first `n` bytes of `rest`. */
  lemma FillStep(blocks: seq<Block>, init: seq<Block>, last: Block, rest: Bytes, n: nat, before: Bytes, s: Bytes, done: nat)
    requires blocks == init + [last] && n <= last.free && n <= |rest|
    requires done <= |s| && rest == s[done..] && Concat(blocks) == before + s[..done]
    requires Sound(blocks) && NoneEmptyButLast(blocks)
    ensures var b := Block(last.data + rest[..n], last.free - n);
      && Concat(init + [b]) == before + s[..done + n]
      && Sound(init + [b]) && NoneEmptyButLast(init + [b])
      && (b.data != [] ==> NoneEmpty(init + [b]))
    ensures rest[n..] == s[done + n..]
  {
    var b := Block(last.data + rest[..n], last.free - n);
    GrowLast(blocks, init, last, b, rest[..n]);
    CutMore(s, done, n, before);
    assert blocks[|init|] == last;
    SnocKeeps(blocks, init, last, b);
  }

  lemma SnocKeeps(blocks: seq<Block>, init: seq<Block>, last: Block, b: Block)
    requires blocks == init + [last] && Sound(blocks) && NoneEmptyButLast(blocks)
    requires |b.data| + b.free == BLOCK_SIZE
    ensures Sound(init + [b]) && NoneEmptyButLast(init + [b])
    ensures b.data != [] ==> NoneEmpty(init + [b])
  {
    assert forall i :: 0 <= i < |init| ==> (init + [b])[i] == blocks[i];
  }

  lemma NewBlock(blocks: seq<Block>)
    requires Sound(blocks) && NoneEmpty(blocks)
    ensures var r := blocks + [Block([], BLOCK_SIZE)]; Sound(r) && NoneEmptyButLast(r) && Concat(r) == Concat(blocks)
  {
    ConcatSnoc(blocks, Block([], BLOCK_SIZE));
    assert Concat(blocks) + [] == Concat(blocks);
  }

  /** `rest` is what is left of `s`, and the blocks hold everything before it. */
  ghost predicate Appending(blocks: seq<Block>, before: Bytes, s: Bytes, rest: Bytes) {
    && |rest| <= |s| && rest == s[|s| - |rest|..]
    && Sound(blocks) && NoneEmptyButLast(blocks)
    && (NoneEmpty(blocks) || (Room(blocks) > 0 && |rest| > 0))
    && Concat(blocks) == before + s[..|s| - |rest|]
  }

  lemma AppendStarts(blocks: seq<Block>, before: Bytes, s: Bytes)
    requires Sound(blocks) && NoneEmpty(blocks) && before == Concat(blocks)
    ensures Appending(blocks, before, s, s)
  {
    assert s[..0] == [] && before + [] == before && s[0..] == s;
  }

  lemma AppendGrows(blocks: seq<Block>, before: Bytes, s: Bytes, rest: Bytes)
    requires Appending(blocks, before, s, rest) && NoneEmpty(blocks) && rest != []
    ensures Appending(blocks + [Block([], BLOCK_SIZE)], before, s, rest)
  {
    NewBlock(blocks);
  }

  lemma AppendEnds(blocks: seq<Block>, before: Bytes, s: Bytes)
    requires Appending(blocks, before, s, [])
    ensures Sound(blocks) && NoneEmpty(blocks) && Concat(blocks) == before + s
  {
    assert s[..|s|] == s;
  }

  function Room(blocks: seq<Block>): nat {
    if blocks == [] then 0 else blocks[|blocks| - 1].free
  }

  /** What write(2) returns for a request of `want` bytes: -1, or at most `want`. */
  function Accepted(outcome: int, want: nat): int {
    if outcome < 0 then -1 else if outcome > want then want else outcome
  }

  /** Every write takes what it is given, up to a block. */
  ghost predicate TakesAll(script: seq<int>) {
    forall i :: 0 <= i < |script| ==> script[i] >= BLOCK_SIZE
  }

  /** The write of a block takes all of it; an empty block is not written. */
  predicate Taken(block: Block, script: seq<int>, i: nat) {
    block.data == [] || (i < |script| && script[i] >= |block.data|)
  }

  ghost predicate AllTaken(blocks: seq<Block>, script: seq<int>) {
    forall i :: 0 <= i < |blocks| ==> Taken(blocks[i], script, i)
  }

  class RewriteBuffer {
    var blocks: seq<Block>
    var stopSending: bool
    /** Whether the writable event on the data pipe is installed. */
    var watching: bool

    /** Every block is accounted for, none is stored empty, and data that may still be sent
        is never left without a handler to send it. */
    ghost predicate Valid()
      reads this
    {
      Sound(blocks) && NoneEmpty(blocks) && (blocks != [] && !stopSending ==> watching)
    }

    ghost function Contents(): Bytes
      reads this
    {
      Concat(blocks)
    }

    constructor ()
      ensures Valid() && Contents() == [] && !stopSending && !watching
    {
      blocks, stopSending, watching := [], false, false;
    }

    /** aofRewriteBufferReset. */
    method Reset()
      modifies `blocks
      ensures Contents() == [] && Sound(blocks) && NoneEmpty(blocks)
    {
      blocks := [];
    }

    /** aofRewriteBufferSize. */
    method Size() returns (size: nat)
      ensures size == |Contents()|
    {
      size := 0;
      assert blocks[0..] == blocks;
      for i := 0 to |blocks|
        invariant size + |Concat(blocks[i..])| == |Concat(blocks)|
      {
        assert blocks[i..][1..] == blocks[i + 1..];
        size := size + |blocks[i].data|;
      }
      assert blocks[|blocks|..] == [];
    }

    /** aofRewriteBufferAppend: fills the last block, then allocates others. */
    method Append(s: Bytes)
      requires Valid()
      modifies `blocks, `watching
      ensures Valid() && watching
      ensures Contents() == old(Contents()) + s
    {
      var rest := s;
      ghost var before := Concat(blocks);
      AppendStarts(blocks, before, s);
      while |rest| > 0
        invariant Appending(blocks, before, s, rest)
        decreases |rest|, if Room(blocks) == 0 then 1 else 0
      {
        if blocks != [] {
          var n := FillLast(rest, before, s);
          rest := rest[n..];
        }
        if |rest| > 0 {
          AppendGrows(blocks, before, s, rest);
          blocks := blocks + [Block([], BLOCK_SIZE)];
        }
      }
      AppendEnds(blocks, before, s);
      watching := true;
    }

    /** Copies as much of `rest` as the last block can take. */
    method FillLast(rest: Bytes, ghost before: Bytes, ghost s: Bytes) returns (n: nat)
      requires blocks != [] && rest != [] && Appending(blocks, before, s, rest)
      modifies `blocks
      ensures n == if old(Room(blocks)) < |rest| then old(Room(blocks)) else |rest|
      ensures Appending(blocks, before, s, rest[n..]) && NoneEmpty(blocks)
      ensures Room(blocks) == old(Room(blocks)) - n
    {
      var init, last := blocks[..|blocks| - 1], blocks[|blocks| - 1];
      n := if last.free < |rest| then last.free else |rest|;
      assert blocks == init + [last];
      FillStep(blocks, init, last, rest, n, before, s, |s| - |rest|);
      blocks := init + [Block(last.data + rest[..n], last.free - n)];
    }

    /** aofChildWriteDiffData: sends from the first block until a write fails, the buffer is
        empty or sending has stopped. `script` holds what successive writes return. */
    method ChildWriteDiffData(script: seq<int>) returns (sent: Bytes)
      requires Valid()
      modifies `blocks, `watching
      ensures Valid()
      ensures sent + Contents() == old(Contents())
      ensures stopSending ==> sent == [] && !watching
      ensures blocks == [] ==> !watching
      ensures sent != [] <==> !stopSending && old(blocks) != [] && script != [] && script[0] > 0
      ensures !stopSending && TakesAll(script) && |script| >= |old(blocks)| ==> blocks == []
    {
      sent := [];
      var i := 0;
      assert [] + Concat(blocks) == Concat(blocks);
      while true
        invariant i <= |script| && Sound(blocks) && NoneEmpty(blocks)
        invariant sent + Concat(blocks) == old(Contents())
        invariant i > 0 ==> !stopSending
        invariant stopSending ==> sent == []
        invariant i == 0 ==> sent == [] && blocks == old(blocks)
        invariant i > 0 ==> sent != [] && script[0] > 0 && old(blocks) != []
        invariant TakesAll(script) ==> |blocks| + i == |old(blocks)|
        invariant watching == old(watching)
        decreases |script| - i, |blocks|
      {
        if stopSending || blocks == [] {
          watching := false;
          return;
        }
        if i == |script| { return; }
        var n := Accepted(script[i], |blocks[0].data|);
        i := i + 1;
        if n <= 0 { return; }
        TakeFront(blocks, n, sent);
        if TakesAll(script) { assert script[i - 1] >= BLOCK_SIZE; }
        sent := sent + blocks[0].data[..n];
        blocks := WithoutFront(blocks, n);
      }
    }

    /** aofRewriteBufferWrite: appends everything to the rewritten file, or fails with a
        partial copy in it. */
    method Write(target: Bytes, script: seq<int>) returns (out: Bytes, count: int)
      requires Sound(blocks)
      ensures count == -1 <==> !AllTaken(blocks, script)
      ensures count != -1 ==> count == |Contents()| && out == target + Contents()
      ensures target <= out <= target + Contents()
    {
      out, count := target, 0;
      assert blocks[0..] == blocks;
      assert target + [] == target;
      ghost var done: Bytes := [];
      assert [] + Concat(blocks) == Concat(blocks);
      for i := 0 to |blocks|
        invariant out == target + done && count == |done|
        invariant done + Concat(blocks[i..]) == Concat(blocks)
        invariant forall j :: 0 <= j < i ==> Taken(blocks[j], script, j)
      {
        var block := blocks[i];
        assert blocks[i..][1..] == blocks[i + 1..];
        Assoc(done, block.data, Concat(blocks[i + 1..]));
        Assoc(target, done, block.data);
        if block.data != [] {
          var n := if i < |script| then Accepted(script[i], |block.data|) else -1;
          PartOfAll(target, done, block.data, Concat(blocks[i + 1..]), if n < 0 then 0 else n);
          out := out + block.data[..if n < 0 then 0 else n];
          if n != |block.data| { return out, -1; }
          count := count + n;
          assert block.data[..n] == block.data;
        } else {
          assert done + block.data == done;
        }
        done := done + block.data;
      }
      assert blocks[|blocks|..] == [] && done + [] == done;
    }
  }

  lemma CutMore(s: Bytes, done: nat, n: nat, before: Bytes)
    requires done + n <= |s|
    ensures (before + s[..done]) + s[done..][..n] == before + s[..done + n]
    ensures s[done..][n..] == s[done + n..]
  {
    assert s[..done + n] == s[..done] + s[done..][..n];
    Assoc(before, s[..done], s[done..][..n]);
  }

  /** The buffer without the first `n` bytes of its first block; an emptied block is freed. */
  function WithoutFront(blocks: seq<Block>, n: nat): seq<Block>
    requires blocks != [] && n <= |blocks[0].data|
  {
    var rest := Block(blocks[0].data[n..], blocks[0].free + n);
    (if rest.data == [] then [] else [rest]) + blocks[1..]
  }

  lemma TakeFront(blocks: seq<Block>, n: nat, sent: Bytes)
    requires blocks != [] && n <= |blocks[0].data| && Sound(blocks) && NoneEmpty(blocks)
    ensures Sound(WithoutFront(blocks, n)) && NoneEmpty(WithoutFront(blocks, n))
    ensures (sent + blocks[0].data[..n]) + Concat(WithoutFront(blocks, n)) == sent + Concat(blocks)
  {
    var d, more := blocks[0].data, Concat(blocks[1..]);
    var r := WithoutFront(blocks, n);
    if d[n..] == [] {
      assert r == blocks[1..] && [] + more == more;
    } else {
      assert r[1..] == blocks[1..];
    }
    assert Concat(r) == d[n..] + more;
    assert d == d[..n] + d[n..];
    Assoc(sent, d[..n], Concat(r));
    Assoc(d[..n], d[n..], more);
  }

  lemma PartOfAll(target: Bytes, done: Bytes, d: Bytes, more: Bytes, n: nat)
    requires n <= |d|
    ensures target <= target + done + d[..n] <= target + (done + (d + more))
  {
    assert target + done + d[..n] == target + (done + d[..n]);
    assert done + (d + more) == (done + d[..n]) + (d[n..] + more);
  }
}
