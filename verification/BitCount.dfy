/** redisPopcount of src/bitops.c: counting bits 28 bytes at a time inside 32-bit words, against
    the plain sum over bytes. */
module BitCount {
  import opened BitField

  /** The table of bits per byte. */
  function BitsInByte(b: bv8): nat {
    (if b & 1 != 0 then 1 else 0) + (if b & 2 != 0 then 1 else 0) + (if b & 4 != 0 then 1 else 0) +
    (if b & 8 != 0 then 1 else 0) + (if b & 16 != 0 then 1 else 0) + (if b & 32 != 0 then 1 else 0) +
    (if b & 64 != 0 then 1 else 0) + (if b & 128 != 0 then 1 else 0)
  }

  function Pop(s: Octets): nat
    decreases |s|
  {
    if s == [] then 0 else Pop(s[..|s| - 1]) + BitsInByte(s[|s| - 1])
  }

  // ---------------------------------------------------------------------------
  // One word
  // ---------------------------------------------------------------------------

  /** The steps on one little-endian word: counts of two bits side by side, then of four, then
      of eight. */
  predicate Steps(a: bv8, b: bv8, c: bv8, d: bv8, w: bv32, pairs: bv32, nibbles: bv32, lanes: bv32) {
    && w == (a as bv32) | ((b as bv32) << 8) | ((c as bv32) << 16) | ((d as bv32) << 24)
    && pairs == w - ((w >> 1) & 0x55555555)
    && nibbles == (pairs & 0x33333333) + ((pairs >> 2) & 0x33333333)
    && lanes == (nibbles + (nibbles >> 4)) & 0x0F0F0F0F
  }

  lemma Lane0(a: bv8, b: bv8, c: bv8, d: bv8, w: bv32, pairs: bv32, nibbles: bv32, lanes: bv32)
    requires Steps(a, b, c, d, w, pairs, nibbles, lanes)
    ensures (lanes & 0xFF) as bv8 == (a & 1) + ((a >> 1) & 1) + ((a >> 2) & 1) + ((a >> 3) & 1) + ((a >> 4) & 1) + ((a >> 5) & 1) + ((a >> 6) & 1) + (a >> 7)
  {}

  lemma Lane1(a: bv8, b: bv8, c: bv8, d: bv8, w: bv32, pairs: bv32, nibbles: bv32, lanes: bv32)
    requires Steps(a, b, c, d, w, pairs, nibbles, lanes)
    ensures ((lanes >> 8) & 0xFF) as bv8 == (b & 1) + ((b >> 1) & 1) + ((b >> 2) & 1) + ((b >> 3) & 1) + ((b >> 4) & 1) + ((b >> 5) & 1) + ((b >> 6) & 1) + (b >> 7)
  {}

  lemma Lane2(a: bv8, b: bv8, c: bv8, d: bv8, w: bv32, pairs: bv32, nibbles: bv32, lanes: bv32)
    requires Steps(a, b, c, d, w, pairs, nibbles, lanes)
    ensures ((lanes >> 16) & 0xFF) as bv8 == (c & 1) + ((c >> 1) & 1) + ((c >> 2) & 1) + ((c >> 3) & 1) + ((c >> 4) & 1) + ((c >> 5) & 1) + ((c >> 6) & 1) + (c >> 7)
  {}

  lemma Lane3(a: bv8, b: bv8, c: bv8, d: bv8, w: bv32, pairs: bv32, nibbles: bv32, lanes: bv32)
    requires Steps(a, b, c, d, w, pairs, nibbles, lanes)
    ensures (lanes >> 24) as bv8 == (d & 1) + ((d >> 1) & 1) + ((d >> 2) & 1) + ((d >> 3) & 1) + ((d >> 4) & 1) + ((d >> 5) & 1) + ((d >> 6) & 1) + (d >> 7)
  {}

  /** The count of a byte, kept in a byte, is the table's. */
  lemma CountIsTable(b: bv8, n: bv8)
    requires n == (b & 1) + ((b >> 1) & 1) + ((b >> 2) & 1) + ((b >> 3) & 1) + ((b >> 4) & 1) + ((b >> 5) & 1) + ((b >> 6) & 1) + (b >> 7)
    ensures n as int == BitsInByte(b)
  {}

  lemma BytesAsNat(a: bv8, b: bv8, c: bv8, d: bv8)
    ensures ((a as bv32) | ((b as bv32) << 8) | ((c as bv32) << 16) | ((d as bv32) << 24)) as int ==
            a as int + 256 * (b as int) + 65536 * (c as int) + 16777216 * (d as int)
  {}

  lemma Rejoined(l: bv32)
    ensures (((l & 0xFF) as bv8) as bv32) | ((((l >> 8) & 0xFF) as bv8 as bv32) << 8) |
            ((((l >> 16) & 0xFF) as bv8 as bv32) << 16) | (((l >> 24) as bv8 as bv32) << 24) == l
  {}

  lemma WordAsNat(l: bv32)
    ensures l as int == ((l & 0xFF) as bv8) as int + 256 * (((l >> 8) & 0xFF) as bv8 as int) +
                        65536 * (((l >> 16) & 0xFF) as bv8 as int) + 16777216 * ((l >> 24) as bv8 as int)
  {
    Rejoined(l);
    BytesAsNat((l & 0xFF) as bv8, ((l >> 8) & 0xFF) as bv8, ((l >> 16) & 0xFF) as bv8, (l >> 24) as bv8);
  }

  /** Four counts side by side, as a number. */
  function Weighted(n0: nat, n1: nat, n2: nat, n3: nat): nat {
    n0 + 256 * n1 + 65536 * n2 + 16777216 * n3
  }

  /** Every byte of the word ends up holding its own count. */
  lemma LanesAsNat(a: bv8, b: bv8, c: bv8, d: bv8, w: bv32, pairs: bv32, nibbles: bv32, lanes: bv32)
    requires Steps(a, b, c, d, w, pairs, nibbles, lanes)
    ensures lanes as int == Weighted(BitsInByte(a), BitsInByte(b), BitsInByte(c), BitsInByte(d))
  {
    Lane0(a, b, c, d, w, pairs, nibbles, lanes);
    Lane1(a, b, c, d, w, pairs, nibbles, lanes);
    Lane2(a, b, c, d, w, pairs, nibbles, lanes);
    Lane3(a, b, c, d, w, pairs, nibbles, lanes);
    CountIsTable(a, (lanes & 0xFF) as bv8);
    CountIsTable(b, ((lanes >> 8) & 0xFF) as bv8);
    CountIsTable(c, ((lanes >> 16) & 0xFF) as bv8);
    CountIsTable(d, (lanes >> 24) as bv8);
    WordAsNat(lanes);
  }

  // ---------------------------------------------------------------------------
  // Seven words
  // ---------------------------------------------------------------------------

  lemma LowWord(x: nat, q: nat, r: nat)
    requires x == q * 0x1_0000_0000 + r && r < 0x1_0000_0000
    ensures x % 0x1_0000_0000 == r
  {}

  lemma TopByte(r: nat, low: nat, n: nat)
    requires r == low + 0x100_0000 * n && low < 0x100_0000
    ensures r / 0x100_0000 == n
  {}

  lemma Product(s0: nat, s1: nat, s2: nat, s3: nat, q: nat, r: nat)
    requires q == (s1 + s2 + s3) + 256 * (s2 + s3) + 65536 * s3
    requires r == s0 + 256 * (s0 + s1) + 65536 * (s0 + s1 + s2) + 0x100_0000 * (s0 + s1 + s2 + s3)
    ensures Weighted(s0, s1, s2, s3) * 0x01010101 == q * 0x1_0000_0000 + r
  {}

  /** The multiplication adds the four lanes in the top byte; no lane of seven words exceeds
      56, so their sum stays below 256. */
  lemma MultiplyAddsLanes(s0: nat, s1: nat, s2: nat, s3: nat, t: nat)
    requires s0 <= 56 && s1 <= 56 && s2 <= 56 && s3 <= 56 && t == Weighted(s0, s1, s2, s3)
    ensures t < 0x1_0000_0000
    ensures t * 0x01010101 % 0x1_0000_0000 / 0x100_0000 == s0 + s1 + s2 + s3
  {
    var low := s0 + 256 * (s0 + s1) + 65536 * (s0 + s1 + s2);
    var r := low + 0x100_0000 * (s0 + s1 + s2 + s3);
    var q := (s1 + s2 + s3) + 256 * (s2 + s3) + 65536 * s3;
    Product(s0, s1, s2, s3, q, r);
    LowWord(t * 0x01010101, q, r);
    TopByte(r, low, s0 + s1 + s2 + s3);
  }

  /** `counts` are the table's counts of the bytes of `s`. */
  ghost predicate Counts(s: Octets, counts: seq<nat>)
    decreases |s|
  {
    |counts| == |s| && (s == [] ||
      var n := |s| - 1;
      counts[n] == BitsInByte(s[n]) && Counts(s[..n], counts[..n]))
  }

  function Sum(counts: seq<nat>): nat
    decreases |counts|
  {
    if counts == [] then 0 else Sum(counts[..|counts| - 1]) + counts[|counts| - 1]
  }

  lemma {:induction false} CountsOf(s: Octets) returns (counts: seq<nat>)
    ensures Counts(s, counts) && Sum(counts) == Pop(s)
    decreases |s|
  {
    counts := [];
    if s != [] {
      var n := |s| - 1;
      var init := CountsOf(s[..n]);
      counts := init + [BitsInByte(s[n])];
      assert counts[..n] == init;
    }
  }

  lemma {:induction false} CountAt(s: Octets, counts: seq<nat>, i: nat)
    requires Counts(s, counts) && i < |s|
    ensures |counts| == |s| && counts[i] == BitsInByte(s[i])
    decreases |s|
  {
    var n := |s| - 1;
    if i < n { CountAt(s[..n], counts[..n], i); }
  }

  lemma CountBound(s: Octets, counts: seq<nat>, i: nat)
    requires Counts(s, counts) && i < |s|
    ensures |counts| == |s| && counts[i] <= 8
  {
    CountAt(s, counts, i);
  }

  lemma SumMore(counts: seq<nat>, i: nat)
    requires i < |counts|
    ensures Sum(counts[..i + 1]) == Sum(counts[..i]) + counts[i]
  {
    assert counts[..i + 1][..i] == counts[..i];
  }

  lemma SumFour(counts: seq<nat>, i: nat)
    requires i + 4 <= |counts|
    ensures Sum(counts[..i + 4]) == Sum(counts[..i]) + counts[i] + counts[i + 1] + counts[i + 2] + counts[i + 3]
  {
    SumMore(counts, i);
    SumMore(counts, i + 1);
    SumMore(counts, i + 2);
    SumMore(counts, i + 3);
  }

  /** Column `j` of the seven words that start at `i`. */
  function Column(c: seq<nat>, i: nat, j: nat): nat
    requires j < 4 && i + 28 <= |c|
  {
    c[i + j] + c[i + 4 + j] + c[i + 8 + j] + c[i + 12 + j] + c[i + 16 + j] + c[i + 20 + j] + c[i + 24 + j]
  }

  lemma ColumnBound(s: Octets, c: seq<nat>, i: nat, j: nat)
    requires Counts(s, c) && j < 4 && i + 28 <= |s|
    ensures |c| == |s| && Column(c, i, j) <= 56
  {
    CountBound(s, c, i + j);
    CountBound(s, c, i + 4 + j);
    CountBound(s, c, i + 8 + j);
    CountBound(s, c, i + 12 + j);
    CountBound(s, c, i + 16 + j);
    CountBound(s, c, i + 20 + j);
    CountBound(s, c, i + 24 + j);
  }

  lemma SumBlock(c: seq<nat>, i: nat)
    requires i + 28 <= |c|
    ensures Sum(c[..i + 28]) == Sum(c[..i]) + Column(c, i, 0) + Column(c, i, 1) + Column(c, i, 2) + Column(c, i, 3)
  {
    SumFour(c, i);
    SumFour(c, i + 4);
    SumFour(c, i + 8);
    SumFour(c, i + 12);
    SumFour(c, i + 16);
    SumFour(c, i + 20);
    SumFour(c, i + 24);
  }

  /** The counts of four bytes, packed in one number by the word steps. */
  method PackedBytes(a: bv8, b: bv8, c: bv8, d: bv8) returns (n: nat)
    ensures n == Weighted(BitsInByte(a), BitsInByte(b), BitsInByte(c), BitsInByte(d))
  {
    var w := (a as bv32) | ((b as bv32) << 8) | ((c as bv32) << 16) | ((d as bv32) << 24);
    var pairs := w - ((w >> 1) & 0x55555555);
    var nibbles := (pairs & 0x33333333) + ((pairs >> 2) & 0x33333333);
    var lanes := (nibbles + (nibbles >> 4)) & 0x0F0F0F0F;
    LanesAsNat(a, b, c, d, w, pairs, nibbles, lanes);
    n := lanes as nat;
  }

  method PackedCounts(s: Octets, i: nat, ghost counts: seq<nat>) returns (n: nat)
    requires i + 4 <= |s| && Counts(s, counts)
    ensures |counts| == |s| && n == Weighted(counts[i], counts[i + 1], counts[i + 2], counts[i + 3])
  {
    CountAt(s, counts, i);
    CountAt(s, counts, i + 1);
    CountAt(s, counts, i + 2);
    CountAt(s, counts, i + 3);
    n := PackedBytes(s[i], s[i + 1], s[i + 2], s[i + 3]);
  }

  /** The final product of the 28-byte loop; sum and product are 32-bit unsigned. */
  method AddLanes(sum: nat, ghost s0: nat, ghost s1: nat, ghost s2: nat, ghost s3: nat) returns (n: nat)
    requires s0 <= 56 && s1 <= 56 && s2 <= 56 && s3 <= 56 && sum == Weighted(s0, s1, s2, s3)
    ensures n == s0 + s1 + s2 + s3
  {
    MultiplyAddsLanes(s0, s1, s2, s3, sum);
    n := sum % 0x1_0000_0000 * 0x01010101 % 0x1_0000_0000 / 0x100_0000;
  }

  /** The body of the 28-byte loop. */
  method CountBlock(s: Octets, i: nat, ghost counts: seq<nat>) returns (n: nat)
    requires i + 28 <= |s| && Counts(s, counts)
    ensures |counts| == |s| && n == Sum(counts[..i + 28]) - Sum(counts[..i])
  {
    var n1 := PackedCounts(s, i, counts);
    var n2 := PackedCounts(s, i + 4, counts);
    var n3 := PackedCounts(s, i + 8, counts);
    var n4 := PackedCounts(s, i + 12, counts);
    var n5 := PackedCounts(s, i + 16, counts);
    var n6 := PackedCounts(s, i + 20, counts);
    var n7 := PackedCounts(s, i + 24, counts);
    ColumnBound(s, counts, i, 0);
    ColumnBound(s, counts, i, 1);
    ColumnBound(s, counts, i, 2);
    ColumnBound(s, counts, i, 3);
    n := AddLanes(n1 + n2 + n3 + n4 + n5 + n6 + n7,
                  Column(counts, i, 0), Column(counts, i, 1), Column(counts, i, 2), Column(counts, i, 3));
    SumBlock(counts, i);
  }

  /** redisPopcount, at any address. */
  method RedisPopcount(s: Octets, address: nat) returns (bits: nat)
    ensures bits == Pop(s)
  {
    ghost var counts := CountsOf(s);
    bits := 0;
    var i := 0;
    assert counts[..0] == [];
    while (address + i) % 4 != 0 && i < |s|
      invariant i <= |s| && bits == Sum(counts[..i])
      decreases |s| - i
    {
      SumMore(counts, i);
      CountAt(s, counts, i);
      bits := bits + BitsInByte(s[i]);
      i := i + 1;
    }
    while |s| - i >= 28
      invariant i <= |s| && bits == Sum(counts[..i])
      decreases |s| - i
    {
      var n := CountBlock(s, i, counts);
      bits := bits + n;
      i := i + 28;
    }
    while i < |s|
      invariant i <= |s| && bits == Sum(counts[..i])
      decreases |s| - i
    {
      SumMore(counts, i);
      CountAt(s, counts, i);
      bits := bits + BitsInByte(s[i]);
      i := i + 1;
    }
    assert counts[..|s|] == counts;
  }
}
