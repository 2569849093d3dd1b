/** The computation of BITOP in src/bitops.c: a path over four 64-bit words at a time where all
    strings have data, then bytes, against the bytewise operation on strings padded with zeros. */
module BitOp {
  import opened BitField
  import opened ClusterBitmap
  import opened Options

  datatype Op = And | Or | Xor | Not

  // ---------------------------------------------------------------------------
  // Specification
  // ---------------------------------------------------------------------------

  function OnBytes(op: Op, x: bv8, y: bv8): bv8 {
    match op
    case And => x & y
    case Or => x | y
    case Xor => x ^ y
    case Not => !x
  }

  /** The byte at `t`, zero past the end; a missing key is an empty string. */
  function At(s: Octets, t: nat): bv8 {
    if t < |s| then s[t] else 0
  }

  /** Byte `t` of the operation over the strings up to `i`. */
  function Folded(op: Op, srcs: seq<Octets>, i: nat, t: nat): bv8
    requires i < |srcs|
  {
    if i == 0 then (if op == Not then !At(srcs[0], t) else At(srcs[0], t))
    else OnBytes(op, Folded(op, srcs, i - 1, t), At(srcs[i], t))
  }

  function Trues(bits: seq<bool>): nat
    decreases |bits|
  {
    if bits == [] then 0 else Trues(bits[..|bits| - 1]) + if bits[|bits| - 1] then 1 else 0
  }

  /** A bit of the result: set in all strings, in some, in an odd number of them, not set in
      the only one. */
  ghost predicate Combined(op: Op, bits: seq<bool>) {
    match op
    case And => forall q :: 0 <= q < |bits| ==> bits[q]
    case Or => exists q :: 0 <= q < |bits| && bits[q]
    case Xor => Trues(bits) % 2 == 1
    case Not => forall q :: 0 <= q < |bits| ==> !bits[q]
  }

  function OnBits(op: Op, x: bool, y: bool): bool {
    match op
    case And => x && y
    case Or => x || y
    case Xor => x != y
    case Not => !x
  }

  lemma CombinedFirst(op: Op, bit: bool)
    ensures Combined(op, [bit]) == if op == Not then !bit else bit
  {
    var bits := [bit];
    assert bits[..0] == [] && Trues(bits) == if bit then 1 else 0;
    if bit { assert bits[0]; } else { assert !bits[0]; }
  }

  lemma CombinedNext(op: Op, bits: seq<bool>, bit: bool)
    requires op != Not
    ensures Combined(op, bits + [bit]) == OnBits(op, Combined(op, bits), bit)
  {
    var more := bits + [bit];
    assert more[..|bits|] == bits && more[|bits|] == bit;
    assert forall q :: 0 <= q < |bits| ==> more[q] == bits[q];
  }

  predicate IsMask(m: bv8) {
    m == 1 || m == 2 || m == 4 || m == 8 || m == 16 || m == 32 || m == 64 || m == 128
  }

  predicate Masked(x: bv8, m: bv8) {
    x & m != 0
  }

  lemma MaskedByte(x: bv8, y: bv8, m: bv8)
    requires IsMask(m)
    ensures (x & y) & m != 0 <==> x & m != 0 && y & m != 0
    ensures (x | y) & m != 0 <==> x & m != 0 || y & m != 0
    ensures (x ^ y) & m != 0 <==> ((x & m != 0) != (y & m != 0))
    ensures !x & m != 0 <==> x & m == 0
  {}

  lemma MaskedOp(op: Op, x: bv8, y: bv8, m: bv8)
    requires IsMask(m)
    ensures Masked(OnBytes(op, x, y), m) == OnBits(op, Masked(x, m), Masked(y, m))
  {
    MaskedByte(x, y, m);
  }

  ghost predicate Column(srcs: seq<Octets>, t: nat, m: bv8, bits: seq<bool>) {
    |bits| <= |srcs| && forall q :: 0 <= q < |bits| ==> bits[q] == Masked(At(srcs[q], t), m)
  }

  /** What BITOP means, bit by bit. */
  lemma {:induction false} FoldedBit(op: Op, srcs: seq<Octets>, t: nat, m: bv8, bits: seq<bool>)
    requires bits != [] && Column(srcs, t, m, bits) && IsMask(m) && (op == Not ==> |bits| == 1)
    ensures Masked(Folded(op, srcs, |bits| - 1, t), m) == Combined(op, bits)
    decreases |bits|
  {
    var i := |bits| - 1;
    if i == 0 {
      assert bits == [bits[0]];
      CombinedFirst(op, bits[0]);
      MaskedOp(Not, At(srcs[0], t), 0, m);
    } else {
      FoldedBit(op, srcs, t, m, bits[..i]);
      assert bits == bits[..i] + [bits[i]];
      CombinedNext(op, bits[..i], bits[i]);
      MaskedOp(op, Folded(op, srcs, i - 1, t), At(srcs[i], t), m);
    }
  }

  /** The bits of the strings at one position. */
  function BitsAt(srcs: seq<Octets>, p: nat): seq<bool> {
    seq(|srcs|, q requires 0 <= q < |srcs| => Bit(srcs[q], p))
  }

  lemma ByteBit(s: Octets, p: nat, t: nat, j: nat)
    requires j < 8 && p == 8 * t + 7 - j
    ensures Masked(At(s, t), Mask(j)) == Bit(s, p)
  {
    assert p / 8 == t && 7 - p % 8 == j;
  }

  lemma MaskIs(j: nat)
    requires j < 8
    ensures IsMask(Mask(j))
  {
    assert Mask(0) == 1 && Mask(1) == 2 && Mask(2) == 4 && Mask(3) == 8;
    assert Mask(4) == 16 && Mask(5) == 32 && Mask(6) == 64 && Mask(7) == 128;
  }

  lemma ColumnIs(srcs: seq<Octets>, p: nat, t: nat, j: nat)
    requires j < 8 && p == 8 * t + 7 - j
    ensures Column(srcs, t, Mask(j), BitsAt(srcs, p))
  {
    forall q | 0 <= q < |srcs| ensures BitsAt(srcs, p)[q] == Masked(At(srcs[q], t), Mask(j)) {
      ByteBit(srcs[q], p, t, j);
    }
  }

  lemma ResultBitAt(op: Op, srcs: seq<Octets>, out: Octets, p: nat, t: nat, j: nat)
    requires srcs != [] && (op == Not ==> |srcs| == 1) && t < |out| && j < 8 && p == 8 * t + 7 - j
    requires out[t] == Folded(op, srcs, |srcs| - 1, t)
    ensures Bit(out, p) == Combined(op, BitsAt(srcs, p))
  {
    ByteBit(out, p, t, j);
    MaskIs(j);
    ColumnIs(srcs, p, t, j);
    FoldedBit(op, srcs, t, Mask(j), BitsAt(srcs, p));
  }

  /** The whole result. */
  ghost predicate Means(op: Op, srcs: seq<Octets>, out: Octets) {
    forall p :: 0 <= p < 8 * |out| ==> Bit(out, p) == Combined(op, BitsAt(srcs, p))
  }

  lemma HoldsMeans(op: Op, srcs: seq<Octets>, out: Octets)
    requires srcs != [] && (op == Not ==> |srcs| == 1) && Holds(op, srcs, out, |srcs| - 1, 0, |out|)
    ensures Means(op, srcs, out)
  {
    forall p | 0 <= p < 8 * |out| ensures Bit(out, p) == Combined(op, BitsAt(srcs, p)) {
      ResultBitAt(op, srcs, out, p, p / 8, 7 - p % 8);
    }
  }

  // ---------------------------------------------------------------------------
  // Words
  // ---------------------------------------------------------------------------

  function OnWords(op: Op, x: bv64, y: bv64): bv64 {
    match op
    case And => x & y
    case Or => x | y
    case Xor => x ^ y
    case Not => !x
  }

  /** The bytes of a word. */
  function Split(w: bv64): Octets {
    [(w >> 56) as bv8, ((w >> 48) & 0xFF) as bv8, ((w >> 40) & 0xFF) as bv8, ((w >> 32) & 0xFF) as bv8,
     ((w >> 24) & 0xFF) as bv8, ((w >> 16) & 0xFF) as bv8, ((w >> 8) & 0xFF) as bv8, (w & 0xFF) as bv8]
  }

  lemma JoinedBytes(a: bv8, b: bv8, c: bv8, d: bv8, e: bv8, f: bv8, g: bv8, h: bv8, w: bv64)
    requires w == ((a as bv64) << 56) | ((b as bv64) << 48) | ((c as bv64) << 40) | ((d as bv64) << 32) |
                  ((e as bv64) << 24) | ((f as bv64) << 16) | ((g as bv64) << 8) | (h as bv64)
    ensures Split(w) == [a, b, c, d, e, f, g, h]
  {
    assert (w >> 56) as bv8 == a;
    assert ((w >> 48) & 0xFF) as bv8 == b;
    assert ((w >> 40) & 0xFF) as bv8 == c;
    assert ((w >> 32) & 0xFF) as bv8 == d;
    assert ((w >> 24) & 0xFF) as bv8 == e;
    assert ((w >> 16) & 0xFF) as bv8 == f;
    assert ((w >> 8) & 0xFF) as bv8 == g;
    assert (w & 0xFF) as bv8 == h;
  }

  lemma AndBytes(x: bv64, y: bv64)
    ensures ((x & y) >> 56) as bv8 == ((x >> 56) as bv8) & ((y >> 56) as bv8)
    ensures (((x & y) >> 48) & 0xFF) as bv8 == (((x >> 48) & 0xFF) as bv8) & (((y >> 48) & 0xFF) as bv8)
    ensures (((x & y) >> 40) & 0xFF) as bv8 == (((x >> 40) & 0xFF) as bv8) & (((y >> 40) & 0xFF) as bv8)
    ensures (((x & y) >> 32) & 0xFF) as bv8 == (((x >> 32) & 0xFF) as bv8) & (((y >> 32) & 0xFF) as bv8)
    ensures (((x & y) >> 24) & 0xFF) as bv8 == (((x >> 24) & 0xFF) as bv8) & (((y >> 24) & 0xFF) as bv8)
    ensures (((x & y) >> 16) & 0xFF) as bv8 == (((x >> 16) & 0xFF) as bv8) & (((y >> 16) & 0xFF) as bv8)
    ensures (((x & y) >> 8) & 0xFF) as bv8 == (((x >> 8) & 0xFF) as bv8) & (((y >> 8) & 0xFF) as bv8)
    ensures ((x & y) & 0xFF) as bv8 == ((x & 0xFF) as bv8) & ((y & 0xFF) as bv8)
  {}

  lemma OrBytes(x: bv64, y: bv64)
    ensures ((x | y) >> 56) as bv8 == ((x >> 56) as bv8) | ((y >> 56) as bv8)
    ensures (((x | y) >> 48) & 0xFF) as bv8 == (((x >> 48) & 0xFF) as bv8) | (((y >> 48) & 0xFF) as bv8)
    ensures (((x | y) >> 40) & 0xFF) as bv8 == (((x >> 40) & 0xFF) as bv8) | (((y >> 40) & 0xFF) as bv8)
    ensures (((x | y) >> 32) & 0xFF) as bv8 == (((x >> 32) & 0xFF) as bv8) | (((y >> 32) & 0xFF) as bv8)
    ensures (((x | y) >> 24) & 0xFF) as bv8 == (((x >> 24) & 0xFF) as bv8) | (((y >> 24) & 0xFF) as bv8)
    ensures (((x | y) >> 16) & 0xFF) as bv8 == (((x >> 16) & 0xFF) as bv8) | (((y >> 16) & 0xFF) as bv8)
    ensures (((x | y) >> 8) & 0xFF) as bv8 == (((x >> 8) & 0xFF) as bv8) | (((y >> 8) & 0xFF) as bv8)
    ensures ((x | y) & 0xFF) as bv8 == ((x & 0xFF) as bv8) | ((y & 0xFF) as bv8)
  {}

  lemma XorBytes(x: bv64, y: bv64)
    ensures ((x ^ y) >> 56) as bv8 == ((x >> 56) as bv8) ^ ((y >> 56) as bv8)
    ensures (((x ^ y) >> 48) & 0xFF) as bv8 == (((x >> 48) & 0xFF) as bv8) ^ (((y >> 48) & 0xFF) as bv8)
    ensures (((x ^ y) >> 40) & 0xFF) as bv8 == (((x >> 40) & 0xFF) as bv8) ^ (((y >> 40) & 0xFF) as bv8)
    ensures (((x ^ y) >> 32) & 0xFF) as bv8 == (((x >> 32) & 0xFF) as bv8) ^ (((y >> 32) & 0xFF) as bv8)
    ensures (((x ^ y) >> 24) & 0xFF) as bv8 == (((x >> 24) & 0xFF) as bv8) ^ (((y >> 24) & 0xFF) as bv8)
    ensures (((x ^ y) >> 16) & 0xFF) as bv8 == (((x >> 16) & 0xFF) as bv8) ^ (((y >> 16) & 0xFF) as bv8)
    ensures (((x ^ y) >> 8) & 0xFF) as bv8 == (((x >> 8) & 0xFF) as bv8) ^ (((y >> 8) & 0xFF) as bv8)
    ensures ((x ^ y) & 0xFF) as bv8 == ((x & 0xFF) as bv8) ^ ((y & 0xFF) as bv8)
  {}

  lemma NotBytes(x: bv64)
    ensures ((!x) >> 56) as bv8 == !((x >> 56) as bv8)
    ensures (((!x) >> 48) & 0xFF) as bv8 == !(((x >> 48) & 0xFF) as bv8)
    ensures (((!x) >> 40) & 0xFF) as bv8 == !(((x >> 40) & 0xFF) as bv8)
    ensures (((!x) >> 32) & 0xFF) as bv8 == !(((x >> 32) & 0xFF) as bv8)
    ensures (((!x) >> 24) & 0xFF) as bv8 == !(((x >> 24) & 0xFF) as bv8)
    ensures (((!x) >> 16) & 0xFF) as bv8 == !(((x >> 16) & 0xFF) as bv8)
    ensures (((!x) >> 8) & 0xFF) as bv8 == !(((x >> 8) & 0xFF) as bv8)
    ensures ((!x) & 0xFF) as bv8 == !((x & 0xFF) as bv8)
  {}

  lemma AndSplit(x: bv64, y: bv64)
    ensures Split(x & y) == [Split(x)[0] & Split(y)[0], Split(x)[1] & Split(y)[1], Split(x)[2] & Split(y)[2], Split(x)[3] & Split(y)[3],
                             Split(x)[4] & Split(y)[4], Split(x)[5] & Split(y)[5], Split(x)[6] & Split(y)[6], Split(x)[7] & Split(y)[7]]
  {
    AndBytes(x, y);
  }

  lemma OrSplit(x: bv64, y: bv64)
    ensures Split(x | y) == [Split(x)[0] | Split(y)[0], Split(x)[1] | Split(y)[1], Split(x)[2] | Split(y)[2], Split(x)[3] | Split(y)[3],
                             Split(x)[4] | Split(y)[4], Split(x)[5] | Split(y)[5], Split(x)[6] | Split(y)[6], Split(x)[7] | Split(y)[7]]
  {
    OrBytes(x, y);
  }

  lemma XorSplit(x: bv64, y: bv64)
    ensures Split(x ^ y) == [Split(x)[0] ^ Split(y)[0], Split(x)[1] ^ Split(y)[1], Split(x)[2] ^ Split(y)[2], Split(x)[3] ^ Split(y)[3],
                             Split(x)[4] ^ Split(y)[4], Split(x)[5] ^ Split(y)[5], Split(x)[6] ^ Split(y)[6], Split(x)[7] ^ Split(y)[7]]
  {
    XorBytes(x, y);
  }

  lemma NotSplit(x: bv64)
    ensures Split(!x) == [!Split(x)[0], !Split(x)[1], !Split(x)[2], !Split(x)[3],
                          !Split(x)[4], !Split(x)[5], !Split(x)[6], !Split(x)[7]]
  {
    NotBytes(x);
  }

  /** Eight bytes combined with eight others, byte by byte. */
  function Zip(op: Op, x: Octets, y: Octets): Octets
    requires |x| == 8 && |y| == 8
  {
    [OnBytes(op, x[0], y[0]), OnBytes(op, x[1], y[1]), OnBytes(op, x[2], y[2]), OnBytes(op, x[3], y[3]),
     OnBytes(op, x[4], y[4]), OnBytes(op, x[5], y[5]), OnBytes(op, x[6], y[6]), OnBytes(op, x[7], y[7])]
  }

  lemma AndWords(x: bv64, y: bv64)
    ensures Split(OnWords(And, x, y)) == Zip(And, Split(x), Split(y))
  {
    AndSplit(x, y);
  }

  lemma OrWords(x: bv64, y: bv64)
    ensures Split(OnWords(Or, x, y)) == Zip(Or, Split(x), Split(y))
  {
    OrSplit(x, y);
  }

  lemma XorWords(x: bv64, y: bv64)
    ensures Split(OnWords(Xor, x, y)) == Zip(Xor, Split(x), Split(y))
  {
    XorSplit(x, y);
  }

  lemma NotWords(x: bv64, y: bv64)
    ensures Split(OnWords(Not, x, y)) == Zip(Not, Split(x), Split(y))
  {
    NotSplit(x);
  }

  /** An operation on words is the operation on their bytes. */
  lemma WordsAreBytes(op: Op, x: bv64, y: bv64)
    ensures Split(OnWords(op, x, y)) == Zip(op, Split(x), Split(y))
  {
    match op
    case And => AndWords(x, y);
    case Or => OrWords(x, y);
    case Xor => XorWords(x, y);
    case Not => NotWords(x, y);
  }

  lemma ZipAt(op: Op, x: Octets, y: Octets, q: nat)
    requires |x| == 8 && |y| == 8 && q < 8
    ensures Zip(op, x, y)[q] == OnBytes(op, x[q], y[q])
  {}

  /** Reading eight bytes as one word. */
  method Join(x: Octets) returns (w: bv64)
    requires |x| == 8
    ensures Split(w) == x
  {
    w := ((x[0] as bv64) << 56) | ((x[1] as bv64) << 48) | ((x[2] as bv64) << 40) | ((x[3] as bv64) << 32) |
             ((x[4] as bv64) << 24) | ((x[5] as bv64) << 16) | ((x[6] as bv64) << 8) | (x[7] as bv64);
    JoinedBytes(x[0], x[1], x[2], x[3], x[4], x[5], x[6], x[7], w);
    assert x == [x[0], x[1], x[2], x[3], x[4], x[5], x[6], x[7]];
  }

  // ---------------------------------------------------------------------------
  // The fast path
  // ---------------------------------------------------------------------------

  /** `after` is `before` with the bytes from `lo` to `hi` combined with those of `src`. */
  ghost predicate Applied(op: Op, before: Octets, after: Octets, src: Octets, lo: nat, hi: nat) {
    && |after| == |before| && lo <= hi <= |before| && hi <= |src|
    && forall t :: 0 <= t < |after| ==> after[t] == if lo <= t < hi then OnBytes(op, before[t], src[t]) else before[t]
  }

  lemma AppliedMore(op: Op, a: Octets, b: Octets, c: Octets, src: Octets, lo: nat, mid: nat, hi: nat)
    requires Applied(op, a, b, src, lo, mid) && Applied(op, b, c, src, mid, hi)
    ensures Applied(op, a, c, src, lo, hi)
  {}

  /** One word of the result. */
  method WordStep(op: Op, res: array<bv8>, k: nat, src: Octets)
    requires k + 8 <= res.Length && k + 8 <= |src|
    modifies res
    ensures Applied(op, old(res[..]), res[..], src, k, k + 8)
  {
    ghost var before := res[..];
    var u := Join(res[k..k + 8]);
    var v := Join(src[k..k + 8]);
    WordsAreBytes(op, u, v);
    Store(res, k, Split(OnWords(op, u, v)));
    WordIsBytes(op, before, src, k, Split(OnWords(op, u, v)));
    WordIsApplied(op, before, res[..], src, k, Split(OnWords(op, u, v)));
  }

  /** Writing a word back, byte by byte. */
  method Store(res: array<bv8>, k: nat, z: Octets)
    requires k + 8 <= res.Length && |z| == 8
    modifies res
    ensures forall t :: 0 <= t < res.Length ==> res[t] == if k <= t < k + 8 then z[t - k] else old(res[t])
  {
    for q := 0 to 8
      invariant forall t :: 0 <= t < res.Length ==> res[t] == if k <= t < k + q then z[t - k] else old(res[t])
    {
      res[k + q] := z[q];
    }
  }

  /** The eight bytes of the result of one word. */
  ghost predicate WordBytes(op: Op, before: Octets, src: Octets, k: nat, z: Octets) {
    && k + 8 <= |before| && k + 8 <= |src| && |z| == 8
    && forall t :: k <= t < k + 8 ==> z[t - k] == OnBytes(op, before[t], src[t])
  }

  lemma WordIsBytes(op: Op, before: Octets, src: Octets, k: nat, z: Octets)
    requires k + 8 <= |before| && k + 8 <= |src| && z == Zip(op, before[k..k + 8], src[k..k + 8])
    ensures WordBytes(op, before, src, k, z)
  {
    forall t | k <= t < k + 8 ensures z[t - k] == OnBytes(op, before[t], src[t]) {
      ZipAt(op, before[k..k + 8], src[k..k + 8], t - k);
    }
  }

  lemma WordIsApplied(op: Op, before: Octets, after: Octets, src: Octets, k: nat, z: Octets)
    requires WordBytes(op, before, src, k, z) && |after| == |before|
    requires forall t :: 0 <= t < |after| ==> after[t] == if k <= t < k + 8 then z[t - k] else before[t]
    ensures Applied(op, before, after, src, k, k + 8)
  {}

  /** Four words. */
  method BlockStep(op: Op, res: array<bv8>, j: nat, src: Octets)
    requires j + 32 <= res.Length && j + 32 <= |src|
    modifies res
    ensures Applied(op, old(res[..]), res[..], src, j, j + 32)
  {
    ghost var before := res[..];
    for w := 0 to 4
      invariant Applied(op, before, res[..], src, j, j + 8 * w)
    {
      ghost var mid := res[..];
      WordStep(op, res, j + 8 * w, src);
      AppliedMore(op, before, mid, res[..], src, j, j + 8 * w, j + 8 * w + 8);
    }
  }

  /** The bytes from `lo` to `hi` are those of the operation over the strings up to `i`. */
  ghost predicate Holds(op: Op, srcs: seq<Octets>, res: Octets, i: nat, lo: nat, hi: nat) {
    i < |srcs| && hi <= |res| && forall t :: lo <= t < hi ==> res[t] == Folded(op, srcs, i, t)
  }

  /** All strings reach up to `minlen`. */
  ghost predicate AllLong(srcs: seq<Octets>, minlen: nat) {
    forall i :: 0 <= i < |srcs| ==> minlen <= |srcs[i]|
  }

  lemma FoldNext(op: Op, srcs: seq<Octets>, before: Octets, after: Octets, i: nat, j: nat)
    requires 0 < i < |srcs| && op != Not && Holds(op, srcs, before, i - 1, j, j + 32)
    requires Applied(op, before, after, srcs[i], j, j + 32)
    ensures Holds(op, srcs, after, i, j, j + 32)
  {}

  lemma Untouched(op: Op, srcs: seq<Octets>, before: Octets, after: Octets, src: Octets, i: nat, j: nat)
    requires Applied(op, before, after, src, j, j + 32) && Holds(op, srcs, before, i, 0, j)
    ensures Holds(op, srcs, after, i, 0, j)
  {}

  /** The first string, still to be combined with the others, from `lo` on. */
  ghost predicate Copied(srcs: seq<Octets>, res: Octets, lo: nat, hi: nat) {
    srcs != [] && hi <= |res| && hi <= |srcs[0]| && forall t :: lo <= t < hi ==> res[t] == srcs[0][t]
  }

  /** One turn of the fast loop: 32 bytes of all strings. */
  method FastBlock(op: Op, srcs: seq<Octets>, res: array<bv8>, j: nat, minlen: nat)
    requires srcs != [] && (op == Not ==> |srcs| == 1) && AllLong(srcs, minlen)
    requires j + 32 <= minlen <= res.Length
    requires Holds(op, srcs, res[..], |srcs| - 1, 0, j) && Copied(srcs, res[..], j, minlen)
    modifies res
    ensures Holds(op, srcs, res[..], |srcs| - 1, 0, j + 32) && Copied(srcs, res[..], j + 32, minlen)
  {
    if op == Not {
      BlockStep(op, res, j, srcs[0]);
    } else {
      for i := 1 to |srcs|
        invariant Holds(op, srcs, res[..], |srcs| - 1, 0, j) && Holds(op, srcs, res[..], i - 1, j, j + 32)
        invariant Copied(srcs, res[..], j + 32, minlen)
      {
        ghost var before := res[..];
        BlockStep(op, res, j, srcs[i]);
        FoldNext(op, srcs, before, res[..], i, j);
        Untouched(op, srcs, before, res[..], srcs[i], |srcs| - 1, j);
      }
    }
  }

  // ---------------------------------------------------------------------------
  // The whole operation
  // ---------------------------------------------------------------------------

  /** A byte of the tail: the vanilla algorithm. */
  method TailByte(op: Op, srcs: seq<Octets>, t: nat) returns (output: bv8)
    requires srcs != [] && (op == Not ==> |srcs| == 1)
    ensures output == Folded(op, srcs, |srcs| - 1, t)
  {
    output := if |srcs[0]| <= t then 0 else srcs[0][t];
    if op == Not { output := !output; }
    for i := 1 to |srcs|
      invariant output == Folded(op, srcs, i - 1, t)
    {
      var byte := if |srcs[i]| <= t then 0 else srcs[i][t];
      output := OnBytes(op, output, byte);
    }
  }

  /** The lengths gathered while the keys are looked up. */
  method Lengths(keys: seq<Option<Octets>>) returns (srcs: seq<Octets>, minlen: nat, maxlen: nat)
    requires keys != []
    ensures |srcs| == |keys| && forall i :: 0 <= i < |keys| ==> srcs[i] == Source(keys[i])
    ensures AllLong(srcs, minlen)
    ensures forall i :: 0 <= i < |srcs| ==> |srcs[i]| <= maxlen
    ensures exists i :: 0 <= i < |srcs| && |srcs[i]| == maxlen
  {
    srcs, minlen, maxlen := [], 0, 0;
    ghost var longest: nat := 0;
    for j := 0 to |keys|
      invariant |srcs| == j && forall i :: 0 <= i < j ==> srcs[i] == Source(keys[i])
      invariant forall i :: 0 <= i < j ==> minlen <= |srcs[i]| <= maxlen
      invariant if j == 0 then maxlen == 0 else longest < j && |srcs[longest]| == maxlen
    {
      if keys[j].None? {
        srcs := srcs + [[]];
        minlen := 0;
        if maxlen == 0 { longest := j; }
      } else {
        var len := |keys[j].value|;
        srcs := srcs + [keys[j].value];
        if len > maxlen || j == 0 { longest := j; }
        if len > maxlen { maxlen := len; }
        if j == 0 || len < minlen { minlen := len; }
      }
    }
  }

  function Source(key: Option<Octets>): Octets {
    if key.None? then [] else key.value
  }

  function Sources(keys: seq<Option<Octets>>): seq<Octets> {
    seq(|keys|, i requires 0 <= i < |keys| => Source(keys[i]))
  }

  /** bitopCommand: the result is as long as the longest string, and each of its bytes is the
      operation on the bytes of the strings, padded with zeros. */
  method Bitop(op: Op, keys: seq<Option<Octets>>) returns (out: Octets)
    requires keys != [] && (op == Not ==> |keys| == 1)
    ensures forall i :: 0 <= i < |keys| ==> |Source(keys[i])| <= |out|
    ensures exists i :: 0 <= i < |keys| && |Source(keys[i])| == |out|
    ensures Holds(op, Sources(keys), out, |keys| - 1, 0, |out|)
    ensures Means(op, Sources(keys), out)
  {
    var srcs, minlen, maxlen := Lengths(keys);
    assert srcs == Sources(keys);
    ghost var longest :| 0 <= longest < |srcs| && |srcs[longest]| == maxlen;
    assert |Source(keys[longest])| == maxlen;
    var res := new bv8[maxlen](_ => 0);
    var j := 0;
    if minlen >= 32 && |srcs| <= 16 {
      assert minlen <= |srcs[longest]|;
      CopyFirst(srcs, res, minlen);
      while minlen - j >= 32
        invariant j <= minlen <= res.Length && Holds(op, srcs, res[..], |srcs| - 1, 0, j) && Copied(srcs, res[..], j, minlen)
        decreases minlen - j
      {
        FastBlock(op, srcs, res, j, minlen);
        j := j + 32;
      }
    }
    while j < maxlen
      invariant j <= maxlen && Holds(op, srcs, res[..], |srcs| - 1, 0, j)
    {
      var output := TailByte(op, srcs, j);
      res[j] := output;
      j := j + 1;
    }
    out := res[..];
    HoldsMeans(op, srcs, out);
  }

  /** memcpy of the first string. */
  method CopyFirst(srcs: seq<Octets>, res: array<bv8>, n: nat)
    requires srcs != [] && n <= |srcs[0]| && n <= res.Length
    modifies res
    ensures Copied(srcs, res[..], 0, n)
  {
    for t := 0 to n
      invariant forall k :: 0 <= k < t ==> res[k] == srcs[0][k]
    {
      res[t] := srcs[0][t];
    }
  }
}
