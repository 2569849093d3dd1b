/** redisBitpos of src/bitops.c: the first one or zero bit of a string, found by skipping bytes,
    then 64-bit words, then scanning one word, against the bit-by-bit definition. */
module BitPos {
  import opened ClusterBitmap
  import opened BitField

  /** The answer: the first position holding `bit` in the string extended with zeros, or -1
      when there is none. */
  ghost predicate IsFirst(s: Octets, bit: bool, pos: int) {
    if pos == -1 then bit && forall p: nat :: !Bit(s, p)
    else 0 <= pos && Bit(s, pos) == bit && forall p: nat :: p < pos ==> Bit(s, p) != bit
  }

  /** No bit of the first `i` bytes is the one sought. */
  ghost predicate Skipped(s: Octets, i: nat, bit: bool) {
    i <= |s| && forall p: nat :: p < 8 * i ==> Bit(s, p) != bit
  }

  // ---------------------------------------------------------------------------
  // Bytes
  // ---------------------------------------------------------------------------

  lemma MaskValues()
    ensures Mask(7) == 128 && Mask(6) == 64 && Mask(5) == 32 && Mask(4) == 16
    ensures Mask(3) == 8 && Mask(2) == 4 && Mask(1) == 2 && Mask(0) == 1
  {}

  /** The byte that skips: all zeros when a one is sought, all ones otherwise. */
  function SkipValue(bit: bool): bv8 {
    if bit then 0 else 255
  }

  lemma PlainBits(b: bv8, bit: bool, r: nat)
    requires r < 8 && b == SkipValue(bit)
    ensures (b & Mask(r) != 0) != bit
  {
    MaskValues();
  }

  lemma SkipByte(s: Octets, i: nat, bit: bool)
    requires Skipped(s, i, bit) && i < |s| && s[i] == SkipValue(bit)
    ensures Skipped(s, i + 1, bit)
  {
    forall p: nat | p < 8 * (i + 1) ensures Bit(s, p) != bit {
      if p >= 8 * i { PlainBits(s[i], bit, 7 - p % 8); }
    }
  }

  /** A byte that does not skip holds the bit. */
  lemma OtherByteHasBit(b: bv8, bit: bool) returns (r: nat)
    requires b != SkipValue(bit)
    ensures r < 8 && (b & Mask(r) != 0) == bit
  {
    MaskValues();
    if (b & 128 != 0) == bit { r := 7; }
    else if (b & 64 != 0) == bit { r := 6; }
    else if (b & 32 != 0) == bit { r := 5; }
    else if (b & 16 != 0) == bit { r := 4; }
    else if (b & 8 != 0) == bit { r := 3; }
    else if (b & 4 != 0) == bit { r := 2; }
    else if (b & 2 != 0) == bit { r := 1; }
    else { r := 0; }
  }

  /** The scan of the next 64 bits will be decisive: the string ends within them, or they hold
      the bit. */
  ghost predicate Decisive(s: Octets, i: nat, bit: bool) {
    |s| < i + 8 || exists q: nat :: q < 64 && BitFrom(s, 8 * i, q) == bit
  }

  lemma ByteDecides(s: Octets, i: nat, j: nat, bit: bool)
    requires i + j < |s| && j < 8 && s[i + j] != SkipValue(bit)
    ensures Decisive(s, i, bit)
  {
    var r := OtherByteHasBit(s[i + j], bit);
    var q := 8 * j + (7 - r);
    assert (8 * i + q) / 8 == i + j && 7 - (8 * i + q) % 8 == r;
    assert BitFrom(s, 8 * i, q) == bit;
  }

  // ---------------------------------------------------------------------------
  // Words
  // ---------------------------------------------------------------------------

  lemma ByteNum(b: bv8)
    ensures b as int == 128 * Num(b & 128 != 0) + 64 * Num(b & 64 != 0) + 32 * Num(b & 32 != 0) + 16 * Num(b & 16 != 0) +
                        8 * Num(b & 8 != 0) + 4 * Num(b & 4 != 0) + 2 * Num(b & 2 != 0) + Num(b & 1 != 0)
  {}

  /** The byte at `k`, zero past the end. */
  function ByteAt(s: Octets, k: nat): nat
    decreases k
  {
    if s == [] then 0 else if k == 0 then s[0] as nat else ByteAt(s[1..], k - 1)
  }

  lemma {:induction false} ByteAtIs(s: Octets, k: nat)
    ensures ByteAt(s, k) == if k < |s| then s[k] as nat else 0
    decreases k
  {
    if s != [] && k > 0 { ByteAtIs(s[1..], k - 1); }
  }

  lemma BitInByte(s: Octets, k: nat, j: nat)
    requires j < 8
    ensures Bit(s, 8 * k + j) == (k < |s| && s[k] & Mask(7 - j) != 0)
  {
    assert (8 * k + j) / 8 == k && (8 * k + j) % 8 == j;
  }

  lemma FieldUnfold(s: Octets, o: nat, n: nat)
    ensures Field(s, o, n + 1) == 2 * Field(s, o, n) + Num(Bit(s, o + n))
  {}

  lemma FourBits(s: Octets, o: nat, a: nat, b: nat, c: nat, d: nat)
    requires a == Num(Bit(s, o)) && b == Num(Bit(s, o + 1)) && c == Num(Bit(s, o + 2)) && d == Num(Bit(s, o + 3))
    ensures Field(s, o, 4) == 8 * a + 4 * b + 2 * c + d
  {
    FieldUnfold(s, o, 0);
    FieldUnfold(s, o, 1);
    FieldUnfold(s, o, 2);
    FieldUnfold(s, o, 3);
  }

  /** Whether the byte at `k` has a bit of the mask. */
  predicate Has(s: Octets, k: nat, m: bv8) {
    k < |s| && s[k] & m != 0
  }

  lemma BitHas(s: Octets, k: nat, j: nat, m: bv8, p: nat)
    requires j < 8 && m == Mask(7 - j) && p == 8 * k + j
    ensures Num(Bit(s, p)) == Num(Has(s, k, m))
  {
    BitInByte(s, k, j);
  }

  lemma FourHave(s: Octets, k: nat, o: nat, j: nat, m0: bv8, m1: bv8, m2: bv8, m3: bv8)
    requires o == 8 * k + j && j <= 4
    requires m0 == Mask(7 - j) && m1 == Mask(6 - j) && m2 == Mask(5 - j) && m3 == Mask(4 - j)
    ensures Field(s, o, 4) == 8 * Num(Has(s, k, m0)) + 4 * Num(Has(s, k, m1)) + 2 * Num(Has(s, k, m2)) + Num(Has(s, k, m3))
  {
    BitHas(s, k, j, m0, o);
    BitHas(s, k, j + 1, m1, o + 1);
    BitHas(s, k, j + 2, m2, o + 2);
    BitHas(s, k, j + 3, m3, o + 3);
    FourBits(s, o, Num(Has(s, k, m0)), Num(Has(s, k, m1)), Num(Has(s, k, m2)), Num(Has(s, k, m3)));
  }

  lemma Halves(s: Octets, k: nat, high: nat, low: nat)
    requires high == 8 * Num(Has(s, k, 128)) + 4 * Num(Has(s, k, 64)) + 2 * Num(Has(s, k, 32)) + Num(Has(s, k, 16))
    requires low == 8 * Num(Has(s, k, 8)) + 4 * Num(Has(s, k, 4)) + 2 * Num(Has(s, k, 2)) + Num(Has(s, k, 1))
    ensures 16 * high + low == ByteAt(s, k)
  {
    ByteAtIs(s, k);
    if k < |s| { ByteNum(s[k]); }
  }

  /** An aligned 8-bit field is a byte. */
  lemma ByteIsField(s: Octets, k: nat, eight: nat)
    requires eight == 8
    ensures Field(s, 8 * k, eight) == ByteAt(s, k)
  {
    var four := eight / 2;
    FieldSplit(s, 8 * k, four, four);
    Pow2Of4(four);
    HalvesMake(s, k, four);
  }

  lemma Pow2Of4(n: nat)
    requires n == 4
    ensures Pow2(n) == 16
  {
    Twice(n / 4, 2, 4);
    Twice(n / 2, 4, 16);
  }

  lemma HalvesMake(s: Octets, k: nat, four: nat)
    requires four == 4
    ensures 16 * Field(s, 8 * k, four) + Field(s, 8 * k + four, four) == ByteAt(s, k)
  {
    MaskValues();
    FourHave(s, k, 8 * k, 0, 128, 64, 32, 16);
    FourHave(s, k, 8 * k + 4, 4, 8, 4, 2, 1);
    Halves(s, k, Field(s, 8 * k, 4), Field(s, 8 * k + 4, 4));
  }

  lemma Pow2Of8(n: nat)
    requires n == 8
    ensures Pow2(n) == 256
  {
    Twice(n / 8, 2, 4);
    Twice(n / 4, 4, 16);
    Twice(n / 2, 16, 256);
  }

  lemma LoadFits(s: Octets, i: nat, j: nat, word: nat)
    requires j < 8 && word == Field(s, 8 * i, 8 * j)
    ensures word * 256 < 0x1_0000_0000_0000_0000
  {
    var n, eight := 8 * j + 8 + (56 - 8 * j), 8 * (j + 1) - 8 * j;
    FieldBound(s, 8 * i, 8 * j);
    Pow2Of8(eight);
    Pow2Add(8 * j, eight);
    Pow2Grows(8 * j + eight, n);
    Pow2Of64(n);
    assert word * 256 < Pow2(8 * j) * 256;
  }

  lemma LoadNext(s: Octets, k: nat, o: nat, n: nat, word: nat)
    requires o + n == 8 * k && word == Field(s, o, n)
    ensures Field(s, o, n + 8) == word * 256 + ByteAt(s, k)
  {
    var eight := n + 8 - n;
    Pow2Of8(eight);
    FieldSplit(s, o, n, eight);
    ByteIsField(s, k, eight);
  }

  lemma NoWrap(word: nat)
    requires word * 256 < 0x1_0000_0000_0000_0000
    ensures word * 256 % 0x1_0000_0000_0000_0000 == word * 256
  {}

  /** One turn of the loading loop. */
  method LoadByte(s: Octets, i: nat, j: nat, word: nat) returns (next: nat)
    requires j < 8 && word == Field(s, 8 * i, 8 * j)
    ensures next == Field(s, 8 * i, 8 * j + 8)
  {
    LoadFits(s, i, j, word);
    NoWrap(word);
    LoadNext(s, i + j, 8 * i, 8 * j, word);
    ByteAtIs(s, i + j);
    next := word * 256 % 0x1_0000_0000_0000_0000;
    if i + j < |s| {
      next := next + (s[i + j] as nat);
    }
  }

  /** The loading loop: the next eight bytes, the first one most significant, padded with
      zeros. */
  method LoadWord(s: Octets, i: nat) returns (word: nat)
    ensures word == Field(s, 8 * i, 64)
  {
    word := 0;
    for j := 0 to 8
      invariant word == Field(s, 8 * i, 8 * j)
    {
      word := LoadByte(s, i, j, word);
    }
  }

  lemma {:induction false} ZeroField(s: Octets, o: nat, n: nat, q: nat)
    requires Field(s, o, n) == 0 && q < n
    ensures !BitFrom(s, o, q)
    decreases n
  {
    if q < n - 1 { ZeroField(s, o, n - 1, q); }
  }

  lemma {:induction false} ZeroBits(s: Octets, o: nat, n: nat)
    requires forall q: nat :: q < n ==> !BitFrom(s, o, q)
    ensures Field(s, o, n) == 0
  {
    if n > 0 {
      ZeroBits(s, o, n - 1);
      assert !BitFrom(s, o, n - 1);
    }
  }

  // ---------------------------------------------------------------------------
  // The search
  // ---------------------------------------------------------------------------

  /** Skipping by bytes up to a word boundary, then by words. */
  method SkipBytes(s: Octets, address: nat, bit: bool) returns (i: nat)
    ensures Skipped(s, i, bit) && Decisive(s, i, bit)
  {
    i := 0;
    while (address + i) % 8 != 0 && i < |s|
      invariant Skipped(s, i, bit)
      decreases |s| - i
    {
      if s[i] != SkipValue(bit) {
        ByteDecides(s, i, 0, bit);
        return;
      }
      SkipByte(s, i, bit);
      i := i + 1;
    }
    while |s| - i >= 8
      invariant Skipped(s, i, bit)
      decreases |s| - i
    {
      var word := SkipWord(s, i, bit);
      if !word { return; }
      i := i + 8;
    }
  }

  /** Whether the word at `i` is all zeros or all ones, that is, all its bytes skip. */
  method SkipWord(s: Octets, i: nat, bit: bool) returns (skips: bool)
    requires Skipped(s, i, bit) && i + 8 <= |s|
    ensures skips ==> Skipped(s, i + 8, bit)
    ensures !skips ==> Decisive(s, i, bit)
  {
    for j := 0 to 8
      invariant Skipped(s, i + j, bit)
    {
      if s[i + j] != SkipValue(bit) {
        ByteDecides(s, i, j, bit);
        return false;
      }
      SkipByte(s, i + j, bit);
    }
    return true;
  }

  /** None of the 64 bits from byte `i` on is the one sought. */
  ghost predicate NoneIn(s: Octets, i: nat, n: nat, bit: bool) {
    forall q: nat :: q < n ==> BitFrom(s, 8 * i, q) != bit
  }

  lemma FoundAt(s: Octets, i: nat, k: nat, bit: bool)
    requires Skipped(s, i, bit) && NoneIn(s, i, k, bit) && BitFrom(s, 8 * i, k) == bit
    ensures IsFirst(s, bit, 8 * i + k)
  {
    forall p: nat | p < 8 * i + k ensures Bit(s, p) != bit {
      if p >= 8 * i { assert BitFrom(s, 8 * i, p - 8 * i) != bit; }
    }
  }

  lemma NowhereAOne(s: Octets, i: nat)
    requires Skipped(s, i, true) && Decisive(s, i, true) && Field(s, 8 * i, 64) == 0
    ensures IsFirst(s, true, -1)
  {
    forall q: nat | q < 64 ensures !BitFrom(s, 8 * i, q) { ZeroField(s, 8 * i, 64, q); }
    forall p: nat ensures !Bit(s, p) {
      if 8 * i <= p < 8 * i + 64 { assert !BitFrom(s, 8 * i, p - 8 * i); }
    }
  }

  /** The panic after the scan is unreachable. */
  lemma ScanFinds(s: Octets, i: nat, bit: bool)
    requires i <= |s| && Decisive(s, i, bit) && (bit ==> Field(s, 8 * i, 64) != 0)
    ensures !NoneIn(s, i, 64, bit)
  {
    if bit {
      if NoneIn(s, i, 64, bit) { ZeroBits(s, 8 * i, 64); }
    } else if |s| < i + 8 {
      assert !BitFrom(s, 8 * i, 63);
    }
  }

  /** redisBitpos, at any address. */
  method RedisBitpos(s: Octets, address: nat, bit: bool) returns (pos: int)
    ensures IsFirst(s, bit, pos)
  {
    var i := SkipBytes(s, address, bit);
    var word := LoadWord(s, i);
    if bit && word == 0 {
      NowhereAOne(s, i);
      return -1;
    }
    ScanFinds(s, i, bit);
    var k := ScanWord(s, i, bit, word);
    FoundAt(s, i, k, bit);
    pos := 8 * i + k;
  }

  /** The scan from the most significant bit down. */
  method ScanWord(s: Octets, i: nat, bit: bool, word: nat) returns (k: nat)
    requires word == Field(s, 8 * i, 64) && !NoneIn(s, i, 64, bit)
    ensures k < 64 && NoneIn(s, i, k, bit) && BitFrom(s, 8 * i, k) == bit
  {
    var one := 0x8000_0000_0000_0000;
    k := 0;
    MaskStarts(63);
    while one != 0
      invariant k <= 64 && one == ScanMask(k)
      invariant NoneIn(s, i, k, bit)
      decreases 64 - k
    {
      MaskHalves(k);
      ScanBit(s, i, k, word);
      if (word / one % 2 == 1) == bit { return; }
      k := k + 1;
      one := one / 2;
    }
    assert false;
  }

  /** The scanning mask after `k` shifts. */
  function ScanMask(k: nat): nat
    requires k <= 64
  {
    if k < 64 then Pow2(63 - k) else 0
  }

  lemma MaskStarts(n: nat)
    requires n == 63
    ensures Pow2(n) == 0x8000_0000_0000_0000
  {
    Pow2Of64(n + 1);
  }

  lemma MaskHalves(k: nat)
    requires k <= 64
    ensures k < 64 ==> ScanMask(k) > 0 && ScanMask(k + 1) == ScanMask(k) / 2
    ensures k == 64 ==> ScanMask(k) == 0
  {}

  lemma ScanBit(s: Octets, i: nat, k: nat, word: nat)
    requires k < 64 && word == Field(s, 8 * i, 64)
    ensures (word / ScanMask(k) % 2 == 1) == BitFrom(s, 8 * i, k)
  {
    BitOfField(s, 8 * i, 64, k);
  }
}
