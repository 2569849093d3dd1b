/** Bit fields inside a string (src/bitops.c): reading and writing integers of any width at any
    bit offset. Bit 0 is the most significant bit of the first byte. */
module BitField {
  import opened ClusterBitmap

  type Octets = seq<bv8>

  function Pow2(n: nat): (r: nat)
    ensures r >= 1
  {
    if n == 0 then 1 else 2 * Pow2(n - 1)
  }

  lemma {:induction false} Pow2Add(a: nat, b: nat)
    ensures Pow2(a + b) == Pow2(a) * Pow2(b)
  {
    if a > 0 {
      Pow2Add(a - 1, b);
      assert Pow2(a) * Pow2(b) == 2 * (Pow2(a - 1) * Pow2(b));
    }
  }

  lemma {:induction false} Pow2Grows(a: nat, b: nat)
    requires a <= b
    ensures Pow2(a) <= Pow2(b)
    decreases b
  {
    if a < b { Pow2Grows(a, b - 1); }
  }

  lemma Twice(n: nat, v: nat, w: nat)
    requires Pow2(n) == v && w == v * v
    ensures Pow2(2 * n) == w
  {
    Pow2Add(n, n);
  }

  /** 2^64. */
  lemma Pow2Of64(n: nat)
    requires n == 64
    ensures Pow2(n) == 0x1_0000_0000_0000_0000
  {
    var m := n / 64;
    Twice(m, 2, 4);
    Twice(2 * m, 4, 16);
    Twice(4 * m, 16, 256);
    Twice(8 * m, 256, 0x1_0000);
    Twice(16 * m, 0x1_0000, 0x1_0000_0000);
    Twice(32 * m, 0x1_0000_0000, 0x1_0000_0000_0000_0000);
  }

  lemma Pow2Fits(bits: nat)
    requires bits <= 63
    ensures Pow2(bits) <= 0x8000_0000_0000_0000
  {
    var n := bits + (64 - bits);
    Pow2Of64(n);
    Pow2Grows(bits, n - 1);
  }

  // ---------------------------------------------------------------------------
  // Bits and fields
  // ---------------------------------------------------------------------------

  /** A bit of the string, which reads as zero past its end. */
  predicate Bit(s: Octets, p: nat) {
    p < 8 * |s| && s[p / 8] & Mask(7 - p % 8) != 0
  }

  predicate BitFrom(s: Octets, offset: nat, j: nat) {
    Bit(s, offset + j)
  }

  ghost predicate Holds(s: Octets, offset: nat, bits: nat, value: nat) {
    forall j :: 0 <= j < bits ==> BitFrom(s, offset, j) == ValueBit(value, bits, j)
  }

  ghost predicate SameBits(s: Octets, o: nat, t: Octets, p: nat, bits: nat) {
    forall j :: 0 <= j < bits ==> BitFrom(s, o, j) == BitFrom(t, p, j)
  }

  function Num(b: bool): nat {
    if b then 1 else 0
  }

  /** The unsigned number in `bits` bits from `offset` on. */
  function Field(s: Octets, offset: nat, bits: nat): nat {
    if bits == 0 then 0 else 2 * Field(s, offset, bits - 1) + Num(Bit(s, offset + bits - 1))
  }

  /** Bit `j`, counted from the left, of a number written in `bits` bits. */
  predicate ValueBit(value: nat, bits: nat, j: nat)
    requires j < bits
  {
    value / Pow2(bits - 1 - j) % 2 == 1
  }

  lemma {:induction false} FieldBound(s: Octets, offset: nat, bits: nat)
    ensures Field(s, offset, bits) < Pow2(bits)
  {
    if bits > 0 { FieldBound(s, offset, bits - 1); }
  }

  lemma MulAtLeast(x: int, m: nat)
    ensures x >= 1 ==> x * m >= m
    ensures x <= -1 ==> x * m <= 0 - m
  {
    if x >= 1 { assert x * m == m + (x - 1) * m; }
    if x <= -1 { assert x * m == (x + 1) * m - m; }
  }

  lemma DivUnique(a: nat, m: nat, q: nat, r: nat)
    requires m > 0 && a == q * m + r && r < m
    ensures a / m == q && a % m == r
  {
    var d, e := a / m, a % m;
    assert a == d * m + e;
    assert (d - q) * m == d * m - q * m;
    MulAtLeast(d - q, m);
  }

  lemma DivDiv(a: nat, m: nat)
    requires m > 0
    ensures a / (2 * m) == a / 2 / m
  {
    var h := a / 2;
    var q, r := h / m, h % m;
    assert h == q * m + r;
    assert q * (2 * m) == 2 * (q * m);
    DivUnique(a, 2 * m, q, 2 * r + a % 2);
  }

  /** All but the last bit are the bits of half the number. */
  lemma HalfBit(value: nat, bits: nat, j: nat)
    requires j + 1 < bits
    ensures ValueBit(value, bits, j) == ValueBit(value / 2, bits - 1, j)
  {
    DivDiv(value, Pow2(bits - 2 - j));
  }

  lemma ModStep(value: nat, m: nat)
    requires m > 0
    ensures value % (2 * m) == 2 * (value / 2 % m) + value % 2
  {
    var h := value / 2;
    assert h == h / m * m + h % m;
    assert value == 2 * h + value % 2;
    assert value == h / m * (2 * m) + (2 * (h % m) + value % 2) by {
      assert 2 * (h / m * m) == h / m * (2 * m);
    }
    DivUnique(value, 2 * m, h / m, 2 * (h % m) + value % 2);
  }

  lemma HoldsHalf(s: Octets, offset: nat, bits: nat, value: nat)
    requires bits > 0 && Holds(s, offset, bits, value)
    ensures Holds(s, offset, bits - 1, value / 2)
    ensures Bit(s, offset + bits - 1) == (value % 2 == 1)
  {
    forall j | 0 <= j < bits - 1 ensures BitFrom(s, offset, j) == ValueBit(value / 2, bits - 1, j) {
      HalfBit(value, bits, j);
    }
    assert BitFrom(s, offset, bits - 1) == ValueBit(value, bits, bits - 1);
    assert value / Pow2(0) == value;
  }

  /** A field whose bits are those of a number holds that number modulo its width. */
  lemma {:induction false} FieldOfBits(s: Octets, offset: nat, bits: nat, value: nat)
    requires Holds(s, offset, bits, value)
    ensures Field(s, offset, bits) == value % Pow2(bits)
    decreases bits
  {
    if bits > 0 {
      HoldsHalf(s, offset, bits, value);
      FieldOfBits(s, offset, bits - 1, value / 2);
      ModStep(value, Pow2(bits - 1));
    }
  }

  /** The bits of a field's number are the bits of the field. */
  lemma {:induction false} BitOfField(s: Octets, offset: nat, bits: nat, j: nat)
    requires j < bits
    ensures ValueBit(Field(s, offset, bits), bits, j) == Bit(s, offset + j)
    decreases bits
  {
    var half := Field(s, offset, bits - 1);
    assert Field(s, offset, bits) / 2 == half;
    if j < bits - 1 {
      HalfBit(Field(s, offset, bits), bits, j);
      BitOfField(s, offset, bits - 1, j);
    }
  }

  lemma {:induction false} FieldSplit(s: Octets, offset: nat, a: nat, b: nat)
    ensures Field(s, offset, a + b) == Field(s, offset, a) * Pow2(b) + Field(s, offset + a, b)
    decreases b
  {
    if b == 0 {
      assert Field(s, offset, a) * Pow2(0) == Field(s, offset, a);
    } else {
      FieldSplit(s, offset, a, b - 1);
      FieldLast(s, offset, a, b);
      DoubleProduct(Field(s, offset, a), Pow2(b - 1));
    }
  }

  lemma FieldLast(s: Octets, offset: nat, a: nat, b: nat)
    requires b > 0
    ensures Field(s, offset, a + b) == 2 * Field(s, offset, a + (b - 1)) + Num(Bit(s, offset + a + b - 1))
    ensures Field(s, offset + a, b) == 2 * Field(s, offset + a, b - 1) + Num(Bit(s, offset + a + b - 1))
  {}

  lemma DoubleProduct(x: nat, y: nat)
    ensures x * (2 * y) == 2 * (x * y)
  {}

  lemma {:induction false} SameBitsSameField(s: Octets, o: nat, t: Octets, p: nat, bits: nat)
    requires SameBits(s, o, t, p, bits)
    ensures Field(s, o, bits) == Field(t, p, bits)
  {
    if bits > 0 {
      SameBitsSameField(s, o, t, p, bits - 1);
      assert BitFrom(s, o, bits - 1) == BitFrom(t, p, bits - 1);
    }
  }

  // ---------------------------------------------------------------------------
  // Reading and writing
  // ---------------------------------------------------------------------------

  /** The loop body of getUnsignedBitfield, up to the shift. */
  method ReadBit(s: Octets, offset: nat) returns (bitval: nat)
    requires offset < 8 * |s|
    ensures bitval == Num(Bit(s, offset))
  {
    var byte, bit := offset / 8, 7 - offset % 8;
    bitval := if s[byte] & Mask(bit) != 0 then 1 else 0;
  }

  /** getUnsignedBitfield. */
  method GetUnsignedBitfield(s: Octets, offset: nat, bits: nat) returns (value: nat)
    requires bits <= 64 && offset + bits <= 8 * |s|
    ensures value == Field(s, offset, bits) && value < Pow2(bits)
  {
    value := 0;
    for j := 0 to bits
      invariant value == Field(s, offset, j)
    {
      var bitval := ReadBit(s, offset + j);
      value := 2 * value + bitval;
    }
    FieldBound(s, offset, bits);
  }

  /** The byte with one bit replaced. */
  function WithBit(b: bv8, bit: nat, v: bool): bv8
    requires bit < 8
  {
    if v then (b & !Mask(bit)) | Mask(bit) else b & !Mask(bit)
  }

  lemma WithBitIs(b: bv8, i: nat, v: bool, j: nat)
    requires i < 8 && j < 8
    ensures WithBit(b, i, v) & Mask(j) != 0 <==> if i == j then v else b & Mask(j) != 0
  {
    MaskClear(b, i, j);
    if v { MaskSet(b & !Mask(i), i, j); }
  }

  function WithBitAt(s: Octets, p: nat, v: bool): Octets
    requires p < 8 * |s|
  {
    s[p / 8 := WithBit(s[p / 8], 7 - p % 8, v)]
  }

  lemma WithBitAtIs(s: Octets, p: nat, v: bool, q: nat)
    requires p < 8 * |s|
    ensures Bit(WithBitAt(s, p, v), q) == if p == q then v else Bit(s, q)
  {
    if q / 8 == p / 8 { WithBitSameByte(s, p, v, q, p / 8, 7 - p % 8, 7 - q % 8); }
  }

  lemma WithBitSameByte(s: Octets, p: nat, v: bool, q: nat, k: nat, i: nat, j: nat)
    requires k < |s| && i < 8 && j < 8 && p == 8 * k + 7 - i && q == 8 * k + 7 - j
    ensures Bit(WithBitAt(s, p, v), q) == if p == q then v else Bit(s, q)
  {
    assert p / 8 == k && q / 8 == k && 7 - p % 8 == i && 7 - q % 8 == j;
    WithBitIs(s[k], i, v, j);
  }

  /** The first `j` bits of the field are written, all other bits are as before. */
  ghost predicate WrittenTo(before: Octets, after: Octets, offset: nat, bits: nat, value: nat, j: nat)
    requires j <= bits
  {
    && |after| == |before|
    && forall q :: 0 <= q < 8 * |after| ==>
         Bit(after, q) == if offset <= q < offset + j then ValueBit(value, bits, q - offset) else Bit(before, q)
  }

  lemma WriteNext(before: Octets, after: Octets, offset: nat, bits: nat, value: nat, j: nat)
    requires j < bits && offset + bits <= 8 * |before| && WrittenTo(before, after, offset, bits, value, j)
    ensures WrittenTo(before, WithBitAt(after, offset + j, ValueBit(value, bits, j)), offset, bits, value, j + 1)
  {
    var next := WithBitAt(after, offset + j, ValueBit(value, bits, j));
    forall q | 0 <= q < 8 * |next|
      ensures Bit(next, q) == if offset <= q < offset + (j + 1) then ValueBit(value, bits, q - offset) else Bit(before, q)
    {
      WithBitAtIs(after, offset + j, ValueBit(value, bits, j), q);
    }
  }

  /** setUnsignedBitfield: the field gets the low bits of the value, nothing else changes. */
  method SetUnsignedBitfield(p: array<bv8>, offset: nat, bits: nat, value: nat)
    requires bits <= 64 && offset + bits <= 8 * p.Length
    modifies p
    ensures WrittenTo(old(p[..]), p[..], offset, bits, value, bits)
    ensures Field(p[..], offset, bits) == value % Pow2(bits)
  {
    for j := 0 to bits
      invariant WrittenTo(old(p[..]), p[..], offset, bits, value, j)
    {
      WriteNext(old(p[..]), p[..], offset, bits, value, j);
      WriteBit(p, offset + j, value / Pow2(bits - 1 - j) % 2 == 1);
    }
    WrittenField(old(p[..]), p[..], offset, bits, value);
  }

  /** The loop body of setUnsignedBitfield. */
  method WriteBit(p: array<bv8>, offset: nat, bitval: bool)
    requires offset < 8 * p.Length
    modifies p
    ensures p[..] == WithBitAt(old(p[..]), offset, bitval)
  {
    var byte, bit := offset / 8, 7 - offset % 8;
    var byteval := p[byte];
    byteval := byteval & !Mask(bit);
    if bitval { byteval := byteval | Mask(bit); }
    assert byteval == WithBit(p[byte], bit, bitval);
    ghost var before := p[..];
    p[byte] := byteval;
    assert p[..] == before[byte := byteval];
  }

  lemma WrittenField(before: Octets, after: Octets, offset: nat, bits: nat, value: nat)
    requires offset + bits <= 8 * |after| && WrittenTo(before, after, offset, bits, value, bits)
    ensures Field(after, offset, bits) == value % Pow2(bits)
  {
    forall j | 0 <= j < bits ensures BitFrom(after, offset, j) == ValueBit(value, bits, j) {
      assert 0 <= offset + j < 8 * |after|;
    }
    FieldOfBits(after, offset, bits, value);
  }

  /** Fields that do not overlap the written one keep their value. */
  lemma OtherFieldsKept(before: Octets, after: Octets, offset: nat, bits: nat, value: nat, o: nat, n: nat)
    requires offset + bits <= 8 * |after| && WrittenTo(before, after, offset, bits, value, bits)
    requires o + n <= offset || offset + bits <= o
    ensures Field(after, o, n) == Field(before, o, n)
  {
    forall j | 0 <= j < n ensures BitFrom(after, o, j) == BitFrom(before, o, j) {
      assert Bit(after, o + j) == Bit(before, o + j);
    }
    SameBitsSameField(after, o, before, o, n);
  }

  // ---------------------------------------------------------------------------
  // GET
  // ---------------------------------------------------------------------------

  /** The nine bytes around the field, zeros past the end of the string. */
  ghost predicate IsWindow(s: Octets, first: nat, buf: Octets) {
    |buf| == 9 && forall i :: 0 <= i < 9 ==> buf[i] == if first + i < |s| then s[first + i] else 0
  }

  lemma WindowBit(s: Octets, first: nat, buf: Octets, q: nat, p: nat)
    requires IsWindow(s, first, buf) && q < 72 && p == 8 * first + q
    ensures Bit(buf, q) == Bit(s, p)
  {
    assert p / 8 == first + q / 8 && p % 8 == q % 8;
  }

  /** The GET branch of bitfieldCommand: the value in the window is the field of the string
      extended with zeros, wherever the string ends. */
  method BitfieldGet(s: Octets, offset: nat, bits: nat) returns (value: nat)
    requires 1 <= bits <= 64
    ensures value == Field(s, offset, bits)
  {
    var byte := offset / 8;
    var window := CopyWindow(s, byte);
    value := GetUnsignedBitfield(window, offset - 8 * byte, bits);
    WindowField(s, byte, window, offset, bits);
  }

  lemma WindowField(s: Octets, first: nat, window: Octets, offset: nat, bits: nat)
    requires IsWindow(s, first, window) && first == offset / 8 && bits <= 64
    ensures Field(window, offset - 8 * first, bits) == Field(s, offset, bits)
  {
    var o := offset - 8 * first;
    forall j | 0 <= j < bits ensures BitFrom(window, o, j) == BitFrom(s, offset, j) {
      WindowBit(s, first, window, o + j, offset + j);
    }
    SameBitsSameField(window, o, s, offset, bits);
  }

  method CopyWindow(s: Octets, byte: nat) returns (window: Octets)
    ensures IsWindow(s, byte, window)
  {
    var buf := new bv8[9](_ => 0);
    var i := 0;
    while i < 9 && i + byte < |s|
      invariant 0 <= i <= 9 && (i > 0 ==> byte + i <= |s|)
      invariant forall k :: 0 <= k < 9 ==> buf[k] == if k < i then s[byte + k] else 0
    {
      buf[i] := s[i + byte];
      i := i + 1;
    }
    window := buf[..];
  }
}
