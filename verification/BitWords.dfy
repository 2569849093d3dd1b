/** The bitwise operators of C on numbers, for the words that src/bitops.c builds. */
module BitWords {
  import opened BitField

  /** A 64-bit word. */
  type Word = n: nat | n < 0x1_0000_0000_0000_0000

  const ONES: Word := 0xFFFF_FFFF_FFFF_FFFF

  /** a | b on the low n bits. */
  function Or(a: nat, b: nat, n: nat): nat
    decreases n
  {
    if n == 0 then 0 else 2 * Or(a / 2, b / 2, n - 1) + (if a % 2 == 1 || b % 2 == 1 then 1 else 0)
  }

  /** a & ~b on the low n bits. */
  function AndNot(a: nat, b: nat, n: nat): nat
    decreases n
  {
    if n == 0 then 0 else 2 * AndNot(a / 2, b / 2, n - 1) + (if a % 2 == 1 && b % 2 == 0 then 1 else 0)
  }

  predicate BitOf(a: nat, i: nat)
    decreases i
  {
    if i == 0 then a % 2 == 1 else BitOf(a / 2, i - 1)
  }

  lemma DivTwice(a: nat, m: nat)
    requires m > 0
    ensures a / 2 / m == a / (2 * m)
  {
    var h := a / 2;
    var q, r := h / m, h % m;
    assert h == q * m + r;
    assert a == q * (2 * m) + (2 * r + a % 2);
    DivUnique(a, 2 * m, q, 2 * r + a % 2);
  }

  lemma DivUnique(a: nat, m: nat, q: nat, r: nat)
    requires m > 0 && a == q * m + r && r < m
    ensures a / m == q
  {
    var d := a / m - q;
    assert a == a / m * m + a % m;
    assert d * m == a / m * m - q * m;
    MulAtLeast(d, m);
  }

  /** Bit by bit they are what their names say. */
  lemma {:induction false} WordBits(a: nat, b: nat, n: nat, i: nat)
    requires i < n
    ensures BitOf(Or(a, b, n), i) == (BitOf(a, i) || BitOf(b, i))
    ensures BitOf(AndNot(a, b, n), i) == (BitOf(a, i) && !BitOf(b, i))
    decreases n
  {
    Halves(a, b, n);
    if i > 0 { WordBits(a / 2, b / 2, n - 1, i - 1); }
  }

  lemma Halves(a: nat, b: nat, n: nat)
    requires n > 0
    ensures Or(a, b, n) / 2 == Or(a / 2, b / 2, n - 1) && Or(a, b, n) % 2 == (if a % 2 == 1 || b % 2 == 1 then 1 else 0)
    ensures AndNot(a, b, n) / 2 == AndNot(a / 2, b / 2, n - 1)
    ensures AndNot(a, b, n) % 2 == (if a % 2 == 1 && b % 2 == 0 then 1 else 0)
  {}

  lemma {:induction false} OrBounds(a: nat, b: nat, n: nat)
    requires a < Pow2(n) && b < Pow2(n)
    ensures a <= Or(a, b, n) < Pow2(n) && b <= Or(a, b, n)
    decreases n
  {
    if n > 0 { OrBounds(a / 2, b / 2, n - 1); }
  }

  lemma {:induction false} AndNotBounds(a: nat, b: nat, n: nat)
    requires a < Pow2(n)
    ensures AndNot(a, b, n) <= a
    decreases n
  {
    if n > 0 { AndNotBounds(a / 2, b / 2, n - 1); }
  }

  lemma {:induction false} OrNothing(a: nat, n: nat)
    requires a < Pow2(n)
    ensures Or(a, 0, n) == a && AndNot(a, 0, n) == a
    decreases n
  {
    if n > 0 { OrNothing(a / 2, n - 1); }
  }

  lemma {:induction false} AndNotAll(a: nat, n: nat)
    ensures AndNot(a, Pow2(n) - 1, n) == 0
    decreases n
  {
    if n > 0 {
      assert (Pow2(n) - 1) / 2 == Pow2(n - 1) - 1 && (Pow2(n) - 1) % 2 == 1;
      AndNotAll(a / 2, n - 1);
    }
  }

  lemma OrAll(a: nat, n: nat)
    requires a < Pow2(n)
    ensures Or(a, Pow2(n) - 1, n) == Pow2(n) - 1 && Or(Pow2(n) - 1, a, n) == Pow2(n) - 1
  {
    OrBounds(a, Pow2(n) - 1, n);
    OrBounds(Pow2(n) - 1, a, n);
  }

  lemma EvenMask(c: nat, half: nat, n: nat)
    requires n > 0
    ensures Or(c, 2 * half, n) == 2 * Or(c / 2, half, n - 1) + c % 2
    ensures AndNot(c, 2 * half, n) == 2 * AndNot(c / 2, half, n - 1) + c % 2
  {
    assert 2 * half / 2 == half && 2 * half % 2 == 0;
  }

  /** The high bits all set or all cleared. */
  lemma {:induction false} HighBits(c: nat, low: nat, n: nat, mask: nat)
    requires c < Pow2(n) && low <= n && mask + Pow2(low) == Pow2(n)
    ensures Or(c, mask, n) == c % Pow2(low) + mask && AndNot(c, mask, n) == c % Pow2(low)
    decreases low
  {
    if low == 0 {
      OrAll(c, n);
      AndNotAll(c, n);
    } else {
      var half := mask / 2;
      assert mask == 2 * half && half + Pow2(low - 1) == Pow2(n - 1);
      HighBits(c / 2, low - 1, n - 1, half);
      EvenMask(c, half, n);
      ModHalf(c, Pow2(low - 1));
    }
  }

  lemma ModHalf(c: nat, m: nat)
    requires m > 0
    ensures c % (2 * m) == 2 * (c / 2 % m) + c % 2
  {
    DivTwice(c, m);
    var h := c / 2;
    assert h == h / m * m + h % m;
    assert c == c / (2 * m) * (2 * m) + c % (2 * m);
    assert h / m * (2 * m) == 2 * (h / m * m);
  }

  /** The top bit of the low n says which half they are in. */
  lemma {:induction false} TopBit(c: nat, n: nat)
    requires n > 0
    ensures BitOf(c, n - 1) <==> c % Pow2(n) >= Pow2(n - 1)
    decreases n
  {
    ModHalf(c, Pow2(n - 1));
    if n > 1 { TopBit(c / 2, n - 1); }
  }

  // ---------------------------------------------------------------------------
  // Words of 64 bits
  // ---------------------------------------------------------------------------

  const WIDTH: nat := 64

  lemma WidthIs()
    ensures Pow2(WIDTH) == 0x1_0000_0000_0000_0000
  {
    Pow2Of64(WIDTH);
  }

  function OrWord(a: Word, b: Word): (r: Word)
    ensures a <= r && b <= r
  {
    WidthIs();
    OrBounds(a, b, WIDTH);
    Or(a, b, WIDTH)
  }

  function AndNotWord(a: Word, b: Word): (r: Word)
    ensures r <= a
  {
    WidthIs();
    AndNotBounds(a, b, WIDTH);
    AndNot(a, b, WIDTH)
  }

  /** (uint64_t)-1 << bits. A shift by 64 is undefined in C: `shifted` is what comes out. */
  function Mask(bits: nat, shifted: Word): Word
    requires bits <= 64
  {
    if bits < 64 then Pow2Fits(bits); 0x1_0000_0000_0000_0000 - Pow2(bits) else shifted
  }

  lemma MaskExtends(c: Word, bits: nat, shifted: Word)
    requires bits < 64
    ensures Pow2(bits) <= 0x8000_0000_0000_0000
    ensures OrWord(c, Mask(bits, shifted)) == c % Pow2(bits) + 0x1_0000_0000_0000_0000 - Pow2(bits)
    ensures AndNotWord(c, Mask(bits, shifted)) == c % Pow2(bits)
  {
    WidthIs();
    Pow2Fits(bits);
    HighBits(c, bits, WIDTH, Mask(bits, shifted));
  }

  lemma OnesTakeAll(c: Word)
    ensures OrWord(c, ONES) == ONES && AndNotWord(c, ONES) == 0
    ensures OrWord(c, 0) == c && AndNotWord(c, 0) == c
  {
    WidthIs();
    OrAll(c, WIDTH);
    AndNotAll(c, WIDTH);
    OrNothing(c, WIDTH);
  }
}
