/** The overflow rules of BITFIELD (src/bitops.c): the two overflow checks in 64-bit arithmetic
    against exact sums, and the SET and INCRBY operations built on them. Unsigned widths are 1 to
    63, signed ones 1 to 64. On a signed field of width 64 the code shifts a 64-bit number by 64,
    which C leaves undefined: `x` is what the shift of getSignedBitfield gives, `y` what that of
    checkSignedBitfieldOverflow gives. */
module BitOverflow {
  import opened BitField
  import opened BitWords
  import opened Int64
  import opened Options

  /** BFOVERFLOW_WRAP, BFOVERFLOW_SAT, BFOVERFLOW_FAIL. */
  datatype Policy = Wrap | Sat | Fail

  /** What a check returns and the value it puts in `limit`, if any. */
  datatype Check = Check(code: int, limit: Option<int>)

  function U64(n: int): Word {
    n % 0x1_0000_0000_0000_0000
  }

  function Clamp(n: int, low: int, high: int): int {
    if n < low then low else if n > high then high else n
  }

  // ---------------------------------------------------------------------------
  // Unsigned
  // ---------------------------------------------------------------------------

  function Limit(policy: Policy, wrapped: int, bound: int): Option<int> {
    match policy
    case Wrap => Some(wrapped)
    case Sat => Some(bound)
    case Fail => None
  }

  /** The comparisons of checkUnsignedBitfieldOverflow. */
  function DecideUnsigned(value: nat, incr: int, max: int, wrapped: int, policy: Policy): Check {
    var maxIncr, minIncr := Wrap64(max - value), Wrap64(0 - value);
    if value > max || (incr > 0 && incr > maxIncr) then Check(1, Limit(policy, wrapped, max))
    else if incr < 0 && incr < minIncr then Check(if policy == Wrap then 1 else -1, Limit(policy, wrapped, 0))
    else Check(0, None)
  }

  /** checkUnsignedBitfieldOverflow. */
  function CheckUnsigned(value: nat, incr: int, bits: nat, policy: Policy): Check {
    DecideUnsigned(value, incr, Pow2(bits) - 1, U64(value + incr) % Pow2(bits), policy)
  }

  lemma DecideUnsignedIsExact(value: nat, incr: int, max: int, wrapped: int, policy: Policy)
    requires 0 <= max < 0x8000_0000_0000_0000 && value < 0x1_0000_0000_0000_0000 && Is64(incr)
    ensures var sum, r := value + incr, DecideUnsigned(value, incr, max, wrapped, policy);
      && (r.code == 0 <==> value <= max && 0 <= sum <= max)
      && (policy == Wrap && r.code != 0 ==> r.limit == Some(wrapped))
      && (policy == Sat && value <= max && r.code != 0 ==> r.limit == Some(Clamp(sum, 0, max)))
      && (policy != Wrap && value <= max ==> r.code == if sum > max then 1 else if sum < 0 then -1 else 0)
  {}

  lemma ModShift(x: int, t: int, m: nat)
    requires m > 0
    ensures (x + t * m) % m == x % m
  {
    var q, r := x / m, x % m;
    assert x == q * m + r;
    assert x + t * m == (q + t) * m + r;
    ModUnique(x + t * m, m, q + t, r);
  }

  lemma ModUnique(a: int, m: nat, q: int, r: nat)
    requires m > 0 && a == q * m + r && r < m
    ensures a % m == r && a / m == q
  {
    var d, e := a / m, a % m;
    assert a == d * m + e;
    assert (d - q) * m == d * m - q * m;
    MulAtLeast(d - q, m);
  }

  /** Reducing to 64 bits first does not change the value modulo a narrower width. */
  lemma NarrowMod(x: int, bits: nat)
    requires bits <= 64
    ensures U64(x) % Pow2(bits) == x % Pow2(bits)
  {
    var n := bits + (64 - bits);
    Pow2Of64(n);
    Pow2Add(64 - bits, bits);
    var t := x / 0x1_0000_0000_0000_0000;
    MulAssoc(t, Pow2(64 - bits), Pow2(bits));
    ModShift(U64(x), t * Pow2(64 - bits), Pow2(bits));
  }

  lemma MulAssoc(a: int, b: int, c: int)
    ensures a * (b * c) == (a * b) * c
  {}

  /** The unsigned check returns 0 iff the value and the exact sum fit; SAT gives the bound that
      was crossed, WRAP the sum modulo the width. */
  lemma UnsignedCheckIsExact(value: nat, incr: int, bits: nat, policy: Policy)
    requires 1 <= bits <= 63 && value < 0x1_0000_0000_0000_0000 && Is64(incr)
    ensures var max, sum, r := Pow2(bits) - 1, value + incr, CheckUnsigned(value, incr, bits, policy);
      && (r.code == 0 <==> value <= max && 0 <= sum <= max)
      && (policy == Wrap && r.code != 0 ==> r.limit == Some(sum % Pow2(bits)))
      && (policy == Sat && value <= max && r.code != 0 ==> r.limit == Some(Clamp(sum, 0, max)))
      && (policy != Wrap && value <= max ==> r.code == if sum > max then 1 else if sum < 0 then -1 else 0)
  {
    Pow2Fits(bits);
    NarrowMod(value + incr, bits);
    DecideUnsignedIsExact(value, incr, Pow2(bits) - 1, U64(value + incr) % Pow2(bits), policy);
  }

  // ---------------------------------------------------------------------------
  // Signed
  // ---------------------------------------------------------------------------

  function MaxOf(bits: nat): int
    requires bits >= 1
  {
    Pow2(bits - 1) - 1
  }

  function MinOf(bits: nat): int
    requires bits >= 1
  {
    0 - Pow2(bits - 1)
  }

  /** The two's complement reading of a number of that many bits. */
  function Signed(u: nat, bits: nat): int
    requires bits >= 1
  {
    if u >= Pow2(bits - 1) then u - Pow2(bits) else u
  }

  /** That of the low bits of a number. */
  function SignedOf(x: int, bits: nat): int
    requires bits >= 1
  {
    Signed(x % Pow2(bits), bits)
  }

  /** The wrap branch: set the bits above the sign, or clear them. */
  function WrapSigned(sum: int, bits: nat, y: Word): int
    requires 1 <= bits <= 64
  {
    var c := U64(sum);
    if BitOf(c, bits - 1) then Wrap64(OrWord(c, Mask(bits, y))) else Wrap64(AndNotWord(c, Mask(bits, y)))
  }

  /** The comparisons of checkSignedBitfieldOverflow. */
  function DecideSigned(value: int, incr: int, max: int, narrow: bool, wrapped: int, policy: Policy): Check {
    var min := -max - 1;
    var maxIncr, minIncr := Wrap64(max - value), Wrap64(min - value);
    if value > max || (narrow && incr > maxIncr) || (value >= 0 && incr > 0 && incr > maxIncr) then
      Check(1, Limit(policy, wrapped, max))
    else if value < min || (narrow && incr < minIncr) || (value < 0 && incr < 0 && incr < minIncr) then
      Check(if policy == Wrap then 1 else -1, Limit(policy, wrapped, min))
    else Check(0, None)
  }

  /** checkSignedBitfieldOverflow. */
  function CheckSigned(value: int, incr: int, bits: nat, policy: Policy, y: Word): Check
    requires 1 <= bits <= 64
  {
    DecideSigned(value, incr, Pow2(bits - 1) - 1, bits != 64, WrapSigned(value + incr, bits, y), policy)
  }

  lemma DecideSet(value: int, max: int, wrapped: int, policy: Policy)
    requires 0 <= max < 0x4000_0000_0000_0000 && Is64(value)
    ensures var r := DecideSigned(value, 0, max, true, wrapped, policy);
      && (r.code == 0 <==> -max - 1 <= value <= max)
      && (r.code != 0 ==> r.limit == match policy
            case Wrap => Some(wrapped)
            case Sat => Some(if value < max - 0x7FFF_FFFF_FFFF_FFFF then max else Clamp(value, -max - 1, max))
            case Fail => None)
  {}

  lemma WrapSignedIs(sum: int, bits: nat, y: Word)
    requires 1 <= bits < 64
    ensures WrapSigned(sum, bits, y) == SignedOf(sum, bits)
  {
    var c := U64(sum);
    Bounds(bits);
    TopBit(c, bits);
    NarrowMod(sum, bits);
    MaskExtends(c, bits, y);
    if BitOf(c, bits - 1) { WrapHigh(OrWord(c, Mask(bits, y))); }
  }

  /** On 64 bits the result depends on the shift. */
  lemma WrapWide(sum: int, bits: nat, y: Word)
    requires bits == 64
    ensures U64(sum) >= 0x8000_0000_0000_0000 ==>
              && WrapSigned(sum, bits, y) == OrWord(U64(sum), y) - 0x1_0000_0000_0000_0000
              && SignedOf(sum, bits) == U64(sum) - 0x1_0000_0000_0000_0000
    ensures U64(sum) < 0x8000_0000_0000_0000 ==>
              WrapSigned(sum, bits, y) == AndNotWord(U64(sum), y) && SignedOf(sum, bits) == U64(sum)
  {
    var c := U64(sum);
    Bounds(bits);
    TopBit(c, bits);
    ModUnique(c, Pow2(bits), 0, c);
    if c >= 0x8000_0000_0000_0000 { WrapHigh(OrWord(c, y)); }
  }

  /** Wrapping is reduction modulo the width, read as two's complement, whatever the shift by 64
      gives, exactly when there is none or its result cannot matter: the wrapped sum is 0 or -1. */
  lemma WrapSignedIsIff(sum: int, bits: nat)
    requires 1 <= bits <= 64
    ensures (forall y: Word :: WrapSigned(sum, bits, y) == SignedOf(sum, bits)) <==>
            bits < 64 || U64(sum) == 0 || U64(sum) == ONES
  {
    if bits < 64 {
      forall y: Word ensures WrapSigned(sum, bits, y) == SignedOf(sum, bits) { WrapSignedIs(sum, bits, y); }
    } else {
      forall y: Word { WrapWide(sum, bits, y); }
      OnesTakeAll(U64(sum));
      WrapWide(sum, bits, ONES);
    }
  }

  lemma SignedOfRange(x: int, bits: nat)
    requires bits >= 1
    ensures MinOf(bits) <= SignedOf(x, bits) <= MaxOf(bits)
    ensures MinOf(bits) <= x <= MaxOf(bits) ==> SignedOf(x, bits) == x
  {
    if 0 <= x <= MaxOf(bits) {
      ModUnique(x, Pow2(bits), 0, x);
    } else if MinOf(bits) <= x < 0 {
      assert x == -1 * Pow2(bits) + (x + Pow2(bits));
      ModUnique(x, Pow2(bits), -1, x + Pow2(bits));
    }
  }

  lemma Bounds(bits: nat)
    requires 1 <= bits <= 64
    ensures Pow2(bits) == 2 * Pow2(bits - 1) && 1 <= Pow2(bits - 1) <= 0x8000_0000_0000_0000
    ensures bits < 64 ==> Pow2(bits - 1) <= 0x4000_0000_0000_0000
    ensures bits == 64 ==> Pow2(bits - 1) == 0x8000_0000_0000_0000
  {
    Pow2Fits(bits - 1);
    Pow2Grows(0, bits - 1);
    if bits < 64 { Pow2Fits(bits); } else { Pow2Of64(bits); }
  }

  /** A check returns 0 iff the exact sum is in range; SAT gives the bound that was crossed, WRAP
      the wrapped sum. */
  ghost predicate CheckRight(sum: int, low: int, high: int, wrapped: int, policy: Policy, r: Check) {
    && (r.code == 0 <==> low <= sum <= high)
    && (policy == Wrap && r.code != 0 ==> r.limit == Some(wrapped))
    && (policy == Sat && r.code != 0 ==> r.limit == Some(Clamp(sum, low, high)))
    && (policy != Wrap ==> r.code == if sum > high then 1 else if sum < low then -1 else 0)
  }

  lemma DecideIncr(value: int, incr: int, low: int, max: int, narrow: bool, wrapped: int, policy: Policy)
    requires 0 <= max <= 0x7FFF_FFFF_FFFF_FFFF && low == -max - 1 <= value <= max && Is64(incr)
    requires if narrow then max < 0x4000_0000_0000_0000 else max == 0x7FFF_FFFF_FFFF_FFFF
    ensures CheckRight(value + incr, low, max, wrapped, policy, DecideSigned(value, incr, max, narrow, wrapped, policy))
  {}

  /** For a value in range the signed check is right. */
  lemma SignedCheckIsExact(value: int, incr: int, bits: nat, policy: Policy, y: Word)
    requires 1 <= bits <= 64 && MinOf(bits) <= value <= MaxOf(bits) && Is64(incr)
    ensures CheckRight(value + incr, MinOf(bits), MaxOf(bits), WrapSigned(value + incr, bits, y), policy,
                       CheckSigned(value, incr, bits, policy, y))
  {
    Bounds(bits);
    DecideIncr(value, incr, MinOf(bits), MaxOf(bits), bits != 64, WrapSigned(value + incr, bits, y), policy);
  }

  /** For SET the argument may be any 64-bit number. The check still tells exactly whether it
      fits, but below a bound that only depends on the width it reports an overflow instead of
      an underflow, and saturation then stores the largest instead of the smallest value. */
  lemma SignedSetSaturatesIff(value: int, bits: nat, y: Word)
    requires 1 <= bits <= 64 && Is64(value)
    ensures var r := CheckSigned(value, 0, bits, Sat, y);
      && (r.code == 0 <==> MinOf(bits) <= value <= MaxOf(bits))
      && (r.code != 0 ==>
            (r.limit == Some(Clamp(value, MinOf(bits), MaxOf(bits))) <==> value >= MaxOf(bits) - 0x7FFF_FFFF_FFFF_FFFF))
  {
    Bounds(bits);
    if bits < 64 { DecideSet(value, MaxOf(bits), WrapSigned(value, bits, y), Sat); }
  }

  /** For instance the smallest 64-bit number in an 8-bit field. */
  lemma SmallestSaturatesToLargest(bits: nat, y: Word)
    requires bits == 8
    ensures CheckSigned(-0x8000_0000_0000_0000, 0, bits, Sat, y) == Check(1, Some(MaxOf(bits)))
    ensures MinOf(bits) < MaxOf(bits)
  {
    Pow2Fits(bits);
    assert Pow2(bits) == 2 * Pow2(bits - 1);
    Pow2Grows(0, bits - 1);
  }

  // ---------------------------------------------------------------------------
  // The operations
  // ---------------------------------------------------------------------------

  function SignedField(s: Octets, offset: nat, bits: nat): int
    requires bits >= 1
  {
    Signed(Field(s, offset, bits), bits)
  }

  /** The sign extension of getSignedBitfield. */
  function ReadSigned(u: Word, bits: nat, x: Word): int
    requires 1 <= bits <= 64
  {
    if BitOf(u, bits - 1) then Wrap64(OrWord(u, Mask(bits, x))) else Wrap64(u)
  }

  /** A number that needs no sign extension to 64 bits, or has all bits set already. */
  predicate Extended(u: nat, bits: nat)
    requires bits >= 1
  {
    u < Pow2(bits - 1) || u == Pow2(bits) - 1
  }

  lemma ReadIs(u: Word, bits: nat, x: Word)
    requires 1 <= bits <= 64 && u < Pow2(bits)
    ensures bits < 64 || Extended(u, bits) ==> ReadSigned(u, bits, x) == Signed(u, bits)
    ensures bits == 64 && u >= Pow2(bits - 1) ==> ReadSigned(u, bits, x) == OrWord(u, x) - 0x1_0000_0000_0000_0000
  {
    Bounds(bits);
    ModUnique(u, Pow2(bits), 0, u);
    TopBit(u, bits);
    if u >= Pow2(bits - 1) {
      if bits < 64 { MaskExtends(u, bits, x); }
      WrapHigh(OrWord(u, Mask(bits, x)));
    }
  }

  /** It is right whatever the shift by 64 gives, exactly when there is none or the OR cannot
      change the number: the width is below 64, or the number is not negative, or it is -1. */
  lemma ReadIsExactIff(u: Word, bits: nat)
    requires 1 <= bits <= 64 && u < Pow2(bits)
    ensures (forall x: Word :: ReadSigned(u, bits, x) == Signed(u, bits)) <==> bits < 64 || Extended(u, bits)
  {
    forall x: Word { ReadIs(u, bits, x); }
    if bits == 64 && !Extended(u, bits) {
      Bounds(bits);
      ReadIs(u, bits, ONES);
      OnesTakeAll(u);
    }
  }

  /** For instance -2 in a field of 64 bits, where a shift that is taken modulo 64 leaves all
      bits set: it reads as -1. */
  lemma MinusTwoReadsAsMinusOne(bits: nat)
    requires bits == 64
    ensures SignedOf(-2, bits) == -2 && ReadSigned(U64(-2), bits, ONES) == -1
  {
    Bounds(bits);
    SignedOfRange(-2, bits);
    ReadIs(U64(-2), bits, ONES);
    OnesTakeAll(U64(-2));
  }

  lemma ReadFits(u: Word, bits: nat, x: Word)
    requires 1 <= bits <= 64 && u < Pow2(bits)
    ensures MinOf(bits) <= ReadSigned(u, bits, x) <= MaxOf(bits)
  {
    Bounds(bits);
    ReadIs(u, bits, x);
    SignedOfRange(u, bits);
  }

  lemma FieldIsWord(s: Octets, offset: nat, bits: nat)
    requires bits <= 64
    ensures Field(s, offset, bits) < Pow2(bits) <= 0x1_0000_0000_0000_0000
  {
    FieldBound(s, offset, bits);
    if bits < 64 { Pow2Fits(bits); } else { Pow2Of64(bits); }
  }

  /** The field as a word. */
  function WordAt(s: Octets, offset: nat, bits: nat): Word
    requires bits <= 64
  {
    FieldIsWord(s, offset, bits);
    Field(s, offset, bits)
  }

  /** getSignedBitfield: the top bit is extended. */
  method GetSignedBitfield(s: Octets, offset: nat, bits: nat, x: Word) returns (value: int)
    requires 1 <= bits <= 64 && offset + bits <= 8 * |s|
    ensures value == ReadSigned(WordAt(s, offset, bits), bits, x)
    ensures bits < 64 || Extended(WordAt(s, offset, bits), bits) ==> value == SignedField(s, offset, bits)
    ensures MinOf(bits) <= value <= MaxOf(bits)
  {
    FieldIsWord(s, offset, bits);
    var u := GetUnsignedBitfield(s, offset, bits);
    ReadIs(u, bits, x);
    ReadFits(u, bits, x);
    value := Wrap64(u);
    if BitOf(u, bits - 1) {
      value := Wrap64(OrWord(u, Mask(bits, x)));
    }
  }

  /** setSignedBitfield: the field then reads as the value reduced to its width. */
  method SetSignedBitfield(p: array<bv8>, offset: nat, bits: nat, value: int)
    requires 1 <= bits <= 64 && offset + bits <= 8 * p.Length && Is64(value)
    modifies p
    ensures WrittenTo(old(p[..]), p[..], offset, bits, U64(value), bits)
    ensures SignedField(p[..], offset, bits) == SignedOf(value, bits)
  {
    SetUnsignedBitfield(p, offset, bits, U64(value));
    NarrowMod(value, bits);
    ModUnique(value % Pow2(bits), Pow2(bits), 0, value % Pow2(bits));
  }

  /** The result `n` if it is in range, else what the policy says. */
  function Settle(n: int, low: int, high: int, wrapped: int, policy: Policy): Option<int> {
    if low <= n <= high then Some(n)
    else match policy
         case Wrap => Some(wrapped)
         case Sat => Some(Clamp(n, low, high))
         case Fail => None
  }

  /** The value an operation should store for the exact result `n`, if any. */
  function Stored(n: int, bits: nat, policy: Policy): Option<int>
    requires bits >= 1
  {
    Settle(n, MinOf(bits), MaxOf(bits), SignedOf(n, bits), policy)
  }

  predicate Fits(n: int, bits: nat)
    requires bits >= 1
  {
    MinOf(bits) <= n <= MaxOf(bits)
  }

  /** The value that is stored. */
  function Outcome(n: int, bits: nat, policy: Policy, y: Word): Option<int>
    requires 1 <= bits <= 64
  {
    Settle(n, MinOf(bits), MaxOf(bits), WrapSigned(n, bits, y), policy)
  }

  /** The value the code goes on with after the check. */
  function Chosen(value: int, incr: int, check: Check): int
    requires check.code != 0 ==> check.limit.Some?
  {
    if check.code != 0 then check.limit.value else Wrap64(value + incr)
  }

  /** The check leads to that value. */
  ghost predicate LeadsTo(value: int, incr: int, policy: Policy, check: Check, r: Option<int>) {
    if check.code != 0 && policy == Fail then r.None?
    else (check.code != 0 ==> check.limit.Some?) && r == Some(Chosen(value, incr, check))
  }

  lemma SettleIs(value: int, incr: int, low: int, high: int, wrapped: int, policy: Policy, check: Check)
    requires CheckRight(value + incr, low, high, wrapped, policy, check)
    requires -0x8000_0000_0000_0000 <= low <= high <= 0x7FFF_FFFF_FFFF_FFFF
    ensures LeadsTo(value, incr, policy, check, Settle(value + incr, low, high, wrapped, policy))
  {}

  lemma IncrStores(value: int, incr: int, bits: nat, policy: Policy, y: Word)
    requires 1 <= bits <= 64 && Fits(value, bits) && Is64(incr)
    ensures LeadsTo(value, incr, policy, CheckSigned(value, incr, bits, policy, y), Outcome(value + incr, bits, policy, y))
  {
    Bounds(bits);
    SignedCheckIsExact(value, incr, bits, policy, y);
    SettleIs(value, incr, MinOf(bits), MaxOf(bits), WrapSigned(value + incr, bits, y), policy,
             CheckSigned(value, incr, bits, policy, y));
  }

  lemma FitsIsExact(n: int, bits: nat)
    requires 1 <= bits <= 64 && Fits(n, bits)
    ensures Is64(n) && SignedOf(n, bits) == n
  {
    SignedOfRange(n, bits);
    Bounds(bits);
  }

  lemma SettleFits(n: int, low: int, high: int, wrapped: int, policy: Policy)
    requires low <= wrapped <= high
    ensures var r := Settle(n, low, high, wrapped, policy); r.Some? ==> low <= r.value <= high
  {}

  lemma WrappedFits(n: int, bits: nat, y: Word)
    requires 1 <= bits <= 64
    ensures Fits(WrapSigned(n, bits, y), bits)
  {
    Bounds(bits);
    if bits < 64 {
      WrapSignedIs(n, bits, y);
      SignedOfRange(n, bits);
    }
  }

  lemma OutcomeFits(n: int, bits: nat, policy: Policy, y: Word)
    requires 1 <= bits <= 64
    ensures var r := Outcome(n, bits, policy, y); r.Some? ==> Fits(r.value, bits)
  {
    WrappedFits(n, bits, y);
    SettleFits(n, MinOf(bits), MaxOf(bits), WrapSigned(n, bits, y), policy);
  }

  /** What INCRBY answers and stores when it read `v`. */
  function Incremented(v: int, incr: int, bits: nat, policy: Policy, y: Word): Option<int>
    requires 1 <= bits <= 64
  {
    Outcome(v + incr, bits, policy, y)
  }

  /** The shifts by 64 cannot matter: the number is read right and nothing has to be wrapped, or
      it is read as some negative number, all of which are refused or saturate to the smallest. */
  predicate ShiftsHarmless(u: Word, incr: int, bits: nat, policy: Policy)
    requires bits >= 1
  {
    if Extended(u, bits) then policy == Wrap ==> Fits(Signed(u, bits) + incr, bits)
    else match policy
         case Wrap => false
         case Sat => incr <= -0x7FFF_FFFF_FFFF_FFFF
         case Fail => incr == -0x8000_0000_0000_0000
  }

  /** INCRBY gives the exact sum, wrapped or saturated if it does not fit, whatever the two
      shifts by 64 give, exactly when the width is below 64 or they cannot matter. */
  lemma IncrIsExactIff(u: Word, incr: int, bits: nat, policy: Policy)
    requires 1 <= bits <= 64 && u < Pow2(bits) && Is64(incr)
    ensures (forall x: Word, y: Word ::
               Incremented(ReadSigned(u, bits, x), incr, bits, policy, y) == Stored(Signed(u, bits) + incr, bits, policy)) <==>
            bits < 64 || ShiftsHarmless(u, incr, bits, policy)
  {
    if bits < 64 || ShiftsHarmless(u, incr, bits, policy) {
      forall x: Word, y: Word
        ensures Incremented(ReadSigned(u, bits, x), incr, bits, policy, y) == Stored(Signed(u, bits) + incr, bits, policy)
      {
        ReadsSome(u, bits, x);
        ReadDefined(u, ReadSigned(u, bits, x), Signed(u, bits), incr, bits, policy, y);
      }
    } else {
      var x, y := IncrUndefined(u, incr, bits, policy);
    }
  }

  // What can be read

  /** `v` is what the field can be read as: itself, or with a shift by 64 some negative number. */
  ghost predicate Reads(u: Word, bits: nat, v: int)
    requires bits >= 1
  {
    if bits < 64 || Extended(u, bits) then v == Signed(u, bits)
    else -0x8000_0000_0000_0000 <= v <= -1 && Signed(u, bits) < -1
  }

  lemma ReadsSome(u: Word, bits: nat, x: Word)
    requires 1 <= bits <= 64 && u < Pow2(bits)
    ensures Reads(u, bits, ReadSigned(u, bits, x))
  {
    Bounds(bits);
    ReadIs(u, bits, x);
  }

  lemma ReadAsMinusOne(u: Word, bits: nat)
    requires bits == 64 && u < Pow2(bits) && !Extended(u, bits)
    ensures ReadSigned(u, bits, ONES) == -1 && -0x8000_0000_0000_0000 <= Signed(u, bits) < -1
  {
    Bounds(bits);
    ReadIs(u, bits, ONES);
    OnesTakeAll(u);
  }

  // The shifts do not matter

  lemma SettleSame(n: int, low: int, high: int, a: int, b: int, policy: Policy)
    requires a == b || (policy == Wrap ==> low <= n <= high)
    ensures Settle(n, low, high, a, policy) == Settle(n, low, high, b, policy)
  {}

  lemma OutcomeIs(n: int, bits: nat, policy: Policy, y: Word)
    requires 1 <= bits <= 64 && (bits < 64 || (policy == Wrap ==> Fits(n, bits)))
    ensures Outcome(n, bits, policy, y) == Stored(n, bits, policy)
  {
    if bits < 64 { WrapSignedIs(n, bits, y); }
    SettleSame(n, MinOf(bits), MaxOf(bits), WrapSigned(n, bits, y), SignedOf(n, bits), policy);
  }

  lemma SettleUnder(v: int, w: int, incr: int, low: int, high: int, a: int, b: int, policy: Policy)
    requires low == -0x8000_0000_0000_0000 <= high && v <= -1 && w < -1 && Is64(incr)
    requires (policy == Sat && incr <= low + 1) || (policy == Fail && incr == low)
    ensures Settle(v + incr, low, high, a, policy) == Settle(w + incr, low, high, b, policy)
  {}

  lemma OutcomeUnder(v: int, w: int, incr: int, bits: nat, policy: Policy, y: Word)
    requires bits == 64 && v <= -1 && w < -1 && Is64(incr)
    requires (policy == Sat && incr <= -0x7FFF_FFFF_FFFF_FFFF) || (policy == Fail && incr == -0x8000_0000_0000_0000)
    ensures Outcome(v + incr, bits, policy, y) == Stored(w + incr, bits, policy)
  {
    Bounds(bits);
    SettleUnder(v, w, incr, MinOf(bits), MaxOf(bits), WrapSigned(v + incr, bits, y), SignedOf(w + incr, bits), policy);
  }

  /** What is stored is what should be. */
  ghost predicate StoresRight(v: int, w: int, incr: int, bits: nat, policy: Policy, y: Word)
    requires 1 <= bits <= 64
  {
    Incremented(v, incr, bits, policy, y) == Stored(w + incr, bits, policy)
  }

  lemma ReadDefined(u: Word, v: int, w: int, incr: int, bits: nat, policy: Policy, y: Word)
    requires 1 <= bits <= 64 && Reads(u, bits, v) && Is64(incr) && w == Signed(u, bits)
    requires bits < 64 || ShiftsHarmless(u, incr, bits, policy)
    ensures StoresRight(v, w, incr, bits, policy, y)
  {
    HarmlessRead(u, v, incr, bits, policy);
    IncrDefined(v, w, incr, bits, policy, y);
  }

  /** The number is read right, or it is read as some negative number and that cannot matter. */
  ghost predicate Harmless(v: int, w: int, incr: int, bits: nat, policy: Policy)
    requires bits >= 1
  {
    || (v == w && (bits < 64 || (policy == Wrap ==> Fits(w + incr, bits))))
    || (&& bits == 64 && v <= -1 && w < -1
        && ((policy == Sat && incr <= -0x7FFF_FFFF_FFFF_FFFF) || (policy == Fail && incr == -0x8000_0000_0000_0000)))
  }

  lemma HarmlessRead(u: Word, v: int, incr: int, bits: nat, policy: Policy)
    requires 1 <= bits <= 64 && Reads(u, bits, v) && Is64(incr)
    requires bits < 64 || ShiftsHarmless(u, incr, bits, policy)
    ensures Harmless(v, Signed(u, bits), incr, bits, policy)
  {}

  lemma IncrDefined(v: int, w: int, incr: int, bits: nat, policy: Policy, y: Word)
    requires 1 <= bits <= 64 && Is64(incr) && Harmless(v, w, incr, bits, policy)
    ensures StoresRight(v, w, incr, bits, policy, y)
  {
    if v == w && (bits < 64 || (policy == Wrap ==> Fits(w + incr, bits))) {
      IncrExact(v, w, incr, bits, policy, y);
    } else {
      IncrUnder(v, w, incr, bits, policy, y);
    }
  }

  lemma IncrExact(v: int, w: int, incr: int, bits: nat, policy: Policy, y: Word)
    requires 1 <= bits <= 64 && v == w && (bits < 64 || (policy == Wrap ==> Fits(w + incr, bits)))
    ensures Incremented(v, incr, bits, policy, y) == Stored(w + incr, bits, policy)
  {
    OutcomeIs(w + incr, bits, policy, y);
  }

  lemma IncrUnder(v: int, w: int, incr: int, bits: nat, policy: Policy, y: Word)
    requires bits == 64 && v <= -1 && w < -1 && Is64(incr)
    requires (policy == Sat && incr <= -0x7FFF_FFFF_FFFF_FFFF) || (policy == Fail && incr == -0x8000_0000_0000_0000)
    ensures Incremented(v, incr, bits, policy, y) == Stored(w + incr, bits, policy)
  {
    OutcomeUnder(v, w, incr, bits, policy, y);
  }

  // They do

  /** Otherwise some results of the shifts give another value. */
  lemma IncrUndefined(u: Word, incr: int, bits: nat, policy: Policy) returns (x: Word, y: Word)
    requires bits == 64 && u < Pow2(bits) && Is64(incr) && !ShiftsHarmless(u, incr, bits, policy)
    ensures Incremented(ReadSigned(u, bits, x), incr, bits, policy, y) != Stored(Signed(u, bits) + incr, bits, policy)
  {
    Bounds(bits);
    if Extended(u, bits) {
      x, y := 0, ONES;
      ReadsSome(u, bits, x);
      MaskDiffers(Signed(u, bits) + incr, bits);
    } else {
      x := ONES;
      ReadAsMinusOne(u, bits);
      y := if incr == -0x8000_0000_0000_0000 && SignedOf(Signed(u, bits) + incr, bits) != 0 then ONES else 0;
      if incr == -0x8000_0000_0000_0000 {
        SmallestDiffers(Signed(u, bits) + incr, bits, y);
      } else {
        ReadDiffers(Signed(u, bits), incr, bits, policy, y);
      }
    }
  }

  /** A sum that has to be wrapped here becomes neither 0 nor -1, so a mask of ones changes it. */
  lemma MaskDiffers(sum: int, bits: nat)
    requires bits == 64 && !Fits(sum, bits) && -0x8000_0000_0000_0001 <= sum < ONES
    ensures Outcome(sum, bits, Wrap, ONES) != Stored(sum, bits, Wrap)
  {
    Bounds(bits);
    WrapDiffers(sum, bits);
  }

  lemma WrapDiffers(sum: int, bits: nat)
    requires bits == 64 && !Is64(sum) && -0x8000_0000_0000_0001 <= sum < ONES
    ensures WrapSigned(sum, bits, ONES) != SignedOf(sum, bits)
  {
    WrapWide(sum, bits, ONES);
    OnesTakeAll(U64(sum));
    NearlyOut(sum);
  }

  lemma NearlyOut(sum: int)
    requires !Is64(sum) && -0x8000_0000_0000_0001 <= sum < ONES
    ensures U64(sum) == if sum > 0 then sum else 0x7FFF_FFFF_FFFF_FFFF
  {}

  /** A sum that wraps to a positive number does so, or under a mask of ones to 0. */
  lemma PositiveWraps(sum: int, c: Word, bits: nat, y: Word)
    requires bits == 64 && U64(sum) == c < 0x8000_0000_0000_0000 && (y == 0 || y == ONES)
    ensures WrapSigned(sum, bits, y) == if y == 0 then c else 0
  {
    WrapWide(sum, bits, y);
    OnesTakeAll(c);
  }

  /** -1 less 2^63 wraps to 2^63 - 1 or, under a mask of ones, to 0. */
  lemma SmallestWraps(bits: nat, y: Word)
    requires bits == 64 && (y == 0 || y == ONES)
    ensures WrapSigned(-0x8000_0000_0000_0001, bits, y) == if y == 0 then 0x7FFF_FFFF_FFFF_FFFF else 0
  {
    NearlyOut(-0x8000_0000_0000_0001);
    PositiveWraps(-0x8000_0000_0000_0001, 0x7FFF_FFFF_FFFF_FFFF, bits, y);
  }

  lemma SmallestIsOut(bits: nat)
    requires bits == 64
    ensures !Fits(-0x8000_0000_0000_0001, bits)
  {
    Bounds(bits);
  }

  lemma SmallestDiffers(sum: int, bits: nat, y: Word)
    requires bits == 64 && sum < -0x8000_0000_0000_0001 && y == if SignedOf(sum, bits) != 0 then ONES else 0
    ensures Outcome(-0x8000_0000_0000_0001, bits, Wrap, y) != Stored(sum, bits, Wrap)
  {
    Bounds(bits);
    SmallestIsOut(bits);
    SmallestWraps(bits, y);
  }

  lemma ReadDiffers(w: int, incr: int, bits: nat, policy: Policy, y: Word)
    requires bits == 64 && -0x8000_0000_0000_0000 <= w < -1 && -0x8000_0000_0000_0000 < incr <= 0x7FFF_FFFF_FFFF_FFFF
    requires policy == Sat ==> incr > -0x7FFF_FFFF_FFFF_FFFF
    ensures Outcome(-1 + incr, bits, policy, y) != Stored(w + incr, bits, policy)
  {
    Bounds(bits);
    SumWraps(w + incr, bits);
    SettleDiffers(w, incr, MinOf(bits), MaxOf(bits), WrapSigned(-1 + incr, bits, y), SignedOf(w + incr, bits), policy);
  }

  lemma SumWraps(sum: int, bits: nat)
    requires bits == 64 && -0x1_0000_0000_0000_0000 <= sum <= 0x7FFF_FFFF_FFFF_FFFF
    ensures SignedOf(sum, bits) == if sum < -0x8000_0000_0000_0000 then sum + 0x1_0000_0000_0000_0000 else sum
  {
    Bounds(bits);
    if sum < 0 { ModUnique(sum, Pow2(bits), -1, sum + Pow2(bits)); } else { ModUnique(sum, Pow2(bits), 0, sum); }
  }

  lemma SettleDiffers(w: int, incr: int, low: int, high: int, a: int, b: int, policy: Policy)
    requires low == -0x8000_0000_0000_0000 && high == 0x7FFF_FFFF_FFFF_FFFF && low <= w < -1 && low < incr <= high
    requires policy == Sat ==> incr > low + 1
    requires b == if w + incr < low then w + incr + 0x1_0000_0000_0000_0000 else w + incr
    ensures Settle(-1 + incr, low, high, a, policy) != Settle(w + incr, low, high, b, policy)
  {}

  // The operation

  /** What INCRBY should answer. */
  ghost predicate IncrRight(u: Word, incr: int, bits: nat, policy: Policy, reply: Option<int>)
    requires 1 <= bits <= 64
  {
    bits < 64 || ShiftsHarmless(u, incr, bits, policy) ==> reply == Stored(Signed(u, bits) + incr, bits, policy)
  }

  lemma IncrementedRight(u: Word, v: int, incr: int, bits: nat, policy: Policy, y: Word)
    requires 1 <= bits <= 64 && Reads(u, bits, v) && Is64(incr)
    ensures IncrRight(u, incr, bits, policy, Incremented(v, incr, bits, policy, y))
  {
    if bits < 64 || ShiftsHarmless(u, incr, bits, policy) { ReadDefined(u, v, Signed(u, bits), incr, bits, policy, y); }
  }

  /** BITFIELD INCRBY on a signed field: FAIL leaves the string alone and answers nil. */
  method IncrBySigned(p: array<bv8>, offset: nat, bits: nat, incr: int, policy: Policy, x: Word, y: Word)
    returns (reply: Option<int>)
    requires 1 <= bits <= 64 && offset + bits <= 8 * p.Length && Is64(incr)
    modifies p
    ensures reply == Incremented(ReadSigned(old(WordAt(p[..], offset, bits)), bits, x), incr, bits, policy, y)
    ensures IncrRight(old(WordAt(p[..], offset, bits)), incr, bits, policy, reply)
    ensures reply.None? ==> p[..] == old(p[..])
    ensures reply.Some? ==> SignedField(p[..], offset, bits) == reply.value
    ensures reply.Some? ==> WrittenTo(old(p[..]), p[..], offset, bits, U64(reply.value), bits)
  {
    var oldval := GetSignedBitfield(p[..], offset, bits, x);
    ghost var u := WordAt(p[..], offset, bits);
    FieldIsWord(p[..], offset, bits);
    ReadsSome(u, bits, x);
    IncrementedRight(u, oldval, incr, bits, policy, y);
    reply := Increment(oldval, incr, bits, policy, y);
    if reply.Some? {
      IncrementedFits(oldval, incr, bits, policy, y);
      SetSignedBitfield(p, offset, bits, reply.value);
    }
  }

  lemma IncrementedFits(v: int, incr: int, bits: nat, policy: Policy, y: Word)
    requires 1 <= bits <= 64 && Incremented(v, incr, bits, policy, y).Some?
    ensures var n := Incremented(v, incr, bits, policy, y).value; Is64(n) && SignedOf(n, bits) == n
  {
    OutcomeFits(v + incr, bits, policy, y);
    FitsIsExact(Incremented(v, incr, bits, policy, y).value, bits);
  }

  /** The check and what follows it. */
  method Increment(oldval: int, incr: int, bits: nat, policy: Policy, y: Word) returns (reply: Option<int>)
    requires 1 <= bits <= 64 && Fits(oldval, bits) && Is64(incr)
    ensures reply == Incremented(oldval, incr, bits, policy, y)
  {
    var check := CheckSigned(oldval, incr, bits, policy, y);
    IncrStores(oldval, incr, bits, policy, y);
    if check.code != 0 && policy == Fail { return None; }
    return Some(Chosen(oldval, incr, check));
  }

  /** The value that SET stores in a signed field: as for INCRBY, except that SAT turns numbers
      below the bound of SignedSetSaturatesIff into the largest value. */
  function StoredBySet(n: int, bits: nat, policy: Policy): Option<int>
    requires bits >= 1
  {
    if bits < 64 && policy == Sat && n < MaxOf(bits) - 0x7FFF_FFFF_FFFF_FFFF then Some(MaxOf(bits))
    else Stored(n, bits, policy)
  }

  lemma SettleSet(value: int, max: int, wrapped: int, policy: Policy)
    requires 0 <= max < 0x4000_0000_0000_0000 && Is64(value)
    ensures var check := DecideSigned(value, 0, max, true, wrapped, policy);
      (if policy == Sat && value < max - 0x7FFF_FFFF_FFFF_FFFF then Some(max)
       else Settle(value, -max - 1, max, wrapped, policy)) ==
      if check.code == 0 then Some(value) else if policy == Fail then None else check.limit
  {
    DecideSet(value, max, wrapped, policy);
  }

  lemma SetStores(value: int, bits: nat, policy: Policy, y: Word, check: Check)
    requires 1 <= bits <= 64 && Is64(value) && check == CheckSigned(value, 0, bits, policy, y)
    ensures StoredBySet(value, bits, policy) ==
            if check.code == 0 then Some(value) else if policy == Fail then None else check.limit
  {
    Bounds(bits);
    if bits < 64 {
      WrapSignedIs(value, bits, y);
      SettleSet(value, MaxOf(bits), SignedOf(value, bits), policy);
    }
  }

  lemma SetFits(value: int, bits: nat, policy: Policy)
    requires 1 <= bits <= 64
    ensures StoredBySet(value, bits, policy).Some? ==>
              var v := StoredBySet(value, bits, policy).value; Is64(v) && SignedOf(v, bits) == v
  {
    Bounds(bits);
    SignedOfRange(MaxOf(bits), bits);
    SignedOfRange(value, bits);
    SettleFits(value, MinOf(bits), MaxOf(bits), SignedOf(value, bits), policy);
    if Stored(value, bits, policy).Some? { FitsIsExact(Stored(value, bits, policy).value, bits); }
  }

  /** BITFIELD SET on a signed field: answers the old value. */
  method SetSigned(p: array<bv8>, offset: nat, bits: nat, value: int, policy: Policy, x: Word, y: Word)
    returns (reply: Option<int>)
    requires 1 <= bits <= 64 && offset + bits <= 8 * p.Length && Is64(value)
    modifies p
    ensures reply ==
            if StoredBySet(value, bits, policy).Some?
            then Some(ReadSigned(old(WordAt(p[..], offset, bits)), bits, x)) else None
    ensures (bits < 64 || old(Extended(WordAt(p[..], offset, bits), bits))) && reply.Some? ==>
              reply.value == old(SignedField(p[..], offset, bits))
    ensures reply.None? ==> p[..] == old(p[..])
    ensures reply.Some? ==>
              && SignedField(p[..], offset, bits) == StoredBySet(value, bits, policy).value
              && WrittenTo(old(p[..]), p[..], offset, bits, U64(StoredBySet(value, bits, policy).value), bits)
  {
    var oldval := GetSignedBitfield(p[..], offset, bits, x);
    var newval := value;
    var check := CheckSigned(newval, 0, bits, policy, y);
    SetStores(value, bits, policy, y, check);
    SetFits(value, bits, policy);
    if check.code != 0 {
      if policy == Fail { return None; }
      newval := check.limit.value;
    }
    SetSignedBitfield(p, offset, bits, newval);
    return Some(oldval);
  }

  function StoredUnsigned(n: int, bits: nat, policy: Policy): Option<int> {
    if 0 <= n < Pow2(bits) then Some(n)
    else match policy
         case Wrap => Some(n % Pow2(bits))
         case Sat => Some(Clamp(n, 0, Pow2(bits) - 1))
         case Fail => None
  }

  lemma UnsignedStores(value: nat, incr: int, bits: nat, policy: Policy, check: Check)
    requires 1 <= bits <= 63 && value < Pow2(bits) && Is64(incr) && check == CheckUnsigned(value, incr, bits, policy)
    ensures StoredUnsigned(value + incr, bits, policy) ==
            if check.code == 0 then Some(value + incr) else if policy == Fail then None else check.limit
    ensures StoredUnsigned(value + incr, bits, policy).Some? ==>
              var v := StoredUnsigned(value + incr, bits, policy).value; v >= 0 && v % Pow2(bits) == v
  {
    Pow2Fits(bits);
    UnsignedCheckIsExact(value, incr, bits, policy);
    if StoredUnsigned(value + incr, bits, policy).Some? {
      var v := StoredUnsigned(value + incr, bits, policy).value;
      ModUnique(v, Pow2(bits), 0, v);
    }
  }

  /** BITFIELD INCRBY on an unsigned field. */
  method IncrByUnsigned(p: array<bv8>, offset: nat, bits: nat, incr: int, policy: Policy) returns (reply: Option<int>)
    requires 1 <= bits <= 63 && offset + bits <= 8 * p.Length && Is64(incr)
    modifies p
    ensures reply == StoredUnsigned(old(Field(p[..], offset, bits)) + incr, bits, policy)
    ensures reply.None? ==> p[..] == old(p[..])
    ensures reply.Some? ==> Field(p[..], offset, bits) == reply.value
    ensures reply.Some? ==> reply.value >= 0 && WrittenTo(old(p[..]), p[..], offset, bits, reply.value, bits)
  {
    var oldval := GetUnsignedBitfield(p[..], offset, bits);
    var check := CheckUnsigned(oldval, incr, bits, policy);
    UnsignedStores(oldval, incr, bits, policy, check);
    if check.code != 0 && policy == Fail { return None; }
    var newval := if check.code != 0 then check.limit.value else oldval + incr;
    SetUnsignedBitfield(p, offset, bits, newval);
    return Some(newval);
  }

  /** For SET on an unsigned field a negative argument is read as a huge number: SAT then stores
      the largest value, not 0. */
  lemma UnsignedSetSaturatesIff(value: int, bits: nat)
    requires 1 <= bits <= 63 && Is64(value)
    ensures var r := CheckUnsigned(U64(value), 0, bits, Sat);
      && (r.code == 0 <==> 0 <= value < Pow2(bits))
      && (r.code != 0 ==> r.limit == Some(Pow2(bits) - 1))
      && (r.code != 0 ==> (r.limit == Some(Clamp(value, 0, Pow2(bits) - 1)) <==> value >= 0))
  {
    Pow2Fits(bits);
    Pow2Grows(1, bits);
    DecideUnsignedIsExact(U64(value), 0, Pow2(bits) - 1, U64(U64(value)) % Pow2(bits), Sat);
  }

  /** Setting -1 in a field of 8 bits. */
  lemma MinusOneSaturatesToLargest(bits: nat)
    requires bits == 8
    ensures CheckUnsigned(U64(-1), 0, bits, Sat).limit == Some(Pow2(bits) - 1)
    ensures Clamp(-1, 0, Pow2(bits) - 1) == 0 < Pow2(bits) - 1
  {
    Pow2Grows(1, bits);
    UnsignedSetSaturatesIff(-1, bits);
  }

  /** The value SET stores in an unsigned field for the argument read as an unsigned number. */
  function StoredBySetUnsigned(u: nat, bits: nat, policy: Policy): Option<int> {
    if u < Pow2(bits) then Some(u)
    else match policy
         case Wrap => Some(u % Pow2(bits))
         case Sat => Some(Pow2(bits) - 1)
         case Fail => None
  }

  lemma SetUnsignedStores(u: nat, bits: nat, policy: Policy, check: Check)
    requires 1 <= bits <= 63 && u < 0x1_0000_0000_0000_0000 && check == CheckUnsigned(u, 0, bits, policy)
    ensures StoredBySetUnsigned(u, bits, policy) ==
            if check.code == 0 then Some(u) else if policy == Fail then None else check.limit
    ensures StoredBySetUnsigned(u, bits, policy).Some? ==>
              var v := StoredBySetUnsigned(u, bits, policy).value; v >= 0 && v % Pow2(bits) == v
  {
    Pow2Fits(bits);
    NarrowMod(u, bits);
    DecideUnsignedIsExact(u, 0, Pow2(bits) - 1, U64(u) % Pow2(bits), policy);
    if StoredBySetUnsigned(u, bits, policy).Some? {
      var v := StoredBySetUnsigned(u, bits, policy).value;
      ModUnique(v, Pow2(bits), 0, v);
    }
  }

  /** BITFIELD SET on an unsigned field: answers the old value. */
  method SetUnsigned(p: array<bv8>, offset: nat, bits: nat, value: int, policy: Policy) returns (reply: Option<int>)
    requires 1 <= bits <= 63 && offset + bits <= 8 * p.Length && Is64(value)
    modifies p
    ensures reply == if StoredBySetUnsigned(U64(value), bits, policy).Some? then Some(old(Field(p[..], offset, bits))) else None
    ensures reply.None? ==> p[..] == old(p[..])
    ensures reply.Some? ==>
              var v := StoredBySetUnsigned(U64(value), bits, policy).value;
              v >= 0 && Field(p[..], offset, bits) == v && WrittenTo(old(p[..]), p[..], offset, bits, v, bits)
  {
    var oldval := GetUnsignedBitfield(p[..], offset, bits);
    var check := CheckUnsigned(U64(value), 0, bits, policy);
    SetUnsignedStores(U64(value), bits, policy, check);
    if check.code != 0 && policy == Fail { return None; }
    var newval := if check.code != 0 then check.limit.value else U64(value);
    SetUnsignedBitfield(p, offset, bits, newval);
    return Some(oldval);
  }
}
