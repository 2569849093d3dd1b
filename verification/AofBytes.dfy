/** Byte strings and the decimal numbers inside them, as src/aof.c writes and reads them. */
module AofBytes {

  newtype byte = x: int | 0 <= x < 256

  type Bytes = seq<byte>

  const CR: byte := 13
  const LF: byte := 10
  const STAR: byte := 42
  const DOLLAR: byte := 36
  const ZERO: byte := 48

  const CRLF: Bytes := [CR, LF]

  predicate IsDigit(b: byte) {
    48 <= b <= 57
  }

  function DigitOf(d: nat): byte
    requires d < 10
  {
    (48 + d) as byte
  }

  /** ll2string for a non-negative number: no leading zero. */
  function Dec(n: nat): Bytes {
    if n < 10 then [DigitOf(n)] else Dec(n / 10) + [DigitOf(n % 10)]
  }

  ghost predicate AllDigits(s: Bytes) {
    forall i :: 0 <= i < |s| ==> IsDigit(s[i])
  }

  /** The value of a run of digits after `acc`. */
  function Fold(acc: nat, s: Bytes): nat
    requires AllDigits(s)
    decreases |s|
  {
    if s == [] then acc else Fold(acc * 10 + (s[0] as int - 48), s[1..])
  }

  /** What strtol and atoi make of the text after the type byte: digits up to the first
      other byte, 0 if there are none. A leading blank or sign is handled by ParseInt. */
  function ParseDigits(acc: nat, s: Bytes): nat
    decreases |s|
  {
    if s == [] || !IsDigit(s[0]) then acc else ParseDigits(acc * 10 + (s[0] as int - 48), s[1..])
  }

  predicate IsBlank(b: byte) {
    b == 32 || 9 <= b <= 13
  }

  function ParseInt(s: Bytes): int
    decreases |s|
  {
    if s == [] then 0
    else if IsBlank(s[0]) then ParseInt(s[1..])
    else if s[0] == 45 then (0 - ParseDigits(0, s[1..]) as int)
    else if s[0] == 43 then ParseDigits(0, s[1..])
    else ParseDigits(0, s)
  }

  lemma {:induction false} DecDigits(n: nat)
    ensures AllDigits(Dec(n)) && |Dec(n)| >= 1
    ensures n >= 1 ==> Dec(n)[0] != ZERO
  {
    if n >= 10 { DecDigits(n / 10); }
  }

  lemma {:induction false} FoldAppend(acc: nat, s: Bytes, d: byte)
    requires AllDigits(s) && IsDigit(d)
    ensures AllDigits(s + [d]) && Fold(acc, s + [d]) == Fold(acc, s) * 10 + (d as int - 48)
    decreases |s|
  {
    if s == [] {
      assert [d][1..] == [];
    } else {
      assert (s + [d])[1..] == s[1..] + [d];
      FoldAppend(acc * 10 + (s[0] as int - 48), s[1..], d);
    }
  }

  lemma {:induction false} FoldDec(n: nat)
    ensures AllDigits(Dec(n)) && Fold(0, Dec(n)) == n
  {
    DecDigits(n);
    if n < 10 {
      assert Dec(n)[1..] == [];
    } else {
      FoldDec(n / 10);
      FoldAppend(0, Dec(n / 10), DigitOf(n % 10));
    }
  }

  lemma {:induction false} ParseFolds(acc: nat, d: Bytes, rest: Bytes)
    requires AllDigits(d) && (rest == [] || !IsDigit(rest[0]))
    ensures ParseDigits(acc, d + rest) == Fold(acc, d)
    decreases |d|
  {
    if d == [] {
      assert d + rest == rest;
    } else {
      assert (d + rest)[1..] == d[1..] + rest;
      ParseFolds(acc * 10 + (d[0] as int - 48), d[1..], rest);
    }
  }

  lemma {:induction false} FoldGrows(acc: nat, d: Bytes)
    requires AllDigits(d)
    ensures Fold(acc, d) >= acc
    decreases |d|
  {
    if d != [] { FoldGrows(acc * 10 + (d[0] as int - 48), d[1..]); }
  }

  /** Reading back a written number. */
  lemma ParseDec(n: nat)
    ensures ParseInt(Dec(n) + CRLF) == n
  {
    DecDigits(n);
    FoldDec(n);
    ParseFolds(0, Dec(n), CRLF);
    var s := Dec(n) + CRLF;
    assert s[0] == Dec(n)[0] && IsDigit(s[0]);
  }

  /** Reading back a number whose text was cut short gives some number, and a positive one
      if the number was positive and at least one digit is left. */
  lemma ParseCutDec(n: nat, k: nat, tail: Bytes)
    requires k <= |Dec(n)| && (tail == [] || tail == [CR])
    ensures ParseInt(Dec(n)[..k] + tail) >= 0
    ensures n >= 1 && k >= 1 ==> ParseInt(Dec(n)[..k] + tail) >= 1
  {
    DecDigits(n);
    var d := Dec(n)[..k];
    ParseFolds(0, d, tail);
    var s := d + tail;
    if k >= 1 {
      assert s[0] == Dec(n)[0] && IsDigit(s[0]);
      FoldGrows(0 * 10 + (d[0] as int - 48), d[1..]);
    } else if tail == [CR] {
      assert s == [CR];
      assert ParseInt([CR]) == ParseInt([CR][1..]);
    }
  }

  function Pow10(k: nat): nat {
    if k == 0 then 1 else 10 * Pow10(k - 1)
  }

  lemma {:induction false} DecLength(n: nat, k: nat)
    requires k >= 1 && n < Pow10(k)
    ensures |Dec(n)| <= k
  {
    if n >= 10 {
      assert Pow10(1) == 10 * Pow10(0);
      DecLength(n / 10, k - 1);
    }
  }

  /** Every length a C program can have is written in at most 20 digits. */
  lemma SizeDigits(n: nat)
    requires n < 0x1_0000_0000_0000_0000
    ensures |Dec(n)| <= 20
  {
    assert Pow10(10) == 10_000_000_000 by {
      assert Pow10(5) == 100_000;
    }
    assert Pow10(15) == 1_000_000_000_000_000;
    assert Pow10(20) == 100_000_000_000_000_000_000;
    DecLength(n, 20);
  }

  // ---------------------------------------------------------------------------
  // Sequences
  // ---------------------------------------------------------------------------

  lemma Assoc<T>(a: seq<T>, b: seq<T>, c: seq<T>)
    ensures (a + b) + c == a + (b + c)
  {}

  lemma TailConcat<T>(a: seq<T>, b: seq<T>)
    requires a != []
    ensures (a + b)[0] == a[0] && (a + b)[1..] == a[1..] + b
  {}

  /** Where a cut of a + b falls. */
  lemma CutOfSum(a: Bytes, b: Bytes, k: nat)
    requires k <= |a| + |b|
    ensures k <= |a| ==> (a + b)[..k] == a[..k]
    ensures k >= |a| ==> (a + b)[..k] == a + b[..k - |a|]
  {}
}
