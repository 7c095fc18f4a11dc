/** Go's fixed-width integers and bit operations, written out over unbounded integers. */
module Machine {

  type byte = x: int | 0 <= x < 256
  type bytes = seq<byte>

  const TWO31: int := 0x8000_0000
  const TWO32: int := 0x1_0000_0000
  const TWO63: int := 0x8000_0000_0000_0000
  const TWO64: int := 0x1_0000_0000_0000_0000

  /** The errors that decoding returns. */
  datatype Error =
    | UnexpectedEOF
    | IntOverflow
    | InvalidLength
    | UnexpectedEndOfGroup
    | IllegalWireType
    | EndGroupForNonGroup
    | IllegalTag
    | WrongWireType

  datatype Option<+T> = None | Some(value: T)

  datatype Result<+T> = Ok(value: T) | Err(error: Error)

  /** Two outcomes agree when both fail, or both succeed with the same value. */
  predicate Agree<T(==)>(a: Result<T>, b: Result<T>) {
    a.Ok? == b.Ok? && (a.Ok? ==> a.value == b.value)
  }

  /** `len(d)` is a Go `int`. */
  predicate Fits(d: bytes) { |d| < TWO63 }

  /** `x << s` on unbounded integers. */
  function ShiftLeft(x: nat, s: nat): (r: nat)
    ensures x > 0 ==> r > 0
  {
    if s == 0 then x else 2 * ShiftLeft(x, s - 1)
  }

  function Pow2(n: nat): (r: nat)
    ensures r > 0
  {
    ShiftLeft(1, n)
  }

  /** The low `w` bits of `n`: what an unsigned type of `w` bits keeps. */
  function Truncate(n: nat, w: nat): nat {
    if w == 0 then 0 else n % 2 + 2 * Truncate(n / 2, w - 1)
  }

  /** `x | y`. */
  function BitOr(x: nat, y: nat): nat {
    if x == 0 then y
    else if y == 0 then x
    else 2 * BitOr(x / 2, y / 2) + (if x % 2 == 1 || y % 2 == 1 then 1 else 0)
  }

  /** The value of a 32-bit pattern read as `int32`. */
  function Signed32(x: nat): (r: int)
    requires x < TWO32
    ensures -TWO31 <= r < TWO31
  {
    if x < TWO31 then x else x - TWO32
  }

  /** The value of a 64-bit pattern read as `int64` or `int`. */
  function Signed64(x: nat): (r: int)
    requires x < TWO64
    ensures -TWO63 <= r < TWO63
  {
    if x < TWO63 then x else x - TWO64
  }

  /** `uint64(n)`: sign extension to a 64-bit pattern. */
  function Unsigned64(n: int): (r: nat)
    requires -TWO63 <= n < TWO63
    ensures r < TWO64
  {
    if n >= 0 then n else n + TWO64
  }

  /** `x + y` on Go's `int`. */
  function WrapAdd(x: int, y: int): (r: int)
    requires -TWO63 <= x < TWO63 && -TWO63 <= y < TWO63
    ensures -TWO63 <= r < TWO63
  {
    if x + y >= TWO63 then x + y - TWO64 else if x + y < -TWO63 then x + y + TWO64 else x + y
  }

  lemma {:induction false} ShiftBySeven(x: nat, n: nat)
    ensures ShiftLeft(x, n + 7) == 128 * ShiftLeft(x, n)
  {
    assert ShiftLeft(x, n + 2) == 4 * ShiftLeft(x, n);
    assert ShiftLeft(x, n + 4) == 4 * ShiftLeft(x, n + 2);
    assert ShiftLeft(x, n + 6) == 4 * ShiftLeft(x, n + 4);
  }

  lemma Pow2Seven(n: nat)
    ensures Pow2(n + 7) == 128 * Pow2(n)
  {
    ShiftBySeven(1, n);
  }

  lemma Pow2Values()
    ensures Pow2(7) == 128 && Pow2(32) == TWO32 && Pow2(63) == TWO63 && Pow2(64) == TWO64
  {
    Pow2Seven(0);
    Pow2Seven(7);
    Pow2Seven(14);
    Pow2Seven(21);
    assert Pow2(32) == 16 * Pow2(28);
    Pow2Seven(28);
    Pow2Seven(35);
    Pow2Seven(42);
    Pow2Seven(49);
    Pow2Seven(56);
  }

  lemma {:induction false} Pow2Mono(a: nat, b: nat)
    requires a <= b
    ensures 1 <= Pow2(a) <= Pow2(b)
    decreases a + b
  {
    if a < b { Pow2Mono(a, b - 1); } else if a > 0 { Pow2Mono(a - 1, b - 1); }
  }

  lemma {:induction false} ShiftAdd(x: nat, y: nat, s: nat)
    ensures ShiftLeft(x + y, s) == ShiftLeft(x, s) + ShiftLeft(y, s)
  {
    if s > 0 { ShiftAdd(x, y, s - 1); }
  }

  lemma {:induction false} ShiftShift(x: nat, t: nat, s: nat)
    ensures ShiftLeft(ShiftLeft(x, t), s) == ShiftLeft(x, s + t)
  {
    if s > 0 { ShiftShift(x, t, s - 1); }
  }

  lemma ShiftSeven(x: nat, s: nat)
    ensures ShiftLeft(128 * x, s) == ShiftLeft(x, s + 7)
  {
    ShiftShift(x, 7, s);
    ShiftBySeven(x, 0);
  }

  /** A further group of seven bits stays below the next shift. */
  lemma GroupBelow(low: nat, g: nat, s: nat)
    requires low < Pow2(s) && g < 128
    ensures low + ShiftLeft(g, s) < Pow2(s + 7)
  {
    ShiftAdd(1, g, s);
    ShiftAdd(g + 1, 127 - g, s);
    ShiftSeven(1, s);
  }

  lemma TruncateEven(n: nat, w: nat)
    ensures Truncate(2 * n, w + 1) == 2 * Truncate(n, w)
  {
  }

  /** Or-ing in bits above every bit of `low` adds them, whatever the width drops. */
  lemma {:induction false} OrIsAdd(low: nat, g: nat, s: nat, w: nat)
    requires low < Pow2(s)
    ensures BitOr(Truncate(low, w), Truncate(ShiftLeft(g, s), w)) == Truncate(low + ShiftLeft(g, s), w)
  {
    if s == 0 {
      TruncateZero(w);
    } else if w > 0 {
      var top := ShiftLeft(g, s - 1);
      OrIsAdd(low / 2, g, s - 1, w - 1);
      TruncateEven(top, w - 1);
      assert (low + 2 * top) / 2 == low / 2 + top;
      OrEven(low % 2, Truncate(low / 2, w - 1), Truncate(top, w - 1));
    }
  }

  lemma {:induction false} TruncateZero(w: nat)
    ensures Truncate(0, w) == 0
  {
    if w > 0 { TruncateZero(w - 1); }
  }

  lemma OrEven(bit: nat, x: nat, y: nat)
    requires bit < 2
    ensures BitOr(bit + 2 * x, 2 * y) == bit + 2 * BitOr(x, y)
  {
    assert BitOr(0, y) == y && BitOr(x, 0) == x;
  }

  /** Keeping `w` bits is reduction modulo the width. */
  lemma {:induction false} TruncateIsMod(n: nat, w: nat)
    ensures Pow2(w) >= 1 && Truncate(n, w) == n % Pow2(w)
  {
    if w > 0 {
      TruncateIsMod(n / 2, w - 1);
      HalfMod(n, Pow2(w - 1));
    } else {
      assert n % 1 == 0;
    }
  }

  lemma TruncateWidths(n: nat)
    ensures Truncate(n, 64) == n % TWO64 && Truncate(n, 32) == n % TWO32
  {
    TruncateIsMod(n, 64);
    TruncateIsMod(n, 32);
    Pow2Values();
  }

  lemma HalfMod(n: nat, m: nat)
    requires m >= 1
    ensures n % (2 * m) == n % 2 + 2 * ((n / 2) % m)
  {
    var q, r := (n / 2) / m, (n / 2) % m;
    assert n / 2 == q * m + r;
    assert q * (2 * m) == 2 * (q * m);
    ModUnique(n, 2 * m, q, 2 * r + n % 2);
  }

  lemma ModUnique(n: int, m: int, q: int, r: int)
    requires n == q * m + r && 0 <= r < m
    ensures n % m == r && n / m == q
  {
    var k := n / m - q;
    assert n == (n / m) * m + n % m;
    assert k * m == r - n % m by { assert (n / m - q) * m == (n / m) * m - q * m; }
    assert k >= 1 ==> k * m >= m;
    assert k <= -1 ==> k * m <= -m;
  }

  lemma UnsignedIsMod(n: int)
    requires -TWO63 <= n < TWO63
    ensures Unsigned64(n) == n % TWO64
  {
    if n < 0 { ModUnique(n, TWO64, -1, n + TWO64); }
  }

  /** Sign extension and truncation back are inverse, at both widths. */
  lemma SignedRoundTrip(n: int)
    ensures -TWO63 <= n < TWO63 ==> Signed64(Unsigned64(n) % TWO64) == n
    ensures -TWO31 <= n < TWO31 ==> Signed32(Unsigned64(n) % TWO32) == n
  {
    if -TWO31 <= n < 0 {
      ModUnique(Unsigned64(n), TWO32, TWO32 - 1, n + TWO32);
    }
  }
}
