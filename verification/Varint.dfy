/** Base 128 varints: the encoder, its size function, and the shift loop that reads them. */
module Varint {
  import opened Machine

  /** The canonical encoding of `v`, least significant group first. */
  function Encode(v: nat): (b: bytes)
    ensures |b| >= 1
  {
    if v < 0x80 then [v] else [v % 128 + 128] + Encode(v / 128)
  }

  /** `bits.Len64`: the number of bits needed to write `x`. */
  function Len64(x: nat): nat {
    if x == 0 then 0 else 1 + Len64(x / 2)
  }

  /** `sov`: the encoded size computed without encoding. */
  function Sov(x: nat): nat { (Len64(BitOr(x, 1)) + 6) / 7 }

  /** A varint as read: its unreduced value and the index of the byte after it. */
  datatype Raw = Raw(value: nat, next: nat)

  /** The groups from `d[i]` on, of which at most `10 - k` may follow. The eleventh
      group, at shift 70, is an overflow; reduction to a machine width is the caller's. */
  function Read(d: bytes, i: nat, k: nat): (r: Result<Raw>)
    requires k <= 10
    ensures r.Ok? ==> i < r.value.next <= |d| && r.value.next - i <= 10 - k
    decreases |d| - i
  {
    if k == 10 then Err(IntOverflow)
    else if i >= |d| then Err(UnexpectedEOF)
    else if d[i] < 0x80 then Ok(Raw(d[i], i + 1))
    else
      match Read(d, i + 1, k + 1)
      case Err(e) => Err(e)
      case Ok(r) => Ok(Raw(d[i] % 128 + 128 * r.value, r.next))
  }

  /** What the loop has gathered when it ends, by reading the last group or by an error. */
  function Gathered(d: bytes, i: nat, k: nat): nat
    requires k <= 10
    decreases 10 - k
  {
    if k == 10 || i >= |d| then 0
    else if d[i] < 0x80 then d[i]
    else d[i] % 128 + 128 * Gathered(d, i + 1, k + 1)
  }

  lemma {:induction false} GatheredIsRead(d: bytes, i: nat, k: nat)
    requires k <= 10 && Read(d, i, k).Ok?
    ensures Gathered(d, i, k) == Read(d, i, k).value.value
    decreases 10 - k
  {
    if d[i] >= 0x80 { GatheredIsRead(d, i + 1, k + 1); }
  }

  /** When a varint is read, and when it is refused: some byte among the first ten, and inside the input,
      is below 0x80; or ten bytes are there and none is; or the input ends before. */
  lemma {:induction false} ReadOutcome(d: bytes, i: nat, k: nat)
    requires k <= 10 && i <= |d|
    ensures Read(d, i, k).Ok? <==> exists j :: i <= j < |d| && j < i + (10 - k) && d[j] < 0x80
    ensures Read(d, i, k) == Err(IntOverflow) <==>
              i + (10 - k) <= |d| && forall j :: i <= j < i + (10 - k) ==> d[j] >= 0x80
    ensures Read(d, i, k) == Err(UnexpectedEOF) <==>
              |d| < i + (10 - k) && forall j :: i <= j < |d| ==> d[j] >= 0x80
    decreases 10 - k
  {
    if k < 10 && i < |d| && d[i] >= 0x80 { ReadOutcome(d, i + 1, k + 1); }
  }

  /** `v >> (7 * j)`. */
  function Above(v: nat, j: nat): nat { if j == 0 then v else Above(v / 128, j - 1) }

  lemma {:induction false} AboveIsQuotient(v: nat, j: nat)
    ensures Above(v, j) == v / Pow2(7 * j)
    decreases j
  {
    if j > 0 {
      AboveIsQuotient(v / 128, j - 1);
      Pow2Seven(7 * (j - 1));
      QuotientTwice(v, Pow2(7 * (j - 1)));
    }
  }

  lemma QuotientTwice(v: nat, m: nat)
    requires m > 0
    ensures v / 128 / m == v / (128 * m)
  {
    var q, r := v / 128 / m, v / 128 % m;
    var low := 128 * r + v % 128;
    assert v / 128 == q * m + r;
    assert v == q * (128 * m) + low;
    assert 128 * r <= 128 * (m - 1);
    ModUnique(v, 128 * m, q, low);
  }

  /** A varint that was read ends at its first byte below 0x80 and holds the groups of its bytes, least
      significant first. */
  lemma {:induction false} ReadDigits(d: bytes, i: nat, k: nat, j: nat)
    requires k <= 10 && Read(d, i, k).Ok? && i <= j < Read(d, i, k).value.next
    ensures d[j] < 0x80 <==> j + 1 == Read(d, i, k).value.next
    ensures Above(Read(d, i, k).value.value, j - i) % 128 == d[j] % 128
    decreases 10 - k
  {
    if j > i {
      ReadDigits(d, i + 1, k + 1, j);
      Cancel(d[i] % 128, Read(d, i + 1, k + 1).value.value);
    }
  }

  lemma Cancel(low: nat, high: nat)
    requires low < 128
    ensures (low + 128 * high) / 128 == high
  {
  }

  /** Byte `j` of an encoding is the group of seven bits at `7 * j`, marked if another one follows. */
  lemma {:induction false} EncodeDigits(v: nat, j: nat)
    requires j < |Encode(v)|
    ensures Encode(v)[j] == Above(v, j) % 128 + if j + 1 < |Encode(v)| then 128 else 0
    decreases j
  {
    if j > 0 { EncodeDigits(v / 128, j - 1); }
  }

  /** A varint that breaks off is what it would be, had a zero byte come next. */
  lemma {:induction false} GatheredEnds(d: bytes, i: nat, k: nat)
    requires k <= 10 && i <= |d| && Read(d, i, k) == Err(UnexpectedEOF)
    ensures Read(d + [0], i, k) == Ok(Raw(Gathered(d, i, k), |d| + 1))
    decreases 10 - k
  {
    if i < |d| { GatheredEnds(d, i + 1, k + 1); }
  }

  /** One that runs on is what it would be, had its tenth byte been its last. */
  lemma {:induction false} GatheredStops(d: bytes, i: nat, k: nat)
    requires k < 10 && Read(d, i, k) == Err(IntOverflow)
    ensures i + (10 - k) <= |d| && d[i + (9 - k)] >= 0x80
    ensures Read(d[..i + (9 - k)] + [d[i + (9 - k)] - 0x80], i, k) == Ok(Raw(Gathered(d, i, k), i + (10 - k)))
    decreases 10 - k
  {
    ReadOutcome(d, i, k);
    var e := d[..i + (9 - k)] + [d[i + (9 - k)] - 0x80];
    if k < 9 {
      GatheredStops(d, i + 1, k + 1);
      assert e[i] == d[i];
    } else {
      assert e[i] == d[i] - 0x80;
    }
  }

  /** A varint that was read carries at most seven bits a byte. */
  lemma {:induction false} ReadBounds(d: bytes, i: nat, k: nat)
    requires k <= 10 && Read(d, i, k).Ok?
    ensures var r := Read(d, i, k).value; r.value < Pow2(7 * (r.next - i))
    decreases 10 - k
  {
    var r := Read(d, i, k).value;
    if d[i] < 0x80 {
      Pow2Values();
    } else {
      ReadBounds(d, i + 1, k + 1);
      Pow2Seven(7 * (r.next - i - 1));
    }
  }

  /** Reading depends only on the bytes it consumes. */
  lemma {:induction false} ReadLocal(d: bytes, i: nat, d': bytes, i': nat, k: nat, r: Raw)
    requires k <= 10 && Read(d, i, k) == Ok(r)
    requires i' + (r.next - i) <= |d'| && d'[i'..i' + (r.next - i)] == d[i..r.next]
    ensures Read(d', i', k) == Ok(Raw(r.value, i' + (r.next - i)))
    decreases 10 - k
  {
    assert d'[i'] == d'[i'..i' + (r.next - i)][0] == d[i..r.next][0] == d[i];
    if d[i] >= 0x80 {
      var r' := Read(d, i + 1, k + 1).value;
      assert d'[i' + 1..i' + 1 + (r'.next - (i + 1))] == d'[i'..i' + (r.next - i)][1..];
      assert d[i + 1..r'.next] == d[i..r.next][1..];
      ReadLocal(d, i + 1, d', i' + 1, k + 1, r');
    }
  }

  /** The shift loop reads an encoded varint back and stops right after it. */
  lemma {:induction false} ReadEncoded(v: nat, d: bytes, i: nat, k: nat)
    requires k + |Encode(v)| <= 10 && i + |Encode(v)| <= |d|
    requires d[i..i + |Encode(v)|] == Encode(v)
    ensures Read(d, i, k) == Ok(Raw(v, i + |Encode(v)|))
    decreases v
  {
    assert d[i] == d[i..i + |Encode(v)|][0];
    if v >= 0x80 {
      assert d[i + 1..i + 1 + |Encode(v / 128)|] == d[i..i + |Encode(v)|][1..];
      ReadEncoded(v / 128, d, i + 1, k + 1);
    }
  }

  /** The canonical encoding is the shortest that can hold the value. */
  lemma {:induction false} EncodeShortest(v: nat, n: nat)
    requires n >= 1 && v < Pow2(7 * n)
    ensures |Encode(v)| <= n
    decreases n
  {
    Pow2Values();
    if v >= 0x80 {
      if n > 1 {
        Pow2Seven(7 * (n - 1));
        EncodeShortest(v / 128, n - 1);
      }
    }
  }

  lemma {:induction false} EncodeAtLeast(v: nat, n: nat)
    requires v >= Pow2(7 * n)
    ensures |Encode(v)| > n
    decreases n
  {
    if n > 0 {
      Pow2Seven(7 * (n - 1));
      Pow2Mono(0, 7 * (n - 1));
      EncodeAtLeast(v / 128, n - 1);
    }
  }

  lemma {:induction false} EncodeMono(a: nat, b: nat)
    requires a <= b
    ensures |Encode(a)| <= |Encode(b)|
    decreases b
  {
    if b >= 0x80 && a >= 0x80 {
      EncodeMono(a / 128, b / 128);
    }
  }

  /** One doubling costs at most one more byte. */
  lemma {:induction false} EncodeDouble(a: nat)
    ensures |Encode(2 * a)| <= |Encode(a)| + 1
    decreases a
  {
    if a >= 0x80 {
      EncodeMono((2 * a) / 128, 2 * (a / 128) + 1);
      EncodeDoubleOne(a / 128);
    } else {
      EncodeMono((2 * a) / 128, 1);
    }
  }

  lemma {:induction false} EncodeDoubleOne(a: nat)
    ensures |Encode(2 * a + 1)| <= |Encode(a)| + 1
    decreases a
  {
    if a >= 0x80 {
      EncodeDoubleOne(a / 128);
      EncodeMono((2 * a + 1) / 128, 2 * (a / 128) + 1);
    } else {
      EncodeMono((2 * a + 1) / 128, 1);
    }
  }

  /** The length of a sum of lengths is never longer than the two lengths. */
  lemma EncodeSum(a: nat, b: nat)
    ensures |Encode(a + b)| <= |Encode(a)| + |Encode(b)|
  {
    var m := if a < b then b else a;
    EncodeMono(a + b, 2 * m);
    EncodeDouble(m);
  }

  lemma EncodeAtMostTen(v: nat)
    requires v < TWO64
    ensures |Encode(v)| <= 10
  {
    Pow2Values();
    Pow2Mono(64, 70);
    EncodeShortest(v, 10);
  }

  lemma {:induction false} Len64Div(v: nat)
    requires v >= 0x80
    ensures Len64(v) == 7 + Len64(v / 128)
  {
    assert Len64(v) == 1 + Len64(v / 2);
    assert Len64(v / 2) == 1 + Len64(v / 4);
    assert Len64(v / 4) == 1 + Len64(v / 8);
    assert Len64(v / 8) == 1 + Len64(v / 16);
    assert Len64(v / 16) == 1 + Len64(v / 32);
    assert Len64(v / 32) == 1 + Len64(v / 64);
    assert Len64(v / 64) == 1 + Len64(v / 128);
  }

  lemma {:induction false} SovViaLen(v: nat)
    ensures Sov(v) == if v == 0 then 1 else (Len64(v) + 6) / 7
  {
    if v >= 1 {
      assert BitOr(v / 2, 0) == v / 2;
      assert BitOr(v, 1) / 2 == v / 2;
    }
  }

  /** `sov` is the length of the canonical encoding, for every value. */
  lemma {:induction false} SovIsLength(v: nat)
    ensures Sov(v) == |Encode(v)|
    decreases v
  {
    SovViaLen(v);
    if v >= 0x80 {
      Len64Div(v);
      SovIsLength(v / 128);
      SovViaLen(v / 128);
    } else if v >= 1 {
      Len64Small(v);
    }
  }

  lemma Len64Small(v: nat)
    requires 1 <= v < 0x80
    ensures 1 <= Len64(v) <= 7
  {
    Pow2Values();
    LenBelowPow(v, 7);
  }

  lemma {:induction false} LenBelowPow(v: nat, n: nat)
    requires v < Pow2(n)
    ensures Len64(v) <= n
    decreases n
  {
    if v != 0 { LenBelowPow(v / 2, n - 1); }
  }

  /** Every 64-bit value is read back from its own encoding, which has `Sov(v)` bytes, at
      most ten, and no byte string that reads as `v` is shorter. */
  lemma VarintInverse(v: nat, pre: bytes, post: bytes)
    requires v < TWO64
    ensures Read(pre + Encode(v) + post, |pre|, 0) == Ok(Raw(v, |pre| + Sov(v)))
    ensures 1 <= Sov(v) <= 10
    ensures forall d: bytes, i: nat :: Read(d, i, 0).Ok? && Read(d, i, 0).value.value % TWO64 == v
              ==> Sov(v) <= Read(d, i, 0).value.next - i
  {
    var d := pre + Encode(v) + post;
    SovIsLength(v);
    EncodeAtMostTen(v);
    assert d[|pre|..|pre| + |Encode(v)|] == Encode(v);
    ReadEncoded(v, d, |pre|, 0);
    forall d: bytes, i: nat | Read(d, i, 0).Ok? && Read(d, i, 0).value.value % TWO64 == v
      ensures Sov(v) <= Read(d, i, 0).value.next - i
    {
      ReadIsNoShorter(d, i);
    }
  }

  /** What was read is never shorter than the canonical encoding of its reduced value. */
  lemma ReadIsNoShorter(d: bytes, i: nat)
    requires Read(d, i, 0).Ok?
    ensures var r := Read(d, i, 0).value;
      |Encode(r.value % TWO64)| <= |Encode(r.value)| <= r.next - i
  {
    var r := Read(d, i, 0).value;
    ReadBounds(d, i, 0);
    EncodeShortest(r.value, r.next - i);
    EncodeMono(r.value % TWO64, r.value);
  }

  /** The size function as the code calls it. */
  method SovOf(x: nat) returns (n: nat)
    ensures n == |Encode(x)|
  {
    SovIsLength(x);
    n := Sov(x);
  }

  /** `encodeVarint`: writes `v` so that it ends just before `offset`. */
  method EncodeVarint(dAtA: array<byte>, offset: nat, v: nat) returns (base: nat)
    requires v < TWO64 && |Encode(v)| <= offset <= dAtA.Length
    modifies dAtA
    ensures base == offset - |Encode(v)|
    ensures dAtA[base..offset] == Encode(v)
    ensures dAtA[..base] == old(dAtA[..base]) && dAtA[offset..] == old(dAtA[offset..])
  {
    SovIsLength(v);
    base := offset - Sov(v);
    WriteForward(dAtA, base, v);
    assert dAtA[offset..] == old(dAtA[offset..]);
  }

  method WriteForward(dAtA: array<byte>, base: nat, v: nat)
    requires base + |Encode(v)| <= dAtA.Length
    modifies dAtA
    ensures dAtA[base..base + |Encode(v)|] == Encode(v)
    ensures forall j :: 0 <= j < base || base + |Encode(v)| <= j < dAtA.Length ==> dAtA[j] == old(dAtA[j])
  {
    var off, rest := base, v;
    ghost var e := Encode(v);
    while rest >= 0x80
      invariant base <= off < base + |e| && e[off - base..] == Encode(rest)
      invariant dAtA[base..off] == e[..off - base]
      invariant forall j :: 0 <= j < base || off <= j < dAtA.Length ==> dAtA[j] == old(dAtA[j])
      decreases rest
    {
      assert e[off - base + 1..] == Encode(rest)[1..];
      dAtA[off] := rest % 128 + 128;
      rest, off := rest / 128, off + 1;
    }
    dAtA[off] := rest;
  }

  /** The whole reading, from the groups before shift `s` and the reading of the rest. */
  function Gained(low: nat, s: nat, rest: Result<Raw>): Result<Raw> {
    match rest
    case Err(e) => Err(e)
    case Ok(x) => Ok(Raw(low + ShiftLeft(x.value, s), x.next))
  }

  /** One step of the loop gains the next group to the ones before it. */
  lemma GainStep(d: bytes, at: nat, low: nat, k: nat)
    requires k < 10 && at < |d| && low < Pow2(7 * k)
    ensures var low' := low + ShiftLeft(d[at] % 128, 7 * k);
      && low' < Pow2(7 * (k + 1))
      && Gained(low, 7 * k, Read(d, at, k)) ==
           if d[at] < 0x80 then Ok(Raw(low', at + 1))
           else Gained(low', 7 * (k + 1), Read(d, at + 1, k + 1))
  {
    var g := d[at] % 128;
    GroupBelow(low, g, 7 * k);
    if d[at] >= 0x80 && Read(d, at + 1, k + 1).Ok? {
      var x := Read(d, at + 1, k + 1).value.value;
      ShiftAdd(g, 128 * x, 7 * k);
      ShiftSeven(x, 7 * k);
    }
  }

  lemma GatherStep(d: bytes, at: nat, low: nat, k: nat)
    requires k < 10 && at < |d|
    ensures var low' := low + ShiftLeft(d[at] % 128, 7 * k);
      low + ShiftLeft(Gathered(d, at, k), 7 * k) ==
      if d[at] < 0x80 then low' else low' + ShiftLeft(Gathered(d, at + 1, k + 1), 7 * (k + 1))
  {
    if d[at] >= 0x80 {
      var x := Gathered(d, at + 1, k + 1);
      ShiftAdd(d[at] % 128, 128 * x, 7 * k);
      ShiftSeven(x, 7 * k);
    }
  }

  lemma {:induction false} ShiftZero(s: nat)
    ensures ShiftLeft(0, s) == 0
  {
    if s > 0 { ShiftZero(s - 1); }
  }

  /** The loop stands at `at` and shift `7 * k`, with `low` gathered. */
  ghost predicate SoFar(d: bytes, i: nat, at: nat, low: nat, k: nat) {
    && k <= 10 && low < Pow2(7 * k)
    && Read(d, i, 0) == Gained(low, 7 * k, Read(d, at, k))
    && Gathered(d, i, 0) == low + ShiftLeft(Gathered(d, at, k), 7 * k)
  }

  lemma SoFarStep(d: bytes, i: nat, at: nat, low: nat, k: nat)
    requires SoFar(d, i, at, low, k) && k < 10 && at < |d|
    ensures var low' := low + ShiftLeft(d[at] % 128, 7 * k);
      if d[at] < 0x80 then Read(d, i, 0) == Ok(Raw(low', at + 1)) && Gathered(d, i, 0) == low'
      else SoFar(d, i, at + 1, low', k + 1)
  {
    GainStep(d, at, low, k);
    GatherStep(d, at, low, k);
  }

  lemma SoFarEnds(d: bytes, i: nat, at: nat, low: nat, k: nat)
    requires SoFar(d, i, at, low, k) && (k == 10 || at >= |d|)
    ensures Read(d, i, 0) == Err(if k == 10 then IntOverflow else UnexpectedEOF) && Gathered(d, i, 0) == low
  {
    ShiftZero(7 * k);
  }

  /** A reading as a pattern of `w` bits holds it. */
  function Reduced(r: Result<Raw>, w: nat): Result<Raw> {
    match r
    case Err(e) => Err(e)
    case Ok(x) => Ok(Raw(Truncate(x.value, w), x.next))
  }

  /** `acc |= group << shift`, in an accumulator of `w` bits. */
  method OrGroup(ghost low: nat, acc: nat, group: nat, shift: nat, w: nat) returns (acc': nat)
    requires low < Pow2(shift) && acc == Truncate(low, w)
    ensures acc' == Truncate(low + ShiftLeft(group, shift), w)
  {
    OrIsAdd(low, group, shift, w);
    acc' := BitOr(acc, Truncate(ShiftLeft(group, shift), w));
  }

  /** The shift loop, accumulating into an unsigned pattern of `w` bits: 64 for `uint64`,
      `int` and `int64`, 32 for `int32`, whose shifts past the width drop out. The accumulator is
      left as it is when an error ends the loop. */
  method ReadShifted(d: bytes, i: nat, w: nat) returns (r: Result<Raw>, acc: nat)
    ensures r == Reduced(Read(d, i, 0), w)
    ensures acc == Truncate(Gathered(d, i, 0), w)
  {
    var at, shift := i, 0;
    acc := 0;
    ghost var k: nat, low: nat := 0, 0;
    TruncateZero(w);
    while true
      invariant k <= 10 && at == i + k && shift == 7 * k
      invariant SoFar(d, i, at, low, k) && acc == Truncate(low, w)
      decreases 10 - k
    {
      if shift >= 64 || at >= |d| {
        SoFarEnds(d, i, at, low, k);
        return Err(if shift >= 64 then IntOverflow else UnexpectedEOF), acc;
      }
      var b := d[at];
      SoFarStep(d, i, at, low, k);
      acc := OrGroup(low, acc, b % 128, shift, w);
      at, low := at + 1, low + ShiftLeft(b % 128, shift);
      if b < 0x80 { return Ok(Raw(acc, at)), acc; }
      shift, k := shift + 7, k + 1;
    }
  }
}
