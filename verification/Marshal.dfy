/** The encoder as generated: a size pre-pass, then one pass that fills a buffer from its end. */
module Marshal {
  import opened Machine
  import opened Schema
  import opened Format
  import opened RoundTrip
  import Varint
  import Wire

  // ----- Size -----

  method ContentSize(num: nat, b: bytes) returns (n: nat)
    ensures n == |EncodePayload(num, Content(b))|
  {
    Varint.SovIsLength(|b|);
    n := |Tag(num, 2)| + |b| + Varint.Sov(|b|);
  }

  /** What one field adds to `n`. */
  method FieldSize(f: Field, v: Value) returns (n: nat)
    requires TypedValue(f.kind, v)
    ensures n == |EncodePayloads(f.num, PayloadsOf(f.kind, v))|
    decreases f, 1
  {
    match f.kind
    case KBytes =>
      n := 0;
      if |v.b| > 0 {
        n := ContentSize(f.num, v.b);
        SingleSize(f.num, Content(v.b));
      }
    case KBool =>
      n := 0;
      if v.v {
        n := |Tag(f.num, 0)| + 1;
        SingleSize(f.num, Number(1));
      }
    case KInt32 =>
      n := 0;
      if v.n != 0 {
        Varint.SovIsLength(v.n % TWO64);
        n := |Tag(f.num, 0)| + Varint.Sov(v.n % TWO64);
        SingleSize(f.num, Number(v.n % TWO64));
      }
    case KInt64 =>
      n := 0;
      if v.n != 0 {
        Varint.SovIsLength(v.n % TWO64);
        n := |Tag(f.num, 0)| + Varint.Sov(v.n % TWO64);
        SingleSize(f.num, Number(v.n % TWO64));
      }
    case KStrings => n := StringsSize(f, v);
    case KMessage(sub) =>
      n := 0;
      if v.m.Some? {
        var l := Size(sub, v.m.value);
        Varint.SovIsLength(l);
        n := |Tag(f.num, 2)| + l + Varint.Sov(l);
        SingleSize(f.num, Content(Encode(sub, v.m.value)));
      }
    case KMessages(_) => n := ChildrenSize(f, v);
  }

  lemma SingleSize(num: nat, p: Payload)
    ensures EncodePayloads(num, [p]) == EncodePayload(num, p)
  {
    assert [p][1..] == [];
    assert EncodePayload(num, p) + [] == EncodePayload(num, p);
  }

  lemma DropHead(num: nat, ps: seq<Payload>, j: nat)
    requires j < |ps|
    ensures EncodePayloads(num, ps[j..]) == EncodePayload(num, ps[j]) + EncodePayloads(num, ps[j + 1..])
  {
    assert ps[j..][1..] == ps[j + 1..];
  }

  method StringsSize(f: Field, v: Value) returns (n: nat)
    requires f.kind.KStrings? && TypedValue(f.kind, v)
    ensures n == |EncodePayloads(f.num, PayloadsOf(f.kind, v))|
  {
    ghost var ps := PayloadsOf(f.kind, v);
    n := 0;
    assert ps[0..] == ps;
    for j := 0 to |v.ss|
      invariant n + |EncodePayloads(f.num, ps[j..])| == |EncodePayloads(f.num, ps)|
    {
      DropHead(f.num, ps, j);
      var l := ContentSize(f.num, v.ss[j]);
      n := n + l;
    }
  }

  method ChildrenSize(f: Field, v: Value) returns (n: nat)
    requires f.kind.KMessages? && TypedValue(f.kind, v)
    ensures n == |EncodePayloads(f.num, PayloadsOf(f.kind, v))|
    decreases f, 0
  {
    ghost var ps := PayloadsOf(f.kind, v);
    n := 0;
    assert ps[0..] == ps;
    for j := 0 to |v.ms|
      invariant n + |EncodePayloads(f.num, ps[j..])| == |EncodePayloads(f.num, ps)|
    {
      DropHead(f.num, ps, j);
      var l := Size(f.kind.sub, v.ms[j]);
      Varint.SovIsLength(l);
      n := n + |Tag(f.num, 2)| + l + Varint.Sov(l);
    }
  }

  /** `Size` is the exact length of the encoding. */
  method Size(t: Table, m: Msg) returns (n: nat)
    requires Typed(t, m)
    ensures n == |Encode(t, m)|
    decreases t, 1
  {
    n := 0;
    for k := 0 to |t.fields|
      invariant n + |EncodeFrom(t, m, k)| == |Encode(t, m)|
    {
      var l := FieldSize(t.fields[k], m.vals[k]);
      n := n + l;
    }
  }

  // ----- Filling a buffer backwards -----

  /** `now` is `was` with `b` in the place of `lo..hi`. */
  predicate Filled(now: bytes, was: bytes, lo: nat, hi: nat, b: bytes) {
    |now| == |was| && lo + |b| == hi <= |was|
    && now[lo..hi] == b && now[..lo] == was[..lo] && now[hi..] == was[hi..]
  }

  /** Filling just before what was filled fills the concatenation. */
  lemma FilledBefore(s2: bytes, s1: bytes, s0: bytes, lo: nat, mid: nat, hi: nat, b2: bytes, b1: bytes)
    requires Filled(s1, s0, mid, hi, b1) && Filled(s2, s1, lo, mid, b2)
    ensures Filled(s2, s0, lo, hi, b2 + b1)
  {
    assert s2[mid..hi] == s2[mid..][..hi - mid] == s1[mid..][..hi - mid] == s1[mid..hi];
    assert s2[lo..hi] == s2[lo..mid] + s2[mid..hi];
    assert s2[hi..] == s2[mid..][hi - mid..] == s1[mid..][hi - mid..] == s1[hi..];
    assert s2[..lo] == s1[..lo] == s1[..mid][..lo] == s0[..mid][..lo] == s0[..lo];
  }

  lemma FilledNothing(s: bytes, i: nat)
    requires i <= |s|
    ensures Filled(s, s, i, i, [])
  {
  }

  /** The constant bytes of a tag, last byte first. */
  method PutTag(dAtA: array<byte>, end: nat, num: nat, wireType: nat) returns (i: nat)
    requires |Tag(num, wireType)| <= end <= dAtA.Length
    modifies dAtA
    ensures Filled(dAtA[..], old(dAtA[..]), i, end, Tag(num, wireType))
  {
    var tag := Tag(num, wireType);
    i := end;
    var j: nat := |tag|;
    while j > 0
      invariant j <= |tag| && i + (|tag| - j) == end
      invariant dAtA[i..end] == tag[j..]
      invariant dAtA[..i] == old(dAtA[..i]) && dAtA[end..] == old(dAtA[end..])
    {
      i, j := i - 1, j - 1;
      dAtA[i] := tag[j];
    }
  }

  method PutVarint(dAtA: array<byte>, end: nat, v: nat) returns (i: nat)
    requires v < TWO64 && |Varint.Encode(v)| <= end <= dAtA.Length
    modifies dAtA
    ensures Filled(dAtA[..], old(dAtA[..]), i, end, Varint.Encode(v))
  {
    i := Varint.EncodeVarint(dAtA, end, v);
  }

  /** `copy` of `b` into the bytes just before `end`. */
  method PutBytes(dAtA: array<byte>, end: nat, b: bytes) returns (i: nat)
    requires |b| <= end <= dAtA.Length
    modifies dAtA
    ensures Filled(dAtA[..], old(dAtA[..]), i, end, b)
  {
    i := end - |b|;
    forall j | 0 <= j < |b| {
      dAtA[i + j] := b[j];
    }
  }

  method PutNumber(dAtA: array<byte>, end: nat, num: nat, raw: nat) returns (i: nat)
    requires raw < TWO64 && |EncodePayload(num, Number(raw))| <= end <= dAtA.Length
    modifies dAtA
    ensures Filled(dAtA[..], old(dAtA[..]), i, end, EncodePayload(num, Number(raw)))
  {
    ghost var s0 := dAtA[..];
    var j := PutVarint(dAtA, end, raw);
    ghost var s1 := dAtA[..];
    i := PutTag(dAtA, j, num, 0);
    FilledBefore(dAtA[..], s1, s0, i, j, end, Tag(num, 0), Varint.Encode(raw));
  }

  method PutLength(dAtA: array<byte>, ghost s0: bytes, j: nat, end: nat, ghost b: bytes) returns (i: nat)
    requires |s0| == dAtA.Length && Filled(dAtA[..], s0, j, end, b)
    requires |Varint.Encode(|b|)| + |b| <= end < TWO63
    modifies dAtA
    ensures Filled(dAtA[..], s0, i, end, Varint.Encode(|b|) + b)
  {
    ghost var s1 := dAtA[..];
    i := PutVarint(dAtA, j, end - j);
    FilledBefore(dAtA[..], s1, s0, i, j, end, Varint.Encode(|b|), b);
  }

  /** The length and tag in front of `b`, which already stands at `j..end`. */
  method PutHeader(dAtA: array<byte>, ghost s0: bytes, j: nat, end: nat, num: nat, ghost b: bytes)
    returns (i: nat)
    requires |s0| == dAtA.Length && Filled(dAtA[..], s0, j, end, b)
    requires |EncodePayload(num, Content(b))| <= end < TWO63
    modifies dAtA
    ensures Filled(dAtA[..], s0, i, end, EncodePayload(num, Content(b)))
  {
    PayloadSplits(num, Content(b));
    var at := PutLength(dAtA, s0, j, end, b);
    ghost var s1 := dAtA[..];
    i := PutTag(dAtA, at, num, 2);
    FilledBefore(dAtA[..], s1, s0, i, at, end, Tag(num, 2), Varint.Encode(|b|) + b);
  }

  method PutContent(dAtA: array<byte>, end: nat, num: nat, b: bytes) returns (i: nat)
    requires |EncodePayload(num, Content(b))| <= end <= dAtA.Length && end < TWO63
    modifies dAtA
    ensures Filled(dAtA[..], old(dAtA[..]), i, end, EncodePayload(num, Content(b)))
  {
    ghost var s0 := dAtA[..];
    var j := PutBytes(dAtA, end, b);
    i := PutHeader(dAtA, s0, j, end, num, b);
  }

  method PutChild(dAtA: array<byte>, end: nat, num: nat, sub: Table, m: Msg) returns (i: nat)
    requires Typed(sub, m) && |EncodePayload(num, Content(Encode(sub, m)))| <= end <= dAtA.Length && end < TWO63
    modifies dAtA
    ensures Filled(dAtA[..], old(dAtA[..]), i, end, EncodePayload(num, Content(Encode(sub, m))))
    decreases sub, 2
  {
    ghost var s0 := dAtA[..];
    var size := MarshalToSizedBuffer(sub, m, dAtA, end);
    i := PutHeader(dAtA, s0, end - size, end, num, Encode(sub, m));
  }

  method PutStrings(dAtA: array<byte>, end: nat, f: Field, v: Value) returns (i: nat)
    requires f.kind.KStrings? && TypedValue(f.kind, v)
    requires |EncodePayloads(f.num, PayloadsOf(f.kind, v))| <= end <= dAtA.Length && end < TWO63
    modifies dAtA
    ensures Filled(dAtA[..], old(dAtA[..]), i, end, EncodePayloads(f.num, PayloadsOf(f.kind, v)))
  {
    ghost var ps, s0 := PayloadsOf(f.kind, v), dAtA[..];
    assert ps[0..] == ps && ps[|ps|..] == [];
    i := end;
    FilledNothing(s0, end);
    var j: nat := |v.ss|;
    while j > 0
      invariant j <= |v.ss| && Filled(dAtA[..], s0, i, end, EncodePayloads(f.num, ps[j..]))
    {
      j := j - 1;
      Room(f.num, ps, j);
      ghost var s1, mid := dAtA[..], i;
      i := PutContent(dAtA, i, f.num, v.ss[j]);
      FilledBefore(dAtA[..], s1, s0, i, mid, end, EncodePayload(f.num, ps[j]), EncodePayloads(f.num, ps[j + 1..]));
    }
  }

  method PutChildren(dAtA: array<byte>, end: nat, f: Field, v: Value) returns (i: nat)
    requires f.kind.KMessages? && TypedValue(f.kind, v)
    requires |EncodePayloads(f.num, PayloadsOf(f.kind, v))| <= end <= dAtA.Length && end < TWO63
    modifies dAtA
    ensures Filled(dAtA[..], old(dAtA[..]), i, end, EncodePayloads(f.num, PayloadsOf(f.kind, v)))
    decreases f, 0
  {
    ghost var ps, s0 := PayloadsOf(f.kind, v), dAtA[..];
    assert ps[0..] == ps && ps[|ps|..] == [];
    i := end;
    FilledNothing(s0, end);
    var j: nat := |v.ms|;
    while j > 0
      invariant j <= |v.ms| && Filled(dAtA[..], s0, i, end, EncodePayloads(f.num, ps[j..]))
    {
      j := j - 1;
      Room(f.num, ps, j);
      ghost var s1, mid := dAtA[..], i;
      i := PutChild(dAtA, i, f.num, f.kind.sub, v.ms[j]);
      FilledBefore(dAtA[..], s1, s0, i, mid, end, EncodePayload(f.num, ps[j]), EncodePayloads(f.num, ps[j + 1..]));
    }
  }

  /** What is still to be written leaves room for the record before it. */
  lemma {:induction false} Room(num: nat, ps: seq<Payload>, j: nat)
    requires j < |ps|
    ensures EncodePayloads(num, ps[j..]) == EncodePayload(num, ps[j]) + EncodePayloads(num, ps[j + 1..])
    ensures |EncodePayload(num, ps[j])| + |EncodePayloads(num, ps[j + 1..])| <= |EncodePayloads(num, ps)|
    decreases j
  {
    DropHead(num, ps, j);
    if j > 0 {
      Room(num, ps, j - 1);
    } else {
      assert ps[0..] == ps;
    }
  }

  method PutInt(dAtA: array<byte>, end: nat, num: nat, n: int) returns (i: nat)
    requires -TWO63 <= n < TWO63 && |EncodePayload(num, Number(n % TWO64))| <= end <= dAtA.Length
    modifies dAtA
    ensures Filled(dAtA[..], old(dAtA[..]), i, end, EncodePayload(num, Number(n % TWO64)))
  {
    UnsignedIsMod(n);
    i := PutNumber(dAtA, end, num, Unsigned64(n));
  }

  /** What a scalar field is written as, by its bytes. */
  lemma ScalarWritten(num: nat, kind: Kind, v: Value)
    requires TypedValue(kind, v) && (kind.KBytes? || kind.KBool? || kind.KInt32? || kind.KInt64?)
    ensures var e := EncodePayloads(num, PayloadsOf(kind, v));
      && (kind.KBool? ==> e == if v.v then Tag(num, 0) + [1] else [])
      && (kind.KInt32? || kind.KInt64? ==>
            e == if v.n == 0 then [] else Tag(num, 0) + Varint.Encode(if v.n < 0 then v.n + TWO64 else v.n))
      && (kind.KBytes? ==> e == if v.b == [] then [] else Tag(num, 2) + Varint.Encode(|v.b|) + v.b)
  {
    match kind
    case KBool => Wire.BoolOnTheWire(num, v);
    case KBytes => Wire.StringOnTheWire(num, v);
    case _ => Wire.IntOnTheWire(num, kind, v);
  }

  /** The block of a scalar field. */
  method PutScalar(dAtA: array<byte>, end: nat, f: Field, v: Value) returns (i: nat)
    requires TypedValue(f.kind, v) && (f.kind.KBytes? || f.kind.KBool? || f.kind.KInt32? || f.kind.KInt64?)
    requires |EncodePayloads(f.num, PayloadsOf(f.kind, v))| <= end <= dAtA.Length && end < TWO63
    modifies dAtA
    ensures Filled(dAtA[..], old(dAtA[..]), i, end, EncodePayloads(f.num, PayloadsOf(f.kind, v)))
    ensures i <= end && (f.kind.KBool? ==> dAtA[i..end] == if v.v then Tag(f.num, 0) + [1] else [])
    ensures f.kind.KInt32? || f.kind.KInt64? ==>
              dAtA[i..end] == if v.n == 0 then []
                              else Tag(f.num, 0) + Varint.Encode(if v.n < 0 then v.n + TWO64 else v.n)
    ensures f.kind.KBytes? ==>
              dAtA[i..end] == if v.b == [] then [] else Tag(f.num, 2) + Varint.Encode(|v.b|) + v.b
  {
    ScalarWritten(f.num, f.kind, v);
    i := end;
    FilledNothing(dAtA[..], end);
    if f.kind.KBytes? {
      if |v.b| > 0 {
        SingleSize(f.num, Content(v.b));
        i := PutContent(dAtA, end, f.num, v.b);
      }
    } else if f.kind.KBool? {
      if v.v {
        SingleSize(f.num, Number(1));
        i := PutNumber(dAtA, end, f.num, 1);
      }
    } else if v.n != 0 {
      SingleSize(f.num, Number(v.n % TWO64));
      i := PutInt(dAtA, end, f.num, v.n);
    }
  }

  /** The block of one field. */
  method PutField(dAtA: array<byte>, end: nat, f: Field, v: Value) returns (i: nat)
    requires TypedValue(f.kind, v)
    requires |EncodePayloads(f.num, PayloadsOf(f.kind, v))| <= end <= dAtA.Length && end < TWO63
    modifies dAtA
    ensures Filled(dAtA[..], old(dAtA[..]), i, end, EncodePayloads(f.num, PayloadsOf(f.kind, v)))
    decreases f, 1
  {
    match f.kind
    case KStrings => i := PutStrings(dAtA, end, f, v);
    case KMessage(sub) =>
      i := end;
      FilledNothing(dAtA[..], end);
      if v.m.Some? {
        SingleSize(f.num, Content(Encode(sub, v.m.value)));
        i := PutChild(dAtA, end, f.num, sub, v.m.value);
      }
    case KMessages(_) => i := PutChildren(dAtA, end, f, v);
    case _ => i := PutScalar(dAtA, end, f, v);
  }

  lemma {:induction false} SuffixFits(t: Table, m: Msg, k: nat)
    requires k <= |t.fields| == |m.vals|
    ensures |EncodeFrom(t, m, k)| <= |Encode(t, m)|
    decreases k
  {
    if k > 0 { SuffixFits(t, m, k - 1); }
  }

  /** Fills `dAtA[..len]` from its end with the encoding of `m`, last field first, and returns how
      much it wrote; no other byte changes. */
  method MarshalToSizedBuffer(t: Table, m: Msg, dAtA: array<byte>, len: nat) returns (size: nat)
    requires Typed(t, m) && |Encode(t, m)| <= len <= dAtA.Length && len < TWO63
    modifies dAtA
    ensures size == |Encode(t, m)|
    ensures Filled(dAtA[..], old(dAtA[..]), len - size, len, Encode(t, m))
    decreases t, 1
  {
    ghost var s0 := dAtA[..];
    var i: nat, k: nat := len, |t.fields|;
    FilledNothing(s0, len);
    while k > 0
      invariant k <= |t.fields| && Filled(dAtA[..], s0, i, len, EncodeFrom(t, m, k))
    {
      SuffixFits(t, m, k - 1);
      k := k - 1;
      ghost var s1, mid := dAtA[..], i;
      i := PutField(dAtA, i, t.fields[k], m.vals[k]);
      FilledBefore(dAtA[..], s1, s0, i, mid, len, EncodePayloads(t.fields[k].num, PayloadsAt(t, m, k)),
                   EncodeFrom(t, m, k + 1));
    }
    size := len - i;
  }

  // ----- Entry points -----

  /** `Marshal`: a new buffer of exactly the encoded size. */
  method MarshalNew(t: Table, m: Msg) returns (dAtA: array<byte>, n: nat)
    requires Typed(t, m) && Fits(Encode(t, m))
    ensures fresh(dAtA) && n == dAtA.Length && dAtA[..] == Encode(t, m)
  {
    var size := Size(t, m);
    dAtA := new byte[size](_ => 0);
    n := MarshalToSizedBuffer(t, m, dAtA, size);
    assert dAtA[..] == dAtA[0..size];
  }

  /** `MarshalTo`: the encoding at the front of a larger buffer, the rest untouched. */
  method MarshalTo(t: Table, m: Msg, dAtA: array<byte>) returns (n: nat)
    requires Typed(t, m) && Fits(Encode(t, m)) && |Encode(t, m)| <= dAtA.Length
    modifies dAtA
    ensures n == |Encode(t, m)|
    ensures dAtA[..] == Encode(t, m) + old(dAtA[n..])
  {
    var size := Size(t, m);
    n := MarshalToSizedBuffer(t, m, dAtA, size);
    assert dAtA[..] == dAtA[0..size] + dAtA[size..];
  }

  /** What `XXX_Marshal` returns for a buffer of capacity `|was|`: it fills the end of the buffer and
      returns its front. */
  function FrontOfFilled(was: bytes, e: bytes): bytes
    requires |e| <= |was|
  {
    (was[..|was| - |e|] + e)[..|e|]
  }

  /** `XXX_Marshal` without the deterministic flag. */
  method XxxMarshal(t: Table, m: Msg, b: array<byte>) returns (n: nat)
    requires Typed(t, m) && |Encode(t, m)| <= b.Length < TWO63
    modifies b
    ensures n == |Encode(t, m)|
    ensures b[..n] == FrontOfFilled(old(b[..]), Encode(t, m))
  {
    n := MarshalToSizedBuffer(t, m, b, b.Length);
    assert b[..] == b[..b.Length - n] + b[b.Length - n..b.Length];
    assert b[..n] == b[..][..n];
  }

  /** `XXX_Marshal` returns the encoding, whatever the buffer held, if and only if the capacity is
      exactly the encoded size or there is nothing to write. */
  lemma XxxMarshalNeedsExactCapacity(e: bytes, capacity: nat)
    requires |e| <= capacity
    ensures (forall was: bytes :: |was| == capacity ==> FrontOfFilled(was, e) == e)
            <==> capacity == |e| || e == []
  {
    if capacity == |e| || e == [] {
      forall was: bytes | |was| == capacity ensures FrontOfFilled(was, e) == e {
        assert was[..0] + e == e;
      }
    } else {
      var other: byte := if e[0] == 0 then 1 else 0;
      var was := seq(capacity, _ => other);
      assert FrontOfFilled(was, e)[0] == was[0] != e[0];
    }
  }
}
