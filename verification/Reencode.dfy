/** How long the re-encoding of a decoded message is: never longer than the input, unless an `int32` is
    involved, and then at most eleven sixths of it. */
module Reencode {
  import opened Machine
  import opened Schema
  import opened Format
  import opened Records
  import opened RoundTrip
  import Varint
  import Skip

  predicate NoInt32(t: Table) {
    forall k :: 0 <= k < |t.fields| ==> KindNoInt32(t.fields[k].kind)
  }

  predicate KindNoInt32(kind: Kind) {
    !kind.KInt32? && ((kind.KMessage? || kind.KMessages?) ==> NoInt32(kind.sub))
  }

  // ----- What a record costs at least -----

  /** The shortest way to write a record that carries this payload. */
  function Cost(num: nat, p: Payload): nat {
    match p
    case Number(raw) => |EncodePayload(num, Number(raw % TWO64))|
    case Content(b) => |EncodePayload(num, p)|
  }

  lemma TagCost(raw: nat, num: nat)
    requires FieldNum(raw) == num > 0
    ensures 8 * num + Skip.WireType(raw) <= raw
  {
    Skip.WireTypeOfReduced(raw);
    var wire := raw % TWO64;
    assert num <= wire / 8;
  }

  lemma BodyCost(k: nat, kind: Kind, w: nat, d: bytes, j: nat, x: Parsed)
    requires Fits(d) && ParseKnown(k, kind, w, d, j) == Ok(x)
    ensures match x.rec.p
      case Number(raw) => w == 0 && |Varint.Encode(raw % TWO64)| <= x.next - j
      case Content(b) => w == 2 && |Varint.Encode(|b|)| + |b| <= x.next - j
  {
    Varint.ReadIsNoShorter(d, j);
  }

  /** A record that was parsed is no shorter than its shortest form, overlong varints and tags
      with bits beyond the field number included. */
  lemma ParseCost(t: Table, d: bytes, i: nat, k: nat, p: Cargo, next: nat)
    requires Fits(d) && ParseRecord(t, d, i) == Ok(Parsed(Known(k, p), next))
    ensures k < |t.fields| && Cost(t.fields[k].num, p) <= next - i
  {
    var r := Varint.Read(d, i, 0).value;
    var w, num := Skip.WireType(r.value), t.fields[k].num;
    Varint.ReadIsNoShorter(d, i);
    TagCost(r.value, num);
    Varint.EncodeMono(8 * num + w, r.value);
    BodyCost(k, t.fields[k].kind, w, d, r.next, Parsed(Known(k, p), next));
  }

  // ----- Sizes of fields -----

  function SizeAt(f: Field, v: Value): nat { |EncodePayloads(f.num, PayloadsOf(f.kind, v))| }

  lemma {:induction false} UpdateSizeFrom(t: Table, m: Msg, k: nat, v: Value, j: nat)
    requires j <= |t.fields| == |m.vals| && k < |t.fields|
    ensures |EncodeFrom(t, Msg(m.vals[k := v]), j)| ==
            |EncodeFrom(t, m, j)| + if j <= k then SizeAt(t.fields[k], v) - SizeAt(t.fields[k], m.vals[k]) else 0
    decreases |t.fields| - j
  {
    if j < |t.fields| { UpdateSizeFrom(t, m, k, v, j + 1); }
  }

  lemma {:induction false} ZeroSizeFrom(t: Table, j: nat)
    requires j <= |t.fields|
    ensures EncodeFrom(t, Zero(t), j) == []
    decreases |t.fields| - j
  {
    if j < |t.fields| { ZeroSizeFrom(t, j + 1); }
  }

  lemma {:induction false} AppendSize(num: nat, ps: seq<Payload>, p: Payload)
    ensures |EncodePayloads(num, ps + [p])| == |EncodePayloads(num, ps)| + |EncodePayload(num, p)|
    decreases |ps|
  {
    if ps == [] {
      assert ps + [p] == [p] && [p][1..] == [];
      assert EncodePayloads(num, [p]) == EncodePayload(num, p) + EncodePayloads(num, []);
    } else {
      assert (ps + [p])[1..] == ps[1..] + [p];
      AppendSize(num, ps[1..], p);
    }
  }

  lemma OneSize(num: nat, p: Payload)
    ensures |EncodePayloads(num, [p])| == |EncodePayload(num, p)|
  {
    assert [] + [p] == [p];
    AppendSize(num, [], p);
  }

  // ----- Growth -----

  /** The sixths that the re-encoding of `n` bytes may take. */
  function Sixths(noInt32: bool, n: nat): nat { if noInt32 then 6 * n else 11 * n }

  /** The factor of a nested message is that of the message around it, length and tag included. */
  lemma ContentGrown(num: nat, b: bytes, c: bytes, noInt32: bool)
    requires 6 * |c| <= Sixths(noInt32, |b|)
    ensures 6 * |EncodePayload(num, Content(c))| <= Sixths(noInt32, |EncodePayload(num, Content(b))|)
  {
    if noInt32 {
      Varint.EncodeMono(|c|, |b|);
    } else {
      Varint.EncodeMono(|c|, 2 * |b|);
      Varint.EncodeDouble(|b|);
    }
  }

  /** One longer record in place of two: the length of the sum is no longer than the two lengths. */
  lemma ContentMerged(num: nat, a: bytes, b: bytes, c: bytes, noInt32: bool)
    requires 6 * |c| <= 6 * |a| + Sixths(noInt32, |b|)
    ensures 6 * |EncodePayload(num, Content(c))|
            <= 6 * |EncodePayload(num, Content(a))| + Sixths(noInt32, |EncodePayload(num, Content(b))|)
  {
    if noInt32 {
      Varint.EncodeMono(|c|, |a| + |b|);
      Varint.EncodeSum(|a|, |b|);
    } else {
      Varint.EncodeMono(|c|, |a| + 2 * |b|);
      Varint.EncodeSum(|a|, 2 * |b|);
      Varint.EncodeDouble(|b|);
    }
  }

  lemma ScalarGrowth(f: Field, v: Value, p: Cargo, v': Value)
    requires f.kind.KBytes? || f.kind.KBool? || f.kind.KInt64?
    requires Apply(f.kind, v, p) == Ok(v')
    ensures SizeAt(f, v') <= Cost(f.num, p)
  {
    match f.kind
    case KBytes => OneSize(f.num, p);
    case KBool => OneSize(f.num, Number(1));
    case KInt64 =>
      SignedBack(p.raw % TWO64);
      OneSize(f.num, Number(p.raw % TWO64));
  }

  lemma SignedBack(x: nat)
    requires x < TWO64
    ensures Signed64(x) % TWO64 == x
  {
    if x >= TWO63 { ModUnique(x - TWO64, TWO64, -1, x); }
  }

  /** A negative `int32` took five bytes at least and takes ten; a positive one is no longer. */
  lemma Int32Growth(f: Field, v: Value, p: Cargo, v': Value)
    requires f.kind.KInt32? && Apply(f.kind, v, p) == Ok(v')
    ensures 6 * SizeAt(f, v') <= 11 * Cost(f.num, p)
  {
    var raw, low := p.raw % TWO64, p.raw % TWO32;
    LowBits(p.raw);
    if v'.n < 0 {
      FiveBytes(raw);
      Varint.EncodeAtMostTen(v'.n % TWO64);
      OneSize(f.num, Number(v'.n % TWO64));
    } else if v'.n > 0 {
      Varint.EncodeMono(low, raw);
      OneSize(f.num, Number(v'.n % TWO64));
    }
  }

  lemma LowBits(n: nat)
    ensures n % TWO32 <= n % TWO64
  {
    var q, r := n / TWO64, n % TWO64;
    assert n == (q * TWO32 + r / TWO32) * TWO32 + r % TWO32;
    ModUnique(n, TWO32, q * TWO32 + r / TWO32, r % TWO32);
  }

  lemma FiveBytes(n: nat)
    requires n >= TWO31
    ensures |Varint.Encode(n)| >= 5
  {
    Pow2Seven(0);
    Pow2Seven(7);
    Pow2Seven(14);
    Pow2Seven(21);
    Varint.EncodeAtLeast(n, 4);
  }

  lemma StringsGrowth(f: Field, v: Value, p: Cargo, v': Value)
    requires f.kind.KStrings? && Apply(f.kind, v, p) == Ok(v')
    ensures SizeAt(f, v') == SizeAt(f, v) + Cost(f.num, p)
  {
    assert PayloadsOf(f.kind, v') == PayloadsOf(f.kind, v) + [p];
    AppendSize(f.num, PayloadsOf(f.kind, v), p);
  }

  lemma {:induction false} ChildrenGrowth(f: Field, v: Value, p: Cargo, v': Value)
    requires f.kind.KMessages? && Apply(f.kind, v, p) == Ok(v')
    ensures 6 * SizeAt(f, v') <= 6 * SizeAt(f, v) + Sixths(KindNoInt32(f.kind), Cost(f.num, p))
    decreases f.kind, 0
  {
    var sub := f.kind.sub;
    var m := Decode(sub, Zero(sub), p.b, 0).value;
    ZeroTyped(sub);
    DecodeGrowth(sub, Zero(sub), p.b, 0);
    ZeroSizeFrom(sub, 0);
    ContentGrown(f.num, p.b, Encode(sub, m), NoInt32(sub));
    assert PayloadsOf(f.kind, v') == PayloadsOf(f.kind, v) + [Content(Encode(sub, m))];
    AppendSize(f.num, PayloadsOf(f.kind, v), Content(Encode(sub, m)));
  }

  lemma {:induction false} ChildGrowth(f: Field, v: Value, p: Cargo, v': Value)
    requires f.kind.KMessage? && Apply(f.kind, v, p) == Ok(v')
    requires TypedValue(f.kind, v)
    ensures 6 * SizeAt(f, v') <= 6 * SizeAt(f, v) + Sixths(KindNoInt32(f.kind), Cost(f.num, p))
    decreases f.kind, 0
  {
    var sub := f.kind.sub;
    var base := Base(sub, v);
    var m := Decode(sub, base, p.b, 0).value;
    ZeroTyped(sub);
    DecodeGrowth(sub, base, p.b, 0);
    OneSize(f.num, Content(Encode(sub, m)));
    if v.m.Some? {
      OneSize(f.num, Content(Encode(sub, base)));
      ContentMerged(f.num, Encode(sub, base), p.b, Encode(sub, m), NoInt32(sub));
    } else {
      ZeroSizeFrom(sub, 0);
      ContentGrown(f.num, p.b, Encode(sub, m), NoInt32(sub));
    }
  }

  /** What one record adds to the size of a field. */
  lemma {:induction false} ApplyGrowth(f: Field, v: Value, p: Cargo, v': Value)
    requires Apply(f.kind, v, p) == Ok(v') && TypedValue(f.kind, v)
    ensures 6 * SizeAt(f, v') <= 6 * SizeAt(f, v) + Sixths(KindNoInt32(f.kind), Cost(f.num, p))
    decreases f.kind, 1
  {
    match f.kind
    case KInt32 => Int32Growth(f, v, p, v');
    case KStrings => StringsGrowth(f, v, p, v');
    case KMessages(_) => ChildrenGrowth(f, v, p, v');
    case KMessage(_) => ChildGrowth(f, v, p, v');
    case _ => ScalarGrowth(f, v, p, v');
  }

  /** Decoding makes a message longer by at most the input, or by eleven sixths of it with an `int32`. */
  lemma {:induction false} DecodeGrowth(t: Table, m: Msg, d: bytes, i: nat)
    requires Typed(t, m) && Fits(d) && i <= |d| && Decode(t, m, d, i).Ok?
    ensures 6 * |Encode(t, Decode(t, m, d, i).value)| <= 6 * |Encode(t, m)| + Sixths(NoInt32(t), |d| - i)
    decreases t, |d| - i
  {
    if i < |d| {
      var x := ParseRecord(t, d, i).value;
      match x.rec
      case Unknown =>
        DecodeGrowth(t, m, d, x.next);
        StepCost(true, NoInt32(t), 0, x.next - i, |d| - x.next);
      case Known(k, p) =>
        var f, v := t.fields[k], m.vals[k];
        var v' := Apply(f.kind, v, p).value;
        ParseCost(t, d, i, k, p, x.next);
        ApplyGrowth(f, v, p, v');
        UpdateSizeFrom(t, m, k, v', 0);
        ApplyTyped(f.kind, v, p);
        DecodeGrowth(t, Msg(m.vals[k := v']), d, x.next);
        StepCost(KindNoInt32(f.kind), NoInt32(t), Cost(f.num, p), x.next - i, |d| - x.next);
    }
  }

  lemma StepCost(kindNoInt32: bool, noInt32: bool, cost: nat, step: nat, rest: nat)
    requires (noInt32 ==> kindNoInt32) && cost <= step
    ensures Sixths(kindNoInt32, cost) + Sixths(noInt32, rest) <= Sixths(noInt32, step + rest)
  {
  }

  /** Whatever is accepted, its re-encoding takes at most eleven sixths of the bytes. */
  lemma ReencodeGrowth(t: Table, d: bytes)
    requires Fits(d) && Decode(t, Zero(t), d, 0).Ok?
    ensures 6 * |Encode(t, Decode(t, Zero(t), d, 0).value)| <= Sixths(NoInt32(t), |d|)
  {
    ZeroTyped(t);
    ZeroSizeFrom(t, 0);
    DecodeGrowth(t, Zero(t), d, 0);
  }

  /** Any accepted input is at least as long as the encoding of the message it means, if no field
      reachable from the table is an `int32`. */
  lemma ReencodeNeverGrows(t: Table, d: bytes)
    requires NoInt32(t) && Fits(d) && Decode(t, Zero(t), d, 0).Ok?
    ensures |Encode(t, Decode(t, Zero(t), d, 0).value)| <= |d|
  {
    ReencodeGrowth(t, d);
  }

  /** The re-encoding of an accepted input is a canonical form: it means the same message, it is no
      longer, and two inputs have the same one exactly when they mean the same message. */
  lemma CanonicalForm(t: Table, d: bytes, d': bytes, m: Msg, m': Msg)
    requires WellFormed(t) && NoInt32(t) && Fits(d) && Fits(d')
    requires Decode(t, Zero(t), d, 0) == Ok(m) && Decode(t, Zero(t), d', 0) == Ok(m')
    ensures |Encode(t, m)| <= |d| && Decode(t, Zero(t), Encode(t, m), 0) == Ok(m)
    ensures Encode(t, m) == Encode(t, m') <==> m == m'
  {
    ZeroTyped(t);
    DecodeTyped(t, Zero(t), d, 0);
    DecodeTyped(t, Zero(t), d', 0);
    ReencodeNeverGrows(t, d);
    ReencodeNeverGrows(t, d');
    DecodeEncode(t, Zero(t), m);
    DecodeEncode(t, Zero(t), m');
    MergeIntoZero(t, m);
    MergeIntoZero(t, m');
  }

  // ----- With an int32 some input grows -----

  /** How deep the tables nest. */
  function Height(t: Table): nat
    decreases t, |t.fields| + 1
  {
    1 + HeightFrom(t, 0)
  }

  function HeightFrom(t: Table, k: nat): nat
    decreases t, |t.fields| - k
  {
    if k >= |t.fields| then 0
    else
      var rest, kind := HeightFrom(t, k + 1), t.fields[k].kind;
      var h := if kind.KMessage? || kind.KMessages? then Height(kind.sub) else 0;
      if h > rest then h else rest
  }

  lemma {:induction false} HeightOfSub(t: Table, j: nat, k: nat)
    requires j <= k < |t.fields| && (t.fields[k].kind.KMessage? || t.fields[k].kind.KMessages?)
    ensures Height(t.fields[k].kind.sub) <= HeightFrom(t, j)
    decreases k - j
  {
    if j < k { HeightOfSub(t, j + 1, k); }
  }

  /** A one-record input that sets entry `k` of the zero receiver to `v`. */
  lemma DecodeOne(t: Table, k: nat, p: Cargo, v: Value)
    requires WellFormed(t) && k < |t.fields| && Suits(t.fields[k].kind, p)
    requires Fits(EncodePayload(t.fields[k].num, p))
    requires Apply(t.fields[k].kind, ZeroValue(t.fields[k].kind), p) == Ok(v)
    ensures Decode(t, Zero(t), EncodePayload(t.fields[k].num, p), 0) == Ok(Msg(Zero(t).vals[k := v]))
    ensures |Encode(t, Msg(Zero(t).vals[k := v]))| == SizeAt(t.fields[k], v)
  {
    var d, m := EncodePayload(t.fields[k].num, p), Msg(Zero(t).vals[k := v]);
    OneRecord(t, k, p);
    DecodeIsFold(t, Zero(t), d);
    assert [Known(k, p)][1..] == [];
    assert ApplyAll(t, m, []) == Ok(m);
    UpdateSizeFrom(t, Zero(t), k, v, 0);
    ZeroSizeFrom(t, 0);
  }

  lemma RecordLength(num: nat, p: Payload)
    requires num <= MAX_FIELD && (p.Number? ==> p.raw < TWO64) && (p.Content? ==> Fits(p.b))
    ensures |EncodePayload(num, p)| <= 20 + if p.Content? then |p.b| else 0
  {
    Varint.EncodeAtMostTen(8 * num);
    Varint.EncodeAtMostTen(8 * num + 2);
    match p
    case Number(raw) => Varint.EncodeAtMostTen(raw);
    case Content(b) => Varint.EncodeAtMostTen(|b|);
  }

  /** The five bytes of 2^31 are read as the least `int32`, which takes ten. */
  lemma Int32Grows(num: nat)
    ensures |EncodePayload(num, Number(0x8000_0000))| < |EncodePayload(num, Number((-TWO31) % TWO64))|
  {
    Int32Length();
    TenBytes((-TWO31) % TWO64);
  }

  lemma GrowsHere(t: Table, k: nat) returns (d: bytes, m: Msg)
    requires WellFormed(t) && k < |t.fields| && t.fields[k].kind.KInt32?
    ensures |d| <= 20 && Decode(t, Zero(t), d, 0) == Ok(m) && |Encode(t, m)| > |d|
  {
    var num, p := t.fields[k].num, Number(0x8000_0000);
    var v := Int(-TWO31);
    RecordLength(num, p);
    DecodeOne(t, k, p, v);
    d, m := EncodePayload(num, p), Msg(Zero(t).vals[k := v]);
    Int32Grows(num);
    OneSize(num, Number((-TWO31) % TWO64));
  }

  /** The bound of eleven sixths is reached wherever an `int32` field has a one-byte tag. */
  lemma FullGrowth(t: Table, k: nat) returns (d: bytes, m: Msg)
    requires WellFormed(t) && k < |t.fields| && t.fields[k].kind.KInt32? && t.fields[k].num <= 15
    ensures |d| == 6 && Decode(t, Zero(t), d, 0) == Ok(m) && |Encode(t, m)| == 11
  {
    var num, p := t.fields[k].num, Number(0x8000_0000);
    var v := Int(-TWO31);
    WorstLengths(num);
    DecodeOne(t, k, p, v);
    d, m := EncodePayload(num, p), Msg(Zero(t).vals[k := v]);
    OneSize(num, Number((-TWO31) % TWO64));
  }

  lemma WorstLengths(num: nat)
    requires num <= 15
    ensures |EncodePayload(num, Number(0x8000_0000))| == 6
    ensures |EncodePayload(num, Number((-TWO31) % TWO64))| == 11
  {
    Int32Length();
    FiveBytes(0x8000_0000);
    TenBytes((-TWO31) % TWO64);
  }

  lemma Int32Length()
    ensures |Varint.Encode(0x8000_0000)| <= 5
  {
    Pow2Seven(28);
    Pow2Seven(21);
    Pow2Seven(14);
    Pow2Seven(7);
    Pow2Seven(0);
    Varint.EncodeShortest(0x8000_0000, 5);
  }

  lemma TenBytes(n: nat)
    requires TWO63 <= n < TWO64
    ensures |Varint.Encode(n)| == 10
  {
    Pow2Values();
    Varint.EncodeAtLeast(n, 9);
    Varint.EncodeAtMostTen(n);
  }

  /** Growth inside a nested message carries over to the message around it. */
  lemma GrowsAround(t: Table, k: nat, w: bytes, c: Msg) returns (d: bytes, m: Msg)
    requires WellFormed(t) && k < |t.fields| && (t.fields[k].kind.KMessage? || t.fields[k].kind.KMessages?)
    requires |w| + 20 < TWO63
    requires Decode(t.fields[k].kind.sub, Zero(t.fields[k].kind.sub), w, 0) == Ok(c)
    requires |Encode(t.fields[k].kind.sub, c)| > |w|
    ensures |d| <= |w| + 20 && Decode(t, Zero(t), d, 0) == Ok(m) && |Encode(t, m)| > |d|
  {
    var num, kind, p := t.fields[k].num, t.fields[k].kind, Content(w);
    var v := if kind.KMessage? then Child(Some(c)) else Children([c]);
    RecordLength(num, p);
    assert [] + [c] == [c];
    DecodeOne(t, k, p, v);
    d, m := EncodePayload(num, p), Msg(Zero(t).vals[k := v]);
    var e := Encode(kind.sub, c);
    assert PayloadsOf(kind, v) == [Content(e)];
    OneSize(num, Content(e));
    Varint.EncodeMono(|w|, |e|);
  }

  /** Some accepted input of the type has a longer re-encoding. */
  ghost predicate Grows(t: Table) {
    exists d: bytes, m: Msg :: Fits(d) && Decode(t, Zero(t), d, 0) == Ok(m) && |Encode(t, m)| > |d|
  }

  lemma {:induction false} SomeInputGrows(t: Table) returns (d: bytes, m: Msg)
    requires WellFormed(t) && !NoInt32(t) && Height(t) < TWO32
    ensures |d| <= 20 * Height(t) && Decode(t, Zero(t), d, 0) == Ok(m) && |Encode(t, m)| > |d|
    decreases t
  {
    var k :| 0 <= k < |t.fields| && !KindNoInt32(t.fields[k].kind);
    if t.fields[k].kind.KInt32? {
      d, m := GrowsHere(t, k);
    } else {
      var sub := t.fields[k].kind.sub;
      HeightOfSub(t, 0, k);
      var w, c := SomeInputGrows(sub);
      d, m := GrowsAround(t, k, w, c);
    }
  }

  /** Messages nest at most `h` deep. */
  predicate Nests(t: Table, h: nat) {
    h > 0 && forall k :: 0 <= k < |t.fields| ==> KindNests(t.fields[k].kind, h - 1)
  }

  predicate KindNests(kind: Kind, h: nat) { kind.KMessage? || kind.KMessages? ==> Nests(kind.sub, h) }

  lemma {:induction false} HeightOfNest(t: Table, h: nat, j: nat)
    requires Nests(t, h) && j <= |t.fields|
    ensures HeightFrom(t, j) <= h - 1
    decreases t, |t.fields| - j
  {
    if j < |t.fields| {
      var kind := t.fields[j].kind;
      assert KindNests(kind, h - 1);
      HeightOfNest(t, h, j + 1);
      if kind.KMessage? || kind.KMessages? { HeightOfNest(kind.sub, h - 1, 0); }
    }
  }

  /** Re-encoding never grows for any input of a message type if and only if no `int32` field can
      be reached from its table. */
  lemma NeverGrowsIffNoInt32(t: Table)
    requires WellFormed(t) && Height(t) < TWO32
    ensures NoInt32(t) <==>
      forall d: bytes, m: Msg :: Fits(d) && Decode(t, Zero(t), d, 0) == Ok(m) ==> |Encode(t, m)| <= |d|
  {
    if NoInt32(t) {
      forall d: bytes, m: Msg | Fits(d) && Decode(t, Zero(t), d, 0) == Ok(m)
        ensures |Encode(t, m)| <= |d|
      {
        ReencodeNeverGrows(t, d);
      }
    } else {
      var d, m := SomeInputGrows(t);
    }
  }
}
