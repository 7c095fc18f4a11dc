/** The bytes themselves: what each record does to its field, how each value is written, and which error
    each malformed record gives, stated by the numbers on the wire. */
module Wire {
  import opened Machine
  import opened Schema
  import opened Format
  import opened Records
  import opened RoundTrip
  import opened Refusals
  import opened Laws
  import Varint
  import Skip

  // ----- Tags -----

  const TWO34: int := 0x4_0000_0000
  const TWO35: int := 0x8_0000_0000

  /** `tag` is a varint, canonical or not, whose low 35 bits are the field number and wire type. */
  predicate TagFor(tag: bytes, num: nat, w: nat) {
    Skip.Alone(tag).Some? && Skip.Alone(tag).value % TWO35 == 8 * num + w
  }

  /** The field number is cut out of bits 3 to 34, and is positive when bit 34 is clear and it is not 0. */
  lemma LowBits(raw: nat)
    ensures Skip.WireType(raw) == raw % TWO35 % 8
    ensures raw % TWO35 < TWO34 ==> FieldNum(raw) == raw % TWO35 / 8
    ensures raw % TWO35 >= TWO34 ==> FieldNum(raw) < 0
  {
    var q, r := raw / TWO35, raw % TWO35;
    var wire := raw % TWO64;
    ModUnique(raw, 8, q * 0x1_0000_0000 + r / 8, r % 8);
    assert TWO64 == TWO35 * 0x2000_0000;
    assert wire % TWO35 == r by { LowOfLow(raw); }
    var p := wire / TWO35;
    assert wire == p * TWO35 + r;
    ModUnique(wire, 8, p * 0x1_0000_0000 + r / 8, r % 8);
    ModUnique(wire / 8, TWO32, p, r / 8);
  }

  lemma LowOfLow(raw: nat)
    ensures raw % TWO64 % TWO35 == raw % TWO35
  {
    var q, r := raw / TWO64, raw % TWO64;
    var p, s := r / TWO35, r % TWO35;
    ModUnique(raw, TWO35, q * 0x2000_0000 + p, s);
  }

  lemma TagForTag(num: nat, w: nat)
    requires num <= MAX_FIELD && w < 8
    ensures TagFor(Tag(num, w), num, w)
  {
    var tag := Tag(num, w);
    assert tag[0..|tag|] == tag;
    TagReads(num, w, tag, 0);
  }

  /** A tag for the entry, and what follows it. */
  lemma AfterThatTag(t: Table, k: nat, tag: bytes, w: nat, rest: bytes)
    requires WellFormed(t) && k < |t.fields| && w < 8 && w != 4
    requires TagFor(tag, t.fields[k].num, w) && Fits(tag + rest)
    ensures ParseRecord(t, tag + rest, 0) == ParseKnown(k, t.fields[k].kind, w, tag + rest, |tag|)
  {
    var raw := Skip.Alone(tag).value;
    LowBits(raw);
    assert (tag + rest)[0..|tag|] == tag;
    Skip.ReadInside(tag, raw, tag + rest, 0);
    IndexOfField(t, k);
  }

  predicate Numeric(kind: Kind) { kind.KBool? || kind.KInt32? || kind.KInt64? }
  predicate Scalar(kind: Kind) { kind.KBytes? || Numeric(kind) }

  // ----- What a record does to its field -----

  /** The value a varint record leaves: the truth of its 64 bits, or the signed value of its low bits. */
  predicate Holds(kind: Kind, raw: nat, v: Value) {
    && (kind.KBool? ==> v.Bool? && (v.v <==> raw % TWO64 != 0))
    && (kind.KInt32? ==> v.Int? && -TWO31 <= v.n < TWO31 && (raw - v.n) % TWO32 == 0)
    && (kind.KInt64? ==> v.Int? && -TWO63 <= v.n < TWO63 && (raw - v.n) % TWO64 == 0)
  }

  lemma Signs(raw: nat)
    ensures (raw - Signed32(raw % TWO32)) % TWO32 == 0 && (raw - Signed64(raw % TWO64)) % TWO64 == 0
  {
    var q, r := raw / TWO32, raw % TWO32;
    ModUnique(raw - Signed32(r), TWO32, if r < TWO31 then q else q + 1, 0);
    var q', r' := raw / TWO64, raw % TWO64;
    ModUnique(raw - Signed64(r'), TWO64, if r' < TWO63 then q' else q' + 1, 0);
  }

  /** The extent of a length and its content. */
  lemma ContentIsThere(d: bytes, j: nat, l: bytes, b: bytes)
    requires Fits(d) && Skip.At(d, j, l + b) && j + |l| + |b| == |d| && Skip.IsLength(l, |b|)
    ensures ReadContent(d, j) == Ok(Piece(Content(b), |d|))
  {
    Skip.AtSplit(d, j, l, b);
    Skip.ReadInside(l, Skip.Alone(l).value, d, j);
    assert d[j + |l|..|d|] == b;
  }

  /** A record that was read goes to its field, and its field only. */
  lemma Applied(t: Table, k: nat, m: Msg, d: bytes, p: Cargo)
    requires Fits(d) && d != [] && k < |t.fields| == |m.vals|
    requires ParseRecord(t, d, 0) == Ok(Parsed(Known(k, p), |d|))
    ensures var r, v := Decode(t, m, d, 0), Apply(t.fields[k].kind, m.vals[k], p);
      if v.Err? then r == Err(v.error)
      else r.Ok? && |r.value.vals| == |t.fields| && OnlyAt(r.value, m, k) && r.value.vals[k] == v.value
  {
    Ahead(t, m, d, 0, Parsed(Known(k, p), |d|));
  }

  lemma ContentApplied(t: Table, k: nat, m: Msg, tag: bytes, l: bytes, b: bytes)
    requires WellFormed(t) && k < |t.fields| == |m.vals| && WireTypeOf(t.fields[k].kind) == 2
    requires TagFor(tag, t.fields[k].num, 2) && Skip.IsLength(l, |b|) && Fits(tag + (l + b)) && Fits(b)
    ensures var r, v := Decode(t, m, tag + (l + b), 0), Apply(t.fields[k].kind, m.vals[k], Content(b));
      if v.Err? then r == Err(v.error)
      else r.Ok? && |r.value.vals| == |t.fields| && OnlyAt(r.value, m, k) && r.value.vals[k] == v.value
  {
    var d := tag + (l + b);
    AfterThatTag(t, k, tag, 2, l + b);
    assert d[|tag|..|tag| + |l + b|] == l + b;
    ContentIsThere(d, |tag|, l, b);
    Applied(t, k, m, d, Content(b));
  }

  /** A varint record of a field is always accepted and leaves what its bits say, whatever the field held;
      no other field changes. */
  lemma NumberRecord(t: Table, k: nat, m: Msg, tag: bytes, e: bytes)
    requires WellFormed(t) && k < |t.fields| == |m.vals| && TagFor(tag, t.fields[k].num, 0) && Fits(tag + e)
    requires Numeric(t.fields[k].kind)
    requires Skip.Alone(e).Some?
    ensures var r := Decode(t, m, tag + e, 0);
      && r.Ok? && |r.value.vals| == |t.fields| && OnlyAt(r.value, m, k)
      && Holds(t.fields[k].kind, Skip.Alone(e).value, r.value.vals[k])
  {
    var d, raw := tag + e, Skip.Alone(e).value;
    AfterThatTag(t, k, tag, 0, e);
    assert d[|tag|..|tag| + |e|] == e;
    Skip.ReadInside(e, raw, d, |tag|);
    Applied(t, k, m, d, Number(raw));
    Signs(raw);
  }

  /** A length-delimited record of a string field replaces it, of a repeated string appends to it. */
  lemma StringRecord(t: Table, k: nat, m: Msg, tag: bytes, l: bytes, b: bytes)
    requires WellFormed(t) && k < |t.fields| == |m.vals| && TypedValue(t.fields[k].kind, m.vals[k])
    requires t.fields[k].kind == KBytes || t.fields[k].kind == KStrings
    requires TagFor(tag, t.fields[k].num, 2) && Skip.IsLength(l, |b|) && Fits(tag + (l + b)) && Fits(b)
    ensures var r := Decode(t, m, tag + (l + b), 0);
      && r.Ok? && |r.value.vals| == |t.fields| && OnlyAt(r.value, m, k)
      && r.value.vals[k] == if t.fields[k].kind == KBytes then Bytes(b) else Strings(m.vals[k].ss + [b])
  {
    ContentApplied(t, k, m, tag, l, b);
  }

  /** One of a list of messages is decoded into a new last element, and accepted exactly when its content
      is; so is one of a nested message, into the message that is there or an empty one. */
  lemma MessageRecord(t: Table, k: nat, m: Msg, tag: bytes, l: bytes, b: bytes)
    requires WellFormed(t) && k < |t.fields| == |m.vals| && TypedValue(t.fields[k].kind, m.vals[k])
    requires t.fields[k].kind.KMessage? || t.fields[k].kind.KMessages?
    requires TagFor(tag, t.fields[k].num, 2) && Skip.IsLength(l, |b|) && Fits(tag + (l + b)) && Fits(b)
    ensures var r, sub, v := Decode(t, m, tag + (l + b), 0), t.fields[k].kind.sub, m.vals[k];
      var c := Decode(sub, if v.Child? && v.m.Some? then v.m.value else Zero(sub), b, 0);
      && r.Ok? == c.Ok?
      && (r.Err? ==> r.error == c.error)
      && (r.Ok? ==> |r.value.vals| == |t.fields| && OnlyAt(r.value, m, k)
                    && r.value.vals[k] == if v.Child? then Child(Some(c.value)) else Children(v.ms + [c.value]))
  {
    ContentApplied(t, k, m, tag, l, b);
  }

  /** The last one wins: whatever was decoded before, and into whatever receiver, a record of a scalar
      field decides the value of its field alone, and touches nothing else. */
  lemma LastOneWins(t: Table, k: nat, r: bytes, p: Cargo, m: Msg, a: bytes, m': Msg, a': bytes)
    requires k < |t.fields| == |m.vals| == |m'.vals|
    requires Scalar(t.fields[k].kind)
    requires IsRecord(t, r) && RecordOf(t, r) == Known(k, p) && Fits(a + r) && Fits(a' + r)
    requires Decode(t, m, a, 0).Ok? && Decode(t, m', a', 0).Ok?
    ensures var z, z' := Decode(t, m, a + r, 0), Decode(t, m', a' + r, 0);
      && z.Ok? && z'.Ok? && |z.value.vals| == |t.fields| == |z'.value.vals|
      && OnlyAt(z.value, Decode(t, m, a, 0).value, k) && OnlyAt(z'.value, Decode(t, m', a', 0).value, k)
      && z'.value.vals[k] == z.value.vals[k]
  {
    OneMore(t, k, r, p, m, a);
    OneMore(t, k, r, p, m', a');
  }

  lemma OneMore(t: Table, k: nat, r: bytes, p: Cargo, m: Msg, a: bytes)
    requires k < |t.fields| == |m.vals| && Scalar(t.fields[k].kind)
    requires IsRecord(t, r) && RecordOf(t, r) == Known(k, p) && Fits(a + r) && Decode(t, m, a, 0).Ok?
    ensures var z := Decode(t, m, a + r, 0);
      && z.Ok? && |z.value.vals| == |t.fields| && OnlyAt(z.value, Decode(t, m, a, 0).value, k)
      && Ok(z.value.vals[k]) == Apply(t.fields[k].kind, ZeroValue(t.fields[k].kind), p)
  {
    DecodeLength(t, m, a);
    KnownShape(t, r);
    Applied(t, k, Decode(t, m, a, 0).value, r, p);
    DecodeConcat(t, m, a, r);
  }

  lemma DecodeLength(t: Table, m: Msg, a: bytes)
    requires Fits(a) && |m.vals| == |t.fields| && Decode(t, m, a, 0).Ok?
    ensures |Decode(t, m, a, 0).value.vals| == |t.fields|
  {
    BeforeDecodes(t, m, a, 0);
    BeforeLength(t, m, a, 0);
  }

  lemma KnownShape(t: Table, r: bytes)
    requires IsRecord(t, r) && RecordOf(t, r).Known?
    ensures var k := RecordOf(t, r).k;
      k < |t.fields| && (RecordOf(t, r).p.Number? <==> WireTypeOf(t.fields[k].kind) == 0)
  {
  }

  /** A record that carries an explicit default, one zero byte after its tag, leaves the default: it
      clears what earlier records or the receiver held. */
  lemma ExplicitDefault(t: Table, k: nat, m: Msg, a: bytes, tag: bytes)
    requires WellFormed(t) && Typed(t, m) && k < |t.fields| && Fits(a + (tag + [0])) && Decode(t, m, a, 0).Ok?
    requires Scalar(t.fields[k].kind)
    requires TagFor(tag, t.fields[k].num, if t.fields[k].kind.KBytes? then 2 else 0)
    ensures var z, left, kind := Decode(t, m, a + (tag + [0]), 0), Decode(t, m, a, 0).value, t.fields[k].kind;
      && z.Ok? && |z.value.vals| == |t.fields| && OnlyAt(z.value, left, k)
      && z.value.vals[k] == if kind.KBool? then Bool(false) else if kind.KBytes? then Bytes([]) else Int(0)
  {
    DecodeTyped(t, m, a, 0);
    DefaultRecord(t, k, Decode(t, m, a, 0).value, tag);
    DecodeConcat(t, m, a, tag + [0]);
  }

  lemma DefaultRecord(t: Table, k: nat, m: Msg, tag: bytes)
    requires WellFormed(t) && Typed(t, m) && k < |t.fields| && Fits(tag + [0])
    requires Scalar(t.fields[k].kind)
    requires TagFor(tag, t.fields[k].num, if t.fields[k].kind.KBytes? then 2 else 0)
    ensures var z, kind := Decode(t, m, tag + [0], 0), t.fields[k].kind;
      && z.Ok? && |z.value.vals| == |t.fields| && OnlyAt(z.value, m, k)
      && z.value.vals[k] == if kind.KBool? then Bool(false) else if kind.KBytes? then Bytes([]) else Int(0)
  {
    if t.fields[k].kind.KBytes? {
      assert TypedValue(t.fields[k].kind, m.vals[k]);
      EmptyString(t, k, m, tag);
    } else {
      ZeroNumber(t, k, m, tag);
    }
  }

  lemma ZeroNumber(t: Table, k: nat, m: Msg, tag: bytes)
    requires WellFormed(t) && k < |t.fields| == |m.vals| && Fits(tag + [0])
    requires Numeric(t.fields[k].kind) && TagFor(tag, t.fields[k].num, 0)
    ensures var z := Decode(t, m, tag + [0], 0);
      && z.Ok? && |z.value.vals| == |t.fields| && OnlyAt(z.value, m, k)
      && z.value.vals[k] == if t.fields[k].kind.KBool? then Bool(false) else Int(0)
  {
    assert Skip.Alone([0]) == Some(0);
    NumberRecord(t, k, m, tag, [0]);
  }

  lemma EmptyString(t: Table, k: nat, m: Msg, tag: bytes)
    requires WellFormed(t) && k < |t.fields| == |m.vals| && TypedValue(t.fields[k].kind, m.vals[k])
    requires t.fields[k].kind == KBytes && TagFor(tag, t.fields[k].num, 2) && Fits(tag + [0])
    ensures var z := Decode(t, m, tag + [0], 0);
      z.Ok? && |z.value.vals| == |t.fields| && OnlyAt(z.value, m, k) && z.value.vals[k] == Bytes([])
  {
    assert [0] + [] == [0] && Skip.Alone([0]) == Some(0);
    StringRecord(t, k, m, tag, [0], []);
  }

  /** The constant bytes of a slot are a tag of its field. */
  lemma SlotTag(t: Table, m: Msg, k: nat, kind: Kind, v: Value, tag: bytes)
    requires WellFormed(t) && Slot(t, m, k, kind, v, tag)
    ensures TagFor(tag, t.fields[k].num, WireTypeOf(kind))
  {
    TagForTag(t.fields[k].num, WireTypeOf(kind));
  }

  lemma SetOnly(z: Msg, m: Msg, k: nat, v: Value)
    requires OnlyAt(z, m, k) && k < |m.vals| && z.vals[k] == v
    ensures z == Msg(m.vals[k := v])
  {
    assert z.vals == m.vals[k := v];
  }

  /** A record with a slot's constant tag: a string, one of repeated strings, one of a list of messages, or
      an `int32`. */
  lemma StringIntoSlot(t: Table, m: Msg, k: nat, v: Value, tag: bytes, s: bytes)
    requires WellFormed(t) && Slot(t, m, k, KBytes, v, tag) && v.Bytes?
    requires Fits(tag + (Varint.Encode(|s|) + s)) && Fits(s)
    ensures Decode(t, m, tag + (Varint.Encode(|s|) + s), 0) == Ok(Msg(m.vals[k := Bytes(s)]))
  {
    SlotTag(t, m, k, KBytes, v, tag);
    LengthOf(s);
    StringRecord(t, k, m, tag, Varint.Encode(|s|), s);
    SetOnly(Decode(t, m, tag + (Varint.Encode(|s|) + s), 0).value, m, k, Bytes(s));
  }

  lemma ElementIntoSlot(t: Table, m: Msg, k: nat, v: Value, tag: bytes, s: bytes)
    requires WellFormed(t) && Slot(t, m, k, KStrings, v, tag) && v.Strings?
    requires Fits(tag + (Varint.Encode(|s|) + s)) && Fits(s)
    ensures Decode(t, m, tag + (Varint.Encode(|s|) + s), 0) == Ok(Msg(m.vals[k := Strings(v.ss + [s])]))
  {
    SlotTag(t, m, k, KStrings, v, tag);
    LengthOf(s);
    StringRecord(t, k, m, tag, Varint.Encode(|s|), s);
    SetOnly(Decode(t, m, tag + (Varint.Encode(|s|) + s), 0).value, m, k, Strings(v.ss + [s]));
  }

  lemma ChildIntoSlot(t: Table, m: Msg, k: nat, sub: Table, v: Value, tag: bytes, c: Msg)
    requires WellFormed(t) && Slot(t, m, k, KMessages(sub), v, tag) && TypedValue(KMessages(sub), v)
    requires WellFormed(sub) && Typed(sub, c)
    requires var b := Encode(sub, c); Fits(tag + (Varint.Encode(|b|) + b)) && Fits(b)
    ensures var b := Encode(sub, c);
      Decode(t, m, tag + (Varint.Encode(|b|) + b), 0) == Ok(Msg(m.vals[k := Children(v.ms + [c])]))
  {
    var b := Encode(sub, c);
    SlotTag(t, m, k, KMessages(sub), v, tag);
    LengthOf(b);
    RoundTripLaw(sub, c);
    MessageRecord(t, k, m, tag, Varint.Encode(|b|), b);
    SetOnly(Decode(t, m, tag + (Varint.Encode(|b|) + b), 0).value, m, k, Children(v.ms + [c]));
  }

  lemma Int32IntoSlot(t: Table, m: Msg, k: nat, v: Value, tag: bytes, e: bytes, n: int)
    requires WellFormed(t) && Slot(t, m, k, KInt32, v, tag) && Fits(tag + e) && Skip.Alone(e).Some?
    requires -TWO31 <= n < TWO31 && (Skip.Alone(e).value - n) % TWO32 == 0
    ensures Decode(t, m, tag + e, 0) == Ok(Msg(m.vals[k := Int(n)]))
  {
    SlotTag(t, m, k, KInt32, v, tag);
    NumberRecord(t, k, m, tag, e);
    var z := Decode(t, m, tag + e, 0).value;
    SameNumber(Skip.Alone(e).value, z.vals[k].n, n);
    SetOnly(z, m, k, Int(n));
  }

  lemma SameNumber(raw: nat, a: int, b: int)
    requires -TWO31 <= a < TWO31 && -TWO31 <= b < TWO31 && (raw - a) % TWO32 == 0 && (raw - b) % TWO32 == 0
    ensures a == b
  {
    var p, q := (raw - a) / TWO32, (raw - b) / TWO32;
    assert raw - a == p * TWO32 && raw - b == q * TWO32;
  }

  lemma LengthOf(s: bytes)
    requires Fits(s)
    ensures Skip.IsLength(Varint.Encode(|s|), |s|)
  {
    var l := Varint.Encode(|s|);
    assert l[0..|l|] == l;
    VarintReads(|s|, l, 0);
  }

  // ----- How a value is written -----

  /** A number as an unsigned 64-bit pattern: two's complement. */
  lemma Pattern(n: int)
    requires -TWO63 <= n < TWO63
    ensures n % TWO64 == if n < 0 then n + TWO64 else n
    ensures n < 0 ==> |Varint.Encode(n + TWO64)| == 10
  {
    if n < 0 {
      ModUnique(n, TWO64, -1, n + TWO64);
      Pow2Values();
      Varint.EncodeAtLeast(n + TWO64, 9);
      Varint.EncodeAtMostTen(n + TWO64);
    }
  }

  /** The bytes of a `bool`: nothing for false, the tag and a 1 for true. */
  lemma BoolOnTheWire(num: nat, v: Value)
    requires v.Bool?
    ensures EncodePayloads(num, PayloadsOf(KBool, v)) == if v.v then Tag(num, 0) + [1] else []
  {
    OneOnTheWire(num, PayloadsOf(KBool, v));
  }

  /** Of an integer: nothing for 0, else the tag and the varint of its two's complement over 64 bits, which
      has ten bytes when it is negative. */
  lemma IntOnTheWire(num: nat, kind: Kind, v: Value)
    requires (kind == KInt32 || kind == KInt64) && TypedValue(kind, v)
    ensures v.n == 0 ==> EncodePayloads(num, PayloadsOf(kind, v)) == []
    ensures v.n > 0 ==> EncodePayloads(num, PayloadsOf(kind, v)) == Tag(num, 0) + Varint.Encode(v.n)
    ensures v.n < 0 ==> EncodePayloads(num, PayloadsOf(kind, v)) == Tag(num, 0) + Varint.Encode(v.n + TWO64)
    ensures v.n < 0 ==> |Varint.Encode(v.n + TWO64)| == 10
  {
    Pattern(v.n);
    OneOnTheWire(num, PayloadsOf(kind, v));
  }

  /** Of a string: nothing when it is empty, else the tag, the length and the bytes. */
  lemma StringOnTheWire(num: nat, v: Value)
    requires v.Bytes?
    ensures EncodePayloads(num, PayloadsOf(KBytes, v)) ==
            if v.b == [] then [] else Tag(num, 2) + Varint.Encode(|v.b|) + v.b
  {
    OneOnTheWire(num, PayloadsOf(KBytes, v));
  }

  /** Of a nested message: nothing when it is nil, else the tag, the length and its encoding. */
  lemma ChildOnTheWire(num: nat, sub: Table, v: Value)
    requires v.Child?
    ensures v.m.None? ==> EncodePayloads(num, PayloadsOf(KMessage(sub), v)) == []
    ensures v.m.Some? ==>
              var c := Encode(sub, v.m.value);
              EncodePayloads(num, PayloadsOf(KMessage(sub), v)) == Tag(num, 2) + Varint.Encode(|c|) + c
  {
    OneOnTheWire(num, PayloadsOf(KMessage(sub), v));
  }

  /** Of repeated strings: tag, length and bytes for each, in order, empty ones too. */
  lemma StringsOnTheWire(num: nat, v: Value)
    requires v.Strings?
    ensures v.ss == [] ==> EncodePayloads(num, PayloadsOf(KStrings, v)) == []
    ensures v.ss != [] ==>
              var rest := EncodePayloads(num, PayloadsOf(KStrings, Strings(v.ss[1..])));
              EncodePayloads(num, PayloadsOf(KStrings, v)) == Tag(num, 2) + Varint.Encode(|v.ss[0]|) + v.ss[0] + rest
  {
    if v.ss != [] { assert PayloadsOf(KStrings, v)[1..] == PayloadsOf(KStrings, Strings(v.ss[1..])); }
  }

  /** Of repeated messages: tag, length and encoding for each, in order. */
  lemma ChildrenOnTheWire(num: nat, sub: Table, v: Value)
    requires v.Children?
    ensures v.ms == [] ==> EncodePayloads(num, PayloadsOf(KMessages(sub), v)) == []
    ensures v.ms != [] ==>
              var c := Encode(sub, v.ms[0]);
              var rest := EncodePayloads(num, PayloadsOf(KMessages(sub), Children(v.ms[1..])));
              EncodePayloads(num, PayloadsOf(KMessages(sub), v)) == Tag(num, 2) + Varint.Encode(|c|) + c + rest
  {
    if v.ms != [] {
      assert PayloadsOf(KMessages(sub), v)[1..] == PayloadsOf(KMessages(sub), Children(v.ms[1..]));
    }
  }

  lemma OneOnTheWire(num: nat, ps: seq<Payload>)
    requires |ps| <= 1
    ensures EncodePayloads(num, ps) == if ps == [] then [] else EncodePayload(num, ps[0])
  {
    if ps != [] { assert ps[1..] == []; }
  }

  /** A message is its fields' bytes one after another, by ascending field number, and nothing else. */
  lemma MessageOnTheWire(t: Table, m: Msg, k: nat)
    requires k <= |t.fields| == |m.vals|
    ensures Encode(t, m) == EncodeFrom(t, m, 0)
    ensures EncodeFrom(t, m, k) ==
            if k == |t.fields| then []
            else EncodePayloads(t.fields[k].num, PayloadsOf(t.fields[k].kind, m.vals[k])) + EncodeFrom(t, m, k + 1)
  {
  }

  /** The records of an encoding, as they are split off, are all of known fields, and their field numbers
      never decrease. */
  lemma AscendingRecords(t: Table, m: Msg) returns (rs: seq<Rec>)
    requires WellFormed(t) && Typed(t, m) && Fits(Encode(t, m))
    ensures Split(t, Encode(t, m)) == Ok(rs)
    ensures forall i :: 0 <= i < |rs| ==> rs[i].Known? && rs[i].k < |t.fields|
    ensures forall i, j :: 0 <= i < j < |rs| ==> t.fields[rs[i].k].num <= t.fields[rs[j].k].num
    ensures forall j: nat :: j < |t.fields| ==> Project(rs, j) == PayloadsAt(t, m, j)
  {
    TypedSuits(t, m);
    rs := SplitAscending(t, m, 0);
    var rs' := SplitEncoding(t, m, 0);
  }

  predicate Ascends(t: Table, rs: seq<Rec>, k: nat) {
    && (forall i :: 0 <= i < |rs| ==> rs[i].Known? && k <= rs[i].k < |t.fields|)
    && (forall i, j :: 0 <= i < j < |rs| ==> rs[i].k <= rs[j].k)
  }

  lemma {:induction false} SplitAscending(t: Table, m: Msg, k: nat) returns (rs: seq<Rec>)
    requires WellFormed(t) && MessageSuits(t, m) && k <= |t.fields| && Fits(EncodeFrom(t, m, k))
    ensures Split(t, EncodeFrom(t, m, k)) == Ok(rs) && Ascends(t, rs, k)
    decreases |t.fields| - k
  {
    if k == |t.fields| {
      rs := [];
    } else {
      var ps := PayloadsAt(t, m, k);
      var mine := SplitPayloads(t, k, ps);
      var rest := SplitAscending(t, m, k + 1);
      SplitConcat(t, EncodePayloads(t.fields[k].num, ps), EncodeFrom(t, m, k + 1), mine);
      rs := mine + rest;
    }
  }

  // ----- Which error a first record gives -----

  /** By its tag: an end tag, a number that is 0 or negative, or a wire type the field does not have. */
  lemma TagRefused(t: Table, m: Msg, tag: bytes, rest: bytes)
    requires WellFormed(t) && |m.vals| == |t.fields| && Skip.Alone(tag).Some? && Fits(tag + rest)
    ensures var x, r := Skip.Alone(tag).value % TWO35, Decode(t, m, tag + rest, 0);
      && (x % 8 == 4 ==> r == Err(EndGroupForNonGroup))
      && (x % 8 != 4 && (x < 8 || x >= TWO34) ==> r == Err(IllegalTag))
  {
    var raw := Skip.Alone(tag).value;
    LowBits(raw);
    assert (tag + rest)[0..|tag|] == tag;
    Skip.ReadInside(tag, raw, tag + rest, 0);
    if raw % TWO35 % 8 == 4 || raw % TWO35 < 8 || raw % TWO35 >= TWO34 { Stops(t, m, tag + rest, 0); }
  }

  lemma RefusedBody(t: Table, k: nat, m: Msg, tag: bytes, w: nat, rest: bytes)
    requires WellFormed(t) && |m.vals| == |t.fields| && k < |t.fields| && w < 8 && w != 4
    requires TagFor(tag, t.fields[k].num, w) && Fits(tag + rest)
    requires ParseKnown(k, t.fields[k].kind, w, tag + rest, |tag|).Err?
    ensures Decode(t, m, tag + rest, 0) == Err(ParseKnown(k, t.fields[k].kind, w, tag + rest, |tag|).error)
  {
    AfterThatTag(t, k, tag, w, rest);
    Stops(t, m, tag + rest, 0);
  }

  lemma WireTypeRefused(t: Table, k: nat, m: Msg, tag: bytes, w: nat, rest: bytes)
    requires WellFormed(t) && |m.vals| == |t.fields| && k < |t.fields| && w < 8 && w != 4
    requires TagFor(tag, t.fields[k].num, w) && Fits(tag + rest)
    requires w != if Numeric(t.fields[k].kind) then 0 else 2
    ensures Decode(t, m, tag + rest, 0) == Err(WrongWireType)
  {
    RefusedBody(t, k, m, tag, w, rest);
  }

  /** By its length: negative as an `int`, past the largest index, or past the end. */
  lemma LengthRefusedFirst(t: Table, k: nat, m: Msg, tag: bytes, l: bytes, rest: bytes, n: nat)
    requires WellFormed(t) && |m.vals| == |t.fields| && k < |t.fields|
    requires !Numeric(t.fields[k].kind)
    requires TagFor(tag, t.fields[k].num, 2) && Skip.IsLength(l, n) && Fits(tag + (l + rest)) && |rest| < n
    ensures Decode(t, m, tag + (l + rest), 0) ==
            Err(if |tag| + |l| + n >= TWO63 then InvalidLength else UnexpectedEOF)
  {
    LengthStands(tag, l, rest);
    LengthTooLong(tag + (l + rest), |tag|, l, n);
    KnownContent(k, t.fields[k].kind, tag + (l + rest), |tag|);
    RefusedBody(t, k, m, tag, 2, l + rest);
  }

  lemma LengthStands(tag: bytes, l: bytes, rest: bytes)
    ensures Skip.At(tag + (l + rest), |tag|, l)
  {
    assert (tag + (l + rest))[|tag|..|tag| + |l|] == l;
  }

  lemma KnownContent(k: nat, kind: Kind, d: bytes, j: nat)
    requires Fits(d) && WireTypeOf(kind) == 2 && ReadContent(d, j).Err?
    ensures ParseKnown(k, kind, 2, d, j) == Err(ReadContent(d, j).error)
  {
  }

  lemma LengthTooLong(d: bytes, j: nat, l: bytes, n: nat)
    requires Fits(d) && Skip.At(d, j, l) && Skip.IsLength(l, n) && |d| < j + |l| + n
    ensures ReadContent(d, j) == Err(if j + |l| + n >= TWO63 then InvalidLength else UnexpectedEOF)
  {
    Skip.ReadInside(l, Skip.Alone(l).value, d, j);
  }

  /** By a varint that does not end: of the tag, or after it. */
  lemma TagUnended(t: Table, m: Msg, d: bytes)
    requires |m.vals| == |t.fields| && Fits(d) && d != [] && forall j :: 0 <= j < |d| && j < 10 ==> d[j] >= 0x80
    ensures Decode(t, m, d, 0) == Err(if |d| < 10 then UnexpectedEOF else IntOverflow)
  {
    Varint.ReadOutcome(d, 0, 0);
    Stops(t, m, d, 0);
  }

  lemma BodyUnended(t: Table, k: nat, m: Msg, tag: bytes, rest: bytes)
    requires WellFormed(t) && |m.vals| == |t.fields| && k < |t.fields| && Fits(tag + rest)
    requires TagFor(tag, t.fields[k].num, if Numeric(t.fields[k].kind) then 0 else 2)
    requires forall j :: 0 <= j < |rest| && j < 10 ==> rest[j] >= 0x80
    ensures Decode(t, m, tag + rest, 0) == Err(if |rest| < 10 then UnexpectedEOF else IntOverflow)
  {
    var d := tag + rest;
    forall j | |tag| <= j < |d| && j < |tag| + 10 ensures d[j] >= 0x80 { assert d[j] == rest[j - |tag|]; }
    Varint.ReadOutcome(d, |tag|, 0);
    RefusedBody(t, k, m, tag, WireTypeOf(t.fields[k].kind), rest);
  }

  /** A field the message lacks: the scanner's error, or an end past the input, or the record is passed. */
  lemma UnknownSkipped(t: Table, m: Msg, tag: bytes, rest: bytes)
    requires |m.vals| == |t.fields| && Fits(tag + rest) && Skip.Alone(tag).Some?
    requires var x := Skip.Alone(tag).value % TWO35;
      x % 8 != 4 && 8 <= x < TWO34 && forall k :: 0 <= k < |t.fields| ==> t.fields[k].num != x / 8
    ensures var d, r := tag + rest, Skip.SkipFrom(tag + rest, 0);
      if r.Err? then Decode(t, m, d, 0) == Err(r.error)
      else if r.value > |d| then Decode(t, m, d, 0) == Err(UnexpectedEOF)
      else Decode(t, m, d, 0) == Decode(t, m, d, r.value)
  {
    var d := tag + rest;
    var raw := Skip.Alone(tag).value;
    LowBits(raw);
    assert d[0..|tag|] == tag && d[0..] == d;
    Skip.ReadInside(tag, raw, d, 0);
    assert IndexOf(t.fields, FieldNum(raw)) == None;
    if ParseRecord(t, d, 0).Err? { Stops(t, m, d, 0); } else { Ahead(t, m, d, 0, ParseRecord(t, d, 0).value); }
  }

  // ----- What a failing record leaves -----

  /** A record that fails before its field is reached, by its tag, its wire type, its length or the scanner,
      leaves nothing: only an integer whose varint does not end is touched. */
  lemma BrokenElsewhere(t: Table, m: Msg, d: bytes)
    requires WellFormed(t) && |m.vals| == |t.fields| && Fits(d)
    requires var i := Before(t, m, d, 0).at;
      && i < |d| && ParseRecord(t, d, i).Err?
      && forall k: nat, j: nat :: !Breaks(t, d, i, k, j)
    ensures Left(t, m, d) == Before(t, m, d, 0).m
  {
    var h := Before(t, m, d, 0);
    BeforeLength(t, m, d, 0);
    NothingBroken(t, h.m, d, h.at);
  }

  lemma NothingBroken(t: Table, m: Msg, d: bytes, i: nat)
    requires WellFormed(t) && |m.vals| == |t.fields| && Fits(d) && i < |d| && ParseRecord(t, d, i).Err?
    requires forall k: nat, j: nat :: !Breaks(t, d, i, k, j)
    ensures Broken(t, m, d, i) == m
  {
    match Varint.Read(d, i, 0)
    case Err(_) =>
    case Ok(x) =>
      match IndexOf(t.fields, FieldNum(x.value))
      case None =>
      case Some(k) =>
        assert m.vals[k := m.vals[k]] == m.vals;
        if Skip.WireType(x.value) == 0 && FieldNum(x.value) > 0 { NotBreaking(t, d, i, k, x); }
  }

  lemma NotBreaking(t: Table, d: bytes, i: nat, k: nat, x: Varint.Raw)
    requires WellFormed(t) && Fits(d) && i < |d| && Varint.Read(d, i, 0) == Ok(x) && k < |t.fields|
    requires FieldNum(x.value) == t.fields[k].num && Skip.WireType(x.value) == 0 && ParseRecord(t, d, i).Err?
    requires !Breaks(t, d, i, k, x.next)
    ensures t.fields[k].kind != KInt32 && t.fields[k].kind != KInt64
  {
    Skip.Cut(d, i, x);
    LowBits(x.value);
    IndexOfField(t, k);
  }

  /** At `i` the tag of integer field `k` is followed, at `j`, by a varint that does not end. */
  predicate Breaks(t: Table, d: bytes, i: nat, k: nat, j: nat) {
    && k < |t.fields| && (t.fields[k].kind == KInt32 || t.fields[k].kind == KInt64)
    && i < j <= |d| && TagFor(d[i..j], t.fields[k].num, 0) && Varint.Read(d, j, 0).Err?
  }

  /** An integer whose varint does not end holds what it would hold, had the input gone on with a zero byte,
      or, after ten bytes, had the tenth been the last. */
  lemma BrokenShort(t: Table, m: Msg, d: bytes, k: nat, j: nat) returns (e: bytes)
    requires WellFormed(t) && |m.vals| == |t.fields| && Fits(d + [0]) && |d| < j + 10
    requires Before(t, m, d, 0).at < |d| && Breaks(t, d, Before(t, m, d, 0).at, k, j)
    ensures e == d + [0] && Decode(t, m, e, 0) == Ok(Left(t, m, d))
  {
    e := EndWithZero(d, j);
    BrokenAs(t, m, d, k, j, e);
  }

  lemma EndWithZero(d: bytes, j: nat) returns (e: bytes)
    requires j <= |d| < j + 10 && Varint.Read(d, j, 0).Err?
    ensures e == d + [0] && |e| == |d| + 1 && e[..j] == d[..j]
    ensures Varint.Read(e, j, 0) == Ok(Varint.Raw(Varint.Gathered(d, j, 0), |d| + 1))
  {
    Varint.ReadOutcome(d, j, 0);
    Varint.GatheredEnds(d, j, 0);
    e := d + [0];
  }

  lemma BrokenLong(t: Table, m: Msg, d: bytes, k: nat, j: nat) returns (e: bytes)
    requires WellFormed(t) && |m.vals| == |t.fields| && Fits(d) && |d| >= j + 10
    requires Before(t, m, d, 0).at < |d| && Breaks(t, d, Before(t, m, d, 0).at, k, j)
    ensures d[j + 9] >= 0x80 && e == d[..j + 9] + [d[j + 9] - 0x80] && Decode(t, m, e, 0) == Ok(Left(t, m, d))
  {
    e := CutAtTen(d, j);
    BrokenAs(t, m, d, k, j, e);
  }

  /** The input up to the tenth byte of a varint, with that byte as the last. */
  lemma CutAtTen(d: bytes, j: nat) returns (e: bytes)
    requires |d| >= j + 10 && Varint.Read(d, j, 0).Err?
    ensures d[j + 9] >= 0x80 && e == d[..j + 9] + [d[j + 9] - 0x80]
    ensures |e| == j + 10 && e[..j] == d[..j]
    ensures Varint.Read(e, j, 0) == Ok(Varint.Raw(Varint.Gathered(d, j, 0), j + 10))
  {
    Varint.ReadOutcome(d, j, 0);
    Varint.GatheredStops(d, j, 0);
    e := d[..j + 9] + [d[j + 9] - 0x80];
  }

  lemma BrokenAs(t: Table, m: Msg, d: bytes, k: nat, j: nat, e: bytes)
    requires WellFormed(t) && |m.vals| == |t.fields| && Fits(d) && Fits(e)
    requires Before(t, m, d, 0).at < |d| && Breaks(t, d, Before(t, m, d, 0).at, k, j)
    requires j <= |e| && e[..j] == d[..j] && Varint.Read(e, j, 0) == Ok(Varint.Raw(Varint.Gathered(d, j, 0), |e|))
    ensures Decode(t, m, e, 0) == Ok(Left(t, m, d))
  {
    var h := Before(t, m, d, 0);
    BeforeLength(t, m, d, 0);
    SamePrefix(d, e, h.at, j);
    PrefixDecodes(t, m, d, 0);
    PrefixThen(t, m, d[..h.at], e, h.m);
    IntegerLeft(t, h.m, d, h.at, k, j);
    IntegerRead(t, h.m, e, h.at, k, j, Varint.Gathered(d, j, 0));
  }

  lemma SamePrefix(d: bytes, e: bytes, i: nat, j: nat)
    requires i <= j <= |d| && j <= |e| && e[..j] == d[..j]
    ensures d[..i] == e[..i] && d[i..j] == e[i..j]
  {
    assert d[..j][..i] == e[..j][..i] && d[..j][i..] == e[..j][i..];
  }

  /** An input is decoded like an accepted prefix of it, up to there. */
  lemma PrefixThen(t: Table, m: Msg, a: bytes, e: bytes, c: Msg)
    requires Fits(e) && |a| <= |e| && e[..|a|] == a && Decode(t, m, a, 0) == Ok(c)
    ensures Decode(t, m, e, 0) == Decode(t, c, e, |a|)
  {
    assert e == a + e[|a|..];
    AcceptedPrefix(t, m, a, e[|a|..], 0);
  }

  lemma IntegerLeft(t: Table, m: Msg, d: bytes, i: nat, k: nat, j: nat)
    requires WellFormed(t) && |m.vals| == |t.fields| && Fits(d) && Breaks(t, d, i, k, j)
    ensures Broken(t, m, d, i) == Msg(m.vals[k := IntOf(t.fields[k].kind, Varint.Gathered(d, j, 0))])
  {
    TagAt(t, d, i, k, j);
  }

  function IntOf(kind: Kind, raw: nat): Value {
    Int(if kind == KInt32 then Signed32(raw % TWO32) else Signed64(raw % TWO64))
  }

  lemma TagAt(t: Table, d: bytes, i: nat, k: nat, j: nat)
    requires WellFormed(t) && k < |t.fields| && i < j <= |d| && TagFor(d[i..j], t.fields[k].num, 0)
    ensures Varint.Read(d, i, 0).Ok? && Varint.Read(d, i, 0).value.next == j
    ensures var raw := Varint.Read(d, i, 0).value.value;
      Skip.WireType(raw) == 0 && IndexOf(t.fields, FieldNum(raw)) == Some(k) && FieldNum(raw) > 0
  {
    Skip.ReadInside(d[i..j], Skip.Alone(d[i..j]).value, d, i);
    LowBits(Skip.Alone(d[i..j]).value);
    IndexOfField(t, k);
  }

  lemma IntegerRead(t: Table, m: Msg, e: bytes, i: nat, k: nat, j: nat, raw: nat)
    requires WellFormed(t) && |m.vals| == |t.fields| && Fits(e) && k < |t.fields| && i < j <= |e|
    requires t.fields[k].kind == KInt32 || t.fields[k].kind == KInt64
    requires TagFor(e[i..j], t.fields[k].num, 0) && Varint.Read(e, j, 0) == Ok(Varint.Raw(raw, |e|))
    ensures Decode(t, m, e, i) == Ok(Msg(m.vals[k := IntOf(t.fields[k].kind, raw)]))
  {
    TagAt(t, e, i, k, j);
    assert ParseRecord(t, e, i) == Ok(Parsed(Known(k, Number(raw)), |e|));
    Ahead(t, m, e, i, Parsed(Known(k, Number(raw)), |e|));
  }

  /** The message nested content is decoded into. */
  function Into(kind: Kind, v: Value): Msg
    requires kind.KMessage? || kind.KMessages?
  {
    if v.Child? && v.m.Some? then v.m.value else Zero(kind.sub)
  }

  /** `z` is what content `b` leaves of `base`: some of its records decoded, and one more field at most. */
  ghost predicate HalfDecoded(sub: Table, base: Msg, b: bytes, z: Msg) {
    exists n: nat, c: Msg ::
      n < |b| && Fits(b) && Decode(sub, base, b[..n], 0) == Ok(c) && (z == c || exists f: nat :: OnlyAt(z, c, f))
  }

  /** A nested message that refuses its content is left as that content's records before the bad one decode,
      but for one field of it at most; in a list it is the new last element, and the others stay. */
  lemma BrokenChild(t: Table, m: Msg, d: bytes, k: nat, b: bytes)
    requires WellFormed(t) && Typed(t, m) && Fits(d) && k < |t.fields| && Fits(b)
    requires t.fields[k].kind.KMessage? || t.fields[k].kind.KMessages?
    requires var i := Before(t, m, d, 0).at;
      i < |d| && ParseRecord(t, d, i).Ok? && ParseRecord(t, d, i).value.rec == Known(k, Content(b))
    ensures var h, left, kind := Before(t, m, d, 0), Left(t, m, d), t.fields[k].kind;
      && |left.vals| == |h.m.vals| == |t.fields| && OnlyAt(left, h.m, k)
      && exists z: Msg ::
           && HalfDecoded(kind.sub, Into(kind, h.m.vals[k]), b, z)
           && (kind.KMessage? ==> left.vals[k] == Child(Some(z)))
           && (kind.KMessages? ==> h.m.vals[k].Children? && left.vals[k] == Children(h.m.vals[k].ms + [z]))
  {
    var h, kind := Before(t, m, d, 0), t.fields[k].kind;
    BeforeTyped(t, m, d, 0);
    BeforeIsHalt(t, m, d, 0);
    BadContent(t, h.m, d, h.at, k, b);
    ContentHalf(kind.sub, Into(kind, h.m.vals[k]), b);
  }

  lemma {:induction false} BeforeIsHalt(t: Table, m: Msg, d: bytes, i: nat)
    requires Fits(d) && i <= |d|
    ensures var h := Before(t, m, d, i); Before(t, h.m, d, h.at) == h
    decreases |d| - i
  {
    if i < |d| && ParseRecord(t, d, i).Ok? {
      var x := ParseRecord(t, d, i).value;
      Ahead(t, m, d, i, x);
      if Advance(t, m, x.rec).Ok? { BeforeIsHalt(t, Advance(t, m, x.rec).value, d, x.next); }
    }
  }

  lemma ContentHalf(sub: Table, base: Msg, b: bytes)
    requires Fits(b) && |base.vals| == |sub.fields| && Decode(sub, base, b, 0).Err?
    ensures HalfDecoded(sub, base, b, Left(sub, base, b))
  {
    RefusedLeaves(sub, base, b);
    var c := Before(sub, base, b, 0);
    assert c.at < |b| && Decode(sub, base, b[..c.at], 0) == Ok(c.m);
  }

  lemma BadContent(t: Table, m: Msg, d: bytes, i: nat, k: nat, b: bytes)
    requires WellFormed(t) && Typed(t, m) && Fits(d) && i < |d| && k < |t.fields| && Fits(b)
    requires t.fields[k].kind.KMessage? || t.fields[k].kind.KMessages?
    requires ParseRecord(t, d, i).Ok? && ParseRecord(t, d, i).value.rec == Known(k, Content(b))
    requires Before(t, m, d, i) == Halt(i, m)
    ensures var kind, v := t.fields[k].kind, m.vals[k];
      var base := Into(kind, v);
      && |base.vals| == |kind.sub.fields| && Decode(kind.sub, base, b, 0).Err?
      && (kind.KMessage? ==> Broken(t, m, d, i) == Msg(m.vals[k := Child(Some(Left(kind.sub, base, b)))]))
      && (kind.KMessages? ==>
            v.Children? && Broken(t, m, d, i) == Msg(m.vals[k := Children(v.ms + [Left(kind.sub, base, b)])]))
  {
    var kind, v := t.fields[k].kind, m.vals[k];
    assert TypedValue(kind, v);
    Ahead(t, m, d, i, ParseRecord(t, d, i).value);
    RefusedApply(kind, v, b);
    BrokenContent(t, m, d, i, k, b);
  }

  lemma RefusedApply(kind: Kind, v: Value, b: bytes)
    requires TypedValue(kind, v) && (kind.KMessage? || kind.KMessages?) && Fits(b) && Apply(kind, v, Content(b)).Err?
    ensures Decode(kind.sub, Into(kind, v), b, 0).Err? && |Into(kind, v).vals| == |kind.sub.fields|
    ensures NestedLeft(kind, v, Content(b)) ==
            if kind.KMessage? then Child(Some(Left(kind.sub, Into(kind, v), b)))
            else Children(v.ms + [Left(kind.sub, Into(kind, v), b)])
  {
  }

  lemma BrokenContent(t: Table, m: Msg, d: bytes, i: nat, k: nat, b: bytes)
    requires WellFormed(t) && |m.vals| == |t.fields| && Fits(d) && k < |t.fields| && Fits(b)
    requires t.fields[k].kind.KMessage? || t.fields[k].kind.KMessages?
    requires ParseRecord(t, d, i).Ok? && ParseRecord(t, d, i).value.rec == Known(k, Content(b))
    ensures Broken(t, m, d, i) == Msg(m.vals[k := NestedLeft(t.fields[k].kind, m.vals[k], Content(b))])
  {
  }
}
