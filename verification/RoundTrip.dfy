/** Decoding an encoding: the records come back, and folding them is merging. */
module RoundTrip {
  import opened Machine
  import opened Schema
  import opened Format
  import opened Records
  import Varint
  import Skip

  /** A payload that a field of this kind can be written with. */
  predicate Suits(kind: Kind, p: Payload) {
    if WireTypeOf(kind) == 0 then p.Number? && p.raw < TWO64 else p.Content? && Fits(p.b)
  }

  // ----- One record -----

  lemma TagReads(num: nat, w: nat, d: bytes, i: nat)
    requires num <= MAX_FIELD && w < 8 && Skip.At(d, i, Tag(num, w))
    ensures Varint.Read(d, i, 0) == Ok(Varint.Raw(8 * num + w, i + |Tag(num, w)|))
  {
    Varint.EncodeAtMostTen(8 * num + w);
    Varint.ReadEncoded(8 * num + w, d, i, 0);
  }

  lemma TagMeans(num: nat, w: nat)
    requires 1 <= num <= MAX_FIELD && w < 8
    ensures FieldNum(8 * num + w) == num && Skip.WireType(8 * num + w) == w
  {
  }

  lemma NumberReads(raw: nat, d: bytes, j: nat)
    requires raw < TWO64 && Skip.At(d, j, Varint.Encode(raw))
    ensures ReadNumber(d, j) == Ok(Piece(Number(raw), j + |Varint.Encode(raw)|))
  {
    VarintReads(raw, d, j);
  }

  lemma LengthAdmits(d: bytes, j: nat, at: nat, n: nat)
    requires Fits(d) && Varint.Read(d, j, 0) == Ok(Varint.Raw(n, at)) && at + n <= |d|
    ensures ReadContent(d, j) == Ok(Piece(Content(d[at..at + n]), at + n))
  {
    assert n % TWO64 == n;
  }

  lemma VarintReads(n: nat, d: bytes, j: nat)
    requires n < TWO64 && Skip.At(d, j, Varint.Encode(n))
    ensures Varint.Read(d, j, 0) == Ok(Varint.Raw(n, j + |Varint.Encode(n)|))
  {
    Varint.EncodeAtMostTen(n);
    Varint.ReadEncoded(n, d, j, 0);
  }

  lemma ContentReads(b: bytes, d: bytes, j: nat)
    requires Fits(d) && Fits(b) && Skip.At(d, j, Varint.Encode(|b|) + b)
    ensures ReadContent(d, j) == Ok(Piece(Content(b), j + |Varint.Encode(|b|)| + |b|))
  {
    Skip.AtSplit(d, j, Varint.Encode(|b|), b);
    VarintReads(|b|, d, j);
    LengthAdmits(d, j, j + |Varint.Encode(|b|)|, |b|);
  }

  function Body(p: Payload): bytes {
    match p
    case Number(raw) => Varint.Encode(raw)
    case Content(b) => Varint.Encode(|b|) + b
  }

  lemma PayloadSplits(num: nat, p: Payload)
    ensures EncodePayload(num, p) == Tag(num, if p.Number? then 0 else 2) + Body(p)
  {
    if p.Content? {
      assert Tag(num, 2) + (Varint.Encode(|p.b|) + p.b) == Tag(num, 2) + Varint.Encode(|p.b|) + p.b;
    }
  }

  lemma BodyParses(k: nat, kind: Kind, p: Payload, d: bytes, j: nat)
    requires Fits(d) && Suits(kind, p) && Skip.At(d, j, Body(p))
    ensures ParseKnown(k, kind, WireTypeOf(kind), d, j) == Ok(Parsed(Known(k, p), j + |Body(p)|))
  {
    if p.Number? { NumberReads(p.raw, d, j); } else { ContentReads(p.b, d, j); }
  }

  /** After the tag of a field, its payload decides. */
  lemma AfterTag(t: Table, k: nat, w: nat, d: bytes, i: nat)
    requires WellFormed(t) && k < |t.fields| && Fits(d) && (w == 0 || w == 2)
    requires Skip.At(d, i, Tag(t.fields[k].num, w))
    ensures ParseRecord(t, d, i) == ParseKnown(k, t.fields[k].kind, w, d, i + |Tag(t.fields[k].num, w)|)
  {
    TagReads(t.fields[k].num, w, d, i);
    TagMeans(t.fields[k].num, w);
    IndexOfField(t, k);
  }

  lemma TagThenBody(d: bytes, i: nat, tag: bytes, body: bytes, e: bytes)
    requires e == tag + body && Skip.At(d, i, e)
    ensures Skip.At(d, i, tag) && Skip.At(d, i + |tag|, body) && |e| == |tag| + |body|
  {
    Skip.AtSplit(d, i, tag, body);
  }

  lemma PartsParse(t: Table, k: nat, p: Payload, d: bytes, i: nat)
    requires WellFormed(t) && k < |t.fields| && Suits(t.fields[k].kind, p) && Fits(d)
    requires var tag := Tag(t.fields[k].num, WireTypeOf(t.fields[k].kind));
      Skip.At(d, i, tag) && Skip.At(d, i + |tag|, Body(p))
    ensures var tag := Tag(t.fields[k].num, WireTypeOf(t.fields[k].kind));
      ParseRecord(t, d, i) == Ok(Parsed(Known(k, p), i + |tag| + |Body(p)|))
  {
    var kind := t.fields[k].kind;
    var j := i + |Tag(t.fields[k].num, WireTypeOf(kind))|;
    BodyParses(k, kind, p, d, j);
    AfterTag(t, k, WireTypeOf(kind), d, i);
    assert ParseRecord(t, d, i) == ParseKnown(k, kind, WireTypeOf(kind), d, j);
  }

  /** An encoded record parses back to the entry and payload it was made from. */
  lemma RecordParses(t: Table, k: nat, p: Payload, d: bytes, i: nat)
    requires WellFormed(t) && k < |t.fields| && Suits(t.fields[k].kind, p) && Fits(d)
    requires Skip.At(d, i, EncodePayload(t.fields[k].num, p))
    ensures ParseRecord(t, d, i) == Ok(Parsed(Known(k, p), i + |EncodePayload(t.fields[k].num, p)|))
  {
    var num, w := t.fields[k].num, WireTypeOf(t.fields[k].kind);
    PayloadSplits(num, p);
    TagThenBody(d, i, Tag(num, w), Body(p), EncodePayload(num, p));
    PartsParse(t, k, p, d, i);
  }

  lemma OneRecord(t: Table, k: nat, p: Payload)
    requires WellFormed(t) && k < |t.fields| && Suits(t.fields[k].kind, p)
    requires Fits(EncodePayload(t.fields[k].num, p))
    ensures Split(t, EncodePayload(t.fields[k].num, p)) == Ok([Known(k, p)])
  {
    var d := EncodePayload(t.fields[k].num, p);
    assert d[0..|d|] == d;
    RecordParses(t, k, p, d, 0);
    SingleChain(ParsesOf(t, d), Known(k, p));
  }

  lemma SingleChain(p: Parses, r: Rec)
    requires |p| > 0 && p[0] == Ok(Parsed(r, |p|))
    ensures Chain(p, 0) == Ok([r])
  {
    assert Chain(p, |p|) == Ok([]);
    assert [r] + [] == [r];
  }

  // ----- All records of a field, and of a message -----

  predicate AllSuit(kind: Kind, ps: seq<Payload>) { forall j :: 0 <= j < |ps| ==> Suits(kind, ps[j]) }

  lemma ProjectCons(k: nat, p: Cargo, rest: seq<Rec>, j: nat)
    ensures Project([Known(k, p)] + rest, j) == (if j == k then [p] else []) + Project(rest, j)
  {
    assert ([Known(k, p)] + rest)[1..] == rest;
  }

  lemma SplitPrepend(t: Table, k: nat, p: Payload, tail: bytes, rest: seq<Rec>)
    requires WellFormed(t) && k < |t.fields| && Suits(t.fields[k].kind, p)
    requires Fits(EncodePayload(t.fields[k].num, p) + tail) && Split(t, tail) == Ok(rest)
    ensures Split(t, EncodePayload(t.fields[k].num, p) + tail) == Ok([Known(k, p)] + rest)
  {
    OneRecord(t, k, p);
    SplitConcat(t, EncodePayload(t.fields[k].num, p), tail, [Known(k, p)]);
  }

  /** The records of one field's payloads name that field only, in order. */
  lemma {:induction false} SplitPayloads(t: Table, k: nat, ps: seq<Payload>) returns (rs: seq<Rec>)
    requires WellFormed(t) && k < |t.fields| && AllSuit(t.fields[k].kind, ps)
    requires Fits(EncodePayloads(t.fields[k].num, ps))
    ensures Split(t, EncodePayloads(t.fields[k].num, ps)) == Ok(rs) && |rs| == |ps|
    ensures forall i :: 0 <= i < |rs| ==> rs[i] == Known(k, ps[i])
    ensures forall j: nat :: Project(rs, j) == if j == k then ps else []
    decreases |ps|
  {
    if ps == [] {
      rs := [];
    } else {
      var num := t.fields[k].num;
      var rest := SplitPayloads(t, k, ps[1..]);
      SplitPrepend(t, k, ps[0], EncodePayloads(num, ps[1..]), rest);
      rs := [Known(k, ps[0])] + rest;
      forall j: nat ensures Project(rs, j) == if j == k then ps else [] {
        ProjectCons(k, ps[0], rest, j);
        assert ps == [ps[0]] + ps[1..];
      }
    }
  }

  function PayloadsAt(t: Table, m: Msg, k: nat): seq<Payload>
    requires k < |t.fields| && k < |m.vals|
  {
    PayloadsOf(t.fields[k].kind, m.vals[k])
  }

  predicate MessageSuits(t: Table, m: Msg) {
    |m.vals| == |t.fields|
    && forall k :: 0 <= k < |t.fields| ==> AllSuit(t.fields[k].kind, PayloadsAt(t, m, k))
  }

  /** The records of an encoded message are, entry by entry, the payloads its values are written as. */
  lemma {:induction false} SplitEncoding(t: Table, m: Msg, k: nat) returns (rs: seq<Rec>)
    requires WellFormed(t) && MessageSuits(t, m) && k <= |t.fields| && Fits(EncodeFrom(t, m, k))
    ensures Split(t, EncodeFrom(t, m, k)) == Ok(rs)
    ensures forall j: nat :: j < |t.fields| ==> Project(rs, j) == if j >= k then PayloadsAt(t, m, j) else []
    decreases |t.fields| - k
  {
    if k == |t.fields| {
      rs := [];
    } else {
      var num := t.fields[k].num;
      var head, tail := EncodePayloads(num, PayloadsAt(t, m, k)), EncodeFrom(t, m, k + 1);
      assert EncodeFrom(t, m, k) == head + tail;
      var mine := SplitPayloads(t, k, PayloadsAt(t, m, k));
      var rest := SplitEncoding(t, m, k + 1);
      SplitConcat(t, head, tail, mine);
      rs := mine + rest;
      forall j: nat | j < |t.fields|
        ensures Project(rs, j) == if j >= k then PayloadsAt(t, m, j) else []
      {
        ProjectConcat(mine, rest, j);
      }
    }
  }

  // ----- Nested encodings are no longer than what holds them -----

  lemma {:induction false} PayloadWithin(num: nat, ps: seq<Payload>, j: nat)
    requires j < |ps| && ps[j].Content?
    ensures |ps[j].b| <= |EncodePayloads(num, ps)|
    decreases |ps|
  {
    if j > 0 { PayloadWithin(num, ps[1..], j - 1); }
  }

  lemma {:induction false} FieldWithin(t: Table, m: Msg, k: nat, j: nat)
    requires k <= j < |t.fields| && j < |m.vals|
    ensures |EncodePayloads(t.fields[j].num, PayloadsAt(t, m, j))| <= |EncodeFrom(t, m, k)|
    decreases j - k
  {
    if k < j { FieldWithin(t, m, k + 1, j); }
  }

  /** Every field of a well-typed message whose encoding fits is written with payloads that suit it. */
  lemma TypedSuits(t: Table, m: Msg)
    requires Typed(t, m) && Fits(Encode(t, m))
    ensures MessageSuits(t, m)
  {
    forall k | 0 <= k < |t.fields|
      ensures AllSuit(t.fields[k].kind, PayloadsAt(t, m, k))
    {
      var kind, ps := t.fields[k].kind, PayloadsAt(t, m, k);
      FieldWithin(t, m, 0, k);
      forall j | 0 <= j < |ps| ensures Suits(kind, ps[j]) {
        if ps[j].Content? { PayloadWithin(t.fields[k].num, ps, j); }
      }
    }
  }

  // ----- Folding an encoding is merging -----

  lemma {:induction false} FoldStrings(a: seq<bytes>, ss: seq<bytes>, ps: seq<Cargo>)
    requires |ps| == |ss| && forall j :: 0 <= j < |ss| ==> ps[j] == Content(ss[j])
    ensures Fold(KStrings, Strings(a), ps) == Ok(Strings(a + ss))
    decreases |ss|
  {
    if ss == [] {
      assert a + ss == a;
    } else {
      assert (a + [ss[0]]) + ss[1..] == a + ss;
      FoldStrings(a + [ss[0]], ss[1..], ps[1..]);
    }
  }

  lemma {:induction false} FoldDecoded(sub: Table, a: seq<Msg>, ms: seq<Msg>, ps: seq<Cargo>)
    requires |ps| == |ms|
    requires forall j :: 0 <= j < |ps| ==> ps[j].Content? && Decode(sub, Zero(sub), ps[j].b, 0) == Ok(ms[j])
    ensures Fold(KMessages(sub), Children(a), ps) == Ok(Children(a + ms))
    decreases |ms|
  {
    if ms == [] {
      assert a + ms == a;
    } else {
      assert (a + [ms[0]]) + ms[1..] == a + ms;
      assert Apply(KMessages(sub), Children(a), ps[0]) == Ok(Children(a + [ms[0]]));
      FoldDecoded(sub, a + [ms[0]], ms[1..], ps[1..]);
    }
  }

  lemma {:induction false} FoldChildren(sub: Table, a: seq<Msg>, ms: seq<Msg>, ps: seq<Cargo>)
    requires WellFormed(sub) && (forall m :: m in ms ==> Typed(sub, m))
    requires |ps| == |ms| && forall j :: 0 <= j < |ms| ==> ps[j] == Content(Encode(sub, ms[j]))
    ensures Fold(KMessages(sub), Children(a), ps) == Ok(Children(a + ms))
    decreases sub, 1
  {
    forall j | 0 <= j < |ps|
      ensures ps[j].Content? && Decode(sub, Zero(sub), ps[j].b, 0) == Ok(ms[j])
    {
      ZeroTyped(sub);
      DecodeEncode(sub, Zero(sub), ms[j]);
      MergeIntoZero(sub, ms[j]);
    }
    FoldDecoded(sub, a, ms, ps);
  }

  /** Folding the payloads of `y` into an entry holding `x` merges `y` into `x`. */
  lemma {:induction false} FoldPayloads(kind: Kind, x: Value, y: Value)
    requires KindWellFormed(kind) && TypedValue(kind, x) && TypedValue(kind, y)
    requires AllSuit(kind, PayloadsOf(kind, y))
    ensures Fold(kind, x, PayloadsOf(kind, y)) == Ok(MergeValue(kind, x, y))
    decreases kind
  {
    var ps := PayloadsOf(kind, y);
    match kind
    case KStrings => FoldStrings(x.ss, y.ss, ps);
    case KMessages(sub) => FoldChildren(sub, x.ms, y.ms, ps);
    case KMessage(sub) =>
      if y.m.Some? {
        ZeroTyped(sub);
        assert Suits(kind, ps[0]);
        DecodeEncode(sub, Base(sub, x), y.m.value);
        FoldOne(kind, x, ps[0]);
      }
    case _ => FoldScalar(kind, x, y);
  }

  lemma FoldOne(kind: Kind, x: Value, p: Cargo)
    ensures Fold(kind, x, [p]) == Apply(kind, x, p)
  {
    if Apply(kind, x, p).Ok? { assert [p][1..] == []; }
  }

  lemma FoldScalar(kind: Kind, x: Value, y: Value)
    requires kind.KBytes? || kind.KBool? || kind.KInt32? || kind.KInt64?
    requires TypedValue(kind, y) && AllSuit(kind, PayloadsOf(kind, y))
    ensures Fold(kind, x, PayloadsOf(kind, y)) == Ok(MergeValue(kind, x, y))
  {
    var ps := PayloadsOf(kind, y);
    if ps != [] {
      assert Suits(kind, ps[0]) && ps == [ps[0]];
      FoldOne(kind, x, ps[0]);
      if y.Int? { SignedRoundTrip(y.n); }
    }
  }

  /** Decoding an encoding into a receiver merges the message into it. */
  lemma {:induction false} DecodeEncode(t: Table, x: Msg, y: Msg)
    requires WellFormed(t) && Typed(t, x) && Typed(t, y) && Fits(Encode(t, y))
    ensures Decode(t, x, Encode(t, y), 0) == Ok(Merge(t, x, y))
    decreases t, 0
  {
    TypedSuits(t, y);
    var rs := SplitEncoding(t, y, 0);
    DecodeIsFold(t, x, Encode(t, y));
    SplitInTable(t, Encode(t, y), rs);
    Fieldwise(t, x, rs);
    forall k | 0 <= k < |t.fields|
      ensures FoldAt(t, x, rs, k) == Ok(MergeValue(t.fields[k].kind, x.vals[k], y.vals[k]))
    {
      FoldPayloads(t.fields[k].kind, x.vals[k], y.vals[k]);
    }
    var z := ApplyAll(t, x, rs).value;
    assert z.vals == Merge(t, x, y).vals;
  }
}
