/** What the format promises its users, for every message table. */
module Laws {
  import opened Machine
  import opened Schema
  import opened Format
  import opened Records
  import opened RoundTrip
  import Varint
  import Skip
  import opened Refusals

  // ----- Round trip and merge -----

  /** A message survives encoding and decoding, nil and empty children told apart. */
  lemma RoundTripLaw(t: Table, m: Msg)
    requires WellFormed(t) && Typed(t, m) && Fits(Encode(t, m))
    ensures Decode(t, Zero(t), Encode(t, m), 0) == Ok(m)
  {
    ZeroTyped(t);
    DecodeEncode(t, Zero(t), m);
    MergeIntoZero(t, m);
  }

  /** Different messages of a type never share an encoding. */
  lemma EncodingIsInjective(t: Table, x: Msg, y: Msg)
    requires WellFormed(t) && Typed(t, x) && Typed(t, y) && Fits(Encode(t, x))
    requires Encode(t, x) == Encode(t, y)
    ensures x == y
  {
    RoundTripLaw(t, x);
    RoundTripLaw(t, y);
  }

  /** Decoding never resets the receiver: after an accepted prefix, the rest is decoded into what the
      prefix left, with the same message or error, unless the first record that fails there claims an
      end that wraps behind the prefix. */
  lemma DecodeConcat(t: Table, m: Msg, a: bytes, b: bytes)
    requires Fits(a + b) && Decode(t, m, a, 0).Ok?
    ensures var left := Decode(t, m, a, 0).value;
      DifferIff(EndWraps(t, left, b, 0, |a|), Decode(t, m, a + b, 0), Decode(t, left, b, 0))
  {
    AcceptedPrefix(t, m, a, b, 0);
    DecodeMoved(t, Decode(t, m, a, 0).value, a, b, 0);
  }

  /** Decoding two encodings end to end merges the second message into the first. */
  lemma ConcatIsMerge(t: Table, x: Msg, y: Msg)
    requires WellFormed(t) && Typed(t, x) && Typed(t, y) && Fits(Encode(t, x) + Encode(t, y))
    ensures Decode(t, Zero(t), Encode(t, x) + Encode(t, y), 0) == Ok(Merge(t, x, y))
  {
    RoundTripLaw(t, x);
    DecodeConcat(t, Zero(t), Encode(t, x), Encode(t, y));
    DecodeEncode(t, x, y);
  }

  /** Every `int32`, written sign-extended to 64 bits, is restored by the loop that keeps only 32:
      a negative one takes ten bytes. */
  lemma Int32Survives(n: int, pre: bytes, post: bytes)
    requires -TWO31 <= n < TWO31
    ensures var r := Varint.Read(pre + Varint.Encode(Unsigned64(n)) + post, |pre|, 0);
      && r.Ok? && r.value.next == |pre| + |Varint.Encode(Unsigned64(n))|
      && Truncate(r.value.value, 32) < TWO32 && Signed32(Truncate(r.value.value, 32)) == n
    ensures n < 0 ==> |Varint.Encode(Unsigned64(n))| == 10
  {
    var v := Unsigned64(n);
    Varint.VarintInverse(v, pre, post);
    Varint.SovIsLength(v);
    TruncateWidths(v);
    SignedRoundTrip(n);
    if n < 0 {
      Pow2Values();
      Varint.EncodeAtLeast(v, 9);
      Varint.EncodeAtMostTen(v);
    }
  }

  // ----- The order of records of different fields does not matter -----

  /** `b` is exactly one record of the table, known or not. */
  predicate IsRecord(t: Table, b: bytes) {
    Fits(b) && ParseRecord(t, b, 0).Ok? && ParseRecord(t, b, 0).value.next == |b|
  }

  function RecordOf(t: Table, b: bytes): Rec
    requires IsRecord(t, b)
  {
    ParseRecord(t, b, 0).value.rec
  }

  function Flat(bs: seq<bytes>): bytes {
    if bs == [] then [] else bs[0] + Flat(bs[1..])
  }

  predicate AreRecords(t: Table, bs: seq<bytes>) { forall j :: 0 <= j < |bs| ==> IsRecord(t, bs[j]) }

  /** The records among `bs` that name entry `k`, as written. */
  function For(t: Table, bs: seq<bytes>, k: nat): seq<bytes>
    requires AreRecords(t, bs)
  {
    if bs == [] then []
    else if RecordOf(t, bs[0]).Known? && RecordOf(t, bs[0]).k == k then [bs[0]] + For(t, bs[1..], k)
    else For(t, bs[1..], k)
  }

  function PayloadOf(t: Table, b: bytes): Cargo {
    if IsRecord(t, b) && RecordOf(t, b).Known? then RecordOf(t, b).p else Number(0)
  }

  function PayloadsIn(t: Table, bs: seq<bytes>): seq<Cargo> {
    seq(|bs|, j requires 0 <= j < |bs| => PayloadOf(t, bs[j]))
  }

  lemma SplitOne(t: Table, b: bytes)
    requires IsRecord(t, b)
    ensures Split(t, b) == Ok([RecordOf(t, b)])
  {
    SingleChain(ParsesOf(t, b), RecordOf(t, b));
  }

  /** A run of records splits into them, and each entry sees those that name it. */
  lemma {:induction false} SplitFlat(t: Table, bs: seq<bytes>) returns (rs: seq<Rec>)
    requires AreRecords(t, bs) && Fits(Flat(bs))
    ensures Split(t, Flat(bs)) == Ok(rs)
    ensures forall k: nat :: Project(rs, k) == PayloadsIn(t, For(t, bs, k))
    decreases |bs|
  {
    if bs == [] {
      rs := [];
    } else {
      var r := RecordOf(t, bs[0]);
      var rest := SplitFlat(t, bs[1..]);
      SplitOne(t, bs[0]);
      SplitConcat(t, bs[0], Flat(bs[1..]), [r]);
      rs := [r] + rest;
      forall k: nat ensures Project(rs, k) == PayloadsIn(t, For(t, bs, k)) {
        ProjectHead(t, bs, rest, k);
      }
    }
  }

  lemma PayloadsCons(t: Table, b: bytes, rest: seq<bytes>)
    ensures PayloadsIn(t, [b] + rest) == [PayloadOf(t, b)] + PayloadsIn(t, rest)
  {
  }

  lemma ProjectHead(t: Table, bs: seq<bytes>, rest: seq<Rec>, k: nat)
    requires AreRecords(t, bs) && bs != [] && Project(rest, k) == PayloadsIn(t, For(t, bs[1..], k))
    ensures Project([RecordOf(t, bs[0])] + rest, k) == PayloadsIn(t, For(t, bs, k))
  {
    var r := RecordOf(t, bs[0]);
    assert ([r] + rest)[1..] == rest;
    if r.Known? && r.k == k { PayloadsCons(t, bs[0], For(t, bs[1..], k)); }
  }

  /** Two inputs made of records decode alike whenever each field's records come in the same order:
      every rearrangement that keeps that order, and every change to records no field names. */
  lemma OrderIndependence(t: Table, m: Msg, bs: seq<bytes>, bs': seq<bytes>)
    requires |m.vals| == |t.fields| && AreRecords(t, bs) && AreRecords(t, bs')
    requires Fits(Flat(bs)) && Fits(Flat(bs'))
    requires forall k: nat :: k < |t.fields| ==> For(t, bs, k) == For(t, bs', k)
    ensures Agree(Decode(t, m, Flat(bs), 0), Decode(t, m, Flat(bs'), 0))
  {
    var rs := SplitFlat(t, bs);
    var rs' := SplitFlat(t, bs');
    DecodeIsFold(t, m, Flat(bs));
    DecodeIsFold(t, m, Flat(bs'));
    SplitInTable(t, Flat(bs), rs);
    SplitInTable(t, Flat(bs'), rs');
    SameProjections(t, m, rs, rs');
  }

  lemma RecordsFrom(t: Table, d: bytes, p: Parses, i: nat) returns (bs: seq<bytes>)
    requires Fits(d) && Follows(p, t, d) && i <= |d| && Chain(p, i).Ok?
    ensures AreRecords(t, bs) && Flat(bs) == d[i..]
    decreases |d| - i
  {
    if i == |d| {
      bs := [];
    } else {
      var x := ParseRecord(t, d, i).value;
      var b := d[i..x.next];
      assert b[0..|b|] == b;
      ParseLocal(t, d, i, b, 0, x);
      var rest := RecordsFrom(t, d, p, x.next);
      bs := [b] + rest;
      assert d[i..] == b + d[x.next..];
    }
  }

  /** Every accepted input is a run of complete records, so the law above speaks of all of them. */
  lemma AcceptedIsRecords(t: Table, m: Msg, d: bytes) returns (bs: seq<bytes>)
    requires Fits(d) && Decode(t, m, d, 0).Ok?
    ensures AreRecords(t, bs) && Flat(bs) == d
  {
    DecodeIsFold(t, m, d);
    bs := RecordsFrom(t, d, ParsesOf(t, d), 0);
  }

  /** Swapping two adjacent records of different fields, between any accepted records and any rest. */
  lemma SwapRecords(t: Table, m: Msg, a: bytes, r: bytes, s: bytes, b: bytes)
    requires |m.vals| == |t.fields| && Fits(a + (r + s) + b) && Split(t, a).Ok?
    requires IsRecord(t, r) && IsRecord(t, s)
    requires RecordOf(t, r).Known? && RecordOf(t, s).Known? ==> RecordOf(t, r).k != RecordOf(t, s).k
    ensures Agree(Decode(t, m, a + (r + s) + b, 0), Decode(t, m, a + (s + r) + b, 0))
  {
    SplitTwo(t, r, s);
    SplitTwo(t, s, r);
    var p, q := RecordOf(t, r), RecordOf(t, s);
    forall k: nat ensures Project([p, q], k) == Project([q, p], k) {
      assert [p, q][1..] == [q] && [q, p][1..] == [p];
    }
    Replace(t, m, a, r + s, s + r, b, [p, q], [q, p]);
  }

  lemma SplitTwo(t: Table, r: bytes, s: bytes)
    requires IsRecord(t, r) && IsRecord(t, s) && Fits(r + s)
    ensures Split(t, r + s) == Ok([RecordOf(t, r), RecordOf(t, s)])
  {
    SplitOne(t, r);
    SplitOne(t, s);
    SplitConcat(t, r, s, [RecordOf(t, r)]);
    assert [RecordOf(t, r)] + [RecordOf(t, s)] == [RecordOf(t, r), RecordOf(t, s)];
  }

  lemma SplitThree(t: Table, a: bytes, c: bytes, b: bytes, ra: seq<Rec>, rc: seq<Rec>)
    requires Fits(a + c + b) && Split(t, a) == Ok(ra) && Split(t, c) == Ok(rc)
    ensures Agree(Split(t, a + c + b), Join(ra + rc, Split(t, b)))
  {
    SplitConcat(t, a, c, ra);
    SplitConcat(t, a + c, b, ra + rc);
  }

  /** A stretch of records may be replaced by any other that names the same entries with the same
      payloads in the same order. */
  lemma Replace(t: Table, m: Msg, a: bytes, c: bytes, c': bytes, b: bytes, rs: seq<Rec>, rs': seq<Rec>)
    requires |m.vals| == |t.fields| && Fits(a + c + b) && Fits(a + c' + b) && Split(t, a).Ok?
    requires Split(t, c) == Ok(rs) && Split(t, c') == Ok(rs')
    requires forall k: nat :: Project(rs, k) == Project(rs', k)
    ensures Agree(Decode(t, m, a + c + b, 0), Decode(t, m, a + c' + b, 0))
  {
    var ra := Split(t, a).value;
    DecodeThree(t, m, a, c, b, ra, rs);
    DecodeThree(t, m, a, c', b, ra, rs');
    if Split(t, b).Ok? { ReplaceRecords(t, m, ra, rs, rs', Split(t, b).value); }
  }

  lemma DecodeThree(t: Table, m: Msg, a: bytes, c: bytes, b: bytes, ra: seq<Rec>, rc: seq<Rec>)
    requires Fits(a + c + b) && Split(t, a) == Ok(ra) && Split(t, c) == Ok(rc)
    ensures Agree(Decode(t, m, a + c + b, 0), Then(t, m, Join(ra + rc, Split(t, b))))
    ensures Split(t, b).Ok? ==> InTable(t, ra + rc + Split(t, b).value)
  {
    SplitThree(t, a, c, b, ra, rc);
    DecodeIsFold(t, m, a + c + b);
    if Split(t, b).Ok? { SplitInTable(t, a + c + b, ra + rc + Split(t, b).value); }
  }

  lemma ReplaceRecords(t: Table, m: Msg, ra: seq<Rec>, rs: seq<Rec>, rs': seq<Rec>, rb: seq<Rec>)
    requires |m.vals| == |t.fields| && InTable(t, ra + rs + rb) && InTable(t, ra + rs' + rb)
    requires forall k: nat :: Project(rs, k) == Project(rs', k)
    ensures Agree(ApplyAll(t, m, ra + rs + rb), ApplyAll(t, m, ra + rs' + rb))
  {
    forall k: nat | k < |t.fields| ensures Project(ra + rs + rb, k) == Project(ra + rs' + rb, k) {
      ProjectConcat(ra + rs, rb, k);
      ProjectConcat(ra + rs', rb, k);
      ProjectConcat(ra, rs, k);
      ProjectConcat(ra, rs', k);
    }
    SameProjections(t, m, ra + rs + rb, ra + rs' + rb);
  }

  // ----- Unknown records are transparent -----

  /** The field number of a record of the grammar. */
  function NumOf(r: Skip.Record): int {
    match Skip.Alone(Skip.TagOf(r)) case None => 0 case Some(raw) => FieldNum(raw)
  }

  lemma UnknownParses(t: Table, r: Skip.Record)
    requires Skip.WellFormed(r) && Fits(Skip.Flatten(r))
    requires NumOf(r) > 0 && IndexOf(t.fields, NumOf(r)).None?
    ensures IsRecord(t, Skip.Flatten(r)) && RecordOf(t, Skip.Flatten(r)) == Unknown
  {
    var d := Skip.Flatten(r);
    SkippedWhole(r, d);
    TagFirst(r, d);
  }

  lemma SkippedWhole(r: Skip.Record, d: bytes)
    requires Skip.WellFormed(r) && d == Skip.Flatten(r) && Fits(d)
    ensures Skip.SkipFrom(d, 0) == Ok(|d|) && |d| > 0
  {
    assert d[0..|d|] == d && d[0..] == d;
    Skip.ItemOfRecord(r, d, 0);
    Skip.SkipRecord(r, d, Skip.ItemsOf(d), 0, 0);
  }

  lemma TagFirst(r: Skip.Record, d: bytes)
    requires Skip.WellFormed(r) && d == Skip.Flatten(r)
    ensures var tag := Skip.TagOf(r);
      Skip.IsTag(tag, Skip.TypeOf(r)) && Skip.TypeOf(r) != 4
      && Varint.Read(d, 0, 0) == Ok(Varint.Raw(Skip.Alone(tag).value, |tag|))
  {
    var tag := Skip.TagOf(r);
    assert d[0..|d|] == d;
    Skip.FlattenSplits(r);
    assert Skip.IsTag(tag, Skip.TypeOf(r));
    Skip.AtSplit(d, 0, tag, Skip.Rest(r));
    Skip.ReadInside(tag, Skip.Alone(tag).value, d, 0);
  }

  /** A well-formed record of a field the table lacks, placed at any record boundary, changes nothing,
      neither the message nor the error, but for one case: behind a prefix that is accepted, the first
      record that fails claims an end that is an `int` without the inserted bytes and is none with them. */
  lemma UnknownIsTransparent(t: Table, m: Msg, a: bytes, r: Skip.Record, b: bytes)
    requires Fits(a + Skip.Flatten(r) + b) && Split(t, a).Ok?
    requires Skip.WellFormed(r) && NumOf(r) > 0 && IndexOf(t.fields, NumOf(r)).None?
    ensures var c, left := Skip.Flatten(r), Decode(t, m, a, 0);
      var over := left.Ok? && EndWraps(t, left.value, b, 0, |a + c|) && !EndWraps(t, left.value, b, 0, |a|);
      DifferIff(over, Decode(t, m, a + c + b, 0), Decode(t, m, a + b, 0))
  {
    var c, left := Skip.Flatten(r), Decode(t, m, a, 0);
    if left.Err? {
      assert a + c + b == a + (c + b);
      RefusedPrefix(t, m, a, ParsesOf(t, a), c + b, 0);
      RefusedPrefix(t, m, a, ParsesOf(t, a), b, 0);
    } else {
      UnknownBetween(t, m, a, r, b);
    }
  }

  lemma UnknownBetween(t: Table, m: Msg, a: bytes, r: Skip.Record, b: bytes)
    requires Fits(a + Skip.Flatten(r) + b) && Decode(t, m, a, 0).Ok?
    requires Skip.WellFormed(r) && NumOf(r) > 0 && IndexOf(t.fields, NumOf(r)).None?
    ensures var c, left := Skip.Flatten(r), Decode(t, m, a, 0).value;
      var over := EndWraps(t, left, b, 0, |a + c|) && !EndWraps(t, left, b, 0, |a|);
      DifferIff(over, Decode(t, m, a + c + b, 0), Decode(t, m, a + b, 0))
  {
    var c, left := Skip.Flatten(r), Decode(t, m, a, 0).value;
    UnknownPasses(t, m, a, r);
    DecodeConcat(t, m, a + c, b);
    DecodeConcat(t, m, a, b);
    WrapsFurther(t, left, b, |a|, |a + c|);
    DifferTwice(EndWraps(t, left, b, 0, |a + c|), Decode(t, m, a + c + b, 0),
                EndWraps(t, left, b, 0, |a|), Decode(t, m, a + b, 0), Decode(t, left, b, 0));
  }

  lemma WrapsFurther(t: Table, m: Msg, d: bytes, n: nat, n': nat)
    requires Fits(d) && n <= n'
    ensures EndWraps(t, m, d, 0, n) ==> EndWraps(t, m, d, 0, n')
  {
  }

  lemma UnknownPasses(t: Table, m: Msg, a: bytes, r: Skip.Record)
    requires Fits(a + Skip.Flatten(r)) && Decode(t, m, a, 0).Ok?
    requires Skip.WellFormed(r) && NumOf(r) > 0 && IndexOf(t.fields, NumOf(r)).None?
    ensures Decode(t, m, a + Skip.Flatten(r), 0) == Decode(t, m, a, 0)
  {
    var c, left := Skip.Flatten(r), Decode(t, m, a, 0).value;
    UnknownParses(t, r);
    Ahead(t, left, c, 0, Parsed(Unknown, |c|));
    DecodeConcat(t, m, a, c);
  }
}
