/** Which inputs the decoder splits: exactly the runs of grammar records that fit the table. */
module Acceptance {
  import opened Machine
  import opened Schema
  import opened Format
  import opened Records
  import opened Laws
  import Varint
  import Skip

  /** A record of the grammar that a decoder for the table takes: its number is positive, and a
      number the table has comes with the wire type of its field. */
  predicate Fitting(t: Table, r: Skip.Record) {
    Skip.WellFormed(r) && NumOf(r) > 0
    && match IndexOf(t.fields, NumOf(r))
       case None => true
       case Some(k) => Skip.TypeOf(r) == WireTypeOf(t.fields[k].kind)
  }

  lemma TagRead(r: Skip.Record)
    requires Skip.WellFormed(r) && Fits(Skip.Flatten(r))
    ensures Skip.Alone(Skip.TagOf(r)).Some? && var raw := Skip.Alone(Skip.TagOf(r)).value;
      && Skip.WireType(raw) == Skip.TypeOf(r) && NumOf(r) == FieldNum(raw)
      && Varint.Read(Skip.Flatten(r), 0, 0) == Ok(Varint.Raw(raw, |Skip.TagOf(r)|))
      && Skip.At(Skip.Flatten(r), |Skip.TagOf(r)|, Skip.Rest(r))
      && |Skip.TagOf(r)| + |Skip.Rest(r)| == |Skip.Flatten(r)|
  {
    var d, tag := Skip.Flatten(r), Skip.TagOf(r);
    assert d[0..|d|] == d;
    assert Skip.IsTag(tag, Skip.TypeOf(r));
    Skip.FlattenSplits(r);
    Skip.AtSplit(d, 0, tag, Skip.Rest(r));
    Skip.ReadInside(tag, Skip.Alone(tag).value, d, 0);
  }

  /** A fitting record is a record of the table. */
  lemma FittingIsRecord(t: Table, r: Skip.Record)
    requires Fitting(t, r) && Fits(Skip.Flatten(r))
    ensures IsRecord(t, Skip.Flatten(r))
  {
    var f := IndexOf(t.fields, NumOf(r));
    if f.None? {
      UnknownParses(t, r);
    } else {
      var d, j := Skip.Flatten(r), |Skip.TagOf(r)|;
      TagRead(r);
      BodyReads(r, d, j);
    }
  }

  lemma BodyReads(r: Skip.Record, d: bytes, j: nat)
    requires Skip.WellFormed(r) && Fits(d) && Skip.At(d, j, Skip.Rest(r)) && |d| == j + |Skip.Rest(r)|
    ensures Skip.TypeOf(r) == 0 ==> ReadNumber(d, j).Ok? && ReadNumber(d, j).value.next == |d|
    ensures Skip.TypeOf(r) == 2 ==> ReadContent(d, j).Ok? && ReadContent(d, j).value.next == |d|
  {
    match r
    case VarintField(_, value) => Skip.ReadInside(value, Skip.Alone(value).value, d, j);
    case Delimited(_, length, content) =>
      Skip.AtSplit(d, j, length, content);
      Skip.ReadInside(length, Skip.Alone(length).value, d, j);
    case _ =>
  }

  /** A record of the table is a fitting record of the grammar. */
  lemma RecordIsFitting(t: Table, b: bytes) returns (r: Skip.Record)
    requires IsRecord(t, b)
    ensures Fitting(t, r) && Skip.Flatten(r) == b
  {
    var x := Varint.Read(b, 0, 0).value;
    var f := IndexOf(t.fields, FieldNum(x.value));
    if f.None? {
      assert b[0..] == b && b[0..|b|] == b;
      r := Skip.RecordOfSkip(b, 0, |b|);
    } else {
      r := KnownAsRecord(b, x, Skip.WireType(x.value));
    }
    TagRead(r);
  }

  lemma KnownAsRecord(b: bytes, x: Varint.Raw, w: nat) returns (r: Skip.Record)
    requires Fits(b) && Varint.Read(b, 0, 0) == Ok(x) && Skip.WireType(x.value) == w && (w == 0 || w == 2)
    requires if w == 0 then ReadNumber(b, x.next).Ok? && ReadNumber(b, x.next).value.next == |b|
             else ReadContent(b, x.next).Ok? && ReadContent(b, x.next).value.next == |b|
    ensures Skip.WellFormed(r) && Skip.Flatten(r) == b
  {
    var tag, rest := b[0..x.next], b[x.next..|b|];
    Skip.Cut(b, 0, x);
    assert b == tag + rest;
    if w == 0 {
      Skip.Cut(b, x.next, Varint.Read(b, x.next, 0).value);
      r := Skip.VarintField(tag, rest);
    } else {
      r := Skip.DelimitedOf(b, x.next, |b|, tag);
    }
  }

  predicate AllFitting(t: Table, rs: seq<Skip.Record>) { forall j :: 0 <= j < |rs| ==> Fitting(t, rs[j]) }

  lemma {:induction false} RunOfFitting(t: Table, bs: seq<bytes>) returns (rs: seq<Skip.Record>)
    requires AreRecords(t, bs)
    ensures AllFitting(t, rs) && Skip.FlattenAll(rs) == Flat(bs)
    decreases |bs|
  {
    if bs == [] {
      rs := [];
    } else {
      var r := RecordIsFitting(t, bs[0]);
      var rest := RunOfFitting(t, bs[1..]);
      rs := [r] + rest;
      assert rs[1..] == rest;
    }
  }

  lemma {:induction false} FittingRun(t: Table, rs: seq<Skip.Record>) returns (bs: seq<bytes>)
    requires AllFitting(t, rs) && Fits(Skip.FlattenAll(rs))
    ensures AreRecords(t, bs) && Flat(bs) == Skip.FlattenAll(rs)
    decreases |rs|
  {
    if rs == [] {
      bs := [];
    } else {
      FittingIsRecord(t, rs[0]);
      var rest := FittingRun(t, rs[1..]);
      bs := [Skip.Flatten(rs[0])] + rest;
      assert bs[1..] == rest;
    }
  }

  /** The decoder can split an input into records if and only if the input is a run of records of the
      grammar, each of a positive field number and, where the table has the number, of its wire type. */
  lemma SplitIsGrammar(t: Table, d: bytes)
    requires Fits(d)
    ensures Split(t, d).Ok? <==> exists rs :: AllFitting(t, rs) && Skip.FlattenAll(rs) == d
  {
    if Split(t, d).Ok? {
      var bs := RecordsFrom(t, d, ParsesOf(t, d), 0);
      var rs := RunOfFitting(t, bs);
      assert d[0..] == d;
    }
    forall rs | AllFitting(t, rs) && Skip.FlattenAll(rs) == d
      ensures Split(t, d).Ok?
    {
      var bs := FittingRun(t, rs);
      var recs := SplitFlat(t, bs);
    }
  }

  // ----- Nested messages too: exactly what is accepted -----

  /** A payload that every receiver takes: of the right shape, and for a nested message accepted. */
  predicate PayloadOk(kind: Kind, p: Cargo) {
    (if WireTypeOf(kind) == 0 then p.Number? else p.Content?)
    && (kind.KMessage? || kind.KMessages? ==> Decode(kind.sub, Zero(kind.sub), p.b, 0).Ok?)
  }

  predicate RecOk(t: Table, r: Rec) {
    r.Known? ==> r.k < |t.fields| && PayloadOk(t.fields[r.k].kind, r.p)
  }

  predicate AllOk(t: Table, rs: seq<Rec>) { forall j :: 0 <= j < |rs| ==> RecOk(t, rs[j]) }

  lemma {:induction false} ApplyOk(kind: Kind, v: Value, p: Cargo)
    requires TypedValue(kind, v)
    ensures Apply(kind, v, p).Ok? <==> PayloadOk(kind, p)
    decreases kind
  {
    if kind.KMessage? && p.Content? {
      ZeroTyped(kind.sub);
      DecodeOk(kind.sub, Base(kind.sub, v), p.b);
      DecodeOk(kind.sub, Zero(kind.sub), p.b);
    }
  }

  lemma {:induction false} ApplyAllOk(t: Table, m: Msg, rs: seq<Rec>)
    requires Typed(t, m)
    ensures ApplyAll(t, m, rs).Ok? <==> AllOk(t, rs)
    decreases t, |rs|
  {
    if rs != [] {
      var rest := rs[1..];
      assert AllOk(t, rs) <==> RecOk(t, rs[0]) && AllOk(t, rest) by {
        assert rs == [rs[0]] + rest;
      }
      match rs[0]
      case Unknown => ApplyAllOk(t, m, rest);
      case Known(k, p) =>
        if k < |t.fields| {
          ApplyOk(t.fields[k].kind, m.vals[k], p);
          if Apply(t.fields[k].kind, m.vals[k], p).Ok? {
            ApplyTyped(t.fields[k].kind, m.vals[k], p);
            ApplyAllOk(t, Msg(m.vals[k := Apply(t.fields[k].kind, m.vals[k], p).value]), rest);
          }
        }
    }
  }

  /** Acceptance does not depend on the receiver. */
  lemma {:induction false} DecodeOk(t: Table, m: Msg, d: bytes)
    requires Fits(d) && Typed(t, m)
    ensures Decode(t, m, d, 0).Ok? <==> Split(t, d).Ok? && AllOk(t, Split(t, d).value)
    decreases t
  {
    DecodeIsFold(t, m, d);
    if Split(t, d).Ok? { ApplyAllOk(t, m, Split(t, d).value); }
  }

  /** A fitting record whose nested content, if its field is a message, is itself accepted. */
  ghost predicate Acceptable(t: Table, r: Skip.Record)
    decreases t, 0
  {
    Fitting(t, r)
    && match IndexOf(t.fields, NumOf(r))
       case None => true
       case Some(k) =>
         var kind := t.fields[k].kind;
         kind.KMessage? || kind.KMessages? ==> r.Delimited? && AcceptedInput(kind.sub, r.content)
  }

  /** The language of a message type. */
  ghost predicate AcceptedInput(t: Table, d: bytes)
    decreases t, 1
  {
    Fits(d) && exists rs :: Skip.FlattenAll(rs) == d && forall j :: 0 <= j < |rs| ==> Acceptable(t, rs[j])
  }

  lemma ContentOf(t: Table, r: Skip.Record)
    requires Fitting(t, r) && r.Delimited? && Fits(Skip.Flatten(r)) && IndexOf(t.fields, NumOf(r)).Some?
    ensures IsRecord(t, Skip.Flatten(r)) && Fits(r.content)
    ensures RecordOf(t, Skip.Flatten(r)) == Known(IndexOf(t.fields, NumOf(r)).value, Content(r.content))
  {
    var d, j := Skip.Flatten(r), |r.tag|;
    TagRead(r);
    Skip.AtSplit(d, j, r.length, r.content);
    Skip.ReadInside(r.length, Skip.Alone(r.length).value, d, j);
  }

  lemma EntryOf(t: Table, r: Skip.Record)
    requires Fitting(t, r) && Fits(Skip.Flatten(r))
    ensures IsRecord(t, Skip.Flatten(r))
    ensures match IndexOf(t.fields, NumOf(r))
      case None => RecordOf(t, Skip.Flatten(r)) == Unknown
      case Some(k) => var rec := RecordOf(t, Skip.Flatten(r));
        rec.Known? && rec.k == k && (if Skip.TypeOf(r) == 0 then rec.p.Number? else rec.p.Content?)
  {
    FittingIsRecord(t, r);
    TagRead(r);
    if IndexOf(t.fields, NumOf(r)).None? { UnknownParses(t, r); }
  }

  lemma {:induction false} RecordAcceptable(t: Table, r: Skip.Record)
    requires Fitting(t, r) && Fits(Skip.Flatten(r))
    ensures IsRecord(t, Skip.Flatten(r)) && (Acceptable(t, r) <==> RecOk(t, RecordOf(t, Skip.Flatten(r))))
    decreases t, 0
  {
    EntryOf(t, r);
    var f := IndexOf(t.fields, NumOf(r));
    if f.Some? {
      var kind := t.fields[f.value].kind;
      if kind.KMessage? || kind.KMessages? {
        ContentOf(t, r);
        ZeroTyped(kind.sub);
        AcceptedIffGrammar(kind.sub, Zero(kind.sub), r.content);
      }
    }
  }

  predicate MatchesOne(t: Table, r: Skip.Record, rec: Rec) {
    var b := Skip.Flatten(r);
    Fits(b) && IsRecord(t, b) && rec == RecordOf(t, b)
  }

  /** The parsed records of a run, one for each. */
  predicate Matches(t: Table, rs: seq<Skip.Record>, recs: seq<Rec>) {
    |recs| == |rs| && forall j :: 0 <= j < |rs| ==> MatchesOne(t, rs[j], recs[j])
  }

  lemma MatchesCons(t: Table, rs: seq<Skip.Record>, recs: seq<Rec>)
    requires |rs| == |recs| > 0 && MatchesOne(t, rs[0], recs[0]) && Matches(t, rs[1..], recs[1..])
    ensures Matches(t, rs, recs)
  {
    forall j | 0 <= j < |rs| ensures MatchesOne(t, rs[j], recs[j]) {
      if j > 0 { assert MatchesOne(t, rs[1..][j - 1], recs[1..][j - 1]); }
    }
  }

  lemma {:induction false} SplitRecords(t: Table, rs: seq<Skip.Record>) returns (recs: seq<Rec>)
    requires AllFitting(t, rs) && Fits(Skip.FlattenAll(rs))
    ensures Split(t, Skip.FlattenAll(rs)) == Ok(recs) && Matches(t, rs, recs)
    decreases |rs|
  {
    if rs == [] {
      recs := [];
    } else {
      var b := Skip.Flatten(rs[0]);
      FittingIsRecord(t, rs[0]);
      var rest := SplitRecords(t, rs[1..]);
      SplitOne(t, b);
      SplitConcat(t, b, Skip.FlattenAll(rs[1..]), [RecordOf(t, b)]);
      recs := [RecordOf(t, b)] + rest;
      assert recs[1..] == rest;
      MatchesCons(t, rs, recs);
    }
  }

  /** A run of fitting records is accepted exactly when each of them is acceptable. */
  lemma {:induction false} RunAcceptable(t: Table, m: Msg, rs: seq<Skip.Record>)
    requires Typed(t, m) && AllFitting(t, rs) && Fits(Skip.FlattenAll(rs))
    ensures Decode(t, m, Skip.FlattenAll(rs), 0).Ok? <==> forall j :: 0 <= j < |rs| ==> Acceptable(t, rs[j])
    decreases t, 1
  {
    var recs := SplitRecords(t, rs);
    DecodeOk(t, m, Skip.FlattenAll(rs));
    forall j | 0 <= j < |rs| ensures Acceptable(t, rs[j]) <==> RecOk(t, recs[j]) {
      RecordAcceptable(t, rs[j]);
    }
  }

  /** `Unmarshal` accepts an input if and only if it is in the language of the message type: a run of
      grammar records with positive numbers and the table's wire types, whose nested messages are in
      the languages of theirs. */
  lemma {:induction false} AcceptedIffGrammar(t: Table, m: Msg, d: bytes)
    requires Fits(d) && Typed(t, m)
    ensures Decode(t, m, d, 0).Ok? <==> AcceptedInput(t, d)
    decreases t, 2
  {
    if Decode(t, m, d, 0).Ok? {
      DecodeOk(t, m, d);
      SplitIsGrammar(t, d);
      var rs :| AllFitting(t, rs) && Skip.FlattenAll(rs) == d;
      RunAcceptable(t, m, rs);
    }
    forall rs | Skip.FlattenAll(rs) == d && forall j :: 0 <= j < |rs| ==> Acceptable(t, rs[j])
      ensures Decode(t, m, d, 0).Ok?
    {
      RunAcceptable(t, m, rs);
    }
  }
}
