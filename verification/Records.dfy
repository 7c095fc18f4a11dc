/** Decoding as a fold: an input is a run of records, and each entry of the receiver sees only the
    records that name it. */
module Records {
  import opened Machine
  import opened Schema
  import opened Format
  import Varint
  import Skip

  /** The record that would be parsed from each index of an input. */
  type Parses = p: seq<Result<Parsed>> | forall i :: 0 <= i < |p| && p[i].Ok? ==> i < p[i].value.next <= |p|

  function ParsesOf(t: Table, d: bytes): (p: Parses)
    requires Fits(d)
    ensures Follows(p, t, d)
  {
    seq(|d|, i requires 0 <= i < |d| => ParseRecord(t, d, i))
  }

  predicate Follows(p: Parses, t: Table, d: bytes)
    requires Fits(d)
  {
    |p| == |d| && forall i {:trigger ParseRecord(t, d, i)} :: 0 <= i < |d| ==> p[i] == ParseRecord(t, d, i)
  }

  /** The records met from index `i` on, each starting where the one before it ended. */
  function Chain(p: Parses, i: nat): Result<seq<Rec>>
    decreases |p| - i
  {
    if i >= |p| then Ok([])
    else
      match p[i]
      case Err(e) => Err(e)
      case Ok(x) => Cons(x.rec, Chain(p, x.next))
  }

  /** The records of an input. */
  function Split(t: Table, d: bytes): Result<seq<Rec>>
    requires Fits(d)
  {
    Chain(ParsesOf(t, d), 0)
  }

  function Cons(r: Rec, rest: Result<seq<Rec>>): Result<seq<Rec>> {
    match rest case Err(e) => Err(e) case Ok(rs) => Ok([r] + rs)
  }

  /** Records folded into a receiver one after another. */
  function ApplyAll(t: Table, m: Msg, rs: seq<Rec>): Result<Msg>
    decreases |rs|
  {
    if rs == [] then Ok(m)
    else
      match rs[0]
      case Unknown => ApplyAll(t, m, rs[1..])
      case Known(k, p) =>
        if k >= |m.vals| || k >= |t.fields| then Err(WrongWireType)
        else
          match Apply(t.fields[k].kind, m.vals[k], p)
          case Err(e) => Err(e)
          case Ok(v) => ApplyAll(t, Msg(m.vals[k := v]), rs[1..])
  }

  /** Payloads folded into one entry. */
  function Fold(kind: Kind, v: Value, ps: seq<Cargo>): Result<Value>
    decreases |ps|
  {
    if ps == [] then Ok(v)
    else
      match Apply(kind, v, ps[0])
      case Err(e) => Err(e)
      case Ok(v') => Fold(kind, v', ps[1..])
  }

  /** The payloads that name entry `k`, in order. */
  function Project(rs: seq<Rec>, k: nat): seq<Cargo> {
    if rs == [] then []
    else if rs[0].Known? && rs[0].k == k then [rs[0].p] + Project(rs[1..], k)
    else Project(rs[1..], k)
  }

  predicate InTable(t: Table, rs: seq<Rec>) {
    forall j :: 0 <= j < |rs| && rs[j].Known? ==> rs[j].k < |t.fields|
  }

  lemma {:induction false} ChainInTable(t: Table, p: Parses, i: nat, rs: seq<Rec>)
    requires forall j :: 0 <= j < |p| && p[j].Ok? && p[j].value.rec.Known? ==> p[j].value.rec.k < |t.fields|
    requires Chain(p, i) == Ok(rs)
    ensures InTable(t, rs)
    decreases |p| - i
  {
    if i < |p| { ChainInTable(t, p, p[i].value.next, rs[1..]); }
  }

  lemma SplitInTable(t: Table, d: bytes, rs: seq<Rec>)
    requires Fits(d) && Split(t, d) == Ok(rs)
    ensures InTable(t, rs)
  {
    ChainInTable(t, ParsesOf(t, d), 0, rs);
  }

  function Then(t: Table, m: Msg, rs: Result<seq<Rec>>): Result<Msg> {
    match rs case Err(e) => Err(e) case Ok(rs) => ApplyAll(t, m, rs)
  }

  /** Decoding succeeds with a message exactly when the input splits into records and folding them
      gives that message; if it splits, folding gives the error as well. */
  lemma {:induction false} DecodeIsFoldFrom(t: Table, m: Msg, d: bytes, p: Parses, i: nat)
    requires Fits(d) && Follows(p, t, d)
    ensures Agree(Decode(t, m, d, i), Then(t, m, Chain(p, i)))
    ensures Chain(p, i).Ok? ==> Decode(t, m, d, i) == Then(t, m, Chain(p, i))
    decreases |d| - i
  {
    if i < |d| && ParseRecord(t, d, i).Ok? {
      var x := ParseRecord(t, d, i).value;
      match x.rec
      case Unknown => DecodeIsFoldFrom(t, m, d, p, x.next);
      case Known(k, c) =>
        if k < |m.vals| {
          var r := Apply(t.fields[k].kind, m.vals[k], c);
          if r.Ok? { DecodeIsFoldFrom(t, Msg(m.vals[k := r.value]), d, p, x.next); }
        }
    }
  }

  lemma DecodeIsFold(t: Table, m: Msg, d: bytes)
    requires Fits(d)
    ensures Agree(Decode(t, m, d, 0), Then(t, m, Split(t, d)))
    ensures Split(t, d).Ok? ==> Decode(t, m, d, 0) == Then(t, m, Split(t, d))
  {
    DecodeIsFoldFrom(t, m, d, ParsesOf(t, d), 0);
  }

  // ----- Decoding keeps values in their types -----

  lemma {:induction false} ApplyTyped(kind: Kind, v: Value, p: Cargo)
    requires TypedValue(kind, v) && Apply(kind, v, p).Ok?
    ensures TypedValue(kind, Apply(kind, v, p).value)
    decreases kind
  {
    if kind.KMessage? || kind.KMessages? {
      var base := if kind.KMessage? then Base(kind.sub, v) else Zero(kind.sub);
      ZeroTyped(kind.sub);
      DecodeTyped(kind.sub, base, p.b, 0);
    }
  }

  lemma {:induction false} DecodeTyped(t: Table, m: Msg, d: bytes, i: nat)
    requires Fits(d) && Typed(t, m) && Decode(t, m, d, i).Ok?
    ensures Typed(t, Decode(t, m, d, i).value)
    decreases t, |d| - i
  {
    if i < |d| {
      var x := ParseRecord(t, d, i).value;
      match x.rec
      case Unknown => DecodeTyped(t, m, d, x.next);
      case Known(k, p) =>
        ApplyTyped(t.fields[k].kind, m.vals[k], p);
        DecodeTyped(t, Msg(m.vals[k := Apply(t.fields[k].kind, m.vals[k], p).value]), d, x.next);
    }
  }

  // ----- The fold is one fold per entry -----

  function FoldAt(t: Table, m: Msg, rs: seq<Rec>, k: nat): Result<Value>
    requires k < |t.fields| && k < |m.vals|
  {
    Fold(t.fields[k].kind, m.vals[k], Project(rs, k))
  }

  /** Folding records into a message folds, entry by entry, the payloads that name the entry. */
  lemma {:induction false} Fieldwise(t: Table, m: Msg, rs: seq<Rec>)
    requires InTable(t, rs) && |m.vals| == |t.fields|
    ensures ApplyAll(t, m, rs).Ok? <==> forall k :: 0 <= k < |t.fields| ==> FoldAt(t, m, rs, k).Ok?
    ensures ApplyAll(t, m, rs).Ok? ==> |ApplyAll(t, m, rs).value.vals| == |t.fields|
    ensures ApplyAll(t, m, rs).Ok? ==> forall k :: 0 <= k < |t.fields| ==>
              FoldAt(t, m, rs, k) == Ok(ApplyAll(t, m, rs).value.vals[k])
    decreases |rs|
  {
    if rs == [] {
      forall k | 0 <= k < |t.fields| ensures FoldAt(t, m, rs, k) == Ok(m.vals[k]) {}
    } else {
      var rest := rs[1..];
      match rs[0]
      case Unknown =>
        Fieldwise(t, m, rest);
        forall k | 0 <= k < |t.fields| ensures FoldAt(t, m, rs, k) == FoldAt(t, m, rest, k) {}
      case Known(j, p) =>
        var r := Apply(t.fields[j].kind, m.vals[j], p);
        HeadFold(t, m, rs);
        if r.Ok? {
          var m' := Msg(m.vals[j := r.value]);
          Fieldwise(t, m', rest);
          assert forall k :: 0 <= k < |t.fields| ==> FoldAt(t, m, rs, k) == FoldAt(t, m', rest, k);
          assert forall k {:trigger FoldAt(t, m', rest, k)} :: 0 <= k < |t.fields| ==>
                   FoldAt(t, m, rs, k) == FoldAt(t, m', rest, k);
        } else {
          assert !FoldAt(t, m, rs, j).Ok?;
        }
    }
  }

  lemma HeadFold(t: Table, m: Msg, rs: seq<Rec>)
    requires rs != [] && rs[0].Known? && rs[0].k < |t.fields| && |m.vals| == |t.fields|
    ensures var j, r := rs[0].k, Apply(t.fields[rs[0].k].kind, m.vals[rs[0].k], rs[0].p);
      if r.Err? then FoldAt(t, m, rs, j).Err?
      else forall k :: 0 <= k < |t.fields| ==>
             FoldAt(t, m, rs, k) == FoldAt(t, Msg(m.vals[j := r.value]), rs[1..], k)
  {
    var j, r := rs[0].k, Apply(t.fields[rs[0].k].kind, m.vals[rs[0].k], rs[0].p);
    var ps := Project(rs, j);
    assert ps[0] == rs[0].p && ps[1..] == Project(rs[1..], j);
  }

  /** Two runs of records with the same payloads for every entry do the same to every receiver. */
  lemma SameProjections(t: Table, m: Msg, rs: seq<Rec>, rs': seq<Rec>)
    requires InTable(t, rs) && InTable(t, rs') && |m.vals| == |t.fields|
    requires forall k :: 0 <= k < |t.fields| ==> Project(rs, k) == Project(rs', k)
    ensures Agree(ApplyAll(t, m, rs), ApplyAll(t, m, rs'))
  {
    Fieldwise(t, m, rs);
    Fieldwise(t, m, rs');
    assert forall k :: 0 <= k < |t.fields| ==> FoldAt(t, m, rs, k) == FoldAt(t, m, rs', k);
    if ApplyAll(t, m, rs).Ok? {
      var a, b := ApplyAll(t, m, rs).value, ApplyAll(t, m, rs').value;
      forall k | 0 <= k < |t.fields| ensures a.vals[k] == b.vals[k] {
        assert FoldAt(t, m, rs, k) == FoldAt(t, m, rs', k);
      }
      assert a.vals == b.vals;
    }
  }

  lemma {:induction false} ProjectConcat(rs: seq<Rec>, rs': seq<Rec>, k: nat)
    ensures Project(rs + rs', k) == Project(rs, k) + Project(rs', k)
    decreases |rs|
  {
    if rs == [] {
      assert rs + rs' == rs';
    } else {
      assert (rs + rs')[1..] == rs[1..] + rs';
      ProjectConcat(rs[1..], rs', k);
    }
  }

  // ----- A record means the same wherever it stands -----

  predicate SameBytes(d: bytes, i: nat, j: nat, d': bytes, i': nat) {
    i <= j <= |d| && i' + (j - i) <= |d'| && d'[i'..i' + (j - i)] == d[i..j]
  }

  lemma SameBytesPart(d: bytes, i: nat, j: nat, d': bytes, i': nat, a: nat, b: nat)
    requires SameBytes(d, i, j, d', i') && i <= a <= b <= j
    ensures SameBytes(d, a, b, d', i' + (a - i))
  {
    var c, c' := d[i..j], d'[i'..i' + (j - i)];
    forall x | 0 <= x < b - a
      ensures d'[i' + (a - i)..i' + (b - i)][x] == d[a..b][x]
    {
      assert c[x + (a - i)] == d[a + x] && c'[x + (a - i)] == d'[i' + (a - i) + x];
    }
  }

  lemma ReadContentLocal(d: bytes, i: nat, d': bytes, i': nat, x: Piece)
    requires Fits(d) && Fits(d') && ReadContent(d, i) == Ok(x) && SameBytes(d, i, x.next, d', i')
    ensures ReadContent(d', i') == Ok(Piece(x.p, i' + (x.next - i)))
  {
    var r := Varint.Read(d, i, 0).value;
    SameBytesPart(d, i, x.next, d', i', i, r.next);
    Varint.ReadLocal(d, i, d', i', 0, r);
    SameBytesPart(d, i, x.next, d', i', r.next, x.next);
  }

  lemma ParseUnknownLocal(d: bytes, i: nat, d': bytes, i': nat, n: nat)
    requires Fits(d) && Fits(d') && i <= |d| && ParseUnknown(d, i) == Ok(Parsed(Unknown, n))
    requires SameBytes(d, i, n, d', i')
    ensures ParseUnknown(d', i') == Ok(Parsed(Unknown, i' + (n - i)))
  {
    var s, s' := d[i..], d'[i'..];
    assert s[0..n - i] == d[i..n] && s'[0..n - i] == d'[i'..i' + (n - i)];
    Skip.SkipLocal(s, 0, n - i, s', 0);
  }

  lemma ParseKnownLocal(k: nat, kind: Kind, w: nat, d: bytes, i: nat, d': bytes, i': nat, x: Parsed)
    requires Fits(d) && Fits(d') && ParseKnown(k, kind, w, d, i) == Ok(x) && SameBytes(d, i, x.next, d', i')
    ensures ParseKnown(k, kind, w, d', i') == Ok(Parsed(x.rec, i' + (x.next - i)))
  {
    if w == 0 {
      Varint.ReadLocal(d, i, d', i', 0, Varint.Read(d, i, 0).value);
    } else {
      ReadContentLocal(d, i, d', i', ReadContent(d, i).value);
    }
  }

  lemma ParseTaggedLocal(t: Table, raw: nat, d: bytes, i: nat, j: nat, d': bytes, i': nat, x: Parsed)
    requires Fits(d) && Fits(d') && i < j <= x.next <= |d| && ParseTagged(t, raw, d, i, j) == Ok(x)
    requires SameBytes(d, i, x.next, d', i')
    ensures ParseTagged(t, raw, d', i', i' + (j - i)) == Ok(Parsed(x.rec, i' + (x.next - i)))
  {
    var f := IndexOf(t.fields, FieldNum(raw));
    if f.None? {
      ParseUnknownLocal(d, i, d', i', x.next);
    } else {
      SameBytesPart(d, i, x.next, d', i', j, x.next);
      ParseKnownLocal(f.value, t.fields[f.value].kind, Skip.WireType(raw), d, j, d', i' + (j - i), x);
    }
  }

  lemma TagInside(t: Table, d: bytes, i: nat, r: Varint.Raw, x: Parsed)
    requires Fits(d) && Varint.Read(d, i, 0) == Ok(r) && ParseTagged(t, r.value, d, i, r.next) == Ok(x)
    ensures r.next <= x.next
  {
    if IndexOf(t.fields, FieldNum(r.value)).None? { UnknownCoversTag(d, i, r, x.next); }
  }

  /** Parsing a record depends only on its own bytes. */
  lemma ParseLocal(t: Table, d: bytes, i: nat, d': bytes, i': nat, x: Parsed)
    requires Fits(d) && Fits(d') && ParseRecord(t, d, i) == Ok(x) && SameBytes(d, i, x.next, d', i')
    ensures ParseRecord(t, d', i') == Ok(Parsed(x.rec, i' + (x.next - i)))
  {
    var r := Varint.Read(d, i, 0).value;
    TagInside(t, d, i, r, x);
    SameBytesPart(d, i, x.next, d', i', i, r.next);
    Varint.ReadLocal(d, i, d', i', 0, r);
    ParseTaggedLocal(t, r.value, d, i, r.next, d', i', x);
  }

  lemma UnknownCoversTag(d: bytes, i: nat, r: Varint.Raw, n: nat)
    requires Fits(d) && i <= |d| && ParseUnknown(d, i) == Ok(Parsed(Unknown, n)) && Varint.Read(d, i, 0) == Ok(r)
    ensures r.next <= n
  {
    var s := d[i..];
    assert s[0..r.next - i] == d[i..r.next];
    Varint.ReadLocal(d, i, s, 0, 0, r);
    Skip.SkipCoversTag(s, Varint.Raw(r.value, r.next - i), n - i);
  }

  lemma ParseLocalAt(t: Table, d: bytes, p: Parses, i: nat, d': bytes, p': Parses, i': nat, x: Parsed)
    requires Fits(d) && Fits(d') && Follows(p, t, d) && Follows(p', t, d')
    requires i < |p| && p[i] == Ok(x) && SameBytes(d, i, x.next, d', i')
    ensures i' < |p'| && p'[i'] == Ok(Parsed(x.rec, i' + (x.next - i)))
  {
    assert ParseRecord(t, d, i) == Ok(x);
    ParseLocal(t, d, i, d', i', x);
  }

  function Join(rs: seq<Rec>, rest: Result<seq<Rec>>): Result<seq<Rec>> {
    match rest case Err(e) => Err(e) case Ok(rs') => Ok(rs + rs')
  }

  lemma JoinCons(r: Rec, rs: seq<Rec>, rest: Result<seq<Rec>>)
    ensures Join([r] + rs, rest) == Cons(r, Join(rs, rest))
  {
    if rest.Ok? { assert [r] + (rs + rest.value) == ([r] + rs) + rest.value; }
  }

  lemma JoinNothing(rest: Result<seq<Rec>>)
    ensures Join([], rest) == rest
  {
    if rest.Ok? { assert [] + rest.value == rest.value; }
  }

  /** Where a chain of records stands inside another, it yields the same records there, and what
      follows yields its own. */
  lemma {:induction false} ChainInside(p: Parses, i: nat, p': Parses, i': nat, rs: seq<Rec>)
    requires Carried(p, i, p', i') && Chain(p, i) == Ok(rs)
    ensures Agree(Chain(p', i'), Join(rs, Chain(p', i' + (|p| - i))))
    decreases |p| - i
  {
    if i < |p| {
      var x := p[i].value;
      assert p'[i'] == Ok(Parsed(x.rec, i' + (x.next - i)));
      ChainInside(p, x.next, p', i' + (x.next - i), rs[1..]);
      JoinCons(x.rec, rs[1..], Chain(p', i' + (|p| - i)));
      assert rs == [x.rec] + rs[1..];
    } else {
      JoinNothing(Chain(p', i'));
    }
  }

  /** Every record of `p` from `i` on is a record of `p'` at the same distance from `i'`. */
  predicate Carried(p: Parses, i: nat, p': Parses, i': nat) {
    i <= |p| && i' + (|p| - i) <= |p'|
    && forall j {:trigger p[j]} :: i <= j < |p| && p[j].Ok? ==>
         p'[i' + (j - i)] == Ok(Parsed(p[j].value.rec, i' + (p[j].value.next - i)))
  }

  lemma BytesCarryRecords(t: Table, d: bytes, p: Parses, i: nat, d': bytes, p': Parses, i': nat)
    requires Fits(d) && Fits(d') && Follows(p, t, d) && Follows(p', t, d')
    requires i <= |d| && SameBytes(d, i, |d|, d', i')
    ensures Carried(p, i, p', i')
  {
    forall j | i <= j < |p| && p[j].Ok?
      ensures p'[i' + (j - i)] == Ok(Parsed(p[j].value.rec, i' + (p[j].value.next - i)))
    {
      var x := p[j].value;
      SameBytesPart(d, i, |d|, d', i', j, x.next);
      ParseLocalAt(t, d, p, j, d', p', i' + (j - i), x);
    }
  }

  lemma ChainAll(p: Parses, i: nat, p': Parses, i': nat)
    requires Carried(p, i, p', i') && |p| - i == |p'| - i' && Chain(p, i).Ok?
    ensures Chain(p', i') == Chain(p, i)
  {
    ChainInside(p, i, p', i', Chain(p, i).value);
    assert Chain(p, i).value + [] == Chain(p, i).value;
  }

  /** A suffix splits the same as a slice of its own. */
  lemma SuffixChains(t: Table, q: bytes, p: Parses, i: nat, d: bytes, p': Parses)
    requires Fits(q) && Fits(d) && Follows(p, t, q) && Follows(p', t, d) && i <= |d| && d[i..] == q
    ensures Agree(Chain(p', i), Chain(p, 0))
  {
    assert d[i..i + |q|] == q == q[0..|q|];
    BytesCarryRecords(t, q, p, 0, d, p', i);
    BytesCarryRecords(t, d, p', i, q, p, 0);
    if Chain(p, 0).Ok? { ChainAll(p, 0, p', i); }
    if Chain(p', i).Ok? { ChainAll(p', i, p, 0); }
  }

  lemma ConcatChains(t: Table, a: bytes, pa: Parses, b: bytes, pb: Parses, p: Parses, rs: seq<Rec>)
    requires Fits(a + b) && Follows(pa, t, a) && Follows(pb, t, b) && Follows(p, t, a + b)
    requires Chain(pa, 0) == Ok(rs)
    ensures Agree(Chain(p, 0), Join(rs, Chain(pb, 0)))
  {
    var d := a + b;
    assert d[0..|a|] == a == a[0..|a|] && d[|a|..] == b;
    BytesCarryRecords(t, a, pa, 0, d, p, 0);
    ChainInside(pa, 0, p, 0, rs);
    SuffixChains(t, b, pb, |a|, d, p);
  }

  /** Splitting a concatenation whose first part splits. */
  lemma SplitConcat(t: Table, a: bytes, b: bytes, rs: seq<Rec>)
    requires Fits(a + b) && Split(t, a) == Ok(rs)
    ensures Agree(Split(t, a + b), Join(rs, Split(t, b)))
  {
    ConcatChains(t, a, ParsesOf(t, a), b, ParsesOf(t, b), ParsesOf(t, a + b), rs);
  }
}
