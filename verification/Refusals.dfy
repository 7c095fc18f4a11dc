/** Inputs that are refused: what they leave in the receiver, and which error they give. */
module Refusals {
  import opened Machine
  import opened Schema
  import opened Format
  import opened Records
  import opened RoundTrip
  import Varint
  import Skip

  // ----- What is left in the receiver -----

  /** The first record that fails, or the end of the input, and the message decoded until then. */
  datatype Halt = Halt(at: nat, m: Msg)

  function Before(t: Table, m: Msg, d: bytes, i: nat): (h: Halt)
    requires Fits(d) && i <= |d|
    ensures i <= h.at <= |d|
    decreases |d| - i
  {
    if i == |d| then Halt(i, m)
    else
      match ParseRecord(t, d, i)
      case Err(_) => Halt(i, m)
      case Ok(Parsed(Unknown, next)) => Before(t, m, d, next)
      case Ok(Parsed(Known(k, p), next)) =>
        if k >= |m.vals| then Halt(i, m)
        else
          match Apply(t.fields[k].kind, m.vals[k], p)
          case Err(_) => Halt(i, m)
          case Ok(v) => Before(t, Msg(m.vals[k := v]), d, next)
  }

  /** What a payload that its field refuses leaves there: a nested message as far as it was decoded. */
  function NestedLeft(kind: Kind, v: Value, p: Cargo): Value
    decreases kind, 0
  {
    if !p.Content? then v
    else if kind.KMessage? then Child(Some(Left(kind.sub, Base(kind.sub, v), p.b)))
    else if kind.KMessages? && v.Children? then Children(v.ms + [Left(kind.sub, Zero(kind.sub), p.b)])
    else v
  }

  /** What a record that fails after its tag leaves in its field. An integer is reset and gathered in
      place, so it holds the groups that were read. */
  function FieldBroken(kind: Kind, v: Value, wireType: nat, d: bytes, j: nat): Value
    requires Fits(d)
    decreases kind, 1
  {
    if wireType != WireTypeOf(kind) then v
    else if kind.KInt32? then Int(Signed32(Varint.Gathered(d, j, 0) % TWO32))
    else if kind.KInt64? then Int(Signed64(Varint.Gathered(d, j, 0) % TWO64))
    else if kind.KBool? then v
    else
      match ReadContent(d, j)
      case Err(_) => v
      case Ok(x) => NestedLeft(kind, v, x.p)
  }

  /** What the record at `i`, which fails, leaves of the message. */
  function Broken(t: Table, m: Msg, d: bytes, i: nat): Msg
    requires Fits(d)
    decreases t, 0
  {
    match Varint.Read(d, i, 0)
    case Err(_) => m
    case Ok(x) =>
      if Skip.WireType(x.value) == 4 || FieldNum(x.value) <= 0 then m
      else
        match IndexOf(t.fields, FieldNum(x.value))
        case None => m
        case Some(k) =>
          if k >= |m.vals| then m
          else Msg(m.vals[k := FieldBroken(t.fields[k].kind, m.vals[k], Skip.WireType(x.value), d, x.next)])
  }

  /** The receiver after decoding, whether the input was accepted or not. */
  function Left(t: Table, m: Msg, d: bytes): Msg
    requires Fits(d)
    decreases t, 1
  {
    var h := Before(t, m, d, 0);
    if h.at == |d| then h.m else Broken(t, h.m, d, h.at)
  }

  /** The message after a record that was parsed, or the error of its nested content. */
  function Advance(t: Table, m: Msg, rec: Rec): Result<Msg> {
    match rec
    case Unknown => Ok(m)
    case Known(k, p) =>
      if k >= |m.vals| || k >= |t.fields| then Err(WrongWireType)
      else
        match Apply(t.fields[k].kind, m.vals[k], p)
        case Err(e) => Err(e)
        case Ok(v) => Ok(Msg(m.vals[k := v]))
  }

  lemma Ahead(t: Table, m: Msg, d: bytes, i: nat, x: Parsed)
    requires Fits(d) && i < |d| && ParseRecord(t, d, i) == Ok(x)
    ensures var r := Advance(t, m, x.rec);
      if r.Err? then Decode(t, m, d, i) == Err(r.error) && Before(t, m, d, i) == Halt(i, m)
      else Decode(t, m, d, i) == Decode(t, r.value, d, x.next) && Before(t, m, d, i) == Before(t, r.value, d, x.next)
  {
  }

  lemma Stops(t: Table, m: Msg, d: bytes, i: nat)
    requires Fits(d) && i < |d| && ParseRecord(t, d, i).Err?
    ensures Decode(t, m, d, i) == Err(ParseRecord(t, d, i).error) && Before(t, m, d, i) == Halt(i, m)
  {
  }

  lemma {:induction false} BeforeDecodes(t: Table, m: Msg, d: bytes, i: nat)
    requires Fits(d) && i <= |d|
    ensures var h := Before(t, m, d, i);
      Decode(t, m, d, i) == Decode(t, h.m, d, h.at) && (h.at < |d| ==> Decode(t, h.m, d, h.at).Err?)
    decreases |d| - i
  {
    if i < |d| && ParseRecord(t, d, i).Ok? {
      var x := ParseRecord(t, d, i).value;
      Ahead(t, m, d, i, x);
      if Advance(t, m, x.rec).Ok? { BeforeDecodes(t, Advance(t, m, x.rec).value, d, x.next); }
    }
  }

  lemma {:induction false} PrefixDecodes(t: Table, m: Msg, d: bytes, i: nat)
    requires Fits(d) && i <= |d|
    ensures var h := Before(t, m, d, i); Decode(t, m, d[..h.at], i) == Ok(h.m)
    decreases |d| - i
  {
    var h := Before(t, m, d, i);
    var e := d[..h.at];
    if i < |d| && ParseRecord(t, d, i).Ok? && h.at > i {
      var x := ParseRecord(t, d, i).value;
      Ahead(t, m, d, i, x);
      assert e[i..x.next] == d[i..x.next];
      ParseLocal(t, d, i, e, i, x);
      Ahead(t, m, e, i, x);
      PrefixDecodes(t, Advance(t, m, x.rec).value, d, x.next);
    }
  }

  lemma {:induction false} BeforeTyped(t: Table, m: Msg, d: bytes, i: nat)
    requires Fits(d) && i <= |d| && Typed(t, m)
    ensures Typed(t, Before(t, m, d, i).m)
    decreases |d| - i
  {
    if i < |d| && ParseRecord(t, d, i).Ok? {
      var x := ParseRecord(t, d, i).value;
      Ahead(t, m, d, i, x);
      if Advance(t, m, x.rec).Ok? {
        if x.rec.Known? { ApplyTyped(t.fields[x.rec.k].kind, m.vals[x.rec.k], x.rec.p); }
        BeforeTyped(t, Advance(t, m, x.rec).value, d, x.next);
      }
    }
  }

  /** Whatever the input, the receiver stays within its Go types. */
  lemma {:induction false} LeftTyped(t: Table, m: Msg, d: bytes)
    requires Fits(d) && Typed(t, m)
    ensures Typed(t, Left(t, m, d))
    decreases t, 1
  {
    var h := Before(t, m, d, 0);
    BeforeTyped(t, m, d, 0);
    if h.at < |d| { BrokenTyped(t, h.m, d, h.at); }
  }

  lemma {:induction false} BrokenTyped(t: Table, m: Msg, d: bytes, i: nat)
    requires Fits(d) && Typed(t, m)
    ensures Typed(t, Broken(t, m, d, i))
    decreases t, 0
  {
    match Varint.Read(d, i, 0)
    case Err(_) =>
    case Ok(x) =>
      match IndexOf(t.fields, FieldNum(x.value))
      case None =>
      case Some(k) => FieldBrokenTyped(t.fields[k].kind, m.vals[k], Skip.WireType(x.value), d, x.next);
  }

  lemma {:induction false} FieldBrokenTyped(kind: Kind, v: Value, wireType: nat, d: bytes, j: nat)
    requires Fits(d) && TypedValue(kind, v)
    ensures TypedValue(kind, FieldBroken(kind, v, wireType, d, j))
    decreases kind, 1
  {
    if ReadContent(d, j).Ok? && (kind.KMessage? || kind.KMessages?) {
      var b := ReadContent(d, j).value.p.b;
      ZeroTyped(kind.sub);
      LeftTyped(kind.sub, if kind.KMessage? then Base(kind.sub, v) else Zero(kind.sub), b);
    }
  }

  /** The messages differ at most in entry `k`. */
  predicate OnlyAt(x: Msg, y: Msg, k: nat) {
    |x.vals| == |y.vals| && forall j :: 0 <= j < |x.vals| && j != k ==> x.vals[j] == y.vals[j]
  }

  predicate KeptInPlace(kind: Kind) { kind.KInt32? || kind.KInt64? || kind.KMessage? || kind.KMessages? }

  /** The records before the first bad one are decoded as if they were the whole input. That record
      touches one field at most, and only an integer, nested message or list of messages: an input is
      refused if and only if there is such a record. */
  lemma RefusedLeaves(t: Table, m: Msg, d: bytes)
    requires Fits(d) && |m.vals| == |t.fields|
    ensures var h := Before(t, m, d, 0);
      && Decode(t, m, d[..h.at], 0) == Ok(h.m)
      && (Decode(t, m, d, 0).Ok? <==> h.at == |d|)
      && (Decode(t, m, d, 0).Ok? ==> Decode(t, m, d, 0) == Ok(Left(t, m, d)))
      && (Left(t, m, d) == h.m
          || exists k :: 0 <= k < |t.fields| && OnlyAt(Left(t, m, d), h.m, k) && KeptInPlace(t.fields[k].kind))
  {
    var h := Before(t, m, d, 0);
    PrefixDecodes(t, m, d, 0);
    BeforeDecodes(t, m, d, 0);
    BeforeLength(t, m, d, 0);
    if h.at < |d| { BrokenField(t, h.m, d, h.at); }
  }

  lemma {:induction false} BeforeLength(t: Table, m: Msg, d: bytes, i: nat)
    requires Fits(d) && i <= |d|
    ensures |Before(t, m, d, i).m.vals| == |m.vals|
    decreases |d| - i
  {
    if i < |d| && ParseRecord(t, d, i).Ok? {
      var x := ParseRecord(t, d, i).value;
      Ahead(t, m, d, i, x);
      if Advance(t, m, x.rec).Ok? { BeforeLength(t, Advance(t, m, x.rec).value, d, x.next); }
    }
  }

  lemma BrokenField(t: Table, m: Msg, d: bytes, i: nat)
    requires Fits(d) && |m.vals| == |t.fields|
    ensures Broken(t, m, d, i) == m
            || exists k :: 0 <= k < |t.fields| && OnlyAt(Broken(t, m, d, i), m, k) && KeptInPlace(t.fields[k].kind)
  {
    match Varint.Read(d, i, 0)
    case Err(_) =>
    case Ok(x) =>
      match IndexOf(t.fields, FieldNum(x.value))
      case None =>
      case Some(k) =>
        var v := FieldBroken(t.fields[k].kind, m.vals[k], Skip.WireType(x.value), d, x.next);
        if KeptInPlace(t.fields[k].kind) {
          assert OnlyAt(Msg(m.vals[k := v]), m, k);
        } else {
          assert m.vals[k := m.vals[k]] == m.vals;
        }
  }

  // ----- Which error is given -----

  /** A varint read from a later place in a longer input. */
  function Moved(r: Result<Varint.Raw>, n: nat): Result<Varint.Raw> {
    match r case Err(e) => Err(e) case Ok(x) => Ok(Varint.Raw(x.value, x.next + n))
  }

  lemma {:induction false} ReadMoved(a: bytes, b: bytes, i: nat, k: nat)
    requires k <= 10
    ensures Varint.Read(a + b, |a| + i, k) == Moved(Varint.Read(b, i, k), |a|)
    decreases 10 - k
  {
    if k < 10 && i < |b| { ReadMoved(a, b, i + 1, k + 1); }
  }

  /** Where a length-delimited field whose length is read at `j` claims to end. */
  function ContentClaim(d: bytes, j: nat): Option<nat> {
    match Varint.Read(d, j, 0)
    case Err(_) => None
    case Ok(x) =>
      var length := Signed64(x.value % TWO64);
      if length < 0 then None else Some(x.next + length)
  }

  /** Where the record at `i` claims to end, if it is one that says so. */
  function ClaimedEnd(t: Table, d: bytes, i: nat): Option<nat>
    requires Fits(d) && i <= |d|
  {
    match Varint.Read(d, i, 0)
    case Err(_) => None
    case Ok(x) =>
      if Skip.WireType(x.value) == 4 || FieldNum(x.value) <= 0 then None
      else
        match IndexOf(t.fields, FieldNum(x.value))
        case None => (match Skip.SkipFrom(d[i..], 0) case Err(_) => None case Ok(n) => Some(i + n))
        case Some(k) =>
          if WireTypeOf(t.fields[k].kind) == 2 == Skip.WireType(x.value) then ContentClaim(d, x.next) else None
  }

  /** An end past an input of `size` bytes that is an `int`, but is none `n` bytes further on. */
  predicate WrapsBehind(end: Option<nat>, size: nat, n: nat) {
    end.Some? && size < end.value < TWO63 <= n + end.value
  }

  /** The same, for the first record of `d` from `i` on that fails. */
  predicate EndWraps(t: Table, m: Msg, d: bytes, i: nat, n: nat)
    requires Fits(d) && i <= |d|
  {
    WrapsBehind(ClaimedEnd(t, d, Before(t, m, d, i).at), |d|, n)
  }

  /** The outcomes differ exactly when told, and then an unexpected end becomes an invalid length. */
  predicate DifferIff<T(==)>(over: bool, whole: Result<T>, part: Result<T>) {
    (whole != part <==> over) && (over ==> whole == Err(InvalidLength) && part == Err(UnexpectedEOF))
  }

  lemma DifferTwice<T>(over: bool, whole: Result<T>, less: bool, shorter: Result<T>, part: Result<T>)
    requires DifferIff(over, whole, part) && DifferIff(less, shorter, part) && (less ==> over)
    ensures DifferIff(over && !less, whole, shorter)
  {
  }

  /** The outcome `n` bytes further on: another error if the index wraps there. */
  function Rebased<T>(over: bool, r: Result<T>): Result<T> {
    if over then Err(InvalidLength) else r
  }

  function MovedRead(r: Result<Piece>, n: nat): Result<Piece> {
    match r case Err(e) => Err(e) case Ok(x) => Ok(Piece(x.p, x.next + n))
  }

  lemma ReadContentMoved(a: bytes, b: bytes, i: nat)
    requires Fits(a + b)
    ensures var over := WrapsBehind(ContentClaim(b, i), |b|, |a|);
      && ReadContent(a + b, |a| + i) == Rebased(over, MovedRead(ReadContent(b, i), |a|))
      && (over ==> ReadContent(b, i) == Err(UnexpectedEOF))
  {
    ReadMoved(a, b, i, 0);
    if ReadContent(b, i).Ok? {
      var r := Varint.Read(b, i, 0).value;
      var n := ReadContent(b, i).value.next;
      assert (a + b)[|a| + r.next..|a| + n] == b[r.next..n];
    }
  }

  function MovedParse(r: Result<Parsed>, n: nat): Result<Parsed> {
    match r case Err(e) => Err(e) case Ok(x) => Ok(Parsed(x.rec, x.next + n))
  }

  lemma ParseUnknownMoved(a: bytes, b: bytes, i: nat)
    requires Fits(a + b) && i <= |b|
    ensures var skipped := Skip.SkipFrom(b[i..], 0);
      var over := skipped.Ok? && WrapsBehind(Some(i + skipped.value), |b|, |a|);
      && ParseUnknown(a + b, |a| + i) == Rebased(over, MovedParse(ParseUnknown(b, i), |a|))
      && (over ==> ParseUnknown(b, i) == Err(UnexpectedEOF))
  {
    assert (a + b)[|a| + i..] == b[i..];
  }

  lemma ParseKnownMoved(k: nat, kind: Kind, w: nat, a: bytes, b: bytes, j: nat)
    requires Fits(a + b)
    ensures var over := WireTypeOf(kind) == 2 == w && WrapsBehind(ContentClaim(b, j), |b|, |a|);
      && ParseKnown(k, kind, w, a + b, |a| + j) == Rebased(over, MovedParse(ParseKnown(k, kind, w, b, j), |a|))
      && (over ==> ParseKnown(k, kind, w, b, j) == Err(UnexpectedEOF))
  {
    ReadMoved(a, b, j, 0);
    ReadContentMoved(a, b, j);
  }

  /** A record gives the same outcome wherever it stands, but for a claimed end that wraps there. */
  lemma ParseMoved(t: Table, a: bytes, b: bytes, i: nat)
    requires Fits(a + b) && i <= |b|
    ensures var over := WrapsBehind(ClaimedEnd(t, b, i), |b|, |a|);
      && ParseRecord(t, a + b, |a| + i) == Rebased(over, MovedParse(ParseRecord(t, b, i), |a|))
      && (over ==> ParseRecord(t, b, i) == Err(UnexpectedEOF))
  {
    ReadMoved(a, b, i, 0);
    if Varint.Read(b, i, 0).Ok? {
      var x := Varint.Read(b, i, 0).value;
      match IndexOf(t.fields, FieldNum(x.value))
      case None => ParseUnknownMoved(a, b, i);
      case Some(k) => ParseKnownMoved(k, t.fields[k].kind, Skip.WireType(x.value), a, b, x.next);
    }
  }

  /** The outcomes of a part alone and behind `a` differ as `DifferIff` says. */
  predicate Moves(t: Table, m: Msg, a: bytes, b: bytes, i: nat)
    requires Fits(a + b) && i <= |b|
  {
    DifferIff(EndWraps(t, m, b, i, |a|), Decode(t, m, a + b, |a| + i), Decode(t, m, b, i))
  }

  /** What stands before a part changes the outcome of the part if and only if the first record that
      fails there claims an end that is past the part, and that is past the largest `int` as well once
      the part is moved. Then an unexpected end becomes an invalid length. */
  lemma DecodeMoved(t: Table, m: Msg, a: bytes, b: bytes, i: nat)
    requires Fits(a + b) && i <= |b|
    ensures DifferIff(EndWraps(t, m, b, i, |a|), Decode(t, m, a + b, |a| + i), Decode(t, m, b, i))
  {
    AllMoves(t, m, a, b, i);
  }

  lemma {:induction false} AllMoves(t: Table, m: Msg, a: bytes, b: bytes, i: nat)
    requires Fits(a + b) && i <= |b|
    ensures Moves(t, m, a, b, i)
    decreases |b| - i
  {
    if i == |b| || ParseRecord(t, b, i).Err? {
      FailureMoves(t, m, a, b, i);
    } else {
      var x := ParseRecord(t, b, i).value;
      if Advance(t, m, x.rec).Ok? { AllMoves(t, Advance(t, m, x.rec).value, a, b, x.next); }
      RecordMoves(t, m, a, b, i, x);
    }
  }

  lemma FailureMoves(t: Table, m: Msg, a: bytes, b: bytes, i: nat)
    requires Fits(a + b) && i <= |b| && (i == |b| || ParseRecord(t, b, i).Err?)
    ensures Moves(t, m, a, b, i)
  {
    ParseMoved(t, a, b, i);
    if i < |b| {
      Stops(t, m, b, i);
      Stops(t, m, a + b, |a| + i);
    }
  }

  lemma RecordMoves(t: Table, m: Msg, a: bytes, b: bytes, i: nat, x: Parsed)
    requires Fits(a + b) && i < |b| && ParseRecord(t, b, i) == Ok(x)
    requires Advance(t, m, x.rec).Ok? ==> Moves(t, Advance(t, m, x.rec).value, a, b, x.next)
    ensures Moves(t, m, a, b, i)
  {
    if Advance(t, m, x.rec).Ok? {
      AcceptedMoved(t, m, a, b, i, x);
    } else {
      RecordMoved(t, m, a, b, i, x);
      WrapsAhead(t, m, b, i, x, |a|);
      Ahead(t, m, b, i, x);
    }
  }

  lemma AcceptedMoved(t: Table, m: Msg, a: bytes, b: bytes, i: nat, x: Parsed)
    requires Fits(a + b) && i < |b| && ParseRecord(t, b, i) == Ok(x) && Advance(t, m, x.rec).Ok?
    ensures var m' := Advance(t, m, x.rec).value;
      && EndWraps(t, m, b, i, |a|) == EndWraps(t, m', b, x.next, |a|)
      && Decode(t, m, a + b, |a| + i) == Decode(t, m', a + b, |a| + x.next)
      && Decode(t, m, b, i) == Decode(t, m', b, x.next)
  {
    RecordMoved(t, m, a, b, i, x);
    WrapsAhead(t, m, b, i, x, |a|);
    Ahead(t, m, b, i, x);
  }

  lemma RecordMoved(t: Table, m: Msg, a: bytes, b: bytes, i: nat, x: Parsed)
    requires Fits(a + b) && i < |b| && ParseRecord(t, b, i) == Ok(x)
    ensures var r := Advance(t, m, x.rec);
      if r.Err? then Decode(t, m, a + b, |a| + i) == Err(r.error)
      else Decode(t, m, a + b, |a| + i) == Decode(t, r.value, a + b, |a| + x.next)
  {
    ClaimKept(t, b, i, x);
    ParseMoved(t, a, b, i);
    Ahead(t, m, a + b, |a| + i, Parsed(x.rec, |a| + x.next));
  }

  /** A record that was parsed ends where it claims to. */
  lemma ClaimKept(t: Table, d: bytes, i: nat, x: Parsed)
    requires Fits(d) && i <= |d| && ParseRecord(t, d, i) == Ok(x)
    ensures ClaimedEnd(t, d, i).Some? ==> ClaimedEnd(t, d, i).value == x.next <= |d|
  {
  }

  lemma WrapsAhead(t: Table, m: Msg, d: bytes, i: nat, x: Parsed, n: nat)
    requires Fits(d) && i < |d| && ParseRecord(t, d, i) == Ok(x)
    ensures var r := Advance(t, m, x.rec);
      EndWraps(t, m, d, i, n) <==> r.Ok? && EndWraps(t, r.value, d, x.next, n)
  {
    ClaimKept(t, d, i, x);
    Ahead(t, m, d, i, x);
  }

  lemma {:induction false} AcceptedPrefix(t: Table, m: Msg, a: bytes, b: bytes, i: nat)
    requires Fits(a + b) && i <= |a| && Decode(t, m, a, i).Ok?
    ensures Decode(t, m, a + b, i) == Decode(t, Decode(t, m, a, i).value, a + b, |a|)
    decreases |a| - i
  {
    if i < |a| {
      var x := ParseRecord(t, a, i).value;
      PrefixRecord(t, m, a, b, i, x);
      AcceptedPrefix(t, Advance(t, m, x.rec).value, a, b, x.next);
    }
  }

  lemma PrefixRecord(t: Table, m: Msg, a: bytes, b: bytes, i: nat, x: Parsed)
    requires Fits(a + b) && i < |a| && ParseRecord(t, a, i) == Ok(x)
    ensures var r := Advance(t, m, x.rec);
      if r.Err? then Decode(t, m, a, i) == Err(r.error) == Decode(t, m, a + b, i)
      else && Decode(t, m, a, i) == Decode(t, r.value, a, x.next)
           && Decode(t, m, a + b, i) == Decode(t, r.value, a + b, x.next)
  {
    assert (a + b)[i..x.next] == a[i..x.next];
    ParseLocal(t, a, i, a + b, i, x);
    Ahead(t, m, a, i, x);
    Ahead(t, m, a + b, i, x);
  }

  /** An error in a prefix made of whole records is the error of the whole, whatever follows. */
  lemma {:induction false} RefusedPrefix(t: Table, m: Msg, a: bytes, p: Parses, b: bytes, i: nat)
    requires Fits(a + b) && i <= |a| && Follows(p, t, a) && Chain(p, i).Ok? && Decode(t, m, a, i).Err?
    ensures Decode(t, m, a + b, i) == Decode(t, m, a, i)
    decreases |a| - i
  {
    if i < |a| {
      var x := ParseRecord(t, a, i).value;
      PrefixRecord(t, m, a, b, i, x);
      if Advance(t, m, x.rec).Ok? { RefusedPrefix(t, Advance(t, m, x.rec).value, a, p, b, x.next); }
    }
  }

  /** It does happen: after every non-empty accepted prefix, for every length-delimited field. */
  lemma WrapShows(t: Table, k: nat, m: Msg, a: bytes) returns (b: bytes)
    requires WellFormed(t) && k < |t.fields| && WireTypeOf(t.fields[k].kind) == 2
    requires a != [] && |a| + 20 < TWO63 && Decode(t, m, a, 0).Ok?
    ensures Fits(a + b) && Decode(t, m, a + b, 0) == Err(InvalidLength)
    ensures Decode(t, Decode(t, m, a, 0).value, b, 0) == Err(UnexpectedEOF)
  {
    var num := t.fields[k].num;
    var tag := Tag(num, 2);
    Varint.EncodeAtMostTen(8 * num + 2);
    var length := TWO63 - 1 - (|tag| + 9);
    LengthOfNine(length);
    b := tag + Varint.Encode(length);
    IndexOfField(t, k);
    TagMeans(num, 2);
    TooLong(t, k, a, b, length);
    TooLong(t, k, [], b, length);
    assert [] + b == b;
    AcceptedPrefix(t, m, a, b, 0);
  }

  lemma LengthOfNine(n: nat)
    requires TWO63 - 20 <= n < TWO63
    ensures |Varint.Encode(n)| == 9
  {
    Pow2Values();
    Pow2Seven(56);
    Varint.EncodeShortest(n, 9);
    Varint.EncodeAtLeast(n, 8);
  }

  /** A length that no input holds: past the end, and past the largest `int` if it starts too late. */
  lemma LengthRefused(d: bytes, j: nat, length: nat)
    requires Fits(d) && j + 9 <= |d| && |Varint.Encode(length)| == 9 && d[j..j + 9] == Varint.Encode(length)
    requires |d| < j + 9 + length && length < TWO63
    ensures ReadContent(d, j) == Err(if j + 9 + length < TWO63 then UnexpectedEOF else InvalidLength)
  {
    Varint.ReadEncoded(length, d, j, 0);
  }

  /** A record that claims all the bytes an `int` can count up to, and has none of them. */
  lemma TooLong(t: Table, k: nat, a: bytes, b: bytes, length: nat)
    requires WellFormed(t) && k < |t.fields| && WireTypeOf(t.fields[k].kind) == 2 && |a| + 20 < TWO63
    requires |Varint.Encode(length)| == 9 && b == Tag(t.fields[k].num, 2) + Varint.Encode(length) && |b| < 20
    requires length == TWO63 - 1 - |b|
    ensures ParseRecord(t, a + b, |a|) == Err(if a == [] then UnexpectedEOF else InvalidLength)
  {
    var num := t.fields[k].num;
    var tag := Tag(num, 2);
    var at := |a| + |tag|;
    assert (a + b)[|a|..|a| + |b|] == b;
    Skip.AtSplit(a + b, |a|, tag, Varint.Encode(length));
    LengthRefused(a + b, at, length);
    AfterTag(t, k, 2, a + b, |a|);
  }
}
