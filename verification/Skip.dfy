/** The scanner that steps over one record it does not know, and the grammar it recognises. */
module Skip {
  import opened Machine
  import Varint

  /** The three low bits of a tag; reduction to `uint64` does not reach them. */
  function WireType(raw: nat): nat { raw % 8 }

  lemma WireTypeOfReduced(raw: nat)
    ensures (raw % TWO64) % 8 == WireType(raw)
  {
    assert TWO64 == 8 * 0x2000_0000_0000_0000;
  }

  // ----- The scanner, as a counter machine -----

  /** What one turn of the scanning loop steps over. */
  datatype Shape = Whole | Open | Close
  datatype Item = Item(shape: Shape, next: nat)

  function Landed(i: int, shape: Shape): Result<Item> {
    if i < 0 then Err(InvalidLength) else Ok(Item(shape, i))
  }

  /** The payload after a tag of wire type `t` that ended at `j`. */
  function Payload(d: bytes, j: nat, t: nat): (r: Result<Item>)
    requires Fits(d) && j <= |d|
    ensures r.Ok? ==> j <= r.value.next < TWO63
  {
    match t
    case 0 =>
      (match Varint.Read(d, j, 0)
       case Err(e) => Err(e)
       case Ok(x) => Ok(Item(Whole, x.next)))
    case 1 => Landed(WrapAdd(j, 8), Whole)
    case 2 =>
      (match Varint.Read(d, j, 0)
       case Err(e) => Err(e)
       case Ok(x) =>
         var length := Signed64(x.value % TWO64);
         if length < 0 then Err(InvalidLength) else Landed(WrapAdd(x.next, length), Whole))
    case 3 => Ok(Item(Open, j))
    case 4 => Ok(Item(Close, j))
    case 5 => Landed(WrapAdd(j, 4), Whole)
    case _ => Err(IllegalWireType)
  }

  function ItemAt(d: bytes, i: nat): (r: Result<Item>)
    requires Fits(d)
    ensures r.Ok? ==> i < r.value.next < TWO63
  {
    match Varint.Read(d, i, 0)
    case Err(e) => Err(e)
    case Ok(x) => Payload(d, x.next, WireType(x.value))
  }

  function Deeper(depth: nat, shape: Shape): nat
    requires shape.Close? ==> depth > 0
  {
    match shape
    case Whole => depth
    case Open => depth + 1
    case Close => depth - 1
  }

  /** What a turn of the loop would step over from each index of the input. */
  type Items = t: seq<Result<Item>> | forall i :: 0 <= i < |t| && t[i].Ok? ==> i < t[i].value.next < TWO63

  function ItemsOf(d: bytes): (t: Items)
    requires Fits(d)
    ensures Tracks(t, d)
  {
    seq(|d|, i requires 0 <= i < |d| => ItemAt(d, i))
  }

  predicate Tracks(t: Items, d: bytes)
    requires Fits(d)
  {
    |t| == |d| && forall i {:trigger ItemAt(d, i)} :: 0 <= i < |d| ==> t[i] == ItemAt(d, i)
  }

  /** The loop from index `i` with `depth` groups open: the index it returns. */
  function Scan(t: Items, i: nat, depth: nat): (r: Result<nat>)
    ensures r.Ok? ==> i < r.value < TWO63
    decreases |t| - i
  {
    if i >= |t| then Err(UnexpectedEOF)
    else
      match t[i]
      case Err(e) => Err(e)
      case Ok(item) =>
        if item.shape.Close? && depth == 0 then Err(UnexpectedEndOfGroup)
        else
          var depth' := Deeper(depth, item.shape);
          if depth' == 0 then Ok(item.next) else Scan(t, item.next, depth')
  }

  function SkipFrom(d: bytes, i: nat): Result<nat>
    requires Fits(d)
  {
    Scan(ItemsOf(d), i, 0)
  }

  // ----- The grammar -----

  /** A record as the scanner accepts it, with its bytes as written. */
  datatype Record =
    | VarintField(tag: bytes, value: bytes)
    | Fixed64(tag: bytes, data: bytes)
    | Delimited(tag: bytes, length: bytes, content: bytes)
    | Group(open: bytes, body: seq<Record>, close: bytes)
    | Fixed32(tag: bytes, data: bytes)

  function Flatten(r: Record): bytes {
    match r
    case VarintField(tag, value) => tag + value
    case Fixed64(tag, data) => tag + data
    case Delimited(tag, length, content) => tag + length + content
    case Group(open, body, close) => open + FlattenAll(body) + close
    case Fixed32(tag, data) => tag + data
  }

  function FlattenAll(rs: seq<Record>): bytes {
    if rs == [] then [] else Flatten(rs[0]) + FlattenAll(rs[1..])
  }

  /** The value of `b` when it is exactly one varint, canonical or not. */
  function Alone(b: bytes): Option<nat> {
    match Varint.Read(b, 0, 0)
    case Err(_) => None
    case Ok(x) => if x.next == |b| then Some(x.value) else None
  }

  predicate IsTag(b: bytes, t: nat) { Alone(b).Some? && WireType(Alone(b).value) == t }

  predicate IsLength(b: bytes, n: nat) { Alone(b).Some? && Alone(b).value % TWO64 == n }

  /** The grammar the scanner accepts: every payload has the size its wire type calls for, and groups
      close, by an end tag of any number. */
  predicate WellFormed(r: Record) {
    match r
    case VarintField(tag, value) =>
      IsTag(tag, 0) && Alone(value).Some?
    case Fixed64(tag, data) => IsTag(tag, 1) && |data| == 8
    case Delimited(tag, length, content) => IsTag(tag, 2) && IsLength(length, |content|)
    case Group(open, body, close) =>
      IsTag(open, 3) && IsTag(close, 4) && forall b :: b in body ==> WellFormed(b)
    case Fixed32(tag, data) => IsTag(tag, 5) && |data| == 4
  }

  predicate AllWellFormed(rs: seq<Record>) { forall b :: b in rs ==> WellFormed(b) }

  // ----- The scanner accepts every record of the grammar -----

  predicate At(d: bytes, i: nat, b: bytes) { i + |b| <= |d| && d[i..i + |b|] == b }

  lemma AtSplit(d: bytes, i: nat, a: bytes, b: bytes)
    requires At(d, i, a + b)
    ensures At(d, i, a) && At(d, i + |a|, b)
  {
    var ab := a + b;
    assert d[i..i + |a|] == d[i..i + |ab|][..|a|];
    assert d[i + |a|..i + |ab|] == d[i..i + |ab|][|a|..];
  }

  /** A varint standing alone reads the same inside a longer input. */
  lemma ReadInside(b: bytes, v: nat, d: bytes, i: nat)
    requires Alone(b) == Some(v) && At(d, i, b)
    ensures Varint.Read(d, i, 0) == Ok(Varint.Raw(v, i + |b|))
  {
    assert b[0..|b|] == b;
    Varint.ReadLocal(b, 0, d, i, 0, Varint.Raw(v, |b|));
  }

  lemma ItemAfterTag(tag: bytes, t: nat, d: bytes, i: nat)
    requires Fits(d) && IsTag(tag, t) && At(d, i, tag)
    ensures ItemAt(d, i) == Payload(d, i + |tag|, t)
  {
    ReadInside(tag, Alone(tag).value, d, i);
  }

  lemma PayloadOfDelimited(length: bytes, content: bytes, d: bytes, j: nat)
    requires Fits(d) && IsLength(length, |content|) && At(d, j, length + content)
    ensures Payload(d, j, 2) == Ok(Item(Whole, j + |length| + |content|))
  {
    AtSplit(d, j, length, content);
    ReadInside(length, Alone(length).value, d, j);
  }

  lemma PayloadOfVarint(value: bytes, d: bytes, j: nat)
    requires Fits(d) && Alone(value).Some? && At(d, j, value)
    ensures Payload(d, j, 0) == Ok(Item(Whole, j + |value|))
  {
    ReadInside(value, Alone(value).value, d, j);
  }

  function TagOf(r: Record): bytes { if r.Group? then r.open else r.tag }

  function Rest(r: Record): bytes {
    match r
    case VarintField(_, value) => value
    case Fixed64(_, data) => data
    case Delimited(_, length, content) => length + content
    case Group(_, body, close) => FlattenAll(body) + close
    case Fixed32(_, data) => data
  }

  lemma FlattenSplits(r: Record)
    ensures Flatten(r) == TagOf(r) + Rest(r)
  {
    match r
    case Delimited(tag, length, content) => assert tag + (length + content) == tag + length + content;
    case Group(open, body, close) => assert open + (FlattenAll(body) + close) == open + FlattenAll(body) + close;
    case _ =>
  }

  function TypeOf(r: Record): nat {
    match r
    case VarintField(_, _) => 0
    case Fixed64(_, _) => 1
    case Delimited(_, _, _) => 2
    case Group(_, _, _) => 3
    case Fixed32(_, _) => 5
  }

  lemma PayloadOfPlain(r: Record, d: bytes, j: nat)
    requires WellFormed(r) && !r.Group? && Fits(d) && At(d, j, Rest(r))
    ensures Payload(d, j, TypeOf(r)) == Ok(Item(Whole, j + |Rest(r)|))
  {
    match r
    case VarintField(tag, value) => PayloadOfVarint(value, d, j);
    case Delimited(tag, length, content) => PayloadOfDelimited(length, content, d, j);
    case _ =>
  }

  lemma ItemOfRecord(r: Record, d: bytes, i: nat)
    requires WellFormed(r) && Fits(d) && At(d, i, Flatten(r))
    ensures At(d, i + |TagOf(r)|, Rest(r)) && |TagOf(r)| + |Rest(r)| == |Flatten(r)| && i < |d|
    ensures ItemAt(d, i) ==
            Ok(if r.Group? then Item(Open, i + |TagOf(r)|) else Item(Whole, i + |Flatten(r)|))
  {
    FlattenSplits(r);
    AtSplit(d, i, TagOf(r), Rest(r));
    ItemAfterTag(TagOf(r), TypeOf(r), d, i);
    if !r.Group? { PayloadOfPlain(r, d, i + |TagOf(r)|); }
  }

  /** Opening at `i`, scanning the body from `j` to `c` and closing there is one step over. */
  lemma CloseGroup(t: Items, i: nat, j: nat, c: nat, n: nat, depth: nat)
    requires i < |t| && t[i] == Ok(Item(Open, j))
    requires c < |t| && t[c] == Ok(Item(Close, n))
    requires Scan(t, j, depth + 1) == Scan(t, c, depth + 1)
    ensures Scan(t, i, depth) == if depth == 0 then Ok(n) else Scan(t, n, depth)
  {
  }

  /** A record leaves the scanner where it ends, at the depth it began. */
  lemma {:induction false} SkipRecord(r: Record, d: bytes, t: Items, i: nat, depth: nat)
    requires WellFormed(r) && Fits(d) && Tracks(t, d) && At(d, i, Flatten(r))
    ensures Scan(t, i, depth) ==
            if depth == 0 then Ok(i + |Flatten(r)|) else Scan(t, i + |Flatten(r)|, depth)
    decreases r, 1
  {
    if r.Group? {
      var j, c := Brackets(r, d, t, i);
      SkipAll(r.body, d, t, j, depth + 1);
      CloseGroup(t, i, j, c, i + |Flatten(r)|, depth);
    } else {
      ItemOfRecord(r, d, i);
    }
  }

  lemma Brackets(r: Record, d: bytes, t: Items, i: nat) returns (j: nat, c: nat)
    requires WellFormed(r) && r.Group? && Fits(d) && Tracks(t, d) && At(d, i, Flatten(r))
    ensures i < |t| && t[i] == Ok(Item(Open, j))
    ensures At(d, j, FlattenAll(r.body)) && c == j + |FlattenAll(r.body)|
    ensures c < |t| && t[c] == Ok(Item(Close, i + |Flatten(r)|))
  {
    ItemOfRecord(r, d, i);
    j, c := i + |r.open|, i + |r.open| + |FlattenAll(r.body)|;
    AtSplit(d, j, FlattenAll(r.body), r.close);
    ItemAfterTag(r.close, 4, d, c);
  }

  lemma {:induction false} SkipAll(rs: seq<Record>, d: bytes, t: Items, i: nat, depth: nat)
    requires AllWellFormed(rs) && Fits(d) && Tracks(t, d) && At(d, i, FlattenAll(rs)) && depth > 0
    ensures Scan(t, i, depth) == Scan(t, i + |FlattenAll(rs)|, depth)
    decreases rs, 0
  {
    if rs != [] {
      AtSplit(d, i, Flatten(rs[0]), FlattenAll(rs[1..]));
      SkipRecord(rs[0], d, t, i, depth);
      SkipAll(rs[1..], d, t, i + |Flatten(rs[0])|, depth);
    }
  }

  // ----- The scanner accepts nothing else -----

  lemma Cut(d: bytes, i: nat, x: Varint.Raw)
    requires Varint.Read(d, i, 0) == Ok(x)
    ensures Alone(d[i..x.next]) == Some(x.value)
  {
    var b := d[i..x.next];
    assert b[0..|b|] == b;
    Varint.ReadLocal(d, i, b, 0, 0, x);
  }

  /** What a turn steps over after a tag, inside the input, is a payload of the grammar. */
  lemma PlainOfItem(d: bytes, i: nat, n: nat) returns (r: Record)
    requires Fits(d) && ItemAt(d, i) == Ok(Item(Whole, n)) && n <= |d|
    ensures WellFormed(r) && !r.Group? && Flatten(r) == d[i..n]
  {
    var x := Varint.Read(d, i, 0).value;
    var t := WireType(x.value);
    Cut(d, i, x);
    var tag, rest := d[i..x.next], d[x.next..n];
    Glue(d, i, x.next, n);
    if t == 0 {
      Cut(d, x.next, Varint.Read(d, x.next, 0).value);
      r := VarintField(tag, rest);
    } else if t == 1 {
      r := Fixed64(tag, rest);
    } else if t == 2 {
      r := DelimitedOf(d, x.next, n, tag);
    } else {
      r := Fixed32(tag, rest);
    }
  }

  lemma DelimitedOf(d: bytes, j: nat, n: nat, tag: bytes) returns (r: Record)
    requires Fits(d) && j <= |d| && Payload(d, j, 2) == Ok(Item(Whole, n)) && n <= |d| && IsTag(tag, 2)
    ensures WellFormed(r) && r.Delimited? && Flatten(r) == tag + d[j..n]
  {
    var y := Varint.Read(d, j, 0).value;
    Cut(d, j, y);
    Glue(d, j, y.next, n);
    r := Delimited(tag, d[j..y.next], d[y.next..n]);
    FlattenSplits(r);
  }

  lemma BracketOfItem(d: bytes, i: nat, shape: Shape, j: nat)
    requires Fits(d) && ItemAt(d, i) == Ok(Item(shape, j)) && !shape.Whole? && j <= |d|
    ensures IsTag(d[i..j], if shape.Open? then 3 else 4)
  {
    Cut(d, i, Varint.Read(d, i, 0).value);
  }

  lemma Glue(d: bytes, i: nat, j: nat, k: nat)
    requires i <= j <= k <= |d|
    ensures d[i..j] + d[j..k] == d[i..k]
  {
  }

  /** With groups open, success means the innermost one closes after a run of records, and the
      scan goes on from there with one group fewer. */
  lemma {:induction false} Unwind(d: bytes, t: Items, i: nat, depth: nat, n: nat)
    returns (body: seq<Record>, close: bytes, k: nat)
    requires Fits(d) && Tracks(t, d) && depth >= 1 && Scan(t, i, depth) == Ok(n) && n <= |d|
    ensures i < k <= n && d[i..k] == FlattenAll(body) + close
    ensures AllWellFormed(body) && IsTag(close, 4)
    ensures if depth == 1 then k == n else Scan(t, k, depth - 1) == Ok(n)
    decreases |d| - i
  {
    var item := ItemAt(d, i).value;
    var j := item.next;
    match item.shape
    case Close =>
      BracketOfItem(d, i, Close, j);
      body, close, k := [], d[i..j], j;
    case Whole =>
      var r := PlainOfItem(d, i, j);
      body, close, k := Unwind(d, t, j, depth, n);
      Prepend(d, i, j, k, r, body, close);
      body := [r] + body;
    case Open =>
      BracketOfItem(d, i, Open, j);
      var inner, innerClose, m := Unwind(d, t, j, depth + 1, n);
      var r := GroupOf(d, i, j, m, inner, innerClose);
      body, close, k := Unwind(d, t, m, depth, n);
      Prepend(d, i, m, k, r, body, close);
      body := [r] + body;
  }

  lemma GroupOf(d: bytes, i: nat, j: nat, m: nat, body: seq<Record>, close: bytes) returns (r: Record)
    requires i <= j <= m <= |d| && IsTag(d[i..j], 3) && AllWellFormed(body) && IsTag(close, 4)
    requires d[j..m] == FlattenAll(body) + close
    ensures r.Group? && WellFormed(r) && Flatten(r) == d[i..m]
  {
    Glue(d, i, j, m);
    r := Group(d[i..j], body, close);
    FlattenSplits(r);
  }

  lemma Prepend(d: bytes, i: nat, j: nat, k: nat, r: Record, body: seq<Record>, close: bytes)
    requires i <= j <= k <= |d| && d[i..j] == Flatten(r) && d[j..k] == FlattenAll(body) + close
    ensures d[i..k] == FlattenAll([r] + body) + close
  {
    Glue(d, i, j, k);
    assert ([r] + body)[1..] == body;
    assert FlattenAll([r] + body) == Flatten(r) + FlattenAll(body);
    assert Flatten(r) + (FlattenAll(body) + close) == (Flatten(r) + FlattenAll(body)) + close;
  }

  lemma RecordOfSkip(d: bytes, i: nat, n: nat) returns (r: Record)
    requires Fits(d) && SkipFrom(d, i) == Ok(n) && n <= |d|
    ensures WellFormed(r) && Flatten(r) == d[i..n]
  {
    var t := ItemsOf(d);
    var item := ItemAt(d, i).value;
    if item.shape.Whole? {
      r := PlainOfItem(d, i, n);
    } else {
      BracketOfItem(d, i, item.shape, item.next);
      var body, close, k := Unwind(d, t, item.next, 1, n);
      r := GroupOf(d, i, item.next, n, body, close);
    }
  }

  /** The counter loop recognises exactly the grammar: it returns `n` within the input if and only
      if the first `n` bytes are one complete record, whose groups nest and balance. */
  lemma SkipIsGrammar(d: bytes, n: nat)
    requires Fits(d) && n <= |d|
    ensures SkipFrom(d, 0) == Ok(n) <==> exists r :: WellFormed(r) && Flatten(r) == d[..n]
    ensures SkipFrom(d, 0) == Ok(n) ==> n >= 1
  {
    assert d[0..n] == d[..n];
    if SkipFrom(d, 0) == Ok(n) {
      var r := RecordOfSkip(d, 0, n);
    }
    forall r | WellFormed(r) && Flatten(r) == d[..n]
      ensures SkipFrom(d, 0) == Ok(n)
    {
      SkipRecord(r, d, ItemsOf(d), 0, 0);
    }
  }

  // ----- The encoding's own grammar -----

  /** The number in a tag. */
  function TagNumber(tag: bytes): nat {
    match Alone(tag) case None => 0 case Some(raw) => raw % TWO64 / 8
  }

  /** A record as the encoding defines it: field numbers are in range, and a group closes by its own. */
  predicate Conforms(r: Record) {
    && WellFormed(r) && 1 <= TagNumber(TagOf(r)) < 0x2000_0000
    && (r.Group? ==> TagNumber(r.close) == TagNumber(r.open) && forall b :: b in r.body ==> Conforms(b))
  }

  /** Every record of the encoding is stepped over whole, wherever it stands. */
  lemma ConformingSkips(r: Record, d: bytes, i: nat)
    requires Conforms(r) && Fits(d) && At(d, i, Flatten(r))
    ensures SkipFrom(d, i) == Ok(i + |Flatten(r)|)
  {
    SkipRecord(r, d, ItemsOf(d), i, 0);
  }

  /** So are bytes that are no record of the encoding: field 1 opens a group that field 2 closes. */
  lemma ScannerIsLaxer()
    ensures SkipFrom([0x0b, 0x14], 0) == Ok(2)
    ensures !exists r :: Conforms(r) && Flatten(r) == [0x0b, 0x14]
  {
    var d: bytes := [0x0b, 0x14];
    var lax := Group([0x0b], [], [0x14]);
    assert Alone([0x0b]) == Some(11) && Alone([0x14]) == Some(20);
    assert Flatten(lax) == d && d[0..2] == d;
    SkipRecord(lax, d, ItemsOf(d), 0, 0);
    forall r | WellFormed(r) && Flatten(r) == d ensures !Conforms(r) { OnlyThatGroup(r); }
  }

  /** A record starts with its tag, which is not an end tag. */
  lemma StartsWithTag(r: Record, d: bytes, i: nat)
    requires WellFormed(r) && At(d, i, Flatten(r))
    ensures Varint.Read(d, i, 0).Ok? && At(d, i, TagOf(r)) && At(d, i + |TagOf(r)|, Rest(r))
    ensures var x := Varint.Read(d, i, 0).value; x.next == i + |TagOf(r)| && WireType(x.value) == TypeOf(r) != 4
  {
    FlattenSplits(r);
    AtSplit(d, i, TagOf(r), Rest(r));
    assert IsTag(TagOf(r), TypeOf(r));
    ReadInside(TagOf(r), Alone(TagOf(r)).value, d, i);
  }

  lemma OnlyThatGroup(r: Record)
    requires WellFormed(r) && Flatten(r) == [0x0b, 0x14]
    ensures r.Group? && r.open == [0x0b] && r.close == [0x14]
  {
    var d: bytes := [0x0b, 0x14];
    assert d[0..2] == d;
    StartsWithTag(r, d, 0);
    assert Varint.Read(d, 0, 0) == Ok(Varint.Raw(11, 1));
    assert TagOf(r) == d[0..1] && Rest(r) == d[1..2];
    if r.body != [] {
      var more := FlattenAll(r.body[1..]) + r.close;
      assert Rest(r) == Flatten(r.body[0]) + more;
      AtSplit(d, 1, Flatten(r.body[0]), more);
      NoRecordAtEndTag(r.body[0], d);
    }
  }

  lemma NoRecordAtEndTag(b: Record, d: bytes)
    requires d == [0x0b, 0x14] && At(d, 1, Flatten(b))
    ensures !WellFormed(b)
  {
    if WellFormed(b) { StartsWithTag(b, d, 1); }
  }

  // ----- What the scanner does with a first tag -----

  /** A lone end tag and the wire types 6 and 7 are refused; a fixed-size payload is stepped over without a
      look at the end of the input. */
  lemma FirstTag(tag: bytes, t: nat, rest: bytes)
    requires IsTag(tag, t) && Fits(tag + rest)
    ensures t == 4 ==> SkipFrom(tag + rest, 0) == Err(UnexpectedEndOfGroup)
    ensures t == 6 || t == 7 ==> SkipFrom(tag + rest, 0) == Err(IllegalWireType)
    ensures t == 1 || t == 5 ==>
              var end := |tag| + if t == 1 then 8 else 4;
              SkipFrom(tag + rest, 0) == if end >= TWO63 then Err(InvalidLength) else Ok(end)
  {
    var d := tag + rest;
    assert d[0..|tag|] == tag;
    ItemAfterTag(tag, t, d, 0);
  }

  /** A length is refused when it is negative as an `int` or carries the index past the largest, and else
      stepped over, without a look at the end of the input. */
  lemma FirstLength(tag: bytes, l: bytes, n: nat, rest: bytes)
    requires IsTag(tag, 2) && IsLength(l, n) && Fits(tag + (l + rest))
    ensures SkipFrom(tag + (l + rest), 0) ==
            if |tag| + |l| + n >= TWO63 then Err(InvalidLength) else Ok(|tag| + |l| + n)
  {
    var d := tag + (l + rest);
    assert d[0..|tag|] == tag && d[|tag|..|tag| + |l|] == l;
    ItemAfterTag(tag, 2, d, 0);
    ReadInside(l, Alone(l).value, d, |tag|);
  }

  /** A group that is not closed runs into the end of the input. */
  lemma OpenGroup(open: bytes, body: seq<Record>)
    requires IsTag(open, 3) && AllWellFormed(body) && Fits(open + FlattenAll(body))
    ensures SkipFrom(open + FlattenAll(body), 0) == Err(UnexpectedEOF)
  {
    var d := open + FlattenAll(body);
    assert d[0..|open|] == open && d[|open|..|d|] == FlattenAll(body);
    ItemAfterTag(open, 3, d, 0);
    SkipAll(body, d, ItemsOf(d), |open|, 1);
  }

  /** A varint that does not end, of the tag or of its payload, gives the same error as anywhere. */
  lemma FirstUnended(tag: bytes, rest: bytes)
    requires IsTag(tag, 0) && Fits(tag + rest)
    requires forall j :: 0 <= j < |rest| && j < 10 ==> rest[j] >= 0x80
    ensures SkipFrom(tag + rest, 0) == Err(if |rest| < 10 then UnexpectedEOF else IntOverflow)
  {
    var d := tag + rest;
    assert d[0..|tag|] == tag;
    ItemAfterTag(tag, 0, d, 0);
    forall j | |tag| <= j < |d| && j < |tag| + 10 ensures d[j] >= 0x80 { assert d[j] == rest[j - |tag|]; }
    Varint.ReadOutcome(d, |tag|, 0);
  }

  lemma SkipCoversTag(d: bytes, x: Varint.Raw, n: nat)
    requires Fits(d) && Varint.Read(d, 0, 0) == Ok(x) && SkipFrom(d, 0) == Ok(n)
    ensures x.next <= n
  {
    var item := ItemAt(d, 0);
    ScanPasses(ItemsOf(d), 0, 0);
  }

  lemma ScanPasses(t: Items, i: nat, depth: nat)
    requires i < |t| && Scan(t, i, depth).Ok?
    ensures t[i].Ok? && t[i].value.next <= Scan(t, i, depth).value
  {
  }

  /** The scanner depends only on the bytes it steps over. */
  lemma SkipLocal(d: bytes, i: nat, n: nat, d': bytes, i': nat)
    requires Fits(d) && Fits(d') && SkipFrom(d, i) == Ok(n) && n <= |d|
    requires i' + (n - i) <= |d'| && d'[i'..i' + (n - i)] == d[i..n]
    ensures SkipFrom(d', i') == Ok(i' + (n - i))
  {
    var r := RecordOfSkip(d, i, n);
    SkipRecord(r, d', ItemsOf(d'), i', 0);
  }

  // ----- The loop itself -----

  /** The loop over a varint whose value is not wanted. */
  method PassVarint(d: bytes, i: nat) returns (r: Result<nat>)
    ensures r == match Varint.Read(d, i, 0) case Err(e) => Err(e) case Ok(x) => Ok(x.next)
  {
    var at, shift := i, 0;
    ghost var k: nat := 0;
    while true
      invariant k <= 10 && shift == 7 * k && at == i + k
      invariant Next(Varint.Read(d, i, 0)) == Next(Varint.Read(d, at, k))
      decreases 10 - k
    {
      if shift >= 64 { return Err(IntOverflow); }
      if at >= |d| { return Err(UnexpectedEOF); }
      at := at + 1;
      if d[at - 1] < 0x80 { return Ok(at); }
      shift, k := shift + 7, k + 1;
    }
  }

  function Next(r: Result<Varint.Raw>): Result<nat> {
    match r case Err(e) => Err(e) case Ok(x) => Ok(x.next)
  }

  /** One turn of the loop after the tag: the payload of wire type `t` at `j`. */
  method ScanPayload(d: bytes, j: nat, t: nat) returns (r: Result<Item>)
    requires Fits(d) && j <= |d|
    ensures r == Payload(d, j, t)
  {
    var at: int := j;
    var shape := Whole;
    if t == 0 {
      var passed := PassVarint(d, j);
      if passed.Err? { return Err(passed.error); }
      at := passed.value;
    } else if t == 1 {
      at := WrapAdd(at, 8);
    } else if t == 2 {
      var read, _ := Varint.ReadShifted(d, j, 64);
      if read.Err? { return Err(read.error); }
      TruncateWidths(Varint.Read(d, j, 0).value.value);
      var length := Signed64(read.value.value);
      if length < 0 { return Err(InvalidLength); }
      at := WrapAdd(read.value.next, length);
    } else if t == 3 {
      shape := Open;
    } else if t == 4 {
      shape := Close;
    } else if t == 5 {
      at := WrapAdd(at, 4);
    } else {
      return Err(IllegalWireType);
    }
    if at < 0 { return Err(InvalidLength); }
    return Ok(Item(shape, at));
  }

  /** `skip`: the scanning loop with its depth counter. */
  method SkipRecordLoop(d: bytes) returns (r: Result<nat>)
    requires Fits(d)
    ensures r == SkipFrom(d, 0)
  {
    ghost var t := ItemsOf(d);
    var at, depth: nat := 0, 0;
    while at < |d|
      invariant Scan(t, 0, 0) == Scan(t, at, depth)
      decreases |d| - at
    {
      var wire, _ := Varint.ReadShifted(d, at, 64);
      if wire.Err? { return Err(wire.error); }
      TruncateWidths(Varint.Read(d, at, 0).value.value);
      WireTypeOfReduced(Varint.Read(d, at, 0).value.value);
      var item := ScanPayload(d, wire.value.next, wire.value.value % 8);
      if item.Err? { return Err(item.error); }
      if item.value.shape.Close? && depth == 0 { return Err(UnexpectedEndOfGroup); }
      depth := Deeper(depth, item.value.shape);
      at := item.value.next;
      if depth == 0 { return Ok(at); }
    }
    return Err(UnexpectedEOF);
  }
}
