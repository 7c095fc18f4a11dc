/** What the wire format means: a forward encoder and a record-by-record decoder over values. */
module Format {
  import opened Machine
  import opened Schema
  import Varint
  import Skip

  /** What a record carries after its tag. */
  datatype Payload = Number(raw: nat) | Content(b: bytes)

  /** A payload cut from an input, so no longer than an `int` can count. */
  type Cargo = p: Payload | p.Content? ==> Fits(p.b) witness Number(0)

  // ----- Encoding -----

  function Tag(num: nat, wireType: nat): bytes { Varint.Encode(8 * num + wireType) }

  function EncodePayload(num: nat, p: Payload): (e: bytes)
    ensures |e| >= 2
  {
    match p
    case Number(raw) => Tag(num, 0) + Varint.Encode(raw)
    case Content(b) => Tag(num, 2) + Varint.Encode(|b|) + b
  }

  function EncodePayloads(num: nat, ps: seq<Payload>): bytes {
    if ps == [] then [] else EncodePayload(num, ps[0]) + EncodePayloads(num, ps[1..])
  }

  /** The records a field is written as, in list order: none for a zero scalar or a nil child. */
  function PayloadsOf(kind: Kind, v: Value): seq<Payload>
    decreases kind
  {
    match kind
    case KBytes => if v.Bytes? && |v.b| > 0 then [Content(v.b)] else []
    case KBool => if v.Bool? && v.v then [Number(1)] else []
    case KInt32 => if v.Int? && v.n != 0 then [Number(v.n % TWO64)] else []
    case KInt64 => if v.Int? && v.n != 0 then [Number(v.n % TWO64)] else []
    case KStrings =>
      if v.Strings? then seq(|v.ss|, j requires 0 <= j < |v.ss| => Content(v.ss[j])) else []
    case KMessage(sub) => if v.Child? && v.m.Some? then [Content(Encode(sub, v.m.value))] else []
    case KMessages(sub) =>
      if v.Children? then seq(|v.ms|, j requires 0 <= j < |v.ms| => Content(Encode(sub, v.ms[j]))) else []
  }

  /** The fields from entry `k` on, in ascending order of field number. */
  function EncodeFrom(t: Table, m: Msg, k: nat): bytes
    decreases t, |t.fields| - k
  {
    if k < |t.fields| && k < |m.vals| then
      EncodePayloads(t.fields[k].num, PayloadsOf(t.fields[k].kind, m.vals[k])) + EncodeFrom(t, m, k + 1)
    else []
  }

  function Encode(t: Table, m: Msg): bytes
    decreases t, |t.fields| + 1
  {
    EncodeFrom(t, m, 0)
  }

  // ----- Records -----

  function WireTypeOf(kind: Kind): nat {
    if kind.KBool? || kind.KInt32? || kind.KInt64? then 0 else 2
  }

  /** Entry `k` holds `v`, of the given kind, and its records start with these constant bytes. */
  predicate Slot(t: Table, m: Msg, k: nat, kind: Kind, v: Value, tag: bytes) {
    && k < |t.fields| == |m.vals| && t.fields[k].kind == kind && m.vals[k] == v
    && tag == Tag(t.fields[k].num, WireTypeOf(kind)) && 1 <= |tag| <= 2
  }

  /** `int32(wire >> 3)`: tags too wide for the type are cut, not refused. */
  function FieldNum(raw: nat): int { Signed32(((raw % TWO64) / 8) % TWO32) }

  /** One record as the decoder sees it: an update of entry `k`, or one to step over. */
  datatype Rec = Unknown | Known(k: nat, p: Cargo)
  datatype Parsed = Parsed(rec: Rec, next: nat)
  datatype Piece = Piece(p: Cargo, next: nat)

  function ReadNumber(d: bytes, j: nat): (r: Result<Piece>)
    ensures r.Ok? ==> j < r.value.next <= |d| && r.value.p.Number?
  {
    match Varint.Read(d, j, 0)
    case Err(e) => Err(e)
    case Ok(x) => Ok(Piece(Number(x.value), x.next))
  }

  /** A length and that many bytes. Lengths that are negative as `int`, or that carry the index
      past the largest `int`, are refused as such. */
  function ReadContent(d: bytes, j: nat): (r: Result<Piece>)
    requires Fits(d)
    ensures r.Ok? ==> j < r.value.next <= |d| && r.value.p.Content?
  {
    match Varint.Read(d, j, 0)
    case Err(e) => Err(e)
    case Ok(x) =>
      var length := Signed64(x.value % TWO64);
      if length < 0 then Err(InvalidLength)
      else
        var post := WrapAdd(x.next, length);
        if post < 0 then Err(InvalidLength)
        else if post > |d| then Err(UnexpectedEOF)
        else Ok(Piece(Content(d[x.next..post]), post))
  }

  /** The default branch: back to the tag, and over the whole record. */
  function ParseUnknown(d: bytes, i: nat): (r: Result<Parsed>)
    requires Fits(d) && i <= |d|
    ensures r.Ok? ==> i < r.value.next <= |d| && r.value.rec == Unknown
  {
    match Skip.SkipFrom(d[i..], 0)
    case Err(e) => Err(e)
    case Ok(n) =>
      if WrapAdd(i, n) < 0 then Err(InvalidLength)
      else if i + n > |d| then Err(UnexpectedEOF)
      else Ok(Parsed(Unknown, i + n))
  }

  function ParseKnown(k: nat, kind: Kind, wireType: nat, d: bytes, j: nat): (r: Result<Parsed>)
    requires Fits(d)
    ensures r.Ok? ==> j < r.value.next <= |d| && r.value.rec.Known? && r.value.rec.k == k
  {
    if wireType != WireTypeOf(kind) then Err(WrongWireType)
    else
      match if wireType == 0 then ReadNumber(d, j) else ReadContent(d, j)
      case Err(e) => Err(e)
      case Ok(x) => Ok(Parsed(Known(k, x.p), x.next))
  }

  /** The record at index `i` whose tag `raw` ended at `j`. */
  function ParseTagged(t: Table, raw: nat, d: bytes, i: nat, j: nat): (r: Result<Parsed>)
    requires Fits(d) && i < j <= |d|
    ensures r.Ok? ==> i < r.value.next <= |d|
    ensures r.Ok? && r.value.rec.Known? ==> r.value.rec.k < |t.fields|
  {
    if Skip.WireType(raw) == 4 then Err(EndGroupForNonGroup)
    else if FieldNum(raw) <= 0 then Err(IllegalTag)
    else
      match IndexOf(t.fields, FieldNum(raw))
      case None => ParseUnknown(d, i)
      case Some(k) => ParseKnown(k, t.fields[k].kind, Skip.WireType(raw), d, j)
  }

  /** The record at index `i`. */
  function ParseRecord(t: Table, d: bytes, i: nat): (r: Result<Parsed>)
    requires Fits(d)
    ensures r.Ok? ==> i < r.value.next <= |d|
    ensures r.Ok? && r.value.rec.Known? ==> r.value.rec.k < |t.fields|
  {
    match Varint.Read(d, i, 0)
    case Err(e) => Err(e)
    case Ok(x) => ParseTagged(t, x.value, d, i, x.next)
  }

  // ----- Decoding -----

  /** What a record does to the entry it names: scalars are replaced, lists grow, a nested message
      is decoded into the one already there. */
  function Apply(kind: Kind, v: Value, p: Cargo): Result<Value>
    decreases kind
  {
    match kind
    case KBytes => if p.Content? then Ok(Bytes(p.b)) else Err(WrongWireType)
    case KBool => if p.Number? then Ok(Bool(p.raw % TWO64 != 0)) else Err(WrongWireType)
    case KInt32 => if p.Number? then Ok(Int(Signed32(p.raw % TWO32))) else Err(WrongWireType)
    case KInt64 => if p.Number? then Ok(Int(Signed64(p.raw % TWO64))) else Err(WrongWireType)
    case KStrings =>
      if p.Content? && v.Strings? then Ok(Strings(v.ss + [p.b])) else Err(WrongWireType)
    case KMessage(sub) =>
      if p.Content? && v.Child? then
        match Decode(sub, Base(sub, v), p.b, 0)
        case Err(e) => Err(e)
        case Ok(m) => Ok(Child(Some(m)))
      else Err(WrongWireType)
    case KMessages(sub) =>
      if p.Content? && v.Children? then
        match Decode(sub, Zero(sub), p.b, 0)
        case Err(e) => Err(e)
        case Ok(m) => Ok(Children(v.ms + [m]))
      else Err(WrongWireType)
  }

  /** Folds the records from index `i` on into the receiver. */
  function Decode(t: Table, m: Msg, d: bytes, i: nat): Result<Msg>
    requires Fits(d)
    decreases t, |d| - i
  {
    if i >= |d| then Ok(m)
    else
      match ParseRecord(t, d, i)
      case Err(e) => Err(e)
      case Ok(Parsed(Unknown, next)) => Decode(t, m, d, next)
      case Ok(Parsed(Known(k, p), next)) =>
        if k >= |m.vals| then Err(WrongWireType)
        else
          match Apply(t.fields[k].kind, m.vals[k], p)
          case Err(e) => Err(e)
          case Ok(v) => Decode(t, Msg(m.vals[k := v]), d, next)
  }
}
