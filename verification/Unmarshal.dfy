/** The decoder as generated: one loop over the input that updates its receiver in place. */
module Unmarshal {
  import opened Machine
  import opened Schema
  import opened Format
  import opened Records
  import opened Refusals
  import Varint
  import Skip

  /** The checks after a length has been read: the content's end, or why it is refused. */
  method ContentEnd(d: bytes, j: nat) returns (r: Result<(nat, nat)>)
    requires Fits(d)
    ensures match ReadContent(d, j)
      case Err(e) => r == Err(e)
      case Ok(x) => r.Ok? && j < r.value.0 <= r.value.1 == x.next <= |d| && x.p == Content(d[r.value.0..r.value.1])
  {
    var read, _ := Varint.ReadShifted(d, j, 64);
    if read.Err? { return Err(read.error); }
    TruncateWidths(Varint.Read(d, j, 0).value.value);
    var length := Signed64(read.value.value);
    if length < 0 { return Err(InvalidLength); }
    var post := WrapAdd(read.value.next, length);
    if post < 0 { return Err(InvalidLength); }
    if post > |d| { return Err(UnexpectedEOF); }
    return Ok((read.value.next, post));
  }

  /** The default branch: skip from the tag, then the checks on what was skipped. */
  method SkipUnknown(d: bytes, preIndex: nat) returns (r: Result<nat>)
    requires Fits(d) && preIndex <= |d|
    ensures r == match ParseUnknown(d, preIndex) case Err(e) => Err(e) case Ok(x) => Ok(x.next)
  {
    var skippy := Skip.SkipRecordLoop(d[preIndex..]);
    if skippy.Err? { return Err(skippy.error); }
    if skippy.value < 0 || WrapAdd(preIndex, skippy.value) < 0 { return Err(InvalidLength); }
    if preIndex + skippy.value > |d| { return Err(UnexpectedEOF); }
    return Ok(preIndex + skippy.value);
  }

  /** What decoding the record of entry `k` at `j` must come to, and leave behind when it fails. */
  predicate FieldDone(kind: Kind, k: nat, wireType: nat, d: bytes, j: nat,
                      was: seq<Value>, now: seq<Value>, r: Result<nat>)
    requires Fits(d) && k < |was|
  {
    match ParseKnown(k, kind, wireType, d, j)
    case Err(e) => r == Err(e) && now == was[k := FieldBroken(kind, was[k], wireType, d, j)]
    case Ok(x) =>
      match Apply(kind, was[k], x.rec.p)
      case Err(e) => r == Err(e) && now == was[k := FieldBroken(kind, was[k], wireType, d, j)]
      case Ok(v) => r == Ok(x.next) && now == was[k := v]
  }

  /** What decoding the record at `at` must come to, and leave behind when it fails. */
  predicate RecordDone(t: Table, d: bytes, at: nat, was: seq<Value>, now: seq<Value>, r: Result<nat>)
    requires Fits(d) && |was| == |t.fields|
  {
    match ParseRecord(t, d, at)
    case Err(e) => r == Err(e) && Msg(now) == Broken(t, Msg(was), d, at)
    case Ok(Parsed(Unknown, next)) => r == Ok(next) && now == was
    case Ok(Parsed(Known(k, p), next)) =>
      match Apply(t.fields[k].kind, was[k], p)
      case Err(e) => r == Err(e) && Msg(now) == Broken(t, Msg(was), d, at)
      case Ok(v) => r == Ok(next) && now == was[k := v]
  }

  /** A tag as the decoder sees it, and the index after it. */
  datatype Head = Head(fieldNum: int, wireType: nat, next: nat)

  /** The shift loop over a tag, and the two checks before the switch. */
  method ReadTag(d: bytes, at: nat) returns (r: Result<Head>)
    ensures match Varint.Read(d, at, 0)
      case Err(e) => r == Err(e)
      case Ok(x) =>
        if Skip.WireType(x.value) == 4 then r == Err(EndGroupForNonGroup)
        else if FieldNum(x.value) <= 0 then r == Err(IllegalTag)
        else r == Ok(Head(FieldNum(x.value), Skip.WireType(x.value), x.next)) && at < x.next <= |d|
  {
    var wire, _ := Varint.ReadShifted(d, at, 64);
    if wire.Err? { return Err(wire.error); }
    ghost var raw := Varint.Read(d, at, 0).value.value;
    TruncateWidths(raw);
    Skip.WireTypeOfReduced(raw);
    var fieldNum := Signed32((wire.value.value / 8) % TWO32);
    var wireType := wire.value.value % 8;
    if wireType == 4 { return Err(EndGroupForNonGroup); }
    if fieldNum <= 0 { return Err(IllegalTag); }
    return Ok(Head(fieldNum, wireType, wire.value.next));
  }

  /** The branch of the switch for entry `k` does what its record means. */
  lemma BranchIsRecord(t: Table, k: nat, head: Head, raw: nat, d: bytes, at: nat,
                       was: seq<Value>, now: seq<Value>, r: Result<nat>)
    requires Fits(d) && |was| == |t.fields| && Varint.Read(d, at, 0) == Ok(Varint.Raw(raw, head.next))
    requires head == Head(FieldNum(raw), Skip.WireType(raw), head.next) && head.wireType != 4 && head.fieldNum > 0
    requires IndexOf(t.fields, head.fieldNum) == Some(k)
    requires FieldDone(t.fields[k].kind, k, head.wireType, d, head.next, was, now, r)
    ensures RecordDone(t, d, at, was, now, r)
  {
  }

  /** A message being decoded into: one variable for each entry of its table. */
  class Receiver {
    const table: Table
    var vals: seq<Value>

    constructor (t: Table, m: Msg)
      requires Typed(t, m)
      ensures table == t && vals == m.vals
    {
      table, vals := t, m.vals;
    }

    ghost predicate Valid()
      reads this
    {
      Typed(table, Msg(vals))
    }

    /** A varint field: `bool`, `int32` or `int64`. An integer is gathered in the field itself, so it
        keeps the groups that were read before an error. */
    method UnmarshalNumber(k: nat, d: bytes, j: nat) returns (r: Result<nat>)
      requires Valid() && Fits(d) && k < |table.fields| && WireTypeOf(table.fields[k].kind) == 0
      modifies this
      ensures |vals| == |table.fields|
      ensures FieldDone(table.fields[k].kind, k, 0, d, j, old(vals), vals, r)
    {
      var kind := table.fields[k].kind;
      if !kind.KBool? { vals := vals[k := Int(0)]; }
      var read, acc := Varint.ReadShifted(d, j, if kind.KInt32? then 32 else 64);
      TruncateWidths(Varint.Gathered(d, j, 0));
      if !kind.KBool? { vals := vals[k := Int(if kind.KInt32? then Signed32(acc) else Signed64(acc))]; }
      if read.Err? { return Err(read.error); }
      Varint.GatheredIsRead(d, j, 0);
      if kind.KBool? { vals := vals[k := Bool(acc != 0)]; }
      return Ok(read.value.next);
    }

    /** A length-delimited field: string, bytes, list of strings, or nested message. */
    method UnmarshalContent(k: nat, d: bytes, j: nat) returns (r: Result<nat>)
      requires Valid() && Fits(d) && k < |table.fields| && WireTypeOf(table.fields[k].kind) == 2
      modifies this
      ensures |vals| == |table.fields|
      ensures FieldDone(table.fields[k].kind, k, 2, d, j, old(vals), vals, r)
      decreases table, 0
    {
      var kind := table.fields[k].kind;
      var extent := ContentEnd(d, j);
      if extent.Err? { return Err(extent.error); }
      var lo, hi := extent.value.0, extent.value.1;
      assert TypedValue(kind, vals[k]);
      match kind {
      case KBytes => vals := vals[k := Bytes(d[lo..hi])];
      case KStrings => vals := vals[k := Strings(vals[k].ss + [d[lo..hi]])];
      case KMessage(sub) =>
        ZeroTyped(sub);
        var child := new Receiver(sub, if vals[k].m.Some? then vals[k].m.value else Zero(sub));
        var err, _ := child.Unmarshal(d[lo..hi]);
        vals := vals[k := Child(Some(Msg(child.vals)))];
        if err.Some? { return Err(err.value); }
      case KMessages(sub) =>
        ZeroTyped(sub);
        var child := new Receiver(sub, Zero(sub));
        var err, _ := child.Unmarshal(d[lo..hi]);
        vals := vals[k := Children(vals[k].ms + [Msg(child.vals)])];
        if err.Some? { return Err(err.value); }
      case _ => assert false;
      }
      return Ok(hi);
    }

    method UnmarshalField(k: nat, wireType: nat, d: bytes, j: nat) returns (r: Result<nat>)
      requires Valid() && Fits(d) && k < |table.fields|
      modifies this
      ensures |vals| == |table.fields|
      ensures FieldDone(table.fields[k].kind, k, wireType, d, j, old(vals), vals, r)
      decreases table, 1
    {
      if wireType != WireTypeOf(table.fields[k].kind) { return Err(WrongWireType); }
      if wireType == 0 {
        r := UnmarshalNumber(k, d, j);
      } else {
        r := UnmarshalContent(k, d, j);
      }
    }

    /** One turn of the loop: the record at `at`. */
    method UnmarshalRecord(d: bytes, at: nat) returns (r: Result<nat>)
      requires Valid() && Fits(d) && at < |d|
      modifies this
      ensures |vals| == |table.fields| && RecordDone(table, d, at, old(vals), vals, r)
      decreases table, 2
    {
      var head := ReadTag(d, at);
      if head.Err? { return Err(head.error); }
      var entry := IndexOf(table.fields, head.value.fieldNum);
      if entry.Some? {
        ghost var was := vals;
        r := UnmarshalField(entry.value, head.value.wireType, d, head.value.next);
        BranchIsRecord(table, entry.value, head.value, Varint.Read(d, at, 0).value.value, d, at, was, vals, r);
      } else {
        r := SkipUnknown(d, at);
      }
    }

    /** Folds the input into the receiver. It accepts exactly what the format accepts, and leaves
        exactly the message the format means. `at` is the index of the record it stops at: inside the
        input, or its end if and only if there is no error. After an error the receiver holds the
        records before that one, and what that one left in its field. */
    method Unmarshal(d: bytes) returns (err: Option<Error>, ghost at: nat)
      requires Valid() && Fits(d)
      modifies this
      ensures match Decode(table, old(Msg(vals)), d, 0)
        case Err(e) => err == Some(e)
        case Ok(m) => err == None && Msg(vals) == m
      ensures at == Before(table, old(Msg(vals)), d, 0).at <= |d| && (err == None <==> at == |d|)
      ensures Msg(vals) == Left(table, old(Msg(vals)), d) && Valid()
      decreases table, 3
    {
      ghost var m0 := Msg(vals);
      LeftTyped(table, m0, d);
      var iNdEx: nat := 0;
      while iNdEx < |d|
        invariant iNdEx <= |d| && Valid()
        invariant Decode(table, m0, d, 0) == Decode(table, Msg(vals), d, iNdEx)
        invariant Before(table, m0, d, 0) == Before(table, Msg(vals), d, iNdEx)
        decreases |d| - iNdEx
      {
        ghost var was := vals;
        var step := UnmarshalRecord(d, iNdEx);
        DecodeStep(table, was, d, iNdEx);
        if step.Err? { return Some(step.error), iNdEx; }
        iNdEx := step.value;
      }
      return None, iNdEx;
    }
  }

  /** The record at `i` decides how decoding goes on. */
  lemma DecodeStep(t: Table, was: seq<Value>, d: bytes, i: nat)
    requires Fits(d) && i < |d| && Typed(t, Msg(was))
    ensures match ParseRecord(t, d, i)
      case Err(e) => Decode(t, Msg(was), d, i) == Err(e)
      case Ok(Parsed(Unknown, next)) => Decode(t, Msg(was), d, i) == Decode(t, Msg(was), d, next)
      case Ok(Parsed(Known(k, p), next)) =>
        match Apply(t.fields[k].kind, was[k], p)
        case Err(e) => Decode(t, Msg(was), d, i) == Err(e)
        case Ok(v) =>
          Decode(t, Msg(was), d, i) == Decode(t, Msg(was[k := v]), d, next) && Typed(t, Msg(was[k := v]))
  {
    var r := ParseRecord(t, d, i);
    if r.Ok? && r.value.rec.Known? {
      var k := r.value.rec.k;
      if Apply(t.fields[k].kind, was[k], r.value.rec.p).Ok? {
        ApplyTyped(t.fields[k].kind, was[k], r.value.rec.p);
      }
    }
  }
}
