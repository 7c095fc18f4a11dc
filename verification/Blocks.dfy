/** The blocks of the generated code, one method for each: they end in the constant bytes of a tag. */
module Blocks {
  import opened Machine
  import opened Schema
  import opened Format
  import opened RoundTrip
  import opened Refusals
  import opened Marshal
  import opened Unmarshal
  import Varint
  import Wire

  // ----- Encoding -----

  /** The buffer holds, from `i` to `len`, the records of the entries from `k` on, and is as it was
      everywhere else. */
  ghost predicate Stands(s: bytes, s0: bytes, i: nat, len: nat, t: Table, m: Msg, k: nat) {
    && k <= |t.fields| == |m.vals| && len < TWO63 && |Encode(t, m)| <= len
    && Filled(s, s0, i, len, EncodeFrom(t, m, k))
  }

  lemma NothingStands(s: bytes, len: nat, t: Table, m: Msg)
    requires |t.fields| == |m.vals| && |Encode(t, m)| <= len <= |s| && len < TWO63
    ensures Stands(s, s, len, len, t, m, |t.fields|)
  {
    FilledNothing(s, len);
  }

  lemma BlockRoom(t: Table, m: Msg, k: nat)
    requires k < |t.fields| == |m.vals|
    ensures |EncodeFrom(t, m, k)| <= |Encode(t, m)|
    ensures EncodeFrom(t, m, k) ==
            EncodePayloads(t.fields[k].num, PayloadsOf(t.fields[k].kind, m.vals[k])) + EncodeFrom(t, m, k + 1)
  {
    SuffixFits(t, m, k);
  }

  /** A block that writes nothing, or the record of one payload. */
  lemma BlockStands(s: bytes, s1: bytes, s0: bytes, j: nat, i: nat, len: nat, t: Table, m: Msg, k: nat)
    requires k < |t.fields| && Stands(s1, s0, i, len, t, m, k + 1)
    requires Filled(s, s1, j, i, EncodePayloads(t.fields[k].num, PayloadsOf(t.fields[k].kind, m.vals[k])))
    ensures Stands(s, s0, j, len, t, m, k)
  {
    BlockRoom(t, m, k);
    FilledBefore(s, s1, s0, j, i, len, EncodePayloads(t.fields[k].num, PayloadsOf(t.fields[k].kind, m.vals[k])),
                 EncodeFrom(t, m, k + 1));
  }

  /** The constant bytes of a tag, last byte first. */
  method PutConstant(dAtA: array<byte>, end: nat, tag: bytes) returns (i: nat)
    requires 1 <= |tag| <= 2 && |tag| <= end <= dAtA.Length
    modifies dAtA
    ensures Filled(dAtA[..], old(dAtA[..]), i, end, tag)
  {
    i := end;
    if |tag| == 2 {
      i := i - 1;
      dAtA[i] := tag[1];
    }
    i := i - 1;
    dAtA[i] := tag[0];
    assert dAtA[i..end] == tag;
  }

  /** What stands at `j..end` becomes a record of its length and tag. */
  method PutLengthAndTag(dAtA: array<byte>, ghost s0: bytes, j: nat, end: nat, tag: bytes, ghost b: bytes)
    returns (i: nat)
    requires |s0| == dAtA.Length && Filled(dAtA[..], s0, j, end, b) && 1 <= |tag| <= 2
    requires |tag| + |Varint.Encode(|b|)| + |b| <= end < TWO63
    modifies dAtA
    ensures Filled(dAtA[..], s0, i, end, tag + (Varint.Encode(|b|) + b))
  {
    var at := PutLength(dAtA, s0, j, end, b);
    ghost var s1 := dAtA[..];
    i := PutConstant(dAtA, at, tag);
    FilledBefore(dAtA[..], s1, s0, i, at, end, tag, Varint.Encode(|b|) + b);
  }

  method PutNumberAndTag(dAtA: array<byte>, end: nat, tag: bytes, raw: nat) returns (i: nat)
    requires raw < TWO64 && 1 <= |tag| <= 2 && |tag| + |Varint.Encode(raw)| <= end <= dAtA.Length
    modifies dAtA
    ensures Filled(dAtA[..], old(dAtA[..]), i, end, tag + Varint.Encode(raw))
  {
    ghost var s0 := dAtA[..];
    var j := PutVarint(dAtA, end, raw);
    ghost var s1 := dAtA[..];
    i := PutConstant(dAtA, j, tag);
    FilledBefore(dAtA[..], s1, s0, i, j, end, tag, Varint.Encode(raw));
  }

  /** `if len(m.F) > 0`: a string or `bytes` field. */
  method StringBlock(dAtA: array<byte>, ghost s0: bytes, i: nat, len: nat, tag: bytes, s: bytes,
                     ghost t: Table, ghost m: Msg, ghost k: nat) returns (j: nat)
    requires |s0| == dAtA.Length && Slot(t, m, k, KBytes, Bytes(s), tag)
    requires Stands(dAtA[..], s0, i, len, t, m, k + 1)
    modifies dAtA
    ensures Stands(dAtA[..], s0, j, len, t, m, k)
    ensures j <= i <= dAtA.Length && dAtA[j..i] == if |s| > 0 then tag + (Varint.Encode(|s|) + s) else []
  {
    BlockRoom(t, m, k);
    ghost var s1 := dAtA[..];
    j := i;
    if |s| > 0 {
      SingleSize(t.fields[k].num, Content(s));
      PayloadSplits(t.fields[k].num, Content(s));
      j := PutBytes(dAtA, i, s);
      j := PutLengthAndTag(dAtA, s1, j, i, tag, s);
    } else {
      FilledNothing(s1, i);
    }
    BlockStands(dAtA[..], s1, s0, j, i, len, t, m, k);
  }

  /** `if m.F`: a `bool` field. */
  method BoolBlock(dAtA: array<byte>, ghost s0: bytes, i: nat, len: nat, tag: bytes, b: bool,
                   ghost t: Table, ghost m: Msg, ghost k: nat) returns (j: nat)
    requires |s0| == dAtA.Length && Slot(t, m, k, KBool, Bool(b), tag)
    requires Stands(dAtA[..], s0, i, len, t, m, k + 1)
    modifies dAtA
    ensures Stands(dAtA[..], s0, j, len, t, m, k)
    ensures j <= i <= dAtA.Length && dAtA[j..i] == if b then tag + [1] else []
  {
    BlockRoom(t, m, k);
    ghost var s1 := dAtA[..];
    j := i;
    if b {
      SingleSize(t.fields[k].num, Number(1));
      PayloadSplits(t.fields[k].num, Number(1));
      j := PutNumberAndTag(dAtA, i, tag, if b then 1 else 0);
    } else {
      FilledNothing(s1, i);
    }
    BlockStands(dAtA[..], s1, s0, j, i, len, t, m, k);
  }

  /** `if m.F != 0`: an `int32` field, sign-extended. */
  method Int32Block(dAtA: array<byte>, ghost s0: bytes, i: nat, len: nat, tag: bytes, n: int,
                    ghost t: Table, ghost m: Msg, ghost k: nat) returns (j: nat)
    requires |s0| == dAtA.Length && Slot(t, m, k, KInt32, Int(n), tag) && -TWO31 <= n < TWO31
    requires Stands(dAtA[..], s0, i, len, t, m, k + 1)
    modifies dAtA
    ensures Stands(dAtA[..], s0, j, len, t, m, k)
    ensures j <= i <= dAtA.Length && dAtA[j..i] ==
            if n == 0 then [] else tag + Varint.Encode(if n < 0 then n + TWO64 else n)
  {
    BlockRoom(t, m, k);
    ghost var s1 := dAtA[..];
    j := i;
    if n != 0 {
      Wire.Pattern(n);
      UnsignedIsMod(n);
      SingleSize(t.fields[k].num, Number(n % TWO64));
      PayloadSplits(t.fields[k].num, Number(n % TWO64));
      j := PutNumberAndTag(dAtA, i, tag, Unsigned64(n));
    } else {
      FilledNothing(s1, i);
    }
    BlockStands(dAtA[..], s1, s0, j, i, len, t, m, k);
  }

  /** `if m.F != nil`: a nested message, encoded into the buffer before `i`. */
  method ChildBlock(dAtA: array<byte>, ghost s0: bytes, i: nat, len: nat, tag: bytes, child: Receiver?,
                    ghost t: Table, ghost m: Msg, ghost k: nat) returns (j: nat)
    requires |s0| == dAtA.Length && (child != null ==> child.Valid())
    requires if child == null then k < |t.fields| == |m.vals| && t.fields[k].kind.KMessage? && m.vals[k] == Child(None)
             else Slot(t, m, k, KMessage(child.table), Child(Some(Msg(child.vals))), tag)
    requires Stands(dAtA[..], s0, i, len, t, m, k + 1)
    modifies dAtA
    ensures Stands(dAtA[..], s0, j, len, t, m, k)
    ensures j <= i <= dAtA.Length && dAtA[j..i] ==
            if child == null then []
            else tag + (Varint.Encode(|Encode(child.table, Msg(child.vals))|) + Encode(child.table, Msg(child.vals)))
  {
    BlockRoom(t, m, k);
    ghost var s1 := dAtA[..];
    j := i;
    if child != null {
      ghost var e := Encode(child.table, Msg(child.vals));
      SingleSize(t.fields[k].num, Content(e));
      PayloadSplits(t.fields[k].num, Content(e));
      var size := MarshalToSizedBuffer(child.table, Msg(child.vals), dAtA, i);
      j := PutLengthAndTag(dAtA, s1, i - size, i, tag, e);
    } else {
      FilledNothing(s1, i);
    }
    BlockStands(dAtA[..], s1, s0, j, i, len, t, m, k);
  }

  // ----- Sizes -----

  /** `n` is the size of the entries before `k`. */
  ghost predicate Counted(n: nat, t: Table, m: Msg, k: nat) {
    k <= |t.fields| == |m.vals| && n + |EncodeFrom(t, m, k)| == |Encode(t, m)|
  }

  /** Entry `k` holds `v`, of the given kind, and its tag has this many bytes. */
  ghost predicate Sized(t: Table, m: Msg, k: nat, kind: Kind, v: Value, tagSize: nat) {
    && k < |t.fields| == |m.vals| && t.fields[k].kind == kind && m.vals[k] == v
    && tagSize == |Tag(t.fields[k].num, WireTypeOf(kind))|
  }

  /** `tagSize` is the constant the generated code adds for the tag. */
  method StringSize(n: nat, tagSize: nat, s: bytes, ghost t: Table, ghost m: Msg, ghost k: nat) returns (n': nat)
    requires Counted(n, t, m, k) && Sized(t, m, k, KBytes, Bytes(s), tagSize)
    ensures Counted(n', t, m, k + 1)
  {
    BlockRoom(t, m, k);
    n' := n;
    if |s| > 0 {
      SingleSize(t.fields[k].num, Content(s));
      PayloadSplits(t.fields[k].num, Content(s));
      var sov := Varint.SovOf(|s|);
      n' := n + tagSize + |s| + sov;
    }
  }

  method BoolSize(n: nat, tagSize: nat, b: bool, ghost t: Table, ghost m: Msg, ghost k: nat) returns (n': nat)
    requires Counted(n, t, m, k) && Sized(t, m, k, KBool, Bool(b), tagSize)
    ensures Counted(n', t, m, k + 1)
  {
    BlockRoom(t, m, k);
    n' := n;
    if b {
      SingleSize(t.fields[k].num, Number(1));
      PayloadSplits(t.fields[k].num, Number(1));
      n' := n + tagSize + 1;
    }
  }

  method Int32Size(n: nat, tagSize: nat, x: int, ghost t: Table, ghost m: Msg, ghost k: nat) returns (n': nat)
    requires Counted(n, t, m, k) && Sized(t, m, k, KInt32, Int(x), tagSize)
    requires -TWO31 <= x < TWO31
    ensures Counted(n', t, m, k + 1)
  {
    BlockRoom(t, m, k);
    n' := n;
    if x != 0 {
      UnsignedIsMod(x);
      SingleSize(t.fields[k].num, Number(x % TWO64));
      PayloadSplits(t.fields[k].num, Number(x % TWO64));
      var sov := Varint.SovOf(Unsigned64(x));
      n' := n + tagSize + sov;
    }
  }

  method ChildSize(n: nat, tagSize: nat, child: Receiver?, ghost t: Table, ghost m: Msg, ghost k: nat)
    returns (n': nat)
    requires Counted(n, t, m, k) && (child != null ==> child.Valid())
    requires if child == null then k < |t.fields| == |m.vals| && t.fields[k].kind.KMessage? && m.vals[k] == Child(None)
             else Sized(t, m, k, KMessage(child.table), Child(Some(Msg(child.vals))), tagSize)
    ensures Counted(n', t, m, k + 1)
  {
    BlockRoom(t, m, k);
    n' := n;
    if child != null {
      ghost var e := Encode(child.table, Msg(child.vals));
      SingleSize(t.fields[k].num, Content(e));
      PayloadSplits(t.fields[k].num, Content(e));
      var l := Size(child.table, Msg(child.vals));
      var sov := Varint.SovOf(l);
      n' := n + tagSize + l + sov;
    }
  }

  // ----- Decoding -----

  /** The branch of a string or `bytes` field up to the assignment: its content and its end. */
  method StringField(wireType: nat, d: bytes, j: nat) returns (r: Result<(bytes, nat)>)
    requires Fits(d)
    ensures forall k: nat :: match ParseKnown(k, KBytes, wireType, d, j)
      case Err(e) => r == Err(e)
      case Ok(x) => r.Ok? && x.rec.p == Content(r.value.0) && x.next == r.value.1
  {
    if wireType != 2 { return Err(WrongWireType); }
    var extent := ContentEnd(d, j);
    if extent.Err? { return Err(extent.error); }
    return Ok((d[extent.value.0..extent.value.1], extent.value.1));
  }

  /** The branch of a `bool` field up to the assignment. */
  method BoolField(wireType: nat, d: bytes, j: nat) returns (r: Result<(bool, nat)>)
    requires Fits(d)
    ensures forall k: nat :: match ParseKnown(k, KBool, wireType, d, j)
      case Err(e) => r == Err(e)
      case Ok(x) => r.Ok? && x.rec.p.Number? && r.value == (x.rec.p.raw % TWO64 != 0, x.next)
  {
    if wireType != 0 { return Err(WrongWireType); }
    var read, v := Varint.ReadShifted(d, j, 64);
    if read.Err? { return Err(read.error); }
    TruncateWidths(Varint.Read(d, j, 0).value.value);
    Varint.GatheredIsRead(d, j, 0);
    return Ok((v != 0, read.value.next));
  }

  /** What is done to a field in part of a message is done to it in the whole. */
  lemma FieldInside(kind: Kind, k: nat, wireType: nat, d: bytes, j: nat, pre: seq<Value>, was: seq<Value>,
                    now: seq<Value>, post: seq<Value>, r: Result<nat>)
    requires Fits(d) && k < |was| && FieldDone(kind, k, wireType, d, j, was, now, r)
    ensures |pre| + k < |pre + was + post|
    ensures FieldDone(kind, |pre| + k, wireType, d, j, pre + was + post, pre + now + post, r)
  {
    var v := if r.Ok? then now[k] else FieldBroken(kind, was[k], wireType, d, j);
    assert now == was[k := v];
    assert (pre + was + post)[|pre| + k] == was[k];
    assert (pre + was + post)[|pre| + k := v] == pre + now + post;
  }
}
