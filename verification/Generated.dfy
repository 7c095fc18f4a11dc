/** Generated types written out field by field: the codec that walks a table does exactly what the
    straight-line code does. Tags are the constants of the generated code. */
module Generated {
  import opened Machine
  import opened Schema
  import opened Format
  import opened Refusals
  import opened Messages
  import opened Marshal
  import opened Unmarshal
  import opened Blocks
  import Varint

  class MessageExtra {
    var kind: bytes      // Type
    var id: bytes
    var name: bytes
    var index: int

    constructor ()
      ensures Value() == Zero(MESSAGE_EXTRA) && Valid()
    {
      kind, id, name, index := [], [], [], 0;
      new;
      assert Value().vals == Zero(MESSAGE_EXTRA).vals;
    }

    ghost predicate Valid()
      reads this
    {
      -TWO31 <= index < TWO31
    }

    function Value(): Msg
      reads this
    {
      Msg([Bytes(kind), Bytes(id), Bytes(name), Int(index)])
    }

    static lemma Entries(num: int)
      ensures |MESSAGE_EXTRA.fields| == 4
      ensures forall k :: 0 <= k < 4 ==> MESSAGE_EXTRA.fields[k] == Field(k + 1, if k == 3 then KInt32 else KBytes)
      ensures IndexOf(MESSAGE_EXTRA.fields, num) == if 1 <= num <= 4 then Some((num - 1) as nat) else None
    {
      var r := IndexOf(MESSAGE_EXTRA.fields, num);
      if 1 <= num <= 4 { assert MESSAGE_EXTRA.fields[num - 1].num == num; }
    }

    lemma Slots()
      ensures var t, m := MESSAGE_EXTRA, Value();
        && |t.fields| == 4 && EncodeFrom(t, m, 4) == []
        && Slot(t, m, 0, KBytes, Bytes(kind), [0x0a])
        && Slot(t, m, 1, KBytes, Bytes(id), [0x12])
        && Slot(t, m, 2, KBytes, Bytes(name), [0x1a])
        && Slot(t, m, 3, KInt32, Int(index), [0x20])
    {
      Entries(0);
      TagBytes();
    }

    method Size() returns (n: nat)
      requires Valid()
      ensures n == |Encode(MESSAGE_EXTRA, Value())|
    {
      ghost var t, m := MESSAGE_EXTRA, Value();
      Slots();
      n := StringSize(0, 1, kind, t, m, 0);
      n := StringSize(n, 1, id, t, m, 1);
      n := StringSize(n, 1, name, t, m, 2);
      n := Int32Size(n, 1, index, t, m, 3);
    }

    method MarshalToSizedBuffer(dAtA: array<byte>, len: nat) returns (size: nat)
      requires Valid() && |Encode(MESSAGE_EXTRA, Value())| <= len <= dAtA.Length && len < TWO63
      modifies dAtA
      ensures size == |Encode(MESSAGE_EXTRA, Value())|
      ensures Filled(dAtA[..], old(dAtA[..]), len - size, len, Encode(MESSAGE_EXTRA, Value()))
    {
      ghost var t, m, s0 := MESSAGE_EXTRA, Value(), dAtA[..];
      Slots();
      NothingStands(s0, len, t, m);
      var i := MarshalBlocks(dAtA, s0, len, t, m);
      size := len - i;
    }

    method MarshalBlocks(dAtA: array<byte>, ghost s0: bytes, len: nat, ghost t: Table, ghost m: Msg) returns (i: nat)
      requires Valid() && |s0| == dAtA.Length && Stands(dAtA[..], s0, len, len, t, m, 4)
      requires Slot(t, m, 0, KBytes, Bytes(kind), [0x0a]) && Slot(t, m, 1, KBytes, Bytes(id), [0x12])
      requires Slot(t, m, 2, KBytes, Bytes(name), [0x1a]) && Slot(t, m, 3, KInt32, Int(index), [0x20])
      modifies dAtA
      ensures Stands(dAtA[..], s0, i, len, t, m, 0)
    {
      i := MarshalIndex(dAtA, s0, len, t, m);
      i := StringBlock(dAtA, s0, i, len, [0x1a], name, t, m, 2);
      i := StringBlock(dAtA, s0, i, len, [0x12], id, t, m, 1);
      i := StringBlock(dAtA, s0, i, len, [0x0a], kind, t, m, 0);
    }

    method MarshalIndex(dAtA: array<byte>, ghost s0: bytes, len: nat, ghost t: Table, ghost m: Msg) returns (i: nat)
      requires Valid() && |s0| == dAtA.Length && Stands(dAtA[..], s0, len, len, t, m, 4)
      requires Slot(t, m, 3, KInt32, Int(index), [0x20])
      modifies dAtA
      ensures Stands(dAtA[..], s0, i, len, t, m, 3)
    {
      i := Int32Block(dAtA, s0, len, len, [0x20], index, t, m, 3);
    }

    /** The switch over field numbers, for a known field. */
    method Assign(fieldNum: int, wireType: nat, d: bytes, j: nat) returns (r: Result<nat>)
      requires Valid() && Fits(d) && 1 <= fieldNum <= 4
      modifies this
      ensures FieldDone(MESSAGE_EXTRA.fields[fieldNum - 1].kind, fieldNum - 1, wireType, d, j,
                        old(Value().vals), Value().vals, r)
      ensures Valid()
    {
      Entries(fieldNum);
      if fieldNum == 4 {
        if wireType != 0 { return Err(WrongWireType); }
        var read, acc := Varint.ReadShifted(d, j, 32);
        TruncateWidths(Varint.Gathered(d, j, 0));
        index := Signed32(acc);
        if read.Err? { return Err(read.error); }
        Varint.GatheredIsRead(d, j, 0);
        return Ok(read.value.next);
      }
      var x := StringField(wireType, d, j);
      if x.Err? { return Err(x.error); }
      match fieldNum {
      case 1 => kind := x.value.0;
      case 2 => id := x.value.0;
      case _ => name := x.value.0;
      }
      return Ok(x.value.1);
    }

    method UnmarshalRecord(d: bytes, at: nat) returns (r: Result<nat>)
      requires Valid() && Fits(d) && at < |d|
      modifies this
      ensures Valid() && RecordDone(MESSAGE_EXTRA, d, at, old(Value().vals), Value().vals, r)
    {
      var head := ReadTag(d, at);
      if head.Err? { return Err(head.error); }
      Entries(head.value.fieldNum);
      if head.value.fieldNum <= 4 {
        ghost var was := Value().vals;
        r := Assign(head.value.fieldNum, head.value.wireType, d, head.value.next);
        BranchIsRecord(MESSAGE_EXTRA, head.value.fieldNum - 1, head.value, Varint.Read(d, at, 0).value.value, d, at,
                       was, Value().vals, r);
      } else {
        r := SkipUnknown(d, at);
      }
    }

    method Unmarshal(d: bytes) returns (err: Option<Error>, ghost at: nat)
      requires Valid() && Fits(d)
      modifies this
      ensures match Decode(MESSAGE_EXTRA, old(Value()), d, 0)
        case Err(e) => err == Some(e)
        case Ok(m) => err == None && Value() == m
      ensures at == Before(MESSAGE_EXTRA, old(Value()), d, 0).at <= |d| && (err == None <==> at == |d|)
      ensures Value() == Left(MESSAGE_EXTRA, old(Value()), d) && Valid()
    {
      ghost var m0 := Value();
      var iNdEx: nat := 0;
      while iNdEx < |d|
        invariant iNdEx <= |d| && Valid()
        invariant Decode(MESSAGE_EXTRA, m0, d, 0) == Decode(MESSAGE_EXTRA, Value(), d, iNdEx)
        invariant Before(MESSAGE_EXTRA, m0, d, 0) == Before(MESSAGE_EXTRA, Value(), d, iNdEx)
        decreases |d| - iNdEx
      {
        ghost var was := Value();
        var step := UnmarshalRecord(d, iNdEx);
        DecodeStep(MESSAGE_EXTRA, was.vals, d, iNdEx);
        if step.Err? { return Some(step.error), iNdEx; }
        iNdEx := step.value;
      }
      return None, iNdEx;
    }
  }

  /** `data` and `dataLen` are the `Data` slice: its backing array and its length. */
  class ImportSkillPackageReq {
    var userId: bytes
    var fileName: bytes
    var data: array<byte>
    var dataLen: nat

    constructor ()
      ensures Valid() && fresh(data) && Value() == Zero(IMPORT_SKILL_PACKAGE_REQ)
    {
      userId, fileName, data, dataLen := [], [], new byte[0], 0;
      new;
      assert Value().vals == Zero(IMPORT_SKILL_PACKAGE_REQ).vals;
    }

    ghost predicate Valid()
      reads this
    {
      dataLen <= data.Length
    }

    function Value(): Msg
      reads this, data
      requires Valid()
    {
      Msg([Bytes(userId), Bytes(fileName), Bytes(data[..dataLen])])
    }

    static lemma Entries(num: int)
      ensures |IMPORT_SKILL_PACKAGE_REQ.fields| == 3
      ensures forall k :: 0 <= k < 3 ==> IMPORT_SKILL_PACKAGE_REQ.fields[k] == Field(k + 1, KBytes)
      ensures IndexOf(IMPORT_SKILL_PACKAGE_REQ.fields, num) == if 1 <= num <= 3 then Some((num - 1) as nat) else None
    {
      var r := IndexOf(IMPORT_SKILL_PACKAGE_REQ.fields, num);
      if 1 <= num <= 3 { assert IMPORT_SKILL_PACKAGE_REQ.fields[num - 1].num == num; }
    }

    lemma Slots()
      requires Valid()
      ensures var t, m := IMPORT_SKILL_PACKAGE_REQ, Value();
        && |t.fields| == 3 && EncodeFrom(t, m, 3) == []
        && Slot(t, m, 0, KBytes, Bytes(userId), [0x0a])
        && Slot(t, m, 1, KBytes, Bytes(fileName), [0x12])
        && Slot(t, m, 2, KBytes, Bytes(data[..dataLen]), [0x1a])
    {
      Entries(0);
      TagBytes();
    }

    method Size() returns (n: nat)
      requires Valid()
      ensures n == |Encode(IMPORT_SKILL_PACKAGE_REQ, Value())|
    {
      ghost var t, m := IMPORT_SKILL_PACKAGE_REQ, Value();
      Slots();
      n := StringSize(0, 1, userId, t, m, 0);
      n := StringSize(n, 1, fileName, t, m, 1);
      n := StringSize(n, 1, data[..dataLen], t, m, 2);
    }

    /** The buffer may be the array behind `data`: that is copied first, and not read again. */
    method MarshalToSizedBuffer(dAtA: array<byte>, len: nat) returns (size: nat)
      requires Valid() && |Encode(IMPORT_SKILL_PACKAGE_REQ, Value())| <= len <= dAtA.Length && len < TWO63
      modifies dAtA
      ensures size == |Encode(IMPORT_SKILL_PACKAGE_REQ, old(Value()))|
      ensures Filled(dAtA[..], old(dAtA[..]), len - size, len, Encode(IMPORT_SKILL_PACKAGE_REQ, old(Value())))
    {
      ghost var t, m, s0 := IMPORT_SKILL_PACKAGE_REQ, Value(), dAtA[..];
      Slots();
      NothingStands(s0, len, t, m);
      var i := MarshalBlocks(dAtA, s0, len, t, m);
      size := len - i;
    }

    method MarshalBlocks(dAtA: array<byte>, ghost s0: bytes, len: nat, ghost t: Table, ghost m: Msg) returns (i: nat)
      requires Valid() && |s0| == dAtA.Length && Stands(dAtA[..], s0, len, len, t, m, 3)
      requires Slot(t, m, 0, KBytes, Bytes(userId), [0x0a]) && Slot(t, m, 1, KBytes, Bytes(fileName), [0x12])
      requires Slot(t, m, 2, KBytes, Bytes(data[..dataLen]), [0x1a])
      modifies dAtA
      ensures Stands(dAtA[..], s0, i, len, t, m, 0)
    {
      i := StringBlock(dAtA, s0, len, len, [0x1a], data[..dataLen], t, m, 2);
      i := StringBlock(dAtA, s0, i, len, [0x12], fileName, t, m, 1);
      i := StringBlock(dAtA, s0, i, len, [0x0a], userId, t, m, 0);
    }

    /** `append(m.Data[:0], b...)`: written over the old contents when the backing array has room, so
        whoever shares that array sees it; otherwise into a new array, and the old one is kept. */
    method ReplaceData(b: bytes)
      requires Valid()
      modifies this`data, this`dataLen, data
      ensures Valid() && data[..dataLen] == b
      ensures |b| <= old(data.Length) ==> data == old(data) && data[|b|..] == old(data[|b|..])
      ensures |b| > old(data.Length) ==> fresh(data) && old(data)[..] == old(data[..])
    {
      if |b| > data.Length { data := new byte[|b|](_ => 0); }
      forall i | 0 <= i < |b| { data[i] := b[i]; }
      dataLen := |b|;
    }

    /** The contents a record brings for `Data`, if any, are no longer than `room`. */
    static predicate Room(r: Result<Parsed>, room: nat) {
      r.Ok? && r.value.rec.Known? && r.value.rec.k == 2 && r.value.rec.p.Content? ==> |r.value.rec.p.b| <= room
    }

    /** So are those of every record from `i` on, up to the first bad one. */
    static predicate AllRoom(d: bytes, i: nat, room: nat)
      requires Fits(d)
      decreases |d| - i
    {
      i < |d| && ParseRecord(IMPORT_SKILL_PACKAGE_REQ, d, i).Ok? ==>
        Room(ParseRecord(IMPORT_SKILL_PACKAGE_REQ, d, i), room)
        && AllRoom(d, ParseRecord(IMPORT_SKILL_PACKAGE_REQ, d, i).value.next, room)
    }

    /** The switch over field numbers, for a known field. */
    method Assign(fieldNum: int, wireType: nat, d: bytes, j: nat) returns (r: Result<nat>)
      requires Valid() && Fits(d) && 1 <= fieldNum <= 3
      modifies this, data
      ensures Valid() && (data == old(data) || fresh(data))
      ensures data == old(data) <==> Room(ParseKnown(fieldNum - 1, KBytes, wireType, d, j), old(data.Length))
      ensures FieldDone(KBytes, fieldNum - 1, wireType, d, j, old(Value().vals), Value().vals, r)
    {
      var x := StringField(wireType, d, j);
      if x.Err? { return Err(x.error); }
      match fieldNum {
      case 1 => userId := x.value.0;
      case 2 => fileName := x.value.0;
      case _ => ReplaceData(x.value.0);
      }
      return Ok(x.value.1);
    }

    method UnmarshalRecord(d: bytes, at: nat) returns (r: Result<nat>)
      requires Valid() && Fits(d) && at < |d|
      modifies this, data
      ensures Valid() && (data == old(data) || fresh(data))
      ensures data == old(data) <==> Room(ParseRecord(IMPORT_SKILL_PACKAGE_REQ, d, at), old(data.Length))
      ensures RecordDone(IMPORT_SKILL_PACKAGE_REQ, d, at, old(Value().vals), Value().vals, r)
    {
      var head := ReadTag(d, at);
      if head.Err? { return Err(head.error); }
      Entries(head.value.fieldNum);
      if head.value.fieldNum <= 3 {
        ghost var was := Value().vals;
        r := Assign(head.value.fieldNum, head.value.wireType, d, head.value.next);
        BranchIsRecord(IMPORT_SKILL_PACKAGE_REQ, head.value.fieldNum - 1, head.value,
                       Varint.Read(d, at, 0).value.value, d, at, was, Value().vals, r);
      } else {
        r := SkipUnknown(d, at);
      }
    }

    /** The array behind `data` stays if and only if it has room for each of the contents that the input
        brings for it; else it is replaced by a new one. */
    method Unmarshal(d: bytes) returns (err: Option<Error>, ghost at: nat)
      requires Valid() && Fits(d)
      modifies this, data
      ensures Valid() && (data == old(data) || fresh(data))
      ensures data == old(data) <==> AllRoom(d, 0, old(data.Length))
      ensures match Decode(IMPORT_SKILL_PACKAGE_REQ, old(Value()), d, 0)
        case Err(e) => err == Some(e)
        case Ok(m) => err == None && Value() == m
      ensures at == Before(IMPORT_SKILL_PACKAGE_REQ, old(Value()), d, 0).at <= |d| && (err == None <==> at == |d|)
      ensures Value() == Left(IMPORT_SKILL_PACKAGE_REQ, old(Value()), d)
    {
      ghost var m0, room := Value(), data.Length;
      var iNdEx: nat := 0;
      while iNdEx < |d|
        invariant iNdEx <= |d| && Valid() && (data == old(data) || fresh(data))
        invariant AllRoom(d, 0, room) <==> data == old(data) && AllRoom(d, iNdEx, room)
        invariant Decode(IMPORT_SKILL_PACKAGE_REQ, m0, d, 0) == Decode(IMPORT_SKILL_PACKAGE_REQ, Value(), d, iNdEx)
        invariant Before(IMPORT_SKILL_PACKAGE_REQ, m0, d, 0) == Before(IMPORT_SKILL_PACKAGE_REQ, Value(), d, iNdEx)
        decreases |d| - iNdEx
      {
        ghost var was := Value();
        var step := UnmarshalRecord(d, iNdEx);
        DecodeStep(IMPORT_SKILL_PACKAGE_REQ, was.vals, d, iNdEx);
        if step.Err? { return Some(step.error), iNdEx; }
        iNdEx := step.value;
      }
      return None, iNdEx;
    }
  }
}
