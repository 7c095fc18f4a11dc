/** `StreamMessageResp` written out field by field, with its nested message behind a pointer. */
module GeneratedStream {
  import opened Machine
  import opened Schema
  import opened Format
  import opened Refusals
  import opened Messages
  import opened Marshal
  import opened Unmarshal
  import opened Blocks
  import Varint

  class StreamMessageResp {
    var content: bytes
    var kind: bytes      // Type
    var text: bytes
    var toolId: bytes
    var toolName: bytes
    var toolInput: bytes
    var resultText: bytes
    var isError: bool
    var done: bool
    var message: Receiver?
    var agentSessionId: bytes
    var toolTitle: bytes
    var toolDescription: bytes
    var uiActionJson: bytes
    var terminalStatus: bytes
    var terminalReason: bytes

    constructor ()
      ensures Valid() && message == null && Value() == Zero(STREAM_MESSAGE_RESP)
    {
      content, kind, text, toolId, toolName, toolInput, resultText := [], [], [], [], [], [], [];
      isError, done, message := false, false, null;
      agentSessionId, toolTitle, toolDescription, uiActionJson := [], [], [], [];
      terminalStatus, terminalReason := [], [];
      new;
      assert Value().vals == Zero(STREAM_MESSAGE_RESP).vals;
    }

    ghost predicate Valid()
      reads this, message
    {
      message != null ==> message.table == MESSAGE && message.Valid()
    }

    // Fields 1 to 7, 8 to 10, and 11 to 16.

    function Low(): seq<Value>
      reads this
    {
      [Bytes(content), Bytes(kind), Bytes(text), Bytes(toolId), Bytes(toolName), Bytes(toolInput), Bytes(resultText)]
    }

    function Nested(): Value
      reads this, message
    {
      Child(if message == null then None else Some(Msg(message.vals)))
    }

    function Middle(): seq<Value>
      reads this, message
    {
      [Bool(isError), Bool(done), Nested()]
    }

    function High(): seq<Value>
      reads this
    {
      [Bytes(agentSessionId), Bytes(toolTitle), Bytes(toolDescription), Bytes(uiActionJson),
       Bytes(terminalStatus), Bytes(terminalReason)]
    }

    function Value(): Msg
      reads this, message
    {
      Msg(Low() + Middle() + High())
    }

    static function KindOf(k: nat): Kind {
      if k == 7 || k == 8 then KBool else if k == 9 then KMessage(MESSAGE) else KBytes
    }

    static lemma Entries()
      ensures |STREAM_MESSAGE_RESP.fields| == 16
      ensures forall k :: 0 <= k < 16 ==> STREAM_MESSAGE_RESP.fields[k] == Field(k + 1, KindOf(k))
    {
    }

    static lemma EntryOf(num: int)
      ensures IndexOf(STREAM_MESSAGE_RESP.fields, num) == if 1 <= num <= 16 then Some((num - 1) as nat) else None
    {
      Entries();
      var r := IndexOf(STREAM_MESSAGE_RESP.fields, num);
      if 1 <= num <= 16 { assert STREAM_MESSAGE_RESP.fields[num - 1].num == num; }
    }

    // ----- Encoding -----

    ghost predicate LowIn(t: Table, m: Msg)
      reads this
    {
      && Slot(t, m, 0, KBytes, Bytes(content), [0x0a])
      && Slot(t, m, 1, KBytes, Bytes(kind), [0x12])
      && Slot(t, m, 2, KBytes, Bytes(text), [0x1a])
      && Slot(t, m, 3, KBytes, Bytes(toolId), [0x22])
      && Slot(t, m, 4, KBytes, Bytes(toolName), [0x2a])
      && Slot(t, m, 5, KBytes, Bytes(toolInput), [0x32])
      && Slot(t, m, 6, KBytes, Bytes(resultText), [0x3a])
    }

    ghost predicate MiddleIn(t: Table, m: Msg)
      reads this, message
    {
      && Slot(t, m, 7, KBool, Bool(isError), [0x40])
      && Slot(t, m, 8, KBool, Bool(done), [0x48])
      && Slot(t, m, 9, KMessage(MESSAGE), Nested(), [0x52])
    }

    ghost predicate HighIn(t: Table, m: Msg)
      reads this
    {
      && Slot(t, m, 10, KBytes, Bytes(agentSessionId), [0x5a])
      && Slot(t, m, 11, KBytes, Bytes(toolTitle), [0x62])
      && Slot(t, m, 12, KBytes, Bytes(toolDescription), [0x6a])
      && Slot(t, m, 13, KBytes, Bytes(uiActionJson), [0x72])
      && Slot(t, m, 14, KBytes, Bytes(terminalStatus), [0x7a])
      && Slot(t, m, 15, KBytes, Bytes(terminalReason), [0x82, 0x01])
    }

    lemma InPlace()
      ensures var t, m := STREAM_MESSAGE_RESP, Value();
        |t.fields| == |m.vals| == 16 && LowIn(t, m) && MiddleIn(t, m) && HighIn(t, m)
    {
      LowInPlace();
      MiddleInPlace();
      HighInPlace();
    }

    lemma LowInPlace()
      ensures |STREAM_MESSAGE_RESP.fields| == |Value().vals| == 16 && LowIn(STREAM_MESSAGE_RESP, Value())
    {
      Entries();
      TagBytes();
      assert Value().vals[..7] == Low();
    }

    lemma MiddleInPlace()
      ensures MiddleIn(STREAM_MESSAGE_RESP, Value())
    {
      Entries();
      TagBytes();
      assert Value().vals[7..10] == Middle();
    }

    lemma HighInPlace()
      ensures HighIn(STREAM_MESSAGE_RESP, Value())
    {
      Entries();
      TagBytes();
      assert Value().vals[10..] == High();
    }

    // Which Go field is which on the wire.

    lemma LowSlots()
      ensures var t, m := STREAM_MESSAGE_RESP, Value();
      && Slot(t, m, 0, KBytes, Bytes(content), [0x0a])
      && Slot(t, m, 1, KBytes, Bytes(kind), [0x12])
      && Slot(t, m, 2, KBytes, Bytes(text), [0x1a])
      && Slot(t, m, 3, KBytes, Bytes(toolId), [0x22])
      && Slot(t, m, 4, KBytes, Bytes(toolName), [0x2a])
      && Slot(t, m, 5, KBytes, Bytes(toolInput), [0x32])
      && Slot(t, m, 6, KBytes, Bytes(resultText), [0x3a])
    {
      LowInPlace();
    }

    lemma MiddleSlots()
      ensures var t, m := STREAM_MESSAGE_RESP, Value();
      && Slot(t, m, 7, KBool, Bool(isError), [0x40])
      && Slot(t, m, 8, KBool, Bool(done), [0x48])
      && Slot(t, m, 9, KMessage(MESSAGE), Nested(), [0x52])
    {
      MiddleInPlace();
    }

    lemma HighSlots()
      ensures var t, m := STREAM_MESSAGE_RESP, Value();
      && Slot(t, m, 10, KBytes, Bytes(agentSessionId), [0x5a])
      && Slot(t, m, 11, KBytes, Bytes(toolTitle), [0x62])
      && Slot(t, m, 12, KBytes, Bytes(toolDescription), [0x6a])
      && Slot(t, m, 13, KBytes, Bytes(uiActionJson), [0x72])
      && Slot(t, m, 14, KBytes, Bytes(terminalStatus), [0x7a])
      && Slot(t, m, 15, KBytes, Bytes(terminalReason), [0x82, 0x01])
    {
      HighInPlace();
    }

    method Size() returns (n: nat)
      requires Valid()
      ensures n == |Encode(STREAM_MESSAGE_RESP, Value())|
    {
      ghost var t, m := STREAM_MESSAGE_RESP, Value();
      InPlace();
      n := SizeText(t, m);
      n := SizeTool(n, t, m);
      n := SizeMiddle(n, t, m);
      n := SizeHigh(n, t, m);
    }

    method SizeText(ghost t: Table, ghost m: Msg) returns (n: nat)
      requires LowIn(t, m)
      ensures Counted(n, t, m, 3)
    {
      n := StringSize(0, 1, content, t, m, 0);
      n := StringSize(n, 1, kind, t, m, 1);
      n := StringSize(n, 1, text, t, m, 2);
    }

    method SizeTool(before: nat, ghost t: Table, ghost m: Msg) returns (n: nat)
      requires LowIn(t, m) && Counted(before, t, m, 3)
      ensures Counted(n, t, m, 7)
    {
      n := StringSize(before, 1, toolId, t, m, 3);
      n := StringSize(n, 1, toolName, t, m, 4);
      n := StringSize(n, 1, toolInput, t, m, 5);
      n := StringSize(n, 1, resultText, t, m, 6);
    }

    method SizeMiddle(before: nat, ghost t: Table, ghost m: Msg) returns (n: nat)
      requires Valid() && MiddleIn(t, m) && Counted(before, t, m, 7)
      ensures Counted(n, t, m, 10)
    {
      n := BoolSize(before, 1, isError, t, m, 7);
      n := BoolSize(n, 1, done, t, m, 8);
      n := ChildSize(n, 1, message, t, m, 9);
    }

    method SizeHigh(before: nat, ghost t: Table, ghost m: Msg) returns (n: nat)
      requires HighIn(t, m) && Counted(before, t, m, 10)
      ensures Counted(n, t, m, 16)
    {
      n := StringSize(before, 1, agentSessionId, t, m, 10);
      n := StringSize(n, 1, toolTitle, t, m, 11);
      n := StringSize(n, 1, toolDescription, t, m, 12);
      n := StringSize(n, 1, uiActionJson, t, m, 13);
      n := StringSize(n, 1, terminalStatus, t, m, 14);
      n := StringSize(n, 2, terminalReason, t, m, 15);
    }

    method MarshalToSizedBuffer(dAtA: array<byte>, len: nat) returns (size: nat)
      requires Valid() && |Encode(STREAM_MESSAGE_RESP, Value())| <= len <= dAtA.Length && len < TWO63
      modifies dAtA
      ensures size == |Encode(STREAM_MESSAGE_RESP, Value())|
      ensures Filled(dAtA[..], old(dAtA[..]), len - size, len, Encode(STREAM_MESSAGE_RESP, Value()))
    {
      InPlace();
      size := MarshalFields(dAtA, len, STREAM_MESSAGE_RESP, Value());
    }

    method MarshalFields(dAtA: array<byte>, len: nat, ghost t: Table, ghost m: Msg) returns (size: nat)
      requires Valid() && LowIn(t, m) && MiddleIn(t, m) && HighIn(t, m) && |t.fields| == |m.vals| == 16
      requires |Encode(t, m)| <= len <= dAtA.Length && len < TWO63
      modifies dAtA
      ensures size == |Encode(t, m)| && Filled(dAtA[..], old(dAtA[..]), len - size, len, Encode(t, m))
    {
      ghost var s0 := dAtA[..];
      NothingStands(s0, len, t, m);
      var i := MarshalBlocks(dAtA, s0, len, t, m);
      size := len - i;
    }

    method MarshalBlocks(dAtA: array<byte>, ghost s0: bytes, len: nat, ghost t: Table, ghost m: Msg) returns (i: nat)
      requires |s0| == dAtA.Length && Valid() && LowIn(t, m) && MiddleIn(t, m) && HighIn(t, m)
      requires Stands(dAtA[..], s0, len, len, t, m, 16)
      modifies dAtA
      ensures Stands(dAtA[..], s0, i, len, t, m, 0)
    {
      i := MarshalTerminal(dAtA, s0, len, len, t, m);
      i := MarshalAction(dAtA, s0, i, len, t, m);
      i := MarshalTitle(dAtA, s0, i, len, t, m);
      i := MarshalMiddle(dAtA, s0, i, len, t, m);
      i := MarshalResult(dAtA, s0, i, len, t, m);
      i := MarshalTool(dAtA, s0, i, len, t, m);
      i := MarshalText(dAtA, s0, i, len, t, m);
      i := MarshalContent(dAtA, s0, i, len, t, m);
    }

    method MarshalTerminal(dAtA: array<byte>, ghost s0: bytes, from: nat, len: nat, ghost t: Table, ghost m: Msg)
      returns (i: nat)
      requires |s0| == dAtA.Length && HighIn(t, m) && Stands(dAtA[..], s0, from, len, t, m, 16)
      modifies dAtA
      ensures Stands(dAtA[..], s0, i, len, t, m, 14)
    {
      i := StringBlock(dAtA, s0, from, len, [0x82, 0x01], terminalReason, t, m, 15);
      i := StringBlock(dAtA, s0, i, len, [0x7a], terminalStatus, t, m, 14);
    }

    method MarshalAction(dAtA: array<byte>, ghost s0: bytes, from: nat, len: nat, ghost t: Table, ghost m: Msg)
      returns (i: nat)
      requires |s0| == dAtA.Length && HighIn(t, m) && Stands(dAtA[..], s0, from, len, t, m, 14)
      modifies dAtA
      ensures Stands(dAtA[..], s0, i, len, t, m, 12)
    {
      i := StringBlock(dAtA, s0, from, len, [0x72], uiActionJson, t, m, 13);
      i := StringBlock(dAtA, s0, i, len, [0x6a], toolDescription, t, m, 12);
    }

    method MarshalTitle(dAtA: array<byte>, ghost s0: bytes, from: nat, len: nat, ghost t: Table, ghost m: Msg)
      returns (i: nat)
      requires |s0| == dAtA.Length && HighIn(t, m) && Stands(dAtA[..], s0, from, len, t, m, 12)
      modifies dAtA
      ensures Stands(dAtA[..], s0, i, len, t, m, 10)
    {
      i := StringBlock(dAtA, s0, from, len, [0x62], toolTitle, t, m, 11);
      i := StringBlock(dAtA, s0, i, len, [0x5a], agentSessionId, t, m, 10);
    }

    method MarshalMiddle(dAtA: array<byte>, ghost s0: bytes, from: nat, len: nat, ghost t: Table, ghost m: Msg)
      returns (i: nat)
      requires |s0| == dAtA.Length && Valid() && MiddleIn(t, m) && Stands(dAtA[..], s0, from, len, t, m, 10)
      modifies dAtA
      ensures Stands(dAtA[..], s0, i, len, t, m, 7)
    {
      i := ChildBlock(dAtA, s0, from, len, [0x52], message, t, m, 9);
      i := BoolBlock(dAtA, s0, i, len, [0x48], done, t, m, 8);
      i := BoolBlock(dAtA, s0, i, len, [0x40], isError, t, m, 7);
    }

    method MarshalResult(dAtA: array<byte>, ghost s0: bytes, from: nat, len: nat, ghost t: Table, ghost m: Msg)
      returns (i: nat)
      requires |s0| == dAtA.Length && LowIn(t, m) && Stands(dAtA[..], s0, from, len, t, m, 7)
      modifies dAtA
      ensures Stands(dAtA[..], s0, i, len, t, m, 5)
    {
      i := StringBlock(dAtA, s0, from, len, [0x3a], resultText, t, m, 6);
      i := StringBlock(dAtA, s0, i, len, [0x32], toolInput, t, m, 5);
    }

    method MarshalTool(dAtA: array<byte>, ghost s0: bytes, from: nat, len: nat, ghost t: Table, ghost m: Msg)
      returns (i: nat)
      requires |s0| == dAtA.Length && LowIn(t, m) && Stands(dAtA[..], s0, from, len, t, m, 5)
      modifies dAtA
      ensures Stands(dAtA[..], s0, i, len, t, m, 3)
    {
      i := StringBlock(dAtA, s0, from, len, [0x2a], toolName, t, m, 4);
      i := StringBlock(dAtA, s0, i, len, [0x22], toolId, t, m, 3);
    }

    method MarshalText(dAtA: array<byte>, ghost s0: bytes, from: nat, len: nat, ghost t: Table, ghost m: Msg)
      returns (i: nat)
      requires |s0| == dAtA.Length && LowIn(t, m) && Stands(dAtA[..], s0, from, len, t, m, 3)
      modifies dAtA
      ensures Stands(dAtA[..], s0, i, len, t, m, 1)
    {
      i := StringBlock(dAtA, s0, from, len, [0x1a], text, t, m, 2);
      i := StringBlock(dAtA, s0, i, len, [0x12], kind, t, m, 1);
    }

    method MarshalContent(dAtA: array<byte>, ghost s0: bytes, from: nat, len: nat, ghost t: Table, ghost m: Msg)
      returns (i: nat)
      requires |s0| == dAtA.Length && Slot(t, m, 0, KBytes, Bytes(content), [0x0a])
      requires Stands(dAtA[..], s0, from, len, t, m, 1)
      modifies dAtA
      ensures Stands(dAtA[..], s0, i, len, t, m, 0)
    {
      i := StringBlock(dAtA, s0, from, len, [0x0a], content, t, m, 0);
    }

    // ----- Decoding -----

    /** A nested message that is there stays the same object. */
    twostate predicate SameMessage()
      reads this, message
    {
      (old(message) != null ==> message == old(message)) && (message == old(message) || fresh(message))
    }

    /** The branch of field 10: into the message already there, or into a new one. */
    method UnmarshalMessage(wireType: nat, d: bytes, j: nat) returns (r: Result<nat>)
      requires Valid() && Fits(d)
      modifies this`message, message
      ensures Valid() && SameMessage()
      ensures FieldDone(KMessage(MESSAGE), 0, wireType, d, j, [old(Nested())], [Nested()], r)
    {
      if wireType != 2 { return Err(WrongWireType); }
      var extent := ContentEnd(d, j);
      if extent.Err? { return Err(extent.error); }
      ZeroTyped(MESSAGE);
      if message == null { message := new Receiver(MESSAGE, Zero(MESSAGE)); }
      var err, _ := message.Unmarshal(d[extent.value.0..extent.value.1]);
      if err.Some? { return Err(err.value); }
      return Ok(extent.value.1);
    }

    method AssignText(fieldNum: int, wireType: nat, d: bytes, j: nat) returns (r: Result<nat>)
      requires Fits(d) && 1 <= fieldNum <= 3
      modifies this
      ensures message == old(message) && isError == old(isError) && done == old(done) && High() == old(High())
      ensures FieldDone(KBytes, fieldNum - 1, wireType, d, j, old(Low()), Low(), r)
    {
      var x := StringField(wireType, d, j);
      if x.Err? { return Err(x.error); }
      match fieldNum {
      case 1 => content := x.value.0;
      case 2 => kind := x.value.0;
      case _ => text := x.value.0;
      }
      return Ok(x.value.1);
    }

    method AssignTool(fieldNum: int, wireType: nat, d: bytes, j: nat) returns (r: Result<nat>)
      requires Fits(d) && 4 <= fieldNum <= 7
      modifies this
      ensures message == old(message) && isError == old(isError) && done == old(done) && High() == old(High())
      ensures FieldDone(KBytes, fieldNum - 1, wireType, d, j, old(Low()), Low(), r)
    {
      var x := StringField(wireType, d, j);
      if x.Err? { return Err(x.error); }
      match fieldNum {
      case 4 => toolId := x.value.0;
      case 5 => toolName := x.value.0;
      case 6 => toolInput := x.value.0;
      case _ => resultText := x.value.0;
      }
      return Ok(x.value.1);
    }

    method AssignLow(fieldNum: int, wireType: nat, d: bytes, j: nat) returns (r: Result<nat>)
      requires Fits(d) && 1 <= fieldNum <= 7
      modifies this
      ensures message == old(message) && isError == old(isError) && done == old(done) && High() == old(High())
      ensures FieldDone(KBytes, fieldNum - 1, wireType, d, j, old(Low()), Low(), r)
    {
      if fieldNum <= 3 {
        r := AssignText(fieldNum, wireType, d, j);
      } else {
        r := AssignTool(fieldNum, wireType, d, j);
      }
    }

    method AssignMiddle(fieldNum: int, wireType: nat, d: bytes, j: nat) returns (r: Result<nat>)
      requires Valid() && Fits(d) && 8 <= fieldNum <= 10
      modifies this, message
      ensures Valid() && SameMessage() && Low() == old(Low()) && High() == old(High())
      ensures FieldDone(KindOf(fieldNum - 1), fieldNum - 8, wireType, d, j, old(Middle()), Middle(), r)
    {
      if fieldNum == 10 {
        ghost var nested := Nested();
        r := UnmarshalMessage(wireType, d, j);
        InMiddle(wireType, d, j, isError, done, nested, Nested(), r);
      } else {
        r := AssignBool(fieldNum, wireType, d, j);
      }
    }

    static lemma InMiddle(wireType: nat, d: bytes, j: nat, isError: bool, done: bool, was: Value, now: Value,
                          r: Result<nat>)
      requires Fits(d) && FieldDone(KMessage(MESSAGE), 0, wireType, d, j, [was], [now], r)
      ensures FieldDone(KMessage(MESSAGE), 2, wireType, d, j, [Bool(isError), Bool(done), was],
                        [Bool(isError), Bool(done), now], r)
    {
      var pre := [Bool(isError), Bool(done)];
      FieldInside(KMessage(MESSAGE), 0, wireType, d, j, pre, [was], [now], [], r);
      assert pre + [was] + [] == [Bool(isError), Bool(done), was];
      assert pre + [now] + [] == [Bool(isError), Bool(done), now];
    }

    method AssignBool(fieldNum: int, wireType: nat, d: bytes, j: nat) returns (r: Result<nat>)
      requires Fits(d) && 8 <= fieldNum <= 9
      modifies this
      ensures message == old(message) && Low() == old(Low()) && High() == old(High())
      ensures FieldDone(KBool, fieldNum - 8, wireType, d, j, old(Middle()), Middle(), r)
    {
      var x := BoolField(wireType, d, j);
      if x.Err? { return Err(x.error); }
      if fieldNum == 8 { isError := x.value.0; } else { done := x.value.0; }
      return Ok(x.value.1);
    }

    method AssignHigh(fieldNum: int, wireType: nat, d: bytes, j: nat) returns (r: Result<nat>)
      requires Fits(d) && 11 <= fieldNum <= 16
      modifies this
      ensures message == old(message) && isError == old(isError) && done == old(done) && Low() == old(Low())
      ensures FieldDone(KBytes, fieldNum - 11, wireType, d, j, old(High()), High(), r)
    {
      var x := StringField(wireType, d, j);
      if x.Err? { return Err(x.error); }
      match fieldNum {
      case 11 => agentSessionId := x.value.0;
      case 12 => toolTitle := x.value.0;
      case 13 => toolDescription := x.value.0;
      case 14 => uiActionJson := x.value.0;
      case 15 => terminalStatus := x.value.0;
      case _ => terminalReason := x.value.0;
      }
      return Ok(x.value.1);
    }

    static lemma InLow(k: nat, wireType: nat, d: bytes, j: nat, low: seq<Value>, now: seq<Value>,
                       middle: seq<Value>, high: seq<Value>, r: Result<nat>)
      requires Fits(d) && k < |low| && FieldDone(KBytes, k, wireType, d, j, low, now, r)
      ensures FieldDone(KBytes, k, wireType, d, j, low + middle + high, now + middle + high, r)
    {
      FieldInside(KBytes, k, wireType, d, j, [], low, now, middle + high, r);
      assert [] + low + (middle + high) == low + middle + high;
      assert [] + now + (middle + high) == now + middle + high;
    }

    static lemma InHigh(k: nat, wireType: nat, d: bytes, j: nat, low: seq<Value>, middle: seq<Value>,
                        high: seq<Value>, now: seq<Value>, r: Result<nat>)
      requires Fits(d) && |low + middle| == 10 && k < |high| && FieldDone(KBytes, k, wireType, d, j, high, now, r)
      ensures FieldDone(KBytes, 10 + k, wireType, d, j, low + middle + high, low + middle + now, r)
    {
      FieldInside(KBytes, k, wireType, d, j, low + middle, high, now, [], r);
      assert low + middle + high + [] == low + middle + high;
      assert low + middle + now + [] == low + middle + now;
    }

    /** The switch over field numbers, for a known field. */
    method Assign(fieldNum: int, wireType: nat, d: bytes, j: nat) returns (r: Result<nat>)
      requires Valid() && Fits(d) && 1 <= fieldNum <= 16
      modifies this, message
      ensures Valid() && SameMessage()
      ensures FieldDone(KindOf(fieldNum - 1), fieldNum - 1, wireType, d, j, old(Value().vals), Value().vals, r)
    {
      ghost var low, middle, high := Low(), Middle(), High();
      if fieldNum <= 7 {
        r := AssignLow(fieldNum, wireType, d, j);
        InLow(fieldNum - 1, wireType, d, j, low, Low(), middle, high, r);
      } else if fieldNum <= 10 {
        r := AssignMiddle(fieldNum, wireType, d, j);
        FieldInside(KindOf(fieldNum - 1), fieldNum - 8, wireType, d, j, low, middle, Middle(), high, r);
      } else {
        r := AssignHigh(fieldNum, wireType, d, j);
        InHigh(fieldNum - 11, wireType, d, j, low, middle, high, High(), r);
      }
    }

    method UnmarshalRecord(d: bytes, at: nat) returns (r: Result<nat>)
      requires Valid() && Fits(d) && at < |d|
      modifies this, message
      ensures Valid() && SameMessage()
      ensures RecordDone(STREAM_MESSAGE_RESP, d, at, old(Value().vals), Value().vals, r)
    {
      Entries();
      var head := ReadTag(d, at);
      if head.Err? { return Err(head.error); }
      EntryOf(head.value.fieldNum);
      if head.value.fieldNum <= 16 {
        ghost var was := Value().vals;
        r := Assign(head.value.fieldNum, head.value.wireType, d, head.value.next);
        BranchIsRecord(STREAM_MESSAGE_RESP, head.value.fieldNum - 1, head.value,
                       Varint.Read(d, at, 0).value.value, d, at, was, Value().vals, r);
      } else {
        r := SkipUnknown(d, at);
      }
    }

    /** A nested message that is there stays the same object and is merged into; one that is not is
        made. */
    method Unmarshal(d: bytes) returns (err: Option<Error>, ghost at: nat)
      requires Valid() && Fits(d)
      modifies this, message
      ensures Valid() && SameMessage()
      ensures match Decode(STREAM_MESSAGE_RESP, old(Value()), d, 0)
        case Err(e) => err == Some(e)
        case Ok(m) => err == None && Value() == m
      ensures at == Before(STREAM_MESSAGE_RESP, old(Value()), d, 0).at <= |d| && (err == None <==> at == |d|)
      ensures Value() == Left(STREAM_MESSAGE_RESP, old(Value()), d)
    {
      ghost var m0 := Value();
      var iNdEx: nat := 0;
      Entries();
      while iNdEx < |d|
        invariant iNdEx <= |d| && Valid()
        invariant SameMessage()
        invariant Decode(STREAM_MESSAGE_RESP, m0, d, 0) == Decode(STREAM_MESSAGE_RESP, Value(), d, iNdEx)
        invariant Before(STREAM_MESSAGE_RESP, m0, d, 0) == Before(STREAM_MESSAGE_RESP, Value(), d, iNdEx)
        decreases |d| - iNdEx
      {
        ghost var was := Value();
        TypedHere();
        var step := UnmarshalRecord(d, iNdEx);
        DecodeStep(STREAM_MESSAGE_RESP, was.vals, d, iNdEx);
        if step.Err? { return Some(step.error), iNdEx; }
        iNdEx := step.value;
      }
      return None, iNdEx;
    }

    lemma TypedHere()
      requires Valid()
      ensures Typed(STREAM_MESSAGE_RESP, Value())
    {
      Entries();
    }
  }
}
