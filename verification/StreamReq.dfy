/** The stream request with its own field names, and which field of the chat types is where. */
module StreamReq {
  import opened Machine
  import opened Schema
  import opened Format
  import opened Messages
  import opened Stream
  import Laws

  datatype StreamMessageReq = StreamMessageReq(
    sessionId: bytes, content: bytes, modelId: bytes, agentSessionConfigType: bytes, systemPrompt: bytes,
    permissionMode: bytes, maxTurns: int, extra: seq<MessageExtra>, userId: bytes,
    messageParts: seq<MessagePart>, functionOperationId: bytes, functionId: bytes, functionConversation: bytes)

  // ----- As values of the tables -----

  function OfReq(x: StreamMessageReq): Msg {
    Msg([Bytes(x.sessionId), Bytes(x.content), Bytes(x.modelId), Bytes(x.agentSessionConfigType),
         Bytes(x.systemPrompt), Bytes(x.permissionMode), Int(x.maxTurns), Children(OfExtras(x.extra)),
         Bytes(x.userId), Children(OfParts(x.messageParts)), Bytes(x.functionOperationId), Bytes(x.functionId),
         Bytes(x.functionConversation)])
  }

  // ----- Values of the Go types -----

  predicate GoReq(x: StreamMessageReq) {
    -TWO31 <= x.maxTurns < TWO31
    && (forall y :: y in x.extra ==> GoExtra(y))
    && (forall y :: y in x.messageParts ==> GoPart(y))
  }

  lemma ReqTyped(x: StreamMessageReq)
    requires GoReq(x)
    ensures Typed(STREAM_MESSAGE_REQ, OfReq(x))
  {
    forall m | m in OfExtras(x.extra) ensures Typed(MESSAGE_EXTRA, m) {
      var j :| 0 <= j < |x.extra| && m == OfExtra(x.extra[j]);
      ExtraTyped(x.extra[j]);
    }
    forall m | m in OfParts(x.messageParts) ensures Typed(MESSAGE_PART, m) {
      var j :| 0 <= j < |x.messageParts| && m == OfPart(x.messageParts[j]);
      PartTyped(x.messageParts[j]);
    }
  }

  // ----- Which field is where -----

  /** The number, kind and tag of each field of `MessageExtra`. */
  lemma ExtraSlots(x: MessageExtra)
    ensures var t, m := MESSAGE_EXTRA, OfExtra(x);
      && |t.fields| == 4
      && Slot(t, m, 0, KBytes, Bytes(x.kind), [0x0a])
      && Slot(t, m, 1, KBytes, Bytes(x.id), [0x12])
      && Slot(t, m, 2, KBytes, Bytes(x.name), [0x1a])
      && Slot(t, m, 3, KInt32, Int(x.index), [0x20])
  {
    TagBytes();
  }

  /** The number, kind and tag of each field of `MessagePart`. */
  lemma PartSlotsLow(x: MessagePart)
    ensures var t, m := MESSAGE_PART, OfPart(x);
      && |t.fields| == 19
      && Slot(t, m, 0, KBytes, Bytes(x.kind), [0x0a])
      && Slot(t, m, 1, KBytes, Bytes(x.text), [0x12])
      && Slot(t, m, 2, KBytes, Bytes(x.toolId), [0x1a])
      && Slot(t, m, 3, KBytes, Bytes(x.toolName), [0x22])
      && Slot(t, m, 4, KBytes, Bytes(x.input), [0x2a])
      && Slot(t, m, 5, KBytes, Bytes(x.result), [0x32])
      && Slot(t, m, 6, KBytes, Bytes(x.status), [0x3a])
      && Slot(t, m, 7, KBool, Bool(x.isError), [0x40])
  {
    TagBytes();
  }

  lemma PartSlotsMiddle(x: MessagePart)
    ensures var t, m := MESSAGE_PART, OfPart(x);
      && |t.fields| == 19
      && Slot(t, m, 8, KBytes, Bytes(x.skillId), [0x4a])
      && Slot(t, m, 9, KBytes, Bytes(x.label_), [0x52])
      && Slot(t, m, 10, KBytes, Bytes(x.mcpId), [0x5a])
      && Slot(t, m, 11, KBytes, Bytes(x.toolTitle), [0x62])
      && Slot(t, m, 12, KBytes, Bytes(x.toolDescription), [0x6a])
      && Slot(t, m, 13, KBytes, Bytes(x.fileUuid), [0x72])
      && Slot(t, m, 14, KBytes, Bytes(x.fileName), [0x7a])
      && Slot(t, m, 15, KBytes, Bytes(x.contentType), [0x82, 0x01])
  {
    TagBytes();
  }

  lemma PartSlotsHigh(x: MessagePart)
    ensures var t, m := MESSAGE_PART, OfPart(x);
      && |t.fields| == 19
      && Slot(t, m, 16, KInt64, Int(x.fileSize), [0x88, 0x01])
      && Slot(t, m, 17, KBytes, Bytes(x.md5), [0x92, 0x01])
      && Slot(t, m, 18, KBytes, Bytes(x.fileUrl), [0x9a, 0x01])
  {
    TagBytes();
  }

  /** The number, kind and tag of each field of `Message`. */
  lemma MessageSlotsLow(x: Message)
    ensures var t, m := MESSAGE, OfMessage(x);
      && |t.fields| == 10
      && Slot(t, m, 0, KBytes, Bytes(x.id), [0x0a])
      && Slot(t, m, 1, KBytes, Bytes(x.sessionId), [0x12])
      && Slot(t, m, 2, KBytes, Bytes(x.role), [0x1a])
      && Slot(t, m, 3, KBytes, Bytes(x.content), [0x22])
      && Slot(t, m, 4, KMessages(MESSAGE_PART), Children(OfParts(x.parts)), [0x2a])
      && Slot(t, m, 5, KInt64, Int(x.createdAt), [0x30])
      && Slot(t, m, 6, KMessages(MESSAGE_EXTRA), Children(OfExtras(x.extra)), [0x3a])
      && Slot(t, m, 7, KBytes, Bytes(x.operationId), [0x42])
  {
    TagBytes();
  }

  lemma MessageSlotsHigh(x: Message)
    ensures var t, m := MESSAGE, OfMessage(x);
      && |t.fields| == 10
      && Slot(t, m, 8, KBytes, Bytes(x.terminalStatus), [0x4a])
      && Slot(t, m, 9, KBytes, Bytes(x.terminalReason), [0x52])
  {
    TagBytes();
  }

  /** The number, kind and tag of each field of `StreamMessageResp`. */
  lemma RespSlotsLow(x: StreamMessageResp)
    ensures var t, m := STREAM_MESSAGE_RESP, OfResp(x);
      && |t.fields| == 16
      && Slot(t, m, 0, KBytes, Bytes(x.content), [0x0a])
      && Slot(t, m, 1, KBytes, Bytes(x.kind), [0x12])
      && Slot(t, m, 2, KBytes, Bytes(x.text), [0x1a])
      && Slot(t, m, 3, KBytes, Bytes(x.toolId), [0x22])
  {
    TagBytes();
  }

  lemma RespSlotsMiddle(x: StreamMessageResp)
    ensures var t, m := STREAM_MESSAGE_RESP, OfResp(x);
      && |t.fields| == 16
      && Slot(t, m, 4, KBytes, Bytes(x.toolName), [0x2a])
      && Slot(t, m, 5, KBytes, Bytes(x.toolInput), [0x32])
      && Slot(t, m, 6, KBytes, Bytes(x.resultText), [0x3a])
      && Slot(t, m, 7, KBool, Bool(x.isError), [0x40])
  {
    TagBytes();
  }

  lemma RespSlotsHigh(x: StreamMessageResp)
    ensures var t, m := STREAM_MESSAGE_RESP, OfResp(x);
      && |t.fields| == 16
      && Slot(t, m, 8, KBool, Bool(x.done), [0x48])
      && Slot(t, m, 9, KMessage(MESSAGE), OfChild(x.message), [0x52])
      && Slot(t, m, 10, KBytes, Bytes(x.agentSessionId), [0x5a])
      && Slot(t, m, 11, KBytes, Bytes(x.toolTitle), [0x62])
      && Slot(t, m, 12, KBytes, Bytes(x.toolDescription), [0x6a])
      && Slot(t, m, 13, KBytes, Bytes(x.uiActionJson), [0x72])
      && Slot(t, m, 14, KBytes, Bytes(x.terminalStatus), [0x7a])
      && Slot(t, m, 15, KBytes, Bytes(x.terminalReason), [0x82, 0x01])
  {
    TagBytes();
  }

  /** The number, kind and tag of each field of `StreamMessageReq`. */
  lemma ReqSlotsLow(x: StreamMessageReq)
    ensures var t, m := STREAM_MESSAGE_REQ, OfReq(x);
      && |t.fields| == 13
      && Slot(t, m, 0, KBytes, Bytes(x.sessionId), [0x0a])
      && Slot(t, m, 1, KBytes, Bytes(x.content), [0x12])
      && Slot(t, m, 2, KBytes, Bytes(x.modelId), [0x1a])
      && Slot(t, m, 3, KBytes, Bytes(x.agentSessionConfigType), [0x22])
      && Slot(t, m, 4, KBytes, Bytes(x.systemPrompt), [0x2a])
      && Slot(t, m, 5, KBytes, Bytes(x.permissionMode), [0x32])
      && Slot(t, m, 6, KInt32, Int(x.maxTurns), [0x38])
      && Slot(t, m, 7, KMessages(MESSAGE_EXTRA), Children(OfExtras(x.extra)), [0x42])
  {
    TagBytes();
  }

  lemma ReqSlotsHigh(x: StreamMessageReq)
    ensures var t, m := STREAM_MESSAGE_REQ, OfReq(x);
      && |t.fields| == 13
      && Slot(t, m, 8, KBytes, Bytes(x.userId), [0x4a])
      && Slot(t, m, 9, KMessages(MESSAGE_PART), Children(OfParts(x.messageParts)), [0x52])
      && Slot(t, m, 10, KBytes, Bytes(x.functionOperationId), [0x5a])
      && Slot(t, m, 11, KBytes, Bytes(x.functionId), [0x62])
      && Slot(t, m, 12, KBytes, Bytes(x.functionConversation), [0x6a])
  {
    TagBytes();
  }

  // ----- The merge, field by field -----

  function MergeReq(x: StreamMessageReq, y: StreamMessageReq): StreamMessageReq {
    StreamMessageReq(
      Pick(x.sessionId, y.sessionId), Pick(x.content, y.content), Pick(x.modelId, y.modelId),
      Pick(x.agentSessionConfigType, y.agentSessionConfigType), Pick(x.systemPrompt, y.systemPrompt),
      Pick(x.permissionMode, y.permissionMode), PickInt(x.maxTurns, y.maxTurns), x.extra + y.extra,
      Pick(x.userId, y.userId), x.messageParts + y.messageParts,
      Pick(x.functionOperationId, y.functionOperationId), Pick(x.functionId, y.functionId),
      Pick(x.functionConversation, y.functionConversation))
  }

  lemma ReqFirstMerge(x: StreamMessageReq, y: StreamMessageReq, k: nat)
    requires k < 4
    ensures MergeValue(STREAM_MESSAGE_REQ.fields[k].kind, OfReq(x).vals[k], OfReq(y).vals[k]) ==
            OfReq(MergeReq(x, y)).vals[k]
  {
    assert OfExtras(x.extra) + OfExtras(y.extra) == OfExtras(x.extra + y.extra);
    assert OfParts(x.messageParts) + OfParts(y.messageParts) == OfParts(x.messageParts + y.messageParts);
  }

  lemma ReqSecondMerge(x: StreamMessageReq, y: StreamMessageReq, k: nat)
    requires 4 <= k < 8
    ensures MergeValue(STREAM_MESSAGE_REQ.fields[k].kind, OfReq(x).vals[k], OfReq(y).vals[k]) ==
            OfReq(MergeReq(x, y)).vals[k]
  {
    assert OfExtras(x.extra) + OfExtras(y.extra) == OfExtras(x.extra + y.extra);
    assert OfParts(x.messageParts) + OfParts(y.messageParts) == OfParts(x.messageParts + y.messageParts);
  }

  lemma ReqThirdMerge(x: StreamMessageReq, y: StreamMessageReq, k: nat)
    requires 8 <= k < 13
    ensures MergeValue(STREAM_MESSAGE_REQ.fields[k].kind, OfReq(x).vals[k], OfReq(y).vals[k]) ==
            OfReq(MergeReq(x, y)).vals[k]
  {
    assert OfExtras(x.extra) + OfExtras(y.extra) == OfExtras(x.extra + y.extra);
    assert OfParts(x.messageParts) + OfParts(y.messageParts) == OfParts(x.messageParts + y.messageParts);
  }

  lemma ReqMerges(x: StreamMessageReq, y: StreamMessageReq)
    ensures Merge(STREAM_MESSAGE_REQ, OfReq(x), OfReq(y)) == OfReq(MergeReq(x, y))
  {
    var z, r := Merge(STREAM_MESSAGE_REQ, OfReq(x), OfReq(y)).vals, OfReq(MergeReq(x, y)).vals;
    forall k | 0 <= k < 13 ensures z[k] == r[k] {
      if k < 4 {
        ReqFirstMerge(x, y, k);
      } else if k < 8 {
        ReqSecondMerge(x, y, k);
      } else {
        ReqThirdMerge(x, y, k);
      }
    }
    assert z == r;
  }

  // ----- The laws by field name -----

  lemma ReqDiffers(x: StreamMessageReq, y: StreamMessageReq)
    requires OfReq(x) == OfReq(y)
    ensures x == y
  {
    var a, b := OfReq(x).vals, OfReq(y).vals;
    assert a[0] == b[0] && a[1] == b[1] && a[2] == b[2] && a[3] == b[3] && a[4] == b[4]
        && a[5] == b[5] && a[6] == b[6] && a[7] == b[7] && a[8] == b[8] && a[9] == b[9]
        && a[10] == b[10] && a[11] == b[11] && a[12] == b[12];
    ExtrasDiffer(x.extra, y.extra);
    ChildrenDiffer(x.messageParts, y.messageParts);
  }

  /** Decoding an encoded `StreamMessageReq` into a zero receiver gives it back, and nothing else. */
  lemma ReqRoundTrip(x: StreamMessageReq, y: StreamMessageReq)
    requires GoReq(x) && Fits(Encode(STREAM_MESSAGE_REQ, OfReq(x)))
    ensures var t := STREAM_MESSAGE_REQ;
      Decode(t, Zero(t), Encode(t, OfReq(x)), 0) == Ok(OfReq(y)) <==> x == y
  {
    AllWellFormed();
    ReqTyped(x);
    Laws.RoundTripLaw(STREAM_MESSAGE_REQ, OfReq(x));
    if OfReq(x) == OfReq(y) { ReqDiffers(x, y); }
  }

  /** Decoding two of them end to end gives the struct merged by field. */
  lemma ReqConcat(x: StreamMessageReq, y: StreamMessageReq)
    requires GoReq(x) && GoReq(y)
    requires Fits(Encode(STREAM_MESSAGE_REQ, OfReq(x)) + Encode(STREAM_MESSAGE_REQ, OfReq(y)))
    ensures var t := STREAM_MESSAGE_REQ;
      Decode(t, Zero(t), Encode(t, OfReq(x)) + Encode(t, OfReq(y)), 0)
      == Ok(OfReq(MergeReq(x, y)))
  {
    AllWellFormed();
    ReqTyped(x);
    ReqTyped(y);
    Laws.ConcatIsMerge(STREAM_MESSAGE_REQ, OfReq(x), OfReq(y));
    ReqMerges(x, y);
  }
}
