/** The stream response family with its own field names: what decoding does to the named fields. */
module Stream {
  import opened Machine
  import opened Schema
  import opened Format
  import opened Messages
  import Laws

  datatype MessageExtra = MessageExtra(kind: bytes, id: bytes, name: bytes, index: int)

  datatype MessagePart = MessagePart(
    kind: bytes, text: bytes, toolId: bytes, toolName: bytes, input: bytes, result: bytes, status: bytes,
    isError: bool, skillId: bytes, label_: bytes, mcpId: bytes, toolTitle: bytes, toolDescription: bytes,
    fileUuid: bytes, fileName: bytes, contentType: bytes, fileSize: int, md5: bytes, fileUrl: bytes)

  datatype Message = Message(
    id: bytes, sessionId: bytes, role: bytes, content: bytes, parts: seq<MessagePart>, createdAt: int,
    extra: seq<MessageExtra>, operationId: bytes, terminalStatus: bytes, terminalReason: bytes)

  datatype StreamMessageResp = StreamMessageResp(
    content: bytes, kind: bytes, text: bytes, toolId: bytes, toolName: bytes, toolInput: bytes,
    resultText: bytes, isError: bool, done: bool, message: Option<Message>, agentSessionId: bytes,
    toolTitle: bytes, toolDescription: bytes, uiActionJson: bytes, terminalStatus: bytes,
    terminalReason: bytes)

  // ----- As values of the tables -----

  function OfExtra(x: MessageExtra): Msg { Msg([Bytes(x.kind), Bytes(x.id), Bytes(x.name), Int(x.index)]) }

  function OfPart(x: MessagePart): Msg {
    Msg([Bytes(x.kind), Bytes(x.text), Bytes(x.toolId), Bytes(x.toolName), Bytes(x.input), Bytes(x.result),
         Bytes(x.status), Bool(x.isError), Bytes(x.skillId), Bytes(x.label_), Bytes(x.mcpId),
         Bytes(x.toolTitle), Bytes(x.toolDescription), Bytes(x.fileUuid), Bytes(x.fileName),
         Bytes(x.contentType), Int(x.fileSize), Bytes(x.md5), Bytes(x.fileUrl)])
  }

  function OfExtras(xs: seq<MessageExtra>): seq<Msg> { seq(|xs|, j requires 0 <= j < |xs| => OfExtra(xs[j])) }
  function OfParts(xs: seq<MessagePart>): seq<Msg> { seq(|xs|, j requires 0 <= j < |xs| => OfPart(xs[j])) }

  function OfMessage(x: Message): Msg {
    Msg([Bytes(x.id), Bytes(x.sessionId), Bytes(x.role), Bytes(x.content), Children(OfParts(x.parts)),
         Int(x.createdAt), Children(OfExtras(x.extra)), Bytes(x.operationId), Bytes(x.terminalStatus),
         Bytes(x.terminalReason)])
  }

  function OfChild(x: Option<Message>): Value {
    Child(if x.None? then None else Some(OfMessage(x.value)))
  }

  function OfResp(x: StreamMessageResp): Msg {
    Msg([Bytes(x.content), Bytes(x.kind), Bytes(x.text), Bytes(x.toolId), Bytes(x.toolName),
         Bytes(x.toolInput), Bytes(x.resultText), Bool(x.isError), Bool(x.done),
         OfChild(x.message),
         Bytes(x.agentSessionId), Bytes(x.toolTitle), Bytes(x.toolDescription), Bytes(x.uiActionJson),
         Bytes(x.terminalStatus), Bytes(x.terminalReason)])
  }

  // ----- Values of the Go types -----

  predicate IsInt64(n: int) { -TWO63 <= n < TWO63 }
  predicate GoExtra(x: MessageExtra) { -TWO31 <= x.index < TWO31 }
  predicate GoPart(x: MessagePart) { IsInt64(x.fileSize) }

  predicate GoMessage(x: Message) {
    IsInt64(x.createdAt) && (forall p :: p in x.parts ==> GoPart(p)) && (forall e :: e in x.extra ==> GoExtra(e))
  }

  predicate GoResp(x: StreamMessageResp) { x.message.Some? ==> GoMessage(x.message.value) }

  lemma ExtraTyped(x: MessageExtra)
    requires GoExtra(x)
    ensures Typed(MESSAGE_EXTRA, OfExtra(x))
  {
  }

  lemma PartTyped(x: MessagePart)
    requires GoPart(x)
    ensures Typed(MESSAGE_PART, OfPart(x))
  {
  }

  lemma MessageTyped(x: Message)
    requires GoMessage(x)
    ensures Typed(MESSAGE, OfMessage(x))
  {
    forall m | m in OfParts(x.parts) ensures Typed(MESSAGE_PART, m) {
      var j :| 0 <= j < |x.parts| && m == OfPart(x.parts[j]);
      PartTyped(x.parts[j]);
    }
    forall m | m in OfExtras(x.extra) ensures Typed(MESSAGE_EXTRA, m) {
      var j :| 0 <= j < |x.extra| && m == OfExtra(x.extra[j]);
      ExtraTyped(x.extra[j]);
    }
  }

  lemma RespTyped(x: StreamMessageResp)
    requires GoResp(x)
    ensures Typed(STREAM_MESSAGE_RESP, OfResp(x))
  {
    if x.message.Some? { MessageTyped(x.message.value); }
  }

  // ----- The merge, field by field -----

  const EMPTY_MESSAGE := Message([], [], [], [], [], 0, [], [], [], [])

  function MergeMessage(x: Message, y: Message): Message {
    Message(Pick(x.id, y.id), Pick(x.sessionId, y.sessionId), Pick(x.role, y.role), Pick(x.content, y.content),
            x.parts + y.parts, PickInt(x.createdAt, y.createdAt), x.extra + y.extra,
            Pick(x.operationId, y.operationId), Pick(x.terminalStatus, y.terminalStatus),
            Pick(x.terminalReason, y.terminalReason))
  }

  function MergeChild(x: Option<Message>, y: Option<Message>): Option<Message> {
    match y
    case None => x
    case Some(ym) => Some(MergeMessage(if x.Some? then x.value else EMPTY_MESSAGE, ym))
  }

  function MergeResp(x: StreamMessageResp, y: StreamMessageResp): StreamMessageResp {
    StreamMessageResp(
      Pick(x.content, y.content), Pick(x.kind, y.kind), Pick(x.text, y.text), Pick(x.toolId, y.toolId),
      Pick(x.toolName, y.toolName), Pick(x.toolInput, y.toolInput), Pick(x.resultText, y.resultText),
      x.isError || y.isError, x.done || y.done,
      MergeChild(x.message, y.message),
      Pick(x.agentSessionId, y.agentSessionId), Pick(x.toolTitle, y.toolTitle),
      Pick(x.toolDescription, y.toolDescription), Pick(x.uiActionJson, y.uiActionJson),
      Pick(x.terminalStatus, y.terminalStatus), Pick(x.terminalReason, y.terminalReason))
  }

  lemma MessageSlot(x: Message, y: Message, k: nat)
    requires k < 10
    ensures MergeValue(MESSAGE.fields[k].kind, OfMessage(x).vals[k], OfMessage(y).vals[k]) ==
            OfMessage(MergeMessage(x, y)).vals[k]
  {
    assert OfParts(x.parts) + OfParts(y.parts) == OfParts(x.parts + y.parts);
    assert OfExtras(x.extra) + OfExtras(y.extra) == OfExtras(x.extra + y.extra);
  }

  lemma MessageMerges(x: Message, y: Message)
    ensures Merge(MESSAGE, OfMessage(x), OfMessage(y)) == OfMessage(MergeMessage(x, y))
  {
    var z, r := Merge(MESSAGE, OfMessage(x), OfMessage(y)).vals, OfMessage(MergeMessage(x, y)).vals;
    forall k | 0 <= k < 10 ensures z[k] == r[k] { MessageSlot(x, y, k); }
    assert z == r;
  }

  lemma ChildMerges(x: Option<Message>, y: Option<Message>)
    ensures MergeValue(KMessage(MESSAGE), OfChild(x), OfChild(y)) == OfChild(MergeChild(x, y))
  {
    assert Zero(MESSAGE).vals == OfMessage(EMPTY_MESSAGE).vals by {
      assert OfParts([]) == [] && OfExtras([]) == [];
    }
    if y.Some? {
      MessageMerges(if x.Some? then x.value else EMPTY_MESSAGE, y.value);
    }
  }

  lemma ScalarMerges(x: Value, y: Value)
    ensures x.Bytes? && y.Bytes? ==> MergeValue(KBytes, x, y) == Bytes(Pick(x.b, y.b))
    ensures x.Bool? && y.Bool? ==> MergeValue(KBool, x, y) == Bool(x.v || y.v)
  {
  }

  lemma RespSlotMerges(x: StreamMessageResp, y: StreamMessageResp, k: nat)
    requires k < 16 && k != 9
    ensures MergeValue(STREAM_MESSAGE_RESP.fields[k].kind, OfResp(x).vals[k], OfResp(y).vals[k]) ==
            OfResp(MergeResp(x, y)).vals[k]
  {
    var a, b := OfResp(x).vals[k], OfResp(y).vals[k];
    ScalarMerges(a, b);
    RespSlot(x, y, k);
  }

  lemma RespSlot(x: StreamMessageResp, y: StreamMessageResp, k: nat)
    requires k < 16 && k != 9
    ensures var a, b, c := OfResp(x).vals[k], OfResp(y).vals[k], OfResp(MergeResp(x, y)).vals[k];
      var kind := STREAM_MESSAGE_RESP.fields[k].kind;
      if k == 7 || k == 8 then kind == KBool && a.Bool? && b.Bool? && c == Bool(a.v || b.v)
      else kind == KBytes && a.Bytes? && b.Bytes? && c == Bytes(Pick(a.b, b.b))
  {
  }

  lemma RespMerges(x: StreamMessageResp, y: StreamMessageResp)
    ensures Merge(STREAM_MESSAGE_RESP, OfResp(x), OfResp(y)) == OfResp(MergeResp(x, y))
  {
    var z, r := Merge(STREAM_MESSAGE_RESP, OfResp(x), OfResp(y)).vals, OfResp(MergeResp(x, y)).vals;
    forall k | 0 <= k < 16 ensures z[k] == r[k] {
      if k == 9 { ChildMerges(x.message, y.message); } else { RespSlotMerges(x, y, k); }
    }
    assert z == r;
  }

  // ----- The laws for the named types -----

  lemma ChildrenDiffer(xs: seq<MessagePart>, ys: seq<MessagePart>)
    requires OfParts(xs) == OfParts(ys)
    ensures xs == ys
  {
    forall j | 0 <= j < |xs| ensures xs[j] == ys[j] {
      assert |OfParts(xs)| == |xs| && |OfParts(ys)| == |ys|;
      assert OfParts(xs)[j] == OfPart(xs[j]) && OfParts(ys)[j] == OfPart(ys[j]);
      PartDiffers(xs[j], ys[j]);
    }
  }

  lemma PartDiffers(x: MessagePart, y: MessagePart)
    requires OfPart(x) == OfPart(y)
    ensures x == y
  {
    var a, b := OfPart(x).vals, OfPart(y).vals;
    assert forall k :: 0 <= k < 19 ==> a[k] == b[k];
  }

  lemma ExtrasDiffer(xs: seq<MessageExtra>, ys: seq<MessageExtra>)
    requires OfExtras(xs) == OfExtras(ys)
    ensures xs == ys
  {
    assert |OfExtras(xs)| == |xs| && |OfExtras(ys)| == |ys|;
    forall j | 0 <= j < |xs| ensures xs[j] == ys[j] {
      var a, b := OfExtra(xs[j]).vals, OfExtra(ys[j]).vals;
      assert OfExtras(xs)[j] == OfExtra(xs[j]) && OfExtras(ys)[j] == OfExtra(ys[j]);
      assert forall k :: 0 <= k < 4 ==> a[k] == b[k];
    }
  }

  lemma MessageDiffers(x: Message, y: Message)
    requires OfMessage(x) == OfMessage(y)
    ensures x == y
  {
    var a, b := OfMessage(x).vals, OfMessage(y).vals;
    assert forall k :: 0 <= k < 10 ==> a[k] == b[k];
    ChildrenDiffer(x.parts, y.parts);
    ExtrasDiffer(x.extra, y.extra);
  }

  lemma RespDiffers(x: StreamMessageResp, y: StreamMessageResp)
    requires OfResp(x) == OfResp(y)
    ensures x == y
  {
    var a, b := OfResp(x).vals, OfResp(y).vals;
    assert forall k :: 0 <= k < 16 ==> a[k] == b[k];
    if x.message.Some? { MessageDiffers(x.message.value, y.message.value); }
  }

  /** Decoding the encoding of a response into the zero receiver gives that response and no other. */
  lemma StreamRespRoundTrip(x: StreamMessageResp, y: StreamMessageResp)
    requires GoResp(x) && Fits(Encode(STREAM_MESSAGE_RESP, OfResp(x)))
    ensures var t := STREAM_MESSAGE_RESP;
      Decode(t, Zero(t), Encode(t, OfResp(x)), 0) == Ok(OfResp(y)) <==> x == y
  {
    AllWellFormed();
    RespTyped(x);
    Laws.RoundTripLaw(STREAM_MESSAGE_RESP, OfResp(x));
    if OfResp(x) == OfResp(y) { RespDiffers(x, y); }
  }

  /** Decoding two responses end to end merges them: set fields of the second win, flags are or-ed,
      the nested message is merged in turn and its lists grow. */
  lemma StreamRespConcat(x: StreamMessageResp, y: StreamMessageResp)
    requires GoResp(x) && GoResp(y)
    requires Fits(Encode(STREAM_MESSAGE_RESP, OfResp(x)) + Encode(STREAM_MESSAGE_RESP, OfResp(y)))
    ensures Decode(STREAM_MESSAGE_RESP, Zero(STREAM_MESSAGE_RESP),
                   Encode(STREAM_MESSAGE_RESP, OfResp(x)) + Encode(STREAM_MESSAGE_RESP, OfResp(y)), 0)
            == Ok(OfResp(MergeResp(x, y)))
  {
    AllWellFormed();
    RespTyped(x);
    RespTyped(y);
    Laws.ConcatIsMerge(STREAM_MESSAGE_RESP, OfResp(x), OfResp(y));
    RespMerges(x, y);
  }
}
