/** The agent bot types with their own field names. */
module Bot {
  import opened Machine
  import opened Schema
  import opened Format
  import opened Messages
  import Laws
  import Skip
  import Varint
  import Wire

  datatype AgentBotChannel = AgentBotChannel(
    id: bytes, botId: bytes, channel: bytes, name: bytes, status: int, externalBotId: bytes, secret: bytes,
    endpointUrl: bytes, configJson: bytes, createdAt: int, updatedAt: int)

  datatype AgentBotCapability = AgentBotCapability(
    id: bytes, botId: bytes, capabilityType: bytes, capabilityId: bytes, name: bytes, enabled: int,
    createdAt: int, updatedAt: int)

  datatype AgentBot = AgentBot(
    id: bytes, name: bytes, code: bytes, status: int, description: bytes, businessScene: bytes,
    welcomeMessage: bytes, modelId: bytes, systemPrompt: bytes, permissionMode: bytes, maxTurns: int,
    createdAt: int, updatedAt: int, channels: seq<AgentBotChannel>, capabilities: seq<AgentBotCapability>)

  // ----- As values of the tables -----

  function OfChannel(x: AgentBotChannel): Msg {
    Msg([Bytes(x.id), Bytes(x.botId), Bytes(x.channel), Bytes(x.name), Int(x.status), Bytes(x.externalBotId),
         Bytes(x.secret), Bytes(x.endpointUrl), Bytes(x.configJson), Int(x.createdAt), Int(x.updatedAt)])
  }

  function OfChannels(xs: seq<AgentBotChannel>): seq<Msg> {
    seq(|xs|, j requires 0 <= j < |xs| => OfChannel(xs[j]))
  }

  function OfCapability(x: AgentBotCapability): Msg {
    Msg([Bytes(x.id), Bytes(x.botId), Bytes(x.capabilityType), Bytes(x.capabilityId), Bytes(x.name),
         Int(x.enabled), Int(x.createdAt), Int(x.updatedAt)])
  }

  function OfCapabilities(xs: seq<AgentBotCapability>): seq<Msg> {
    seq(|xs|, j requires 0 <= j < |xs| => OfCapability(xs[j]))
  }

  function OfBot(x: AgentBot): Msg {
    Msg([Bytes(x.id), Bytes(x.name), Bytes(x.code), Int(x.status), Bytes(x.description),
         Bytes(x.businessScene), Bytes(x.welcomeMessage), Bytes(x.modelId), Bytes(x.systemPrompt),
         Bytes(x.permissionMode), Int(x.maxTurns), Int(x.createdAt), Int(x.updatedAt),
         Children(OfChannels(x.channels)), Children(OfCapabilities(x.capabilities))])
  }

  // ----- Values of the Go types -----

  predicate GoChannel(x: AgentBotChannel) {
    -TWO31 <= x.status < TWO31 && -TWO63 <= x.createdAt < TWO63 && -TWO63 <= x.updatedAt < TWO63
  }

  lemma ChannelTyped(x: AgentBotChannel)
    requires GoChannel(x)
    ensures Typed(AGENT_BOT_CHANNEL, OfChannel(x))
  {
  }

  predicate GoCapability(x: AgentBotCapability) {
    -TWO31 <= x.enabled < TWO31 && -TWO63 <= x.createdAt < TWO63 && -TWO63 <= x.updatedAt < TWO63
  }

  lemma CapabilityTyped(x: AgentBotCapability)
    requires GoCapability(x)
    ensures Typed(AGENT_BOT_CAPABILITY, OfCapability(x))
  {
  }

  predicate GoBot(x: AgentBot) {
    -TWO31 <= x.status < TWO31
    && -TWO31 <= x.maxTurns < TWO31
    && -TWO63 <= x.createdAt < TWO63
    && -TWO63 <= x.updatedAt < TWO63
    && (forall y :: y in x.channels ==> GoChannel(y))
    && (forall y :: y in x.capabilities ==> GoCapability(y))
  }

  lemma BotTyped(x: AgentBot)
    requires GoBot(x)
    ensures Typed(AGENT_BOT, OfBot(x))
  {
    forall m | m in OfChannels(x.channels) ensures Typed(AGENT_BOT_CHANNEL, m) {
      var j :| 0 <= j < |x.channels| && m == OfChannel(x.channels[j]);
      ChannelTyped(x.channels[j]);
    }
    forall m | m in OfCapabilities(x.capabilities) ensures Typed(AGENT_BOT_CAPABILITY, m) {
      var j :| 0 <= j < |x.capabilities| && m == OfCapability(x.capabilities[j]);
      CapabilityTyped(x.capabilities[j]);
    }
  }

  // ----- Which field is where -----

  /** The number, kind and tag of each field of `AgentBotChannel`. */
  lemma ChannelSlotsLow(x: AgentBotChannel)
    ensures var t, m := AGENT_BOT_CHANNEL, OfChannel(x);
      && |t.fields| == 11
      && Slot(t, m, 0, KBytes, Bytes(x.id), [0x0a])
      && Slot(t, m, 1, KBytes, Bytes(x.botId), [0x12])
      && Slot(t, m, 2, KBytes, Bytes(x.channel), [0x1a])
      && Slot(t, m, 3, KBytes, Bytes(x.name), [0x22])
      && Slot(t, m, 4, KInt32, Int(x.status), [0x28])
      && Slot(t, m, 5, KBytes, Bytes(x.externalBotId), [0x32])
      && Slot(t, m, 6, KBytes, Bytes(x.secret), [0x3a])
      && Slot(t, m, 7, KBytes, Bytes(x.endpointUrl), [0x42])
  {
    TagBytes();
  }

  lemma ChannelSlotsHigh(x: AgentBotChannel)
    ensures var t, m := AGENT_BOT_CHANNEL, OfChannel(x);
      && |t.fields| == 11
      && Slot(t, m, 8, KBytes, Bytes(x.configJson), [0x4a])
      && Slot(t, m, 9, KInt64, Int(x.createdAt), [0x50])
      && Slot(t, m, 10, KInt64, Int(x.updatedAt), [0x58])
  {
    TagBytes();
  }

  /** The number, kind and tag of each field of `AgentBotCapability`. */
  lemma CapabilitySlots(x: AgentBotCapability)
    ensures var t, m := AGENT_BOT_CAPABILITY, OfCapability(x);
      && |t.fields| == 8
      && Slot(t, m, 0, KBytes, Bytes(x.id), [0x0a])
      && Slot(t, m, 1, KBytes, Bytes(x.botId), [0x12])
      && Slot(t, m, 2, KBytes, Bytes(x.capabilityType), [0x1a])
      && Slot(t, m, 3, KBytes, Bytes(x.capabilityId), [0x22])
      && Slot(t, m, 4, KBytes, Bytes(x.name), [0x2a])
      && Slot(t, m, 5, KInt32, Int(x.enabled), [0x30])
      && Slot(t, m, 6, KInt64, Int(x.createdAt), [0x38])
      && Slot(t, m, 7, KInt64, Int(x.updatedAt), [0x40])
  {
    TagBytes();
  }

  /** The number, kind and tag of each field of `AgentBot`. */
  lemma BotSlotsLow(x: AgentBot)
    ensures var t, m := AGENT_BOT, OfBot(x);
      && |t.fields| == 15
      && Slot(t, m, 0, KBytes, Bytes(x.id), [0x0a])
      && Slot(t, m, 1, KBytes, Bytes(x.name), [0x12])
      && Slot(t, m, 2, KBytes, Bytes(x.code), [0x1a])
      && Slot(t, m, 3, KInt32, Int(x.status), [0x20])
      && Slot(t, m, 4, KBytes, Bytes(x.description), [0x2a])
      && Slot(t, m, 5, KBytes, Bytes(x.businessScene), [0x32])
      && Slot(t, m, 6, KBytes, Bytes(x.welcomeMessage), [0x3a])
      && Slot(t, m, 7, KBytes, Bytes(x.modelId), [0x42])
  {
    TagBytes();
  }

  lemma BotSlotsHigh(x: AgentBot)
    ensures var t, m := AGENT_BOT, OfBot(x);
      && |t.fields| == 15
      && Slot(t, m, 8, KBytes, Bytes(x.systemPrompt), [0x4a])
      && Slot(t, m, 9, KBytes, Bytes(x.permissionMode), [0x52])
      && Slot(t, m, 10, KInt32, Int(x.maxTurns), [0x58])
      && Slot(t, m, 11, KInt64, Int(x.createdAt), [0x60])
      && Slot(t, m, 12, KInt64, Int(x.updatedAt), [0x68])
      && Slot(t, m, 13, KMessages(AGENT_BOT_CHANNEL), Children(OfChannels(x.channels)), [0x72])
      && Slot(t, m, 14, KMessages(AGENT_BOT_CAPABILITY), Children(OfCapabilities(x.capabilities)), [0x7a])
  {
    TagBytes();
  }

  // ----- The merge, field by field -----

  function MergeBot(x: AgentBot, y: AgentBot): AgentBot {
    AgentBot(
      Pick(x.id, y.id), Pick(x.name, y.name), Pick(x.code, y.code), PickInt(x.status, y.status),
      Pick(x.description, y.description), Pick(x.businessScene, y.businessScene),
      Pick(x.welcomeMessage, y.welcomeMessage), Pick(x.modelId, y.modelId),
      Pick(x.systemPrompt, y.systemPrompt), Pick(x.permissionMode, y.permissionMode),
      PickInt(x.maxTurns, y.maxTurns), PickInt(x.createdAt, y.createdAt), PickInt(x.updatedAt, y.updatedAt),
      x.channels + y.channels, x.capabilities + y.capabilities)
  }

  lemma BotFirstMerge(x: AgentBot, y: AgentBot, k: nat)
    requires k < 5
    ensures MergeValue(AGENT_BOT.fields[k].kind, OfBot(x).vals[k], OfBot(y).vals[k]) ==
            OfBot(MergeBot(x, y)).vals[k]
  {
    assert OfChannels(x.channels) + OfChannels(y.channels) == OfChannels(x.channels + y.channels);
    assert OfCapabilities(x.capabilities) + OfCapabilities(y.capabilities)
        == OfCapabilities(x.capabilities + y.capabilities);
  }

  lemma BotSecondMerge(x: AgentBot, y: AgentBot, k: nat)
    requires 5 <= k < 10
    ensures MergeValue(AGENT_BOT.fields[k].kind, OfBot(x).vals[k], OfBot(y).vals[k]) ==
            OfBot(MergeBot(x, y)).vals[k]
  {
    assert OfChannels(x.channels) + OfChannels(y.channels) == OfChannels(x.channels + y.channels);
    assert OfCapabilities(x.capabilities) + OfCapabilities(y.capabilities)
        == OfCapabilities(x.capabilities + y.capabilities);
  }

  lemma BotThirdMerge(x: AgentBot, y: AgentBot, k: nat)
    requires 10 <= k < 15
    ensures MergeValue(AGENT_BOT.fields[k].kind, OfBot(x).vals[k], OfBot(y).vals[k]) ==
            OfBot(MergeBot(x, y)).vals[k]
  {
    assert OfChannels(x.channels) + OfChannels(y.channels) == OfChannels(x.channels + y.channels);
    assert OfCapabilities(x.capabilities) + OfCapabilities(y.capabilities)
        == OfCapabilities(x.capabilities + y.capabilities);
  }

  lemma BotMerges(x: AgentBot, y: AgentBot)
    ensures Merge(AGENT_BOT, OfBot(x), OfBot(y)) == OfBot(MergeBot(x, y))
  {
    var z, r := Merge(AGENT_BOT, OfBot(x), OfBot(y)).vals, OfBot(MergeBot(x, y)).vals;
    forall k | 0 <= k < 15 ensures z[k] == r[k] {
      if k < 5 {
        BotFirstMerge(x, y, k);
      } else if k < 10 {
        BotSecondMerge(x, y, k);
      } else {
        BotThirdMerge(x, y, k);
      }
    }
    assert z == r;
  }

  // ----- The laws by field name -----

  lemma ChannelsDiffer(xs: seq<AgentBotChannel>, ys: seq<AgentBotChannel>)
    requires OfChannels(xs) == OfChannels(ys)
    ensures xs == ys
  {
    assert |OfChannels(xs)| == |xs| && |OfChannels(ys)| == |ys|;
    forall j | 0 <= j < |xs| ensures xs[j] == ys[j] {
      assert OfChannels(xs)[j] == OfChannel(xs[j]) && OfChannels(ys)[j] == OfChannel(ys[j]);
      ChannelDiffers(xs[j], ys[j]);
    }
  }

  lemma ChannelDiffers(x: AgentBotChannel, y: AgentBotChannel)
    requires OfChannel(x) == OfChannel(y)
    ensures x == y
  {
    var a, b := OfChannel(x).vals, OfChannel(y).vals;
    assert a[0] == b[0] && a[1] == b[1] && a[2] == b[2] && a[3] == b[3] && a[4] == b[4]
        && a[5] == b[5] && a[6] == b[6] && a[7] == b[7] && a[8] == b[8] && a[9] == b[9]
        && a[10] == b[10];
  }

  lemma CapabilitiesDiffer(xs: seq<AgentBotCapability>, ys: seq<AgentBotCapability>)
    requires OfCapabilities(xs) == OfCapabilities(ys)
    ensures xs == ys
  {
    assert |OfCapabilities(xs)| == |xs| && |OfCapabilities(ys)| == |ys|;
    forall j | 0 <= j < |xs| ensures xs[j] == ys[j] {
      assert OfCapabilities(xs)[j] == OfCapability(xs[j]) && OfCapabilities(ys)[j] == OfCapability(ys[j]);
      CapabilityDiffers(xs[j], ys[j]);
    }
  }

  lemma CapabilityDiffers(x: AgentBotCapability, y: AgentBotCapability)
    requires OfCapability(x) == OfCapability(y)
    ensures x == y
  {
    var a, b := OfCapability(x).vals, OfCapability(y).vals;
    assert a[0] == b[0] && a[1] == b[1] && a[2] == b[2] && a[3] == b[3] && a[4] == b[4]
        && a[5] == b[5] && a[6] == b[6] && a[7] == b[7];
  }

  lemma BotDiffers(x: AgentBot, y: AgentBot)
    requires OfBot(x) == OfBot(y)
    ensures x == y
  {
    var a, b := OfBot(x).vals, OfBot(y).vals;
    assert a[0] == b[0] && a[1] == b[1] && a[2] == b[2] && a[3] == b[3] && a[4] == b[4]
        && a[5] == b[5] && a[6] == b[6] && a[7] == b[7] && a[8] == b[8] && a[9] == b[9]
        && a[10] == b[10] && a[11] == b[11] && a[12] == b[12] && a[13] == b[13] && a[14] == b[14];
    ChannelsDiffer(x.channels, y.channels);
    CapabilitiesDiffer(x.capabilities, y.capabilities);
  }

  /** Decoding an encoded `AgentBot` into a zero receiver gives it back, and nothing else. */
  lemma BotRoundTrip(x: AgentBot, y: AgentBot)
    requires GoBot(x) && Fits(Encode(AGENT_BOT, OfBot(x)))
    ensures var t := AGENT_BOT;
      Decode(t, Zero(t), Encode(t, OfBot(x)), 0) == Ok(OfBot(y)) <==> x == y
  {
    AllWellFormed();
    BotTyped(x);
    Laws.RoundTripLaw(AGENT_BOT, OfBot(x));
    if OfBot(x) == OfBot(y) { BotDiffers(x, y); }
  }

  /** Decoding two of them end to end gives the struct merged by field. */
  lemma BotConcat(x: AgentBot, y: AgentBot)
    requires GoBot(x) && GoBot(y)
    requires Fits(Encode(AGENT_BOT, OfBot(x)) + Encode(AGENT_BOT, OfBot(y)))
    ensures var t := AGENT_BOT;
      Decode(t, Zero(t), Encode(t, OfBot(x)) + Encode(t, OfBot(y)), 0)
      == Ok(OfBot(MergeBot(x, y)))
  {
    AllWellFormed();
    BotTyped(x);
    BotTyped(y);
    Laws.ConcatIsMerge(AGENT_BOT, OfBot(x), OfBot(y));
    BotMerges(x, y);
  }

  // ----- Records of the integers and of the repeated fields -----

  lemma RecordSlots(x: AgentBot)
    ensures WellFormed(AGENT_BOT) && WellFormed(AGENT_BOT_CHANNEL) && WellFormed(AGENT_BOT_CAPABILITY)
    ensures Slot(AGENT_BOT, OfBot(x), 3, KInt32, Int(x.status), [0x20])
    ensures Slot(AGENT_BOT, OfBot(x), 10, KInt32, Int(x.maxTurns), [0x58])
    ensures Slot(AGENT_BOT, OfBot(x), 13, KMessages(AGENT_BOT_CHANNEL), Children(OfChannels(x.channels)), [0x72])
    ensures Slot(AGENT_BOT, OfBot(x), 14, KMessages(AGENT_BOT_CAPABILITY), Children(OfCapabilities(x.capabilities)),
                 [0x7a])
  {
    AgentBotTables();
    BotSlotsLow(x);
    BotSlotsHigh(x);
  }

  lemma NumbersSet(x: AgentBot, n: int)
    ensures Msg(OfBot(x).vals[3 := Int(n)]) == OfBot(x.(status := n))
    ensures Msg(OfBot(x).vals[10 := Int(n)]) == OfBot(x.(maxTurns := n))
  {
    assert OfBot(x).vals[3 := Int(n)] == OfBot(x.(status := n)).vals;
    assert OfBot(x).vals[10 := Int(n)] == OfBot(x.(maxTurns := n)).vals;
  }

  lemma ChannelsSet(x: AgentBot, c: AgentBotChannel)
    ensures Msg(OfBot(x).vals[13 := Children(OfChannels(x.channels) + [OfChannel(c)])])
            == OfBot(x.(channels := x.channels + [c]))
  {
    var channels := x.channels + [c];
    assert OfChannels(x.channels) + [OfChannel(c)] == OfChannels(channels);
    assert OfBot(x).vals[13 := Children(OfChannels(channels))] == OfBot(x.(channels := channels)).vals;
  }

  lemma CapabilitiesSet(x: AgentBot, y: AgentBotCapability)
    ensures Msg(OfBot(x).vals[14 := Children(OfCapabilities(x.capabilities) + [OfCapability(y)])])
            == OfBot(x.(capabilities := x.capabilities + [y]))
  {
    var capabilities := x.capabilities + [y];
    assert OfCapabilities(x.capabilities) + [OfCapability(y)] == OfCapabilities(capabilities);
    assert OfBot(x).vals[14 := Children(OfCapabilities(capabilities))] == OfBot(x.(capabilities := capabilities)).vals;
  }

  lemma ListsTyped(x: AgentBot)
    requires GoBot(x)
    ensures TypedValue(KMessages(AGENT_BOT_CHANNEL), Children(OfChannels(x.channels)))
    ensures TypedValue(KMessages(AGENT_BOT_CAPABILITY), Children(OfCapabilities(x.capabilities)))
  {
    forall m | m in OfChannels(x.channels) ensures Typed(AGENT_BOT_CHANNEL, m) {
      var j :| 0 <= j < |x.channels| && m == OfChannel(x.channels[j]);
      ChannelTyped(x.channels[j]);
    }
    forall m | m in OfCapabilities(x.capabilities) ensures Typed(AGENT_BOT_CAPABILITY, m) {
      var j :| 0 <= j < |x.capabilities| && m == OfCapability(x.capabilities[j]);
      CapabilityTyped(x.capabilities[j]);
    }
  }

  /** A record that starts with 0x20 sets the status, one with 0x58 the turns, to the `int32` that has the
      low 32 bits of its varint. */
  lemma StatusRecord(x: AgentBot, e: bytes, n: int)
    requires Skip.Alone(e).Some? && Fits([0x20] + e)
    requires -TWO31 <= n < TWO31 && (Skip.Alone(e).value - n) % TWO32 == 0
    ensures Decode(AGENT_BOT, OfBot(x), [0x20] + e, 0) == Ok(OfBot(x.(status := n)))
  {
    RecordSlots(x);
    Wire.Int32IntoSlot(AGENT_BOT, OfBot(x), 3, Int(x.status), [0x20], e, n);
    NumbersSet(x, n);
  }

  lemma MaxTurnsRecord(x: AgentBot, e: bytes, n: int)
    requires Skip.Alone(e).Some? && Fits([0x58] + e)
    requires -TWO31 <= n < TWO31 && (Skip.Alone(e).value - n) % TWO32 == 0
    ensures Decode(AGENT_BOT, OfBot(x), [0x58] + e, 0) == Ok(OfBot(x.(maxTurns := n)))
  {
    RecordSlots(x);
    Wire.Int32IntoSlot(AGENT_BOT, OfBot(x), 10, Int(x.maxTurns), [0x58], e, n);
    NumbersSet(x, n);
  }

  /** One that starts with 0x72 appends a channel, one with 0x7a a capability. */
  lemma ChannelsRecord(x: AgentBot, c: AgentBotChannel, b: bytes)
    requires GoBot(x) && GoChannel(c) && b == Encode(AGENT_BOT_CHANNEL, OfChannel(c))
    requires Fits([0x72] + (Varint.Encode(|b|) + b)) && Fits(b)
    ensures Decode(AGENT_BOT, OfBot(x), [0x72] + (Varint.Encode(|b|) + b), 0)
            == Ok(OfBot(x.(channels := x.channels + [c])))
  {
    RecordSlots(x);
    ListsTyped(x);
    ChannelTyped(c);
    Wire.ChildIntoSlot(AGENT_BOT, OfBot(x), 13, AGENT_BOT_CHANNEL, Children(OfChannels(x.channels)), [0x72],
                       OfChannel(c));
    ChannelsSet(x, c);
  }

  lemma CapabilitiesRecord(x: AgentBot, y: AgentBotCapability, b: bytes)
    requires GoBot(x) && GoCapability(y) && b == Encode(AGENT_BOT_CAPABILITY, OfCapability(y))
    requires Fits([0x7a] + (Varint.Encode(|b|) + b)) && Fits(b)
    ensures Decode(AGENT_BOT, OfBot(x), [0x7a] + (Varint.Encode(|b|) + b), 0)
            == Ok(OfBot(x.(capabilities := x.capabilities + [y])))
  {
    RecordSlots(x);
    ListsTyped(x);
    CapabilityTyped(y);
    Wire.ChildIntoSlot(AGENT_BOT, OfBot(x), 14, AGENT_BOT_CAPABILITY, Children(OfCapabilities(x.capabilities)), [0x7a],
                       OfCapability(y));
    CapabilitiesSet(x, y);
  }
}
