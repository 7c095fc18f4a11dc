/** The modelled message types: their field tables, and what the laws say about them. */
module Messages {
  import opened Machine
  import opened Schema
  import opened Format
  import Reencode

  /** All modelled types number their fields from one without gaps. */
  function Numbered(kinds: seq<Kind>): Table {
    Table(seq(|kinds|, k requires 0 <= k < |kinds| => Field(k + 1, kinds[k])))
  }

  /** A set scalar replaces one that was there. */
  function Pick(x: bytes, y: bytes): bytes { if y == [] then x else y }
  function PickInt(x: int, y: int): int { if y == 0 then x else y }

  // ----- message.pb.go -----

  const MESSAGE_PART: Table := Numbered(
    [KBytes, KBytes, KBytes, KBytes, KBytes, KBytes, KBytes, KBool, KBytes, KBytes,
     KBytes, KBytes, KBytes, KBytes, KBytes, KBytes, KInt64, KBytes, KBytes])

  const MESSAGE_EXTRA: Table := Numbered([KBytes, KBytes, KBytes, KInt32])

  const MESSAGE: Table := Numbered(
    [KBytes, KBytes, KBytes, KBytes, KMessages(MESSAGE_PART), KInt64, KMessages(MESSAGE_EXTRA),
     KBytes, KBytes, KBytes])

  const STREAM_MESSAGE_REQ: Table := Numbered(
    [KBytes, KBytes, KBytes, KBytes, KBytes, KBytes, KInt32, KMessages(MESSAGE_EXTRA), KBytes,
     KMessages(MESSAGE_PART), KBytes, KBytes, KBytes])

  const STREAM_MESSAGE_RESP: Table := Numbered(
    [KBytes, KBytes, KBytes, KBytes, KBytes, KBytes, KBytes, KBool, KBool, KMessage(MESSAGE),
     KBytes, KBytes, KBytes, KBytes, KBytes, KBytes])

  // ----- agent_bot.pb.go -----

  const AGENT_BOT_CHANNEL: Table := Numbered(
    [KBytes, KBytes, KBytes, KBytes, KInt32, KBytes, KBytes, KBytes, KBytes, KInt64, KInt64])

  const AGENT_BOT_CAPABILITY: Table := Numbered(
    [KBytes, KBytes, KBytes, KBytes, KBytes, KInt32, KInt64, KInt64])

  const AGENT_BOT: Table := Numbered(
    [KBytes, KBytes, KBytes, KInt32, KBytes, KBytes, KBytes, KBytes, KBytes, KBytes, KInt32,
     KInt64, KInt64, KMessages(AGENT_BOT_CHANNEL), KMessages(AGENT_BOT_CAPABILITY)])

  // ----- mcp.pb.go -----

  const MCP_KV: Table := Numbered([KBytes, KBytes])

  const AGENT_MCP_SERVER: Table := Numbered(
    [KBytes, KBytes, KBytes, KBytes, KBool, KBytes, KStrings, KMessages(MCP_KV), KBytes,
     KMessages(MCP_KV), KInt64, KBytes])

  const SAVE_MCP_SERVER_REQ: Table := Numbered([KBytes, KMessage(AGENT_MCP_SERVER)])

  // ----- skill.pb.go -----

  const IMPORT_SKILL_PACKAGE_REQ: Table := Numbered([KBytes, KBytes, KBytes])

  /** The laws of the format apply to every modelled type. */
  lemma AllWellFormed()
    ensures WellFormed(MESSAGE_PART) && WellFormed(MESSAGE_EXTRA) && WellFormed(MESSAGE)
    ensures WellFormed(STREAM_MESSAGE_REQ) && WellFormed(STREAM_MESSAGE_RESP)
    ensures WellFormed(AGENT_BOT_CHANNEL) && WellFormed(AGENT_BOT_CAPABILITY) && WellFormed(AGENT_BOT)
    ensures WellFormed(MCP_KV) && WellFormed(AGENT_MCP_SERVER) && WellFormed(SAVE_MCP_SERVER_REQ)
    ensures WellFormed(IMPORT_SKILL_PACKAGE_REQ)
  {
    MessageTables();
    AgentBotTables();
    McpTables();
  }

  lemma MessageTables()
    ensures WellFormed(MESSAGE_PART) && WellFormed(MESSAGE_EXTRA) && WellFormed(MESSAGE)
    ensures WellFormed(STREAM_MESSAGE_REQ) && WellFormed(STREAM_MESSAGE_RESP)
  {
    MessageChildren();
    assert WellFormed(MESSAGE);
  }

  lemma MessageChildren()
    ensures WellFormed(MESSAGE_PART) && WellFormed(MESSAGE_EXTRA)
  {
  }

  lemma AgentBotTables()
    ensures WellFormed(AGENT_BOT_CHANNEL) && WellFormed(AGENT_BOT_CAPABILITY) && WellFormed(AGENT_BOT)
  {
    assert WellFormed(AGENT_BOT_CHANNEL) && WellFormed(AGENT_BOT_CAPABILITY);
  }

  lemma McpTables()
    ensures WellFormed(MCP_KV) && WellFormed(AGENT_MCP_SERVER) && WellFormed(SAVE_MCP_SERVER_REQ)
    ensures WellFormed(IMPORT_SKILL_PACKAGE_REQ)
  {
    assert WellFormed(MCP_KV);
    assert WellFormed(AGENT_MCP_SERVER);
  }

  /** The tags the generated code writes as constants. */
  lemma TagBytes()
    ensures Tag(1, 2) == [0x0a] && Tag(2, 2) == [0x12] && Tag(3, 2) == [0x1a] && Tag(4, 2) == [0x22]
    ensures Tag(5, 2) == [0x2a] && Tag(6, 2) == [0x32] && Tag(7, 2) == [0x3a] && Tag(8, 2) == [0x42]
    ensures Tag(9, 2) == [0x4a] && Tag(10, 2) == [0x52] && Tag(11, 2) == [0x5a] && Tag(12, 2) == [0x62]
    ensures Tag(13, 2) == [0x6a] && Tag(14, 2) == [0x72] && Tag(15, 2) == [0x7a]
    ensures Tag(16, 2) == [0x82, 0x01] && Tag(18, 2) == [0x92, 0x01] && Tag(19, 2) == [0x9a, 0x01]
    ensures Tag(4, 0) == [0x20] && Tag(5, 0) == [0x28] && Tag(6, 0) == [0x30] && Tag(7, 0) == [0x38]
    ensures Tag(8, 0) == [0x40] && Tag(9, 0) == [0x48] && Tag(10, 0) == [0x50] && Tag(11, 0) == [0x58]
    ensures Tag(12, 0) == [0x60] && Tag(13, 0) == [0x68] && Tag(17, 0) == [0x88, 0x01]
  {
  }

  /** Types whose accepted inputs never grow when decoded and encoded again. */
  lemma NeverGrowing()
    ensures Reencode.NoInt32(MESSAGE_PART) && Reencode.NoInt32(MCP_KV)
    ensures Reencode.NoInt32(AGENT_MCP_SERVER) && Reencode.NoInt32(SAVE_MCP_SERVER_REQ)
    ensures Reencode.NoInt32(IMPORT_SKILL_PACKAGE_REQ)
  {
    assert Reencode.NoInt32(MCP_KV);
    assert Reencode.NoInt32(AGENT_MCP_SERVER);
  }

  /** A type with an `int32` in entry `k`, or in the message there: some input of it grows. */
  lemma GrowsAt(t: Table, k: nat)
    requires WellFormed(t) && k < |t.fields| && Reencode.Nests(t, 3)
    requires !Reencode.KindNoInt32(t.fields[k].kind)
    ensures Reencode.Grows(t)
  {
    Reencode.HeightOfNest(t, 3, 0);
    var d, m := Reencode.SomeInputGrows(t);
  }

  lemma PartsNest(h: nat)
    requires h > 0
    ensures Reencode.Nests(MESSAGE_PART, h) && Reencode.Nests(MESSAGE_EXTRA, h)
    ensures h > 1 ==> Reencode.Nests(MESSAGE, h)
  {
    if h > 1 { PartsNest(h - 1); }
  }

  /** Types with some input that does grow, because an `int32` can be reached. */
  lemma SometimesGrowing()
    ensures Reencode.Grows(MESSAGE_EXTRA) && Reencode.Grows(MESSAGE)
    ensures Reencode.Grows(STREAM_MESSAGE_REQ) && Reencode.Grows(STREAM_MESSAGE_RESP)
    ensures Reencode.Grows(AGENT_BOT_CHANNEL) && Reencode.Grows(AGENT_BOT_CAPABILITY) && Reencode.Grows(AGENT_BOT)
  {
    MessagesGrow();
    RequestsGrow();
    ResponsesGrow();
    BotPartsGrow();
    AgentBotGrows();
  }

  lemma MessagesGrow()
    ensures Reencode.Grows(MESSAGE_EXTRA) && Reencode.Grows(MESSAGE)
  {
    MessageTables();
    PartsNest(3);
    GrowsAt(MESSAGE_EXTRA, 3);
    GrowsAt(MESSAGE, 6);
  }

  lemma RequestsGrow()
    ensures Reencode.Grows(STREAM_MESSAGE_REQ)
  {
    MessageTables();
    PartsNest(2);
    GrowsAt(STREAM_MESSAGE_REQ, 6);
  }

  lemma ResponsesGrow()
    ensures Reencode.Grows(STREAM_MESSAGE_RESP)
  {
    MessageTables();
    PartsNest(2);
    assert !Reencode.KindNoInt32(MESSAGE_EXTRA.fields[3].kind);
    assert !Reencode.KindNoInt32(MESSAGE.fields[6].kind);
    GrowsAt(STREAM_MESSAGE_RESP, 9);
  }

  lemma BotsNest(h: nat)
    requires h > 0
    ensures Reencode.Nests(AGENT_BOT_CHANNEL, h) && Reencode.Nests(AGENT_BOT_CAPABILITY, h)
    ensures h > 1 ==> Reencode.Nests(AGENT_BOT, h)
  {
    if h > 1 { BotsNest(h - 1); }
  }

  lemma BotPartsGrow()
    ensures Reencode.Grows(AGENT_BOT_CHANNEL) && Reencode.Grows(AGENT_BOT_CAPABILITY)
  {
    AgentBotTables();
    BotsNest(3);
    GrowsAt(AGENT_BOT_CHANNEL, 4);
    GrowsAt(AGENT_BOT_CAPABILITY, 5);
  }

  lemma AgentBotGrows()
    ensures Reencode.Grows(AGENT_BOT)
  {
    AgentBotTables();
    BotsNest(3);
    GrowsAt(AGENT_BOT, 3);
  }
}
