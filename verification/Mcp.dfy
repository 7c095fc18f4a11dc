/** The server configuration types with their own field names, and the import request. */
module Mcp {
  import opened Machine
  import opened Schema
  import opened Format
  import opened Messages
  import Laws
  import Varint
  import Wire

  datatype MCPKV = MCPKV(
    key: bytes, value: bytes)

  datatype AgentMCPServer = AgentMCPServer(
    id: bytes, name: bytes, description: bytes, kind: bytes, enabled: bool, command: bytes, args: seq<bytes>,
    env: seq<MCPKV>, url: bytes, headers: seq<MCPKV>, updatedAt: int, configJson: bytes)

  datatype SaveMCPServerReq = SaveMCPServerReq(
    userId: bytes, server: Option<AgentMCPServer>)

  datatype ImportSkillPackageReq = ImportSkillPackageReq(
    userId: bytes, fileName: bytes, data: bytes)

  // ----- As values of the tables -----

  function OfKV(x: MCPKV): Msg {
    Msg([Bytes(x.key), Bytes(x.value)])
  }

  function OfKVs(xs: seq<MCPKV>): seq<Msg> {
    seq(|xs|, j requires 0 <= j < |xs| => OfKV(xs[j]))
  }

  function OfServer(x: AgentMCPServer): Msg {
    Msg([Bytes(x.id), Bytes(x.name), Bytes(x.description), Bytes(x.kind), Bool(x.enabled), Bytes(x.command),
         Strings(x.args), Children(OfKVs(x.env)), Bytes(x.url), Children(OfKVs(x.headers)), Int(x.updatedAt),
         Bytes(x.configJson)])
  }

  function OfServerChild(x: Option<AgentMCPServer>): Value {
    Child(if x.None? then None else Some(OfServer(x.value)))
  }

  function OfSave(x: SaveMCPServerReq): Msg {
    Msg([Bytes(x.userId), OfServerChild(x.server)])
  }

  function OfImport(x: ImportSkillPackageReq): Msg {
    Msg([Bytes(x.userId), Bytes(x.fileName), Bytes(x.data)])
  }

  // ----- Values of the Go types -----

  lemma KVTyped(x: MCPKV)
    ensures Typed(MCP_KV, OfKV(x))
  {
  }

  predicate GoServer(x: AgentMCPServer) {
    -TWO63 <= x.updatedAt < TWO63
  }

  lemma ServerTyped(x: AgentMCPServer)
    requires GoServer(x)
    ensures Typed(AGENT_MCP_SERVER, OfServer(x))
  {
    forall m | m in OfKVs(x.env) ensures Typed(MCP_KV, m) {
      var j :| 0 <= j < |x.env| && m == OfKV(x.env[j]);
      KVTyped(x.env[j]);
    }
    forall m | m in OfKVs(x.headers) ensures Typed(MCP_KV, m) {
      var j :| 0 <= j < |x.headers| && m == OfKV(x.headers[j]);
      KVTyped(x.headers[j]);
    }
  }

  predicate GoSave(x: SaveMCPServerReq) {
    (x.server.Some? ==> GoServer(x.server.value))
  }

  lemma SaveTyped(x: SaveMCPServerReq)
    requires GoSave(x)
    ensures Typed(SAVE_MCP_SERVER_REQ, OfSave(x))
  {
    if x.server.Some? { ServerTyped(x.server.value); }
  }

  lemma ImportTyped(x: ImportSkillPackageReq)
    ensures Typed(IMPORT_SKILL_PACKAGE_REQ, OfImport(x))
  {
  }

  // ----- Which field is where -----

  /** The number, kind and tag of each field of `MCPKV`. */
  lemma KVSlots(x: MCPKV)
    ensures var t, m := MCP_KV, OfKV(x);
      && |t.fields| == 2
      && Slot(t, m, 0, KBytes, Bytes(x.key), [0x0a])
      && Slot(t, m, 1, KBytes, Bytes(x.value), [0x12])
  {
    TagBytes();
  }

  /** The number, kind and tag of each field of `AgentMCPServer`. */
  lemma ServerSlotsLow(x: AgentMCPServer)
    ensures var t, m := AGENT_MCP_SERVER, OfServer(x);
      && |t.fields| == 12
      && Slot(t, m, 0, KBytes, Bytes(x.id), [0x0a])
      && Slot(t, m, 1, KBytes, Bytes(x.name), [0x12])
      && Slot(t, m, 2, KBytes, Bytes(x.description), [0x1a])
      && Slot(t, m, 3, KBytes, Bytes(x.kind), [0x22])
      && Slot(t, m, 4, KBool, Bool(x.enabled), [0x28])
      && Slot(t, m, 5, KBytes, Bytes(x.command), [0x32])
      && Slot(t, m, 6, KStrings, Strings(x.args), [0x3a])
      && Slot(t, m, 7, KMessages(MCP_KV), Children(OfKVs(x.env)), [0x42])
  {
    TagBytes();
  }

  lemma ServerSlotsHigh(x: AgentMCPServer)
    ensures var t, m := AGENT_MCP_SERVER, OfServer(x);
      && |t.fields| == 12
      && Slot(t, m, 8, KBytes, Bytes(x.url), [0x4a])
      && Slot(t, m, 9, KMessages(MCP_KV), Children(OfKVs(x.headers)), [0x52])
      && Slot(t, m, 10, KInt64, Int(x.updatedAt), [0x58])
      && Slot(t, m, 11, KBytes, Bytes(x.configJson), [0x62])
  {
    TagBytes();
  }

  /** The number, kind and tag of each field of `SaveMCPServerReq`. */
  lemma SaveSlots(x: SaveMCPServerReq)
    ensures var t, m := SAVE_MCP_SERVER_REQ, OfSave(x);
      && |t.fields| == 2
      && Slot(t, m, 0, KBytes, Bytes(x.userId), [0x0a])
      && Slot(t, m, 1, KMessage(AGENT_MCP_SERVER), OfServerChild(x.server), [0x12])
  {
    TagBytes();
  }

  /** The number, kind and tag of each field of `ImportSkillPackageReq`. */
  lemma ImportSlots(x: ImportSkillPackageReq)
    ensures var t, m := IMPORT_SKILL_PACKAGE_REQ, OfImport(x);
      && |t.fields| == 3
      && Slot(t, m, 0, KBytes, Bytes(x.userId), [0x0a])
      && Slot(t, m, 1, KBytes, Bytes(x.fileName), [0x12])
      && Slot(t, m, 2, KBytes, Bytes(x.data), [0x1a])
  {
    TagBytes();
  }

  // ----- The merge, field by field -----

  function MergeServer(x: AgentMCPServer, y: AgentMCPServer): AgentMCPServer {
    AgentMCPServer(
      Pick(x.id, y.id), Pick(x.name, y.name), Pick(x.description, y.description), Pick(x.kind, y.kind),
      x.enabled || y.enabled, Pick(x.command, y.command), x.args + y.args, x.env + y.env, Pick(x.url, y.url),
      x.headers + y.headers, PickInt(x.updatedAt, y.updatedAt), Pick(x.configJson, y.configJson))
  }

  lemma ServerFirstMerge(x: AgentMCPServer, y: AgentMCPServer, k: nat)
    requires k < 4
    ensures MergeValue(AGENT_MCP_SERVER.fields[k].kind, OfServer(x).vals[k], OfServer(y).vals[k]) ==
            OfServer(MergeServer(x, y)).vals[k]
  {
    assert OfKVs(x.env) + OfKVs(y.env) == OfKVs(x.env + y.env);
    assert OfKVs(x.headers) + OfKVs(y.headers) == OfKVs(x.headers + y.headers);
  }

  lemma ServerSecondMerge(x: AgentMCPServer, y: AgentMCPServer, k: nat)
    requires 4 <= k < 8
    ensures MergeValue(AGENT_MCP_SERVER.fields[k].kind, OfServer(x).vals[k], OfServer(y).vals[k]) ==
            OfServer(MergeServer(x, y)).vals[k]
  {
    assert OfKVs(x.env) + OfKVs(y.env) == OfKVs(x.env + y.env);
    assert OfKVs(x.headers) + OfKVs(y.headers) == OfKVs(x.headers + y.headers);
  }

  lemma ServerThirdMerge(x: AgentMCPServer, y: AgentMCPServer, k: nat)
    requires 8 <= k < 12
    ensures MergeValue(AGENT_MCP_SERVER.fields[k].kind, OfServer(x).vals[k], OfServer(y).vals[k]) ==
            OfServer(MergeServer(x, y)).vals[k]
  {
    assert OfKVs(x.env) + OfKVs(y.env) == OfKVs(x.env + y.env);
    assert OfKVs(x.headers) + OfKVs(y.headers) == OfKVs(x.headers + y.headers);
  }

  lemma ServerMerges(x: AgentMCPServer, y: AgentMCPServer)
    ensures Merge(AGENT_MCP_SERVER, OfServer(x), OfServer(y)) == OfServer(MergeServer(x, y))
  {
    var z, r := Merge(AGENT_MCP_SERVER, OfServer(x), OfServer(y)).vals, OfServer(MergeServer(x, y)).vals;
    forall k | 0 <= k < 12 ensures z[k] == r[k] {
      if k < 4 {
        ServerFirstMerge(x, y, k);
      } else if k < 8 {
        ServerSecondMerge(x, y, k);
      } else {
        ServerThirdMerge(x, y, k);
      }
    }
    assert z == r;
  }

  const EMPTY_SERVER := AgentMCPServer([], [], [], [], false, [], [], [], [], [], 0, [])

  function MergeServerChild(x: Option<AgentMCPServer>, y: Option<AgentMCPServer>): Option<AgentMCPServer> {
    if y.None? then x else Some(MergeServer(if x.Some? then x.value else EMPTY_SERVER, y.value))
  }

  lemma ServerChildMerges(x: Option<AgentMCPServer>, y: Option<AgentMCPServer>)
    ensures MergeValue(KMessage(AGENT_MCP_SERVER), OfServerChild(x), OfServerChild(y)) ==
            OfServerChild(MergeServerChild(x, y))
  {
    assert Zero(AGENT_MCP_SERVER).vals == OfServer(EMPTY_SERVER).vals by {
      assert OfKVs([]) == [];
    }
    if y.Some? { ServerMerges(if x.Some? then x.value else EMPTY_SERVER, y.value); }
  }

  function MergeSave(x: SaveMCPServerReq, y: SaveMCPServerReq): SaveMCPServerReq {
    SaveMCPServerReq(
      Pick(x.userId, y.userId), MergeServerChild(x.server, y.server))
  }

  lemma SaveSlotMerges(x: SaveMCPServerReq, y: SaveMCPServerReq, k: nat)
    requires k < 2
    ensures MergeValue(SAVE_MCP_SERVER_REQ.fields[k].kind, OfSave(x).vals[k], OfSave(y).vals[k]) ==
            OfSave(MergeSave(x, y)).vals[k]
  {
    ServerChildMerges(x.server, y.server);
  }

  lemma SaveMerges(x: SaveMCPServerReq, y: SaveMCPServerReq)
    ensures Merge(SAVE_MCP_SERVER_REQ, OfSave(x), OfSave(y)) == OfSave(MergeSave(x, y))
  {
    var z, r := Merge(SAVE_MCP_SERVER_REQ, OfSave(x), OfSave(y)).vals, OfSave(MergeSave(x, y)).vals;
    forall k | 0 <= k < 2 ensures z[k] == r[k] { SaveSlotMerges(x, y, k); }
    assert z == r;
  }

  function MergeImport(x: ImportSkillPackageReq, y: ImportSkillPackageReq): ImportSkillPackageReq {
    ImportSkillPackageReq(
      Pick(x.userId, y.userId), Pick(x.fileName, y.fileName), Pick(x.data, y.data))
  }

  lemma ImportSlotMerges(x: ImportSkillPackageReq, y: ImportSkillPackageReq, k: nat)
    requires k < 3
    ensures MergeValue(IMPORT_SKILL_PACKAGE_REQ.fields[k].kind, OfImport(x).vals[k], OfImport(y).vals[k]) ==
            OfImport(MergeImport(x, y)).vals[k]
  {
  }

  lemma ImportMerges(x: ImportSkillPackageReq, y: ImportSkillPackageReq)
    ensures Merge(IMPORT_SKILL_PACKAGE_REQ, OfImport(x), OfImport(y)) == OfImport(MergeImport(x, y))
  {
    var z, r := Merge(IMPORT_SKILL_PACKAGE_REQ, OfImport(x), OfImport(y)).vals, OfImport(MergeImport(x, y)).vals;
    forall k | 0 <= k < 3 ensures z[k] == r[k] { ImportSlotMerges(x, y, k); }
    assert z == r;
  }

  // ----- The laws by field name -----

  lemma KVsDiffer(xs: seq<MCPKV>, ys: seq<MCPKV>)
    requires OfKVs(xs) == OfKVs(ys)
    ensures xs == ys
  {
    assert |OfKVs(xs)| == |xs| && |OfKVs(ys)| == |ys|;
    forall j | 0 <= j < |xs| ensures xs[j] == ys[j] {
      assert OfKVs(xs)[j] == OfKV(xs[j]) && OfKVs(ys)[j] == OfKV(ys[j]);
      KVDiffers(xs[j], ys[j]);
    }
  }

  lemma KVDiffers(x: MCPKV, y: MCPKV)
    requires OfKV(x) == OfKV(y)
    ensures x == y
  {
    var a, b := OfKV(x).vals, OfKV(y).vals;
    assert a[0] == b[0] && a[1] == b[1];
  }

  lemma ServerDiffers(x: AgentMCPServer, y: AgentMCPServer)
    requires OfServer(x) == OfServer(y)
    ensures x == y
  {
    var a, b := OfServer(x).vals, OfServer(y).vals;
    assert a[0] == b[0] && a[1] == b[1] && a[2] == b[2] && a[3] == b[3] && a[4] == b[4]
        && a[5] == b[5] && a[6] == b[6] && a[7] == b[7] && a[8] == b[8] && a[9] == b[9]
        && a[10] == b[10] && a[11] == b[11];
    KVsDiffer(x.env, y.env);
    KVsDiffer(x.headers, y.headers);
  }

  lemma SaveDiffers(x: SaveMCPServerReq, y: SaveMCPServerReq)
    requires OfSave(x) == OfSave(y)
    ensures x == y
  {
    var a, b := OfSave(x).vals, OfSave(y).vals;
    assert a[0] == b[0] && a[1] == b[1];
    if x.server.Some? && y.server.Some? { ServerDiffers(x.server.value, y.server.value); }
  }

  lemma ImportDiffers(x: ImportSkillPackageReq, y: ImportSkillPackageReq)
    requires OfImport(x) == OfImport(y)
    ensures x == y
  {
    var a, b := OfImport(x).vals, OfImport(y).vals;
    assert a[0] == b[0] && a[1] == b[1] && a[2] == b[2];
  }

  /** Decoding an encoded `AgentMCPServer` into a zero receiver gives it back, and nothing else. */
  lemma ServerRoundTrip(x: AgentMCPServer, y: AgentMCPServer)
    requires GoServer(x) && Fits(Encode(AGENT_MCP_SERVER, OfServer(x)))
    ensures var t := AGENT_MCP_SERVER;
      Decode(t, Zero(t), Encode(t, OfServer(x)), 0) == Ok(OfServer(y)) <==> x == y
  {
    AllWellFormed();
    ServerTyped(x);
    Laws.RoundTripLaw(AGENT_MCP_SERVER, OfServer(x));
    if OfServer(x) == OfServer(y) { ServerDiffers(x, y); }
  }

  /** Decoding two of them end to end gives the struct merged by field. */
  lemma ServerConcat(x: AgentMCPServer, y: AgentMCPServer)
    requires GoServer(x) && GoServer(y)
    requires Fits(Encode(AGENT_MCP_SERVER, OfServer(x)) + Encode(AGENT_MCP_SERVER, OfServer(y)))
    ensures var t := AGENT_MCP_SERVER;
      Decode(t, Zero(t), Encode(t, OfServer(x)) + Encode(t, OfServer(y)), 0)
      == Ok(OfServer(MergeServer(x, y)))
  {
    AllWellFormed();
    ServerTyped(x);
    ServerTyped(y);
    Laws.ConcatIsMerge(AGENT_MCP_SERVER, OfServer(x), OfServer(y));
    ServerMerges(x, y);
  }

  /** Decoding an encoded `SaveMCPServerReq` into a zero receiver gives it back, and nothing else. */
  lemma SaveRoundTrip(x: SaveMCPServerReq, y: SaveMCPServerReq)
    requires GoSave(x) && Fits(Encode(SAVE_MCP_SERVER_REQ, OfSave(x)))
    ensures var t := SAVE_MCP_SERVER_REQ;
      Decode(t, Zero(t), Encode(t, OfSave(x)), 0) == Ok(OfSave(y)) <==> x == y
  {
    AllWellFormed();
    SaveTyped(x);
    Laws.RoundTripLaw(SAVE_MCP_SERVER_REQ, OfSave(x));
    if OfSave(x) == OfSave(y) { SaveDiffers(x, y); }
  }

  /** Decoding two of them end to end gives the struct merged by field. */
  lemma SaveConcat(x: SaveMCPServerReq, y: SaveMCPServerReq)
    requires GoSave(x) && GoSave(y)
    requires Fits(Encode(SAVE_MCP_SERVER_REQ, OfSave(x)) + Encode(SAVE_MCP_SERVER_REQ, OfSave(y)))
    ensures var t := SAVE_MCP_SERVER_REQ;
      Decode(t, Zero(t), Encode(t, OfSave(x)) + Encode(t, OfSave(y)), 0)
      == Ok(OfSave(MergeSave(x, y)))
  {
    AllWellFormed();
    SaveTyped(x);
    SaveTyped(y);
    Laws.ConcatIsMerge(SAVE_MCP_SERVER_REQ, OfSave(x), OfSave(y));
    SaveMerges(x, y);
  }

  /** Decoding an encoded `ImportSkillPackageReq` into a zero receiver gives it back, and nothing else. */
  lemma ImportRoundTrip(x: ImportSkillPackageReq, y: ImportSkillPackageReq)
    requires Fits(Encode(IMPORT_SKILL_PACKAGE_REQ, OfImport(x)))
    ensures var t := IMPORT_SKILL_PACKAGE_REQ;
      Decode(t, Zero(t), Encode(t, OfImport(x)), 0) == Ok(OfImport(y)) <==> x == y
  {
    AllWellFormed();
    ImportTyped(x);
    Laws.RoundTripLaw(IMPORT_SKILL_PACKAGE_REQ, OfImport(x));
    if OfImport(x) == OfImport(y) { ImportDiffers(x, y); }
  }

  /** Decoding two of them end to end gives the struct merged by field. */
  lemma ImportConcat(x: ImportSkillPackageReq, y: ImportSkillPackageReq)
    requires Fits(Encode(IMPORT_SKILL_PACKAGE_REQ, OfImport(x)) + Encode(IMPORT_SKILL_PACKAGE_REQ, OfImport(y)))
    ensures var t := IMPORT_SKILL_PACKAGE_REQ;
      Decode(t, Zero(t), Encode(t, OfImport(x)) + Encode(t, OfImport(y)), 0)
      == Ok(OfImport(MergeImport(x, y)))
  {
    AllWellFormed();
    ImportTyped(x);
    ImportTyped(y);
    Laws.ConcatIsMerge(IMPORT_SKILL_PACKAGE_REQ, OfImport(x), OfImport(y));
    ImportMerges(x, y);
  }

  // ----- Records of the repeated fields -----

  /** The slots of the lists. */
  lemma ListSlots(x: AgentMCPServer)
    ensures WellFormed(AGENT_MCP_SERVER) && WellFormed(MCP_KV)
    ensures Slot(AGENT_MCP_SERVER, OfServer(x), 6, KStrings, Strings(x.args), [0x3a])
    ensures Slot(AGENT_MCP_SERVER, OfServer(x), 7, KMessages(MCP_KV), Children(OfKVs(x.env)), [0x42])
    ensures Slot(AGENT_MCP_SERVER, OfServer(x), 9, KMessages(MCP_KV), Children(OfKVs(x.headers)), [0x52])
  {
    McpTables();
    ServerSlotsLow(x);
    ServerSlotsHigh(x);
  }

  lemma ArgsSet(x: AgentMCPServer, s: bytes)
    ensures Msg(OfServer(x).vals[6 := Strings(x.args + [s])]) == OfServer(x.(args := x.args + [s]))
  {
    assert OfServer(x).vals[6 := Strings(x.args + [s])] == OfServer(x.(args := x.args + [s])).vals;
  }

  lemma EnvSet(x: AgentMCPServer, kv: MCPKV)
    ensures Msg(OfServer(x).vals[7 := Children(OfKVs(x.env) + [OfKV(kv)])]) == OfServer(x.(env := x.env + [kv]))
  {
    assert OfKVs(x.env) + [OfKV(kv)] == OfKVs(x.env + [kv]);
    assert OfServer(x).vals[7 := Children(OfKVs(x.env + [kv]))] == OfServer(x.(env := x.env + [kv])).vals;
  }

  lemma HeadersSet(x: AgentMCPServer, kv: MCPKV)
    ensures Msg(OfServer(x).vals[9 := Children(OfKVs(x.headers) + [OfKV(kv)])])
            == OfServer(x.(headers := x.headers + [kv]))
  {
    assert OfKVs(x.headers) + [OfKV(kv)] == OfKVs(x.headers + [kv]);
    assert OfServer(x).vals[9 := Children(OfKVs(x.headers + [kv]))] == OfServer(x.(headers := x.headers + [kv])).vals;
  }

  lemma ListsTyped(x: AgentMCPServer, kv: MCPKV)
    ensures TypedValue(KMessages(MCP_KV), Children(OfKVs(x.env))) && Typed(MCP_KV, OfKV(kv))
    ensures TypedValue(KMessages(MCP_KV), Children(OfKVs(x.headers)))
  {
    KVTyped(kv);
    forall m | m in OfKVs(x.env) ensures Typed(MCP_KV, m) {
      var j :| 0 <= j < |x.env| && m == OfKV(x.env[j]);
    }
    forall m | m in OfKVs(x.headers) ensures Typed(MCP_KV, m) {
      var j :| 0 <= j < |x.headers| && m == OfKV(x.headers[j]);
    }
  }

  /** A record that starts with 0x3a appends its content to the arguments, an empty one too. */
  lemma ArgsRecord(x: AgentMCPServer, s: bytes, r: bytes)
    requires r == [0x3a] + (Varint.Encode(|s|) + s) && Fits(r) && Fits(s)
    ensures Decode(AGENT_MCP_SERVER, OfServer(x), r, 0) == Ok(OfServer(x.(args := x.args + [s])))
  {
    ListSlots(x);
    Wire.ElementIntoSlot(AGENT_MCP_SERVER, OfServer(x), 6, Strings(x.args), [0x3a], s);
    ArgsSet(x, s);
  }

  /** One that starts with 0x42 appends a pair to the environment, one with 0x52 to the headers. */
  lemma EnvRecord(x: AgentMCPServer, kv: MCPKV, b: bytes)
    requires b == Encode(MCP_KV, OfKV(kv)) && Fits([0x42] + (Varint.Encode(|b|) + b)) && Fits(b)
    ensures Decode(AGENT_MCP_SERVER, OfServer(x), [0x42] + (Varint.Encode(|b|) + b), 0)
            == Ok(OfServer(x.(env := x.env + [kv])))
  {
    ListSlots(x);
    ListsTyped(x, kv);
    Wire.ChildIntoSlot(AGENT_MCP_SERVER, OfServer(x), 7, MCP_KV, Children(OfKVs(x.env)), [0x42], OfKV(kv));
    EnvSet(x, kv);
  }

  lemma HeadersRecord(x: AgentMCPServer, kv: MCPKV, b: bytes)
    requires b == Encode(MCP_KV, OfKV(kv)) && Fits([0x52] + (Varint.Encode(|b|) + b)) && Fits(b)
    ensures Decode(AGENT_MCP_SERVER, OfServer(x), [0x52] + (Varint.Encode(|b|) + b), 0)
            == Ok(OfServer(x.(headers := x.headers + [kv])))
  {
    ListSlots(x);
    ListsTyped(x, kv);
    Wire.ChildIntoSlot(AGENT_MCP_SERVER, OfServer(x), 9, MCP_KV, Children(OfKVs(x.headers)), [0x52], OfKV(kv));
    HeadersSet(x, kv);
  }
}
