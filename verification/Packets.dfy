/** The packet encoder and decoders of the proxy's ClickHouse front end. */
module Packets {
  import opened Options
  import opened MachineInts
  import opened Varint
  import opened VarintLaws
  import opened WireFields
  import opened WireFieldLaws
  import opened WireBuffers

  const SERVER_HELLO: uint64 := 0
  const DBMS_VERSION_MAJOR: uint64 := 2
  const REVISION_WITH_TIMEZONE: uint64 := 54058
  const REVISION_WITH_DISPLAY_NAME: uint64 := 54372
  const REVISION_WITH_VERSION_PATCH: uint64 := 54401
  const REVISION: uint64 := 54405

  datatype ServerInfo = ServerInfo(
    name: seq<byte>, timezone: seq<byte>, display_name: seq<byte>,
    version_major: uint64, version_minor: uint64, version_patch: uint64, revision: uint64)
  {
    predicate WithinLimits()
    {
      |name| <= STRING_LIMIT && |timezone| <= STRING_LIMIT && |display_name| <= STRING_LIMIT
    }
  }

  datatype ServerHelloPacket = ServerHelloPacket(
    name: seq<byte>, version_major: uint64, version_minor: uint64, revision: uint64,
    tz: seq<byte>, display_name: seq<byte>, version_patch: uint64)

  datatype ClientHelloPacket = ClientHelloPacket(
    client_name: seq<byte>, version_major: uint64, version_minor: uint64, protocol_version: uint64,
    database: seq<byte>, username: seq<byte>, password: seq<byte>)

  /** The parts of a query packet; the program only logs them. */
  datatype QueryPacket = QueryPacket(
    packet_type: uint64, query_id: seq<byte>, stage: uint64, compression: uint64, query: seq<byte>)

  // ----- the fields of each packet, in wire order

  function ServerHelloFields(info: ServerInfo): seq<Field>
  {
    [Num(SERVER_HELLO), Str(info.name), Num(info.version_major), Num(info.version_minor), Num(info.revision)]
    + (if info.revision >= REVISION_WITH_TIMEZONE then [Str(info.timezone)] else [])
    + (if info.revision >= REVISION_WITH_DISPLAY_NAME then [Str(info.display_name)] else [])
    + (if info.revision >= REVISION_WITH_VERSION_PATCH then [Num(info.version_patch)] else [])
  }

  const SERVER_HELLO_SCHEMA: seq<Kind> :=
    [StrKind, NumKind, NumKind, NumKind, StrKind, StrKind, NumKind]
  const CLIENT_HELLO_SCHEMA: seq<Kind> :=
    [StrKind, NumKind, NumKind, NumKind, StrKind, StrKind, StrKind]
  const QUERY_SCHEMA: seq<Kind> := [NumKind, StrKind, NumKind, NumKind, StrKind]

  class CProtocolPacketEncoder {
    const m_buffer: ClickWriteProtoBuffer

    constructor (buffer: array<byte>, len: nat)
      requires len <= buffer.Length && len <= INT_MAX
      ensures fresh(m_buffer) && fresh(m_buffer.m_buffer) && m_buffer.Valid()
      ensures m_buffer.Log == [] && m_buffer.Initial == buffer[..len]
    {
      m_buffer := new ClickWriteProtoBuffer(buffer, len);
    }

    method PutNumber(n: uint64, ghost fs: seq<Field>, ghost i: nat)
      requires i < |fs| && fs[i] == Num(n)
      requires m_buffer.Valid() && m_buffer.Room(|Pending(fs, i)|)
      modifies m_buffer`m_index, m_buffer`Log, m_buffer.m_buffer
      ensures m_buffer.Valid() && m_buffer.Room(|Pending(fs, i + 1)|)
      ensures m_buffer.Log + Pending(fs, i + 1) == old(m_buffer.Log) + Pending(fs, i)
    {
      hide Pending, EncodeVarint;
      PendingStep(fs, i);
      m_buffer.WriteUInt64(n);
    }

    method PutString(s: seq<byte>, ghost fs: seq<Field>, ghost i: nat)
      requires i < |fs| && fs[i] == Str(s)
      requires m_buffer.Valid() && m_buffer.Room(|Pending(fs, i)|)
      modifies m_buffer`m_index, m_buffer`Log, m_buffer.m_buffer
      ensures m_buffer.Valid() && m_buffer.Room(|Pending(fs, i + 1)|)
      ensures m_buffer.Log + Pending(fs, i + 1) == old(m_buffer.Log) + Pending(fs, i)
    {
      hide Pending, EncodeString;
      PendingStep(fs, i);
      m_buffer.WriteString(s);
    }

    /** Writes the Hello packet of any server. */
    method EncodeServerInfo(info: ServerInfo) returns (ok: bool)
      requires m_buffer.Valid() && m_buffer.Room(|EncodeFields(ServerHelloFields(info))|)
      modifies m_buffer`m_index, m_buffer`Log, m_buffer.m_buffer
      ensures ok && m_buffer.Valid()
      ensures m_buffer.Log == old(m_buffer.Log) + EncodeFields(
                [Num(0), Str(info.name), Num(info.version_major), Num(info.version_minor), Num(info.revision)]
                + (if info.revision >= 54058 then [Str(info.timezone)] else [])
                + (if info.revision >= 54372 then [Str(info.display_name)] else [])
                + (if info.revision >= 54401 then [Num(info.version_patch)] else []))
    {
      HelloFieldsByRevision(info);
      hide Pending, EncodeFields, EncodeField, EncodeString, EncodeVarint, ServerHelloFields;
      ghost var fs := ServerHelloFields(info);
      HelloFieldOrder(info);
      PendingEnds(fs);
      PutNumber(SERVER_HELLO, fs, 0);
      PutString(info.name, fs, 1);
      PutNumber(info.version_major, fs, 2);
      PutNumber(info.version_minor, fs, 3);
      PutNumber(info.revision, fs, 4);
      if info.revision >= REVISION_WITH_TIMEZONE {
        PutString(info.timezone, fs, 5);
      }
      if info.revision >= REVISION_WITH_DISPLAY_NAME {
        PutString(info.display_name, fs, 6);
      }
      if info.revision >= REVISION_WITH_VERSION_PATCH {
        PutNumber(info.version_patch, fs, 7);
      }
      ok := true;
    }

    /** The Hello packet the proxy sends. */
    method EncodeHelloPacket() returns (ok: bool)
      requires m_buffer.Valid() && m_buffer.Room(|EncodeFields(ServerHelloFields(OwnInfo()))|)
      modifies m_buffer`m_index, m_buffer`Log, m_buffer.m_buffer
      ensures ok && m_buffer.Valid()
      ensures m_buffer.Log == old(m_buffer.Log) + (
                [0, 17] + Ascii("ClickHouse server") + [2, 2, 133, 169, 3, 6] + Ascii("Israel")
                + [19] + Ascii("Server version 22.9") + [1])
    {
      hide EncodeFields, ServerHelloFields, Ascii;
      HelloFieldsByRevision(OwnInfo());
      OwnHelloBytes();
      ok := EncodeServerInfo(OwnInfo());
    }
  }

  /** The bytes of a text of plain characters. */
  function Ascii(s: string): (bs: seq<byte>)
    ensures |bs| == |s|
    ensures forall i :: 0 <= i < |s| && s[i] < 128 as char ==> bs[i] as char == s[i]
  {
    seq(|s|, i requires 0 <= i < |s| => s[i] as int % 0x100)
  }

  /** The server the proxy pretends to be. The minor version repeats the major one. */
  function OwnInfo(): ServerInfo
  {
    ServerInfo(Ascii("ClickHouse server"), Ascii("Israel"), Ascii("Server version 22.9"),
               DBMS_VERSION_MAJOR, DBMS_VERSION_MAJOR, 1, REVISION)
  }

  lemma HelloFieldsByRevision(info: ServerInfo)
    ensures ServerHelloFields(info) ==
            [Num(0), Str(info.name), Num(info.version_major), Num(info.version_minor), Num(info.revision)]
            + (if info.revision >= 54058 then [Str(info.timezone)] else [])
            + (if info.revision >= 54372 then [Str(info.display_name)] else [])
            + (if info.revision >= 54401 then [Num(info.version_patch)] else [])
  {
  }

  lemma OneField(f: Field, fs: seq<Field>)
    ensures EncodeFields([f] + fs) == EncodeField(f) + EncodeFields(fs)
  {
    assert ([f] + fs)[1..] == fs;
  }

  lemma SmallNumber(n: uint64)
    requires n < 0x80
    ensures EncodeVarint(n) == [n]
  {
  }

  lemma RevisionBytes()
    ensures EncodeVarint(54405) == [133, 169, 3]
  {
    assert EncodeVarint(3) == [3];
    assert EncodeVarint(425) == [169] + EncodeVarint(3);
    assert EncodeVarint(54405) == [133] + EncodeVarint(425);
  }

  /** The bytes of the proxy's own Hello packet. */
  lemma OwnHelloBytes()
    ensures EncodeFields(ServerHelloFields(OwnInfo())) ==
            [0, 17] + Ascii("ClickHouse server") + [2, 2, 133, 169, 3, 6] + Ascii("Israel")
            + [19] + Ascii("Server version 22.9") + [1]
  {
    hide EncodeVarint, EncodeFields, Ascii, ServerHelloFields;
    var name, tz, display := Ascii("ClickHouse server"), Ascii("Israel"), Ascii("Server version 22.9");
    var last := [Str(tz), Str(display), Num(1)];
    HelloFieldsByRevision(OwnInfo());
    assert ServerHelloFields(OwnInfo()) == [Num(0), Str(name), Num(2), Num(2), Num(54405)] + last;
    OwnHelloStart(name, last);
    OwnHelloEnd(tz, display);
  }

  lemma OwnHelloStart(name: seq<byte>, last: seq<Field>)
    requires |name| == 17
    ensures EncodeFields([Num(0), Str(name), Num(2), Num(2), Num(54405)] + last)
            == [0, 17] + name + [2, 2, 133, 169, 3] + EncodeFields(last)
  {
    hide EncodeVarint, EncodeFields, EncodeString;
    var fs := [Num(0), Str(name), Num(2), Num(2), Num(54405)];
    SmallNumber(0);
    SmallNumber(2);
    RevisionBytes();
    ShortString(name);
    FieldsConcat(fs, last);
    FiveFields(fs);
    StartBytes(name, EncodeFields(last));
  }

  lemma StartBytes(name: seq<byte>, last: seq<byte>)
    ensures [0] + ([17] + name) + [2] + [2] + [133, 169, 3] + last == [0, 17] + name + [2, 2, 133, 169, 3] + last
  {
    var head: seq<byte> := [0] + ([17] + name);
    assert head == [0, 17] + name;
    assert head + [2] + [2] + [133, 169, 3] == head + [2, 2, 133, 169, 3];
  }

  lemma OwnHelloEnd(tz: seq<byte>, display: seq<byte>)
    requires |tz| == 6 && |display| == 19
    ensures EncodeFields([Str(tz), Str(display), Num(1)]) == [6] + tz + [19] + display + [1]
  {
    hide EncodeVarint, EncodeFields, EncodeString;
    SmallNumber(1);
    ShortString(tz);
    ShortString(display);
    ThreeFields([Str(tz), Str(display), Num(1)]);
    EndBytes(tz, display);
  }

  lemma EndBytes(tz: seq<byte>, display: seq<byte>)
    ensures ([6] + tz) + ([19] + display) + [1] == [6] + tz + [19] + display + [1]
  {
    var head: seq<byte> := [6] + tz;
    assert head + ([19] + display) == head + [19] + display;
  }

  lemma ShortString(s: seq<byte>)
    requires |s| < 0x80
    ensures EncodeString(s) == [|s|] + s
  {
    SmallNumber(|s|);
  }

  lemma ThreeFields(fs: seq<Field>)
    requires |fs| == 3
    ensures EncodeFields(fs) == EncodeField(fs[0]) + EncodeField(fs[1]) + EncodeField(fs[2])
  {
    hide EncodeFields, EncodeField;
    NoFields();
    OneField(fs[2], []);
    OneField(fs[1], [fs[2]]);
    OneField(fs[0], [fs[1], fs[2]]);
    assert [fs[2]] + [] == [fs[2]] && [fs[1]] + [fs[2]] == [fs[1], fs[2]];
    assert [fs[0]] + [fs[1], fs[2]] == fs;
  }

  lemma FiveFields(fs: seq<Field>)
    requires |fs| == 5
    ensures EncodeFields(fs) ==
            EncodeField(fs[0]) + EncodeField(fs[1]) + EncodeField(fs[2]) + EncodeField(fs[3]) + EncodeField(fs[4])
  {
    hide EncodeFields, EncodeField;
    ThreeFields(fs[2..]);
    OneField(fs[1], fs[2..]);
    OneField(fs[0], fs[1..]);
    assert [fs[1]] + fs[2..] == fs[1..] && [fs[0]] + fs[1..] == fs;
  }

  lemma NoFields()
    ensures EncodeFields([]) == []
  {
  }

  lemma HelloFieldOrder(info: ServerInfo)
    ensures var fs := ServerHelloFields(info);
      && |fs| == (if info.revision >= REVISION_WITH_VERSION_PATCH then 8
                  else if info.revision >= REVISION_WITH_DISPLAY_NAME then 7
                  else if info.revision >= REVISION_WITH_TIMEZONE then 6 else 5)
      && fs[0] == Num(SERVER_HELLO) && fs[1] == Str(info.name)
      && fs[2] == Num(info.version_major) && fs[3] == Num(info.version_minor) && fs[4] == Num(info.revision)
      && (|fs| > 5 ==> fs[5] == Str(info.timezone))
      && (|fs| > 6 ==> fs[6] == Str(info.display_name))
      && (|fs| > 7 ==> fs[7] == Num(info.version_patch))
  {
  }

  /** The bytes of the fields from the i-th on: what an encoder has still to write. */
  function Pending(fs: seq<Field>, i: nat): seq<byte>
    decreases |fs| - i
  {
    if i >= |fs| then [] else EncodeField(fs[i]) + Pending(fs, i + 1)
  }

  lemma PendingStep(fs: seq<Field>, i: nat)
    requires i < |fs|
    ensures Pending(fs, i) == EncodeField(fs[i]) + Pending(fs, i + 1)
  {
  }

  lemma {:induction false} PendingIsRest(fs: seq<Field>, i: nat)
    requires i <= |fs|
    ensures Pending(fs, i) == EncodeFields(fs[i..])
    decreases |fs| - i
  {
    if i < |fs| {
      PendingIsRest(fs, i + 1);
      assert fs[i..][1..] == fs[i + 1..];
    }
  }

  lemma PendingEnds(fs: seq<Field>)
    ensures Pending(fs, 0) == EncodeFields(fs) && Pending(fs, |fs|) == []
  {
    PendingIsRest(fs, 0);
    assert fs[0..] == fs;
  }

  class CProtocolPacketDecoder {
    const m_buffer: ClickReadProtoBuffer

    constructor (buffer: array<byte>, len: nat)
      requires len <= buffer.Length && len <= INT_MAX
      ensures fresh(m_buffer) && fresh(m_buffer.m_buffer) && m_buffer.Valid()
      ensures m_buffer.Rest() == buffer[..len]
    {
      m_buffer := new ClickReadProtoBuffer(buffer, len);
    }

    /** The leading number of a packet, or all ones when it cannot be read. */
    method GetPacketType() returns (packet_type: uint64)
      requires m_buffer.Valid() && m_buffer.Rest() != []
      modifies m_buffer`m_index
      ensures m_buffer.Valid()
      ensures var r := ReadVarint(old(m_buffer.Rest()));
        && packet_type == (if r.ok then r.value else 0xFFFF_FFFF_FFFF_FFFF)
        && m_buffer.Rest() == old(m_buffer.Rest())[r.used..]
    {
      var ok, t := m_buffer.ReadVarint64();
      packet_type := if ok then t else UINT64_MAX;
    }

    /** A string read whose report the decoder ignores. */
    method NextString(ghost r: Reading, ghost kinds: seq<Kind>) returns (s: seq<byte>, ghost next: Reading)
      requires m_buffer.Valid() && r.Inside? && r.rest == m_buffer.Rest()
      requires |r.values| < |kinds| && kinds[|r.values|] == StrKind && ReadOn(r, kinds).Inside?
      modifies m_buffer`m_index
      ensures m_buffer.Valid() && next.Inside? && next.rest == m_buffer.Rest()
      ensures |next.values| == |r.values| + 1
      ensures next.values == r.values + [Str(s)] && ReadOn(next, kinds) == ReadOn(r, kinds)
    {
      hide ReadOn, ReadField, ReadString, ReadVarint;
      StringNext(r, kinds);
      var ok;
      ok, s := m_buffer.ReadString([]);
      next := Inside(r.oks + [ok], r.values + [Str(s)], m_buffer.Rest());
    }

    /** A number read whose report the decoder ignores. */
    method NextNumber(ghost r: Reading, ghost kinds: seq<Kind>) returns (n: uint64, ghost next: Reading)
      requires m_buffer.Valid() && r.Inside? && r.rest == m_buffer.Rest()
      requires |r.values| < |kinds| && kinds[|r.values|] == NumKind && ReadOn(r, kinds).Inside?
      modifies m_buffer`m_index
      ensures m_buffer.Valid() && next.Inside? && next.rest == m_buffer.Rest()
      ensures |next.values| == |r.values| + 1
      ensures next.values == r.values + [Num(n)] && ReadOn(next, kinds) == ReadOn(r, kinds)
    {
      hide ReadOn, ReadField, ReadString, ReadVarint;
      NumberNext(r, kinds);
      var ok;
      ok, n := m_buffer.ReadVarint64();
      next := Inside(r.oks + [ok], r.values + [Num(n)], m_buffer.Rest());
    }

    /** Reads all seven fields whatever the reads report, and always returns true. */
    method DecodeServerHelloPacket() returns (ret: bool, hello: ServerHelloPacket)
      requires m_buffer.Valid() && ReadFields(m_buffer.Rest(), SERVER_HELLO_SCHEMA).Inside?
      modifies m_buffer`m_index
      ensures ret && m_buffer.Valid()
      ensures var r := ReadFields(old(m_buffer.Rest()), SERVER_HELLO_SCHEMA);
        && r.values == [Str(hello.name), Num(hello.version_major), Num(hello.version_minor), Num(hello.revision),
                        Str(hello.tz), Str(hello.display_name), Num(hello.version_patch)]
        && r.rest == m_buffer.Rest()
    {
      hide ReadOn, ReadFields, ReadField, ReadString, ReadVarint;
      ReadFieldsStart(m_buffer.Rest(), SERVER_HELLO_SCHEMA);
      ghost var kinds, r := SERVER_HELLO_SCHEMA, Inside([], [], m_buffer.Rest());
      var name, version_major, version_minor, revision, tz, display_name, version_patch;
      name, r := NextString(r, kinds);
      version_major, r := NextNumber(r, kinds);
      version_minor, r := NextNumber(r, kinds);
      revision, r := NextNumber(r, kinds);
      tz, r := NextString(r, kinds);
      display_name, r := NextString(r, kinds);
      version_patch, r := NextNumber(r, kinds);
      hello := ServerHelloPacket(name, version_major, version_minor, revision, tz, display_name, version_patch);
      ServerPacketInOrder(hello);
      ReadingEnds(r, kinds);
      ret := true;
    }

    method DecodeClientHelloPacket() returns (ret: bool, hello: ClientHelloPacket)
      requires m_buffer.Valid() && ReadFields(m_buffer.Rest(), CLIENT_HELLO_SCHEMA).Inside?
      modifies m_buffer`m_index
      ensures ret && m_buffer.Valid()
      ensures var r := ReadFields(old(m_buffer.Rest()), CLIENT_HELLO_SCHEMA);
        && r.values == [Str(hello.client_name), Num(hello.version_major), Num(hello.version_minor),
                        Num(hello.protocol_version), Str(hello.database), Str(hello.username), Str(hello.password)]
        && r.rest == m_buffer.Rest()
    {
      hide ReadOn, ReadFields, ReadField, ReadString, ReadVarint;
      ReadFieldsStart(m_buffer.Rest(), CLIENT_HELLO_SCHEMA);
      ghost var kinds, r := CLIENT_HELLO_SCHEMA, Inside([], [], m_buffer.Rest());
      var client_name, version_major, version_minor, protocol_version, database, username, password;
      client_name, r := NextString(r, kinds);
      version_major, r := NextNumber(r, kinds);
      version_minor, r := NextNumber(r, kinds);
      protocol_version, r := NextNumber(r, kinds);
      database, r := NextString(r, kinds);
      username, r := NextString(r, kinds);
      password, r := NextString(r, kinds);
      hello := ClientHelloPacket(
        client_name, version_major, version_minor, protocol_version, database, username, password);
      ClientPacketInOrder(hello);
      ReadingEnds(r, kinds);
      ret := true;
    }

    /** Gives up when the type or the query id is not reported as read, and ignores the other
        reports. The result is false on every path, also when the whole packet was read. */
    method DecodeQueryPacket() returns (ret: bool, packet: Option<QueryPacket>)
      requires m_buffer.Valid() && QueryStaysInside(m_buffer.Rest())
      modifies m_buffer`m_index
      ensures !ret && m_buffer.Valid()
      ensures var t := ReadVarint(old(m_buffer.Rest()));
        packet.Some? <==> t.ok && ReadString(old(m_buffer.Rest())[t.used..], []).ok
      ensures packet.Some? ==>
                var r, p := ReadFields(old(m_buffer.Rest()), QUERY_SCHEMA), packet.value;
                && r.Inside? && r.rest == m_buffer.Rest()
                && r.values == [Num(p.packet_type), Str(p.query_id), Num(p.stage), Num(p.compression), Str(p.query)]
    {
      hide ReadOn, ReadField, ReadString, ReadVarint, QueryStaysInside, QueryHeadRead, ReadFields;
      ret := false;
      ghost var bs := m_buffer.Rest();
      QueryCases(bs);
      var ok, packet_type := m_buffer.ReadVarint64();
      if !ok {
        return false, None;
      }
      var query_id;
      ok, query_id := m_buffer.ReadString([]);
      if !ok {
        return false, None;
      }
      QueryHead(bs);
      ghost var head := Inside([true, true], [Num(packet_type), Str(query_id)], m_buffer.Rest());
      var q := DecodeQueryTail(packet_type, query_id, head);
      packet := Some(q);
    }

    /** The rest of a query packet, behind its type and id: three reads whose reports are ignored. */
    method DecodeQueryTail(packet_type: uint64, query_id: seq<byte>, ghost head: Reading) returns (packet: QueryPacket)
      requires m_buffer.Valid() && head.Inside? && head.rest == m_buffer.Rest()
      requires head.values == [Num(packet_type), Str(query_id)] && ReadOn(head, QUERY_SCHEMA).Inside?
      modifies m_buffer`m_index
      ensures m_buffer.Valid()
      ensures packet.packet_type == packet_type && packet.query_id == query_id
      ensures var r := ReadOn(head, QUERY_SCHEMA);
        && r.values == [Num(packet_type), Str(query_id), Num(packet.stage), Num(packet.compression), Str(packet.query)]
        && r.rest == m_buffer.Rest()
    {
      hide ReadOn, ReadField, ReadString, ReadVarint;
      ghost var r := head;
      var stage, compression, query;
      stage, r := NextNumber(r, QUERY_SCHEMA);
      compression, r := NextNumber(r, QUERY_SCHEMA);
      query, r := NextString(r, QUERY_SCHEMA);
      packet := QueryPacket(packet_type, query_id, stage, compression, query);
      ThreeMore(head.values, Num(stage), Num(compression), Str(query));
      ReadingEnds(r, QUERY_SCHEMA);
    }
  }

  lemma StringNext(r: Reading, kinds: seq<Kind>)
    requires r.Inside? && |r.values| < |kinds| && kinds[|r.values|] == StrKind && ReadOn(r, kinds).Inside?
    ensures var s := ReadString(r.rest, []);
      && s.Read? && s.used <= |r.rest|
      && ReadOn(r, kinds) == ReadOn(Inside(r.oks + [s.ok], r.values + [Str(s.value)], r.rest[s.used..]), kinds)
  {
    hide ReadString;
    ReadFieldStaysInside(r.rest, StrKind);
  }

  lemma NumberNext(r: Reading, kinds: seq<Kind>)
    requires r.Inside? && |r.values| < |kinds| && kinds[|r.values|] == NumKind && ReadOn(r, kinds).Inside?
    ensures r.rest != []
    ensures var n := ReadVarint(r.rest);
      && n.Read? && n.used <= |r.rest|
      && ReadOn(r, kinds) == ReadOn(Inside(r.oks + [n.ok], r.values + [Num(n.value)], r.rest[n.used..]), kinds)
  {
    ReadFieldStaysInside(r.rest, NumKind);
  }

  lemma ReadFieldsStart(bs: seq<byte>, kinds: seq<Kind>)
    ensures ReadFields(bs, kinds) == ReadOn(Inside([], [], bs), kinds)
  {
  }

  lemma ServerPacketInOrder(p: ServerHelloPacket)
    ensures [] + [Str(p.name)] + [Num(p.version_major)] + [Num(p.version_minor)] + [Num(p.revision)]
            + [Str(p.tz)] + [Str(p.display_name)] + [Num(p.version_patch)]
            == [Str(p.name), Num(p.version_major), Num(p.version_minor), Num(p.revision),
                Str(p.tz), Str(p.display_name), Num(p.version_patch)]
  {
  }

  lemma ClientPacketInOrder(p: ClientHelloPacket)
    ensures [] + [Str(p.client_name)] + [Num(p.version_major)] + [Num(p.version_minor)] + [Num(p.protocol_version)]
            + [Str(p.database)] + [Str(p.username)] + [Str(p.password)]
            == [Str(p.client_name), Num(p.version_major), Num(p.version_minor), Num(p.protocol_version),
                Str(p.database), Str(p.username), Str(p.password)]
  {
  }

  lemma ThreeMore(fs: seq<Field>, c: Field, d: Field, e: Field)
    requires |fs| == 2
    ensures fs + [c] + [d] + [e] == [fs[0], fs[1], c, d, e]
  {
  }

  /** Both reads whose reports the query decoder checks report success. */
  predicate QueryHeadRead(bs: seq<byte>)
  {
    var t := ReadVarint(bs);
    t.Read? && t.ok && t.used <= |bs| && var id := ReadString(bs[t.used..], []); id.Read? && id.ok
  }

  /** The query decoder never reads outside the buffer. */
  predicate QueryStaysInside(bs: seq<byte>)
  {
    var t := ReadVarint(bs);
    && t.Read?
    && (t.ok ==>
          && t.used <= |bs|
          && ReadString(bs[t.used..], []).Read?
          && (QueryHeadRead(bs) ==> ReadFields(bs, QUERY_SCHEMA).Inside?))
  }

  lemma QueryCases(bs: seq<byte>)
    requires QueryStaysInside(bs)
    ensures bs != [] && ReadVarint(bs).Read? && ReadVarint(bs).used <= |bs|
    ensures ReadVarint(bs).ok ==> ReadString(bs[ReadVarint(bs).used..], []).Read?
    ensures QueryHeadRead(bs) <==> ReadVarint(bs).ok && ReadString(bs[ReadVarint(bs).used..], []).ok
    ensures QueryHeadRead(bs) ==> ReadFields(bs, QUERY_SCHEMA).Inside?
  {
    ReadVarintAcceptance(bs);
  }

  lemma QueryHead(bs: seq<byte>)
    requires QueryHeadRead(bs)
    ensures var t := ReadVarint(bs);
      var id := ReadString(bs[t.used..], []);
      && id.used <= |bs| - t.used
      && ReadFields(bs, QUERY_SCHEMA) ==
         ReadOn(Inside([true, true], [Num(t.value), Str(id.value)], bs[t.used..][id.used..]), QUERY_SCHEMA)
  {
    var t := ReadVarint(bs);
    var id := ReadString(bs[t.used..], []);
    ReadFieldStaysInside(bs[t.used..], StrKind);
    var r1 := Inside([] + [true], [] + [Num(t.value)], bs[t.used..]);
    assert ReadFields(bs, QUERY_SCHEMA) == ReadOn(r1, QUERY_SCHEMA);
    assert r1.oks + [true] == [true, true];
    assert r1.values + [Str(id.value)] == [Num(t.value), Str(id.value)];
  }
}
