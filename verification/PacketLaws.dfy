/** What the packet encoder and decoders promise each other. */
module PacketLaws {
  import opened MachineInts
  import opened Varint
  import opened VarintLaws
  import opened WireFields
  import opened WireFieldLaws
  import opened Packets

  /** A server's Hello as the decoder's struct; `atEnd` when nothing follows it in the buffer. */
  function AsReceived(info: ServerInfo, atEnd: bool): ServerHelloPacket
  {
    var patch := Num(info.version_patch);
    ServerHelloPacket(info.name, info.version_major, info.version_minor, info.revision,
                      info.timezone, info.display_name, if atEnd then patch.AtEnd().n else patch.n)
  }

  /** A server's Hello as the decoder reads it. */
  function ServerPacketFields(p: ServerHelloPacket): seq<Field>
  {
    [Str(p.name), Num(p.version_major), Num(p.version_minor), Num(p.revision),
     Str(p.tz), Str(p.display_name), Num(p.version_patch)]
  }

  /** The fields behind the packet code. */
  function HelloBody(info: ServerInfo): seq<Field>
  {
    ServerHelloFields(info)[1..]
  }

  lemma HelloBodyFields(info: ServerInfo)
    ensures var fs := HelloBody(info);
      && ServerHelloFields(info) == [Num(0)] + fs
      && |fs| <= |SERVER_HELLO_SCHEMA|
      && (forall i :: 0 <= i < |fs| ==> SERVER_HELLO_SCHEMA[i] == fs[i].Kind())
      && (info.WithinLimits() ==> AllWithinLimit(fs))
      && (|fs| == |SERVER_HELLO_SCHEMA| <==> info.revision >= REVISION_WITH_VERSION_PATCH)
  {
    HelloFieldOrder(info);
    var fs := HelloBody(info);
    assert forall i :: 0 <= i < |fs| ==> fs[i] == ServerHelloFields(info)[i + 1];
  }

  lemma HelloBodyInFull(info: ServerInfo, atEnd: bool)
    requires info.revision >= REVISION_WITH_VERSION_PATCH
    ensures Received(HelloBody(info), atEnd) == ServerPacketFields(AsReceived(info, atEnd))
  {
    HelloFieldOrder(info);
    var fs := HelloBody(info);
    var p := ServerPacketFields(AsReceived(info, atEnd));
    ReceivedFields(fs, atEnd);
    assert forall i :: 0 <= i < |fs| ==> fs[i] == ServerHelloFields(info)[i + 1];
    assert fs[..6] == p[..6];
    assert p == p[..6] + [p[6]];
  }

  /** The packet code of a Hello is read first and is zero. */
  lemma HelloCodeRead(info: ServerInfo, rest: seq<byte>)
    ensures var bs := EncodeFields(ServerHelloFields(info)) + rest;
      ReadVarint(bs) == Read(true, 0, 1) && bs[1..] == EncodeFields(HelloBody(info)) + rest
  {
    HelloBodyFields(info);
    var fs := ServerHelloFields(info);
    var tail := EncodeFields(HelloBody(info)) + rest;
    EncodeFieldsStep(fs, rest);
    assert EncodeField(fs[0]) == [0];
    VarintRoundTrip(0, tail);
    HelloFieldOrder(info);
    EncodeFieldsNonempty(HelloBody(info));
  }

  /** The decoder recovers a Hello of a recent enough server: the packet code and all seven
      fields if a byte follows; at the end of the buffer the patch version loses its top group. */
  lemma {:induction false} ServerHelloRoundTrip(info: ServerInfo, rest: seq<byte>)
    requires info.WithinLimits() && info.revision >= 54401
    ensures var bs := EncodeFields(
                [Num(0), Str(info.name), Num(info.version_major), Num(info.version_minor), Num(info.revision),
                 Str(info.timezone), Str(info.display_name), Num(info.version_patch)]) + rest;
      var code := ReadVarint(bs);
      && code == Read(true, 0, 1)
      && ReadFields(bs[code.used..], SERVER_HELLO_SCHEMA) == Inside(
           Reports(7, rest == []),
           [Str(info.name), Num(info.version_major), Num(info.version_minor), Num(info.revision),
            Str(info.timezone), Str(info.display_name),
            if rest == [] then Num(info.version_patch).AtEnd() else Num(info.version_patch)],
           rest)
  {
    HelloFieldsByRevision(info);
    assert ServerHelloFields(info) ==
           [Num(0), Str(info.name), Num(info.version_major), Num(info.version_minor), Num(info.revision),
            Str(info.timezone), Str(info.display_name), Num(info.version_patch)];
    hide ReadFields;
    HelloCodeRead(info, rest);
    HelloBodyFields(info);
    HelloBodyInFull(info, rest == []);
    FieldsRoundTrip(SERVER_HELLO_SCHEMA, HelloBody(info), rest);
  }

  lemma PatchVersionAtEnd(info: ServerInfo, atEnd: bool)
    ensures AsReceived(info, atEnd) == AsReceived(info, false) <==> !atEnd || info.version_patch == 0
    ensures info.version_patch < 0x80 ==> AsReceived(info, true) == AsReceived(info, false).(version_patch := 0)
  {
    LastGroupMatters(info.version_patch);
  }

  /** What is decoded from the bytes of a Hello is what was sent exactly when a byte follows, or
      the patch version is zero. */
  lemma PatchVersionKeptExactly(info: ServerInfo, rest: seq<byte>)
    requires info.WithinLimits() && info.revision >= REVISION_WITH_VERSION_PATCH
    ensures var r := ReadFields(EncodeFields(HelloBody(info)) + rest, SERVER_HELLO_SCHEMA);
      && r.Inside?
      && (r.values == ServerPacketFields(AsReceived(info, false)) <==> rest != [] || info.version_patch == 0)
  {
    hide ReadFields;
    HelloBodyFields(info);
    HelloBodyInFull(info, rest == []);
    FieldsRoundTrip(SERVER_HELLO_SCHEMA, HelloBody(info), rest);
    PatchVersionAtEnd(info, rest == []);
    SamePacketFields(AsReceived(info, rest == []), AsReceived(info, false));
  }

  lemma SamePacketFields(p: ServerHelloPacket, q: ServerHelloPacket)
    ensures ServerPacketFields(p) == ServerPacketFields(q) <==> p == q
  {
    var f, g := ServerPacketFields(p), ServerPacketFields(q);
    if f == g {
      assert f[0] == g[0] && f[1] == g[1] && f[2] == g[2] && f[3] == g[3];
      assert f[4] == g[4] && f[5] == g[5] && f[6] == g[6];
    }
  }

  /** The decoder never looks at the revision gates: in a buffer that ends with the packet it
      stays inside exactly when the server is recent enough to send every field. */
  lemma ServerHelloStaysInsideExactly(info: ServerInfo)
    requires info.WithinLimits()
    ensures ReadFields(EncodeFields(HelloBody(info)), SERVER_HELLO_SCHEMA).Inside?
            <==> info.revision >= REVISION_WITH_VERSION_PATCH
  {
    hide ReadFields;
    HelloBodyFields(info);
    if info.revision >= REVISION_WITH_VERSION_PATCH {
      FieldsRoundTrip(SERVER_HELLO_SCHEMA, HelloBody(info), []);
      assert EncodeFields(HelloBody(info)) + [] == EncodeFields(HelloBody(info));
    } else {
      SchemaTooLong(SERVER_HELLO_SCHEMA, HelloBody(info));
    }
  }

  /** The proxy's own Hello, sent without a trailing byte, comes out of this decoder with patch
      version 0 instead of 1, and otherwise as it was sent. */
  lemma OwnHelloLosesPatchVersion()
    ensures OwnInfo().version_patch == 1
    ensures var r := ReadFields(EncodeFields(HelloBody(OwnInfo())), SERVER_HELLO_SCHEMA);
      && r.Inside? && r.rest == []
      && r.values == ServerPacketFields(AsReceived(OwnInfo(), false).(version_patch := 0))
  {
    hide ReadFields;
    var info := OwnInfo();
    HelloBodyFields(info);
    HelloBodyInFull(info, true);
    assert EncodeFields(HelloBody(info)) + [] == EncodeFields(HelloBody(info));
    FieldsRoundTrip(SERVER_HELLO_SCHEMA, HelloBody(info), []);
    PatchVersionAtEnd(info, true);
  }

  // ----- injectivity

  /** Two servers differ only in fields their revision does not let them send. */
  ghost predicate VisiblySame(a: ServerInfo, b: ServerInfo)
  {
    && a.name == b.name && a.version_major == b.version_major
    && a.version_minor == b.version_minor && a.revision == b.revision
    && (a.revision >= REVISION_WITH_TIMEZONE ==> a.timezone == b.timezone)
    && (a.revision >= REVISION_WITH_DISPLAY_NAME ==> a.display_name == b.display_name)
    && (a.revision >= REVISION_WITH_VERSION_PATCH ==> a.version_patch == b.version_patch)
  }

  lemma SameFieldsExactly(a: ServerInfo, b: ServerInfo)
    ensures ServerHelloFields(a) == ServerHelloFields(b) <==> VisiblySame(a, b)
  {
    HelloFieldOrder(a);
    HelloFieldOrder(b);
    var f, g := ServerHelloFields(a), ServerHelloFields(b);
    if f == g {
      assert f[0] == g[0] && f[1] == g[1] && f[2] == g[2] && f[3] == g[3] && f[4] == g[4];
      assert |f| > 5 ==> f[5] == g[5];
      assert |f| > 6 ==> f[6] == g[6];
      assert |f| > 7 ==> f[7] == g[7];
    }
  }

  /** The five fields every revision sends. */
  lemma SameRevision(a: ServerInfo, b: ServerInfo, x: seq<byte>, y: seq<byte>)
    requires EncodeFields(ServerHelloFields(a)) + x == EncodeFields(ServerHelloFields(b)) + y
    ensures a.revision == b.revision
  {
    HelloFieldOrder(a);
    HelloFieldOrder(b);
    var f, g := ServerHelloFields(a), ServerHelloFields(b);
    SplitFields(f, 5, x);
    SplitFields(g, 5, y);
    FieldsPrefixFree(f[..5], g[..5], EncodeFields(f[5..]) + x, EncodeFields(g[5..]) + y);
    assert f[4] == f[..5][4] && g[4] == g[..5][4];
  }

  lemma SplitFields(fs: seq<Field>, n: nat, x: seq<byte>)
    requires n <= |fs|
    ensures EncodeFields(fs) + x == EncodeFields(fs[..n]) + (EncodeFields(fs[n..]) + x)
  {
    hide EncodeFields;
    assert fs == fs[..n] + fs[n..];
    FieldsConcat(fs[..n], fs[n..]);
    ConcatAssociative(EncodeFields(fs[..n]), EncodeFields(fs[n..]), x);
  }

  /** Whatever follows two Hello packets, equal bytes mean equal packets and equal followers:
      the encoding is unambiguous up to the fields the revision gates away. */
  lemma ServerHelloUnambiguous(a: ServerInfo, b: ServerInfo, x: seq<byte>, y: seq<byte>)
    ensures EncodeFields(ServerHelloFields(a)) + x == EncodeFields(ServerHelloFields(b)) + y
            <==> VisiblySame(a, b) && x == y
  {
    SameFieldsExactly(a, b);
    if EncodeFields(ServerHelloFields(a)) + x == EncodeFields(ServerHelloFields(b)) + y {
      SameRevision(a, b, x, y);
      HelloFieldOrder(a);
      HelloFieldOrder(b);
      FieldsPrefixFree(ServerHelloFields(a), ServerHelloFields(b), x, y);
    }
  }

  // ----- client packets

  /** A client Hello is recovered in full, trailing byte or not. */
  lemma ClientHelloRoundTrip(p: ClientHelloPacket, rest: seq<byte>)
    requires |p.client_name| <= STRING_LIMIT && |p.database| <= STRING_LIMIT
    requires |p.username| <= STRING_LIMIT && |p.password| <= STRING_LIMIT
    ensures var fs := [Str(p.client_name), Num(p.version_major), Num(p.version_minor), Num(p.protocol_version),
                       Str(p.database), Str(p.username), Str(p.password)];
      ReadFields(EncodeFields(fs) + rest, CLIENT_HELLO_SCHEMA) == Inside(Reports(7, rest == []), fs, rest)
  {
    hide ReadFields, EncodeFields;
    var fs := [Str(p.client_name), Num(p.version_major), Num(p.version_minor), Num(p.protocol_version),
               Str(p.database), Str(p.username), Str(p.password)];
    FieldsRoundTrip(CLIENT_HELLO_SCHEMA, fs, rest);
    ReceivedExactly(fs, rest == []);
  }

  /** A query packet is recovered in full, trailing byte or not, and the two reads whose reports
      the decoder checks report success. */
  lemma QueryRoundTrip(p: QueryPacket, rest: seq<byte>)
    requires |p.query_id| <= STRING_LIMIT && |p.query| <= STRING_LIMIT
    ensures var fs := [Num(p.packet_type), Str(p.query_id), Num(p.stage), Num(p.compression), Str(p.query)];
      var bs := EncodeFields(fs) + rest;
      && QueryStaysInside(bs) && QueryHeadRead(bs)
      && ReadFields(bs, QUERY_SCHEMA) == Inside(Reports(5, rest == []), fs, rest)
  {
    hide ReadFields;
    var fs := [Num(p.packet_type), Str(p.query_id), Num(p.stage), Num(p.compression), Str(p.query)];
    FieldsRoundTrip(QUERY_SCHEMA, fs, rest);
    ReceivedExactly(fs, rest == []);
    QueryHeadWritten(fs, rest);
  }

  lemma QueryHeadWritten(fs: seq<Field>, rest: seq<byte>)
    requires AllWithinLimit(fs) && |fs| == 5 && fs[0].Num? && fs[1].Str?
    ensures QueryHeadRead(EncodeFields(fs) + rest)
  {
    var bs := EncodeFields(fs) + rest;
    FirstFieldRead(fs, rest);
    FirstFieldRead(fs[1..], rest);
  }
}
