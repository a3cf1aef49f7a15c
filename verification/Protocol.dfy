/** The protobuf messages the bridge reads and writes, and an abstract codec for them. Fields the
    bridge only passes on are kept together in `rest`. Strings are their UTF-8 bytes. */
module Protocol {
  import opened Bytes

  type Name = seq<byte>

  function Ascii(s: string): (r: seq<byte>)
    ensures |r| == |s|
  {
    seq(|s|, i requires 0 <= i < |s| => s[i] as int % 128)
  }

  datatype Data = Data(portnum: int, payload: seq<byte>, rest: seq<byte>)

  datatype Payload = Empty | Decoded(data: Data) | Encrypted(bytes: seq<byte>)

  /** TransportMechanism values the bridge tests for. */
  datatype Transport = MulticastUdp | Mqtt | OtherTransport(value: int)

  datatype MeshPacket = MeshPacket(
    from: u32, to: u32, channel: u32, id: u32,
    payload: Payload, pkiEncrypted: bool, transport: Transport, rest: seq<byte>)

  datatype ChannelSettings = ChannelSettings(psk: seq<byte>, name: Name, downlink: bool, rest: seq<byte>)

  /** `index` and `role` are signed 32-bit fields; role 1 is PRIMARY and 2 is SECONDARY. */
  datatype Channel = Channel(index: int, role: int, settings: Option<ChannelSettings>)

  datatype MqttConfig = MqttConfig(enabled: bool, proxyToClient: bool, address: Name, rest: seq<byte>)

  datatype FromRadio =
    | Packet(packet: MeshPacket)
    | Rebooted(flag: bool)
    | ConfigCompleteId(id: u32)
    | MyInfo(nodeNum: u32)
    | LoraConfig(modemPreset: int, usePreset: bool, region: int)
    | MqttModule(mqtt: MqttConfig)
    | ChannelInfo(channel: Channel)
    | OtherVariant
    | NoVariant

  datatype ServiceEnvelope = ServiceEnvelope(packet: MeshPacket, channelId: Name, gatewayId: Name)

  datatype ToRadio =
    | WantConfigId(id: u32)
    | Heartbeat(nonce: u32)
    | SendPacket(packet: MeshPacket)
    | MqttProxyMessage(topic: Name, data: seq<byte>)

  /** Encoders and decoders, as parameters of everything that uses them. */
  datatype Codec = Codec(
    encodeData: Data -> seq<byte>,
    decodeData: seq<byte> -> Option<Data>,
    encodePacket: MeshPacket -> seq<byte>,
    decodePacket: seq<byte> -> Option<MeshPacket>,
    encodeEnvelope: ServiceEnvelope -> seq<byte>,
    encodeToRadio: ToRadio -> seq<byte>,
    decodeFromRadio: seq<byte> -> Option<FromRadio>)
  {
    /** Decoding undoes encoding, for this message. */
    predicate ReturnsData(d: Data) {
      decodeData(encodeData(d)) == Some(d)
    }

    predicate ReturnsPacket(p: MeshPacket) {
      decodePacket(encodePacket(p)) == Some(p)
    }
  }

  // ----- src/serial.rs: decode_frame -----

  datatype RadioFrame = PacketFrame(packet: MeshPacket) | RebootFrame | OtherFrame

  function DecodeFrame(c: Codec, payload: seq<byte>): RadioFrame {
    match c.decodeFromRadio(payload)
    case Some(Packet(p)) => PacketFrame(p)
    case Some(Rebooted(true)) => RebootFrame
    case _ => OtherFrame
  }
}
