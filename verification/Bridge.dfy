/** One bridge session: the handlers and the dispatch loop of src/bridge.rs. */
module Bridge {
  import opened Bytes
  import opened Protocol
  import opened Crypto
  import opened PacketCrypto
  import RecentPackets
  import SerialFraming

  const RECENT_PACKETS_CAPACITY: nat := 1024
  const HEARTBEAT_NONCE_NODEINFO_PING: u32 := 1
  const BROADCAST_ADDR: u32 := 0xFFFF_FFFF
  const GATEWAY_ID: Name := Ascii("!meshtastic-serial-udp")

  datatype Ingress = MqttProxy | Phone

  datatype Config = Config(
    codec: Codec, cipher: BlockCipher, channels: Channels, ingress: Ingress, myNodeNum: u32)

  datatype Event =
    | SerialFrame(payload: seq<byte>)
    | UdpPacket(data: seq<byte>)
    | SerialError
    | UdpError
    | Tick

  datatype SessionEnd = RadioRebooted | SerialLost | UdpFailed

  /** What a session has done: keys admitted, datagrams sent, frames written, and its nonce. */
  datatype Main = Main(
    log: seq<RecentPackets.Key>, sent: seq<seq<byte>>, written: seq<seq<byte>>, nonce: u32)

  const START := Main([], [], [], HEARTBEAT_NONCE_NODEINFO_PING)

  // ----- specification -----

  function KeyOf(p: MeshPacket): RecentPackets.Key {
    (p.from, p.id)
  }

  /** Packets from the radio that are not forwarded: echoes of the LAN and PKI packets. */
  predicate Skipped(p: MeshPacket) {
    p.transport.MulticastUdp? || p.transport.Mqtt? || p.pkiEncrypted
  }

  function Datagram(g: Config, p: MeshPacket): seq<byte> {
    g.codec.encodePacket(Encrypt(g.codec, g.cipher, g.channels, p))
  }

  function OnSerialFrame(g: Config, m: Main, payload: seq<byte>): Main {
    match DecodeFrame(g.codec, payload)
    case PacketFrame(p) =>
      if Skipped(p) then m
      else m.(log := RecentPackets.Admit(RECENT_PACKETS_CAPACITY, m.log, KeyOf(p)),
              sent := m.sent + [Datagram(g, p)])
    case _ => m
  }

  /** Position of the first channel with a given hash; |cs| when there is none. */
  function FindHash(cs: Channels, hash: u32): (i: nat)
    ensures i <= |cs| && (i < |cs| ==> cs[i].hash == hash)
    ensures forall j :: 0 <= j < i ==> cs[j].hash != hash
  {
    if cs == [] || cs[0].hash == hash then 0 else 1 + FindHash(cs[1..], hash)
  }

  function DownlinkChannelId(cs: Channels, p: MeshPacket): Option<Name> {
    var i := FindHash(cs, p.channel);
    if i < |cs| then Some(cs[i].name)
    else if p.pkiEncrypted || (p.channel == 0 && p.to != BROADCAST_ADDR) then Some(Ascii("PKI"))
    else None
  }

  /** The message for the radio that a packet from the LAN becomes, if it is not dropped. */
  function ToSerial(g: Config, p: MeshPacket): Option<ToRadio> {
    match g.ingress
    case MqttProxy =>
      (match DownlinkChannelId(g.channels, p)
       case None => None
       case Some(id) => Some(MqttProxyMessage(
           Ascii("msh/2/e/") + id + Ascii("/") + GATEWAY_ID,
           g.codec.encodeEnvelope(ServiceEnvelope(p, id, GATEWAY_ID)))))
    case Phone =>
      (match Decrypt(g.codec, g.cipher, g.channels, p)
       case None => None
       case Some(q) => Some(SendPacket(q.(transport := MulticastUdp))))
  }

  /** A packet from the LAN that reaches the duplicate window. */
  predicate Considered(g: Config, p: MeshPacket) {
    p.payload.Encrypted? && p.from != 0 && p.from != g.myNodeNum
  }

  function WriteOf(g: Config, msg: ToRadio): seq<byte> {
    SerialFraming.FramePayload(g.codec.encodeToRadio(msg))
  }

  /** A key is admitted even when its packet is dropped afterwards. */
  function OnUdpPacket(g: Config, m: Main, data: seq<byte>): Main {
    match g.codec.decodePacket(data)
    case None => m
    case Some(p) =>
      if !Considered(g, p) || KeyOf(p) in RecentPackets.Window(RECENT_PACKETS_CAPACITY, m.log) then m
      else
        var n := m.(log := m.log + [KeyOf(p)]);
        match ToSerial(g, p)
        case None => n
        case Some(msg) => n.(written := n.written + [WriteOf(g, msg)])
  }

  function WrappingNext(nonce: u32): u32 {
    (nonce as int + 1) % 0x1_0000_0000
  }

  /** The next heartbeat nonce: one that asks for node info is never used. */
  function NextNonce(nonce: u32): u32 {
    var n := WrappingNext(nonce);
    if n == HEARTBEAT_NONCE_NODEINFO_PING then WrappingNext(n) else n
  }

  function OnTick(g: Config, m: Main): Main {
    var n := NextNonce(m.nonce);
    m.(nonce := n, written := m.written + [WriteOf(g, Heartbeat(n))])
  }

  function Dispatch(g: Config, m: Main, ev: Event): Main {
    match ev
    case SerialFrame(payload) => OnSerialFrame(g, m, payload)
    case UdpPacket(data) => OnUdpPacket(g, m, data)
    case Tick => OnTick(g, m)
    case _ => m
  }

  /** The events that end a session. */
  function EndOf(g: Config, ev: Event): Option<SessionEnd> {
    match ev
    case SerialFrame(payload) => if DecodeFrame(g.codec, payload).RebootFrame? then Some(RadioRebooted) else None
    case SerialError => Some(SerialLost)
    case UdpError => Some(UdpFailed)
    case _ => None
  }

  /** All of evs, dispatched in order. */
  function DispatchAll(g: Config, m: Main, evs: seq<Event>): Main
    decreases |evs|
  {
    if evs == [] then m else Dispatch(g, DispatchAll(g, m, evs[..|evs| - 1]), evs[|evs| - 1])
  }

  /** How many events a session takes: up to and including the first that ends it. */
  function Taken(g: Config, evs: seq<Event>): (n: nat)
    ensures n <= |evs|
    ensures forall i :: 0 <= i < n - 1 ==> EndOf(g, evs[i]) == None
    ensures n < |evs| ==> n > 0 && EndOf(g, evs[n - 1]).Some?
  {
    if evs == [] then 0 else if EndOf(g, evs[0]).Some? then 1 else 1 + Taken(g, evs[1..])
  }

  // ----- the code -----

  class Session {
    const g: Config
    const recent: RecentPackets.Recent
    var sent: seq<seq<byte>>     // datagrams handed to the UDP socket
    var written: seq<seq<byte>>  // frames handed to the serial port

    ghost predicate Valid()
      reads this, recent
    {
      recent.Valid() && recent.capacity == RECENT_PACKETS_CAPACITY
    }

    ghost function State(nonce: u32): Main
      reads this, recent
    {
      Main(recent.log, sent, written, nonce)
    }

    constructor (g: Config)
      ensures Valid() && fresh(recent) && this.g == g && State(HEARTBEAT_NONCE_NODEINFO_PING) == START
    {
      this.g := g;
      recent := new RecentPackets.Recent(RECENT_PACKETS_CAPACITY);
      sent, written := [], [];
    }

    method HandleSerialFrame(payload: seq<byte>, ghost nonce: u32) returns (rebooted: bool)
      requires Valid()
      modifies this, recent
      ensures Valid()
      ensures State(nonce) == OnSerialFrame(g, old(State(nonce)), payload)
      ensures rebooted <==> DecodeFrame(g.codec, payload).RebootFrame?
    {
      var frame := DecodeFrame(g.codec, payload);
      if frame.RebootFrame? {
        return true;
      }
      if frame.OtherFrame? {
        return false;
      }
      var packet := frame.packet;
      if packet.transport.MulticastUdp? || packet.transport.Mqtt? {
        return false;
      }
      if packet.pkiEncrypted {
        return false;
      }
      var _ := recent.Insert(KeyOf(packet));
      packet := EncryptPacket(g.codec, g.cipher, g.channels, packet);
      sent := sent + [g.codec.encodePacket(packet)];
      return false;
    }

    method HandleUdpPacket(data: seq<byte>, ghost nonce: u32)
      requires Valid()
      modifies this, recent
      ensures Valid()
      ensures State(nonce) == OnUdpPacket(g, old(State(nonce)), data)
    {
      var decoded := g.codec.decodePacket(data);
      if decoded == None {
        return;
      }
      var packet := decoded.value;
      if !packet.payload.Encrypted? {
        return;
      }
      if packet.from == 0 || packet.from == g.myNodeNum {
        return;
      }
      var isNew := recent.Insert(KeyOf(packet));
      if !isNew {
        return;
      }
      match g.ingress
      case MqttProxy =>
        var channelId := DownlinkChannelId(g.channels, packet);
        if channelId == None {
          return;
        }
        var envelope := ServiceEnvelope(packet, channelId.value, GATEWAY_ID);
        var topic := Ascii("msh/2/e/") + channelId.value + Ascii("/") + GATEWAY_ID;
        WriteToSerial(MqttProxyMessage(topic, g.codec.encodeEnvelope(envelope)));
      case Phone =>
        var ok;
        ok, packet := DecryptPacket(g.codec, g.cipher, g.channels, packet);
        if !ok {
          return;
        }
        packet := packet.(transport := MulticastUdp);
        WriteToSerial(SendPacket(packet));
    }

    method WriteToSerial(msg: ToRadio)
      modifies this`written
      ensures written == old(written) + [WriteOf(g, msg)]
    {
      var frame := SerialFraming.WriteFrame(g.codec.encodeToRadio(msg));
      written := written + [frame];
    }

    /** The dispatch loop over the events a queue delivers. */
    method Run(rx: seq<Event>) returns (end: SessionEnd, ghost taken: nat, ghost nonce: u32)
      requires Valid()
      modifies this, recent
      ensures Valid()
      ensures taken == Taken(g, rx)
      ensures State(nonce) == DispatchAll(g, old(State(HEARTBEAT_NONCE_NODEINFO_PING)), rx[..taken])
      ensures end == if taken > 0 && EndOf(g, rx[taken - 1]).Some? then EndOf(g, rx[taken - 1]).value else SerialLost
    {
      hide OnSerialFrame, OnUdpPacket, Taken, DecodeFrame, WriteOf, RecentPackets.Window;
      var heartbeatNonce := HEARTBEAT_NONCE_NODEINFO_PING;
      var i := 0;
      ghost var m0 := State(heartbeatNonce);
      while i < |rx|
        invariant 0 <= i <= |rx| && Valid()
        invariant State(heartbeatNonce) == DispatchAll(g, m0, rx[..i])
        invariant forall j :: 0 <= j < i ==> EndOf(g, rx[j]) == None
        decreases |rx| - i
      {
        var event := rx[i];
        assert rx[..i + 1][..i] == rx[..i];
        TakenIs(g, rx, i);
        i := i + 1;
        match event
        case SerialFrame(payload) =>
          var rebooted := HandleSerialFrame(payload, heartbeatNonce);
          if rebooted {
            return RadioRebooted, i, heartbeatNonce;
          }
        case UdpPacket(data) =>
          HandleUdpPacket(data, heartbeatNonce);
        case SerialError =>
          return SerialLost, i, heartbeatNonce;
        case UdpError =>
          return UdpFailed, i, heartbeatNonce;
        case Tick =>
          heartbeatNonce := WrappingNext(heartbeatNonce);
          if heartbeatNonce == HEARTBEAT_NONCE_NODEINFO_PING {
            heartbeatNonce := WrappingNext(heartbeatNonce);
          }
          WriteToSerial(Heartbeat(heartbeatNonce));
      }
      TakenAll(g, rx);
      assert rx[..|rx|] == rx;
      return SerialLost, i, heartbeatNonce;
    }
  }

  lemma {:induction false} TakenIs(g: Config, evs: seq<Event>, i: nat)
    requires i < |evs| && forall j :: 0 <= j < i ==> EndOf(g, evs[j]) == None
    ensures EndOf(g, evs[i]).Some? ==> Taken(g, evs) == i + 1
  {
    if i == 0 {
    } else {
      TakenIs(g, evs[1..], i - 1);
    }
  }

  lemma TakenAll(g: Config, evs: seq<Event>)
    requires forall j :: 0 <= j < |evs| ==> EndOf(g, evs[j]) == None
    ensures Taken(g, evs) == |evs|
  {
  }
}
