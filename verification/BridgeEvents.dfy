/** What every event of a session does, said of the packet's fields and the window's keys, over any run. */
module BridgeEvents {
  import opened Bytes
  import opened Protocol
  import opened ChannelKeys
  import opened Crypto
  import opened PacketCrypto
  import opened Bridge
  import opened BridgeDuplicates
  import BE = BigEndian
  import RecentPackets
  import SF = SerialFraming

  /** The sender and id are among the last 1024 admitted. */
  ghost predicate Remembered(log: seq<RecentPackets.Key>, from: u32, id: u32) {
    exists n :: 0 <= n < |log| && |log| - n <= 1024 && log[n] == (from, id)
  }

  lemma WindowRemembers(log: seq<RecentPackets.Key>, from: u32, id: u32)
    ensures (from, id) in RecentPackets.Window(RECENT_PACKETS_CAPACITY, log) <==> Remembered(log, from, id)
  {
    assert |log + [(from, id)]| == |log| + 1;
    RecentPackets.AdmitsExactly(RECENT_PACKETS_CAPACITY, log, (from, id));
  }

  // ----- frames from the radio -----

  /** Echoes of the LAN, MQTT traffic and PKI packets leave everything as it was; every other packet from the
      radio is sent to the LAN, whatever the window holds, and its key is admitted if it is not remembered. */
  lemma RadioPacketExactly(g: Config, evs: seq<Event>, i: nat, f: seq<byte>, p: MeshPacket)
    requires i < |evs| && evs[i] == SerialFrame(f) && g.codec.decodeFromRadio(f) == Some(Packet(p))
    ensures var s, t := StateAt(g, evs, i), StateAt(g, evs, i + 1);
            var kept := p.pkiEncrypted || p.transport == MulticastUdp || p.transport == Mqtt;
            && (t.sent == s.sent <==> kept)
            && (t.log == s.log <==> kept || Remembered(s.log, p.from, p.id))
            && (t.sent != s.sent ==>
                  t.sent == s.sent + [g.codec.encodePacket(Encrypt(g.codec, g.cipher, g.channels, p))])
            && (t.log != s.log ==> t.log == s.log + [(p.from, p.id)])
            && t.written == s.written && t.nonce == s.nonce
  {
    StateStep(g, evs, i);
    var s := StateAt(g, evs, i);
    WindowRemembers(s.log, p.from, p.id);
    hide StateAt, Encrypt, RecentPackets.Window, Remembered;
    assert |s.sent + [Datagram(g, p)]| == |s.sent| + 1;
    assert |s.log + [(p.from, p.id)]| == |s.log| + 1;
  }

  /** No other frame from the radio changes what was sent, written or admitted. */
  lemma OtherFrameExactly(g: Config, evs: seq<Event>, i: nat, f: seq<byte>)
    requires i < |evs| && evs[i] == SerialFrame(f)
    requires g.codec.decodeFromRadio(f) == None || !g.codec.decodeFromRadio(f).value.Packet?
    ensures StateAt(g, evs, i + 1) == StateAt(g, evs, i)
  {
    StateStep(g, evs, i);
    hide StateAt;
  }

  // ----- datagrams from the LAN -----

  /** An encrypted packet that claims neither to be from nobody nor from this node, and is not remembered. */
  ghost predicate Fresh(g: Config, log: seq<RecentPackets.Key>, p: MeshPacket) {
    p.payload.Encrypted? && p.from != 0 && p.from != g.myNodeNum && !Remembered(log, p.from, p.id)
  }

  /** Only fresh packets are admitted, and nothing else changes without being admitted; nothing that comes
      from the LAN goes out to it. */
  lemma LanPacketAdmission(g: Config, evs: seq<Event>, i: nat, data: seq<byte>)
    requires i < |evs| && evs[i] == UdpPacket(data)
    ensures var s, t, d := StateAt(g, evs, i), StateAt(g, evs, i + 1), g.codec.decodePacket(data);
            && t.sent == s.sent && t.nonce == s.nonce
            && (if d.Some? && Fresh(g, s.log, d.value) then t.log == s.log + [(d.value.from, d.value.id)]
                else t == s)
  {
    StateStep(g, evs, i);
    var s, d := StateAt(g, evs, i), g.codec.decodePacket(data);
    if d.Some? {
      WindowRemembers(s.log, d.value.from, d.value.id);
    }
    hide StateAt, RecentPackets.Window, Remembered, ToSerial, WriteOf;
  }

  lemma FreshPacketWrites(g: Config, evs: seq<Event>, i: nat, data: seq<byte>, p: MeshPacket)
    requires i < |evs| && evs[i] == UdpPacket(data) && g.codec.decodePacket(data) == Some(p)
    requires Fresh(g, StateAt(g, evs, i).log, p)
    ensures StateAt(g, evs, i + 1).written ==
              StateAt(g, evs, i).written + (match ToSerial(g, p) case Some(m) => [WriteOf(g, m)] case None => [])
  {
    StateStep(g, evs, i);
    WindowRemembers(StateAt(g, evs, i).log, p.from, p.id);
    hide StateAt, RecentPackets.Window, Remembered, ToSerial, WriteOf;
  }

  /** The frame that hands a message to the radio. */
  function FrameFor(g: Config, msg: ToRadio): seq<byte> {
    SF.FramePayload(g.codec.encodeToRadio(msg))
  }

  /** Phone mode: a fresh packet is written if and only if some channel has its hash, has a key, and gives a
      plaintext that decodes. The first such channel gives content and index, and the packet is stamped. */
  lemma PhoneWritesExactly(g: Config, evs: seq<Event>, i: nat, data: seq<byte>, p: MeshPacket)
    requires g.ingress.Phone? && i < |evs| && evs[i] == UdpPacket(data) && g.codec.decodePacket(data) == Some(p)
    requires Fresh(g, StateAt(g, evs, i).log, p)
    ensures var s, t := StateAt(g, evs, i), StateAt(g, evs, i + 1);
            && (t.written != s.written <==>
                  exists j :: 0 <= j < |g.channels| && g.channels[j].hash == p.channel && |g.channels[j].key| > 0
                    && g.codec.decodeData(Ctr(g.cipher, g.channels[j].key, p.from, p.id, p.payload.bytes)).Some?)
            && (t.written != s.written ==>
                  exists j :: 0 <= j < |g.channels| && g.channels[j].hash == p.channel && |g.channels[j].key| > 0
                    && var d := g.codec.decodeData(Ctr(g.cipher, g.channels[j].key, p.from, p.id, p.payload.bytes));
                    && d.Some?
                    && t.written == s.written + [FrameFor(g, SendPacket(p.(payload := Payload.Decoded(d.value),
                         channel := g.channels[j].index, transport := MulticastUdp)))])
  {
    FreshPacketWrites(g, evs, i, data, p);
    DecryptsExactly(g.codec, g.cipher, g.channels, p);
    hide StateAt, Ctr, Decrypt, Fresh, SF.FramePayload;
    var s, q := StateAt(g, evs, i), Decrypt(g.codec, g.cipher, g.channels, p);
    if q.Some? {
      assert |s.written + [WriteOf(g, SendPacket(q.value.(transport := MulticastUdp)))]| == |s.written| + 1;
    }
  }

  /** The id under which a packet enters the radio's MQTT proxy: the name of the first channel with its hash,
      or else "PKI" for PKI packets and for channel 0 of a packet to one node. */
  ghost predicate ProxyId(g: Config, p: MeshPacket, id: Name) {
    || (exists j :: 0 <= j < |g.channels| && g.channels[j].hash == p.channel && g.channels[j].name == id
          && forall k :: 0 <= k < j ==> g.channels[k].hash != p.channel)
    || ((forall k :: 0 <= k < |g.channels| ==> g.channels[k].hash != p.channel)
          && (p.pkiEncrypted || (p.channel == 0 && p.to != 0xFFFF_FFFF)) && id == Ascii("PKI"))
  }

  /** Proxy mode: a fresh packet is written if and only if it has such an id, unchanged in an envelope. */
  lemma ProxyWritesExactly(g: Config, evs: seq<Event>, i: nat, data: seq<byte>, p: MeshPacket)
    requires g.ingress.MqttProxy? && i < |evs| && evs[i] == UdpPacket(data) && g.codec.decodePacket(data) == Some(p)
    requires Fresh(g, StateAt(g, evs, i).log, p)
    ensures var s, t := StateAt(g, evs, i), StateAt(g, evs, i + 1);
            var gateway := Ascii("!meshtastic-serial-udp");
            && (t.written != s.written <==> exists id :: ProxyId(g, p, id))
            && forall id :: ProxyId(g, p, id) ==>
                 t.written == s.written + [FrameFor(g, MqttProxyMessage(
                   Ascii("msh/2/e/") + id + Ascii("/") + gateway,
                   g.codec.encodeEnvelope(ServiceEnvelope(p, id, gateway))))]
  {
    FreshPacketWrites(g, evs, i, data, p);
    ProxyIdExactly(g, p);
    hide StateAt, ProxyId, DownlinkChannelId, Fresh, SF.FramePayload, Ascii;
    var s, id := StateAt(g, evs, i), DownlinkChannelId(g.channels, p);
    if id.Some? {
      assert |s.written + [WriteOf(g, ToSerial(g, p).value)]| == |s.written| + 1;
    }
  }

  lemma ProxyIdExactly(g: Config, p: MeshPacket)
    ensures var d := DownlinkChannelId(g.channels, p);
            && (d.Some? ==> ProxyId(g, p, d.value))
            && forall id :: ProxyId(g, p, id) ==> d == Some(id)
  {
    hide Ascii;
    var k := FindHash(g.channels, p.channel);
  }

  // ----- heartbeats -----

  function Ticks(evs: seq<Event>): nat
    decreases |evs|
  {
    if evs == [] then 0 else Ticks(evs[..|evs| - 1]) + (if evs[|evs| - 1] == Tick then 1 else 0)
  }

  /** The nonce after n heartbeats: 1 at first, then 2 up to 2^32 - 1, 0, and from 2 again. */
  function NonceAfter(n: nat): u32 {
    if n == 0 then 1 else (2 + (n - 1) % 0xFFFF_FFFF) % 0x1_0000_0000
  }

  /** Over any run: the n-th heartbeat has the n-th nonce of that cycle and is written as it is due. */
  lemma {:induction false} HeartbeatsExactly(g: Config, evs: seq<Event>, i: nat)
    requires i <= |evs|
    ensures StateAt(g, evs, i).nonce == NonceAfter(Ticks(evs[..i]))
    ensures i < |evs| && evs[i] == Tick ==>
      StateAt(g, evs, i + 1) == StateAt(g, evs, i).(
        nonce := NonceAfter(Ticks(evs[..i]) + 1),
        written := StateAt(g, evs, i).written + [FrameFor(g, Heartbeat(NonceAfter(Ticks(evs[..i]) + 1)))])
  {
    hide NonceAfter, NextNonce;
    if i == 0 {
      assert evs[..0] == [];
      FirstNonce();
    } else {
      HeartbeatsExactly(g, evs, i - 1);
      assert evs[..i][..i - 1] == evs[..i - 1];
      if evs[i - 1] != Tick {
        NonceOnlyTicks(g, evs, i - 1);
      }
    }
    if i < |evs| && evs[i] == Tick {
      StateStep(g, evs, i);
      NextNonceAfter(Ticks(evs[..i]));
    }
  }

  lemma FirstNonce()
    ensures NonceAfter(0) == 1
  {
  }

  lemma NonceOnlyTicks(g: Config, evs: seq<Event>, i: nat)
    requires i < |evs| && evs[i] != Tick
    ensures StateAt(g, evs, i + 1).nonce == StateAt(g, evs, i).nonce
  {
    StateStep(g, evs, i);
    hide StateAt, DecodeFrame, ToSerial, RecentPackets.Window;
  }

  lemma NextNonceAfter(n: nat)
    ensures NextNonce(NonceAfter(n)) == NonceAfter(n + 1)
  {
    if n > 0 {
      var m := 0xFFFF_FFFF;
      var r := (n - 1) % m;
      assert n % m == if r + 1 == m then 0 else r + 1 by { NextRemainder(n - 1, m); }
    }
  }

  lemma NextRemainder(a: nat, m: nat)
    requires m > 1
    ensures (a + 1) % m == if a % m + 1 == m then 0 else a % m + 1
  {
    var q, r := a / m, a % m;
    if r + 1 == m {
      assert a + 1 == m * (q + 1);
      BE.ModUnique(a + 1, m, q + 1, 0);
    } else {
      assert a + 1 == m * q + (r + 1);
      BE.ModUnique(a + 1, m, q, r + 1);
    }
  }

  // ----- the end of a session -----

  /** Event i ends the session, and none before it does. */
  ghost predicate EndsAt(c: Codec, evs: seq<Event>, i: nat) {
    && i < |evs| && Ends(c, evs[i])
    && forall j :: 0 <= j < i ==> !Ends(c, evs[j])
  }

  /** A reboot message, or an error of either reader. */
  predicate Ends(c: Codec, ev: Event) {
    match ev
    case SerialFrame(f) => c.decodeFromRadio(f) == Some(Rebooted(true))
    case SerialError => true
    case UdpError => true
    case _ => false
  }

  lemma EndOfExactly(g: Config, ev: Event)
    ensures EndOf(g, ev) == if !Ends(g.codec, ev) then None else Some(match ev
      case SerialFrame(_) => RadioRebooted
      case UdpError => UdpFailed
      case _ => SerialLost)
  {
  }

  /** A session takes its events up to the first that ends it, which says how. */
  lemma TakesExactly(g: Config, evs: seq<Event>)
    ensures forall i: nat :: EndsAt(g.codec, evs, i) ==>
      Taken(g, evs) == i + 1 && EndOf(g, evs[i]) == Some(match evs[i]
        case SerialFrame(_) => RadioRebooted
        case UdpError => UdpFailed
        case _ => SerialLost)
    ensures (forall j :: 0 <= j < |evs| ==> !Ends(g.codec, evs[j])) ==> Taken(g, evs) == |evs|
  {
    hide EndOf, Ends, Taken;
    forall j | 0 <= j < |evs|
      ensures EndOf(g, evs[j]).Some? <==> Ends(g.codec, evs[j])
    {
      EndOfExactly(g, evs[j]);
    }
    forall i: nat | EndsAt(g.codec, evs, i)
      ensures Taken(g, evs) == i + 1 && EndOf(g, evs[i]) == Some(match evs[i]
        case SerialFrame(_) => RadioRebooted
        case UdpError => UdpFailed
        case _ => SerialLost)
    {
      EndOfExactly(g, evs[i]);
      TakenIs(g, evs, i);
    }
    if forall j :: 0 <= j < |evs| ==> !Ends(g.codec, evs[j]) {
      TakenAll(g, evs);
    }
  }
}
