/** A packet's way from one radio over the LAN to another: two sessions' handlers put together. */
module LanDelivery {
  import opened Bytes
  import opened Protocol
  import opened PacketCrypto
  import opened Bridge
  import RecentPackets
  import SF = SerialFraming

  /** The receiving session has not seen the packet and does not take it for its own. */
  ghost predicate Welcome(g: Config, m: Main, p: MeshPacket) {
    && p.from != 0 && p.from != g.myNodeNum
    && KeyOf(p) !in RecentPackets.Window(RECENT_PACKETS_CAPACITY, m.log)
  }

  /** What the receiving session writes for a datagram the sending session has just sent. */
  ghost predicate Delivers(gB: Config, mB: Main, sent: seq<byte>, msg: ToRadio) {
    OnUdpPacket(gB, mB, sent).written == mB.written + [WriteOf(gB, msg)]
  }

  /** This repository's frame reader, which stands for the radio's, gets the message from what was written. */
  ghost predicate Readable(g: Config, msg: ToRadio) {
    SF.Frames(SF.FRESH, WriteOf(g, msg)) == [g.codec.encodeToRadio(msg)]
  }

  predicate FitsFrame(g: Config, msg: ToRadio) {
    |g.codec.encodeToRadio(msg)| <= SF.MAX_PACKET_SIZE
  }

  /** Phone mode: a decoded packet from radio A reaches radio B with the same content, under B's own index
      for the channel and stamped as coming from the LAN - so B's bridge will not send it out again. The
      frame reader gets it if and only if it fits a frame. */
  lemma PhoneDelivery(gA: Config, mA: Main, gB: Config, mB: Main, frame: seq<byte>, p: MeshPacket, k: nat)
    requires gA.codec == gB.codec && gA.cipher == gB.cipher
    requires DecodeFrame(gA.codec, frame) == PacketFrame(p) && !Skipped(p)
    requires SharedChannel(gA.channels, gB.channels, p, k) && gB.ingress.Phone? && Welcome(gB, mB, p)
    requires gA.codec.ReturnsData(p.payload.data)
    requires gA.codec.ReturnsPacket(Encrypt(gA.codec, gA.cipher, gA.channels, p))
    requires FirstOpener(gB.codec, gB.cipher, gB.channels, Encrypt(gA.codec, gA.cipher, gA.channels, p)) == k
    ensures var sent := OnSerialFrame(gA, mA, frame).sent;
            var out := p.(channel := gB.channels[k].index, transport := MulticastUdp);
            && sent != [] && Delivers(gB, mB, sent[|sent| - 1], SendPacket(out))
            && Skipped(out)
            && (Readable(gB, SendPacket(out)) <==> FitsFrame(gB, SendPacket(out)))
  {
    SF.FramingRoundTripsExactly(gB.codec.encodeToRadio(
      SendPacket(p.(channel := gB.channels[k].index, transport := MulticastUdp))));
    RoundTripAcrossBridges(gA.codec, gA.cipher, gA.channels, gB.channels, p, k);
    SharedChannelOpens(gA.codec, gA.cipher, gA.channels, gB.channels, p, k);
    hide Encrypt, Decrypt, FirstOpener, Opens, SharedChannel;
    var q := Encrypt(gA.codec, gA.cipher, gA.channels, p);
    assert gB.codec.decodePacket(gA.codec.encodePacket(q)) == Some(q);
    EncryptKeepsSender(gA, p);
  }

  /** Proxy mode: the radio gets, in an envelope named after a channel with the packet's hash, exactly the
      packet that was on the LAN, which the frame reader gets if and only if it fits a frame. */
  lemma ProxyDelivery(gA: Config, mA: Main, gB: Config, mB: Main, frame: seq<byte>, p: MeshPacket, k: nat)
    requires gA.codec == gB.codec && gA.cipher == gB.cipher
    requires DecodeFrame(gA.codec, frame) == PacketFrame(p) && !Skipped(p)
    requires SharedChannel(gA.channels, gB.channels, p, k) && gB.ingress.MqttProxy? && Welcome(gB, mB, p)
    requires gA.codec.ReturnsData(p.payload.data)
    requires gA.codec.ReturnsPacket(Encrypt(gA.codec, gA.cipher, gA.channels, p))
    ensures var sent := OnSerialFrame(gA, mA, frame).sent;
            var q := Encrypt(gA.codec, gA.cipher, gA.channels, p);
            && sent != [] && q.payload.Encrypted? && KeyOf(q) == KeyOf(p)
            && exists i :: 0 <= i <= k && gB.channels[i].hash == q.channel
                 && Delivers(gB, mB, sent[|sent| - 1], ToSerial(gB, q).value)
                 && (Readable(gB, ToSerial(gB, q).value) <==> FitsFrame(gB, ToSerial(gB, q).value))
                 && ToSerial(gB, q) == Some(MqttProxyMessage(
                      Ascii("msh/2/e/") + gB.channels[i].name + Ascii("/") + GATEWAY_ID,
                      gB.codec.encodeEnvelope(ServiceEnvelope(q, gB.channels[i].name, GATEWAY_ID))))
  {
    SharedChannelOpens(gA.codec, gA.cipher, gA.channels, gB.channels, p, k);
    EncryptKeepsSender(gA, p);
    var q := Encrypt(gA.codec, gA.cipher, gA.channels, p);
    assert gB.channels[k].hash == q.channel;
    hide Encrypt, Opens, SharedChannel;
    assert gB.codec.decodePacket(gA.codec.encodePacket(q)) == Some(q);
    var i := FindHash(gB.channels, q.channel);
    SF.FramingRoundTripsExactly(gB.codec.encodeToRadio(ToSerial(gB, q).value));
    assert 0 <= i <= k && gB.channels[i].hash == q.channel;
  }

  lemma EncryptKeepsSender(g: Config, p: MeshPacket)
    ensures var q := Encrypt(g.codec, g.cipher, g.channels, p);
            q.from == p.from && q.id == p.id
  {
  }

  // ----- what the radio reads over a session -----

  /** The message an event makes a session write, if any. */
  function MessageOf(g: Config, m: Main, ev: Event): Option<ToRadio> {
    match ev
    case Tick => Some(Heartbeat(NextNonce(m.nonce)))
    case UdpPacket(data) =>
      (match g.codec.decodePacket(data)
       case Some(p) =>
         if Considered(g, p) && KeyOf(p) !in RecentPackets.Window(RECENT_PACKETS_CAPACITY, m.log)
         then ToSerial(g, p) else None
       case None => None)
    case _ => None
  }

  /** The encoded messages of a run, in order. */
  function Messages(g: Config, evs: seq<Event>): seq<seq<byte>>
    decreases |evs|
  {
    if evs == [] then []
    else
      var n := |evs| - 1;
      var msg := MessageOf(g, DispatchAll(g, START, evs[..n]), evs[n]);
      Messages(g, evs[..n]) + (if msg.Some? then [g.codec.encodeToRadio(msg.value)] else [])
  }

  lemma DispatchWritesMessage(g: Config, m: Main, ev: Event)
    ensures var msg := MessageOf(g, m, ev);
            Dispatch(g, m, ev).written == m.written + (if msg.Some? then [WriteOf(g, msg.value)] else [])
  {
    hide ToSerial, RecentPackets.Window, SF.FramePayload;
  }

  lemma {:induction false} WrittenIsFramed(g: Config, evs: seq<Event>)
    ensures DispatchAll(g, START, evs).written == SF.Framed(Messages(g, evs))
    decreases |evs|
  {
    if evs == [] {
    } else {
      hide MessageOf, Dispatch, SF.FramePayload;
      var n := |evs| - 1;
      var m := DispatchAll(g, START, evs[..n]);
      WrittenIsFramed(g, evs[..n]);
      DispatchWritesMessage(g, m, evs[n]);
      var before, msgs, msg := Messages(g, evs[..n]), Messages(g, evs), MessageOf(g, m, evs[n]);
      if msg.Some? {
        assert msgs == before + [g.codec.encodeToRadio(msg.value)];
        assert msgs[..|msgs| - 1] == before;
      } else {
        assert msgs == before;
      }
    }
  }

  /** Over any run, what the session writes, read as one stream, gives the radio exactly the session's
      messages in order - if and only if none of them is too long for a frame. */
  lemma RadioReadsSession(g: Config, evs: seq<Event>)
    ensures SF.Frames(SF.FRESH, Concat(DispatchAll(g, START, evs).written)) == Messages(g, evs)
       <==> forall msg :: msg in Messages(g, evs) ==> |msg| <= SF.MAX_PACKET_SIZE
  {
    WrittenIsFramed(g, evs);
    SF.SequenceRoundTripsExactly(Messages(g, evs));
  }

  /** The same datagram again changes nothing, whatever became of it the first time. */
  lemma SecondCopyIgnored(g: Config, m: Main, data: seq<byte>)
    ensures OnUdpPacket(g, OnUdpPacket(g, m, data), data) == OnUdpPacket(g, m, data)
  {
    hide ToSerial, WriteOf;
    var n, p := OnUdpPacket(g, m, data), g.codec.decodePacket(data);
    if n != m {
      RecentPackets.WindowHoldsTail(RECENT_PACKETS_CAPACITY, n.log);
      assert n.log == m.log + [KeyOf(p.value)];
      assert n.log[|m.log|] == KeyOf(p.value);
    }
  }

  /** A packet whose message is too long for a frame is lost: its key is admitted, so the datagram sent
      again is ignored, and no stream makes the frame reader emit that message. */
  lemma OversizedIsLost(g: Config, m: Main, data: seq<byte>, p: MeshPacket, msg: ToRadio, stream: seq<byte>)
    requires g.codec.decodePacket(data) == Some(p) && ToSerial(g, p) == Some(msg) && !FitsFrame(g, msg)
    requires Considered(g, p) && KeyOf(p) !in RecentPackets.Window(RECENT_PACKETS_CAPACITY, m.log)
    ensures var n := OnUdpPacket(g, m, data);
            n.log == m.log + [KeyOf(p)] && n.written == m.written + [WriteOf(g, msg)] && OnUdpPacket(g, n, data) == n
    ensures g.codec.encodeToRadio(msg) !in SF.Frames(SF.FRESH, stream)
  {
    SecondCopyIgnored(g, m, data);
    SF.FramesAreBounded(SF.FRESH, stream);
    hide ToSerial, WriteOf;
  }

  /** The envelope of a packet is not shorter than the packet, nor the message than the envelope. */
  predicate Contains(g: Config, p: MeshPacket)
    requires g.ingress.MqttProxy?
  {
    match DownlinkChannelId(g.channels, p)
    case None => true
    case Some(id) =>
      var envelope := g.codec.encodeEnvelope(ServiceEnvelope(p, id, GATEWAY_ID));
      |g.codec.encodePacket(p)| <= |envelope| <= |g.codec.encodeToRadio(ToSerial(g, p).value)|
  }

  /** In proxy mode it is the size on the LAN that decides: wherever encoding a message keeps at least the
      bytes of what it contains, every packet of over 512 bytes that is considered and has a channel is
      lost, though the socket takes 600. */
  lemma LongDatagramIsLost(g: Config, m: Main, p: MeshPacket, msg: ToRadio, stream: seq<byte>)
    requires g.ingress.MqttProxy? && g.codec.ReturnsPacket(p) && ToSerial(g, p) == Some(msg) && Contains(g, p)
    requires Considered(g, p) && KeyOf(p) !in RecentPackets.Window(RECENT_PACKETS_CAPACITY, m.log)
    requires |g.codec.encodePacket(p)| > SF.MAX_PACKET_SIZE
    ensures var data := g.codec.encodePacket(p);
            var n := OnUdpPacket(g, m, data);
            n.log == m.log + [KeyOf(p)] && n.written == m.written + [WriteOf(g, msg)] && OnUdpPacket(g, n, data) == n
    ensures g.codec.encodeToRadio(msg) !in SF.Frames(SF.FRESH, stream)
  {
    OversizedIsLost(g, m, g.codec.encodePacket(p), p, msg, stream);
  }
}
