/** Duplicate suppression and writes to the radio over whole runs of the dispatch loop. The events are
    arbitrary, so the statements hold for what the loop receives under every interleaving. */
module BridgeDuplicates {
  import opened Bytes
  import opened Protocol
  import opened ChannelKeys
  import opened Crypto
  import opened PacketCrypto
  import opened Bridge
  import opened RecentPackets

  ghost function StateAt(g: Config, evs: seq<Event>, i: nat): Main
    requires i <= |evs|
  {
    DispatchAll(g, START, evs[..i])
  }

  /** The key an event presents to the duplicate window, if it reaches it. */
  ghost function KeyAt(g: Config, ev: Event): Option<Key> {
    match ev
    case SerialFrame(f) =>
      (match DecodeFrame(g.codec, f) case PacketFrame(p) => if Skipped(p) then None else Some(KeyOf(p)) case _ => None)
    case UdpPacket(data) =>
      (match g.codec.decodePacket(data)
       case Some(p) => if Considered(g, p) then Some(KeyOf(p)) else None
       case None => None)
    case _ => None
  }

  /** Event i enters its key into the window. */
  ghost predicate Admits(g: Config, evs: seq<Event>, i: nat)
    requires i < |evs|
  {
    StateAt(g, evs, i + 1).log != StateAt(g, evs, i).log
  }

  /** Event i is a packet from the LAN that is written to the radio. */
  ghost predicate WritesPacket(g: Config, evs: seq<Event>, i: nat)
    requires i < |evs|
  {
    evs[i].UdpPacket? && StateAt(g, evs, i + 1).written != StateAt(g, evs, i).written
  }

  lemma DispatchLog(g: Config, m: Main, ev: Event)
    ensures var k := KeyAt(g, ev);
            Dispatch(g, m, ev).log == if k == None then m.log else Admit(RECENT_PACKETS_CAPACITY, m.log, k.value)
    ensures ev.UdpPacket? && Dispatch(g, m, ev).written != m.written ==> Dispatch(g, m, ev).log != m.log
  {
  }

  lemma StateStep(g: Config, evs: seq<Event>, i: nat)
    requires i < |evs|
    ensures StateAt(g, evs, i + 1) == Dispatch(g, StateAt(g, evs, i), evs[i])
  {
    assert evs[..i + 1][..i] == evs[..i];
  }

  lemma {:induction false} LogIsSpaced(g: Config, evs: seq<Event>, i: nat)
    requires i <= |evs|
    ensures Spaced(RECENT_PACKETS_CAPACITY, StateAt(g, evs, i).log)
  {
    if i == 0 {
    } else {
      hide StateAt, KeyAt, Dispatch, Spaced;
      LogIsSpaced(g, evs, i - 1);
      StateStep(g, evs, i - 1);
      var m, k := StateAt(g, evs, i - 1), KeyAt(g, evs[i - 1]);
      DispatchLog(g, m, evs[i - 1]);
      if k.Some? {
        AdmitKeepsSpaced(RECENT_PACKETS_CAPACITY, m.log, k.value);
      }
    }
  }

  lemma {:induction false} LogGrows(g: Config, evs: seq<Event>, i: nat, j: nat)
    requires i <= j <= |evs|
    ensures StateAt(g, evs, i).log <= StateAt(g, evs, j).log
    decreases j
  {
    if i == j {
    } else {
      hide StateAt, KeyAt, Dispatch;
      LogGrows(g, evs, i, j - 1);
      StateStep(g, evs, j - 1);
      DispatchLog(g, StateAt(g, evs, j - 1), evs[j - 1]);
    }
  }

  lemma AdmitsAppends(g: Config, evs: seq<Event>, i: nat)
    requires i < |evs| && Admits(g, evs, i)
    ensures KeyAt(g, evs[i]).Some?
    ensures StateAt(g, evs, i + 1).log == StateAt(g, evs, i).log + [KeyAt(g, evs[i]).value]
    ensures KeyAt(g, evs[i]).value !in Window(RECENT_PACKETS_CAPACITY, StateAt(g, evs, i).log)
  {
    StateStep(g, evs, i);
    DispatchLog(g, StateAt(g, evs, i), evs[i]);
  }

  /** A written packet has just been admitted. */
  lemma WritesAdmit(g: Config, evs: seq<Event>, i: nat)
    requires i < |evs| && WritesPacket(g, evs, i)
    ensures Admits(g, evs, i)
  {
    StateStep(g, evs, i);
    DispatchLog(g, StateAt(g, evs, i), evs[i]);
  }

  /** Between two admissions of one key at least 1024 other keys are admitted, all different: a LAN
      packet is written to the radio at most once per window. */
  lemma ReadmittedOnlyAfterFullWindow(g: Config, evs: seq<Event>, i: nat, j: nat, k: Key)
    requires i < j < |evs| && Admits(g, evs, i) && Admits(g, evs, j)
    requires KeyAt(g, evs[i]) == KeyAt(g, evs[j]) == Some(k)
    ensures StateAt(g, evs, i + 1).log <= StateAt(g, evs, j).log
    ensures var between := StateAt(g, evs, j).log[|StateAt(g, evs, i + 1).log|..];
            && |between| >= RECENT_PACKETS_CAPACITY
            && Distinct([k] + between[..RECENT_PACKETS_CAPACITY])
  {
    hide StateAt, KeyAt;
    AdmitsAppends(g, evs, i);
    AdmitsAppends(g, evs, j);
    LogGrows(g, evs, i + 1, j);
    LogIsSpaced(g, evs, j + 1);
    SpacedRun(StateAt(g, evs, i).log, k, StateAt(g, evs, j).log);
  }

  lemma SpacedRun(before: seq<Key>, k: Key, log: seq<Key>)
    requires before + [k] <= log && Spaced(RECENT_PACKETS_CAPACITY, log + [k])
    ensures var between := log[|before| + 1..];
            && |between| >= RECENT_PACKETS_CAPACITY
            && Distinct([k] + between[..RECENT_PACKETS_CAPACITY])
  {
    var all := log + [k];
    var p := |before|;
    assert all[p] == (before + [k])[p] == k && all[|log|] == k;
    var between := log[p + 1..];
    assert |log| - p > RECENT_PACKETS_CAPACITY;
    var run := [k] + between[..RECENT_PACKETS_CAPACITY];
    assert forall a :: 0 <= a < |run| ==> run[a] == all[p + a];
  }

  /** Once the window has seen a key - from the radio or the LAN, newly or again - a LAN packet with
      that key is written only after 1024 other keys have entered behind it. */
  lemma SeenKeysAreNotWrittenBack(g: Config, evs: seq<Event>, i: nat, j: nat, k: Key)
    requires i < j < |evs| && WritesPacket(g, evs, j)
    requires KeyAt(g, evs[i]) == KeyAt(g, evs[j]) == Some(k)
    ensures var log := StateAt(g, evs, i + 1).log;
            exists p :: 0 <= p < |log| && log[p] == k
              && |StateAt(g, evs, j).log| - (p + 1) >= RECENT_PACKETS_CAPACITY
  {
    StateStep(g, evs, i);
    DispatchLog(g, StateAt(g, evs, i), evs[i]);
    WritesAdmit(g, evs, j);
    AdmitsAppends(g, evs, j);
    LogGrows(g, evs, i + 1, j);
    hide StateAt, KeyAt;
    var early, now := StateAt(g, evs, i + 1).log, StateAt(g, evs, j).log;
    AdmittedIsRemembered(StateAt(g, evs, i).log, k);
    var p :| 0 <= p < |early| && early[p] == k;
    assert now[p] == k;
    WindowHoldsTail(RECENT_PACKETS_CAPACITY, now);
  }

  lemma AdmittedIsRemembered(log: seq<Key>, k: Key)
    ensures k in Admit(RECENT_PACKETS_CAPACITY, log, k)
  {
  }

  /** Everything written to the radio is a heartbeat that does not ask for node info, or stands for an
      encrypted LAN packet that does not claim to be from this node. */
  ghost predicate Legitimate(g: Config, evs: seq<Event>, w: seq<byte>) {
    || (exists n: u32 :: n != HEARTBEAT_NONCE_NODEINFO_PING && w == WriteOf(g, Heartbeat(n)))
    || (exists data, p, msg :: UdpPacket(data) in evs && g.codec.decodePacket(data) == Some(p)
          && Considered(g, p) && ToSerial(g, p) == Some(msg) && w == WriteOf(g, msg))
  }

  lemma {:induction false} WritesAreLegitimate(g: Config, evs: seq<Event>, i: nat)
    requires i <= |evs|
    ensures forall w :: w in StateAt(g, evs, i).written ==> Legitimate(g, evs, w)
  {
    if i == 0 {
    } else {
      WritesAreLegitimate(g, evs, i - 1);
      StateStep(g, evs, i - 1);
      var m, ev := StateAt(g, evs, i - 1), evs[i - 1];
      var n := Dispatch(g, m, ev);
      DispatchWrites(g, m, ev);
      if n.written != m.written {
        var w := n.written[|m.written|];
        assert ev.UdpPacket? ==> UdpPacket(ev.data) in evs;
        assert Legitimate(g, evs, w);
      }
    }
  }

  lemma DispatchWrites(g: Config, m: Main, ev: Event)
    ensures var n := Dispatch(g, m, ev).written;
            || n == m.written
            || (|n| == |m.written| + 1 && n[..|m.written|] == m.written &&
                match ev
                case Tick => NextNonce(m.nonce) != 1 && n[|m.written|] == WriteOf(g, Heartbeat(NextNonce(m.nonce)))
                case UdpPacket(data) =>
                  && g.codec.decodePacket(data).Some?
                  && var p := g.codec.decodePacket(data).value;
                  && Considered(g, p) && ToSerial(g, p).Some?
                  && n[|m.written|] == WriteOf(g, ToSerial(g, p).value)
                case _ => false)
  {
  }

  // ----- from the radio back to the LAN -----

  /** Over every run and whatever the window holds, a packet from the radio goes out to the LAN if and
      only if it is not marked as one that came from there: that its key is remembered does not count. */
  lemma ForwardedUnlessSkipped(g: Config, evs: seq<Event>, i: nat, f: seq<byte>, p: MeshPacket)
    requires i < |evs| && evs[i] == SerialFrame(f) && DecodeFrame(g.codec, f) == PacketFrame(p)
    ensures StateAt(g, evs, i + 1).sent == StateAt(g, evs, i).sent + (if Skipped(p) then [] else [Datagram(g, p)])
    ensures StateAt(g, evs, i + 1).sent == StateAt(g, evs, i).sent <==> Skipped(p)
  {
    hide StateAt, Datagram, DecodeFrame;
    StateStep(g, evs, i);
    assert |StateAt(g, evs, i).sent + [Datagram(g, p)]| == |StateAt(g, evs, i).sent| + 1;
  }

  /** A LAN packet written to the radio in phone mode, and reported by the radio as it was but without
      the LAN stamp, goes back to the LAN as the very datagram it came in. */
  lemma UnstampedPacketBounces(g: Config, f: seq<byte>, p: MeshPacket)
    requires g.ingress.Phone? && SharedChannel(g.channels, g.channels, p, FindIndex(g.channels, p.channel))
    requires g.codec.ReturnsData(p.payload.data)
    requires g.codec.ReturnsPacket(Encrypt(g.codec, g.cipher, g.channels, p))
    requires p.from != 0 && p.from != g.myNodeNum && !Skipped(p)
    requires DecodeFrame(g.codec, f) == PacketFrame(p)
    ensures var data := Datagram(g, p);
            var evs := [UdpPacket(data), SerialFrame(f)];
            && StateAt(g, evs, 1).log == [KeyOf(p)] && WritesPacket(g, evs, 0)
            && StateAt(g, evs, 2).sent == [data]
  {
    var q, data := Encrypt(g.codec, g.cipher, g.channels, p), Datagram(g, p);
    var evs := [UdpPacket(data), SerialFrame(f)];
    RoundTripAcrossBridges(g.codec, g.cipher, g.channels, g.channels, p, FindIndex(g.channels, p.channel));
    assert g.codec.decodePacket(data) == Some(q);
    EncryptedKeepsKey(g, p);
    hide Encrypt, Decrypt, FirstOpener, Opens, SharedChannel, Datagram, DecodeFrame, FindIndex;
    assert Considered(g, q) && ToSerial(g, q).Some?;
    assert evs[..0] == [] && StateAt(g, evs, 0) == START;
    StateStep(g, evs, 0);
    assert |StateAt(g, evs, 1).written| == 1;
    hide StateAt;
    ForwardedUnlessSkipped(g, evs, 1, f, p);
  }

  lemma EncryptedKeepsKey(g: Config, p: MeshPacket)
    requires SharedChannel(g.channels, g.channels, p, FindIndex(g.channels, p.channel))
    ensures var q := Encrypt(g.codec, g.cipher, g.channels, p);
            q.payload.Encrypted? && KeyOf(q) == KeyOf(p)
  {
  }

  const BOUNCED: MeshPacket :=
    MeshPacket(1, BROADCAST_ADDR, 0, 7, Payload.Decoded(Data(1, [], [])), false, OtherTransport(0), [])

  /** A table of one channel, index 0, with a default key. */
  const ONE_CHANNEL: Channels := [FromProto(0, Ascii("LongFast"), [1])]

  lemma BouncedIsShared()
    ensures SharedChannel(ONE_CHANNEL, ONE_CHANNEL, BOUNCED, FindIndex(ONE_CHANNEL, 0))
  {
    hide Ascii, ChannelHash;
    assert |ExpandPsk([1])| == 16;
  }

  /** For every codec that returns these messages and every cipher: a bridge of node 2 with one channel, a
      message of node 1 from the LAN, and the radio's report of it. */
  lemma BounceInstance(c: Codec, E: BlockCipher, f: seq<byte>)
    requires c.ReturnsData(BOUNCED.payload.data) && c.ReturnsPacket(Encrypt(c, E, ONE_CHANNEL, BOUNCED))
    requires c.decodeFromRadio(f) == Some(Packet(BOUNCED))
    ensures var g := Config(c, E, ONE_CHANNEL, Phone, 2);
            var data := Datagram(g, BOUNCED);
            StateAt(g, [UdpPacket(data), SerialFrame(f)], 2).sent == [data]
  {
    hide StateAt, Datagram, SharedChannel, FindIndex, Encrypt, Codec.ReturnsData, Codec.ReturnsPacket;
    BouncedIsShared();
    UnstampedPacketBounces(Config(c, E, ONE_CHANNEL, Phone, 2), f, BOUNCED);
  }
}
