/** What a process does, session by session, said of reports, acts and events alone. */
module SupervisorEvents {
  import opened Bytes
  import opened Protocol
  import opened ChannelMerge
  import opened ChannelInstall
  import opened Bridge
  import opened Supervisor
  import opened SupervisorRuns
  import Autodetect
  import BridgeDuplicates
  import BridgeEvents
  import BridgeRuns
  import Crypto
  import Handshake
  import SF = SerialFraming

  // ----- the information a session starts from -----

  /** A named port, or one kept over a reboot, is asked by a handshake of the session's own. */
  lemma HandshakeInfoExactly(w: World, keptPort: bool, info: RadioInfo)
    requires keptPort || w.opening.NamedPort?
    ensures var o := Handshake.Play(w.setup, Handshake.Begin(w.setup), w.turns).0;
            Info(w, keptPort) == Some(info) <==> w.firstWriteOk && o.verdict == Some(Handshake.Done(info))
  {
    hide Handshake.Play, Handshake.Begin;
  }

  /** In auto mode it is what the first scan that finds a radio found. */
  lemma ScannedInfoExactly(w: World)
    requires w.opening.AutoPort?
    ensures var scans := w.opening.scans;
            && (Info(w, false) == None <==>
                  forall k :: 0 <= k < |scans| ==> Autodetect.Detect(scans[k].cs, scans[k].busy) == None)
            && (Info(w, false).Some? ==>
                  exists k :: 0 <= k < |scans| && Autodetect.Detect(scans[k].cs, scans[k].busy).Some?
                    && Autodetect.Detect(scans[k].cs, scans[k].busy).value.info == Info(w, false).value
                    && forall j :: 0 <= j < k ==> Autodetect.Detect(scans[j].cs, scans[j].busy) == None)
  {
    hide Autodetect.Detect;
    FirstScan(w.opening.scans);
  }

  lemma {:induction false} FirstScan(scans: seq<PortScan>)
    ensures Detected(scans) == None <==>
      forall k :: 0 <= k < |scans| ==> Autodetect.Detect(scans[k].cs, scans[k].busy) == None
    ensures Detected(scans).Some? ==>
      exists k :: 0 <= k < |scans| && Autodetect.Detect(scans[k].cs, scans[k].busy).Some?
        && Autodetect.Detect(scans[k].cs, scans[k].busy).value.info == Detected(scans).value
        && forall j :: 0 <= j < k ==> Autodetect.Detect(scans[j].cs, scans[j].busy) == None
  {
    hide Autodetect.Detect;
    if scans == [] {
    } else if Autodetect.Detect(scans[0].cs, scans[0].busy).Some? {
    } else {
      var rest := scans[1..];
      FirstScan(rest);
      assert forall k :: 0 < k < |scans| ==> scans[k] == rest[k - 1];
      if Detected(rest).Some? {
        var k :| 0 <= k < |rest| && Autodetect.Detect(rest[k].cs, rest[k].busy).Some?
          && Autodetect.Detect(rest[k].cs, rest[k].busy).value.info == Detected(rest).value
          && forall j :: 0 <= j < k ==> Autodetect.Detect(rest[j].cs, rest[j].busy) == None;
        assert scans[k + 1] == rest[k];
      }
    }
  }

  // ----- what a bridge does -----

  /** The events a session's bridge takes: up to and including the first that ends it. */
  ghost predicate Taking(g: Config, rx: seq<Event>, n: nat) {
    && n <= |rx|
    && (forall j :: 0 <= j < n - 1 ==> !BridgeEvents.Ends(g.codec, rx[j]))
    && (n == |rx| || (n > 0 && BridgeEvents.Ends(g.codec, rx[n - 1])))
  }

  /** The session of an act a: a bridge of a's channels, ingress and node number did, with the events that the
      session's queue delivered, what a records. */
  ghost predicate DoneByBridge(c: Codec, E: Crypto.BlockCipher, a: Act, rx: seq<Event>, n: nat)
    requires a.RunBridge?
  {
    var g := Config(c, E, a.channels, a.ingress, a.info.myNodeNum);
    && Taking(g, rx, n)
    && a.sent == BridgeDuplicates.StateAt(g, rx, n).sent
    && a.written == BridgeDuplicates.StateAt(g, rx, n).written
  }

  lemma TakenIsTaking(g: Config, rx: seq<Event>)
    ensures Taking(g, rx, Taken(g, rx))
  {
    var n := Taken(g, rx);
    hide EndOf, Taken, BridgeEvents.Ends;
    forall j | 0 <= j < |rx|
      ensures EndOf(g, rx[j]).Some? <==> BridgeEvents.Ends(g.codec, rx[j])
    {
      BridgeEvents.EndOfExactly(g, rx[j]);
    }
  }

  lemma BridgeActExactly(c: Codec, E: Crypto.BlockCipher, w: World, info: RadioInfo, ingress: Ingress,
                         keys: PacketKeys)
    ensures exists n :: DoneByBridge(c, E, BridgeAct(c, E, w, info, ingress, keys), w.rx, n)
  {
    var g := Config(c, E, keys, ingress, info.myNodeNum);
    var n := Taken(g, w.rx);
    TakenIsTaking(g, w.rx);
    hide Taken, DispatchAll, Taking;
    assert DoneByBridge(c, E, BridgeAct(c, E, w, info, ingress, keys), w.rx, n);
  }

  lemma SessionActExactly(c: Codec, E: Crypto.BlockCipher, s: State, w: World, keptPort: bool, k: nat)
    requires var acts := RunSession(c, E, s, w, keptPort).state.acts;
             |s.acts| <= k < |acts| && acts[k].RunBridge?
    ensures var a := RunSession(c, E, s, w, keptPort).state.acts[k];
            && Info(w, keptPort) == Some(a.info)
            && a == BridgeAct(c, E, w, a.info, a.ingress, a.channels)
            && a.channels == Merging(EnvOf(w, a.info, s.ingress), a.info.channels).merged
  {
    hide Info, Merging, Plan, EnvOf, Installed, InstallFails, EndAfter, BridgeAct, ProxyConfig, ProxyOn, SetChannels;
  }

  /** Over any run, every bridge act of a session is done by a bridge of that act's channels, ingress and node
      number on that session's events, on the merged channels of that session's report. */
  lemma BridgesDoWhatTheyRecord(c: Codec, E: Crypto.BlockCipher, start: Ingress, ws: seq<World>, i: nat, k: nat)
    requires DoneIn(c, E, start, ws, i, k)
    ensures k < |Sessions(c, E, start, ws).state.acts|
    ensures var a, p := Sessions(c, E, start, ws).state.acts[k], Sessions(c, E, start, ws[..i]);
            a.RunBridge? ==>
              && Info(ws[i], p.keptPort) == Some(a.info)
              && a.channels == Merging(EnvOf(ws[i], a.info, p.state.ingress), a.info.channels).merged
              && exists n :: DoneByBridge(c, E, a, ws[i].rx, n)
  {
    hide RunSession, Info, Merging, EnvOf, BridgeAct, DoneByBridge;
    IngressOnlyFallsBack(c, E, start, ws, i + 1);
    assert ws[..i + 1][..i] == ws[..i];
    var p, a := Sessions(c, E, start, ws[..i]), Sessions(c, E, start, ws).state.acts[k];
    if a.RunBridge? {
      SessionActExactly(c, E, p.state, ws[i], p.keptPort, k);
      BridgeActExactly(c, E, ws[i], a.info, a.ingress, a.channels);
    }
  }

  /** The datagrams of such an act are those its frames call for under its channels; everything it wrote is a
      heartbeat, or a LAN packet not from its node: as a proxy message in proxy mode, as a packet in phone mode. */
  lemma BridgeTraffic(c: Codec, E: Crypto.BlockCipher, a: Act, rx: seq<Event>, n: nat)
    requires a.RunBridge? && DoneByBridge(c, E, a, rx, n)
    ensures a.sent == BridgeRuns.Forwarded(c, E, a.channels, BridgeRuns.SerialFrames(rx[..n]))
    ensures forall w :: w in a.written ==> Heartbeats(c, w) || FromLan(c, a, rx, w)
  {
    var g := Config(c, E, a.channels, a.ingress, a.info.myNodeNum);
    var evs := rx[..n];
    assert BridgeRuns.OneSession(g, evs) by {
      forall j | 0 <= j < |evs| - 1
        ensures EndOf(g, evs[j]) == None
      {
        BridgeEvents.EndOfExactly(g, evs[j]);
      }
    }
    BridgeRuns.SentIsForwarded(g, evs);
    BridgeDuplicates.WritesAreLegitimate(g, rx, n);
    hide BridgeRuns.Forwarded, DispatchAll, BridgeRuns.SerialFrames, BridgeDuplicates.Legitimate;
    forall w | w in a.written
      ensures Heartbeats(c, w) || FromLan(c, a, rx, w)
    {
      LegitimateWrite(c, E, a, rx, w);
    }
  }

  ghost predicate Heartbeats(c: Codec, w: seq<byte>) {
    exists n: u32 :: n != 1 && w == SF.FramePayload(c.encodeToRadio(Heartbeat(n)))
  }

  ghost predicate FromLan(c: Codec, a: Act, rx: seq<Event>, w: seq<byte>)
    requires a.RunBridge?
  {
    exists data, p, msg :: UdpPacket(data) in rx && c.decodePacket(data) == Some(p)
      && p.payload.Encrypted? && p.from != 0 && p.from != a.info.myNodeNum
      && w == SF.FramePayload(c.encodeToRadio(msg))
      && (if a.ingress.MqttProxy? then msg.MqttProxyMessage? else msg.SendPacket?)
  }

  lemma LegitimateWrite(c: Codec, E: Crypto.BlockCipher, a: Act, rx: seq<Event>, w: seq<byte>)
    requires a.RunBridge?
    requires BridgeDuplicates.Legitimate(Config(c, E, a.channels, a.ingress, a.info.myNodeNum), rx, w)
    ensures Heartbeats(c, w) || FromLan(c, a, rx, w)
  {
    hide SF.FramePayload, ToSerial;
    var g := Config(c, E, a.channels, a.ingress, a.info.myNodeNum);
    if !Heartbeats(c, w) {
      var data, p, msg :| UdpPacket(data) in rx && g.codec.decodePacket(data) == Some(p)
        && Considered(g, p) && ToSerial(g, p) == Some(msg) && w == WriteOf(g, msg);
      ToSerialKind(g, p);
      hide Heartbeats, BridgeDuplicates.Legitimate;
      assert FromLan(c, a, rx, w);
    }
  }

  lemma ToSerialKind(g: Config, p: MeshPacket)
    ensures var m := ToSerial(g, p);
            m.Some? ==> if g.ingress.MqttProxy? then m.value.MqttProxyMessage? else m.value.SendPacket?
  {
    hide DownlinkChannelId, Ascii;
  }

  // ----- how a session goes on -----

  /** A session that has installed its list runs a bridge if packets enter as a phone's or the report has both
      MQTT flags; falls back to phone mode with a bridge if setting MQTT up was tried before; and otherwise
      tries, and goes on in phone mode only if the radio stays up. */
  lemma SetupExactly(c: Codec, E: Crypto.BlockCipher, s: State, w: World, keptPort: bool, info: RadioInfo)
    requires Info(w, keptPort) == Some(info) && !InstallFails(w, info, s.ingress)
    ensures var o := RunSession(c, E, s, w, keptPort);
            var n := |s.acts| + |Installed(w, info, s.ingress)|;
            var ready := s.ingress.Phone?
                      || (info.mqtt.Some? && info.mqtt.value.enabled && info.mqtt.value.proxyToClient);
            && n <= |o.state.acts|
            && (ready || s.attempted ==>
                  && o.state.attempted == s.attempted
                  && o.state.ingress == (if ready then s.ingress else Phone)
                  && (if w.bridgeStarts then |o.state.acts| == n + 1 && o.state.acts[n].RunBridge?
                        && o.state.acts[n].ingress == o.state.ingress
                      else |o.state.acts| == n && o.end == None))
            && (!ready && !s.attempted ==>
                  && o.state.attempted && n < |o.state.acts| && o.state.acts[n].SetMqtt?
                  && (if w.mqttWriteOk && w.rebootWait.StayedUp? then
                        && o.state.ingress.Phone?
                        && (if w.bridgeStarts then |o.state.acts| == n + 2 && o.state.acts[n + 1].RunBridge?
                              && o.state.acts[n + 1].ingress.Phone?
                            else |o.state.acts| == n + 1 && o.end == None)
                      else
                        && |o.state.acts| == n + 1 && o.state.ingress == s.ingress
                        && o.end == (if !w.mqttWriteOk then None
                                     else if w.rebootWait.SawReboot? then Some(RadioRebooted) else Some(SerialLost))))
  {
    hide Info, Merging, Plan, EnvOf, Installed, InstallFails, EndAfter, BridgeAct, ProxyConfig;
  }

  /** Without Raven's list a session in phone mode installs nothing and its bridge runs on the radio's channels. */
  lemma WithoutRaven(w: World, info: RadioInfo)
    requires w.raven == None
    ensures Installed(w, info, Phone) == []
    ensures Merging(EnvOf(w, info, Phone), info.channels).merged
         == KeysOf(info.channels, info.usePreset, info.modemPreset)
  {
    hide KeysOf;
    var e := EnvOf(w, info, Phone);
    assert e.raven == [];
    NoRaven(Keys(e, info.channels), e.Default());
    assert Plan(e, info.channels) == [];
  }

  // ----- the MQTT configuration -----

  /** What is sent has both flags on and keeps all else, but for the address of a radio that had MQTT off and no
      address: it gets 127.0.0.1, so that the radio does not connect to the public server. */
  ghost predicate TurnsProxyOn(reported: Option<MqttConfig>, sent: MqttConfig) {
    && sent.enabled && sent.proxyToClient
    && sent.rest == (if reported.Some? then reported.value.rest else [])
    && var address := if reported.Some? then reported.value.address else [];
    sent.address ==
      if (reported == None || !reported.value.enabled) && |address| == 0
      then [0x31, 0x32, 0x37, 0x2E, 0x30, 0x2E, 0x30, 0x2E, 0x31] else address
  }

  lemma ProxyConfigExactly(reported: Option<MqttConfig>)
    ensures TurnsProxyOn(reported, ProxyConfig(reported))
  {
    assert PROXY_ONLY_ADDRESS == [0x31, 0x32, 0x37, 0x2E, 0x30, 0x2E, 0x30, 0x2E, 0x31];
  }

  lemma SessionMqttExactly(c: Codec, E: Crypto.BlockCipher, s: State, w: World, keptPort: bool, k: nat)
    requires var acts := RunSession(c, E, s, w, keptPort).state.acts;
             |s.acts| <= k < |acts| && acts[k].SetMqtt?
    ensures Info(w, keptPort).Some? && s.ingress.MqttProxy? && !s.attempted
    ensures var info := Info(w, keptPort).value;
            && !(info.mqtt.Some? && info.mqtt.value.enabled && info.mqtt.value.proxyToClient)
            && RunSession(c, E, s, w, keptPort).state.acts[k].mqtt == ProxyConfig(info.mqtt)
  {
    hide Info, Merging, Plan, EnvOf, Installed, InstallFails, EndAfter, BridgeAct, ProxyConfig;
  }

  /** Over any run the configuration is only sent to a radio reported without both flags, by a session that began
      in proxy mode, and turns them on. */
  lemma MqttIsTurnedOn(c: Codec, E: Crypto.BlockCipher, start: Ingress, ws: seq<World>, i: nat, k: nat)
    requires DoneIn(c, E, start, ws, i, k)
    ensures k < |Sessions(c, E, start, ws).state.acts|
    ensures var a, p := Sessions(c, E, start, ws).state.acts[k], Sessions(c, E, start, ws[..i]);
            a.SetMqtt? ==>
              && p.state.ingress.MqttProxy? && Info(ws[i], p.keptPort).Some?
              && var mqtt := Info(ws[i], p.keptPort).value.mqtt;
              && !(mqtt.Some? && mqtt.value.enabled && mqtt.value.proxyToClient)
              && TurnsProxyOn(mqtt, a.mqtt)
  {
    hide RunSession, Info, ProxyConfig, TurnsProxyOn;
    IngressOnlyFallsBack(c, E, start, ws, i + 1);
    assert ws[..i + 1][..i] == ws[..i];
    var p := Sessions(c, E, start, ws[..i]);
    if Sessions(c, E, start, ws).state.acts[k].SetMqtt? {
      SessionMqttExactly(c, E, p.state, ws[i], p.keptPort, k);
      ProxyConfigExactly(Info(ws[i], p.keptPort).value.mqtt);
    }
  }

  // ----- the end of a session -----

  lemma EndAfterExactly(g: Config, rx: seq<Event>)
    ensures EndAfter(g, rx) == UdpFailed <==> exists i: nat :: BridgeEvents.EndsAt(g.codec, rx, i) && rx[i] == UdpError
    ensures EndAfter(g, rx) == RadioRebooted <==>
      exists i: nat :: BridgeEvents.EndsAt(g.codec, rx, i) && rx[i].SerialFrame?
  {
    BridgeEvents.TakesExactly(g, rx);
    hide EndOf, Taken, BridgeEvents.Ends;
    var n := Taken(g, rx);
    if n > 0 && EndOf(g, rx[n - 1]).Some? {
      forall j | 0 <= j < n
        ensures EndOf(g, rx[j]).Some? <==> BridgeEvents.Ends(g.codec, rx[j])
      {
        BridgeEvents.EndOfExactly(g, rx[j]);
      }
      assert BridgeEvents.EndsAt(g.codec, rx, n - 1);
    }
  }

  /** The session from s to t ran a bridge, as its last act. */
  ghost predicate Bridged(s: State, t: State) {
    |s.acts| < |t.acts| && t.acts[|t.acts| - 1].RunBridge?
  }

  /** How a session ends that ran a bridge, and how one that did not. */
  lemma RunEndsExactly(c: Codec, E: Crypto.BlockCipher, s: State, w: World, keptPort: bool)
    ensures var o := RunSession(c, E, s, w, keptPort);
            && s.acts <= o.state.acts
            && (if Bridged(s, o.state) then
                  exists ingress, keys, node :: o.end == Some(EndAfter(Config(c, E, keys, ingress, node), w.rx))
                else
                  && o.end != Some(UdpFailed)
                  && (o.end == Some(RadioRebooted) <==>
                        !s.attempted && o.state.attempted && w.mqttWriteOk && w.rebootWait.SawReboot?))
  {
    SessionOnlyFallsBack(c, E, s, w, keptPort);
    hide Info, Merging, Plan, EnvOf, Installed, InstallFails, EndAfter, AfterInstall, SetChannels, Bridged;
    var i := Info(w, keptPort);
    if i == None {
      NothingBridged(s, s, []);
    } else {
      var info := i.value;
      var chs := Installed(w, info, s.ingress);
      var t := s.(acts := s.acts + SetChannels(chs));
      if InstallFails(w, info, s.ingress) {
        NothingBridged(s, t, chs);
      } else {
        InstalledEndsExactly(c, E, s, t, w, info, Merging(EnvOf(w, info, s.ingress), info.channels).merged, chs);
      }
    }
  }

  lemma NothingBridged(s: State, t: State, chs: seq<Channel>)
    requires t.acts == s.acts + SetChannels(chs)
    ensures !Bridged(s, t)
  {
  }

  lemma InstalledEndsExactly(c: Codec, E: Crypto.BlockCipher, s: State, t: State, w: World, info: RadioInfo,
                             keys: PacketKeys, chs: seq<Channel>)
    requires t == s.(acts := s.acts + SetChannels(chs))
    ensures var o := AfterInstall(c, E, t, w, info, keys);
            if Bridged(s, o.state) then
              exists ingress, keys, node :: o.end == Some(EndAfter(Config(c, E, keys, ingress, node), w.rx))
            else
              && o.end != Some(UdpFailed)
              && (o.end == Some(RadioRebooted) <==>
                    !s.attempted && o.state.attempted && w.mqttWriteOk && w.rebootWait.SawReboot?)
  {
    NothingBridged(s, t, chs);
    hide EndAfter, BridgeAct, ProxyConfig, ProxyOn, SetChannels;
    var end := EndAfter(Config(c, E, keys, t.ingress, info.myNodeNum), w.rx);
    var phoneEnd := EndAfter(Config(c, E, keys, Phone, info.myNodeNum), w.rx);
  }

  /** The process exits if and only if a bridge ends on an error of the LAN socket. It keeps its port if and only
      if a bridge ends on a reboot message, or the radio reboots after being set up. */
  lemma SessionEndsExactly(c: Codec, E: Crypto.BlockCipher, p: Process, w: World)
    requires !p.exited
    ensures var q := OneSession(c, E, p, w);
            && (q.exited <==>
                  (Bridged(p.state, q.state)
                   && exists i: nat :: BridgeEvents.EndsAt(c, w.rx, i) && w.rx[i] == UdpError))
            && (q.keptPort <==>
                  (if Bridged(p.state, q.state)
                   then exists i: nat :: BridgeEvents.EndsAt(c, w.rx, i) && w.rx[i].SerialFrame?
                   else !p.state.attempted && q.state.attempted && w.mqttWriteOk && w.rebootWait.SawReboot?))
  {
    hide RunSession, EndAfter, Bridged, BridgeEvents.EndsAt;
    RunEndsExactly(c, E, p.state, w, p.keptPort);
    var o := RunSession(c, E, p.state, w, p.keptPort);
    if Bridged(p.state, o.state) {
      var ingress, keys, node :| o.end == Some(EndAfter(Config(c, E, keys, ingress, node), w.rx));
      EndAfterExactly(Config(c, E, keys, ingress, node), w.rx);
    }
  }

  /** An exited process does nothing more. */
  lemma ExitedStays(c: Codec, E: Crypto.BlockCipher, p: Process, w: World)
    requires p.exited
    ensures OneSession(c, E, p, w) == p
  {
  }
}
