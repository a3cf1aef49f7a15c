/** One session and the loop over sessions: run_session and main of src/main.rs. */
module Supervisor {
  import opened Bytes
  import opened Protocol
  import opened ChannelKeys
  import opened ChannelMerge
  import opened RadioTable
  import opened ChannelInstall
  import opened Bridge
  import Autodetect
  import Crypto
  import Handshake

  type RadioInfo = Handshake.RadioInfo

  /** What wait_for_reboot finds. */
  datatype RebootWait = SawReboot | StayedUp | LostPort

  /** One pass over the candidate ports. */
  datatype PortScan = PortScan(cs: seq<Autodetect.Candidate>, busy: set<Autodetect.Device>)

  /** How a port is opened: by its name, or by scanning until a radio answers. */
  datatype Opening = NamedPort | AutoPort(scans: seq<PortScan>)

  /** What the outside world does in one session. */
  datatype World = World(
    opening: Opening,                     // used unless the port is kept
    setup: Handshake.Setup, firstWriteOk: bool, turns: seq<Handshake.Turn>,
    raven: Option<seq<RavenChannel>>,     // None: other platform, or no readable configuration
    installsAccepted: nat,                // set_channel writes that succeed before one fails
    mqttWriteOk: bool,
    rebootWait: RebootWait,
    bridgeStarts: bool,
    rx: seq<Event>)                       // what the bridge's queue would deliver

  /** What a process has done to the radio and the LAN. */
  datatype Act =
    | SetChannel(channel: Channel)
    | SetMqtt(mqtt: MqttConfig)
    | RunBridge(info: RadioInfo, ingress: Ingress, channels: seq<ChannelKey>,
                sent: seq<seq<byte>>, written: seq<seq<byte>>)  // and what the bridge sent and wrote

  datatype State = State(ingress: Ingress, attempted: bool, acts: seq<Act>)

  // ----- specification -----

  predicate ProxyOn(info: RadioInfo) {
    info.mqtt.Some? && info.mqtt.value.enabled && info.mqtt.value.proxyToClient
  }

  const PROXY_ONLY_ADDRESS: Name := Ascii("127.0.0.1")

  /** The MQTT configuration sent to a radio that does not run the proxy. */
  function ProxyConfig(mqtt: Option<MqttConfig>): MqttConfig {
    var was := if mqtt.Some? then mqtt.value else MqttConfig(false, false, [], []);
    var on := was.(enabled := true, proxyToClient := true);
    if !was.enabled && was.address == [] then on.(address := PROXY_ONLY_ADDRESS) else on
  }

  /** The radio information of the first scan that finds a radio. */
  function Detected(scans: seq<PortScan>): Option<RadioInfo> {
    if scans == [] then None
    else match Autodetect.Detect(scans[0].cs, scans[0].busy)
      case Some(found) => Some(found.info)
      case None => Detected(scans[1..])
  }

  /** The radio information a session starts from: what the scan's probe brought, or else that of a
      handshake of its own. A port kept over a reboot is always asked again. */
  function Info(w: World, keptPort: bool): Option<RadioInfo> {
    if !keptPort && w.opening.AutoPort? then Detected(w.opening.scans)
    else if !w.firstWriteOk then None
    else match Handshake.Play(w.setup, Handshake.Begin(w.setup), w.turns).0.verdict
      case Some(Done(info)) => Some(info)
      case _ => None
  }

  function EnvOf(w: World, info: RadioInfo, ingress: Ingress): Env {
    Env(info.usePreset, info.modemPreset, if w.raven.Some? then w.raven.value else [], ingress.MqttProxy?)
  }

  ghost function Installed(w: World, info: RadioInfo, ingress: Ingress): seq<Channel> {
    var plan := Plan(EnvOf(w, info, ingress), info.channels);
    if w.installsAccepted < |plan| then plan[..w.installsAccepted] else plan
  }

  ghost predicate InstallFails(w: World, info: RadioInfo, ingress: Ingress) {
    w.installsAccepted < |Plan(EnvOf(w, info, ingress), info.channels)|
  }

  function SetChannels(chs: seq<Channel>): (acts: seq<Act>)
    ensures |acts| == |chs|
    ensures forall i :: 0 <= i < |chs| ==> acts[i] == SetChannel(chs[i])
    decreases |chs|
  {
    if chs == [] then [] else SetChannels(chs[..|chs| - 1]) + [SetChannel(chs[|chs| - 1])]
  }

  function EndAfter(g: Config, rx: seq<Event>): SessionEnd {
    var n := Taken(g, rx);
    if n > 0 && EndOf(g, rx[n - 1]).Some? then EndOf(g, rx[n - 1]).value else SerialLost
  }

  /** The state after a session, and how it ended; None is an error. */
  datatype Outcome = Outcome(state: State, end: Option<SessionEnd>)

  /** The bridge of a session, with all it did. */
  function BridgeAct(c: Codec, E: Crypto.BlockCipher, w: World, info: RadioInfo, ingress: Ingress,
                     keys: seq<ChannelKey>): (a: Act)
    ensures a.RunBridge? && a.info == info && a.ingress == ingress && a.channels == keys
  {
    var g := Config(c, E, keys, ingress, info.myNodeNum);
    var m := DispatchAll(g, START, w.rx[..Taken(g, w.rx)]);
    RunBridge(info, ingress, keys, m.sent, m.written)
  }

  function StartBridge(c: Codec, E: Crypto.BlockCipher, w: World, info: RadioInfo, keys: seq<ChannelKey>,
                       s: State): Outcome {
    if !w.bridgeStarts then Outcome(s, None)
    else Outcome(s.(acts := s.acts + [BridgeAct(c, E, w, info, s.ingress, keys)]),
                 Some(EndAfter(Config(c, E, keys, s.ingress, info.myNodeNum), w.rx)))
  }

  /** The rest of a session once its channels are installed. */
  function AfterInstall(c: Codec, E: Crypto.BlockCipher, t: State, w: World, info: RadioInfo,
                        keys: seq<ChannelKey>): Outcome {
    if t.ingress.Phone? || ProxyOn(info) then StartBridge(c, E, w, info, keys, t)
    else if t.attempted then StartBridge(c, E, w, info, keys, t.(ingress := Phone))
    else
      var u := t.(attempted := true, acts := t.acts + [SetMqtt(ProxyConfig(info.mqtt))]);
      if !w.mqttWriteOk then Outcome(u, None)
      else match w.rebootWait
        case SawReboot => Outcome(u, Some(RadioRebooted))
        case StayedUp => StartBridge(c, E, w, info, keys, u.(ingress := Phone))
        case LostPort => Outcome(u, Some(SerialLost))
  }

  ghost function RunSession(c: Codec, E: Crypto.BlockCipher, s: State, w: World, keptPort: bool): Outcome {
    match Info(w, keptPort)
    case None => Outcome(s, None)
    case Some(info) =>
      var keys := Merging(EnvOf(w, info, s.ingress), info.channels).merged;
      var t := s.(acts := s.acts + SetChannels(Installed(w, info, s.ingress)));
      if InstallFails(w, info, s.ingress) then Outcome(t, None)
      else AfterInstall(c, E, t, w, info, keys)
  }

  /** A process: its state, whether it still holds a port, and whether it has exited. */
  datatype Process = Process(state: State, keptPort: bool, exited: bool)

  ghost function OneSession(c: Codec, E: Crypto.BlockCipher, p: Process, w: World): Process {
    if p.exited then p
    else
      var o := RunSession(c, E, p.state, w, p.keptPort);
      Process(o.state, o.end == Some(RadioRebooted), o.end == Some(UdpFailed))
  }

  ghost function Sessions(c: Codec, E: Crypto.BlockCipher, ingress: Ingress, ws: seq<World>): Process
    decreases |ws|
  {
    if ws == [] then Process(State(ingress, false, []), false, false)
    else OneSession(c, E, Sessions(c, E, ingress, ws[..|ws| - 1]), ws[|ws| - 1])
  }

  // ----- the code -----

  class Main {
    const codec: Codec
    const cipher: Crypto.BlockCipher
    var ingress: Ingress
    var mqttSetupAttempted: bool
    var keptPort: bool
    var acts: seq<Act>

    ghost function Value(): State
      reads this
    {
      State(ingress, mqttSetupAttempted, acts)
    }

    constructor (codec: Codec, cipher: Crypto.BlockCipher, ingress: Ingress)
      ensures Value() == State(ingress, false, []) && !keptPort
      ensures this.codec == codec && this.cipher == cipher
    {
      this.codec, this.cipher, this.ingress := codec, cipher, ingress;
      mqttSetupAttempted, keptPort, acts := false, false, [];
    }

    /** Scan until a radio answers. */
    method OpenAuto(scans: seq<PortScan>) returns (info: Option<RadioInfo>)
      ensures info == Detected(scans)
    {
      hide Autodetect.Detect;
      for i := 0 to |scans|
        invariant Detected(scans) == Detected(scans[i..])
      {
        assert scans[i..][1..] == scans[i + 1..];
        var found, tried, writes, at := Autodetect.Scan(scans[i].cs, scans[i].busy);
        if found.Some? {
          return Some(found.value.info);
        }
      }
      return None;
    }

    method GetInfo(w: World) returns (info: Option<RadioInfo>)
      ensures info == Info(w, keptPort)
    {
      hide Autodetect.Detect, Handshake.Play;
      if !keptPort && w.opening.AutoPort? {
        info := OpenAuto(w.opening.scans);
        return;
      }
      var verdict, written, used := Handshake.RunHandshake(w.setup, w.firstWriteOk, w.turns);
      if verdict.Some? && verdict.value.Done? {
        return Some(verdict.value.info);
      }
      return None;
    }

    method InstallChannels(w: World, toInstall: seq<Channel>) returns (ok: bool)
      modifies this`acts
      ensures ok <==> |toInstall| <= w.installsAccepted
      ensures acts == old(acts) + SetChannels(if ok then toInstall else toInstall[..w.installsAccepted])
    {
      for i := 0 to |toInstall|
        invariant i <= w.installsAccepted
        invariant acts == old(acts) + SetChannels(toInstall[..i])
      {
        if i == w.installsAccepted {
          return false;
        }
        assert toInstall[..i + 1][..i] == toInstall[..i];
        acts := acts + [SetChannel(toInstall[i])];
      }
      assert toInstall[..|toInstall|] == toInstall;
      return true;
    }

    method RunOnBridge(w: World, info: RadioInfo, keys: seq<ChannelKey>) returns (end: Option<SessionEnd>)
      modifies this`acts
      ensures Outcome(Value(), end) == StartBridge(codec, cipher, w, info, keys, old(Value()))
    {
      if !w.bridgeStarts {
        return None;
      }
      var g := Config(codec, cipher, keys, ingress, info.myNodeNum);
      var bridge := new Session(g);
      hide DispatchAll, Taken, EndOf;
      var bridgeEnd, taken, nonce := bridge.Run(w.rx);
      acts := acts + [RunBridge(info, ingress, keys, bridge.sent, bridge.written)];
      return Some(bridgeEnd);
    }

    /** Merge with Raven's channels and work out the list to install. */
    method PlanChannels(w: World, info: RadioInfo) returns (keys: seq<ChannelKey>, toInstall: seq<Channel>)
      ensures var e := EnvOf(w, info, ingress);
              keys == Merging(e, info.channels).merged && toInstall == Plan(e, info.channels)
    {
      hide MergeAll, AllDownlink, Missing, PresetName;
      keys := KeysOf(info.channels, info.usePreset, info.modemPreset);
      toInstall := [];
      if w.raven.Some? {
        keys, toInstall := MergeChannels(keys, w.raven.value, info.modemPreset);
      } else {
        NoRaven(keys, PresetName(info.modemPreset));
      }
      toInstall := PlanInstall(ingress.MqttProxy?, info.channels, toInstall);
    }

    method Session(w: World) returns (end: Option<SessionEnd>)
      modifies this`acts, this`ingress, this`mqttSetupAttempted
      ensures Outcome(Value(), end) == RunSession(codec, cipher, old(Value()), w, keptPort)
    {
      hide Info, Merging, Plan, StartBridge, ProxyConfig, EnvOf;
      var info := GetInfo(w);
      if info == None {
        return None;
      }
      var keys, toInstall := PlanChannels(w, info.value);
      var ok := InstallChannels(w, toInstall);
      if !ok {
        return None;
      }
      if ingress.MqttProxy? && !ProxyOn(info.value) {
        if mqttSetupAttempted {
          ingress := Phone;
        } else {
          mqttSetupAttempted := true;
          acts := acts + [SetMqtt(ProxyConfig(info.value.mqtt))];
          if !w.mqttWriteOk {
            return None;
          }
          match w.rebootWait
          case SawReboot => return Some(RadioRebooted);
          case StayedUp => ingress := Phone;
          case LostPort => return Some(SerialLost);
        }
      }
      end := RunOnBridge(w, info.value, keys);
    }

    /** The loop over sessions; it stops early only when the process exits. */
    method Loop(ws: seq<World>) returns (exited: bool)
      requires acts == [] && !mqttSetupAttempted && !keptPort
      modifies this
      ensures Process(Value(), keptPort, exited) == Sessions(codec, cipher, old(ingress), ws)
    {
      hide RunSession;
      exited := false;
      for i := 0 to |ws|
        invariant Process(Value(), keptPort, exited) == Sessions(codec, cipher, old(ingress), ws[..i])
      {
        assert ws[..i + 1][..i] == ws[..i];
        if !exited {
          var end := Session(ws[i]);
          keptPort := end == Some(RadioRebooted);
          exited := end == Some(UdpFailed);
        }
      }
      assert ws[..|ws|] == ws;
    }
  }

  lemma NoRaven(keys: seq<ChannelKey>, default: Name)
    ensures MergeAll(keys, [], default).merged == keys && MergeAll(keys, [], default).toInstall == []
  {
  }
}
