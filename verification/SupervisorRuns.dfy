/** Whole runs of the process: every list of sessions, whatever the world does in each. */
module SupervisorRuns {
  import opened Bytes
  import opened Protocol
  import opened ChannelMerge
  import opened ChannelInstall
  import opened Bridge
  import opened Supervisor
  import opened RadioTable
  import ChannelKeys
  import Convergence
  import Crypto

  type PacketKeys = seq<ChannelKeys.ChannelKey>

  function MqttSends(acts: seq<Act>): nat
    decreases |acts|
  {
    if acts == [] then 0 else MqttSends(acts[..|acts| - 1]) + (if acts[|acts| - 1].SetMqtt? then 1 else 0)
  }

  /** Bridges run in proxy mode first and in phone mode after, never back. */
  ghost predicate ProxyFirst(acts: seq<Act>) {
    forall i, j :: 0 <= i < j < |acts| && acts[i].RunBridge? && acts[j].RunBridge? && acts[j].ingress.MqttProxy? ==>
      acts[i].ingress.MqttProxy?
  }

  ghost predicate Inv(start: Ingress, s: State) {
    && (start.Phone? ==> s.ingress.Phone? && !s.attempted)
    && MqttSends(s.acts) == (if s.attempted then 1 else 0)
    && (forall a :: a in s.acts && a.RunBridge? && a.ingress.Phone? ==> s.ingress.Phone?)
    && ProxyFirst(s.acts)
  }

  lemma InvSetChannels(start: Ingress, s: State, chs: seq<Channel>)
    requires Inv(start, s)
    ensures Inv(start, s.(acts := s.acts + SetChannels(chs)))
  {
    QuietActs(s.acts, SetChannels(chs));
    var all := s.acts + SetChannels(chs);
    assert forall a :: a in all && !a.SetChannel? ==> a in s.acts;
    assert forall i :: |s.acts| <= i < |all| ==> all[i].SetChannel?;
  }

  lemma {:induction false} QuietActs(acts: seq<Act>, more: seq<Act>)
    requires forall a :: a in more ==> a.SetChannel?
    ensures MqttSends(acts + more) == MqttSends(acts)
    decreases |more|
  {
    if more == [] {
      assert acts + more == acts;
    } else {
      assert more[|more| - 1] in more;
      assert (acts + more)[..|acts + more| - 1] == acts + more[..|more| - 1];
      QuietActs(acts, more[..|more| - 1]);
    }
  }

  lemma InvSetMqtt(start: Ingress, s: State, mqtt: MqttConfig)
    requires Inv(start, s) && s.ingress.MqttProxy? && !s.attempted
    ensures Inv(start, s.(attempted := true, acts := s.acts + [SetMqtt(mqtt)]))
  {
    assert (s.acts + [SetMqtt(mqtt)])[..|s.acts|] == s.acts;
  }

  lemma InvFallback(start: Ingress, s: State)
    requires Inv(start, s)
    ensures Inv(start, s.(ingress := Phone))
  {
  }

  lemma InvRunBridge(start: Ingress, s: State, a: Act)
    requires Inv(start, s) && a.RunBridge? && a.ingress == s.ingress
    ensures Inv(start, s.(acts := s.acts + [a]))
  {
    var acts := s.acts + [a];
    assert acts[..|s.acts|] == s.acts;
    forall i, j | 0 <= i < j < |acts| && acts[i].RunBridge? && acts[j].RunBridge? && acts[j].ingress.MqttProxy?
      ensures acts[i].ingress.MqttProxy?
    {
      assert acts[i] in s.acts;
    }
  }

  lemma InvAfterInstall(start: Ingress, c: Codec, E: Crypto.BlockCipher, t: State, w: World, info: RadioInfo,
                        keys: PacketKeys)
    requires Inv(start, t)
    ensures Inv(start, AfterInstall(c, E, t, w, info, keys).state)
  {
    if t.ingress.Phone? || ProxyOn(info) {
      InvRunBridge(start, t, BridgeAct(c, E, w, info, t.ingress, keys));
    } else {
      var u := t.(attempted := true, acts := t.acts + [SetMqtt(ProxyConfig(info.mqtt))]);
      var b := if t.attempted then t else u;
      if !t.attempted {
        InvSetMqtt(start, t, ProxyConfig(info.mqtt));
      }
      InvFallback(start, b);
      InvRunBridge(start, b.(ingress := Phone), BridgeAct(c, E, w, info, Phone, keys));
    }
    hide Inv, EndAfter, BridgeAct, ProxyConfig, ProxyOn;
  }

  lemma InvSession(start: Ingress, c: Codec, E: Crypto.BlockCipher, s: State, w: World, keptPort: bool)
    requires Inv(start, s)
    ensures Inv(start, RunSession(c, E, s, w, keptPort).state)
  {
    hide Info, Merging, Inv, Plan, EnvOf, Installed, InstallFails, AfterInstall, SetChannels;
    var i := Info(w, keptPort);
    if i.Some? {
      var info := i.value;
      var chs := Installed(w, info, s.ingress);
      InvSetChannels(start, s, chs);
      InvAfterInstall(start, c, E, s.(acts := s.acts + SetChannels(chs)), w, info,
                      Merging(EnvOf(w, info, s.ingress), info.channels).merged);
    }
  }

  lemma {:induction false} InvSessions(c: Codec, E: Crypto.BlockCipher, start: Ingress, ws: seq<World>)
    ensures Inv(start, Sessions(c, E, start, ws).state)
    decreases |ws|
  {
    hide RunSession, Inv;
    if ws == [] {
      StartInv(start);
    } else {
      var n := |ws| - 1;
      InvSessions(c, E, start, ws[..n]);
      var p := Sessions(c, E, start, ws[..n]);
      InvSession(start, c, E, p.state, ws[n], p.keptPort);
    }
  }

  lemma StartInv(start: Ingress)
    ensures Inv(start, State(start, false, []))
  {
  }

  // ----- the theorems -----

  lemma SessionOnlyFallsBack(c: Codec, E: Crypto.BlockCipher, s: State, w: World, keptPort: bool)
    ensures var t := RunSession(c, E, s, w, keptPort).state;
            && (s.ingress.Phone? ==> t.ingress.Phone?) && (s.attempted ==> t.attempted) && s.acts <= t.acts
  {
    hide Info, Merging, Plan, EnvOf, Installed, InstallFails, EndAfter, BridgeAct, ProxyConfig, ProxyOn, SetChannels;
  }

  /** The way packets enter the radio changes at most once over a run, and only from proxy to phone. */
  lemma {:induction false} IngressOnlyFallsBack(c: Codec, E: Crypto.BlockCipher, start: Ingress, ws: seq<World>, i: nat)
    requires i <= |ws|
    ensures var early, late := Sessions(c, E, start, ws[..i]).state, Sessions(c, E, start, ws).state;
            && (early.ingress.Phone? ==> late.ingress.Phone?)
            && (early.attempted ==> late.attempted)
            && early.acts <= late.acts
    decreases |ws|
  {
    if i == |ws| {
      assert ws[..i] == ws;
    } else {
      var n := |ws| - 1;
      assert ws[..n][..i] == ws[..i];
      IngressOnlyFallsBack(c, E, start, ws[..n], i);
      var p := Sessions(c, E, start, ws[..n]);
      SessionOnlyFallsBack(c, E, p.state, ws[n], p.keptPort);
      hide RunSession;
    }
  }

  /** Act k of the run is done in session i. */
  ghost predicate DoneIn(c: Codec, E: Crypto.BlockCipher, start: Ingress, ws: seq<World>, i: nat, k: nat) {
    && i < |ws|
    && |Sessions(c, E, start, ws[..i]).state.acts| <= k < |Sessions(c, E, start, ws[..i + 1]).state.acts|
  }

  lemma {:induction false} EveryActIsDone(c: Codec, E: Crypto.BlockCipher, start: Ingress, ws: seq<World>, k: nat)
    requires k < |Sessions(c, E, start, ws).state.acts|
    ensures exists i: nat :: DoneIn(c, E, start, ws, i, k)
    decreases |ws|
  {
    hide OneSession;
    assert ws != [];
    hide Sessions;
    var n := |ws| - 1;
    var init := ws[..n];
    assert ws[..n + 1] == ws;
    if k < |Sessions(c, E, start, init).state.acts| {
      EveryActIsDone(c, E, start, init, k);
      var i: nat :| DoneIn(c, E, start, init, i, k);
      assert init[..i] == ws[..i] && init[..i + 1] == ws[..i + 1];
      assert DoneIn(c, E, start, ws, i, k);
    } else {
      assert DoneIn(c, E, start, ws, n, k);
    }
  }

  /** A session runs a bridge on the information it started from, in proxy mode only if that says that
      both MQTT flags are on, on the merged channels, and only with everything installed. */
  lemma SessionBridges(c: Codec, E: Crypto.BlockCipher, s: State, w: World, keptPort: bool, k: nat)
    requires var acts := RunSession(c, E, s, w, keptPort).state.acts;
             |s.acts| <= k < |acts| && acts[k].RunBridge?
    ensures var a := RunSession(c, E, s, w, keptPort).state.acts[k];
            && Info(w, keptPort) == Some(a.info)
            && (a.ingress.MqttProxy? ==> ProxyOn(a.info))
            && a.channels == Merging(EnvOf(w, a.info, s.ingress), a.info.channels).merged
            && !InstallFails(w, a.info, s.ingress)
  {
    hide Info, Merging, Plan, EnvOf, Installed, InstallFails, EndAfter, BridgeAct, ProxyConfig, ProxyOn, SetChannels;
  }

  /** Act k is done by session i, which got this information from its own handshake or scan. */
  ghost predicate ReportedIn(c: Codec, E: Crypto.BlockCipher, start: Ingress, ws: seq<World>, i: nat, k: nat,
                             info: RadioInfo) {
    DoneIn(c, E, start, ws, i, k) && Info(ws[i], Sessions(c, E, start, ws[..i]).keptPort) == Some(info)
  }

  lemma BridgeFollowsReport(c: Codec, E: Crypto.BlockCipher, start: Ingress, ws: seq<World>, i: nat, k: nat)
    requires DoneIn(c, E, start, ws, i, k)
    ensures k < |Sessions(c, E, start, ws).state.acts|
    ensures var a := Sessions(c, E, start, ws).state.acts[k];
            a.RunBridge? ==> ReportedIn(c, E, start, ws, i, k, a.info) && (a.ingress.MqttProxy? ==> ProxyOn(a.info))
  {
    hide RunSession, Info, ProxyOn;
    IngressOnlyFallsBack(c, E, start, ws, i + 1);
    assert ws[..i + 1][..i] == ws[..i];
    var p := Sessions(c, E, start, ws[..i]);
    if Sessions(c, E, start, ws).state.acts[k].RunBridge? {
      SessionBridges(c, E, p.state, ws[i], p.keptPort, k);
    }
  }

  /** Over any run: the MQTT configuration is sent at most once; every bridge runs on the information that
      the handshake or scan of its own session brought, in proxy mode only if that says that both MQTT
      flags are on; and no bridge runs in proxy mode after one in phone mode. */
  lemma SupervisorSafety(c: Codec, E: Crypto.BlockCipher, start: Ingress, ws: seq<World>)
    ensures var acts := Sessions(c, E, start, ws).state.acts;
            && MqttSends(acts) <= 1
            && (start.Phone? ==> MqttSends(acts) == 0)
            && (forall k: nat :: k < |acts| && acts[k].RunBridge? ==>
                  && var mqtt := acts[k].info.mqtt;
                  && (acts[k].ingress.MqttProxy? ==> mqtt.Some? && mqtt.value.enabled && mqtt.value.proxyToClient)
                  && exists i :: ReportedIn(c, E, start, ws, i, k, acts[k].info))
            && ProxyFirst(acts)
  {
    InvSessions(c, E, start, ws);
    hide Sessions, ReportedIn, DoneIn;
    var acts := Sessions(c, E, start, ws).state.acts;
    forall k: nat | k < |acts| && acts[k].RunBridge?
      ensures acts[k].ingress.MqttProxy? ==> ProxyOn(acts[k].info)
      ensures exists i :: ReportedIn(c, E, start, ws, i, k, acts[k].info)
    {
      EveryActIsDone(c, E, start, ws, k);
      var i: nat :| DoneIn(c, E, start, ws, i, k);
      BridgeFollowsReport(c, E, start, ws, i, k);
    }
  }

  /** The session had its radio information, installed everything and could have started a bridge, but
      did not. */
  ghost predicate SetsUpInstead(c: Codec, E: Crypto.BlockCipher, p: Process, w: World) {
    && !p.exited && w.bridgeStarts
    && var info := Info(w, p.keptPort);
    && info.Some? && !InstallFails(w, info.value, p.state.ingress)
    && var acts := OneSession(c, E, p, w).state.acts;
    acts == [] || !acts[|acts| - 1].RunBridge?
  }

  lemma SetupAttempts(c: Codec, E: Crypto.BlockCipher, p: Process, w: World)
    requires SetsUpInstead(c, E, p, w)
    ensures !p.state.attempted && OneSession(c, E, p, w).state.attempted
  {
    hide Info, Merging, Plan, EnvOf, Installed, InstallFails, EndAfter, BridgeAct, ProxyConfig, ProxyOn, SetChannels;
  }

  /** Setting up MQTT costs a process at most one session. */
  lemma OnlyOneSetupSession(c: Codec, E: Crypto.BlockCipher, start: Ingress, ws: seq<World>, i: nat, j: nat)
    requires i < j < |ws|
    requires SetsUpInstead(c, E, Sessions(c, E, start, ws[..i]), ws[i])
    ensures !SetsUpInstead(c, E, Sessions(c, E, start, ws[..j]), ws[j])
  {
    hide RunSession, SetsUpInstead, OneSession;
    SetupAttempts(c, E, Sessions(c, E, start, ws[..i]), ws[i]);
    assert ws[..i + 1][..i] == ws[..i];
    assert ws[..j][..i + 1] == ws[..i + 1];
    IngressOnlyFallsBack(c, E, start, ws[..j], i + 1);
    if SetsUpInstead(c, E, Sessions(c, E, start, ws[..j]), ws[j]) {
      SetupAttempts(c, E, Sessions(c, E, start, ws[..j]), ws[j]);
    }
  }

  lemma SessionInstalls(c: Codec, E: Crypto.BlockCipher, s: State, w: World, keptPort: bool, info: RadioInfo)
    requires Info(w, keptPort) == Some(info)
    ensures s.acts + SetChannels(Installed(w, info, s.ingress)) <= RunSession(c, E, s, w, keptPort).state.acts
  {
    hide Info, Merging, Plan, EnvOf, Installed, InstallFails, EndAfter, BridgeAct, ProxyConfig, ProxyOn, SetChannels;
  }

  /** When a session runs a bridge it has installed its whole list; the channels it runs with are those
      the radio then reports if and only if Raven names all of its own; and if the session began in proxy
      mode all the radio's channels have downlink, whatever Raven's list says. */
  lemma BridgeMatchesRadio(c: Codec, E: Crypto.BlockCipher, s: State, w: World, keptPort: bool, k: nat)
    requires var acts := RunSession(c, E, s, w, keptPort).state.acts;
             |s.acts| <= k < |acts| && acts[k].RunBridge?
    ensures var t := RunSession(c, E, s, w, keptPort).state;
            var R := t.acts[k].info.channels;
            var e := EnvOf(w, t.acts[k].info, s.ingress);
            && Info(w, keptPort) == Some(t.acts[k].info)
            && s.acts + SetChannels(Plan(e, R)) <= t.acts
            && (Room(R, |e.raven|) ==> (t.acts[k].channels == Keys(e, AfterSession(e, R)) <==> Named(e.raven)))
            && (s.ingress.MqttProxy? && Listing(R) ==>
                  forall ch :: ch in AfterSession(e, R) ==> ch.settings.Some? && ch.settings.value.downlink)
  {
    SessionBridges(c, E, s, w, keptPort, k);
    var info := RunSession(c, E, s, w, keptPort).state.acts[k].info;
    var e := EnvOf(w, info, s.ingress);
    SessionInstalls(c, E, s, w, keptPort, info);
    hide RunSession, Info, Merging, Plan, Keys, AfterSession, Listing, WellFormed, Named;
    if Room(info.channels, |e.raven|) {
      Convergence.BridgeAndRadioAgree(e, info.channels);
    }
    if s.ingress.MqttProxy? && Listing(info.channels) {
      Convergence.SettledHasDownlink(e, info.channels);
    }
  }
}
