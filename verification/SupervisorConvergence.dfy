/** The process and its radio: what the channel table becomes over the sessions of a run. */
module SupervisorConvergence {
  import opened Bytes
  import opened Protocol
  import opened ChannelMerge
  import opened ChannelInstall
  import opened Bridge
  import opened Supervisor
  import opened SupervisorRuns
  import opened RadioTable
  import ChannelKeys
  import Convergence
  import Crypto

  /** The channel table of a radio that accepts every set_channel among these acts. */
  function TableOf(R: seq<Channel>, acts: seq<Act>): seq<Channel>
    decreases |acts|
  {
    if acts == [] then R
    else
      var before := TableOf(R, acts[..|acts| - 1]);
      match acts[|acts| - 1]
      case SetChannel(ch) => Install(before, ch)
      case _ => before
  }

  ghost predicate Quiet(acts: seq<Act>) {
    forall a :: a in acts ==> !a.SetChannel?
  }

  /** `all` goes on from `acts` without changing the table. */
  ghost predicate AddsQuietly(acts: seq<Act>, all: seq<Act>) {
    acts <= all && Quiet(all[|acts|..])
  }

  lemma {:induction false} QuietKeepsTable(R: seq<Channel>, acts: seq<Act>, more: seq<Act>)
    requires Quiet(more)
    ensures TableOf(R, acts + more) == TableOf(R, acts)
    decreases |more|
  {
    hide Install;
    if more == [] {
      assert acts + more == acts;
    } else {
      var n := |more| - 1;
      assert (acts + more)[..|acts + more| - 1] == acts + more[..n];
      assert more[n] in more;
      QuietKeepsTable(R, acts, more[..n]);
    }
  }

  lemma {:induction false} SetChannelsInstall(R: seq<Channel>, acts: seq<Act>, chs: seq<Channel>)
    ensures TableOf(R, acts + SetChannels(chs)) == InstallAll(TableOf(R, acts), chs)
    decreases |chs|
  {
    hide Install;
    if chs == [] {
      assert acts + SetChannels(chs) == acts;
    } else {
      var n := |chs| - 1;
      var all := acts + SetChannels(chs);
      assert all[..|all| - 1] == acts + SetChannels(chs[..n]);
      SetChannelsInstall(R, acts, chs[..n]);
    }
  }

  // ----- one session -----

  /** What a session does behind its set_channel commands. */
  ghost function Rest(c: Codec, E: Crypto.BlockCipher, s: State, w: World, keptPort: bool, info: RadioInfo): seq<Act>
    requires Info(w, keptPort) == Some(info)
  {
    SessionInstalls(c, E, s, w, keptPort, info);
    RunSession(c, E, s, w, keptPort).state.acts[|s.acts + SetChannels(Installed(w, info, s.ingress))|..]
  }

  lemma TwoActsAreQuiet(acts: seq<Act>, a: Act, b: Act)
    requires !a.SetChannel? && !b.SetChannel?
    ensures AddsQuietly(acts, acts) && AddsQuietly(acts, acts + [a]) && AddsQuietly(acts, acts + [a] + [b])
  {
    assert (acts + [a])[|acts|..] == [a] && (acts + [a] + [b])[|acts|..] == [a] + [b];
  }

  lemma AfterInstallIsQuiet(c: Codec, E: Crypto.BlockCipher, t: State, w: World, info: RadioInfo, keys: PacketKeys)
    ensures AddsQuietly(t.acts, AfterInstall(c, E, t, w, info, keys).state.acts)
  {
    hide AddsQuietly, BridgeAct, EndAfter, ProxyConfig, ProxyOn;
    var here, phone := BridgeAct(c, E, w, info, t.ingress, keys), BridgeAct(c, E, w, info, Phone, keys);
    TwoActsAreQuiet(t.acts, SetMqtt(ProxyConfig(info.mqtt)), phone);
    TwoActsAreQuiet(t.acts, here, here);
    TwoActsAreQuiet(t.acts, phone, phone);
  }

  lemma RestIsQuiet(c: Codec, E: Crypto.BlockCipher, s: State, w: World, keptPort: bool, info: RadioInfo)
    requires Info(w, keptPort) == Some(info)
    ensures RunSession(c, E, s, w, keptPort).state.acts
         == s.acts + SetChannels(Installed(w, info, s.ingress)) + Rest(c, E, s, w, keptPort, info)
    ensures Quiet(Rest(c, E, s, w, keptPort, info))
  {
    SessionInstalls(c, E, s, w, keptPort, info);
    var t := s.(acts := s.acts + SetChannels(Installed(w, info, s.ingress)));
    AfterInstallIsQuiet(c, E, t, w, info, Merging(EnvOf(w, info, s.ingress), info.channels).merged);
    hide Info, Merging, Plan, EnvOf, Installed, InstallFails, AfterInstall, SetChannels;
  }

  /** A session changes the table as one that stopped after some of its installs, or after all. */
  lemma SessionTable(c: Codec, E: Crypto.BlockCipher, s: State, w: World, keptPort: bool, info: RadioInfo,
                     radio: seq<Channel>)
    requires Info(w, keptPort) == Some(info) && info.channels == TableOf(radio, s.acts)
    ensures var e, R := EnvOf(w, info, s.ingress), TableOf(radio, s.acts);
            var t := TableOf(radio, RunSession(c, E, s, w, keptPort).state.acts);
            && t == AfterPart(e, R, w.installsAccepted)
            && (!InstallFails(w, info, s.ingress) ==> t == AfterSession(e, R))
  {
    RestIsQuiet(c, E, s, w, keptPort, info);
    var chs := Installed(w, info, s.ingress);
    var plan := Plan(EnvOf(w, info, s.ingress), info.channels);
    assert w.installsAccepted == |plan| ==> plan[..w.installsAccepted] == plan;
    hide RunSession, Info, EnvOf, Plan, InstallAll, TableOf, SetChannels, Rest, Quiet;
    QuietKeepsTable(radio, s.acts + SetChannels(chs), Rest(c, E, s, w, keptPort, info));
    SetChannelsInstall(radio, s.acts, chs);
  }

  // ----- runs -----

  /** A run of the process, and the radio's table when it began. */
  datatype Run = Run(codec: Codec, cipher: Crypto.BlockCipher, start: Ingress, ws: seq<World>, radio: seq<Channel>) {
    /** The process before session i. */
    ghost function At(i: nat): Process
      requires i <= |ws|
    {
      Sessions(codec, cipher, start, ws[..i])
    }

    ghost function Acts(i: nat): seq<Act>
      requires i <= |ws|
    {
      At(i).state.acts
    }

    ghost function Table(i: nat): seq<Channel>
      requires i <= |ws|
    {
      TableOf(radio, Acts(i))
    }

    /** The environment e, with the ingress that session i begins with. */
    ghost function Mode(e: Env, i: nat): Env
      requires i <= |ws|
    {
      e.(mqttProxy := At(i).state.ingress.MqttProxy?)
    }

    /** If session i hears from the radio, that is the radio's table, and preset, Raven list and ingress
        are those of e. */
    ghost predicate Steady(e: Env, i: nat)
      requires i < |ws|
    {
      var info := Info(ws[i], At(i).keptPort);
      At(i).exited || info == None ||
        (info.value.channels == Table(i) && EnvOf(ws[i], info.value, At(i).state.ingress) == e)
    }

    /** Session i gets as far as having installed its whole list. */
    ghost predicate Completes(i: nat)
      requires i < |ws|
    {
      var info := Info(ws[i], At(i).keptPort);
      !At(i).exited && info.Some? && !InstallFails(ws[i], info.value, At(i).state.ingress)
    }
  }

  lemma AtNext(r: Run, i: nat)
    requires i < |r.ws|
    ensures r.At(i + 1) == OneSession(r.codec, r.cipher, r.At(i), r.ws[i])
  {
    assert r.ws[..i + 1][..i] == r.ws[..i];
  }

  lemma SteadyStep(r: Run, e: Env, i: nat)
    requires i < |r.ws| && r.Steady(e, i)
    ensures exists n: nat :: r.Table(i + 1) == AfterPart(e, r.Table(i), n)
    ensures r.Completes(i) ==> r.Table(i + 1) == AfterSession(e, r.Table(i))
  {
    AtNext(r, i);
    var p, w := r.At(i), r.ws[i];
    var info := Info(w, p.keptPort);
    if p.exited || info == None {
      NothingInstalled(e, r.Table(i));
      hide Info, EnvOf, InstallFails, Sessions, TableOf, AfterPart;
      assert r.Table(i + 1) == AfterPart(e, r.Table(i), 0);
    } else {
      SessionTable(r.codec, r.cipher, p.state, w, p.keptPort, info.value, r.radio);
      hide RunSession, Info, EnvOf, InstallFails, Sessions, TableOf, AfterPart;
      assert r.Table(i + 1) == AfterPart(e, r.Table(i), w.installsAccepted);
    }
  }

  lemma NothingInstalled(e: Env, R: seq<Channel>)
    ensures AfterPart(e, R, 0) == R
  {
    hide Plan;
    assert Plan(e, R)[..0] == [];
  }

  /** From session a on the preset and Raven's list are those of e, whatever the ingress. */
  ghost predicate SteadyFrom(r: Run, e: Env, a: nat) {
    forall i: nat :: a <= i < |r.ws| ==> r.Steady(r.Mode(e, i), i)
  }

  // ----- one ingress -----

  /** Between steady sessions the table is what some interrupted installations leave. */
  lemma {:induction false} SteadyRun(r: Run, e: Env, a: nat, b: nat)
    requires a <= b <= |r.ws| && forall i: nat :: a <= i < b ==> r.Steady(e, i)
    ensures exists stops :: r.Table(b) == Convergence.AfterParts(e, r.Table(a), stops)
    decreases b
  {
    hide AfterPart, Run.Table, Run.Steady, Run.Completes;
    if a == b {
      assert Convergence.AfterParts(e, r.Table(a), []) == r.Table(a);
    } else {
      SteadyRun(r, e, a, b - 1);
      assert r.Steady(e, b - 1);
      SteadyStep(r, e, b - 1);
      var stops :| r.Table(b - 1) == Convergence.AfterParts(e, r.Table(a), stops);
      var n: nat :| r.Table(b) == AfterPart(e, r.Table(b - 1), n);
      var all := stops + [n];
      assert all[..|all| - 1] == stops;
      assert r.Table(b) == Convergence.AfterParts(e, r.Table(a), all);
    }
  }

  lemma SameModeConverges(r: Run, e: Env, a: nat, j: nat)
    requires a <= j < |r.ws| && forall i: nat :: a <= i <= j ==> r.Steady(e, i)
    requires Named(e.raven) && Fits(e, r.Table(a), e.raven) && r.Completes(j)
    ensures r.Table(j + 1) == AfterSession(e, r.Table(a))
  {
    hide AfterPart, AfterSession, Run.Table, Run.Steady, Run.Completes, Named, Fits, Convergence.AfterParts;
    SteadyRun(r, e, a, j);
    SteadyStep(r, e, j);
    var stops :| r.Table(j) == Convergence.AfterParts(e, r.Table(a), stops);
    Convergence.InstallationIsRestartable(e, r.Table(a), stops);
  }

  // ----- either ingress -----

  lemma {:induction false} TableIsModeFree(e: Env, R: seq<Channel>, raven: seq<RavenChannel>, proxy: bool)
    ensures TableAll(e.(mqttProxy := proxy), R, raven) == TableAll(e, R, raven)
    decreases |raven|
  {
    hide KeysOf, FindName, ChannelKeys.FromProto, MakeChannel, Update, High, ChannelKeys.PresetName;
    if raven == [] {
    } else {
      TableIsModeFree(e, R, raven[..|raven| - 1], proxy);
    }
  }

  /** From `now` Raven's list leads to where it led from R, up to downlink flags. */
  ghost predicate StillSame(e: Env, R: seq<Channel>, now: seq<Channel>) {
    WellFormed(now) && Similar(TableAll(e, now, e.raven), TableAll(e, R, e.raven))
  }

  lemma StillSameFits(e: Env, R: seq<Channel>, now: seq<Channel>, proxy: bool)
    requires Fits(e, R, e.raven) && StillSame(e, R, now)
    ensures Fits(e.(mqttProxy := proxy), now, e.raven)
  {
    hide TableAll, WellFormed, Similar, High, Keys;
    Convergence.SimilarKeys(e, TableAll(e, now, e.raven), TableAll(e, R, e.raven));
    TableIsModeFree(e, now, e.raven, proxy);
  }

  lemma PartKeepsSame(e: Env, R: seq<Channel>, now: seq<Channel>, proxy: bool, n: nat)
    requires Named(e.raven) && Fits(e, R, e.raven) && StillSame(e, R, now)
    ensures StillSame(e, R, AfterPart(e.(mqttProxy := proxy), now, n))
  {
    hide TableAll, WellFormed, Similar, High, Keys, AfterPart, Fits, Named;
    var m := e.(mqttProxy := proxy);
    StillSameFits(e, R, now, proxy);
    Convergence.PartStaysOn(m, now, n);
    var next := AfterPart(m, now, n);
    TableIsModeFree(e, now, e.raven, proxy);
    TableIsModeFree(e, next, e.raven, proxy);
    Convergence.SimilarTransitive(TableAll(e, next, e.raven), TableAll(e, now, e.raven), TableAll(e, R, e.raven));
  }

  lemma SameAtFirst(e: Env, R: seq<Channel>)
    requires Fits(e, R, e.raven)
    ensures StillSame(e, R, R)
  {
    hide WellFormed, TableAll, High, AllDownlink;
  }

  lemma {:induction false} RunKeepsSame(r: Run, e: Env, a: nat, b: nat)
    requires a <= b <= |r.ws| && SteadyFrom(r, e, a) && Named(e.raven) && Fits(e, r.Table(a), e.raven)
    ensures StillSame(e, r.Table(a), r.Table(b))
    decreases b
  {
    hide StillSame, AfterPart, Run.Table, Run.Steady, Run.Completes, Run.At, Named, Fits, TableAll;
    if a == b {
      SameAtFirst(e, r.Table(a));
    } else {
      RunKeepsSame(r, e, a, b - 1);
      assert r.Steady(r.Mode(e, b - 1), b - 1);
      SteadyStep(r, r.Mode(e, b - 1), b - 1);
      var n: nat :| r.Table(b) == AfterPart(r.Mode(e, b - 1), r.Table(b - 1), n);
      PartKeepsSame(e, r.Table(a), r.Table(b - 1), r.At(b - 1).state.ingress.MqttProxy?, n);
    }
  }

  /** A complete session, in whichever mode, leaves the table of the whole list, up to downlink flags, and
      the keys the radio then reports are those of the merge. */
  lemma CompletionTable(e: Env, R: seq<Channel>, now: seq<Channel>, proxy: bool)
    requires Named(e.raven) && Fits(e, R, e.raven) && StillSame(e, R, now)
    ensures var m := e.(mqttProxy := proxy);
            && Similar(AfterSession(m, now), TableAll(e, R, e.raven))
            && Merging(m, now).merged == Keys(e, AfterSession(m, now))
            && (Consistent(e.raven) ==> Plan(m, AfterSession(m, now)) == [])
  {
    hide TableAll, WellFormed, High, KeysOf, AfterSession, Fits, Named, MergeAll, Plan, Consistent, AllDownlink;
    var m := e.(mqttProxy := proxy);
    StillSameFits(e, R, now, proxy);
    TableIsModeFree(e, now, e.raven, proxy);
    Convergence.SessionOutcome(m, now);
    AllDownlinkTwice(TableAll(e, now, e.raven));
    Convergence.NamedAgree(m, now);
    if Consistent(e.raven) {
      Convergence.NextSessionInstallsNothing(m, now);
    }
  }

  /** A list that is empty in proxy mode is empty in phone mode. */
  lemma PhonePlan(e: Env, R: seq<Channel>)
    requires Plan(e, R) == []
    ensures Plan(e.(mqttProxy := false), R) == []
  {
    hide MergeAll, KeysOf, Missing, ChannelKeys.PresetName;
    var T := Merging(e, R).toInstall;
    assert e.mqttProxy ==> |AllDownlink(T + Missing(R, T))| == |T| + |Missing(R, T)|;
  }

  lemma ModeStep(r: Run, e: Env, i: nat)
    requires i < |r.ws|
    ensures r.Mode(e, i + 1) == r.Mode(e, i)
         || (r.Mode(e, i).mqttProxy && r.Mode(e, i + 1) == r.Mode(e, i).(mqttProxy := false) && r.Completes(i))
  {
    hide RunSession, Info, InstallFails, Sessions;
    AtNext(r, i);
    var p := r.At(i);
    if !p.exited {
      SessionFallsBack(r.codec, r.cipher, p.state, r.ws[i], p.keptPort);
    }
  }

  lemma SessionFallsBack(c: Codec, E: Crypto.BlockCipher, s: State, w: World, keptPort: bool)
    ensures var t, info := RunSession(c, E, s, w, keptPort).state, Info(w, keptPort);
            t.ingress == s.ingress ||
              (s.ingress.MqttProxy? && t.ingress.Phone? && info.Some? && !InstallFails(w, info.value, s.ingress))
  {
    hide Info, Merging, Plan, EnvOf, Installed, InstallFails, AfterInstall, SetChannels;
    var info := Info(w, keptPort);
    if info.Some? {
      var t := s.(acts := s.acts + SetChannels(Installed(w, info.value, s.ingress)));
      InstallFallsBack(c, E, t, w, info.value, Merging(EnvOf(w, info.value, s.ingress), info.value.channels).merged);
    }
  }

  lemma InstallFallsBack(c: Codec, E: Crypto.BlockCipher, t: State, w: World, info: RadioInfo, keys: PacketKeys)
    ensures var u := AfterInstall(c, E, t, w, info, keys).state.ingress;
            u == t.ingress || (t.ingress.MqttProxy? && u.Phone?)
  {
    hide BridgeAct, EndAfter, ProxyConfig, ProxyOn;
  }

  lemma {:induction false} ModeOnlyFallsBack(r: Run, e: Env, a: nat, b: nat)
    requires a <= b <= |r.ws|
    ensures r.Mode(e, b) == r.Mode(e, a) ||
              (r.Mode(e, a).mqttProxy && r.Mode(e, b) == r.Mode(e, a).(mqttProxy := false))
    decreases b
  {
    hide Run.Mode, Run.Completes;
    if a == b {
    } else {
      ModeOnlyFallsBack(r, e, a, b - 1);
      ModeStep(r, e, b - 1);
    }
  }

  /** A fallback between two sessions happened in one that had installed everything. */
  lemma {:induction false} FallbackCompletes(r: Run, e: Env, a: nat, b: nat)
    requires a <= b <= |r.ws| && r.Mode(e, a) != r.Mode(e, b)
    ensures exists f: nat :: a <= f < b && r.Mode(e, f) == r.Mode(e, a) && r.Completes(f)
    decreases b
  {
    hide Run.Mode, Run.Completes;
    ModeStep(r, e, b - 1);
    ModeOnlyFallsBack(r, e, a, b - 1);
    if r.Mode(e, b - 1) != r.Mode(e, a) {
      FallbackCompletes(r, e, a, b - 1);
      var f: nat :| a <= f < b - 1 && r.Mode(e, f) == r.Mode(e, a) && r.Completes(f);
    } else {
      assert r.Completes(b - 1);
    }
  }

  /** From a table that asks for no installs, steady sessions install nothing. */
  lemma QuietStep(r: Run, e: Env, i: nat)
    requires i < |r.ws| && r.Steady(e, i) && Plan(e, r.Table(i)) == []
    ensures r.Table(i + 1) == r.Table(i)
    ensures AddsQuietly(r.Acts(i), r.Acts(i + 1))
  {
    AtNext(r, i);
    var p, w := r.At(i), r.ws[i];
    var info := Info(w, p.keptPort);
    if !p.exited && info.Some? {
      RestIsQuiet(r.codec, r.cipher, p.state, w, p.keptPort, info.value);
      assert Installed(w, info.value, p.state.ingress) == [];
      var rest := Rest(r.codec, r.cipher, p.state, w, p.keptPort, info.value);
      hide RunSession, Info, EnvOf, InstallFails, Installed, Sessions, Plan, Rest;
      assert p.state.acts + SetChannels([]) == p.state.acts;
      QuietKeepsTable(r.radio, p.state.acts, rest);
    }
  }

  lemma {:induction false} QuietRun(r: Run, e: Env, j: nat, b: nat)
    requires j <= b <= |r.ws| && SteadyFrom(r, e, j) && Plan(r.Mode(e, j), r.Table(j)) == []
    ensures Plan(r.Mode(e, b), r.Table(b)) == []
    ensures r.Table(b) == r.Table(j)
    ensures AddsQuietly(r.Acts(j), r.Acts(b))
    decreases b
  {
    hide Plan, Run.Table, Run.Steady, Run.Acts, Run.Mode, Run.Completes;
    if j == b {
    } else {
      QuietRun(r, e, j, b - 1);
      assert r.Steady(r.Mode(e, b - 1), b - 1);
      QuietStep(r, r.Mode(e, b - 1), b - 1);
      ModeStep(r, e, b - 1);
      PhonePlan(r.Mode(e, b - 1), r.Table(b - 1));
      var x, y, z := r.Acts(j), r.Acts(b - 1), r.Acts(b);
      assert z[|x|..] == y[|x|..] + z[|y|..];
    }
  }

  // ----- the theorems -----

  /** What a complete session of a run leaves. */
  lemma CompletionConverges(r: Run, e: Env, a: nat, j: nat)
    requires a <= j < |r.ws| && SteadyFrom(r, e, a)
    requires Named(e.raven) && Fits(e, r.Table(a), e.raven) && r.Completes(j)
    ensures Similar(r.Table(j + 1), TableAll(e, r.Table(a), e.raven))
    ensures Merging(r.Mode(e, j), r.Table(j)).merged == Keys(e, r.Table(j + 1))
    ensures Consistent(e.raven) ==> Plan(r.Mode(e, j + 1), r.Table(j + 1)) == []
    ensures r.Mode(e, j) == r.Mode(e, a) ==> r.Table(j + 1) == AfterSession(r.Mode(e, a), r.Table(a))
  {
    hide StillSame, AfterPart, AfterSession, Run.Table, Run.Steady, Run.Completes, Named, Fits, Merging, Keys, Plan;
    hide Run.At, TableAll, AllDownlink, Consistent;
    var proxy := r.At(j).state.ingress.MqttProxy?;
    RunKeepsSame(r, e, a, j);
    assert r.Steady(r.Mode(e, j), j);
    SteadyStep(r, r.Mode(e, j), j);
    CompletionTable(e, r.Table(a), r.Table(j), proxy);
    ModeStep(r, e, j);
    if Consistent(e.raven) {
      PhonePlan(r.Mode(e, j), r.Table(j + 1));
    }
    if r.Mode(e, j) == r.Mode(e, a) {
      OneMode(r, e, a, j);
      FitsInMode(e, r.Table(a), r.At(a).state.ingress.MqttProxy?);
      SameModeConverges(r, r.Mode(e, a), a, j);
    }
  }

  lemma FitsInMode(e: Env, R: seq<Channel>, proxy: bool)
    requires Fits(e, R, e.raven)
    ensures Fits(e.(mqttProxy := proxy), R, e.raven)
  {
    hide TableAll, WellFormed, High;
    TableIsModeFree(e, R, e.raven, proxy);
  }

  lemma OneMode(r: Run, e: Env, a: nat, j: nat)
    requires a <= j < |r.ws| && SteadyFrom(r, e, a) && r.Mode(e, j) == r.Mode(e, a)
    ensures forall i: nat :: a <= i <= j ==> r.Steady(r.Mode(e, a), i)
  {
    hide Run.Steady, Run.At;
    forall i: nat | a <= i <= j
      ensures r.Steady(r.Mode(e, a), i)
    {
      ModeOnlyFallsBack(r, e, a, i);
      ModeOnlyFallsBack(r, e, i, j);
      assert r.Steady(r.Mode(e, i), i);
    }
  }

  /** Whatever sessions failed in between and whether or not the ingress fell back: once a session runs a
      bridge, the radio holds, up to downlink flags, the table of Raven's whole list, and the bridge runs with
      that table's keys. It is exactly what an uninterrupted first session would have left, if the ingress is
      still the same or no name has two keys; and in the latter case no later session installs anything. */
  lemma ProcessConverges(r: Run, e: Env, a: nat, j: nat, k: nat)
    requires a <= j < |r.ws| && SteadyFrom(r, e, a)
    requires Named(e.raven) && Fits(e, r.Table(a), e.raven)
    requires |r.Acts(j)| <= k < |r.Acts(j + 1)| && r.Acts(j + 1)[k].RunBridge?
    ensures Similar(r.Table(j + 1), TableAll(e, r.Table(a), e.raven))
    ensures r.Acts(j + 1)[k].channels == Keys(e, r.Table(j + 1))
    ensures r.Mode(e, j) == r.Mode(e, a) || Consistent(e.raven) ==>
      r.Table(j + 1) == AfterSession(r.Mode(e, a), r.Table(a))
    ensures Consistent(e.raven) ==>
      forall b :: j < b <= |r.ws| ==> r.Table(b) == r.Table(j + 1) && AddsQuietly(r.Acts(j + 1), r.Acts(b))
  {
    hide Run.Table, Run.Steady, Run.Acts, Run.Completes, Run.Mode, Plan, AfterSession, Keys, Merging, AddsQuietly;
    hide TableAll, Similar, Named, Fits, Consistent;
    assert r.Steady(r.Mode(e, j), j);
    BridgeCompletes(r, r.Mode(e, j), j, k);
    CompletionConverges(r, e, a, j);
    if Consistent(e.raven) {
      if r.Mode(e, j) != r.Mode(e, a) {
        FallbackCompletes(r, e, a, j);
        var f: nat :| a <= f < j && r.Mode(e, f) == r.Mode(e, a) && r.Completes(f);
        CompletionConverges(r, e, a, f);
        QuietRun(r, e, f + 1, j + 1);
      }
      forall b | j < b <= |r.ws|
        ensures r.Table(b) == r.Table(j + 1)
        ensures AddsQuietly(r.Acts(j + 1), r.Acts(b))
      {
        QuietRun(r, e, j + 1, b);
      }
    }
  }

  lemma BridgeCompletes(r: Run, e: Env, j: nat, k: nat)
    requires j < |r.ws| && r.Steady(e, j)
    requires |r.Acts(j)| <= k < |r.Acts(j + 1)| && r.Acts(j + 1)[k].RunBridge?
    ensures r.Completes(j) && r.Acts(j + 1)[k].channels == Merging(e, r.Table(j)).merged
  {
    AtNext(r, j);
    var p, w := r.At(j), r.ws[j];
    hide RunSession, Info, EnvOf, InstallFails, Sessions, Plan, Merging, TableOf;
    SessionBridges(r.codec, r.cipher, p.state, w, p.keptPort, k);
  }

  lemma InstallsAreNotQuiet(acts: seq<Act>, chs: seq<Channel>, rest: seq<Act>)
    requires chs != []
    ensures !AddsQuietly(acts, acts + SetChannels(chs) + rest)
  {
    var all := acts + SetChannels(chs) + rest;
    assert all[|acts|] == SetChannel(chs[0]) && all[|acts|] == all[|acts|..][0];
    assert all[|acts|..][0] in all[|acts|..];
  }

  /** A complete session installs nothing only if its list is empty. */
  lemma QuietCompletion(r: Run, e: Env, i: nat)
    requires i < |r.ws| && r.Steady(e, i) && r.Completes(i) && AddsQuietly(r.Acts(i), r.Acts(i + 1))
    ensures Plan(e, r.Table(i)) == []
  {
    AtNext(r, i);
    var p, w := r.At(i), r.ws[i];
    var info := Info(w, p.keptPort).value;
    RestIsQuiet(r.codec, r.cipher, p.state, w, p.keptPort, info);
    var plan := Plan(e, r.Table(i));
    assert Installed(w, info, p.state.ingress) == plan;
    var rest := Rest(r.codec, r.cipher, p.state, w, p.keptPort, info);
    hide RunSession, Info, EnvOf, InstallFails, Installed, Sessions, Plan, Rest, TableOf;
    if plan != [] {
      InstallsAreNotQuiet(r.Acts(i), plan, rest);
    }
  }

  /** Once a session has run a bridge, later complete sessions install nothing - if and only if Raven's
      channels all have names and none has two keys. */
  lemma LaterSessionsQuietExactly(r: Run, e: Env, a: nat, j: nat, k: nat, i: nat)
    requires a <= j < i < |r.ws| && SteadyFrom(r, e, a) && Fits(e, r.Table(a), e.raven)
    requires |r.Acts(j)| <= k < |r.Acts(j + 1)| && r.Acts(j + 1)[k].RunBridge? && r.Completes(i)
    ensures AddsQuietly(r.Acts(i), r.Acts(i + 1)) <==> Named(e.raven) && Consistent(e.raven)
  {
    hide Run.Table, Run.Steady, Run.Acts, Run.Completes, Plan, AfterSession, Keys, Merging, AddsQuietly, Run.At;
    hide TableAll, Similar, Named, Fits, Consistent;
    var m := r.Mode(e, i);
    assert r.Steady(m, i);
    if AddsQuietly(r.Acts(i), r.Acts(i + 1)) {
      QuietCompletion(r, m, i);
      Convergence.QuietOnlyIf(m, r.Table(i));
    }
    if Named(e.raven) && Consistent(e.raven) {
      assert r.Steady(r.Mode(e, j), j);
      BridgeCompletes(r, r.Mode(e, j), j, k);
      CompletionConverges(r, e, a, j);
      QuietRun(r, e, j + 1, i);
      QuietStep(r, m, i);
    }
  }
}
