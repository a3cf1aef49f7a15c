/** What is installed on the radio, channel by channel, and that its primary channel stays primary. */
module InstalledChannels {
  import opened Bytes
  import opened Protocol
  import opened ChannelKeys
  import opened ChannelMerge
  import opened RadioTable
  import opened ChannelInstall
  import opened Convergence
  import opened UnnamedChannels
  import SupervisorConvergence

  // ----- what the merge installs -----

  /** A channel made from one of Raven's: its name and PSK as given, no downlink, and primary at index 0 only. */
  ghost predicate MadeFrom(x: Channel, raven: seq<RavenChannel>) {
    && x.index >= 0 && x.role == (if x.index == 0 then 1 else 2)
    && exists rc :: rc in raven && x.settings == Some(ChannelSettings(rc.psk, rc.name, false, []))
  }

  ghost predicate AllMadeFrom(m: Merge, raven: seq<RavenChannel>) {
    forall x :: x in m.toInstall ==> MadeFrom(x, raven)
  }

  lemma MadeFromMore(m: Merge, raven: seq<RavenChannel>, rc: RavenChannel)
    requires AllMadeFrom(m, raven)
    ensures AllMadeFrom(m, raven + [rc])
  {
    forall x | x in m.toInstall
      ensures MadeFrom(x, raven + [rc])
    {
      assert MadeFrom(x, raven);
      var r :| r in raven && x.settings == Some(ChannelSettings(r.psk, r.name, false, []));
      assert r in raven + [rc];
    }
  }

  lemma ChannelIsMadeFrom(index: u32, rc: RavenChannel, raven: seq<RavenChannel>)
    requires index < 0x8000_0000
    ensures MadeFrom(MakeChannel(AsI32(index), RoleAt(index), rc.name, rc.psk), raven + [rc])
    ensures index > 0 ==> MadeFrom(MakeChannel(AsI32(index), 2, rc.name, rc.psk), raven + [rc])
  {
    assert rc in raven + [rc];
  }

  /** One step installs a channel made from Raven's next, as long as a new index fits. */
  lemma StepIsMadeFrom(m: Merge, raven: seq<RavenChannel>, rc: RavenChannel, default: Name)
    requires Bounded(m) && AllMadeFrom(m, raven) && m.maxIndex < 0x8000_0000
    requires FindName(m.merged, rc.name, default) == |m.merged| ==> m.maxIndex + 1 < 0x8000_0000
    ensures var n := MergeStep(m, rc, default);
            Bounded(n) && AllMadeFrom(n, raven + [rc]) && n.maxIndex < 0x8000_0000
  {
    hide MadeFrom, FindName, FromProto, MakeChannel, AsI32, AsU32, RoleAt;
    MadeFromMore(m, raven, rc);
    var i := FindName(m.merged, rc.name, default);
    if i < |m.merged| {
      var index := m.merged[i].index;
      IndexCasts(index);
      NamedFrom(index, rc.name, rc.psk);
      MadeIndex(index, RoleAt(index), rc.name, rc.psk);
      ChannelIsMadeFrom(index, rc, raven);
    } else {
      IndexCasts(m.maxIndex + 1);
      NamedFrom(m.maxIndex + 1, rc.name, rc.psk);
      MadeIndex(m.maxIndex + 1, 2, rc.name, rc.psk);
      ChannelIsMadeFrom(m.maxIndex + 1, rc, raven);
    }
  }

  lemma StartIsMadeFrom(device: seq<ChannelKey>)
    ensures Bounded(Merge(device, [], MaxIndex(device))) && AllMadeFrom(Merge(device, [], MaxIndex(device)), [])
  {
    forall j | 0 <= j < |device|
      ensures device[j].index <= MaxIndex(device)
    {
      MaxIndexBounds(device, j);
    }
  }

  /** For every device list and every Raven list whose indices fit, everything installed is made from a Raven
      channel, with its name and PSK, and is primary if and only if it is at index 0. */
  lemma {:induction false} InstallsAreMadeFrom(device: seq<ChannelKey>, raven: seq<RavenChannel>, default: Name)
    requires MaxIndex(device) + |raven| < 0x8000_0000
    ensures forall x :: x in MergeAll(device, raven, default).toInstall ==> MadeFrom(x, raven)
    ensures Bounded(MergeAll(device, raven, default))
    decreases |raven|
  {
    if raven == [] {
      StartIsMadeFrom(device);
    } else {
      hide MergeStep, Bounded, MadeFrom, FindName, MaxIndex;
      var n := |raven| - 1;
      InstallsAreMadeFrom(device, raven[..n], default);
      MergeIsBounded(device, raven[..n], default);
      StepIsMadeFrom(MergeAll(device, raven[..n], default), raven[..n], raven[n], default);
      assert raven == raven[..n] + [raven[n]];
    }
  }

  /** The same for a table and a named list, as long as the indices given out fit. */
  lemma {:induction false} FittingInstalls(e: Env, R: seq<Channel>, raven: seq<RavenChannel>)
    requires Fits(e, R, raven) && Named(raven)
    ensures var m := MergeAll(Keys(e, R), raven, e.Default());
            Bounded(m) && AllMadeFrom(m, raven) && m.maxIndex < 0x8000_0000
    decreases |raven|
  {
    hide Listing, Keys, High, MergeStep, TableStep, Bounded, AllMadeFrom, FindName, MaxIndex, PresetName, Place;
    if raven == [] {
      StartIsMadeFrom(Keys(e, R));
      HighIsMaxIndex(e, R);
    } else {
      var n := |raven| - 1;
      FitsInPart(e, R, raven, n);
      FittingInstalls(e, R, raven[..n]);
      MergeLockstep(e, R, raven[..n]);
      var m, t := MergeAll(Keys(e, R), raven[..n], e.Default()), TableAll(e, R, raven[..n]);
      LockstepOf(e, m, R, t);
      StepShape(e, t, raven[n]);
      PlaceIsFind(e, t, raven[n].name);
      StepIsMadeFrom(m, raven[..n], raven[n], e.Default());
      assert raven == raven[..n] + [raven[n]];
    }
  }

  lemma PlaceIsFind(e: Env, R: seq<Channel>, name: Name)
    ensures Place(e, R, name) == FindName(Keys(e, R), name, e.Default())
  {
  }

  // ----- the primary channel -----

  /** The table has a channel 0, and it is primary. */
  ghost predicate PrimaryAtZero(R: seq<Channel>) {
    (exists x :: x in R && x.index == 0) && forall x :: x in R && x.index == 0 ==> x.role == 1
  }

  ghost predicate PrimaryOnly(chs: seq<Channel>) {
    forall x :: x in chs && x.index == 0 ==> x.role == 1
  }

  lemma InstallsKeepPrimary(R: seq<Channel>, chs: seq<Channel>)
    requires Ascending(R) && PrimaryAtZero(R) && PrimaryOnly(chs)
    ensures PrimaryAtZero(InstallAll(R, chs))
  {
    hide InstallAll, Ascending;
    InstallAllElements(R, chs);
    if Touches(chs, 0) {
      InstalledIsThere(R, chs, 0);
    } else {
      var x :| x in R && x.index == 0;
      assert x in InstallAll(R, chs);
    }
  }

  lemma DownlinkKeepsRoles(X: seq<Channel>)
    requires PrimaryOnly(X)
    ensures PrimaryOnly(AllDownlink(X))
  {
    forall x | x in AllDownlink(X) && x.index == 0
      ensures x.role == 1
    {
      var i :| 0 <= i < |X| && AllDownlink(X)[i] == x;
      assert X[i] in X;
    }
  }

  lemma PlanIsPrimaryOnly(e: Env, R: seq<Channel>)
    requires PrimaryAtZero(R) && PrimaryOnly(Merging(e, R).toInstall)
    ensures PrimaryOnly(Plan(e, R))
  {
    hide Merging, Missing, AllDownlink;
    var T := Merging(e, R).toInstall;
    MissingElements(R, T);
    if e.mqttProxy {
      DownlinkKeepsRoles(T + Missing(R, T));
    }
  }

  lemma PartKeepsPrimary(e: Env, R: seq<Channel>, n: nat)
    requires Listing(R) && PrimaryAtZero(R) && PrimaryOnly(Merging(e, R).toInstall)
    ensures PrimaryAtZero(AfterPart(e, R, n)) && PrimaryAtZero(AfterSession(e, R))
  {
    ListingAscends(R);
    hide Plan, InstallAll, Ascending, Listing, PrimaryAtZero, Merging;
    PlanIsPrimaryOnly(e, R);
    var plan := Plan(e, R);
    var part := if n <= |plan| then plan[..n] else plan;
    assert forall x :: x in part ==> x in plan;
    InstallsKeepPrimary(R, part);
    InstallsKeepPrimary(R, plan);
  }

  /** Whatever Raven's list says, no session, complete or not, takes the radio's primary channel away, as long as
      there is an index for every entry of the list. */
  lemma SessionKeepsPrimary(e: Env, R: seq<Channel>, n: nat)
    requires Room(R, |e.raven|) && PrimaryAtZero(R)
    ensures PrimaryAtZero(AfterPart(e, R, n)) && PrimaryAtZero(AfterSession(e, R))
  {
    hide MergeAll, Keys, High, MaxIndex, PresetName, PrimaryAtZero, AfterPart, AfterSession, Bounded;
    HighIsMaxIndex(e, R);
    InstallsAreMadeFrom(Keys(e, R), e.raven, e.Default());
    PartKeepsPrimary(e, R, n);
  }

  lemma FittingPartKeepsPrimary(e: Env, R: seq<Channel>, n: nat)
    requires Fits(e, R, e.raven) && Named(e.raven) && PrimaryAtZero(R)
    ensures PrimaryAtZero(AfterPart(e, R, n))
  {
    hide MergeAll, Keys, High, TableAll, PresetName, PrimaryAtZero, AfterPart, AfterSession, Bounded, Named;
    FittingInstalls(e, R, e.raven);
    PartKeepsPrimary(e, R, n);
  }

  /** Nor does any number of sessions, stopped anywhere. */
  lemma {:induction false} PartsKeepPrimary(e: Env, R: seq<Channel>, stops: seq<nat>)
    requires Fits(e, R, e.raven) && Named(e.raven) && PrimaryAtZero(R)
    ensures PrimaryAtZero(AfterParts(e, R, stops))
    decreases |stops|
  {
    hide Fits, Named, PrimaryAtZero, AfterPart, StillOn;
    if stops == [] {
    } else {
      var n := |stops| - 1;
      PartsKeepPrimary(e, R, stops[..n]);
      PartsStayOn(e, R, stops[..n]);
      StillFits(e, R, AfterParts(e, R, stops[..n]));
      FittingPartKeepsPrimary(e, AfterParts(e, R, stops[..n]), stops[n]);
    }
  }

  /** Nor does a run of the process, across failures and a fallback of the ingress. */
  lemma {:induction false} RunKeepsPrimary(r: SupervisorConvergence.Run, e: Env, a: nat, b: nat)
    requires a <= b <= |r.ws| && SupervisorConvergence.SteadyFrom(r, e, a)
    requires Named(e.raven) && Fits(e, r.Table(a), e.raven) && PrimaryAtZero(r.Table(a))
    ensures PrimaryAtZero(r.Table(b))
    decreases b
  {
    hide Fits, Named, PrimaryAtZero, AfterPart, SupervisorConvergence.Run.Table, SupervisorConvergence.Run.At;
    hide SupervisorConvergence.Run.Steady, SupervisorConvergence.Run.Completes, SupervisorConvergence.StillSame;
    if a == b {
    } else {
      RunKeepsPrimary(r, e, a, b - 1);
      var m := r.Mode(e, b - 1);
      assert r.Steady(m, b - 1);
      SupervisorConvergence.SteadyStep(r, m, b - 1);
      var n: nat :| r.Table(b) == AfterPart(m, r.Table(b - 1), n);
      SupervisorConvergence.RunKeepsSame(r, e, a, b - 1);
      SupervisorConvergence.StillSameFits(e, r.Table(a), r.Table(b - 1), m.mqttProxy);
      FittingPartKeepsPrimary(m, r.Table(b - 1), n);
    }
  }

  // ----- the whole list -----

  ghost predicate LacksDownlink(x: Channel) {
    x.settings == None || !x.settings.value.downlink
  }

  /** x is y with downlink on. */
  ghost predicate TurnedOn(x: Channel, y: Channel) {
    && x.index == y.index && x.role == y.role && (x.settings.Some? <==> y.settings.Some?)
    && (y.settings.Some? ==> x.settings.value == y.settings.value.(downlink := true))
  }

  /** A reported channel that is installed only to turn its downlink on. */
  ghost predicate Extra(R: seq<Channel>, T: seq<Channel>, y: Channel) {
    y in R && LacksDownlink(y) && forall t :: t in T ==> t.index != y.index
  }

  /** In phone mode the merge's list is installed as it is. In proxy mode everything installed comes from that list
      or is a reported channel that lacks downlink and is not in it, with downlink on; and all those are installed. */
  lemma PlanExactly(e: Env, R: seq<Channel>)
    requires Ascending(R)
    ensures !e.mqttProxy ==> Plan(e, R) == Merging(e, R).toInstall
    ensures e.mqttProxy ==> var T := Merging(e, R).toInstall;
      && (forall x :: x in Plan(e, R) ==> exists y :: (y in T || Extra(R, T, y)) && TurnedOn(x, y))
      && (forall y :: y in T || Extra(R, T, y) ==> exists x :: x in Plan(e, R) && x.index == y.index)
  {
    hide Merging, Missing, Ascending;
    var T := Merging(e, R).toInstall;
    if e.mqttProxy {
      var X := T + Missing(R, T);
      MissingElements(R, T);
      MissingLack(R, T);
      forall x | x in Plan(e, R)
        ensures exists y :: (y in T || Extra(R, T, y)) && TurnedOn(x, y)
      {
        var i :| 0 <= i < |X| && AllDownlink(X)[i] == x;
        assert X[i] in X && TurnedOn(x, X[i]);
      }
      forall y | y in T || Extra(R, T, y)
        ensures exists x :: x in Plan(e, R) && x.index == y.index
      {
        if y in T {
          assert y in X;
        }
        assert Touches(X, y.index);
        SetDownlinkTouches(X, y.index);
      }
    }
  }

  lemma {:induction false} MissingLack(R: seq<Channel>, T: seq<Channel>)
    ensures forall x :: x in Missing(R, T) ==> LacksDownlink(x)
    decreases |R|
  {
    if R == [] {
    } else {
      MissingLack(R[..|R| - 1], T);
    }
  }

  // ----- the keys -----

  /** The keys of a report: one for each channel, with its index, its shown name, its expanded PSK and their hash. */
  lemma ReportedKeys(e: Env, R: seq<Channel>)
    requires WellFormed(R)
    ensures |Keys(e, R)| == |R|
    ensures forall i :: 0 <= i < |R| ==> R[i].settings.Some? && var k, s := Keys(e, R)[i], R[i].settings.value;
      && k.index == R[i].index && k.key == ExpandPsk(s.psk) && k.hash == ChannelHash(k.name, k.key)
      && k.name == (if s.name != [] then s.name else if e.usePreset then PresetName(e.modemPreset) else Ascii("Custom"))
  {
    hide Keys, ChannelHash, ExpandPsk, PresetName, Ascii;
    ListingKeys(e, R);
  }

  /** Entry i of the list is the first that goes by this name: by its own, or as the unnamed primary. */
  ghost predicate FirstNamed(cs: seq<ChannelKey>, name: Name, default: Name, i: nat) {
    && i < |cs| && (cs[i].name == name || (cs[i].name == [] && cs[i].index == 0 && name == default))
    && forall j :: 0 <= j < i ==>
         cs[j].name != name && !(cs[j].name == [] && cs[j].index == 0 && name == default)
  }

  /** After the merge, the first entry that goes by a Raven name holds the PSK that the list gives for it last. */
  lemma LastPskExactly(device: seq<ChannelKey>, raven: seq<RavenChannel>, default: Name, n: nat)
    requires Named(raven) && n < |raven| && forall k :: n < k < |raven| ==> raven[k].name != raven[n].name
    ensures exists i: nat :: FirstNamed(MergeAll(device, raven, default).merged, raven[n].name, default, i)
              && MergeAll(device, raven, default).merged[i].key == ExpandPsk(raven[n].psk)
  {
    LastPskIs(raven, n);
    LastPskHolds(device, raven, default, raven[n].name);
    hide MergeAll, ExpandPsk, LastPsk, Named;
    var merged := MergeAll(device, raven, default).merged;
    var i := FindName(merged, raven[n].name, default);
    assert FirstNamed(merged, raven[n].name, default, i);
  }

  lemma {:induction false} LastPskIs(raven: seq<RavenChannel>, n: nat)
    requires n < |raven| && forall k :: n < k < |raven| ==> raven[k].name != raven[n].name
    ensures LastPsk(raven, raven[n].name) == Some(raven[n].psk)
    decreases |raven|
  {
    if n == |raven| - 1 {
    } else {
      LastPskIs(raven[..|raven| - 1], n);
    }
  }

  /** The highest index of a list: 0 if it is empty, and otherwise the index of an entry that none exceeds. */
  lemma {:induction false} MaxIndexExactly(cs: seq<ChannelKey>)
    ensures cs == [] ==> MaxIndex(cs) == 0
    ensures cs != [] ==> exists i :: 0 <= i < |cs| && cs[i].index == MaxIndex(cs)
    ensures forall i :: 0 <= i < |cs| ==> cs[i].index <= MaxIndex(cs)
    decreases |cs|
  {
    if cs == [] {
    } else {
      var n := |cs| - 1;
      MaxIndexExactly(cs[..n]);
      if cs[n].index > MaxIndex(cs[..n]) || n == 0 {
        assert cs[n].index == MaxIndex(cs);
      } else {
        var i :| 0 <= i < n && cs[..n][i].index == MaxIndex(cs[..n]);
        assert cs[i].index == MaxIndex(cs);
      }
    }
  }
}
