/** Startup over many sessions: what the radio and the bridge hold when installation completes, is
    interrupted, or is repeated. */
module Convergence {
  import opened Bytes
  import opened Protocol
  import opened ChannelKeys
  import opened ChannelMerge
  import opened RadioTable
  import opened ChannelInstall
  import Rerun

  // ----- tables that differ only in downlink flags -----

  lemma SimilarAt(a: seq<Channel>, b: seq<Channel>)
    requires Similar(a, b)
    ensures |a| == |b|
    ensures forall i :: 0 <= i < |a| ==> SetDownlink(a[i]) == SetDownlink(b[i]) && a[i].index == b[i].index
    ensures forall i :: 0 <= i < |a| ==> (a[i].settings.Some? <==> b[i].settings.Some?)
  {
    assert |AllDownlink(a)| == |AllDownlink(b)|;
    forall i | 0 <= i < |a|
      ensures SetDownlink(a[i]) == SetDownlink(b[i]) && a[i].index == b[i].index
      ensures a[i].settings.Some? <==> b[i].settings.Some?
    {
      assert AllDownlink(a)[i] == AllDownlink(b)[i];
      SameUpToDownlink(a[i], b[i]);
    }
  }

  lemma {:induction false} SimilarKeyLists(e: Env, a: seq<Channel>, b: seq<Channel>)
    requires |a| == |b| && forall i :: 0 <= i < |a| ==> SetDownlink(a[i]) == SetDownlink(b[i])
    ensures Keys(e, a) == Keys(e, b)
    decreases |a|
  {
    hide SetDownlink, KeyOfChannel;
    if a == [] {
    } else {
      var n := |a| - 1;
      SimilarKeyLists(e, a[..n], b[..n]);
      SameUpToDownlink(a[n], b[n]);
      SameKeyUpToDownlink(e, a[n], b[n]);
    }
  }

  lemma SimilarKeys(e: Env, a: seq<Channel>, b: seq<Channel>)
    requires Similar(a, b)
    ensures |a| == |b| && Keys(e, a) == Keys(e, b) && High(a) == High(b)
    ensures forall i :: 0 <= i < |a| ==> a[i].index == b[i].index && SetDownlink(a[i]) == SetDownlink(b[i])
    ensures WellFormed(a) ==> WellFormed(b)
  {
    hide SetDownlink, Keys;
    SimilarAt(a, b);
    SimilarKeyLists(e, a, b);
  }

  lemma SameUpToDownlink(a: Channel, b: Channel)
    requires SetDownlink(a) == SetDownlink(b)
    ensures a.index == b.index && (a.settings.Some? <==> b.settings.Some?)
  {
  }

  lemma SameKeyUpToDownlink(e: Env, a: Channel, b: Channel)
    requires SetDownlink(a) == SetDownlink(b)
    ensures a.settings.Some? ==>
      KeyOfChannel(a, e.usePreset, e.modemPreset) == KeyOfChannel(b, e.usePreset, e.modemPreset)
  {
  }

  lemma SimilarStep(e: Env, a: seq<Channel>, b: seq<Channel>, rc: RavenChannel)
    requires Similar(a, b)
    ensures Similar(TableStep(e, a, rc), TableStep(e, b, rc))
  {
    hide TableStep, Similar, SetDownlink, Keys, High, FindName, PresetName, FromProto, MakeChannel, WellFormed;
    SimilarKeys(e, a, b);
    var i := FindName(Keys(e, a), rc.name, e.Default());
    StepIs(e, a, rc, i);
    StepIs(e, b, rc, i);
    if i == |Keys(e, a)| || i >= |a| {
      SimilarMore(a, b, MakeChannel(High(a) + 1, 2, rc.name, rc.psk));
    } else {
      assert Update(a, i, rc) == Update(b, i, rc);
      SimilarUpdate(a, b, i, Update(a, i, rc));
    }
  }

  lemma StepIs(e: Env, R: seq<Channel>, rc: RavenChannel, i: nat)
    requires i == FindName(Keys(e, R), rc.name, e.Default())
    ensures TableStep(e, R, rc) ==
              if i == |Keys(e, R)| || i >= |R| then R + [MakeChannel(High(R) + 1, 2, rc.name, rc.psk)]
              else if Keys(e, R)[i].key == FromProto(Keys(e, R)[i].index, rc.name, rc.psk).key then R
              else R[i := Update(R, i, rc)]
  {
    hide FindName, Keys, High, PresetName, FromProto, MakeChannel, Update;
  }

  lemma SimilarMore(a: seq<Channel>, b: seq<Channel>, ch: Channel)
    requires Similar(a, b)
    ensures Similar(a + [ch], b + [ch])
  {
    DownlinkOfMore(a, ch);
    DownlinkOfMore(b, ch);
  }

  lemma SimilarUpdate(a: seq<Channel>, b: seq<Channel>, i: nat, ch: Channel)
    requires Similar(a, b) && i < |a| && i < |b|
    ensures Similar(a[i := ch], b[i := ch])
  {
    DownlinkOfUpdate(a, i, ch);
    DownlinkOfUpdate(b, i, ch);
    hide AllDownlink, SetDownlink;
  }

  lemma DownlinkOfMore(R: seq<Channel>, ch: Channel)
    ensures AllDownlink(R + [ch]) == AllDownlink(R) + [SetDownlink(ch)]
  {
    assert (R + [ch])[..|R|] == R;
  }

  lemma DownlinkOfUpdate(R: seq<Channel>, i: nat, ch: Channel)
    requires i < |R|
    ensures AllDownlink(R[i := ch]) == AllDownlink(R)[i := SetDownlink(ch)]
  {
    AllDownlinkIs(R[i := ch], AllDownlink(R)[i := SetDownlink(ch)]);
  }

  lemma {:induction false} SimilarAll(e: Env, a: seq<Channel>, b: seq<Channel>, raven: seq<RavenChannel>)
    requires Similar(a, b)
    ensures Similar(TableAll(e, a, raven), TableAll(e, b, raven))
    decreases |raven|
  {
    hide TableStep, Similar;
    if raven == [] {
    } else {
      var n := |raven| - 1;
      SimilarAll(e, a, b, raven[..n]);
      SimilarStep(e, TableAll(e, a, raven[..n]), TableAll(e, b, raven[..n]), raven[n]);
    }
  }

  // ----- the extra downlink installs -----

  lemma {:induction false} MissingElements(R: seq<Channel>, T: seq<Channel>)
    ensures forall x :: x in Missing(R, T) ==> x in R && !Touches(T, x.index)
    ensures forall x :: x in R && !HasDownlink(x) ==> Touches(T + Missing(R, T), x.index)
    decreases |R|
  {
    if R == [] {
    } else {
      var n := |R| - 1;
      MissingElements(R[..n], T);
      var before, ch := Missing(R[..n], T), R[n];
      assert R == R[..n] + [ch];
      var after := Missing(R, T);
      assert before <= after;
      forall x | x in R && !HasDownlink(x)
        ensures Touches(T + after, x.index)
      {
        if x in R[..n] {
          assert Touches(T + before, x.index);
          TouchesMore(T + before, T + after, x.index);
        } else if after == before {
          TouchesMore(T + before, T + after, x.index);
        } else {
          assert ch in T + after;
        }
      }
      assert Touches(T, ch.index) ==> Touches(T + before, ch.index);
    }
  }

  lemma TouchesMore(a: seq<Channel>, b: seq<Channel>, index: int)
    requires Touches(a, index) && forall x :: x in a ==> x in b
    ensures Touches(b, index)
  {
  }

  /** Re-installing untouched channels as they are changes nothing. */
  lemma MissingChangeNothing(R: seq<Channel>, T: seq<Channel>, n: nat)
    requires Ascending(R) && n <= |Missing(R, T)|
    ensures InstallAll(R, T + Missing(R, T)[..n]) == InstallAll(R, T)
  {
    MissingElements(R, T);
    InstallAllElements(R, T);
    InstallAllConcat(R, T, Missing(R, T)[..n]);
    var part := Missing(R, T)[..n];
    assert forall c :: c in part ==> c in Missing(R, T);
    InstallPresent(InstallAll(R, T), part);
  }

  // ----- one session -----

  lemma SetDownlinkTouches(X: seq<Channel>, index: int)
    ensures Touches(AllDownlink(X), index) <==> Touches(X, index)
  {
    var D := AllDownlink(X);
    if Touches(X, index) {
      var c :| c in X && c.index == index;
      var i :| 0 <= i < |X| && X[i] == c;
      assert D[i] in D && D[i].index == index;
    }
    if Touches(D, index) {
      var c :| c in D && c.index == index;
      var i :| 0 <= i < |D| && D[i] == c;
      assert X[i] in X && X[i].index == index;
    }
  }

  /** Every channel of the table has downlink once the plan is carried out. */
  lemma PlanSetsDownlink(R: seq<Channel>, T: seq<Channel>)
    requires Ascending(R)
    ensures var S := InstallAll(R, AllDownlink(T + Missing(R, T)));
            forall x :: x in S ==> SetDownlink(x) == x
  {
    var X := T + Missing(R, T);
    var S := InstallAll(R, AllDownlink(X));
    InstallAllElements(R, AllDownlink(X));
    MissingElements(R, T);
    forall x | x in S
      ensures SetDownlink(x) == x
    {
      SetDownlinkTouches(X, x.index);
      if x in AllDownlink(X) {
        var i :| 0 <= i < |X| && AllDownlink(X)[i] == x;
        DownlinkKeepsIndex(X[i]);
      } else {
        assert HasDownlink(x);
      }
    }
  }

  lemma ListingAscends(R: seq<Channel>)
    requires Listing(R)
    ensures Ascending(R)
  {
  }

  lemma {:induction false} InstalledHaveSettings(device: seq<ChannelKey>, raven: seq<RavenChannel>, default: Name)
    ensures forall x :: x in MergeAll(device, raven, default).toInstall ==> x.settings.Some?
    decreases |raven|
  {
    hide FindName, FromProto;
    if raven == [] {
    } else {
      InstalledHaveSettings(device, raven[..|raven| - 1], default);
    }
  }

  lemma InstalledKeepSettings(R: seq<Channel>, X: seq<Channel>)
    requires Ascending(R) && forall x :: x in R || x in X ==> x.settings.Some?
    ensures forall x :: x in InstallAll(R, AllDownlink(X)) ==> x.settings.Some?
  {
    InstallAllElements(R, AllDownlink(X));
    forall x | x in AllDownlink(X)
      ensures x.settings.Some?
    {
      var i :| 0 <= i < |X| && AllDownlink(X)[i] == x;
      assert X[i] in X;
    }
  }

  /** Whatever Raven's list says, every channel of the radio has downlink after a session in proxy mode. */
  lemma SettledHasDownlink(e: Env, R: seq<Channel>)
    requires Listing(R) && e.mqttProxy
    ensures forall x :: x in AfterSession(e, R) ==> x.settings.Some? && x.settings.value.downlink
  {
    ListingAscends(R);
    assert forall x :: x in R ==> x.settings.Some?;
    hide MergeAll, Keys, InstallAll, AllDownlink, Missing, Ascending, PresetName;
    var T := Merging(e, R).toInstall;
    PlanSetsDownlink(R, T);
    MissingElements(R, T);
    InstalledHaveSettings(Keys(e, R), e.raven, e.Default());
    InstalledKeepSettings(R, T + Missing(R, T));
  }

  lemma FixedByDownlink(S: seq<Channel>)
    requires forall x :: x in S ==> SetDownlink(x) == x
    ensures AllDownlink(S) == S
  {
    AllDownlinkIs(S, S);
  }

  /** A complete session leaves the table of its Raven list, with downlink everywhere in proxy mode. */
  lemma SessionOutcome(e: Env, R: seq<Channel>)
    requires Fits(e, R, e.raven) && Named(e.raven)
    ensures var t := TableAll(e, R, e.raven);
            AfterSession(e, R) == if e.mqttProxy then AllDownlink(t) else t
  {
    ListingAscends(R);
    MergeLockstep(e, R, e.raven);
    hide WellFormed, TableAll, MergeAll, Keys, High, InstallAll, AllDownlink, Missing, SetDownlink, Lockstep;
    var T, t := Merging(e, R).toInstall, TableAll(e, R, e.raven);
    if e.mqttProxy {
      var X := T + Missing(R, T);
      InstallDownlinkedIsSimilar(R, X);
      MissingChangeNothing(R, T, |Missing(R, T)|);
      assert Missing(R, T)[..|Missing(R, T)|] == Missing(R, T);
      PlanSetsDownlink(R, T);
      FixedByDownlink(AfterSession(e, R));
    }
  }

  // ----- agreement -----

  lemma {:induction false} KeysAreNamed(e: Env, R: seq<Channel>)
    ensures forall k :: k in Keys(e, R) ==> k.name != []
    decreases |R|
  {
    if R == [] {
    } else {
      KeysAreNamed(e, R[..|R| - 1]);
    }
  }

  ghost predicate HasUnnamed(cs: seq<ChannelKey>) {
    exists c :: c in cs && c.name == []
  }

  /** Unnamed entries have come in behind the index `high`, and are being installed. */
  ghost predicate UnnamedAreNew(m: Merge, high: u32) {
    && high <= m.maxIndex
    && forall j :: 0 <= j < |m.merged| && m.merged[j].name == [] ==>
         high < m.merged[j].index <= m.maxIndex && Touches(m.toInstall, m.merged[j].index)
  }

  lemma UnnamedFound(m: Merge, high: u32, rc: RavenChannel, default: Name)
    requires default != [] && UnnamedAreNew(m, high)
    requires FindName(m.merged, rc.name, default) < |m.merged|
    ensures var n := MergeStep(m, rc, default);
            && UnnamedAreNew(n, high) && n.maxIndex == m.maxIndex
            && (HasUnnamed(m.merged) || rc.name == [] ==> HasUnnamed(n.merged))
  {
    var i := FindName(m.merged, rc.name, default);
    assert m.merged[i].name == rc.name;
    var index := m.merged[i].index;
    var ck := FromProto(index, rc.name, rc.psk);
    var ch := MakeChannel(AsI32(index), RoleAt(index), rc.name, rc.psk);
    NamedFrom(index, rc.name, rc.psk);
    hide FindName, FromProto, MakeChannel, AsI32, RoleAt, PresetName;
    assert m.merged[i] in m.merged;
    if m.merged[i].key != ck.key {
      assert MergeStep(m, rc, default) == Merge(m.merged[i := ck], m.toInstall + [ch], m.maxIndex);
      forall j | 0 <= j < |m.merged| && m.merged[j].name == []
        ensures Touches(m.toInstall + [ch], m.merged[j].index)
      {
        TouchesMore(m.toInstall, m.toInstall + [ch], m.merged[j].index);
      }
      SameNames(m.merged, m.merged[i := ck]);
    }
  }

  lemma SameNames(a: seq<ChannelKey>, b: seq<ChannelKey>)
    requires |a| == |b| && forall j :: 0 <= j < |a| ==> a[j].name == b[j].name
    ensures HasUnnamed(a) ==> HasUnnamed(b)
  {
    if HasUnnamed(a) {
      var c :| c in a && c.name == [];
      var j :| 0 <= j < |a| && a[j] == c;
      assert b[j] in b;
    }
  }

  lemma UnnamedAdded(m: Merge, high: u32, rc: RavenChannel, default: Name)
    requires UnnamedAreNew(m, high) && m.maxIndex + 1 < 0x8000_0000
    requires FindName(m.merged, rc.name, default) == |m.merged|
    ensures var n := MergeStep(m, rc, default);
            && UnnamedAreNew(n, high) && n.maxIndex == m.maxIndex + 1
            && (HasUnnamed(m.merged) || rc.name == [] ==> HasUnnamed(n.merged))
  {
    hide FindName, FromProto, MakeChannel, AsI32, AsU32, PresetName;
    IndexCasts(m.maxIndex + 1);
    NamedFrom(m.maxIndex + 1, rc.name, rc.psk);
    MadeIndex(m.maxIndex + 1, 2, rc.name, rc.psk);
    var ck, ch := FromProto(m.maxIndex + 1, rc.name, rc.psk), MakeChannel(m.maxIndex + 1, 2, rc.name, rc.psk);
    var n := MergeStep(m, rc, default);
    assert n == Merge(m.merged + [ck], m.toInstall + [ch], m.maxIndex + 1);
    assert ck in n.merged && ch in n.toInstall;
    assert forall c :: c in m.merged ==> c in n.merged;
    forall j | 0 <= j < |m.merged| && m.merged[j].name == []
      ensures Touches(n.toInstall, m.merged[j].index)
    {
      TouchesMore(m.toInstall, n.toInstall, m.merged[j].index);
    }
  }

  /** An unnamed Raven channel leaves an unnamed entry behind the radio's indices, which nothing later
      renames. */
  lemma {:induction false} UnnamedStays(device: seq<ChannelKey>, raven: seq<RavenChannel>, default: Name)
    requires default != [] && !HasUnnamed(device) && MaxIndex(device) + |raven| < 0x8000_0000
    ensures var m := MergeAll(device, raven, default);
            && UnnamedAreNew(m, MaxIndex(device)) && m.maxIndex <= MaxIndex(device) + |raven|
            && (!Named(raven) ==> HasUnnamed(m.merged))
    decreases |raven|
  {
    if raven == [] {
      assert forall j :: 0 <= j < |device| ==> device[j] in device;
    } else {
      var n := |raven| - 1;
      assert raven == raven[..n] + [raven[n]];
      assert Named(raven) <==> Named(raven[..n]) && raven[n].name != [];
      hide UnnamedAreNew, HasUnnamed, MergeStep, FindName, MaxIndex, Named;
      UnnamedStays(device, raven[..n], default);
      var m := MergeAll(device, raven[..n], default);
      if FindName(m.merged, raven[n].name, default) < |m.merged| {
        UnnamedFound(m, MaxIndex(device), raven[n], default);
      } else {
        UnnamedAdded(m, MaxIndex(device), raven[n], default);
      }
    }
  }

  lemma NamedAgree(e: Env, R: seq<Channel>)
    requires Fits(e, R, e.raven) && Named(e.raven)
    ensures Keys(e, AfterSession(e, R)) == Merging(e, R).merged
  {
    var t := TableAll(e, R, e.raven);
    SessionOutcome(e, R);
    MergeLockstep(e, R, e.raven);
    AllDownlinkTwice(t);
    if e.mqttProxy {
      SimilarKeys(e, AllDownlink(t), t);
    }
  }

  /** After installation the radio's own report gives exactly the channel keys the bridge runs with - if
      and only if every Raven channel has a name. */
  lemma BridgeAndRadioAgree(e: Env, R: seq<Channel>)
    requires Room(R, |e.raven|)
    ensures Keys(e, AfterSession(e, R)) == Merging(e, R).merged <==> Named(e.raven)
  {
    hide Keys, MergeAll, MaxIndex, High, PresetName, AfterSession, Listing, WellFormed, UnnamedAreNew, Named;
    HighIsMaxIndex(e, R);
    KeysAreNamed(e, R);
    KeysAreNamed(e, AfterSession(e, R));
    UnnamedStays(Keys(e, R), e.raven, e.Default());
    if Named(e.raven) {
      RoomFits(e, R, e.raven);
      NamedAgree(e, R);
    }
  }

  // ----- interruption -----

  /** The list a session installs, before downlink is set on it. */
  ghost function Bare(e: Env, R: seq<Channel>): seq<Channel> {
    var T := Merging(e, R).toInstall;
    if e.mqttProxy then T + Missing(R, T) else T
  }

  lemma BarePart(e: Env, R: seq<Channel>, c: nat)
    requires Fits(e, R, e.raven) && Named(e.raven) && c <= |Bare(e, R)|
    ensures exists k :: 0 <= k <= |e.raven| && InstallAll(R, Bare(e, R)[..c]) == TableAll(e, R, e.raven[..k])
  {
    hide TableAll, MergeAll, Keys, High, Listing, InstallAll, Missing, PresetName;
    var T := Merging(e, R).toInstall;
    if c <= |T| {
      PartIsShorterList(e, R, e.raven, c);
      assert Bare(e, R)[..c] == T[..c];
    } else {
      hide Ascending, Bare, Named;
      ListingAscends(R);
      BareTail(e, R, c);
      RavenInstalls(e, R);
      assert e.raven[..|e.raven|] == e.raven;
    }
  }

  lemma MissingTail(R: seq<Channel>, T: seq<Channel>, c: nat)
    requires Ascending(R) && |T| <= c <= |T + Missing(R, T)|
    ensures InstallAll(R, (T + Missing(R, T))[..c]) == InstallAll(R, T)
  {
    hide Missing, InstallAll;
    assert (T + Missing(R, T))[..c] == T + Missing(R, T)[..c - |T|];
    MissingChangeNothing(R, T, c - |T|);
  }

  lemma BareTail(e: Env, R: seq<Channel>, c: nat)
    requires Ascending(R) && |Merging(e, R).toInstall| <= c <= |Bare(e, R)|
    ensures InstallAll(R, Bare(e, R)[..c]) == InstallAll(R, Merging(e, R).toInstall)
  {
    hide InstallAll, Merging, Missing, Ascending;
    var T := Merging(e, R).toInstall;
    if e.mqttProxy {
      MissingTail(R, T, c);
    } else {
      assert Bare(e, R)[..c] == T;
    }
  }

  /** A session stopped early leaves, up to downlink flags, the table of a shorter Raven list. */
  lemma PartOutcome(e: Env, R: seq<Channel>, n: nat)
    requires Fits(e, R, e.raven) && Named(e.raven)
    ensures exists k :: 0 <= k <= |e.raven| && ReachedBy(e, R, AfterPart(e, R, n), k)
  {
    var X := Bare(e, R);
    var c := if n <= |X| then n else |X|;
    BarePart(e, R, c);
    assert X[..|X|] == X;
    hide TableAll, MergeAll, InstallAll, Missing, PresetName, AllDownlink;
    var k :| 0 <= k <= |e.raven| && InstallAll(R, X[..c]) == TableAll(e, R, e.raven[..k]);
    PartReaches(e, R, X, n, k);
  }

  ghost predicate ReachedBy(e: Env, R: seq<Channel>, now: seq<Channel>, k: nat)
    requires k <= |e.raven|
  {
    var t := TableAll(e, R, e.raven[..k]);
    Similar(now, t) && (!e.mqttProxy ==> now == t)
  }

  lemma PartReaches(e: Env, R: seq<Channel>, X: seq<Channel>, n: nat, k: nat)
    requires Plan(e, R) == if e.mqttProxy then AllDownlink(X) else X
    requires k <= |e.raven|
    requires InstallAll(R, if n <= |X| then X[..n] else X) == TableAll(e, R, e.raven[..k])
    ensures ReachedBy(e, R, AfterPart(e, R, n), k)
  {
    hide Plan, TableAll, InstallAll, SetDownlink;
    var Y := if n <= |X| then X[..n] else X;
    if e.mqttProxy {
      assert n <= |X| ==> AllDownlink(X)[..n] == AllDownlink(X[..n]);
      InstallDownlinkedIsSimilar(R, Y);
    }
  }

  /** The table after several sessions, the i-th of them stopped after stops[i] installs. */
  ghost function AfterParts(e: Env, R: seq<Channel>, stops: seq<nat>): seq<Channel>
    decreases |stops|
  {
    if stops == [] then R else AfterPart(e, AfterParts(e, R, stops[..|stops| - 1]), stops[|stops| - 1])
  }

  /** From `now` a complete session leaves what it would have left from R. */
  ghost predicate StillOn(e: Env, R: seq<Channel>, now: seq<Channel>) {
    var a, b := TableAll(e, now, e.raven), TableAll(e, R, e.raven);
    WellFormed(now) && Similar(a, b) && (!e.mqttProxy ==> a == b)
  }

  lemma StillFits(e: Env, R: seq<Channel>, now: seq<Channel>)
    requires Fits(e, R, e.raven) && StillOn(e, R, now)
    ensures Fits(e, now, e.raven)
  {
    hide TableAll, WellFormed, Similar, High;
    SimilarKeys(e, TableAll(e, now, e.raven), TableAll(e, R, e.raven));
  }

  lemma PartStaysOn(e: Env, R: seq<Channel>, n: nat)
    requires Fits(e, R, e.raven) && Named(e.raven)
    ensures StillOn(e, R, AfterPart(e, R, n))
  {
    PartOutcome(e, R, n);
    var now := AfterPart(e, R, n);
    var k :| 0 <= k <= |e.raven| && ReachedBy(e, R, now, k);
    var t := TableAll(e, R, e.raven[..k]);
    FitsInPart(e, R, e.raven, k);
    Rerun.PartThenAll(e, R, e.raven, k);
    hide TableAll, Keys, High, AfterPart, WellFormed, SetDownlink;
    assert Similar(t, now);
    SimilarKeys(e, t, now);
    SimilarAll(e, now, t, e.raven);
  }

  lemma {:induction false} PartsStayOn(e: Env, R: seq<Channel>, stops: seq<nat>)
    requires Fits(e, R, e.raven) && Named(e.raven)
    ensures StillOn(e, R, AfterParts(e, R, stops))
    decreases |stops|
  {
    if stops == [] {
      assert AfterParts(e, R, stops) == R;
    } else {
      var n := |stops| - 1;
      var before := AfterParts(e, R, stops[..n]);
      PartsStayOn(e, R, stops[..n]);
      StillFits(e, R, before);
      PartStaysOn(e, before, stops[n]);
      var now := AfterPart(e, before, stops[n]);
      assert AfterParts(e, R, stops) == now;
      hide TableAll, Keys, High, AfterPart, WellFormed, AllDownlink;
      SimilarTransitive(TableAll(e, now, e.raven), TableAll(e, before, e.raven), TableAll(e, R, e.raven));
    }
  }

  lemma SimilarTransitive(a: seq<Channel>, b: seq<Channel>, c: seq<Channel>)
    requires Similar(a, b) && Similar(b, c)
    ensures Similar(a, c)
  {
  }

  /** However many sessions are interrupted, and wherever, one that completes leaves the radio with the
      table an uninterrupted session would have left. */
  lemma InstallationIsRestartable(e: Env, R: seq<Channel>, stops: seq<nat>)
    requires Fits(e, R, e.raven) && Named(e.raven)
    ensures AfterSession(e, AfterParts(e, R, stops)) == AfterSession(e, R)
  {
    var now := AfterParts(e, R, stops);
    PartsStayOn(e, R, stops);
    StillFits(e, R, now);
    hide TableAll, Keys, High, AfterSession, AfterParts, WellFormed, AllDownlink;
    SessionOutcome(e, now);
    SessionOutcome(e, R);
  }

  // ----- nothing left to install -----

  lemma {:induction false} NothingToInstall(cs: seq<ChannelKey>, raven: seq<RavenChannel>, default: Name)
    ensures MergeAll(cs, raven, default).toInstall == []
       <==> forall rc :: rc in raven ==> Holds(cs, rc.name, default, ExpandPsk(rc.psk))
    ensures MergeAll(cs, raven, default).toInstall == [] ==> MergeAll(cs, raven, default).merged == cs
    decreases |raven|
  {
    hide MergeStep, Holds, ExpandPsk;
    if raven == [] {
    } else {
      var n := |raven| - 1;
      NothingToInstall(cs, raven[..n], default);
      StepInstalls(MergeAll(cs, raven[..n], default), raven[n], default);
      assert raven == raven[..n] + [raven[n]];
    }
  }

  lemma StepInstalls(m: Merge, rc: RavenChannel, default: Name)
    ensures var n := MergeStep(m, rc, default);
            if Holds(m.merged, rc.name, default, ExpandPsk(rc.psk)) then n == m
            else |n.toInstall| == |m.toInstall| + 1
  {
    hide FindName, ExpandPsk, MakeChannel, ChannelHash;
  }

  lemma {:induction false} NothingMissing(R: seq<Channel>)
    requires forall x :: x in R ==> HasDownlink(x)
    ensures Missing(R, []) == []
    decreases |R|
  {
    if R == [] {
    } else {
      assert R[|R| - 1] in R;
      NothingMissing(R[..|R| - 1]);
    }
  }

  /** From no table at all does a session install nothing if a Raven channel is unnamed or a name has two
      keys: such a list keeps every session installing. */
  lemma QuietOnlyIf(e: Env, R: seq<Channel>)
    requires Plan(e, R) == []
    ensures Named(e.raven) && Consistent(e.raven)
  {
    hide MergeAll, Missing, Keys, ExpandPsk, PresetName, FindName;
    var T, keys := Merging(e, R).toInstall, Keys(e, R);
    assert e.mqttProxy ==> |AllDownlink(T + Missing(R, T))| == |T| + |Missing(R, T)|;
    assert T == [];
    NothingToInstall(keys, e.raven, e.Default());
    KeysAreNamed(e, R);
    forall rc | rc in e.raven
      ensures rc.name != []
    {
      assert Holds(keys, rc.name, e.Default(), ExpandPsk(rc.psk));
      assert keys[FindName(keys, rc.name, e.Default())] in keys;
    }
    forall a, b | a in e.raven && b in e.raven && a.name == b.name
      ensures ExpandPsk(a.psk) == ExpandPsk(b.psk)
    {
      assert Holds(keys, a.name, e.Default(), ExpandPsk(a.psk)) && Holds(keys, b.name, e.Default(), ExpandPsk(b.psk));
    }
  }

  lemma SettledInstallsNothing(e: Env, R: seq<Channel>)
    requires Fits(e, R, e.raven) && Named(e.raven) && Consistent(e.raven)
    ensures Plan(e, AfterSession(e, R)) == []
  {
    hide TableAll, MergeAll, Missing, InstallAll, Keys, ExpandPsk, PresetName, FindName, AfterSession, Holds;
    hide WellFormed, Listing, Consistent, AllDownlink, High;
    var t, S := TableAll(e, R, e.raven), AfterSession(e, R);
    SessionOutcome(e, R);
    AllDownlinkTwice(t);
    SimilarKeys(e, S, t);
    NothingToInstall(Keys(e, S), e.raven, e.Default());
    forall rc | rc in e.raven
      ensures Holds(Keys(e, S), rc.name, e.Default(), ExpandPsk(rc.psk))
    {
      AllSettled(e, R, e.raven, rc);
    }
    if e.mqttProxy {
      WellFormedIsBounded(R);
      SettledHasDownlink(e, R);
      NothingMissing(S);
      EmptyDownlink();
    }
  }

  lemma EmptyDownlink()
    ensures AllDownlink([] + []) == []
  {
  }

  /** After a complete session the next one installs nothing - if and only if Raven's channels all have
      names and none has two keys. */
  lemma NextSessionInstallsNothing(e: Env, R: seq<Channel>)
    requires Fits(e, R, e.raven)
    ensures Plan(e, AfterSession(e, R)) == [] <==> Named(e.raven) && Consistent(e.raven)
  {
    hide Plan, AfterSession, Fits, Named, Consistent;
    if Plan(e, AfterSession(e, R)) == [] {
      QuietOnlyIf(e, AfterSession(e, R));
    }
    if Named(e.raven) && Consistent(e.raven) {
      SettledInstallsNothing(e, R);
    }
  }
}
