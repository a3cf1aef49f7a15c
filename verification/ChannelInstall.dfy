/** Installing the merged channels on the radio (run_session in src/main.rs): the radio and the bridge
    agree afterwards, and startup converges however often it is interrupted. */
module ChannelInstall {
  import opened Bytes
  import opened Protocol
  import opened ChannelKeys
  import opened ChannelMerge
  import opened RadioTable

  /** What stays the same from session to session: the LoRa preset, Raven's list, and whether packets
      enter the radio through its MQTT proxy. */
  datatype Env = Env(usePreset: bool, modemPreset: int, raven: seq<RavenChannel>, mqttProxy: bool) {
    function Default(): Name {
      PresetName(modemPreset)
    }
  }

  function Keys(e: Env, R: seq<Channel>): seq<ChannelKey> {
    KeysOf(R, e.usePreset, e.modemPreset)
  }

  function Merging(e: Env, R: seq<Channel>): Merge {
    MergeAll(Keys(e, R), e.raven, e.Default())
  }

  function High(R: seq<Channel>): int {
    if R == [] then 0 else R[|R| - 1].index
  }

  // ----- what a session installs -----

  /** Reported channels without downlink that are not being installed anyway. */
  ghost function Missing(R: seq<Channel>, T: seq<Channel>): seq<Channel>
    decreases |R|
  {
    if R == [] then []
    else
      var before, ch := Missing(R[..|R| - 1], T), R[|R| - 1];
      if !HasDownlink(ch) && !Touches(T + before, ch.index) then before + [ch] else before
  }

  /** The list a session installs. */
  ghost function Plan(e: Env, R: seq<Channel>): seq<Channel> {
    var T := Merging(e, R).toInstall;
    if e.mqttProxy then AllDownlink(T + Missing(R, T)) else T
  }

  method PlanInstall(mqttProxy: bool, R: seq<Channel>, T: seq<Channel>) returns (toInstall: seq<Channel>)
    ensures toInstall == if mqttProxy then AllDownlink(T + Missing(R, T)) else T
  {
    toInstall := T;
    if mqttProxy {
      for i := 0 to |R|
        invariant toInstall == T + Missing(R[..i], T)
      {
        assert R[..i + 1][..i] == R[..i];
        var ch := R[i];
        var downlink := ch.settings.Some? && ch.settings.value.downlink;
        var listed := exists c :: c in toInstall && c.index == ch.index;
        if !downlink && !listed {
          toInstall := toInstall + [ch];
        }
      }
      assert R[..|R|] == R;
      ghost var before := toInstall;
      for i := 0 to |toInstall|
        invariant |toInstall| == |before|
        invariant forall k :: 0 <= k < i ==> toInstall[k] == SetDownlink(before[k])
        invariant forall k :: i <= k < |before| ==> toInstall[k] == before[k]
      {
        if toInstall[i].settings.Some? {
          var settings := toInstall[i].settings.value;
          toInstall := toInstall[i := toInstall[i].(settings := Some(settings.(downlink := true)))];
        }
      }
      AllDownlinkIs(before, toInstall);
    }
  }

  /** The radio's table after a complete session. */
  ghost function AfterSession(e: Env, R: seq<Channel>): seq<Channel> {
    InstallAll(R, Plan(e, R))
  }

  /** The radio's table after a session that stopped once n channels were installed. */
  ghost function AfterPart(e: Env, R: seq<Channel>, n: nat): seq<Channel> {
    var plan := Plan(e, R);
    InstallAll(R, if n <= |plan| then plan[..n] else plan)
  }

  // ----- keys of a table -----

  lemma {:induction false} KeysAt(e: Env, R: seq<Channel>)
    requires forall i :: 0 <= i < |R| ==> R[i].settings.Some?
    ensures |Keys(e, R)| == |R|
    ensures forall i :: 0 <= i < |R| ==> Keys(e, R)[i] == KeyOfChannel(R[i], e.usePreset, e.modemPreset)
    decreases |R|
  {
    hide KeyOfChannel;
    if R == [] {
    } else {
      KeysAt(e, R[..|R| - 1]);
    }
  }

  lemma {:induction false} HighIsMaxIndex(e: Env, R: seq<Channel>)
    requires WellFormed(R)
    ensures MaxIndex(Keys(e, R)) == High(R) && 0 <= High(R) < 0x8000_0000
    decreases |R|
  {
    hide WellFormed, Listing, KeyOfChannel, AsU32, High;
    if R == [] {
      NothingIsZero();
    } else {
      var n := |R| - 1;
      LastIsHighest(R);
      HighIsMaxIndex(e, R[..n]);
      KeyIndex(e, R[n]);
      IndexCasts(R[n].index);
      var keys := Keys(e, R);
      assert keys == Keys(e, R[..n]) + [KeyOfChannel(R[n], e.usePreset, e.modemPreset)];
      assert keys[..|keys| - 1] == Keys(e, R[..n]);
    }
  }

  lemma NothingIsZero()
    ensures High([]) == 0
  {
  }

  lemma LastIsHighest(R: seq<Channel>)
    requires WellFormed(R) && R != []
    ensures var n := |R| - 1;
            && WellFormed(R[..n]) && High(R[..n]) <= R[n].index == High(R)
            && R[n].settings.Some? && 0 <= R[n].index < 0x8000_0000
  {
    var n := |R| - 1;
    assert n > 0 ==> R[n - 1].index < R[n].index;
  }

  lemma ListingKeys(e: Env, R: seq<Channel>)
    requires Listing(R)
    ensures |Keys(e, R)| == |R|
    ensures forall i :: 0 <= i < |R| ==> R[i].settings.Some?
    ensures forall i :: 0 <= i < |R| ==> Keys(e, R)[i] == KeyOfChannel(R[i], e.usePreset, e.modemPreset)
  {
    hide KeyOfChannel, Keys;
    KeysAt(e, R);
  }

  lemma ListingLength(e: Env, R: seq<Channel>)
    requires Listing(R)
    ensures |Keys(e, R)| == |R|
  {
    hide Listing, KeyOfChannel, Keys;
    ListingKeys(e, R);
  }

  lemma ListingKeyNames(e: Env, R: seq<Channel>)
    requires Listing(R)
    ensures |Keys(e, R)| == |R|
    ensures forall i :: 0 <= i < |R| ==> Keys(e, R)[i].name != []
  {
    hide Listing, Keys;
    ListingKeys(e, R);
  }

  // ----- one Raven channel, on the table itself -----

  function Update(R: seq<Channel>, i: nat, rc: RavenChannel): Channel
    requires i < |R|
  {
    MakeChannel(R[i].index, RoleAt(AsU32(R[i].index)), rc.name, rc.psk)
  }

  function TableStep(e: Env, R: seq<Channel>, rc: RavenChannel): seq<Channel> {
    var keys := Keys(e, R);
    var i := FindName(keys, rc.name, e.Default());
    if i == |keys| || i >= |R| then R + [MakeChannel(High(R) + 1, 2, rc.name, rc.psk)]
    else if keys[i].key == FromProto(keys[i].index, rc.name, rc.psk).key then R
    else R[i := Update(R, i, rc)]
  }

  lemma ReplaceStep(e: Env, R: seq<Channel>, i: nat, ch: Channel)
    requires Listing(R) && i < |R| && ch.index == R[i].index && ch.settings.Some?
    ensures Listing(R[i := ch]) && High(R[i := ch]) == High(R)
    ensures |Keys(e, R)| == |R|
    ensures Keys(e, R[i := ch]) == Keys(e, R)[i := KeyOfChannel(ch, e.usePreset, e.modemPreset)]
    ensures Install(R, ch) == R[i := ch]
  {
    hide KeyOfChannel, Keys;
    KeysAt(e, R);
    KeysAt(e, R[i := ch]);
    InstallReplaces(R, ch, i);
  }

  lemma AppendListing(R: seq<Channel>, ch: Channel)
    requires Listing(R) && High(R) < ch.index && ch.settings.Some?
    ensures Listing(R + [ch]) && forall i :: 0 <= i < |R| ==> R[i].index < ch.index
  {
    var n := |R|;
    assert forall i :: 0 <= i < n - 1 ==> R[i].index < R[n - 1].index;
  }

  lemma AppendStep(e: Env, R: seq<Channel>, ch: Channel)
    requires Listing(R) && High(R) < ch.index && ch.settings.Some?
    ensures Listing(R + [ch]) && High(R + [ch]) == ch.index
    ensures Keys(e, R + [ch]) == Keys(e, R) + [KeyOfChannel(ch, e.usePreset, e.modemPreset)]
    ensures Install(R, ch) == R + [ch]
  {
    hide KeyOfChannel, Listing, Install;
    AppendListing(R, ch);
    assert (R + [ch])[..|R|] == R;
    InstallAppends(R, ch);
  }

  lemma MadeKey(e: Env, index: int, role: int, name: Name, psk: seq<byte>)
    requires name != []
    ensures KeyOfChannel(MakeChannel(index, role, name, psk), e.usePreset, e.modemPreset)
         == FromProto(AsU32(index), name, psk)
    ensures FromProto(AsU32(index), name, psk).key == ExpandPsk(psk)
  {
  }

  lemma IndexCasts(index: int)
    requires 0 <= index < 0x8000_0000
    ensures AsU32(index) == index && AsI32(index) == index
  {
  }

  lemma KeyIndex(e: Env, ch: Channel)
    requires ch.settings.Some?
    ensures KeyOfChannel(ch, e.usePreset, e.modemPreset).index == AsU32(ch.index)
  {
  }

  lemma MadeIndex(index: int, role: int, name: Name, psk: seq<byte>)
    ensures MakeChannel(index, role, name, psk).index == index
    ensures MakeChannel(index, role, name, psk).settings.Some?
  {
  }

  /** The place of a name in a table. */
  function Place(e: Env, R: seq<Channel>, name: Name): nat {
    FindName(Keys(e, R), name, e.Default())
  }

  lemma PlaceIsBounded(e: Env, R: seq<Channel>, name: Name)
    requires Listing(R)
    ensures Place(e, R, name) <= |R|
  {
    hide Listing, Keys, FindName;
    ListingLength(e, R);
  }

  /** One table step, seen from the table: nothing, one entry replaced in place, or one appended. */
  lemma StepShape(e: Env, R: seq<Channel>, rc: RavenChannel)
    requires Listing(R)
    ensures |Keys(e, R)| == |R|
    ensures var i, t := Place(e, R, rc.name), TableStep(e, R, rc);
            && Listing(t)
            && (if i == |R| then t == R + [MakeChannel(High(R) + 1, 2, rc.name, rc.psk)] && High(t) == High(R) + 1
                else
                  && t == (if Keys(e, R)[i].key == ExpandPsk(rc.psk) then R else R[i := Update(R, i, rc)])
                  && High(t) == High(R))
  {
    hide Listing, Keys, FindName, PresetName, High, KeyOfChannel, MakeChannel, Install;
    ListingLength(e, R);
    var i := Place(e, R, rc.name);
    if i == |R| {
      MadeIndex(High(R) + 1, 2, rc.name, rc.psk);
      AppendStep(e, R, MakeChannel(High(R) + 1, 2, rc.name, rc.psk));
    } else {
      MadeIndex(R[i].index, RoleAt(AsU32(R[i].index)), rc.name, rc.psk);
      ReplaceStep(e, R, i, Update(R, i, rc));
    }
  }

  function TableAll(e: Env, R: seq<Channel>, raven: seq<RavenChannel>): seq<Channel>
    decreases |raven|
  {
    if raven == [] then R
    else TableStep(e, TableAll(e, R, raven[..|raven| - 1]), raven[|raven| - 1])
  }

  lemma {:induction false} TableConcat(e: Env, R: seq<Channel>, a: seq<RavenChannel>, b: seq<RavenChannel>)
    ensures TableAll(e, R, a + b) == TableAll(e, TableAll(e, R, a), b)
    decreases |b|
  {
    hide TableStep;
    if b == [] {
      assert a + b == a;
    } else {
      assert (a + b)[..|a + b| - 1] == a + b[..|b| - 1];
      TableConcat(e, R, a, b[..|b| - 1]);
    }
  }

  /** A table never shrinks, and every entry of the list takes at most one index. */
  lemma {:induction false} TableGrows(e: Env, R: seq<Channel>, A: seq<RavenChannel>)
    requires Listing(R)
    ensures var t := TableAll(e, R, A);
            Listing(t) && |R| <= |t| && High(R) <= High(t) <= High(R) + |A|
    decreases |A|
  {
    if A == [] {
    } else {
      var n := |A| - 1;
      hide TableStep, Keys, Listing, PresetName, High, Place, MakeChannel, Update;
      TableGrows(e, R, A[..n]);
      PlaceIsBounded(e, TableAll(e, R, A[..n]), A[n].name);
      StepShape(e, TableAll(e, R, A[..n]), A[n]);
    }
  }

  // ----- indices that fit -----

  /** A table of 32-bit indices with n of them free behind its highest. */
  ghost predicate Room(R: seq<Channel>, n: nat) {
    WellFormed(R) && High(R) + n < 0x8000_0000
  }

  /** None of the indices that working through the list gives out is past 31 bits. */
  ghost predicate Fits(e: Env, R: seq<Channel>, raven: seq<RavenChannel>) {
    WellFormed(R) && High(TableAll(e, R, raven)) < 0x8000_0000
  }

  lemma WellFormedIsBounded(R: seq<Channel>)
    ensures WellFormed(R) <==> Listing(R) && High(R) < 0x8000_0000
    ensures Listing(R) ==> 0 <= High(R)
  {
  }

  lemma RoomFits(e: Env, R: seq<Channel>, raven: seq<RavenChannel>)
    requires Room(R, |raven|)
    ensures Fits(e, R, raven)
  {
    hide TableAll, TableStep, High, Listing;
    WellFormedIsBounded(R);
    TableGrows(e, R, raven);
  }

  lemma FitsInPart(e: Env, R: seq<Channel>, raven: seq<RavenChannel>, k: nat)
    requires Fits(e, R, raven) && k <= |raven|
    ensures Fits(e, R, raven[..k]) && WellFormed(TableAll(e, R, raven[..k]))
  {
    hide TableAll, TableStep, High, Listing;
    WellFormedIsBounded(R);
    var t := TableAll(e, R, raven[..k]);
    TableGrows(e, R, raven[..k]);
    TableGrows(e, t, raven[k..]);
    assert raven == raven[..k] + raven[k..];
    TableConcat(e, R, raven[..k], raven[k..]);
    WellFormedIsBounded(t);
  }

  // ----- the merge and the table -----

  /** The merge and the table move together: one merge step installs what one table step changes. */
  ghost predicate Lockstep(e: Env, m: Merge, R: seq<Channel>) {
    WellFormed(R) && m.merged == Keys(e, R) && m.maxIndex == High(R)
  }

  /** n installs on the table R either nothing or one channel more than m, and t is the outcome. */
  ghost predicate InstallsOne(m: Merge, n: Merge, R: seq<Channel>, t: seq<Channel>) {
    || (n == m && t == R)
    || (|n.toInstall| == |m.toInstall| + 1 && n.toInstall[..|m.toInstall|] == m.toInstall
        && t == Install(R, n.toInstall[|m.toInstall|]))
  }

  ghost predicate Stepped(e: Env, m: Merge, n: Merge, R: seq<Channel>, t: seq<Channel>) {
    Lockstep(e, n, t) && InstallsOne(m, n, R, t)
  }

  lemma UpdateLockstep(e: Env, R: seq<Channel>, m: Merge, rc: RavenChannel, i: nat)
    requires Lockstep(e, m, R) && rc.name != [] && i < |R|
    ensures |m.merged| == |R| && m.merged[i].index == R[i].index
    ensures var ck := FromProto(m.merged[i].index, rc.name, rc.psk);
            var n := Merge(m.merged[i := ck],
                           m.toInstall + [MakeChannel(AsI32(m.merged[i].index), RoleAt(m.merged[i].index),
                                                      rc.name, rc.psk)],
                           m.maxIndex);
            var t := R[i := Update(R, i, rc)];
            Stepped(e, m, n, R, t)
  {
    hide WellFormed, Listing, Keys, KeyOfChannel, FromProto, MakeChannel, AsU32, AsI32, High, Install;
    WellFormedIsBounded(R);
    ListingKeys(e, R);
    IndexOf(R, i);
    IndexCasts(R[i].index);
    KeyIndex(e, R[i]);
    NamedFrom(m.merged[i].index, rc.name, rc.psk);
    var ch := Update(R, i, rc);
    MadeIndex(R[i].index, RoleAt(AsU32(R[i].index)), rc.name, rc.psk);
    MadeKey(e, R[i].index, RoleAt(AsU32(R[i].index)), rc.name, rc.psk);
    WellFormedIsBounded(R[i := ch]);
    ReplaceStep(e, R, i, ch);
  }

  lemma AddLockstep(e: Env, R: seq<Channel>, m: Merge, rc: RavenChannel)
    requires Lockstep(e, m, R) && High(R) + 1 < 0x8000_0000 && rc.name != []
    ensures var index := AsU32(m.maxIndex + 1);
            var n := Merge(m.merged + [FromProto(index, rc.name, rc.psk)],
                           m.toInstall + [MakeChannel(AsI32(index), 2, rc.name, rc.psk)], index);
            var t := R + [MakeChannel(High(R) + 1, 2, rc.name, rc.psk)];
            Stepped(e, m, n, R, t)
  {
    hide WellFormed, Listing, Keys, KeyOfChannel, FromProto, MakeChannel, AsU32, AsI32, High, Install;
    WellFormedIsBounded(R);
    IndexCasts(High(R) + 1);
    MadeIndex(High(R) + 1, 2, rc.name, rc.psk);
    MadeKey(e, High(R) + 1, 2, rc.name, rc.psk);
    var ch := MakeChannel(High(R) + 1, 2, rc.name, rc.psk);
    WellFormedIsBounded(R + [ch]);
    AppendStep(e, R, ch);
  }

  /** The value of one step on both sides, by cases. */
  lemma StepValues(e: Env, R: seq<Channel>, m: Merge, rc: RavenChannel)
    requires m.merged == Keys(e, R) && |m.merged| == |R|
    ensures var i := FindName(m.merged, rc.name, e.Default());
            var n, t := MergeStep(m, rc, e.Default()), TableStep(e, R, rc);
            if i == |R| then
              var index := AsU32(m.maxIndex + 1);
              && n == Merge(m.merged + [FromProto(index, rc.name, rc.psk)],
                            m.toInstall + [MakeChannel(AsI32(index), 2, rc.name, rc.psk)], index)
              && t == R + [MakeChannel(High(R) + 1, 2, rc.name, rc.psk)]
            else
              var index := m.merged[i].index;
              var ck := FromProto(index, rc.name, rc.psk);
              if m.merged[i].key == ck.key then n == m && t == R
              else
                && n == Merge(m.merged[i := ck],
                              m.toInstall + [MakeChannel(AsI32(index), RoleAt(index), rc.name, rc.psk)], m.maxIndex)
                && t == R[i := Update(R, i, rc)]
  {
    hide FindName, PresetName, FromProto, MakeChannel, Update, AsU32, AsI32, High, Keys;
  }

  lemma StepLockstep(e: Env, R: seq<Channel>, m: Merge, rc: RavenChannel)
    requires Lockstep(e, m, R) && High(TableStep(e, R, rc)) < 0x8000_0000 && rc.name != []
    ensures Stepped(e, m, MergeStep(m, rc, e.Default()), R, TableStep(e, R, rc))
  {
    hide MergeStep, TableStep, FindName, PresetName, Keys, FromProto, MakeChannel, Update, AsU32, AsI32, WellFormed;
    hide Listing, High, Install;
    WellFormedIsBounded(R);
    StepShape(e, R, rc);
    StepValues(e, R, m, rc);
    var i := FindName(m.merged, rc.name, e.Default());
    if i == |R| {
      AddLockstep(e, R, m, rc);
    } else if m.merged[i].key == FromProto(m.merged[i].index, rc.name, rc.psk).key {
      assert Stepped(e, m, m, R, R);
    } else {
      UpdateLockstep(e, R, m, rc, i);
    }
  }

  lemma IndexOf(R: seq<Channel>, i: nat)
    requires WellFormed(R) && i < |R|
    ensures R[i].settings.Some? && 0 <= R[i].index < 0x8000_0000
  {
  }

  ghost predicate InstallsAll(e: Env, m: Merge, R: seq<Channel>, t: seq<Channel>) {
    Lockstep(e, m, t) && InstallAll(R, m.toInstall) == t
  }

  lemma InstallsOneMore(e: Env, m: Merge, n: Merge, R: seq<Channel>, t: seq<Channel>, u: seq<Channel>)
    requires InstallsAll(e, m, R, t) && Stepped(e, m, n, t, u)
    ensures InstallsAll(e, n, R, u)
  {
    hide WellFormed, Keys, High, Install;
    if !(n == m && u == t) {
      var k := |m.toInstall|;
      assert n.toInstall[..|n.toInstall| - 1] == m.toInstall;
    }
  }

  /** Merging key lists and changing the table come to the same. */
  lemma {:induction false} MergeLockstep(e: Env, R: seq<Channel>, raven: seq<RavenChannel>)
    requires Fits(e, R, raven) && Named(raven)
    ensures InstallsAll(e, MergeAll(Keys(e, R), raven, e.Default()), R, TableAll(e, R, raven))
    decreases |raven|
  {
    if raven == [] {
      hide Listing, Keys, High;
      HighIsMaxIndex(e, R);
    } else {
      hide InstallsAll, MergeStep, TableStep, Keys, Stepped, High, PresetName, Listing;
      var n := |raven| - 1;
      FitsInPart(e, R, raven, n);
      MergeLockstep(e, R, raven[..n]);
      var m, t := MergeAll(Keys(e, R), raven[..n], e.Default()), TableAll(e, R, raven[..n]);
      assert Lockstep(e, m, t) by { LockstepOf(e, m, R, t); }
      StepLockstep(e, t, m, raven[n]);
      InstallsOneMore(e, m, MergeStep(m, raven[n], e.Default()), R, t, TableStep(e, t, raven[n]));
    }
  }

  lemma LockstepOf(e: Env, m: Merge, R: seq<Channel>, t: seq<Channel>)
    requires InstallsAll(e, m, R, t)
    ensures Lockstep(e, m, t)
  {
  }

  /** Stopping the installation early is the same as having had a shorter list. */
  lemma {:induction false} PartIsShorterList(e: Env, R: seq<Channel>, raven: seq<RavenChannel>, n: nat)
    requires Fits(e, R, raven) && Named(raven)
    requires n <= |MergeAll(Keys(e, R), raven, e.Default()).toInstall|
    ensures var T := MergeAll(Keys(e, R), raven, e.Default()).toInstall;
            exists k :: 0 <= k <= |raven| && InstallAll(R, T[..n]) == TableAll(e, R, raven[..k])
    decreases |raven|
  {
    hide MergeStep, TableStep, Keys, Stepped, High, PresetName, Lockstep, InstallAll;
    var T := MergeAll(Keys(e, R), raven, e.Default()).toInstall;
    if n == |T| {
      MergeLockstep(e, R, raven);
      assert T[..n] == T && raven[..|raven|] == raven;
    } else {
      var last := |raven| - 1;
      assert raven != [];
      var init := raven[..last];
      var m := MergeAll(Keys(e, R), init, e.Default());
      FitsInPart(e, R, raven, last);
      MergeLockstep(e, R, init);
      LockstepOf(e, m, R, TableAll(e, R, init));
      StepLockstep(e, TableAll(e, R, init), m, raven[last]);
      StepGrows(e, m, MergeStep(m, raven[last], e.Default()),
                TableAll(e, R, init), TableStep(e, TableAll(e, R, init), raven[last]));
      assert T[..n] == m.toInstall[..n];
      PartIsShorterList(e, R, init, n);
      var k :| 0 <= k <= |init| && InstallAll(R, m.toInstall[..n]) == TableAll(e, R, init[..k]);
      assert raven[..k] == init[..k];
    }
  }

  lemma StepGrows(e: Env, m: Merge, n: Merge, R: seq<Channel>, t: seq<Channel>)
    requires Stepped(e, m, n, R, t)
    ensures m.toInstall <= n.toInstall && |n.toInstall| <= |m.toInstall| + 1
  {
  }

  // ----- settling down -----

  /** Raven never gives one name two different keys. */
  ghost predicate Consistent(raven: seq<RavenChannel>) {
    forall a, b :: a in raven && b in raven && a.name == b.name ==> ExpandPsk(a.psk) == ExpandPsk(b.psk)
  }

  /** The table already has this Raven channel. */
  ghost predicate Settled(e: Env, R: seq<Channel>, rc: RavenChannel) {
    Holds(Keys(e, R), rc.name, e.Default(), ExpandPsk(rc.psk))
  }

  lemma {:induction false} LastPskIn(raven: seq<RavenChannel>, name: Name)
    requires LastPsk(raven, name).Some?
    ensures exists rc :: rc in raven && rc.name == name && rc.psk == LastPsk(raven, name).value
    decreases |raven|
  {
    var n := |raven| - 1;
    if raven[n].name == name {
      assert raven[n] in raven;
    } else {
      LastPskIn(raven[..n], name);
    }
  }

  /** Once a consistent list has been worked through, every entry of it is in the table. */
  lemma AllSettled(e: Env, R: seq<Channel>, raven: seq<RavenChannel>, rc: RavenChannel)
    requires Fits(e, R, raven) && Named(raven) && Consistent(raven) && rc in raven
    ensures Settled(e, TableAll(e, R, raven), rc) && WellFormed(TableAll(e, R, raven))
  {
    MergeLockstep(e, R, raven);
    NameHasPsk(raven, rc);
    LastPskHolds(Keys(e, R), raven, e.Default(), rc.name);
    LastPskIn(raven, rc.name);
    hide MergeAll, TableAll, Keys, LastPsk, Holds, PresetName;
  }

  /** What MergeLockstep says about a whole session's list. */
  lemma RavenInstalls(e: Env, R: seq<Channel>)
    requires Fits(e, R, e.raven) && Named(e.raven)
    ensures var t := TableAll(e, R, e.raven);
            && InstallAll(R, Merging(e, R).toInstall) == t
            && WellFormed(t) && Keys(e, t) == Merging(e, R).merged
  {
    hide TableAll, MergeAll, InstallAll, WellFormed, Keys, High;
    MergeLockstep(e, R, e.raven);
  }
}
