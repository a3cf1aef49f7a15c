/** What Raven channels without a name, or with two keys for one name, do to the radio's table. */
module UnnamedChannels {
  import opened Bytes
  import opened Protocol
  import opened ChannelKeys
  import opened ChannelMerge
  import opened RadioTable
  import opened ChannelInstall
  import opened Convergence

  // ----- the indices a session gives out -----

  /** All indices of a merge lie between 0 and its highest. */
  ghost predicate Bounded(m: Merge) {
    && (forall j :: 0 <= j < |m.merged| ==> m.merged[j].index <= m.maxIndex)
    && (forall x :: x in m.toInstall ==> 0 <= x.index <= m.maxIndex)
  }

  lemma BoundedStep(m: Merge, rc: RavenChannel, default: Name)
    requires Bounded(m) && m.maxIndex + 1 < 0x8000_0000
    ensures Bounded(MergeStep(m, rc, default)) && MergeStep(m, rc, default).maxIndex <= m.maxIndex + 1
  {
    hide FindName, FromProto, MakeChannel, AsI32, AsU32, RoleAt;
    IndexCasts(m.maxIndex + 1);
    NamedFrom(m.maxIndex + 1, rc.name, rc.psk);
    MadeIndex(m.maxIndex + 1, 2, rc.name, rc.psk);
    var i := FindName(m.merged, rc.name, default);
    if i < |m.merged| {
      var index := m.merged[i].index;
      IndexCasts(index);
      NamedFrom(index, rc.name, rc.psk);
      MadeIndex(index, RoleAt(index), rc.name, rc.psk);
    }
  }

  lemma {:induction false} MergeIsBounded(device: seq<ChannelKey>, raven: seq<RavenChannel>, default: Name)
    requires MaxIndex(device) + |raven| < 0x8000_0000
    ensures var m := MergeAll(device, raven, default);
            Bounded(m) && m.maxIndex <= MaxIndex(device) + |raven|
    decreases |raven|
  {
    if raven == [] {
      forall j | 0 <= j < |device|
        ensures device[j].index <= MaxIndex(device)
      {
        MaxIndexBounds(device, j);
      }
    } else {
      hide MergeStep, Bounded;
      MergeIsBounded(device, raven[..|raven| - 1], default);
      BoundedStep(MergeAll(device, raven[..|raven| - 1], default), raven[|raven| - 1], default);
    }
  }

  /** Channels with settings, at indices from 0 to h. */
  ghost predicate Within(chs: seq<Channel>, h: int) {
    forall x :: x in chs ==> x.settings.Some? && 0 <= x.index <= h
  }

  lemma ListingIsWithin(R: seq<Channel>)
    requires Listing(R)
    ensures Within(R, High(R)) && Ascending(R) && 0 <= High(R)
  {
    forall x | x in R
      ensures x.settings.Some? && 0 <= x.index <= High(R)
    {
      var i :| 0 <= i < |R| && R[i] == x;
      assert i < |R| - 1 ==> R[i].index < R[|R| - 1].index;
    }
  }

  lemma WithinIsListing(S: seq<Channel>, h: int)
    requires Ascending(S) && Within(S, h) && 0 <= h
    ensures Listing(S) && High(S) <= h
  {
    hide Ascending;
    assert forall i :: 0 <= i < |S| ==> S[i] in S;
  }

  lemma DownlinkIsWithin(X: seq<Channel>, h: int)
    requires Within(X, h)
    ensures Within(AllDownlink(X), h)
  {
    forall x | x in AllDownlink(X)
      ensures x.settings.Some? && 0 <= x.index <= h
    {
      var i :| 0 <= i < |X| && AllDownlink(X)[i] == x;
      assert X[i] in X;
    }
  }

  lemma MergeIsWithin(m: Merge, h: int)
    requires Bounded(m) && m.maxIndex <= h && forall x :: x in m.toInstall ==> x.settings.Some?
    ensures Within(m.toInstall, h)
  {
  }

  lemma MoreIsWithin(R: seq<Channel>, T: seq<Channel>, h: int)
    requires Within(R, High(R)) && Within(T, h) && High(R) <= h
    ensures Within(T + Missing(R, T), h)
  {
    hide High, Missing;
    MissingElements(R, T);
  }

  lemma PlanIsWithin(e: Env, R: seq<Channel>)
    requires Room(R, |e.raven|)
    ensures Within(Plan(e, R), High(R) + |e.raven|)
  {
    hide MergeAll, Keys, MaxIndex, High, PresetName, WellFormed, Listing, Missing, Bounded, Within, AllDownlink;
    WellFormedIsBounded(R);
    ListingIsWithin(R);
    HighIsMaxIndex(e, R);
    MergeIsBounded(Keys(e, R), e.raven, e.Default());
    InstalledHaveSettings(Keys(e, R), e.raven, e.Default());
    var T, h := Merging(e, R).toInstall, High(R) + |e.raven|;
    MergeIsWithin(Merging(e, R), h);
    if e.mqttProxy {
      MoreIsWithin(R, T, h);
      DownlinkIsWithin(T + Missing(R, T), h);
    }
  }

  lemma InstallAllIsWithin(R: seq<Channel>, chs: seq<Channel>, h: int)
    requires Ascending(R) && Within(R, High(R)) && High(R) <= h && Within(chs, h)
    ensures Ascending(InstallAll(R, chs)) && Within(InstallAll(R, chs), h)
  {
    hide Ascending, InstallAll, Touches, High;
    InstallAllElements(R, chs);
  }

  /** A session takes at most one index for each Raven channel, whatever their names. */
  lemma SessionLeavesRoom(e: Env, R: seq<Channel>, n: nat)
    requires Room(R, |e.raven| + n)
    ensures Room(AfterSession(e, R), n) && High(AfterSession(e, R)) <= High(R) + |e.raven|
  {
    hide Plan, InstallAll, High, WellFormed, Listing, Within, Ascending;
    WellFormedIsBounded(R);
    ListingIsWithin(R);
    PlanIsWithin(e, R);
    InstallAllIsWithin(R, Plan(e, R), High(R) + |e.raven|);
    WithinIsListing(AfterSession(e, R), High(R) + |e.raven|);
    WellFormedIsBounded(AfterSession(e, R));
  }

  // ----- unnamed channels -----

  /** With an unnamed Raven channel every session adds a channel behind all the radio has. */
  lemma UnnamedAddsChannel(e: Env, R: seq<Channel>)
    requires Room(R, |e.raven|) && !Named(e.raven)
    ensures High(AfterSession(e, R)) > High(R)
  {
    HighIsMaxIndex(e, R);
    ListingAscends(R);
    KeysAreNamed(e, R);
    hide MergeAll, Keys, MaxIndex, High, PresetName, WellFormed, Listing, Missing, InstallAll, Ascending, Touches;
    UnnamedStays(Keys(e, R), e.raven, e.Default());
    var m := Merging(e, R);
    var c :| c in m.merged && c.name == [];
    var j :| 0 <= j < |m.merged| && m.merged[j] == c;
    assert Touches(m.toInstall, c.index) && c.index > High(R);
    PlanTouches(e, R, c.index);
    InstalledIsThere(R, Plan(e, R), c.index);
    SessionLeavesRoom(e, R, 0);
    WellFormedIsBounded(AfterSession(e, R));
    TouchedIsBelowHigh(AfterSession(e, R), c.index);
  }

  lemma PlanTouches(e: Env, R: seq<Channel>, index: int)
    requires Touches(Merging(e, R).toInstall, index)
    ensures Touches(Plan(e, R), index)
  {
    hide Merging, Missing, AllDownlink, Touches;
    var T := Merging(e, R).toInstall;
    if e.mqttProxy {
      TouchesMore(T, T + Missing(R, T), index);
      SetDownlinkTouches(T + Missing(R, T), index);
    }
  }

  lemma TouchedIsBelowHigh(R: seq<Channel>, index: int)
    requires Listing(R) && Touches(R, index)
    ensures index <= High(R)
  {
    var c :| c in R && c.index == index;
    var i :| 0 <= i < |R| && R[i] == c;
    assert i < |R| - 1 ==> R[i].index < R[|R| - 1].index;
  }

  /** Interrupted installations always come out where an uninterrupted one does, if and only if every Raven
      channel has a name. */
  lemma RestartableExactly(e: Env, R: seq<Channel>)
    requires Room(R, 2 * |e.raven|)
    ensures (forall stops :: AfterSession(e, AfterParts(e, R, stops)) == AfterSession(e, R)) <==> Named(e.raven)
  {
    hide AfterSession, Named, High, WellFormed;
    if Named(e.raven) {
      RoomFits(e, R, e.raven);
      forall stops
        ensures AfterSession(e, AfterParts(e, R, stops)) == AfterSession(e, R)
      {
        InstallationIsRestartable(e, R, stops);
      }
    } else {
      var S := AfterSession(e, R);
      CompleteIsPart(e, R);
      SessionLeavesRoom(e, R, |e.raven|);
      UnnamedAddsChannel(e, S);
      assert AfterSession(e, AfterParts(e, R, [|Plan(e, R)|])) != S;
    }
  }

  /** A session that stops after its last install has installed everything. */
  lemma CompleteIsPart(e: Env, R: seq<Channel>)
    ensures AfterParts(e, R, [|Plan(e, R)|]) == AfterSession(e, R)
  {
    hide Plan, InstallAll;
    var n := |Plan(e, R)|;
    assert [n][..0] == [] && Plan(e, R)[..n] == Plan(e, R);
    assert AfterParts(e, R, [n]) == AfterPart(e, AfterParts(e, R, []), n);
  }

  // ----- two inputs -----

  /** A primary channel of the radio. */
  const PRIMARY := Channel(0, 1, Some(ChannelSettings([1], [], false, [])))

  lemma MergeUnnamed(keys: seq<ChannelKey>, psk: seq<byte>, default: Name)
    requires default != [] && MaxIndex(keys) + 1 < 0x8000_0000
    requires forall i :: 0 <= i < |keys| ==> keys[i].name != []
    ensures MergeAll(keys, [RavenChannel([], psk)], default).toInstall == [MakeChannel(MaxIndex(keys) + 1, 2, [], psk)]
  {
    var rc := RavenChannel([], psk);
    IndexCasts(MaxIndex(keys) + 1);
    hide FromProto, MakeChannel, AsI32, AsU32, MaxIndex;
    assert [rc][..0] == [];
    assert MergeAll(keys, [], default) == Merge(keys, [], MaxIndex(keys));
  }

  /** A list of one unnamed channel. */
  function UnnamedOnly(psk: seq<byte>): Env {
    Env(true, 0, [RavenChannel([], psk)], false)
  }

  lemma UnnamedAppends(psk: seq<byte>, R: seq<Channel>)
    requires Room(R, 1)
    ensures AfterSession(UnnamedOnly(psk), R) == R + [MakeChannel(High(R) + 1, 2, [], psk)]
  {
    hide Keys, MergeAll, MakeChannel, MaxIndex, PresetName, WellFormed, Listing, High, KeyOfChannel, Install;
    var e, ch := UnnamedOnly(psk), MakeChannel(High(R) + 1, 2, [], psk);
    WellFormedIsBounded(R);
    HighIsMaxIndex(e, R);
    ListingKeyNames(e, R);
    MergeUnnamed(Keys(e, R), psk, e.Default());
    MadeIndex(High(R) + 1, 2, [], psk);
    AppendStep(e, R, ch);
    assert Plan(e, R) == [ch] && [ch][..0] == [];
    assert InstallAll(R, []) == R;
  }

  /** A key without a name, which Raven's file can give: every session adds another copy of it. */
  lemma UnnamedInstance(psk: seq<byte>)
    ensures var e := UnnamedOnly(psk);
            var R1 := AfterSession(e, [PRIMARY]);
            && R1 == [PRIMARY, MakeChannel(1, 2, [], psk)]
            && AfterSession(e, R1) == [PRIMARY, MakeChannel(1, 2, [], psk), MakeChannel(2, 2, [], psk)]
  {
    hide AfterSession, MakeChannel;
    MadeIndex(1, 2, [], psk);
    UnnamedAppends(psk, [PRIMARY]);
    UnnamedAppends(psk, [PRIMARY, MakeChannel(1, 2, [], psk)]);
  }

  /** One name with the keys of the one-byte PSKs 1 and 2. */
  function TwoKeys(name: Name): Env {
    Env(true, 0, [RavenChannel(name, [1]), RavenChannel(name, [2])], false)
  }

  /** The channel of that name, at index 1. */
  function Copy(name: Name, psk: seq<byte>): Channel {
    MakeChannel(1, 2, name, psk)
  }

  lemma ReplaceKey(m: Merge, name: Name, before: seq<byte>, psk: seq<byte>, default: Name)
    requires m.merged == [FromProto(1, name, before)] && m.maxIndex == 1 && ExpandPsk(before) != ExpandPsk(psk)
    ensures MergeStep(m, RavenChannel(name, psk), default)
         == Merge([FromProto(1, name, psk)], m.toInstall + [Copy(name, psk)], 1)
  {
    NamedFrom(1, name, before);
    assert GoesBy(m.merged[0], name, default);
    FindNameIs(m.merged, name, default, 0);
    hide FindName, ChannelHash, ExpandPsk;
  }

  lemma AddKey(name: Name, psk: seq<byte>, default: Name)
    ensures MergeStep(Merge([], [], 0), RavenChannel(name, psk), default)
         == Merge([FromProto(1, name, psk)], [Copy(name, psk)], 1)
  {
    hide FromProto;
  }

  lemma KeysDiffer()
    ensures ExpandPsk([1]) != ExpandPsk([2])
  {
    assert ExpandPsk([1])[15] == 1 && ExpandPsk([2])[15] == 2;
  }

  lemma MergeTwoKeys(name: Name, keys: seq<ChannelKey>, default: Name)
    requires keys == [] || keys == [FromProto(1, name, [2])]
    ensures MergeAll(keys, TwoKeys(name).raven, default).toInstall == [Copy(name, [1]), Copy(name, [2])]
  {
    var a, b := RavenChannel(name, [1]), RavenChannel(name, [2]);
    assert [a, b][..1] == [a] && [a][..0] == [];
    KeysDiffer();
    NamedFrom(1, name, [2]);
    assert keys[..0] == [] && MaxIndex([]) == 0 && (keys != [] ==> MaxIndex(keys) == 1);
    hide FromProto, Copy, MergeStep, MaxIndex, ExpandPsk;
    var m := MergeAll(keys, [], default);
    if keys == [] {
      AddKey(name, [1], default);
    } else {
      ReplaceKey(m, name, [2], [1], default);
    }
    assert MergeAll(keys, [a], default) == Merge([FromProto(1, name, [1])], [Copy(name, [1])], 1);
    ReplaceKey(MergeAll(keys, [a], default), name, [1], [2], default);
    assert MergeAll(keys, [a, b], default).toInstall == [Copy(name, [1])] + [Copy(name, [2])];
  }

  lemma InstallCopies(R: seq<Channel>, name: Name)
    requires R == [] || R == [Copy(name, [2])]
    ensures InstallAll(R, [Copy(name, [1]), Copy(name, [2])]) == [Copy(name, [2])]
  {
    var a, b := Copy(name, [1]), Copy(name, [2]);
    assert [a, b][..1] == [a] && [a][..0] == [];
    assert a.index == b.index == 1;
    hide Copy;
    assert InstallAll(R, []) == R;
    assert InstallAll(R, [a]) == Install(R, a) == [a];
    assert InstallAll(R, [a, b]) == Install([a], b);
  }

  /** A name that Raven's file gives twice: every session installs both keys, though nothing changes. */
  lemma TwoKeysInstance(name: Name)
    requires name != []
    ensures var e, R1 := TwoKeys(name), [Copy(name, [2])];
            && AfterSession(e, []) == R1 && AfterSession(e, R1) == R1
            && Plan(e, R1) == [Copy(name, [1]), Copy(name, [2])]
  {
    var e, R1 := TwoKeys(name), [Copy(name, [2])];
    MadeKey(e, 1, 2, name, [2]);
    IndexCasts(1);
    assert R1[..0] == [] && Keys(e, []) == [];
    MadeIndex(1, 2, name, [2]);
    assert Keys(e, R1) == [FromProto(1, name, [2])];
    hide Keys, MergeAll, InstallAll, Copy, PresetName, FromProto;
    MergeTwoKeys(name, Keys(e, []), e.Default());
    MergeTwoKeys(name, Keys(e, R1), e.Default());
    InstallCopies([], name);
    InstallCopies(R1, name);
  }
}
