/** Merging the radio's channels with Raven's: merge_channels of src/raven.rs, and channel_keys of
    src/serial.rs. */
module ChannelMerge {
  import opened Bytes
  import opened Protocol
  import opened ChannelKeys

  datatype RavenChannel = RavenChannel(name: Name, psk: seq<byte>)

  /** Casts between i32 and u32. */
  function AsU32(i: int): u32 {
    i % 0x1_0000_0000
  }

  function AsI32(u: u32): int {
    if u < 0x8000_0000 then u else u - 0x1_0000_0000
  }

  function KeyOfChannel(ch: Channel, usePreset: bool, modemPreset: int): ChannelKey
    requires ch.settings.Some?
  {
    var s := ch.settings.value;
    FromProto(AsU32(ch.index), DisplayName(s.name, usePreset, modemPreset), s.psk)
  }

  /** channel_keys: the channels that have settings, in order. */
  function KeysOf(chs: seq<Channel>, usePreset: bool, modemPreset: int): seq<ChannelKey>
    decreases |chs|
  {
    if chs == [] then []
    else
      var last := chs[|chs| - 1];
      KeysOf(chs[..|chs| - 1], usePreset, modemPreset) +
      (if last.settings.Some? then [KeyOfChannel(last, usePreset, modemPreset)] else [])
  }

  function MakeChannel(index: int, role: int, name: Name, psk: seq<byte>): Channel {
    Channel(index, role, Some(ChannelSettings(psk, name, false, [])))
  }

  // ----- specification: one Raven channel at a time -----

  datatype Merge = Merge(merged: seq<ChannelKey>, toInstall: seq<Channel>, maxIndex: u32)

  function MaxIndex(cs: seq<ChannelKey>): u32
    decreases |cs|
  {
    if cs == [] then 0
    else
      var m := MaxIndex(cs[..|cs| - 1]);
      if cs[|cs| - 1].index > m then cs[|cs| - 1].index else m
  }

  /** The channel goes by this name: by its own, or as an unnamed primary by the preset's default. */
  predicate GoesBy(c: ChannelKey, name: Name, default: Name) {
    c.name == name || (c.name == [] && c.index == 0 && name == default)
  }

  function FindName(cs: seq<ChannelKey>, name: Name, default: Name): (i: nat)
    ensures i <= |cs| && (i < |cs| ==> GoesBy(cs[i], name, default))
    ensures forall j :: 0 <= j < i ==> !GoesBy(cs[j], name, default)
    decreases |cs|
  {
    if cs == [] then 0
    else
      var i := FindName(cs[..|cs| - 1], name, default);
      if i < |cs| - 1 || GoesBy(cs[|cs| - 1], name, default) then i else |cs|
  }

  function RoleAt(index: u32): int {
    if index == 0 then 1 else 2
  }

  function MergeStep(m: Merge, rc: RavenChannel, default: Name): Merge {
    var i := FindName(m.merged, rc.name, default);
    if i < |m.merged| then
      var index := m.merged[i].index;
      var ck := FromProto(index, rc.name, rc.psk);
      if m.merged[i].key == ck.key then m
      else Merge(m.merged[i := ck],
                 m.toInstall + [MakeChannel(AsI32(index), RoleAt(index), rc.name, rc.psk)], m.maxIndex)
    else
      var index := AsU32(m.maxIndex + 1);
      Merge(m.merged + [FromProto(index, rc.name, rc.psk)],
            m.toInstall + [MakeChannel(AsI32(index), 2, rc.name, rc.psk)], index)
  }

  function MergeAll(device: seq<ChannelKey>, raven: seq<RavenChannel>, default: Name): Merge
    decreases |raven|
  {
    if raven == [] then Merge(device, [], MaxIndex(device))
    else MergeStep(MergeAll(device, raven[..|raven| - 1], default), raven[|raven| - 1], default)
  }

  // ----- the code -----

  method MergeChannels(device: seq<ChannelKey>, raven: seq<RavenChannel>, modemPreset: int)
    returns (merged: seq<ChannelKey>, toInstall: seq<Channel>)
    ensures var m := MergeAll(device, raven, PresetName(modemPreset)); merged == m.merged && toInstall == m.toInstall
  {
    hide PresetName, FromProto, MakeChannel, AsI32, GoesBy;
    merged := device;
    toInstall := [];
    var maxIndex: u32 := 0;
    for i := 0 to |device|
      invariant maxIndex == MaxIndex(device[..i])
    {
      assert device[..i + 1][..i] == device[..i];
      if device[i].index > maxIndex {
        maxIndex := device[i].index;
      }
    }
    assert device[..|device|] == device;
    var defaultName := PresetName(modemPreset);
    for n := 0 to |raven|
      invariant Merge(merged, toInstall, maxIndex) == MergeAll(device, raven[..n], defaultName)
    {
      assert raven[..n + 1][..n] == raven[..n];
      var rc := raven[n];
      var i := FindName(merged, rc.name, defaultName);
      if i < |merged| {
        var existing := merged[i];
        var newKey := FromProto(existing.index, rc.name, rc.psk);
        if existing.key != newKey.key {
          var role := if existing.index == 0 then 1 else 2;
          toInstall := toInstall + [MakeChannel(AsI32(existing.index), role, rc.name, rc.psk)];
          merged := merged[i := newKey];
        }
      } else {
        maxIndex := AsU32(maxIndex + 1);
        var ck := FromProto(maxIndex, rc.name, rc.psk);
        toInstall := toInstall + [MakeChannel(AsI32(maxIndex), 2, rc.name, rc.psk)];
        merged := merged + [ck];
      }
    }
    assert raven[..|raven|] == raven;
  }

  // ----- what the merge means -----

  ghost predicate Named(raven: seq<RavenChannel>) {
    forall rc :: rc in raven ==> rc.name != []
  }

  /** The Raven names no device channel goes by, in order of first appearance. */
  function NewNames(device: seq<ChannelKey>, raven: seq<RavenChannel>, default: Name): seq<Name>
    decreases |raven|
  {
    if raven == [] then []
    else
      var before := NewNames(device, raven[..|raven| - 1], default);
      var name := raven[|raven| - 1].name;
      if FindName(device, name, default) < |device| || name in before then before else before + [name]
  }

  /** The last PSK Raven gives for a name. */
  function LastPsk(raven: seq<RavenChannel>, name: Name): Option<seq<byte>>
    decreases |raven|
  {
    if raven == [] then None
    else if raven[|raven| - 1].name == name then Some(raven[|raven| - 1].psk)
    else LastPsk(raven[..|raven| - 1], name)
  }

  /** Device entries stay in front with their indices and go by the same names; behind them come the new
      names, numbered on from the device's highest index. */
  ghost predicate Extends(device: seq<ChannelKey>, names: seq<Name>, merged: seq<ChannelKey>, default: Name) {
    && |merged| == |device| + |names|
    && (forall i :: 0 <= i < |device| ==> merged[i].index == device[i].index)
    && (forall i, name :: 0 <= i < |device| && name != [] ==>
          (GoesBy(merged[i], name, default) <==> GoesBy(device[i], name, default)))
    && (forall k :: 0 <= k < |names| ==>
          var c := merged[|device| + k];
          c.index == MaxIndex(device) + 1 + k && c.name == names[k] && names[k] != [])
  }

  /** The entry found for a name holds this key. */
  ghost predicate Holds(cs: seq<ChannelKey>, name: Name, default: Name, key: seq<byte>) {
    var i := FindName(cs, name, default);
    i < |cs| && cs[i].key == key
  }

  lemma FindNameIs(cs: seq<ChannelKey>, name: Name, default: Name, i: nat)
    requires i <= |cs| && (i < |cs| ==> GoesBy(cs[i], name, default))
    requires forall j :: 0 <= j < i ==> !GoesBy(cs[j], name, default)
    ensures FindName(cs, name, default) == i
  {
  }

  /** A rename keeps what an entry goes by, and no entry goes by two names. */
  lemma GoesByOneName(c: ChannelKey, name: Name, other: Name, default: Name, psk: seq<byte>)
    requires name != [] && other != [] && GoesBy(c, name, default)
    ensures GoesBy(FromProto(c.index, name, psk), other, default) <==> GoesBy(c, other, default)
    ensures GoesBy(c, other, default) <==> other == name
  {
  }

  lemma StepHolds(m: Merge, rc: RavenChannel, default: Name)
    requires rc.name != []
    ensures Holds(MergeStep(m, rc, default).merged, rc.name, default, ExpandPsk(rc.psk))
  {
    hide FindName, ExpandPsk, ChannelHash, MakeChannel, AsI32, AsU32, RoleAt;
    var i, n := FindName(m.merged, rc.name, default), MergeStep(m, rc, default);
    FindNameIs(n.merged, rc.name, default, i);
  }

  lemma StepKeepsOthers(m: Merge, rc: RavenChannel, default: Name, name: Name, key: seq<byte>)
    requires rc.name != [] && name != [] && name != rc.name
    requires Holds(m.merged, name, default, key)
    ensures Holds(MergeStep(m, rc, default).merged, name, default, key)
  {
    var i, j, n := FindName(m.merged, rc.name, default), FindName(m.merged, name, default), MergeStep(m, rc, default);
    if i < |m.merged| {
      GoesByOneName(m.merged[i], rc.name, name, default, rc.psk);
    }
    FindNameIs(n.merged, name, default, j);
  }

  lemma {:induction false} LastPskHolds(device: seq<ChannelKey>, raven: seq<RavenChannel>, default: Name, name: Name)
    requires Named(raven) && LastPsk(raven, name).Some?
    ensures Holds(MergeAll(device, raven, default).merged, name, default, ExpandPsk(LastPsk(raven, name).value))
    decreases |raven|
  {
    hide MergeStep, Holds;
    var rc, m := raven[|raven| - 1], MergeAll(device, raven[..|raven| - 1], default);
    if rc.name == name {
      StepHolds(m, rc, default);
    } else {
      LastPskHolds(device, raven[..|raven| - 1], default, name);
      LastPskNamed(raven, name);
      StepKeepsOthers(m, rc, default, name, ExpandPsk(LastPsk(raven, name).value));
    }
  }

  lemma {:induction false} LastPskNamed(raven: seq<RavenChannel>, name: Name)
    requires Named(raven) && LastPsk(raven, name).Some?
    ensures name != []
    decreases |raven|
  {
    if raven[|raven| - 1].name == name {
    } else {
      LastPskNamed(raven[..|raven| - 1], name);
    }
  }

  lemma FoundIffKnown(device: seq<ChannelKey>, names: seq<Name>, merged: seq<ChannelKey>, name: Name, default: Name)
    requires Extends(device, names, merged, default) && name != []
    ensures FindName(merged, name, default) < |merged|
       <==> FindName(device, name, default) < |device| || name in names
  {
    var i, d := FindName(merged, name, default), FindName(device, name, default);
    if i < |device| {
      assert GoesBy(device[i], name, default);
    } else if i < |merged| {
      assert names[i - |device|] == merged[|device| + (i - |device|)].name;
    }
    if d < |device| {
      assert GoesBy(merged[d], name, default);
    } else if name in names {
      var k :| 0 <= k < |names| && names[k] == name;
      assert GoesBy(merged[|device| + k], name, default);
    }
  }

  lemma UpdateExtends(device: seq<ChannelKey>, names: seq<Name>, merged: seq<ChannelKey>, i: nat, ck: ChannelKey,
                      default: Name)
    requires Extends(device, names, merged, default) && i < |merged|
    requires ck.index == merged[i].index && ck.name != []
    requires forall name :: name != [] ==> (GoesBy(ck, name, default) <==> GoesBy(merged[i], name, default))
    ensures Extends(device, names, merged[i := ck], default)
  {
    if i >= |device| {
      var k := i - |device|;
      assert merged[|device| + k].name == names[k];
      assert GoesBy(merged[i], names[k], default);
      assert GoesBy(ck, names[k], default);
    }
  }

  lemma AppendExtends(device: seq<ChannelKey>, names: seq<Name>, merged: seq<ChannelKey>, ck: ChannelKey, default: Name)
    requires Extends(device, names, merged, default) && ck.name != []
    requires ck.index == MaxIndex(device) + 1 + |names|
    ensures Extends(device, names + [ck.name], merged + [ck], default)
  {
    hide GoesBy;
  }

  lemma RenameExtends(device: seq<ChannelKey>, names: seq<Name>, merged: seq<ChannelKey>, i: nat, rc: RavenChannel,
                      default: Name)
    requires Extends(device, names, merged, default) && i < |merged|
    requires rc.name != [] && GoesBy(merged[i], rc.name, default)
    ensures Extends(device, names, merged[i := FromProto(merged[i].index, rc.name, rc.psk)], default)
  {
    var ck := FromProto(merged[i].index, rc.name, rc.psk);
    forall name | name != []
      ensures GoesBy(ck, name, default) <==> GoesBy(merged[i], name, default)
    {
      GoesByOneName(merged[i], rc.name, name, default, rc.psk);
    }
    hide Extends, GoesBy;
    UpdateExtends(device, names, merged, i, ck, default);
  }

  lemma NamedFrom(index: u32, name: Name, psk: seq<byte>)
    ensures FromProto(index, name, psk).name == name && FromProto(index, name, psk).index == index
  {
  }

  lemma StepRenames(device: seq<ChannelKey>, names: seq<Name>, m: Merge, rc: RavenChannel, default: Name)
    requires Extends(device, names, m.merged, default) && rc.name != []
    requires FindName(m.merged, rc.name, default) < |m.merged|
    ensures Extends(device, names, MergeStep(m, rc, default).merged, default)
    ensures MergeStep(m, rc, default).maxIndex == m.maxIndex
  {
    RenameExtends(device, names, m.merged, FindName(m.merged, rc.name, default), rc, default);
    hide Extends, FindName, MaxIndex, GoesBy, FromProto, MakeChannel, AsU32, AsI32;
  }

  lemma AsU32Keeps(i: int)
    requires 0 <= i < 0x1_0000_0000
    ensures AsU32(i) == i
  {
  }

  lemma StepAppends(device: seq<ChannelKey>, names: seq<Name>, m: Merge, rc: RavenChannel, default: Name)
    requires Extends(device, names, m.merged, default) && rc.name != []
    requires FindName(m.merged, rc.name, default) == |m.merged|
    requires m.maxIndex == MaxIndex(device) + |names| && m.maxIndex + 1 < 0x1_0000_0000
    ensures Extends(device, names + [rc.name], MergeStep(m, rc, default).merged, default)
    ensures MergeStep(m, rc, default).maxIndex == m.maxIndex + 1
  {
    hide Extends, FindName, MaxIndex, GoesBy, FromProto, MakeChannel, AsU32, AsI32;
    AsU32Keeps(m.maxIndex + 1);
    NamedFrom(m.maxIndex + 1, rc.name, rc.psk);
    AppendExtends(device, names, m.merged, FromProto(m.maxIndex + 1, rc.name, rc.psk), default);
  }

  lemma StepExtends(device: seq<ChannelKey>, names: seq<Name>, m: Merge, rc: RavenChannel, default: Name)
    requires Extends(device, names, m.merged, default) && rc.name != []
    requires m.maxIndex == MaxIndex(device) + |names| && m.maxIndex + 1 < 0x1_0000_0000
    ensures var known := FindName(device, rc.name, default) < |device| || rc.name in names;
            var n := MergeStep(m, rc, default);
            var all := if known then names else names + [rc.name];
            Extends(device, all, n.merged, default) && n.maxIndex == MaxIndex(device) + |all|
  {
    FoundIffKnown(device, names, m.merged, rc.name, default);
    if FindName(m.merged, rc.name, default) < |m.merged| {
      StepRenames(device, names, m, rc, default);
    } else {
      StepAppends(device, names, m, rc, default);
    }
    hide Extends, FindName, MaxIndex, MergeStep;
  }

  lemma {:induction false} MergeExtends(device: seq<ChannelKey>, raven: seq<RavenChannel>, default: Name)
    requires Named(raven) && MaxIndex(device) + |raven| < 0x1_0000_0000
    ensures var m, names := MergeAll(device, raven, default), NewNames(device, raven, default);
            && Extends(device, names, m.merged, default)
            && |names| <= |raven| && m.maxIndex == MaxIndex(device) + |names|
    decreases |raven|
  {
    if raven != [] {
      hide Extends, MergeStep;
      var before, rc := raven[..|raven| - 1], raven[|raven| - 1];
      MergeExtends(device, before, default);
      StepExtends(device, NewNames(device, before, default), MergeAll(device, before, default), rc, default);
    } else {
      assert MergeAll(device, raven, default) == Merge(device, [], MaxIndex(device));
    }
  }

  lemma {:induction false} MaxIndexBounds(cs: seq<ChannelKey>, i: nat)
    requires i < |cs|
    ensures cs[i].index <= MaxIndex(cs)
    decreases |cs|
  {
    if i == |cs| - 1 {
    } else {
      MaxIndexBounds(cs[..|cs| - 1], i);
    }
  }

  lemma ExtensionIsDistinct(device: seq<ChannelKey>, names: seq<Name>, merged: seq<ChannelKey>, default: Name)
    requires Extends(device, names, merged, default) && DistinctIndices(device)
    ensures DistinctIndices(merged)
  {
    forall i | 0 <= i < |device|
      ensures device[i].index <= MaxIndex(device)
    {
      MaxIndexBounds(device, i);
    }
    forall j | |device| <= j < |merged|
      ensures merged[j].index == MaxIndex(device) + 1 + (j - |device|)
    {
      var k := j - |device|;
      assert names[k] == merged[|device| + k].name;
    }
  }

  /** The merge of any device list with any Raven list of non-empty names, as long as indices do not
      overflow 32 bits: device entries keep their places and indices, indices stay distinct, new names
      are numbered on in order of first appearance, and every Raven name ends up with its last PSK. */
  lemma MergeSemantics(device: seq<ChannelKey>, raven: seq<RavenChannel>, default: Name)
    requires Named(raven) && MaxIndex(device) + |raven| < 0x1_0000_0000
    ensures var merged := MergeAll(device, raven, default).merged;
            && Extends(device, NewNames(device, raven, default), merged, default)
            && (DistinctIndices(device) ==> DistinctIndices(merged))
            && (forall rc :: rc in raven ==>
                  && LastPsk(raven, rc.name).Some?
                  && Holds(merged, rc.name, default, ExpandPsk(LastPsk(raven, rc.name).value)))
  {
    hide ExpandPsk, Holds, Extends, DistinctIndices, MergeAll, NewNames;
    var merged, names := MergeAll(device, raven, default).merged, NewNames(device, raven, default);
    MergeExtends(device, raven, default);
    if DistinctIndices(device) {
      ExtensionIsDistinct(device, names, merged, default);
    }
    forall rc | rc in raven
      ensures LastPsk(raven, rc.name).Some?
      ensures Holds(merged, rc.name, default, ExpandPsk(LastPsk(raven, rc.name).value))
    {
      NameHasPsk(raven, rc);
      LastPskHolds(device, raven, default, rc.name);
    }
  }

  lemma {:induction false} NameHasPsk(raven: seq<RavenChannel>, rc: RavenChannel)
    requires rc in raven
    ensures LastPsk(raven, rc.name).Some?
    decreases |raven|
  {
    if raven[|raven| - 1].name == rc.name {
    } else {
      NameHasPsk(raven[..|raven| - 1], rc);
    }
  }
}
