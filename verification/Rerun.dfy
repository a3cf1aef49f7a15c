/** Going through Raven's list a second time changes nothing, whatever the list says. */
module Rerun {
  import opened Bytes
  import opened Protocol
  import opened ChannelKeys
  import opened ChannelMerge
  import opened RadioTable
  import opened ChannelInstall

  lemma AppendKeepsPlace(e: Env, R: seq<Channel>, ch: Channel, name: Name)
    requires Listing(R) && High(R) < ch.index && ch.settings.Some? && Place(e, R, name) < |R|
    ensures Place(e, R + [ch], name) == Place(e, R, name)
  {
    hide Listing, Keys, PresetName, FindName, High, KeyOfChannel, Install;
    ListingLength(e, R);
    AppendStep(e, R, ch);
    FindNameIs(Keys(e, R + [ch]), name, e.Default(), Place(e, R, name));
  }

  lemma UpdateKeepsPlace(e: Env, R: seq<Channel>, i: nat, rc: RavenChannel, name: Name)
    requires Listing(R) && i == Place(e, R, rc.name) < |R| && rc.name != [] && name != []
    requires Place(e, R, name) < |R|
    ensures Place(e, R[i := Update(R, i, rc)], name) == Place(e, R, name)
  {
    hide Listing, Keys, PresetName, FindName, High, KeyOfChannel, FromProto, MakeChannel, Install;
    ListingKeyNames(e, R);
    MadeIndex(R[i].index, RoleAt(AsU32(R[i].index)), rc.name, rc.psk);
    MadeKey(e, R[i].index, RoleAt(AsU32(R[i].index)), rc.name, rc.psk);
    NamedFrom(AsU32(R[i].index), rc.name, rc.psk);
    ReplaceStep(e, R, i, Update(R, i, rc));
    FindNameIs(Keys(e, R[i := Update(R, i, rc)]), name, e.Default(), Place(e, R, name));
  }

  /** Which names stand where does not change in place, and a new name goes to the end. */
  lemma StepPlaces(e: Env, R: seq<Channel>, rc: RavenChannel, name: Name)
    requires Listing(R) && rc.name != [] && name != []
    ensures |R| <= |TableStep(e, R, rc)|
    ensures Place(e, R, name) < |R| ==> Place(e, TableStep(e, R, rc), name) == Place(e, R, name)
  {
    hide Listing, Keys, Place, TableStep, High, Update, MakeChannel, KeyOfChannel, ExpandPsk;
    StepShape(e, R, rc);
    PlaceIsBounded(e, R, rc.name);
    var t, i := TableStep(e, R, rc), Place(e, R, rc.name);
    MadeIndex(High(R) + 1, 2, rc.name, rc.psk);
    if Place(e, R, name) < |R| {
      if i == |R| {
        AppendKeepsPlace(e, R, MakeChannel(High(R) + 1, 2, rc.name, rc.psk), name);
      } else if t != R {
        UpdateKeepsPlace(e, R, i, rc, name);
      }
    }
  }

  lemma NamedAt(e: Env, R: seq<Channel>, name: Name)
    requires Listing(R) && name != [] && Place(e, R, name) < |R|
    ensures |Keys(e, R)| == |R| && Keys(e, R)[Place(e, R, name)].name == name
  {
    hide Listing, PresetName, FindName, Keys;
    ListingKeyNames(e, R);
  }

  /** Two tables that differ at most in the channel of one name. */
  ghost predicate Twin(e: Env, t: seq<Channel>, u: seq<Channel>, i: nat, name: Name) {
    && Listing(t) && Listing(u) && |t| == |u| && i < |t| && name != []
    && (forall j :: 0 <= j < |t| && j != i ==> u[j] == t[j])
    && u[i].index == t[i].index
    && Place(e, t, name) == i && Place(e, u, name) == i
  }

  lemma TwinKeys(e: Env, t: seq<Channel>, u: seq<Channel>, i: nat, name: Name)
    requires Twin(e, t, u, i, name)
    ensures |Keys(e, t)| == |Keys(e, u)| == |t|
    ensures forall j :: 0 <= j < |t| && j != i ==> Keys(e, u)[j] == Keys(e, t)[j]
    ensures Keys(e, t)[i].name == name == Keys(e, u)[i].name
  {
    hide Listing, Place, KeyOfChannel, Keys;
    ListingKeys(e, t);
    ListingKeys(e, u);
    NamedAt(e, t, name);
    NamedAt(e, u, name);
  }

  /** Key lists with the same non-empty names have them in the same places. */
  lemma SameNamesSamePlaces(a: seq<ChannelKey>, b: seq<ChannelKey>, name: Name, default: Name)
    requires |a| == |b| && name != []
    requires forall j :: 0 <= j < |a| ==> a[j].name == b[j].name != []
    ensures FindName(a, name, default) == FindName(b, name, default)
  {
    hide FindName;
    FindNameIs(b, name, default, FindName(a, name, default));
  }

  lemma TwinPlaces(e: Env, t: seq<Channel>, u: seq<Channel>, i: nat, name: Name, other: Name)
    requires Twin(e, t, u, i, name) && other != []
    ensures Place(e, u, other) == Place(e, t, other) && High(u) == High(t)
    ensures Place(e, t, other) == i <==> other == name
    ensures |Keys(e, t)| == |Keys(e, u)| == |t|
    ensures forall j :: 0 <= j < |t| && j != i ==> Keys(e, u)[j] == Keys(e, t)[j]
  {
    TwinHigh(e, t, u, i, name);
    hide Listing, Keys, PresetName, FindName, High;
    TwinKeys(e, t, u, i, name);
    ListingKeyNames(e, t);
    ListingKeyNames(e, u);
    SameNamesSamePlaces(Keys(e, t), Keys(e, u), other, e.Default());
  }

  lemma TwinHigh(e: Env, t: seq<Channel>, u: seq<Channel>, i: nat, name: Name)
    requires Twin(e, t, u, i, name)
    ensures High(u) == High(t)
  {
    hide Listing, Place;
  }

  lemma StepElsewhere(e: Env, t: seq<Channel>, u: seq<Channel>, i: nat, name: Name, rc: RavenChannel)
    requires Twin(e, t, u, i, name) && rc.name != []
    ensures var t1, u1 := TableStep(e, t, rc), TableStep(e, u, rc);
            && Listing(t1) && Listing(u1) && |t1| == |u1| && |t1| >= |t|
            && (forall j :: 0 <= j < |t1| && j != i ==> u1[j] == t1[j])
            && t1[i].index == t[i].index && u1[i].index == u[i].index
            && (rc.name != name ==> t1[i] == t[i] && u1[i] == u[i])
  {
    hide Listing, Keys, TableStep, High, ExpandPsk, MakeChannel, Place, AsU32, RoleAt;
    TwinPlaces(e, t, u, i, name, rc.name);
    PlaceIsBounded(e, t, rc.name);
    StepShape(e, t, rc);
    StepShape(e, u, rc);
    MadeIndex(t[i].index, RoleAt(AsU32(t[i].index)), rc.name, rc.psk);
  }

  lemma StepTwin(e: Env, t: seq<Channel>, u: seq<Channel>, i: nat, name: Name, rc: RavenChannel)
    requires Twin(e, t, u, i, name) && rc.name != []
    ensures Twin(e, TableStep(e, t, rc), TableStep(e, u, rc), i, name)
    ensures rc.name != name ==> TableStep(e, t, rc)[i] == t[i] && TableStep(e, u, rc)[i] == u[i]
  {
    hide Listing, Keys, TableStep, High, Place;
    StepElsewhere(e, t, u, i, name, rc);
    StepPlaces(e, t, rc, name);
    StepPlaces(e, u, rc, name);
  }

  lemma {:induction false} AllTwin(e: Env, t: seq<Channel>, u: seq<Channel>, i: nat, name: Name, A: seq<RavenChannel>)
    requires Twin(e, t, u, i, name) && Named(A)
    ensures Twin(e, TableAll(e, t, A), TableAll(e, u, A), i, name)
    ensures LastPsk(A, name) == None ==> TableAll(e, t, A)[i] == t[i] && TableAll(e, u, A)[i] == u[i]
    decreases |A|
  {
    if A == [] {
    } else {
      var n := |A| - 1;
      hide Twin, TableStep, Keys, High, Listing, PresetName;
      AllTwin(e, t, u, i, name, A[..n]);
      StepTwin(e, TableAll(e, t, A[..n]), TableAll(e, u, A[..n]), i, name, A[n]);
    }
  }

  /** Steps that append nothing leave a channel of another name at the end alone. */
  lemma {:induction false} KeepsLast(e: Env, R: seq<Channel>, ch: Channel, name: Name, A: seq<RavenChannel>)
    requires Listing(R + [ch]) && Listing(R) && Named(A) && LastPsk(A, name) == None
    requires name != [] && Place(e, R + [ch], name) == |R| && |TableAll(e, R, A)| == |R|
    ensures TableAll(e, R + [ch], A) == TableAll(e, R, A) + [ch]
    decreases |A|
  {
    if A == [] {
    } else {
      hide Listing, TableStep, Place, High;
      var n := |A| - 1;
      var t := TableAll(e, R, A[..n]);
      TableGrows(e, R, A[..n]);
      TableGrows(e, R + [ch], A[..n]);
      StepPlaces(e, t, A[n], A[n].name);
      assert |t| == |R|;
      KeepsLast(e, R, ch, name, A[..n]);
      StepKeepsLast(e, t, ch, A[n]);
    }
  }

  lemma KeysOfMore(e: Env, t: seq<Channel>, ch: Channel)
    requires Listing(t) && ch.settings.Some?
    ensures |Keys(e, t)| == |t| && |Keys(e, t + [ch])| == |t| + 1
    ensures forall j :: 0 <= j < |t| ==> Keys(e, t + [ch])[j] == Keys(e, t)[j]
  {
    hide Listing, KeyOfChannel;
    ListingLength(e, t);
    assert (t + [ch])[..|t|] == t;
  }

  lemma StepKeepsLast(e: Env, t: seq<Channel>, ch: Channel, rc: RavenChannel)
    requires Listing(t) && Listing(t + [ch])
    requires |TableStep(e, t, rc)| == |t|
    ensures TableStep(e, t + [ch], rc) == TableStep(e, t, rc) + [ch]
  {
    assert (t + [ch])[|t|] == ch && ch.settings.Some?;
    hide Listing, Keys, PresetName, FindName, TableStep, High, ExpandPsk, MakeChannel;
    StepShape(e, t, rc);
    StepShape(e, t + [ch], rc);
    KeysOfMore(e, t, ch);
    var i := Place(e, t, rc.name);
    FindNameIs(Keys(e, t + [ch]), rc.name, e.Default(), i);
  }

  // ----- the theorem -----

  /** The name has a place in the table, and the channel there holds this key. */
  ghost predicate Placed(e: Env, R: seq<Channel>, name: Name, key: seq<byte>) {
    Listing(R) && |Keys(e, R)| == |R| && Place(e, R, name) < |R| && Keys(e, R)[Place(e, R, name)].key == key
  }

  lemma AppendPlaces(e: Env, R: seq<Channel>, rc: RavenChannel)
    requires Listing(R) && rc.name != [] && Place(e, R, rc.name) == |R|
    ensures Placed(e, R + [MakeChannel(High(R) + 1, 2, rc.name, rc.psk)], rc.name, ExpandPsk(rc.psk))
  {
    hide Listing, Keys, PresetName, FindName, High, ExpandPsk, MakeChannel, KeyOfChannel, FromProto, Install;
    var ch := MakeChannel(High(R) + 1, 2, rc.name, rc.psk);
    MadeIndex(High(R) + 1, 2, rc.name, rc.psk);
    MadeKey(e, High(R) + 1, 2, rc.name, rc.psk);
    NamedFrom(AsU32(High(R) + 1), rc.name, rc.psk);
    ListingLength(e, R);
    AppendStep(e, R, ch);
    FindNameIs(Keys(e, R + [ch]), rc.name, e.Default(), |R|);
  }

  lemma UpdatePlaces(e: Env, R: seq<Channel>, i: nat, rc: RavenChannel)
    requires Listing(R) && rc.name != [] && i == Place(e, R, rc.name) < |R|
    ensures Placed(e, R[i := Update(R, i, rc)], rc.name, ExpandPsk(rc.psk))
  {
    hide Listing, Keys, Place, High, ExpandPsk, MakeChannel, KeyOfChannel, FromProto, Install;
    UpdateKeepsPlace(e, R, i, rc, rc.name);
    MadeIndex(R[i].index, RoleAt(AsU32(R[i].index)), rc.name, rc.psk);
    MadeKey(e, R[i].index, RoleAt(AsU32(R[i].index)), rc.name, rc.psk);
    ReplaceStep(e, R, i, Update(R, i, rc));
  }

  lemma IsPlaced(e: Env, R: seq<Channel>, name: Name)
    requires Listing(R) && |Keys(e, R)| == |R| && Place(e, R, name) < |R|
    ensures Placed(e, R, name, Keys(e, R)[Place(e, R, name)].key)
  {
    hide Listing, Keys, Place;
  }

  /** A step places its own name. */
  lemma StepPlaced(e: Env, R: seq<Channel>, rc: RavenChannel)
    requires Listing(R) && rc.name != []
    ensures Placed(e, TableStep(e, R, rc), rc.name, ExpandPsk(rc.psk))
  {
    hide Listing, Keys, Place, Placed, TableStep, High, Update, MakeChannel, ExpandPsk;
    StepShape(e, R, rc);
    PlaceIsBounded(e, R, rc.name);
    var i := Place(e, R, rc.name);
    if i == |R| {
      AppendPlaces(e, R, rc);
    } else if Keys(e, R)[i].key != ExpandPsk(rc.psk) {
      UpdatePlaces(e, R, i, rc);
    } else {
      IsPlaced(e, R, rc.name);
    }
  }

  /** A step for another name leaves a placed one as it is. */
  lemma StepKeepsPlaced(e: Env, R: seq<Channel>, rc: RavenChannel, name: Name, key: seq<byte>)
    requires Placed(e, R, name, key) && rc.name != [] && name != [] && name != rc.name
    ensures Placed(e, TableStep(e, R, rc), name, key)
  {
    StepShape(e, R, rc);
    StepPlaces(e, R, rc, name);
    NamedAt(e, R, name);
    var i, k, t := Place(e, R, rc.name), Place(e, R, name), TableStep(e, R, rc);
    KeysAt(e, t);
    KeysAt(e, R);
    if i < |R| {
      NamedAt(e, R, rc.name);
      MadeIndex(R[i].index, RoleAt(AsU32(R[i].index)), rc.name, rc.psk);
    }
    hide Listing, Keys, PresetName, FindName, TableStep, High, ExpandPsk, MakeChannel, KeyOfChannel, Place;
    assert t[k] == R[k];
  }

  /** A name in a list has been placed, with its last key, once the list is worked through. */
  lemma {:induction false} PlacedAfter(e: Env, R: seq<Channel>, A: seq<RavenChannel>, name: Name)
    requires Listing(R) && Named(A) && LastPsk(A, name).Some?
    ensures name != [] && Placed(e, TableAll(e, R, A), name, ExpandPsk(LastPsk(A, name).value))
    decreases |A|
  {
    hide Placed, TableStep, ExpandPsk, Listing;
    var n := |A| - 1;
    TableGrows(e, R, A[..n]);
    if A[n].name == name {
      StepPlaced(e, TableAll(e, R, A[..n]), A[n]);
    } else {
      PlacedAfter(e, R, A[..n], name);
      StepKeepsPlaced(e, TableAll(e, R, A[..n]), A[n], name, ExpandPsk(LastPsk(A, name).value));
    }
  }

  /** If a list changes nothing in the table, neither does it with one more entry behind it, once that
      entry has been worked in. */
  lemma OneMore(e: Env, T: seq<Channel>, A: seq<RavenChannel>, rc: RavenChannel)
    requires Listing(T) && Named(A) && rc.name != []
    requires TableAll(e, T, A) == T
    ensures var T1 := TableStep(e, T, rc);
            TableStep(e, TableAll(e, T1, A), rc) == T1
  {
    var T1 := TableStep(e, T, rc);
    StepShape(e, T, rc);
    var i := Place(e, T, rc.name);
    if i == |T| {
      AppendedStays(e, T, A, rc);
    } else if T1 != T {
      ReplacedReturns(e, T, A, rc);
    }
  }

  lemma AppendedStays(e: Env, T: seq<Channel>, A: seq<RavenChannel>, rc: RavenChannel)
    requires Listing(T) && Named(A) && rc.name != []
    requires TableAll(e, T, A) == T && Place(e, T, rc.name) == |T|
    ensures var T1 := TableStep(e, T, rc);
            TableAll(e, T1, A) == T1 && TableStep(e, T1, rc) == T1
  {
    var T1 := TableStep(e, T, rc);
    var ch := MakeChannel(High(T) + 1, 2, rc.name, rc.psk);
    StepShape(e, T, rc);
    MadeIndex(High(T) + 1, 2, rc.name, rc.psk);
    MadeKey(e, High(T) + 1, 2, rc.name, rc.psk);
    AppendStep(e, T, ch);
    KeysAt(e, T);
    var keys := Keys(e, T1);
    assert keys == Keys(e, T) + [FromProto(AsU32(High(T) + 1), rc.name, rc.psk)];
    assert keys[|T|].name == rc.name && keys[|T|].key == ExpandPsk(rc.psk);
    if LastPsk(A, rc.name).Some? {
      PlacedAfter(e, T, A, rc.name);
      assert false;
    }
    hide Listing, Keys, PresetName, FindName, TableStep, TableAll, High, ExpandPsk, MakeChannel, FromProto;
    FindNameIs(keys, rc.name, e.Default(), |T|);
    KeepsLast(e, T, ch, rc.name, A);
    StepShape(e, T1, rc);
  }

  /** A table that matches the updated one away from the name's place is the updated one after a step
      that writes there, or if it is the updated one already. */
  lemma ReplaceAgain(e: Env, T: seq<Channel>, V: seq<Channel>, i: nat, rc: RavenChannel)
    requires Twin(e, T, V, i, rc.name)
    requires |Keys(e, V)| == |V|
    requires Keys(e, V)[i].key != ExpandPsk(rc.psk) || V == T[i := Update(T, i, rc)]
    ensures TableStep(e, V, rc) == T[i := Update(T, i, rc)]
  {
    TwinPlaces(e, T, V, i, rc.name, rc.name);
    StepShape(e, V, rc);
    hide Listing, Keys, TableStep, High, ExpandPsk, Place, MakeChannel;
    assert Update(V, i, rc) == Update(T, i, rc);
  }

  lemma ReplacedIsTwin(e: Env, T: seq<Channel>, rc: RavenChannel)
    requires Listing(T) && rc.name != [] && Place(e, T, rc.name) < |T| && TableStep(e, T, rc) != T
    ensures var i := Place(e, T, rc.name);
            && TableStep(e, T, rc) == T[i := Update(T, i, rc)]
            && |Keys(e, T)| == |T| && Keys(e, T)[i].key != ExpandPsk(rc.psk)
            && Twin(e, T, TableStep(e, T, rc), i, rc.name)
  {
    var i := Place(e, T, rc.name);
    StepShape(e, T, rc);
    StepPlaces(e, T, rc, rc.name);
    MadeIndex(T[i].index, RoleAt(AsU32(T[i].index)), rc.name, rc.psk);
    hide Listing, Keys, TableStep, High, ExpandPsk, Place, MakeChannel;
  }

  lemma ReplacedReturns(e: Env, T: seq<Channel>, A: seq<RavenChannel>, rc: RavenChannel)
    requires Listing(T) && Named(A) && rc.name != []
    requires TableAll(e, T, A) == T && Place(e, T, rc.name) < |T| && TableStep(e, T, rc) != T
    ensures TableStep(e, TableAll(e, TableStep(e, T, rc), A), rc) == TableStep(e, T, rc)
  {
    hide TableAll, TableStep, Keys, High, Listing, ExpandPsk, LastPsk;
    var T1, i := TableStep(e, T, rc), Place(e, T, rc.name);
    ReplacedIsTwin(e, T, rc);
    AllTwin(e, T, T1, i, rc.name, A);
    TwinPlaces(e, T, T1, i, rc.name, rc.name);
    var V := TableAll(e, T1, A);
    if LastPsk(A, rc.name).Some? {
      PlacedAfter(e, T, A, rc.name);
      PlacedAfter(e, T1, A, rc.name);
      TwinKeys(e, T, V, i, rc.name);
      ReplaceAgain(e, T, V, i, rc);
    } else {
      hide Place;
      assert V == T1;
      TwinKeys(e, T, V, i, rc.name);
      ReplaceAgain(e, T, V, i, rc);
    }
  }

  /** A second pass over a list of named channels changes nothing. */
  lemma {:induction false} SecondPass(e: Env, R: seq<Channel>, A: seq<RavenChannel>)
    requires Listing(R) && Named(A)
    ensures TableAll(e, TableAll(e, R, A), A) == TableAll(e, R, A)
    decreases |A|
  {
    if A == [] {
    } else {
      var n := |A| - 1;
      SecondPass(e, R, A[..n]);
      TableGrows(e, R, A[..n]);
      hide TableStep, Keys, Listing, PresetName, High;
      OneMore(e, TableAll(e, R, A[..n]), A[..n], A[n]);
    }
  }

  /** Going through part of a list and then through all of it is going through all of it. */
  lemma PartThenAll(e: Env, R: seq<Channel>, raven: seq<RavenChannel>, k: nat)
    requires Listing(R) && Named(raven) && k <= |raven|
    ensures TableAll(e, TableAll(e, R, raven[..k]), raven) == TableAll(e, R, raven)
    ensures High(TableAll(e, R, raven[..k])) <= High(TableAll(e, R, raven))
  {
    var part, more := raven[..k], raven[k..];
    assert raven == part + more;
    SecondPass(e, R, part);
    TableConcat(e, R, part, more);
    TableConcat(e, TableAll(e, R, part), part, more);
    TableGrows(e, R, part);
    TableGrows(e, TableAll(e, R, part), more);
  }
}
