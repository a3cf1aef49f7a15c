/** The radio's channel table as the radio reports it: ascending by index, and accepting set_channel. */
module RadioTable {
  import opened Bytes
  import opened Protocol

  ghost predicate Ascending(R: seq<Channel>) {
    forall i, j :: 0 <= i < j < |R| ==> R[i].index < R[j].index
  }

  /** Channels with settings, by ascending index. */
  ghost predicate Listing(R: seq<Channel>) {
    Ascending(R) && forall i :: 0 <= i < |R| ==> R[i].settings.Some? && 0 <= R[i].index
  }

  /** What a handshake collects: usable channels by ascending index, a non-negative 32-bit number. */
  ghost predicate WellFormed(R: seq<Channel>) {
    Listing(R) && forall i :: 0 <= i < |R| ==> R[i].index < 0x8000_0000
  }

  /** set_channel replaces the channel with the same index or puts the new one in its place. */
  function Install(R: seq<Channel>, ch: Channel): seq<Channel>
    decreases |R|
  {
    if R == [] || ch.index < R[0].index then [ch] + R
    else if ch.index == R[0].index then [ch] + R[1..]
    else [R[0]] + Install(R[1..], ch)
  }

  function InstallAll(R: seq<Channel>, chs: seq<Channel>): seq<Channel>
    decreases |chs|
  {
    if chs == [] then R else Install(InstallAll(R, chs[..|chs| - 1]), chs[|chs| - 1])
  }

  lemma {:induction false} InstallAllConcat(R: seq<Channel>, a: seq<Channel>, b: seq<Channel>)
    ensures InstallAll(R, a + b) == InstallAll(InstallAll(R, a), b)
    decreases |b|
  {
    if b == [] {
      assert a + b == a;
    } else {
      assert (a + b)[..|a + b| - 1] == a + b[..|b| - 1];
      InstallAllConcat(R, a, b[..|b| - 1]);
    }
  }

  lemma {:induction false} InstallReplaces(R: seq<Channel>, ch: Channel, i: nat)
    requires Ascending(R) && i < |R| && R[i].index == ch.index
    ensures Install(R, ch) == R[i := ch]
    decreases |R|
  {
    if i == 0 {
    } else {
      assert R[0].index < R[i].index;
      InstallReplaces(R[1..], ch, i - 1);
    }
  }

  lemma {:induction false} InstallAppends(R: seq<Channel>, ch: Channel)
    requires forall i :: 0 <= i < |R| ==> R[i].index < ch.index
    ensures Install(R, ch) == R + [ch]
    decreases |R|
  {
    if R == [] {
    } else {
      InstallAppends(R[1..], ch);
    }
  }

  lemma PutInFront(ch: Channel, R: seq<Channel>)
    requires Ascending(R) && forall x :: x in R ==> ch.index < x.index
    ensures Ascending([ch] + R)
  {
    assert forall i :: 0 <= i < |R| ==> R[i] in R;
  }

  /** What is in the table after an install: the new channel, and the others as they were. */
  lemma {:induction false} InstallElements(R: seq<Channel>, ch: Channel)
    requires Ascending(R)
    ensures Ascending(Install(R, ch))
    ensures forall x :: x in Install(R, ch) <==> x == ch || (x in R && x.index != ch.index)
    decreases |R|
  {
    if R == [] || ch.index < R[0].index {
    } else if ch.index == R[0].index {
      assert R == [R[0]] + R[1..];
    } else {
      assert R == [R[0]] + R[1..];
      InstallElements(R[1..], ch);
      var t := Install(R[1..], ch);
      assert forall x :: x in R[1..] ==> R[0].index < x.index;
      hide Ascending;
      PutInFront(R[0], t);
    }
  }

  ghost predicate Touches(chs: seq<Channel>, index: int) {
    exists c :: c in chs && c.index == index
  }

  lemma {:induction false} InstallAllElements(R: seq<Channel>, chs: seq<Channel>)
    requires Ascending(R)
    ensures Ascending(InstallAll(R, chs))
    ensures forall x :: x in InstallAll(R, chs) ==> x in chs || (x in R && !Touches(chs, x.index))
    ensures forall x :: x in R && !Touches(chs, x.index) ==> x in InstallAll(R, chs)
    decreases |chs|
  {
    if chs == [] {
    } else {
      var n := |chs| - 1;
      var init, last := chs[..n], chs[n];
      assert chs == init + [last];
      InstallAllElements(R, init);
      InstallElements(InstallAll(R, init), last);
      assert forall index :: Touches(chs, index) <==> Touches(init, index) || index == last.index by {
        forall index
          ensures Touches(chs, index) <==> Touches(init, index) || index == last.index
        {
          assert last in chs;
        }
      }
    }
  }

  /** An install never takes an index out of the table. */
  lemma {:induction false} InstalledIsThere(R: seq<Channel>, chs: seq<Channel>, index: int)
    requires Ascending(R) && Touches(chs, index)
    ensures Touches(InstallAll(R, chs), index)
    decreases |chs|
  {
    hide Install;
    var n := |chs| - 1;
    var before, last := InstallAll(R, chs[..n]), chs[n];
    InstallAllElements(R, chs[..n]);
    InstallElements(before, last);
    var t := Install(before, last);
    if last.index == index {
      assert last in t;
    } else {
      var c :| c in chs && c.index == index;
      assert chs == chs[..n] + [last];
      assert c in chs[..n];
      InstalledIsThere(R, chs[..n], index);
      var x :| x in before && x.index == index;
      assert x in t;
    }
  }

  /** Installing channels the table already holds changes nothing. */
  lemma {:induction false} InstallPresent(R: seq<Channel>, chs: seq<Channel>)
    requires Ascending(R) && forall c :: c in chs ==> c in R
    ensures InstallAll(R, chs) == R
    decreases |chs|
  {
    if chs == [] {
    } else {
      var n := |chs| - 1;
      InstallPresent(R, chs[..n]);
      assert chs[n] in R;
      var i :| 0 <= i < |R| && R[i] == chs[n];
      InstallReplaces(R, chs[n], i);
    }
  }

  // ----- the downlink flag -----

  predicate HasDownlink(ch: Channel) {
    ch.settings.Some? && ch.settings.value.downlink
  }

  function SetDownlink(ch: Channel): Channel {
    if ch.settings.Some? then ch.(settings := Some(ch.settings.value.(downlink := true))) else ch
  }

  function AllDownlink(R: seq<Channel>): (t: seq<Channel>)
    ensures |t| == |R| && forall i :: 0 <= i < |R| ==> t[i] == SetDownlink(R[i])
    decreases |R|
  {
    if R == [] then [] else AllDownlink(R[..|R| - 1]) + [SetDownlink(R[|R| - 1])]
  }

  lemma AllDownlinkIs(R: seq<Channel>, t: seq<Channel>)
    requires |t| == |R| && forall i :: 0 <= i < |R| ==> t[i] == SetDownlink(R[i])
    ensures AllDownlink(R) == t
  {
  }

  lemma {:induction false} InstallDownlink(R: seq<Channel>, ch: Channel)
    ensures Install(AllDownlink(R), SetDownlink(ch)) == AllDownlink(Install(R, ch))
    decreases |R|
  {
    hide AllDownlink, SetDownlink;
    DownlinkKeepsIndex(ch);
    if R == [] {
    } else {
      DownlinkKeepsIndex(R[0]);
      assert AllDownlink(R)[1..] == AllDownlink(R[1..]);
      InstallDownlink(R[1..], ch);
    }
    assert Install(AllDownlink(R), SetDownlink(ch)) == AllDownlink(Install(R, ch));
  }

  lemma DownlinkKeepsIndex(ch: Channel)
    ensures SetDownlink(ch).index == ch.index && SetDownlink(SetDownlink(ch)) == SetDownlink(ch)
  {
  }

  lemma {:induction false} InstallAllDownlink(R: seq<Channel>, chs: seq<Channel>)
    ensures InstallAll(AllDownlink(R), AllDownlink(chs)) == AllDownlink(InstallAll(R, chs))
    decreases |chs|
  {
    if chs == [] {
    } else {
      var n := |chs| - 1;
      InstallAllDownlink(R, chs[..n]);
      InstallDownlink(InstallAll(R, chs[..n]), chs[n]);
      assert AllDownlink(chs)[..n] == AllDownlink(chs[..n]);
    }
  }

  lemma AllDownlinkTwice(R: seq<Channel>)
    ensures AllDownlink(AllDownlink(R)) == AllDownlink(R)
  {
  }

  /** The same channels, up to their downlink flags. */
  ghost predicate Similar(a: seq<Channel>, b: seq<Channel>) {
    AllDownlink(a) == AllDownlink(b)
  }

  lemma InstallDownlinkedIsSimilar(R: seq<Channel>, chs: seq<Channel>)
    ensures Similar(InstallAll(R, AllDownlink(chs)), InstallAll(R, chs))
  {
    InstallAllDownlink(R, AllDownlink(chs));
    InstallAllDownlink(R, chs);
    AllDownlinkTwice(chs);
  }
}
