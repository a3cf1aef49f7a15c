/** What the result of a handshake is, message by message, and when the handshake gives up or asks again. */
module HandshakeMeaning {
  import opened Bytes
  import opened Protocol
  import opened Handshake
  import opened HandshakeResult
  import SF = SerialFraming

  // ----- the frames that count -----

  /** What a list of frames decodes to, leaving out what does not decode. */
  function Decoded(c: Codec, frames: seq<SF.Frame>): seq<FromRadio>
    decreases |frames|
  {
    if frames == [] then []
    else Decoded(c, frames[..|frames| - 1]) +
         (match c.decodeFromRadio(frames[|frames| - 1]) case Some(m) => [m] case None => [])
  }

  /** The frame shows that a radio is there: it decodes to some message and is not the probe's own request. */
  predicate ShowsRadio(h: Setup, frame: SF.Frame) {
    && h.codec.decodeFromRadio(frame).Some? && h.codec.decodeFromRadio(frame) != Some(NoVariant)
    && frame != h.codec.encodeToRadio(WantConfigId(h.configId))
  }

  /** The first frame that shows a radio; |frames| if there is none. */
  function FirstShown(h: Setup, frames: seq<SF.Frame>): (i: nat)
    ensures i <= |frames| && (i < |frames| ==> ShowsRadio(h, frames[i]))
    ensures forall j :: 0 <= j < i ==> !ShowsRadio(h, frames[j])
    decreases |frames|
  {
    if frames == [] then 0
    else
      var i := FirstShown(h, frames[..|frames| - 1]);
      if i < |frames| - 1 || ShowsRadio(h, frames[|frames| - 1]) then i else |frames|
  }

  /** A handshake hears all messages; a probe those from the first frame on that shows a radio. */
  lemma {:induction false} MessagesExactly(h: Setup, frames: seq<SF.Frame>)
    ensures h.probe == None ==> Messages(h, frames) == Decoded(h.codec, frames)
    ensures h.probe.Some? ==>
      Messages(h, frames) == Decoded(h.codec, frames[FirstShown(h, frames)..])
    ensures h.probe.Some? ==> (Messages(h, frames) != [] <==> FirstShown(h, frames) < |frames|)
    decreases |frames|
  {
    if frames == [] {
    } else {
      var n := |frames| - 1;
      var init, i, k := frames[..n], FirstShown(h, frames), FirstShown(h, frames[..n]);
      MessagesExactly(h, init);
      if i < n {
        assert k == i;
        assert frames[i..][..|frames[i..]| - 1] == init[i..];
      } else if i == n {
        assert k == n && init[n..] == [];
        assert frames[n..] == [frames[n]] && frames[n..][..0] == [];
        assert Decoded(h.codec, []) == [];
      } else {
        assert frames[i..] == [] && init[k..] == [];
      }
    }
  }

  // ----- the result -----

  /** From r on there is no reboot message, and r is the start or just behind one. */
  ghost predicate LastReboot(msgs: seq<FromRadio>, r: nat) {
    && r <= |msgs| && (r == 0 || msgs[r - 1] == Rebooted(true))
    && forall j :: r <= j < |msgs| ==> msgs[j] != Rebooted(true)
  }

  lemma {:induction false} SinceRebootIs(msgs: seq<FromRadio>)
    ensures exists r: nat :: LastReboot(msgs, r) && SinceReboot(msgs) == msgs[r..]
    decreases |msgs|
  {
    if msgs == [] {
      assert LastReboot(msgs, 0);
    } else if msgs[|msgs| - 1] == Rebooted(true) {
      assert LastReboot(msgs, |msgs|) && msgs[|msgs|..] == [];
    } else {
      var n := |msgs| - 1;
      SinceRebootIs(msgs[..n]);
      var r: nat :| LastReboot(msgs[..n], r) && SinceReboot(msgs[..n]) == msgs[..n][r..];
      assert msgs[r..] == msgs[..n][r..] + [msgs[n]];
      assert LastReboot(msgs, r);
    }
  }

  /** A channel message of the primary role, 1, or the secondary role, 2, that has settings. */
  predicate Wanted(m: FromRadio) {
    m.ChannelInfo? && (m.channel.role == 1 || m.channel.role == 2) && m.channel.settings.Some?
  }

  /** The channels are those of the wanted messages in their order: the k-th comes from message at[k], and every
      wanted message is in `at`. */
  ghost predicate Collected(msgs: seq<FromRadio>, chs: seq<Channel>, at: seq<nat>) {
    && |at| == |chs|
    && (forall i, j :: 0 <= i < j < |at| ==> at[i] < at[j])
    && (forall k :: 0 <= k < |at| ==> at[k] < |msgs| && Wanted(msgs[at[k]]) && msgs[at[k]].channel == chs[k])
    && (forall j :: 0 <= j < |msgs| && Wanted(msgs[j]) ==> j in at)
  }

  lemma {:induction false} ChannelsAreCollected(msgs: seq<FromRadio>)
    ensures exists at :: Collected(msgs, UsableChannels(msgs), at)
    decreases |msgs|
  {
    if msgs == [] {
      assert Collected(msgs, UsableChannels(msgs), []);
    } else {
      var n := |msgs| - 1;
      ChannelsAreCollected(msgs[..n]);
      var chs := UsableChannels(msgs[..n]);
      var at :| Collected(msgs[..n], chs, at);
      OneMoreChannel(msgs);
      hide UsableChannels, Collected;
      if Wanted(msgs[n]) {
        CollectOne(msgs, chs, at);
        assert Collected(msgs, UsableChannels(msgs), at + [n]);
      } else {
        SkipOne(msgs, chs, at);
        assert Collected(msgs, UsableChannels(msgs), at);
      }
    }
  }

  lemma OneMoreChannel(msgs: seq<FromRadio>)
    requires msgs != []
    ensures var n := |msgs| - 1;
            UsableChannels(msgs) ==
              if Wanted(msgs[n]) then UsableChannels(msgs[..n]) + [msgs[n].channel] else UsableChannels(msgs[..n])
  {
  }

  lemma SkipOne(msgs: seq<FromRadio>, chs: seq<Channel>, at: seq<nat>)
    requires msgs != [] && Collected(msgs[..|msgs| - 1], chs, at) && !Wanted(msgs[|msgs| - 1])
    ensures Collected(msgs, chs, at)
  {
    hide Wanted;
    assert forall j :: 0 <= j < |msgs| - 1 ==> msgs[j] == msgs[..|msgs| - 1][j];
  }

  lemma CollectOne(msgs: seq<FromRadio>, chs: seq<Channel>, at: seq<nat>)
    requires msgs != [] && Collected(msgs[..|msgs| - 1], chs, at) && Wanted(msgs[|msgs| - 1])
    ensures Collected(msgs, chs + [msgs[|msgs| - 1].channel], at + [|msgs| - 1])
  {
    hide Wanted;
    var n := |msgs| - 1;
    var all := at + [n];
    assert forall k :: 0 <= k < |at| ==> all[k] == at[k] && msgs[at[k]] == msgs[..n][at[k]];
    forall j | 0 <= j < |msgs| && Wanted(msgs[j])
      ensures j in all
    {
      if j < n {
        assert msgs[..n][j] == msgs[j] && j in at;
      } else {
        assert all[|at|] == j;
      }
    }
  }

  /** Message j is the last LoRa configuration; the last MQTT configuration; the last node number. */
  ghost predicate LastLoraAt(msgs: seq<FromRadio>, j: nat) {
    j < |msgs| && msgs[j].LoraConfig? && forall k :: j < k < |msgs| ==> !msgs[k].LoraConfig?
  }

  ghost predicate LastMqttAt(msgs: seq<FromRadio>, j: nat) {
    j < |msgs| && msgs[j].MqttModule? && forall k :: j < k < |msgs| ==> !msgs[k].MqttModule?
  }

  ghost predicate LastNodeAt(msgs: seq<FromRadio>, j: nat) {
    j < |msgs| && msgs[j].MyInfo? && forall k :: j < k < |msgs| ==> !msgs[k].MyInfo?
  }

  /** The last message of a kind sets its fields; without one they have their defaults. */
  ghost predicate Configured(msgs: seq<FromRadio>, info: RadioInfo) {
    && (forall j: nat :: LastLoraAt(msgs, j) ==> msgs[j] == LoraConfig(info.modemPreset, info.usePreset, info.region))
    && ((forall j :: 0 <= j < |msgs| ==> !msgs[j].LoraConfig?) ==>
          info.modemPreset == 0 && info.usePreset && info.region == 0)
    && (forall j: nat :: LastMqttAt(msgs, j) ==> info.mqtt == Some(msgs[j].mqtt))
    && ((forall j :: 0 <= j < |msgs| ==> !msgs[j].MqttModule?) ==> info.mqtt == None)
  }

  lemma {:induction false} LoraAt(msgs: seq<FromRadio>, j: nat)
    requires LastLoraAt(msgs, j)
    ensures LastLora(msgs) == msgs[j]
    decreases |msgs|
  {
    if j == |msgs| - 1 {
    } else {
      LoraAt(msgs[..|msgs| - 1], j);
    }
  }

  lemma {:induction false} NoLora(msgs: seq<FromRadio>)
    requires forall j :: 0 <= j < |msgs| ==> !msgs[j].LoraConfig?
    ensures LastLora(msgs) == LoraConfig(0, true, 0)
    decreases |msgs|
  {
    if msgs == [] {
    } else {
      NoLora(msgs[..|msgs| - 1]);
    }
  }

  lemma {:induction false} MqttAt(msgs: seq<FromRadio>, j: nat)
    requires LastMqttAt(msgs, j)
    ensures LastMqtt(msgs) == Some(msgs[j].mqtt)
    decreases |msgs|
  {
    if j == |msgs| - 1 {
    } else {
      MqttAt(msgs[..|msgs| - 1], j);
    }
  }

  lemma {:induction false} NoMqtt(msgs: seq<FromRadio>)
    requires forall j :: 0 <= j < |msgs| ==> !msgs[j].MqttModule?
    ensures LastMqtt(msgs) == None
    decreases |msgs|
  {
    if msgs == [] {
    } else {
      NoMqtt(msgs[..|msgs| - 1]);
    }
  }

  ghost predicate NumberedBy(msgs: seq<FromRadio>, node: u32) {
    exists j: nat :: LastNodeAt(msgs, j) && msgs[j].nodeNum == node
  }

  lemma {:induction false} NodeAt(msgs: seq<FromRadio>)
    requires LastNode(msgs).Some?
    ensures NumberedBy(msgs, LastNode(msgs).value)
    decreases |msgs|
  {
    var n := |msgs| - 1;
    if msgs[n].MyInfo? {
      assert LastNodeAt(msgs, n);
    } else {
      NodeAt(msgs[..n]);
      var j: nat :| LastNodeAt(msgs[..n], j) && msgs[..n][j].nodeNum == LastNode(msgs).value;
      assert forall k :: j <= k < n ==> msgs[k] == msgs[..n][k];
      assert LastNodeAt(msgs, j);
    }
  }

  lemma {:induction false} NoNode(msgs: seq<FromRadio>)
    requires LastNode(msgs) == None
    ensures forall j :: 0 <= j < |msgs| ==> !msgs[j].MyInfo?
    decreases |msgs|
  {
    if msgs == [] {
    } else {
      NoNode(msgs[..|msgs| - 1]);
    }
  }

  /** The messages since the last reboot give this information. */
  ghost predicate Gives(msgs: seq<FromRadio>, r: nat, info: RadioInfo)
    requires r <= |msgs|
  {
    var seg := msgs[r..];
    && NumberedBy(seg, info.myNodeNum) && Configured(seg, info)
    && exists at :: Collected(seg, info.channels, at)
  }

  /** A successful handshake has heard its completion message just now and for the first time. Its information
      is what the messages since the last reboot give: the last node number, LoRa and MQTT settings, and
      exactly the primary and secondary channels, in order. */
  lemma ResultExactly(h: Setup, turns: seq<Turn>, info: RadioInfo)
    requires Play(h, Begin(h), turns).0.verdict == Some(Done(info))
    ensures var msgs := Heard(h, Consumed(h, Begin(h), turns));
            && msgs != [] && msgs[|msgs| - 1] == ConfigCompleteId(h.configId)
            && var before := msgs[..|msgs| - 1];
            && ConfigCompleteId(h.configId) !in before
            && exists r: nat :: LastReboot(before, r) && Gives(before, r, info)
  {
    ResultIsFold(h, turns);
    hide Play, Heard, Consumed, Summary, SinceReboot, LastNode;
    var msgs := Heard(h, Consumed(h, Begin(h), turns));
    var before := msgs[..|msgs| - 1];
    SinceRebootIs(before);
    var r: nat :| LastReboot(before, r) && SinceReboot(before) == before[r..];
    SummaryGives(before, r, info);
  }

  lemma SummaryChannels(msgs: seq<FromRadio>, info: RadioInfo)
    requires info == Summary(msgs, info.myNodeNum)
    ensures info.channels == UsableChannels(msgs)
  {
  }

  lemma ConfigurationIs(msgs: seq<FromRadio>, info: RadioInfo)
    requires info == Summary(msgs, info.myNodeNum)
    ensures Configured(msgs, info)
  {
    hide LastLora, LastMqtt, UsableChannels;
    forall j: nat | LastLoraAt(msgs, j)
      ensures LastLora(msgs) == msgs[j]
    {
      LoraAt(msgs, j);
    }
    forall j: nat | LastMqttAt(msgs, j)
      ensures LastMqtt(msgs) == Some(msgs[j].mqtt)
    {
      MqttAt(msgs, j);
    }
    if forall j :: 0 <= j < |msgs| ==> !msgs[j].LoraConfig? {
      NoLora(msgs);
    }
    if forall j :: 0 <= j < |msgs| ==> !msgs[j].MqttModule? {
      NoMqtt(msgs);
    }
  }

  lemma SummaryGives(msgs: seq<FromRadio>, r: nat, info: RadioInfo)
    requires r <= |msgs| && LastNode(msgs[r..]) == Some(info.myNodeNum)
    requires info == Summary(msgs[r..], info.myNodeNum)
    ensures Gives(msgs, r, info)
  {
    var seg := msgs[r..];
    ConfigurationIs(seg, info);
    hide LastNode, Summary, Collected, NumberedBy, Configured;
    NodeAt(seg);
    ChannelsAreCollected(seg);
    SummaryChannels(seg, info);
  }

  /** A completion without a node number since the last reboot is an error. */
  lemma NoNumberExactly(h: Setup, turns: seq<Turn>)
    requires Play(h, Begin(h), turns).0.verdict == Some(Failed(NoNodeInfo))
    ensures var msgs := Heard(h, Consumed(h, Begin(h), turns));
            && msgs != [] && msgs[|msgs| - 1] == ConfigCompleteId(h.configId)
            && var before := msgs[..|msgs| - 1];
            exists r: nat :: LastReboot(before, r) && forall j :: r <= j < |before| ==> !before[j].MyInfo?
  {
    ResultIsFold(h, turns);
    hide Play, Heard, Consumed, SinceReboot, LastNode;
    var msgs := Heard(h, Consumed(h, Begin(h), turns));
    var before := msgs[..|msgs| - 1];
    SinceRebootIs(before);
    var r: nat :| LastReboot(before, r) && SinceReboot(before) == before[r..];
    NoNode(before[r..]);
    hide LastReboot;
    assert forall j :: r <= j < |before| ==> before[j] == before[r..][j - r];
  }

  // ----- the clock -----

  /** The state after the first i turns, if the handshake is still on. */
  function After(h: Setup, turns: seq<Turn>, i: nat): Outcome
    requires i <= |turns|
  {
    Play(h, Begin(h), turns[..i]).0
  }

  lemma {:induction false} PlayMore(h: Setup, s: Progress, turns: seq<Turn>, t: Turn)
    ensures var o, p := Play(h, s, turns), Play(h, s, turns + [t]);
            if o.0.verdict.Some? then p == o else p == (Advance(h, o.0.progress, t), |turns| + 1)
    decreases |turns|
  {
    hide Advance;
    if turns == [] {
      assert [t][1..] == [] && turns + [t] == [t];
      assert Play(h, Advance(h, s, t).progress, []) == (Outcome(Advance(h, s, t).progress, None), 0);
    } else {
      assert (turns + [t])[1..] == turns[1..] + [t];
      var o := Advance(h, s, turns[0]);
      if o.verdict == None {
        PlayMore(h, o.progress, turns[1..], t);
      }
    }
  }

  lemma AfterNext(h: Setup, turns: seq<Turn>, i: nat)
    requires i < |turns|
    ensures After(h, turns, i).verdict.Some? ==> After(h, turns, i + 1) == After(h, turns, i)
    ensures After(h, turns, i).verdict == None ==>
      After(h, turns, i + 1) == Advance(h, After(h, turns, i).progress, turns[i])
  {
    hide Play, Advance;
    assert turns[..i + 1] == turns[..i] + [turns[i]];
    PlayMore(h, Begin(h), turns[..i], turns[i]);
  }

  /** No probed port has been heard from. */
  ghost predicate Silent(h: Setup, o: Outcome) {
    h.probe.Some? && o.verdict == None && !o.progress.heard
  }

  /** A turn gives up if and only if its clock is past the deadline, or past the limit for the first frame of a
      port still silent; the deadline is what it then reports. */
  lemma GivesUpExactly(h: Setup, turns: seq<Turn>, i: nat)
    requires i < |turns| && After(h, turns, i).verdict == None
    ensures var now, o := turns[i].now, After(h, turns, i + 1);
            && (o.verdict == Some(Failed(TimedOut)) <==> now > h.start + h.timeout)
            && (o.verdict == Some(Failed(NoReply)) <==>
                  now <= h.start + h.timeout && Silent(h, After(h, turns, i))
                    && now > h.start + h.probe.value.firstFrame)
  {
    AfterNext(h, turns, i);
    hide Play, SF.Next, SF.Emit;
  }

  /** A port is silent as long as no message has been heard from it. */
  lemma SilentExactly(h: Setup, turns: seq<Turn>, i: nat)
    requires i <= |turns| && After(h, turns, i).verdict == None
    ensures Silent(h, After(h, turns, i)) <==>
      h.probe.Some? && Heard(h, Consumed(h, Begin(h), turns[..i])) == []
  {
    BeginTracks(h);
    PlayTracks(h, [], Begin(h), turns[..i]);
    assert [] + Consumed(h, Begin(h), turns[..i]) == Consumed(h, Begin(h), turns[..i]);
    hide Play, Heard, Consumed, SF.After, Paced;
  }

  /** The clock starts at the handshake's start and does not run backwards. */
  ghost predicate Monotone(h: Setup, turns: seq<Turn>) {
    && (forall i :: 0 <= i < |turns| ==> h.start <= turns[i].now)
    && (forall i, j :: 0 <= i < j < |turns| ==> turns[i].now <= turns[j].now)
  }

  lemma SilentStep(h: Setup, turns: seq<Turn>, i: nat)
    requires i < |turns| && Silent(h, After(h, turns, i)) && Silent(h, After(h, turns, i + 1))
    ensures var s, t := After(h, turns, i).progress, After(h, turns, i + 1).progress;
            if turns[i].now < s.nextResend then t.resends == s.resends && t.nextResend == s.nextResend
            else t.resends == s.resends + 1 && t.nextResend == turns[i].now + h.probe.value.resend
  {
    AfterNext(h, turns, i);
    hide Play, SF.Next, SF.Emit, Accepted;
  }

  lemma {:induction false} EarlierIsOn(h: Setup, turns: seq<Turn>, i: nat, j: nat)
    requires i <= j <= |turns| && Silent(h, After(h, turns, j))
    ensures Silent(h, After(h, turns, i))
    decreases j
  {
    if i == j {
    } else {
      AfterNext(h, turns, j - 1);
      hide Play, SF.Next, SF.Emit, Accepted;
      EarlierIsOn(h, turns, i, j - 1);
    }
  }

  lemma {:induction false} NextIsDueSoon(h: Setup, turns: seq<Turn>, i: nat)
    requires i <= |turns| && Silent(h, After(h, turns, i)) && Monotone(h, turns)
    ensures After(h, turns, i).progress.nextResend <=
              (if i == 0 then h.start else turns[i - 1].now) + h.probe.value.resend
    decreases i
  {
    hide After;
    EarlierIsOn(h, turns, 0, i);
    if i == 0 {
      AtBegin(h, turns);
    } else {
      EarlierIsOn(h, turns, i - 1, i);
      NextIsDueSoon(h, turns, i - 1);
      SilentStep(h, turns, i - 1);
    }
  }

  lemma AtBegin(h: Setup, turns: seq<Turn>)
    ensures After(h, turns, 0) == Outcome(Begin(h), None)
  {
    assert turns[..0] == [];
  }

  lemma {:induction false} ResendsGrow(h: Setup, turns: seq<Turn>, i: nat, j: nat)
    requires i <= j <= |turns| && Silent(h, After(h, turns, j))
    ensures var s, t := After(h, turns, i).progress, After(h, turns, j).progress;
            s.resends <= t.resends && (s.resends == t.resends ==> s.nextResend == t.nextResend)
    decreases j
  {
    hide After;
    if i == j {
    } else {
      EarlierIsOn(h, turns, j - 1, j);
      ResendsGrow(h, turns, i, j - 1);
      SilentStep(h, turns, j - 1);
    }
  }

  /** While a probed port is silent the request is repeated whenever it is due: on a clock that does not run
      backwards, no turn leaves the last request, or resend, `resend` or more behind. */
  lemma ResendsWhenDue(h: Setup, turns: seq<Turn>, i: nat, j: nat)
    requires i <= j < |turns| && Silent(h, After(h, turns, j + 1)) && Monotone(h, turns)
    requires turns[j].now >= (if i == 0 then h.start else turns[i - 1].now) + h.probe.value.resend
    ensures After(h, turns, j + 1).progress.resends > After(h, turns, i).progress.resends
  {
    hide After;
    EarlierIsOn(h, turns, j, j + 1);
    EarlierIsOn(h, turns, i, j);
    NextIsDueSoon(h, turns, i);
    ResendsGrow(h, turns, i, j);
    SilentStep(h, turns, j);
  }
}
