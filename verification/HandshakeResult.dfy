/** What a handshake's result means, said of the messages the radio sent rather than of the loop. */
module HandshakeResult {
  import opened Bytes
  import opened Protocol
  import opened Handshake
  import SF = SerialFraming
  import SD = StressDeframer

  // ----- the messages of a stream -----

  /** The byte one pass reads, if it reads one. */
  function ReadIn(h: Setup, s: Progress, t: Turn): seq<byte> {
    if BeforeRead(h, s, t).verdict == None && t.read.GotByte? then [t.read.b] else []
  }

  /** The bytes a handshake takes from the port. */
  function Consumed(h: Setup, s: Progress, turns: seq<Turn>): seq<byte>
    decreases |turns|
  {
    if turns == [] then []
    else
      var o := Advance(h, s, turns[0]);
      ReadIn(h, s, turns[0]) + (if o.verdict.Some? then [] else Consumed(h, o.progress, turns[1..]))
  }

  /** The messages accepted from a list of frames. */
  function Messages(h: Setup, frames: seq<SF.Frame>): seq<FromRadio>
    decreases |frames|
  {
    if frames == [] then []
    else
      var before := Messages(h, frames[..|frames| - 1]);
      match Accepted(h, h.probe == None || before != [], frames[|frames| - 1])
      case None => before
      case Some(m) => before + [m]
  }

  function Heard(h: Setup, data: seq<byte>): seq<FromRadio> {
    Messages(h, SF.Frames(SF.FRESH, data))
  }

  /** What follows the last reboot. */
  function SinceReboot(msgs: seq<FromRadio>): seq<FromRadio>
    decreases |msgs|
  {
    if msgs == [] || msgs[|msgs| - 1] == Rebooted(true) then []
    else SinceReboot(msgs[..|msgs| - 1]) + [msgs[|msgs| - 1]]
  }

  function Reboots(msgs: seq<FromRadio>): nat
    decreases |msgs|
  {
    if msgs == [] then 0
    else Reboots(msgs[..|msgs| - 1]) + (if msgs[|msgs| - 1] == Rebooted(true) then 1 else 0)
  }

  function LastNode(msgs: seq<FromRadio>): Option<u32>
    decreases |msgs|
  {
    if msgs == [] then None
    else if msgs[|msgs| - 1].MyInfo? then Some(msgs[|msgs| - 1].nodeNum)
    else LastNode(msgs[..|msgs| - 1])
  }

  /** The last LoRa configuration; the defaults if there is none. */
  function LastLora(msgs: seq<FromRadio>): FromRadio
    ensures LastLora(msgs).LoraConfig?
    decreases |msgs|
  {
    if msgs == [] then LoraConfig(0, true, 0)
    else if msgs[|msgs| - 1].LoraConfig? then msgs[|msgs| - 1]
    else LastLora(msgs[..|msgs| - 1])
  }

  function LastMqtt(msgs: seq<FromRadio>): Option<MqttConfig>
    decreases |msgs|
  {
    if msgs == [] then None
    else if msgs[|msgs| - 1].MqttModule? then Some(msgs[|msgs| - 1].mqtt)
    else LastMqtt(msgs[..|msgs| - 1])
  }

  function UsableChannels(msgs: seq<FromRadio>): seq<Channel>
    decreases |msgs|
  {
    if msgs == [] then []
    else UsableChannels(msgs[..|msgs| - 1]) +
         (if msgs[|msgs| - 1].ChannelInfo? && Usable(msgs[|msgs| - 1].channel) then [msgs[|msgs| - 1].channel] else [])
  }

  function Summary(msgs: seq<FromRadio>, node: u32): RadioInfo {
    var lora := LastLora(msgs);
    RadioInfo(node, lora.modemPreset, lora.usePreset, lora.region, UsableChannels(msgs), LastMqtt(msgs))
  }

  ghost predicate Incomplete(h: Setup, msgs: seq<FromRadio>) {
    ConfigCompleteId(h.configId) !in msgs
  }

  // ----- the loop follows the messages -----

  ghost predicate Follows(h: Setup, msgs: seq<FromRadio>, s: Progress) {
    && (s.heard <==> h.probe == None || msgs != [])
    && s.info == Summary(SinceReboot(msgs), 0)
    && s.node == LastNode(SinceReboot(msgs))
    && s.replies == Reboots(msgs)
    && Incomplete(h, msgs)
  }

  /** Right after accepting msgs, a verdict is only given for a matching completion or a failed write. */
  ghost predicate Explained(h: Setup, msgs: seq<FromRadio>, verdict: Verdict) {
    match verdict
    case Done(info) =>
      && msgs != [] && msgs[|msgs| - 1] == ConfigCompleteId(h.configId)
      && var before := msgs[..|msgs| - 1];
      && Incomplete(h, before)
      && LastNode(SinceReboot(before)) == Some(info.myNodeNum)
      && info == Summary(SinceReboot(before), info.myNodeNum)
    case Failed(NoNodeInfo) =>
      && msgs != [] && msgs[|msgs| - 1] == ConfigCompleteId(h.configId)
      && var before := msgs[..|msgs| - 1];
      Incomplete(h, before) && LastNode(SinceReboot(before)) == None
    case Failed(_) => Incomplete(h, msgs)
  }

  lemma SummaryStep(msgs: seq<FromRadio>, m: FromRadio)
    ensures var all := msgs + [m];
            var before, now := Summary(SinceReboot(msgs), 0), Summary(SinceReboot(all), 0);
            && Reboots(all) == Reboots(msgs) + (if m == Rebooted(true) then 1 else 0)
            && LastNode(SinceReboot(all)) ==
                 (if m == Rebooted(true) then None else if m.MyInfo? then Some(m.nodeNum)
                  else LastNode(SinceReboot(msgs)))
            && now == match m
                 case Rebooted(true) => NO_INFO
                 case LoraConfig(p, u, r) => before.(modemPreset := p, usePreset := u, region := r)
                 case MqttModule(q) => before.(mqtt := Some(q))
                 case ChannelInfo(ch) => if Usable(ch) then before.(channels := before.channels + [ch]) else before
                 case _ => before
  {
    var all := msgs + [m];
    assert all[..|all| - 1] == msgs;
    var seg := SinceReboot(msgs);
    assert (seg + [m])[..|seg|] == seg;
  }

  lemma MessageFollows(h: Setup, msgs: seq<FromRadio>, s: Progress, m: FromRadio, replyOk: bool)
    requires Follows(h, msgs, s)
    ensures var o := OnMessage(h, s.(heard := true), m, replyOk);
            && (o.verdict == None ==> Follows(h, msgs + [m], o.progress))
            && (o.verdict.Some? ==> Explained(h, msgs + [m], o.verdict.value))
            && o.progress.replies == Reboots(msgs + [m])
            && o.progress.(heard := s.heard, info := s.info, node := s.node, replies := s.replies) == s
  {
    SummaryStep(msgs, m);
    hide Summary, SinceReboot, LastNode, Reboots;
    if m == ConfigCompleteId(h.configId) {
      CompletionExplained(h, msgs, s, replyOk);
    } else {
      hide Explained;
      assert Incomplete(h, msgs + [m]);
      if m == Rebooted(true) && !replyOk {
        FailureExplained(h, msgs + [m], WriteFailed);
      }
    }
  }

  lemma FailureExplained(h: Setup, msgs: seq<FromRadio>, error: Error)
    requires Incomplete(h, msgs) && error != NoNodeInfo
    ensures Explained(h, msgs, Failed(error))
  {
  }

  lemma CompletionExplained(h: Setup, msgs: seq<FromRadio>, s: Progress, replyOk: bool)
    requires Follows(h, msgs, s)
    ensures var m := ConfigCompleteId(h.configId);
            var o := OnMessage(h, s.(heard := true), m, replyOk);
            o.verdict.Some? && Explained(h, msgs + [m], o.verdict.value)
  {
    SummaryNode(SinceReboot(msgs), if s.node.Some? then s.node.value else 0);
    hide Summary, SinceReboot, LastNode, Reboots;
    var all := msgs + [ConfigCompleteId(h.configId)];
    assert all[..|all| - 1] == msgs;
  }

  lemma SummaryNode(msgs: seq<FromRadio>, node: u32)
    ensures Summary(msgs, node) == Summary(msgs, 0).(myNodeNum := node)
  {
  }

  lemma FrameFollows(h: Setup, frames: seq<SF.Frame>, s: Progress, f: SF.Frame, replyOk: bool)
    requires Follows(h, Messages(h, frames), s)
    ensures var o := OnFrame(h, s, f, replyOk);
            var msgs := Messages(h, frames + [f]);
            && (o.verdict == None ==> Follows(h, msgs, o.progress))
            && (o.verdict.Some? ==> Explained(h, msgs, o.verdict.value))
            && o.progress.replies == Reboots(msgs)
            && o.progress.(heard := s.heard, info := s.info, node := s.node, replies := s.replies) == s
  {
    assert (frames + [f])[..|frames|] == frames;
    var msgs := Messages(h, frames);
    var a := Accepted(h, s.heard, f);
    if a.Some? {
      MessageFollows(h, msgs, s, a.value, replyOk);
    }
  }

  /** Requests are repeated only while a probed port is silent, and no more often than the clock allows. */
  ghost predicate Bounded(h: Setup, s: Progress) {
    match h.probe
    case None => s.resends == 0
    case Some(p) => s.resends * p.resend <= p.firstFrame
  }

  ghost predicate Paced(h: Setup, s: Progress) {
    && Bounded(h, s)
    && (h.probe.Some? && !s.heard ==>
          s.nextResend >= h.start + s.resends * h.probe.value.resend + h.probe.value.resend)
  }

  ghost predicate Tracks(h: Setup, seen: seq<byte>, s: Progress) {
    && s.reader == SF.After(SF.FRESH, seen) && SF.Reachable(s.reader)
    && Follows(h, Heard(h, seen), s)
    && Paced(h, s)
  }

  /** What is known when a verdict is given after reading `seen`. */
  ghost predicate Ended(h: Setup, seen: seq<byte>, s: Progress, verdict: Verdict) {
    && Explained(h, Heard(h, seen), verdict)
    && Bounded(h, s) && s.replies == Reboots(Heard(h, seen))
    && (verdict.Done? ==> SF.After(SF.FRESH, seen) == SF.FRESH)
  }

  lemma ByteTracks(h: Setup, seen: seq<byte>, s: Progress, b: byte, replyOk: bool)
    requires Tracks(h, seen, s)
    ensures var o := OnByte(h, s, b, replyOk);
            if o.verdict == None then Tracks(h, seen + [b], o.progress)
            else Ended(h, seen + [b], o.progress, o.verdict.value)
  {
    var out := SF.Emit(s.reader, b);
    var r := s.(reader := SF.Next(s.reader, b));
    SF.FeedConcat(SF.FRESH, seen, [b]);
    OneByte(s.reader, b);
    hide SF.After, SF.Frames, SF.Next, SF.Emit;
    if out == [] {
      assert SF.Frames(SF.FRESH, seen + [b]) == SF.Frames(SF.FRESH, seen);
    } else {
      SF.CompletedIsFresh(s.reader, b);
      assert out == [out[0]];
      assert Follows(h, Heard(h, seen), r);
      FrameFollows(h, SF.Frames(SF.FRESH, seen), r, out[0], replyOk);
    }
  }

  lemma OneByte(r: SF.Reader, b: byte)
    ensures SF.After(r, [b]) == SF.Next(r, b) && SF.Frames(r, [b]) == SF.Emit(r, b)
    ensures SF.Reachable(r) ==> SF.Reachable(SF.Next(r, b))
  {
    assert [b][1..] == [];
  }

  lemma BeforeReadPaces(h: Setup, s: Progress, t: Turn)
    requires Paced(h, s)
    ensures var o := BeforeRead(h, s, t);
            && (if o.verdict == None then Paced(h, o.progress) else Bounded(h, o.progress))
            && o.progress.(nextResend := s.nextResend, resends := s.resends) == s
            && (o.verdict.Some? ==> o.verdict.value.Failed? && o.verdict.value.error != NoNodeInfo)
  {
    if h.probe.Some? {
      OneMore(s.resends, h.probe.value.resend);
    }
  }

  lemma OneMore(k: nat, r: nat)
    ensures (k + 1) * r == k * r + r
  {
  }

  lemma TurnTracks(h: Setup, seen: seq<byte>, s: Progress, t: Turn)
    requires Tracks(h, seen, s)
    ensures var o := Advance(h, s, t);
            var now := seen + ReadIn(h, s, t);
            if o.verdict == None then Tracks(h, now, o.progress)
            else Ended(h, now, o.progress, o.verdict.value)
  {
    BeforeReadPaces(h, s, t);
    var o := BeforeRead(h, s, t);
    hide BeforeRead, OnByte, Heard, SF.After;
    if o.verdict == None {
      assert Tracks(h, seen, o.progress);
      if t.read.GotByte? {
        ByteTracks(h, seen, o.progress, t.read.b, t.replyOk);
      } else {
        assert seen + ReadIn(h, s, t) == seen;
      }
    } else {
      assert seen + ReadIn(h, s, t) == seen;
    }
  }

  lemma {:induction false} PlayTracks(h: Setup, seen: seq<byte>, s: Progress, turns: seq<Turn>)
    requires Tracks(h, seen, s)
    ensures var o := Play(h, s, turns).0;
            var now := seen + Consumed(h, s, turns);
            if o.verdict == None then Tracks(h, now, o.progress)
            else Ended(h, now, o.progress, o.verdict.value)
    decreases |turns|
  {
    hide Advance, ReadIn, Tracks, Ended;
    if turns == [] {
      assert seen + Consumed(h, s, turns) == seen;
    } else {
      var t := turns[0];
      var o := Advance(h, s, t);
      var now := seen + ReadIn(h, s, t);
      TurnTracks(h, seen, s, t);
      if o.verdict == None {
        PlayTracks(h, now, o.progress, turns[1..]);
        assert now + Consumed(h, o.progress, turns[1..]) == seen + Consumed(h, s, turns);
      } else {
        assert seen + Consumed(h, s, turns) == now;
      }
    }
  }

  lemma BeginTracks(h: Setup)
    ensures Tracks(h, [], Begin(h))
  {
    assert Heard(h, []) == [];
  }

  // ----- the theorems -----

  /** The handshake ends with radio information exactly when it has accepted a matching completion and
      the radio has given its number since its last reboot; the information is then the summary of
      what was accepted since that reboot. Completions with another id change nothing. */
  lemma ResultIsFold(h: Setup, turns: seq<Turn>)
    ensures var o := Play(h, Begin(h), turns).0;
            var msgs := Heard(h, Consumed(h, Begin(h), turns));
            match o.verdict
            case None => Incomplete(h, msgs)
            case Some(v) => Explained(h, msgs, v)
  {
    BeginTracks(h);
    PlayTracks(h, [], Begin(h), turns);
    assert [] + Consumed(h, Begin(h), turns) == Consumed(h, Begin(h), turns);
  }

  /** Requests written after the first: while a probed port is silent at most one for every `resend` that
      fits in `firstFrame`, and one for every reboot message. The clock need not even be monotone. */
  lemma WritesAreBounded(h: Setup, turns: seq<Turn>)
    ensures var s := Play(h, Begin(h), turns).0.progress;
            && s.replies == Reboots(Heard(h, Consumed(h, Begin(h), turns)))
            && (match h.probe
                case None => s.resends == 0
                case Some(p) => s.resends * p.resend <= p.firstFrame)
  {
    BeginTracks(h);
    PlayTracks(h, [], Begin(h), turns);
    assert [] + Consumed(h, Begin(h), turns) == Consumed(h, Begin(h), turns);
  }

  /** A successful handshake takes the stream exactly through its completing frame: reading on with a
      new frame reader loses nothing, for every continuation of the stream. */
  lemma HandOffLosesNothing(h: Setup, turns: seq<Turn>, more: seq<byte>)
    requires var v := Play(h, Begin(h), turns).0.verdict; v.Some? && v.value.Done?
    ensures var seen := Consumed(h, Begin(h), turns);
            && SF.After(SF.FRESH, seen) == SF.FRESH
            && SF.Frames(SF.FRESH, seen + more) == SF.Frames(SF.FRESH, seen) + SF.Frames(SF.FRESH, more)
            && SD.Parse(4, seen + more).frames == SD.Parse(4, seen).frames + SD.Parse(4, more).frames
            && Heard(h, seen) != [] && Heard(h, seen)[|Heard(h, seen)| - 1] == ConfigCompleteId(h.configId)
  {
    BeginTracks(h);
    PlayTracks(h, [], Begin(h), turns);
    var seen := Consumed(h, Begin(h), turns);
    assert [] + seen == seen;
    hide Consumed, Play, Heard, SF.Frames, SF.After, SD.Parse;
    SF.FeedConcat(SF.FRESH, seen, more);
    SD.ReaderRefinesParse(seen);
    SD.ReaderRefinesParse(more);
    SD.ReaderRefinesParse(seen + more);
  }
}
