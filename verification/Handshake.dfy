/** The configuration handshake of src/serial.rs. The port and the clock are a list of turns, one for
    each pass of the loop. */
module Handshake {
  import opened Bytes
  import opened Protocol
  import SF = SerialFraming

  datatype RadioInfo = RadioInfo(
    myNodeNum: u32, modemPreset: int, usePreset: bool, region: int,
    channels: seq<Channel>, mqtt: Option<MqttConfig>)

  const NO_INFO := RadioInfo(0, 0, true, 0, [], None)

  /** Limits of a probe, in the clock's unit. */
  datatype Probe = Probe(firstFrame: nat, resend: nat)

  /** The parameters of one handshake; `start` is read just after the first request is written. */
  datatype Setup = Setup(codec: Codec, configId: u32, start: int, timeout: nat, probe: Option<Probe>) {
    function Request(): seq<byte> {
      codec.encodeToRadio(WantConfigId(configId))
    }
  }

  datatype Read = GotByte(b: byte) | Quiet | Closed | Broken

  /** One pass of the loop: the clock, the read, and whether the writes it may make succeed. */
  datatype Turn = Turn(now: int, resendOk: bool, read: Read, replyOk: bool)

  datatype Error = TimedOut | NoReply | Eof | NoNodeInfo | WriteFailed | ReadFailed

  datatype Verdict = Done(info: RadioInfo) | Failed(error: Error)

  /** The loop's variables, with the requests written since the first one. */
  datatype Progress = Progress(
    heard: bool, nextResend: int, reader: SF.Reader, info: RadioInfo, node: Option<u32>,
    resends: nat, replies: nat)

  datatype Outcome = Outcome(progress: Progress, verdict: Option<Verdict>)

  // ----- specification: the loop as a function -----

  function Begin(h: Setup): Progress {
    var resend := if h.probe.Some? then h.probe.value.resend else 0;
    Progress(h.probe == None, h.start + resend, SF.FRESH, NO_INFO, None, 0, 0)
  }

  predicate Usable(ch: Channel) {
    (ch.role == 1 || ch.role == 2) && ch.settings.Some?
  }

  function OnMessage(h: Setup, s: Progress, m: FromRadio, replyOk: bool): Outcome {
    match m
    case ConfigCompleteId(id) =>
      if id != h.configId then Outcome(s, None)
      else if s.node == None then Outcome(s, Some(Failed(NoNodeInfo)))
      else Outcome(s, Some(Done(s.info.(myNodeNum := s.node.value))))
    case MyInfo(n) => Outcome(s.(node := Some(n)), None)
    case LoraConfig(preset, use, region) =>
      Outcome(s.(info := s.info.(modemPreset := preset, usePreset := use, region := region)), None)
    case MqttModule(mqtt) => Outcome(s.(info := s.info.(mqtt := Some(mqtt))), None)
    case Rebooted(true) =>
      Outcome(s.(info := NO_INFO, node := None, replies := s.replies + 1),
              if replyOk then None else Some(Failed(WriteFailed)))
    case ChannelInfo(ch) =>
      Outcome(if Usable(ch) then s.(info := s.info.(channels := s.info.channels + [ch])) else s, None)
    case _ => Outcome(s, None)
  }

  /** A frame that does not show a Meshtastic radio at the other end: undecodable, or, before the
      first reply, empty or an echo of the request. */
  function Accepted(h: Setup, heard: bool, payload: seq<byte>): Option<FromRadio> {
    match h.codec.decodeFromRadio(payload)
    case None => None
    case Some(m) => if !heard && (payload == h.Request() || m.NoVariant?) then None else Some(m)
  }

  function OnFrame(h: Setup, s: Progress, payload: seq<byte>, replyOk: bool): Outcome {
    match Accepted(h, s.heard, payload)
    case None => Outcome(s, None)
    case Some(m) => OnMessage(h, s.(heard := true), m, replyOk)
  }

  function OnByte(h: Setup, s: Progress, b: byte, replyOk: bool): Outcome {
    var r := s.(reader := SF.Next(s.reader, b));
    var out := SF.Emit(s.reader, b);
    if out == [] then Outcome(r, None) else OnFrame(h, r, out[0], replyOk)
  }

  /** The resend at the top of the loop, while a probed port is silent. */
  function BeforeRead(h: Setup, s: Progress, t: Turn): Outcome {
    if t.now > h.start + h.timeout then Outcome(s, Some(Failed(TimedOut)))
    else if s.heard || h.probe == None then Outcome(s, None)
    else
      var p := h.probe.value;
      if t.now > h.start + p.firstFrame then Outcome(s, Some(Failed(NoReply)))
      else if t.now < s.nextResend then Outcome(s, None)
      else if !t.resendOk then Outcome(s.(resends := s.resends + 1), Some(Failed(WriteFailed)))
      else Outcome(s.(resends := s.resends + 1, nextResend := t.now + p.resend), None)
  }

  function Advance(h: Setup, s: Progress, t: Turn): Outcome {
    var o := BeforeRead(h, s, t);
    if o.verdict.Some? then o
    else match t.read
      case GotByte(b) => OnByte(h, o.progress, b, t.replyOk)
      case Quiet => o
      case Closed => Outcome(o.progress, Some(Failed(Eof)))
      case Broken => Outcome(o.progress, Some(Failed(ReadFailed)))
  }

  /** The turns used and the outcome; the verdict is None if the turns run out first. */
  function Play(h: Setup, s: Progress, turns: seq<Turn>): (Outcome, nat)
    decreases |turns|
  {
    if turns == [] then (Outcome(s, None), 0)
    else
      var o := Advance(h, s, turns[0]);
      if o.verdict.Some? then (o, 1)
      else var r := Play(h, o.progress, turns[1..]); (r.0, r.1 + 1)
  }

  // ----- the code -----

  /** The handshake loop's variables. */
  class Loop {
    const h: Setup
    const frame: seq<byte>
    const reader: SF.FrameReader
    var heard: bool
    var nextResend: int
    var info: RadioInfo
    var node: Option<u32>
    var written: seq<seq<byte>>  // every write to the port
    ghost var resends: nat
    ghost var replies: nat

    ghost function State(): Progress
      reads this, reader
    {
      Progress(heard, nextResend, reader.Value(), info, node, resends, replies)
    }

    ghost predicate Valid()
      reads this
    {
      && frame == SF.FramePayload(h.Request())
      && |written| == 1 + resends + replies
      && forall w :: w in written ==> w == frame
    }

    constructor (h: Setup)
      ensures Valid() && fresh(reader) && this.h == h && State() == Begin(h)
    {
      this.h := h;
      var f := SF.WriteFrame(h.codec.encodeToRadio(WantConfigId(h.configId)));
      frame := f;
      written := [f];
      heard := h.probe == None;
      nextResend := h.start + (if h.probe.Some? then h.probe.value.resend else 0);
      reader := new SF.FrameReader();
      info := NO_INFO;
      node := None;
      resends, replies := 0, 0;
    }

    method CheckClock(t: Turn) returns (verdict: Option<Verdict>)
      requires Valid()
      modifies this
      ensures Valid() && Outcome(State(), verdict) == BeforeRead(h, old(State()), t)
    {
      if t.now > h.start + h.timeout {
        return Some(Failed(TimedOut));
      }
      if !heard && h.probe.Some? {
        var p := h.probe.value;
        if t.now > h.start + p.firstFrame {
          return Some(Failed(NoReply));
        }
        if t.now >= nextResend {
          written := written + [frame];
          resends := resends + 1;
          if !t.resendOk {
            return Some(Failed(WriteFailed));
          }
          nextResend := t.now + p.resend;
        }
      }
      return None;
    }

    method HandleFrame(payload: seq<byte>, replyOk: bool) returns (verdict: Option<Verdict>)
      requires Valid()
      modifies this
      ensures Valid() && Outcome(State(), verdict) == OnFrame(h, old(State()), payload, replyOk)
    {
      verdict := None;
      var decoded := h.codec.decodeFromRadio(payload);
      if decoded == None {
        return;
      }
      if !heard && (payload == h.Request() || decoded.value.NoVariant?) {
        return;
      }
      heard := true;
      match decoded.value
      case ConfigCompleteId(id) =>
        if id == h.configId {
          if node == None {
            return Some(Failed(NoNodeInfo));
          }
          return Some(Done(info.(myNodeNum := node.value)));
        }
      case MyInfo(n) =>
        node := Some(n);
      case LoraConfig(preset, use, region) =>
        info := info.(modemPreset := preset, usePreset := use, region := region);
      case MqttModule(mqtt) =>
        info := info.(mqtt := Some(mqtt));
      case Rebooted(flag) =>
        if flag {
          info := NO_INFO;
          node := None;
          written := written + [frame];
          replies := replies + 1;
          if !replyOk {
            return Some(Failed(WriteFailed));
          }
        }
      case ChannelInfo(ch) =>
        if (ch.role == 1 || ch.role == 2) && ch.settings.Some? {
          info := info.(channels := info.channels + [ch]);
        }
      case _ =>
    }

    method Pass(t: Turn) returns (verdict: Option<Verdict>)
      requires Valid()
      modifies this, reader
      ensures Valid() && Outcome(State(), verdict) == Advance(h, old(State()), t)
    {
      hide OnFrame, SF.Next, SF.Emit, BeforeRead;
      verdict := CheckClock(t);
      if verdict.Some? {
        return;
      }
      match t.read
      case Closed => verdict := Some(Failed(Eof));
      case Broken => verdict := Some(Failed(ReadFailed));
      case Quiet =>
      case GotByte(b) =>
        var payload := reader.Feed(b);
        if payload.Some? {
          verdict := HandleFrame(payload.value, t.replyOk);
        }
    }
  }

  method RunHandshake(h: Setup, firstWriteOk: bool, turns: seq<Turn>)
    returns (verdict: Option<Verdict>, written: seq<seq<byte>>, used: nat)
    ensures !firstWriteOk ==> verdict == Some(Failed(WriteFailed)) && |written| == 1 && used == 0
    ensures firstWriteOk ==>
      var (o, n) := Play(h, Begin(h), turns);
      verdict == o.verdict && used == n && |written| == 1 + o.progress.resends + o.progress.replies
    ensures forall w :: w in written ==> w == SF.FramePayload(h.Request())
  {
    hide Advance, SF.FramePayload;
    var loop := new Loop(h);
    used := 0;
    if !firstWriteOk {
      return Some(Failed(WriteFailed)), loop.written, used;
    }
    verdict := None;
    assert PlaysOn(h, turns, 0, Begin(h)) by {
      assert turns[0..] == turns;
    }
    while used < |turns|
      invariant used <= |turns| && verdict == None
      invariant fresh(loop) && fresh(loop.reader) && loop.Valid() && loop.h == h
      invariant PlaysOn(h, turns, used, loop.State())
    {
      PlayTurn(h, loop.State(), turns, used);
      verdict := loop.Pass(turns[used]);
      used := used + 1;
      if verdict.Some? {
        return verdict, loop.written, used;
      }
    }
    written := loop.written;
  }

  /** After `used` turns the loop is in state s and still running. */
  ghost predicate PlaysOn(h: Setup, turns: seq<Turn>, used: nat, s: Progress)
    requires used <= |turns|
  {
    var (o, n) := Play(h, s, turns[used..]);
    Play(h, Begin(h), turns) == (o, n + used)
  }

  lemma PlayTurn(h: Setup, s: Progress, turns: seq<Turn>, used: nat)
    requires used < |turns| && PlaysOn(h, turns, used, s)
    ensures var o := Advance(h, s, turns[used]);
            if o.verdict.Some? then Play(h, Begin(h), turns) == (o, used + 1)
            else PlaysOn(h, turns, used + 1, o.progress)
  {
    assert turns[used..][1..] == turns[used + 1..];
  }
}
