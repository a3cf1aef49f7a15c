/** Whole runs of a bridge session: reader threads feed a queue, the main loop empties it, and any
    interleaving is allowed. */
module BridgeRuns {
  import opened Bytes
  import opened Protocol
  import opened Crypto
  import opened PacketCrypto
  import opened Bridge
  import SF = SerialFraming
  import SD = StressDeframer

  // ----- what a serial stream makes the bridge send -----

  /** The datagrams for a list of frames: stop at the first reboot, skip what is not forwarded. A
      function of the frames, the channel table, the codec and the cipher only. */
  function Forwarded(c: Codec, E: BlockCipher, cs: Channels, frames: seq<SF.Frame>): seq<seq<byte>>
    decreases |frames|
  {
    if frames == [] then []
    else match DecodeFrame(c, frames[0])
      case RebootFrame => []
      case OtherFrame => Forwarded(c, E, cs, frames[1..])
      case PacketFrame(p) =>
        (if Skipped(p) then [] else [c.encodePacket(Encrypt(c, E, cs, p))]) + Forwarded(c, E, cs, frames[1..])
  }

  ghost predicate NoReboot(c: Codec, frames: seq<SF.Frame>) {
    forall f :: f in frames ==> !DecodeFrame(c, f).RebootFrame?
  }

  lemma {:induction false} ForwardedConcat(c: Codec, E: BlockCipher, cs: Channels, a: seq<SF.Frame>, b: seq<SF.Frame>)
    ensures NoReboot(c, a) ==>
      Forwarded(c, E, cs, a + b) == Forwarded(c, E, cs, a) + Forwarded(c, E, cs, b)
    ensures !NoReboot(c, a) ==> Forwarded(c, E, cs, a + b) == Forwarded(c, E, cs, a)
    decreases |a|
  {
    if a == [] {
      assert a + b == b;
    } else {
      assert (a + b)[1..] == a[1..] + b;
      assert a == [a[0]] + a[1..];
      ForwardedConcat(c, E, cs, a[1..], b);
    }
  }

  /** What a frame adds: its packet, encrypted under the channel table, unless the packet is marked as LAN, MQTT
      or PKI traffic. */
  function Addition(c: Codec, E: BlockCipher, cs: Channels, f: SF.Frame): seq<seq<byte>> {
    match c.decodeFromRadio(f)
    case Some(Packet(p)) =>
      if p.transport == MulticastUdp || p.transport == Mqtt || p.pkiEncrypted then []
      else [c.encodePacket(Encrypt(c, E, cs, p))]
    case _ => []
  }

  /** Every frame makes that addition, up to the first reboot message. */
  lemma ForwardedExactly(c: Codec, E: BlockCipher, cs: Channels, frames: seq<SF.Frame>, f: SF.Frame)
    ensures Forwarded(c, E, cs, []) == []
    ensures Forwarded(c, E, cs, frames + [f]) == Forwarded(c, E, cs, frames) +
      (if exists j :: 0 <= j < |frames| && c.decodeFromRadio(frames[j]) == Some(Rebooted(true)) then []
       else Addition(c, E, cs, f))
  {
    ForwardedConcat(c, E, cs, frames, [f]);
    ForwardedOne(c, E, cs, f);
    hide Forwarded, Addition;
    RebootFrames(c, frames);
    assert Forwarded(c, E, cs, frames) + [] == Forwarded(c, E, cs, frames);
  }

  lemma ForwardedOne(c: Codec, E: BlockCipher, cs: Channels, f: SF.Frame)
    ensures Forwarded(c, E, cs, []) == []
    ensures Forwarded(c, E, cs, [f]) == Addition(c, E, cs, f)
  {
    hide Encrypt;
    assert [f][1..] == [];
  }

  lemma RebootFrames(c: Codec, frames: seq<SF.Frame>)
    ensures NoReboot(c, frames) <==>
      forall j :: 0 <= j < |frames| ==> c.decodeFromRadio(frames[j]) != Some(Rebooted(true))
  {
    if NoReboot(c, frames) {
      forall j | 0 <= j < |frames|
        ensures c.decodeFromRadio(frames[j]) != Some(Rebooted(true))
      {
        assert frames[j] in frames;
      }
    }
  }

  function SerialFrames(evs: seq<Event>): seq<SF.Frame>
    decreases |evs|
  {
    if evs == [] then []
    else SerialFrames(evs[..|evs| - 1]) +
         (match evs[|evs| - 1] case SerialFrame(f) => [f] case _ => [])
  }

  lemma {:induction false} SerialFramesConcat(a: seq<Event>, b: seq<Event>)
    ensures SerialFrames(a + b) == SerialFrames(a) + SerialFrames(b)
    decreases |b|
  {
    if b == [] {
      assert a + b == a;
    } else {
      assert (a + b)[..|a + b| - 1] == a + b[..|b| - 1];
      SerialFramesConcat(a, b[..|b| - 1]);
    }
  }

  /** Only the last of these events may end a session. */
  ghost predicate OneSession(g: Config, evs: seq<Event>) {
    forall i :: 0 <= i < |evs| - 1 ==> EndOf(g, evs[i]) == None
  }

  lemma {:induction false} NoRebootBeforeEnd(g: Config, evs: seq<Event>)
    requires forall i :: 0 <= i < |evs| ==> EndOf(g, evs[i]) == None
    ensures NoReboot(g.codec, SerialFrames(evs))
    decreases |evs|
  {
    if evs == [] {
    } else {
      NoRebootBeforeEnd(g, evs[..|evs| - 1]);
    }
  }

  lemma OneFrame(ev: Event)
    ensures SerialFrames([ev]) == match ev case SerialFrame(f) => [f] case _ => []
  {
    assert [ev][..0] == [];
  }

  lemma DispatchSends(g: Config, m: Main, ev: Event)
    ensures Dispatch(g, m, ev).sent
         == m.sent + Forwarded(g.codec, g.cipher, g.channels, SerialFrames([ev]))
  {
    OneFrame(ev);
    if ev.SerialFrame? {
      assert [ev.payload][1..] == [];
      assert Forwarded(g.codec, g.cipher, g.channels, []) == [];
    }
  }

  /** The dispatch loop sends exactly what the serial frames among its events call for. */
  lemma {:induction false} SentIsForwarded(g: Config, evs: seq<Event>)
    requires OneSession(g, evs)
    ensures DispatchAll(g, START, evs).sent == Forwarded(g.codec, g.cipher, g.channels, SerialFrames(evs))
    decreases |evs|
  {
    hide Dispatch, EndOf;
    if evs == [] {
    } else {
      var n := |evs| - 1;
      SentIsForwarded(g, evs[..n]);
      NoRebootBeforeEnd(g, evs[..n]);
      DispatchSends(g, DispatchAll(g, START, evs[..n]), evs[n]);
      assert evs == evs[..n] + [evs[n]];
      SerialFramesConcat(evs[..n], [evs[n]]);
      ForwardedConcat(g.codec, g.cipher, g.channels, SerialFrames(evs[..n]), SerialFrames([evs[n]]));
    }
  }

  // ----- the threads -----

  datatype System = System(
    input: seq<byte>,          // bytes the port has yet to deliver
    consumed: seq<byte>,       // bytes the serial thread has read
    reader: SF.Reader,
    pending: seq<SF.Frame>,    // frames of the last read, not yet queued
    serialLive: bool, udpLive: bool, timerLive: bool,
    queue: seq<Event>,
    taken: seq<Event>,         // events the main loop has received
    main: Main,
    end: Option<SessionEnd>)

  datatype Action =
    | SerialRead(n: nat)
    | SerialQueues
    | SerialFails
    | UdpReceives(data: seq<byte>)
    | UdpFails
    | TimerFires
    | MainTakes
    | MainDisconnected
    | SerialStops | UdpStops | TimerStops

  function Init(total: seq<byte>): System {
    System(total, [], SF.FRESH, [], true, true, true, [], [], START, None)
  }

  predicate Enabled(s: System, a: Action) {
    match a
    case SerialRead(n) => s.serialLive && s.pending == [] && 0 < n <= 256 && n <= |s.input|
    case SerialQueues => s.serialLive && s.pending != []
    case SerialFails => s.serialLive && s.pending == []
    case UdpReceives(data) => s.udpLive && |data| <= 600
    case UdpFails => s.udpLive
    case TimerFires => s.timerLive
    case MainTakes => s.end == None && s.queue != []
    case MainDisconnected => s.end == None && s.queue == [] && !s.serialLive && !s.udpLive && !s.timerLive
    case SerialStops => s.serialLive && s.pending == [] && s.end.Some?
    case UdpStops => s.udpLive && s.end.Some?
    case TimerStops => s.timerLive && s.end.Some?
  }

  /** Sending to the queue fails, and ends the sending thread, once the main loop is gone. */
  function Step(g: Config, s: System, a: Action): System
    requires Enabled(s, a)
  {
    match a
    case SerialRead(n) =>
      var chunk := s.input[..n];
      s.(input := s.input[n..], consumed := s.consumed + chunk,
         reader := SF.After(s.reader, chunk), pending := SF.Frames(s.reader, chunk))
    case SerialQueues =>
      if s.end.Some? then s.(serialLive := false, pending := [])
      else s.(queue := s.queue + [SerialFrame(s.pending[0])], pending := s.pending[1..])
    case SerialFails =>
      s.(serialLive := false, queue := if s.end.Some? then s.queue else s.queue + [SerialError])
    case UdpReceives(data) =>
      if s.end.Some? then s.(udpLive := false) else s.(queue := s.queue + [UdpPacket(data)])
    case UdpFails =>
      s.(udpLive := false, queue := if s.end.Some? then s.queue else s.queue + [UdpError])
    case TimerFires =>
      if s.end.Some? then s.(timerLive := false) else s.(queue := s.queue + [Tick])
    case MainTakes =>
      var ev := s.queue[0];
      s.(queue := s.queue[1..], taken := s.taken + [ev], main := Dispatch(g, s.main, ev), end := EndOf(g, ev))
    case MainDisconnected => s.(end := Some(SerialLost))
    case SerialStops => s.(serialLive := false)
    case UdpStops => s.(udpLive := false)
    case TimerStops => s.(timerLive := false)
  }

  /** The state a schedule leads to, if every action of it is enabled in turn. */
  function Execute(g: Config, s: System, schedule: seq<Action>): Option<System>
    decreases |schedule|
  {
    if schedule == [] then Some(s)
    else if !Enabled(s, schedule[0]) then None
    else Execute(g, Step(g, s, schedule[0]), schedule[1..])
  }

  // ----- the invariant of every interleaving -----

  /** Frames taken, then queued, then not yet queued. */
  function InFlight(taken: seq<Event>, queue: seq<Event>, pending: seq<SF.Frame>): seq<SF.Frame> {
    SerialFrames(taken) + SerialFrames(queue) + pending
  }

  ghost predicate FramesInOrder(s: System) {
    var inFlight := InFlight(s.taken, s.queue, s.pending);
    var all := SF.Frames(SF.FRESH, s.consumed);
    inFlight <= all && (s.serialLive || s.end == None ==> inFlight == all)
  }

  ghost predicate MainInOrder(g: Config, s: System) {
    && s.main == DispatchAll(g, START, s.taken)
    && OneSession(g, s.taken)
    && s.end == (if s.taken == [] then None else EndOf(g, s.taken[|s.taken| - 1]))
  }

  ghost predicate Inv(g: Config, total: seq<byte>, s: System) {
    && s.consumed + s.input == total
    && s.reader == SF.After(SF.FRESH, s.consumed)
    && FramesInOrder(s)
    && MainInOrder(g, s)
    && (s.end == None ==> s.timerLive)
    && (!s.serialLive ==> s.pending == [])
  }

  lemma QueueKeepsFlight(taken: seq<Event>, queue: seq<Event>, pending: seq<SF.Frame>)
    requires pending != []
    ensures InFlight(taken, queue + [SerialFrame(pending[0])], pending[1..]) == InFlight(taken, queue, pending)
  {
    var f := pending[0];
    SerialFramesConcat(queue, [SerialFrame(f)]);
    OneFrame(SerialFrame(f));
    hide SerialFrames;
    assert pending == [f] + pending[1..];
  }

  lemma TakeKeepsFlight(taken: seq<Event>, queue: seq<Event>, pending: seq<SF.Frame>)
    requires queue != []
    ensures InFlight(taken + [queue[0]], queue[1..], pending) == InFlight(taken, queue, pending)
  {
    hide SerialFrames;
    var ev, rest := queue[0], queue[1..];
    SerialFramesConcat(taken, [ev]);
    SerialFramesConcat([ev], rest);
    assert queue == [ev] + rest;
  }

  lemma ReadExtends(s: System, n: nat)
    requires n <= |s.input| && s.pending == [] && s.reader == SF.After(SF.FRESH, s.consumed)
    requires InFlight(s.taken, s.queue, []) == SF.Frames(SF.FRESH, s.consumed)
    ensures var chunk := s.input[..n];
            && InFlight(s.taken, s.queue, SF.Frames(s.reader, chunk)) == SF.Frames(SF.FRESH, s.consumed + chunk)
            && SF.After(s.reader, chunk) == SF.After(SF.FRESH, s.consumed + chunk)
            && s.consumed + chunk + s.input[n..] == s.consumed + s.input
  {
    hide SerialFrames, SF.Frames, SF.After;
    assert s.input == s.input[..n] + s.input[n..];
    SF.FeedConcat(SF.FRESH, s.consumed, s.input[..n]);
  }

  lemma TakeKeepsMain(g: Config, s: System)
    requires Enabled(s, MainTakes) && MainInOrder(g, s)
    ensures MainInOrder(g, Step(g, s, MainTakes))
  {
    hide Dispatch, EndOf;
    assert (s.taken + [s.queue[0]])[..|s.taken|] == s.taken;
  }

  lemma InvKept(g: Config, total: seq<byte>, s: System, a: Action)
    requires Inv(g, total, s) && Enabled(s, a)
    ensures Inv(g, total, Step(g, s, a))
  {
    hide InFlight, DispatchAll, EndOf, Dispatch, SF.Frames, SF.After;
    match a
    case SerialRead(n) => ReadExtends(s, n);
    case SerialQueues => if s.end == None { QueueKeepsFlight(s.taken, s.queue, s.pending); } else { DropPending(s); }
    case SerialFails => QueueOther(s.taken, s.queue, SerialError, s.pending);
    case UdpReceives(data) => QueueOther(s.taken, s.queue, UdpPacket(data), s.pending);
    case UdpFails => QueueOther(s.taken, s.queue, UdpError, s.pending);
    case TimerFires => QueueOther(s.taken, s.queue, Tick, s.pending);
    case MainTakes =>
      TakeKeepsFlight(s.taken, s.queue, s.pending);
      TakeKeepsMain(g, s);
    case _ =>
  }

  lemma DropPending(s: System)
    ensures InFlight(s.taken, s.queue, []) <= InFlight(s.taken, s.queue, s.pending)
  {
  }

  lemma QueueOther(taken: seq<Event>, queue: seq<Event>, ev: Event, pending: seq<SF.Frame>)
    requires !ev.SerialFrame?
    ensures InFlight(taken, queue + [ev], pending) == InFlight(taken, queue, pending)
  {
    assert (queue + [ev])[..|queue|] == queue;
  }

  lemma {:induction false} InvOverRuns(g: Config, total: seq<byte>, s: System, schedule: seq<Action>)
    requires Inv(g, total, s)
    ensures Execute(g, s, schedule).Some? ==> Inv(g, total, Execute(g, s, schedule).value)
    decreases |schedule|
  {
    if schedule == [] || !Enabled(s, schedule[0]) {
    } else {
      InvKept(g, total, s, schedule[0]);
      InvOverRuns(g, total, Step(g, s, schedule[0]), schedule[1..]);
    }
  }

  /** A state some schedule reaches when the port delivers `total`. */
  ghost predicate Reachable(g: Config, total: seq<byte>, s: System) {
    exists schedule :: Execute(g, Init(total), schedule) == Some(s)
  }

  lemma ReachableInv(g: Config, total: seq<byte>, s: System)
    requires Reachable(g, total, s)
    ensures Inv(g, total, s)
  {
    var schedule :| Execute(g, Init(total), schedule) == Some(s);
    InvOverRuns(g, total, Init(total), schedule);
  }

  // ----- non-interference -----

  /** The session goes on, and all that the port had to deliver is handled. */
  ghost predicate Drained(s: System) {
    s.end == None && s.input == [] && s.pending == [] && SerialFrames(s.queue) == []
  }

  /** What a serial stream calls for, read off the stream and the channel table alone. */
  function StreamForwarded(g: Config, total: seq<byte>): seq<seq<byte>> {
    Forwarded(g.codec, g.cipher, g.channels, SD.Parse(4, total).frames)
  }

  lemma TakenFramesArePrefix(g: Config, total: seq<byte>, s: System)
    requires Inv(g, total, s)
    ensures SerialFrames(s.taken) <= SD.Parse(4, total).frames
    ensures Drained(s) ==> SerialFrames(s.taken) == SD.Parse(4, total).frames
  {
    SF.FeedConcat(SF.FRESH, s.consumed, s.input);
    SD.ReaderRefinesParse(total);
    assert s.input == [] ==> s.consumed == total;
  }

  /** In every interleaving the datagrams sent are a prefix of what the serial stream calls for; all of
      it once the session ends with a reboot, or once the stream is read and its frames are handled. */
  lemma UdpOutputIsDetermined(g: Config, total: seq<byte>, s: System)
    requires Reachable(g, total, s)
    ensures s.main.sent <= StreamForwarded(g, total)
    ensures s.end == Some(RadioRebooted) ==> s.main.sent == StreamForwarded(g, total)
    ensures Drained(s) ==> s.main.sent == StreamForwarded(g, total)
  {
    ReachableInv(g, total, s);
    var frames, done := SD.Parse(4, total).frames, SerialFrames(s.taken);
    TakenFramesArePrefix(g, total, s);
    SentIsForwarded(g, s.taken);
    assert frames == done + frames[|done|..];
    ForwardedConcat(g.codec, g.cipher, g.channels, done, frames[|done|..]);
    if s.end == Some(RadioRebooted) {
      var ev := s.taken[|s.taken| - 1];
      assert ev.payload in done;
    }
  }

  /** Two sessions on the same serial stream and channel table, whatever the LAN sends, whichever way
      packets enter the radio and however the threads are scheduled: one sent a prefix of the other. */
  lemma NonInterference(g1: Config, s1: System, g2: Config, s2: System, total: seq<byte>)
    requires g1.codec == g2.codec && g1.cipher == g2.cipher && g1.channels == g2.channels
    requires Reachable(g1, total, s1) && Reachable(g2, total, s2)
    ensures s1.main.sent <= s2.main.sent || s2.main.sent <= s1.main.sent
    ensures s1.end == s2.end == Some(RadioRebooted) ==> s1.main.sent == s2.main.sent
  {
    UdpOutputIsDetermined(g1, total, s1);
    UdpOutputIsDetermined(g2, total, s2);
  }

  /** The heartbeat thread outlives the loop, so "all reader threads exited" never happens. */
  lemma NeverDisconnected(g: Config, total: seq<byte>, s: System)
    requires Reachable(g, total, s)
    ensures !Enabled(s, MainDisconnected)
  {
    ReachableInv(g, total, s);
  }

  // ----- progress -----

  /** While the session goes on, a reader thread that ended has left its error in the queue. */
  ghost predicate ErrorIsQueued(s: System) {
    s.end == None ==> (!s.serialLive ==> SerialError in s.queue) && (!s.udpLive ==> UdpError in s.queue)
  }

  lemma ErrorStaysQueued(g: Config, s: System, a: Action)
    requires ErrorIsQueued(s) && Enabled(s, a)
    ensures ErrorIsQueued(Step(g, s, a))
  {
    hide Dispatch, SF.Frames, SF.After;
    match a
    case MainTakes => assert s.queue == [s.queue[0]] + s.queue[1..];
    case SerialFails => assert SerialError in s.queue + [SerialError];
    case UdpFails => assert UdpError in s.queue + [UdpError];
    case _ =>
  }

  lemma {:induction false} ErrorIsQueuedOverRuns(g: Config, s: System, schedule: seq<Action>)
    requires ErrorIsQueued(s)
    ensures Execute(g, s, schedule).Some? ==> ErrorIsQueued(Execute(g, s, schedule).value)
    decreases |schedule|
  {
    if schedule == [] {
    } else if Enabled(s, schedule[0]) {
      hide Step, Enabled, ErrorIsQueued;
      ErrorStaysQueued(g, s, schedule[0]);
      ErrorIsQueuedOverRuns(g, Step(g, s, schedule[0]), schedule[1..]);
    }
  }

  /** No error is on its way to the main loop. */
  ghost predicate NoErrors(s: System) {
    s.serialLive && SerialError !in s.queue && UdpError !in s.queue && (s.end == None || s.end == Some(RadioRebooted))
  }

  /** A schedule that lets the loop empty the queue, then the serial thread queue its frames, then read. */
  function Onward(s: System): Action {
    if s.queue != [] then MainTakes
    else if s.pending != [] then SerialQueues
    else SerialRead(if |s.input| <= 256 then |s.input| else 256)
  }

  lemma OnwardStep(g: Config, s: System)
    requires ErrorIsQueued(s) && s.end == None && !Drained(s)
    ensures Enabled(s, Onward(s))
    ensures var t := Step(g, s, Onward(s));
            && ErrorIsQueued(t) && (NoErrors(s) ==> NoErrors(t))
            && (|t.input| < |s.input| || (t.input == s.input &&
                 (|t.pending| < |s.pending| || (t.pending == s.pending && |t.queue| < |s.queue|))))
  {
    hide Dispatch, SF.Frames, SF.After, DecodeFrame;
    if s.queue == [] {
      assert SerialFrames([]) == [];
    } else {
      assert s.queue == [s.queue[0]] + s.queue[1..];
    }
  }

  /** From every state that can still go on, some schedule handles the whole stream or ends the session. */
  lemma {:induction false} SomeScheduleDrains(g: Config, s: System) returns (schedule: seq<Action>)
    requires ErrorIsQueued(s)
    ensures Execute(g, s, schedule).Some?
    ensures var t := Execute(g, s, schedule).value;
            (t.end.Some? || Drained(t)) && (NoErrors(s) ==> NoErrors(t))
    decreases |s.input|, |s.pending|, |s.queue|
  {
    hide Step, Enabled, Onward, ErrorIsQueued, NoErrors;
    if s.end.Some? || Drained(s) {
      schedule := [];
    } else {
      OnwardStep(g, s);
      var more := SomeScheduleDrains(g, Step(g, s, Onward(s)));
      schedule := [Onward(s)] + more;
      assert schedule[1..] == more;
    }
  }

  lemma {:induction false} ExecuteConcat(g: Config, s: System, a: seq<Action>, b: seq<Action>)
    requires Execute(g, s, a).Some?
    ensures Execute(g, s, a + b) == Execute(g, Execute(g, s, a).value, b)
    decreases |a|
  {
    if a == [] {
      assert a + b == b;
    } else {
      hide Step, Enabled;
      assert (a + b)[1..] == a[1..] + b;
      ExecuteConcat(g, Step(g, s, a[0]), a[1..], b);
    }
  }

  /** The schedule leads from s to the end of the session or to where the stream is handled; and, unless
      an error is on its way, to where everything the stream calls for has been sent. */
  ghost predicate Attains(g: Config, total: seq<byte>, s: System, schedule: seq<Action>) {
    var o := Execute(g, s, schedule);
    && o.Some? && (o.value.end.Some? || Drained(o.value))
    && (NoErrors(s) ==> o.value.main.sent == StreamForwarded(g, total))
  }

  /** From every reachable state the whole output is attainable, or the end of the session is. */
  lemma OutputIsAttainable(g: Config, total: seq<byte>, s: System)
    requires Reachable(g, total, s)
    ensures exists schedule :: Attains(g, total, s, schedule)
  {
    var first :| Execute(g, Init(total), first) == Some(s);
    hide Execute, ErrorIsQueued, StreamForwarded;
    assert ErrorIsQueued(Init(total)) by { InitHasNoError(total); }
    ErrorIsQueuedOverRuns(g, Init(total), first);
    var schedule := SomeScheduleDrains(g, s);
    var t := Execute(g, s, schedule).value;
    ExecuteConcat(g, Init(total), first, schedule);
    assert Execute(g, Init(total), first + schedule) == Some(t);
    UdpOutputIsDetermined(g, total, t);
    assert Attains(g, total, s, schedule);
  }

  /** The state after the main loop took n events, if nothing else happens. */
  function Takes(n: nat): seq<Action>
    decreases n
  {
    if n == 0 then [] else [MainTakes] + Takes(n - 1)
  }

  lemma {:induction false} QueuedErrorEnds(g: Config, s: System)
    requires s.end == None && (SerialError in s.queue || UdpError in s.queue)
    ensures exists n: nat :: n <= |s.queue| && EndsAfter(g, s, n)
    decreases |s.queue|
  {
    hide Dispatch, DecodeFrame;
    var t := Step(g, s, MainTakes);
    if t.end.Some? {
      assert Takes(1)[1..] == [] && Takes(1)[0] == MainTakes;
      assert EndsAfter(g, s, 1);
    } else {
      assert s.queue == [s.queue[0]] + s.queue[1..];
      QueuedErrorEnds(g, t);
      var n: nat :| n <= |t.queue| && EndsAfter(g, t, n);
      assert Takes(n + 1)[1..] == Takes(n) && Takes(n + 1)[0] == MainTakes;
      assert EndsAfter(g, s, n + 1);
    }
  }

  ghost predicate EndsAfter(g: Config, s: System, n: nat) {
    var o := Execute(g, s, Takes(n));
    o.Some? && o.value.end.Some?
  }

  /** A reader thread that ended, ends the session: the loop meets its error in the events already queued. */
  lemma FailureEndsSession(g: Config, total: seq<byte>, s: System)
    requires Reachable(g, total, s) && s.end == None && (!s.serialLive || !s.udpLive)
    ensures exists n: nat :: n <= |s.queue| && EndsAfter(g, s, n)
  {
    var schedule :| Execute(g, Init(total), schedule) == Some(s);
    hide Execute, EndsAfter;
    InitHasNoError(total);
    ErrorIsQueuedOverRuns(g, Init(total), schedule);
    QueuedErrorEnds(g, s);
  }

  lemma InitHasNoError(total: seq<byte>)
    ensures ErrorIsQueued(Init(total))
  {
  }
}
