/** Probing serial ports in order: scan of src/autodetect.rs on top of the probing handshake. */
module Autodetect {
  import opened Bytes
  import opened Handshake
  import SF = SerialFraming

  type Device = seq<byte>

  /** What trying a candidate would meet: whether the port opens, and the probe's setup and turns. */
  datatype Attempt = Attempt(opens: bool, setup: Setup, firstWriteOk: bool, turns: seq<Turn>)

  datatype Candidate = Candidate(device: Device, attempt: Attempt)

  datatype Found = Found(device: Device, info: RadioInfo)

  /** The information a candidate's probe would give, if it opens and answers. */
  function Answer(c: Candidate): Option<RadioInfo> {
    var a := c.attempt;
    if !a.opens || !a.firstWriteOk then None
    else match Play(a.setup, Begin(a.setup), a.turns).0.verdict
      case Some(Done(info)) => Some(info)
      case _ => None
  }

  /** Position of the first candidate that is free and answers; |cs| when there is none. */
  function FirstAnswer(cs: seq<Candidate>, busy: set<Device>): (i: nat)
    ensures i <= |cs| && (i < |cs| ==> cs[i].device !in busy && Answer(cs[i]).Some?)
    ensures forall j :: 0 <= j < i ==> cs[j].device in busy || Answer(cs[j]) == None
  {
    if cs == [] || (cs[0].device !in busy && Answer(cs[0]).Some?) then 0 else 1 + FirstAnswer(cs[1..], busy)
  }

  /** What a scan finds. */
  function Detect(cs: seq<Candidate>, busy: set<Device>): Option<Found> {
    var i := FirstAnswer(cs, busy);
    if i < |cs| then Some(Found(cs[i].device, Answer(cs[i]).value)) else None
  }

  lemma FirstAnswerIs(cs: seq<Candidate>, busy: set<Device>, i: nat)
    requires i <= |cs| && (i < |cs| ==> cs[i].device !in busy && Answer(cs[i]).Some?)
    requires forall j :: 0 <= j < i ==> cs[j].device in busy || Answer(cs[j]) == None
    ensures FirstAnswer(cs, busy) == i
  {
    hide Answer;
  }

  /** The free ones among some candidates, in order. */
  function Free(cs: seq<Candidate>, busy: set<Device>): seq<Device>
    decreases |cs|
  {
    if cs == [] then []
    else Free(cs[..|cs| - 1], busy) + (if cs[|cs| - 1].device in busy then [] else [cs[|cs| - 1].device])
  }

  /** Every write of a probe is its own configuration request. */
  ghost predicate OnlyRequests(c: Candidate, written: seq<seq<byte>>) {
    forall w :: w in written ==> w == SF.FramePayload(c.attempt.setup.Request())
  }

  /** The probing handshake on a port that opened. */
  method Probe(c: Candidate) returns (info: Option<RadioInfo>, written: seq<seq<byte>>)
    requires c.attempt.opens
    ensures info == Answer(c) && written != [] && OnlyRequests(c, written)
  {
    hide Play, SF.FramePayload;
    var verdict, used;
    verdict, written, used := RunHandshake(c.attempt.setup, c.attempt.firstWriteOk, c.attempt.turns);
    info := if verdict.Some? && verdict.value.Done? then Some(verdict.value.info) else None;
  }

  /** Of the first n candidates exactly the free ones whose ports open see writes, and only their request. */
  ghost predicate Probed(cs: seq<Candidate>, busy: set<Device>, n: nat, writes: seq<seq<seq<byte>>>) {
    && |writes| == |cs|
    && (forall j :: 0 <= j < |cs| ==> OnlyRequests(cs[j], writes[j]))
    && (forall j :: 0 <= j < |cs| ==>
          (writes[j] != [] <==> j < n && cs[j].device !in busy && cs[j].attempt.opens))
  }

  lemma ProbedNone(cs: seq<Candidate>, busy: set<Device>)
    ensures Probed(cs, busy, 0, seq(|cs|, _ => []))
  {
  }

  lemma ProbedMore(cs: seq<Candidate>, busy: set<Device>, n: nat, writes: seq<seq<seq<byte>>>,
                   written: seq<seq<byte>>)
    requires n < |cs| && Probed(cs, busy, n, writes)
    ensures |writes| == |cs|
    ensures cs[n].device in busy || !cs[n].attempt.opens ==> Probed(cs, busy, n + 1, writes)
    ensures cs[n].device !in busy && cs[n].attempt.opens && written != [] && OnlyRequests(cs[n], written) ==>
      Probed(cs, busy, n + 1, writes[n := written])
  {
    hide OnlyRequests;
  }

  lemma ClosedIsSilent(c: Candidate)
    requires !c.attempt.opens
    ensures Answer(c) == None
  {
  }

  method Scan(cs: seq<Candidate>, busy: set<Device>)
    returns (found: Option<Found>, tried: seq<Device>, writes: seq<seq<seq<byte>>>, ghost at: nat)
    ensures at == FirstAnswer(cs, busy) && found == Detect(cs, busy)
    ensures tried == Free(if at < |cs| then cs[..at + 1] else cs, busy)
    ensures Probed(cs, busy, if at < |cs| then at + 1 else at, writes)
  {
    hide Answer, FirstAnswer, OnlyRequests, Probed;
    ProbedNone(cs, busy);
    tried := [];
    writes := seq(|cs|, _ => []);
    for i := 0 to |cs|
      invariant tried == Free(cs[..i], busy)
      invariant forall j :: 0 <= j < i ==> cs[j].device in busy || Answer(cs[j]) == None
      invariant Probed(cs, busy, i, writes)
    {
      ProbedMore(cs, busy, i, writes, []);
      var c := cs[i];
      assert cs[..i + 1][..i] == cs[..i];
      if c.device in busy {
        continue;
      }
      tried := tried + [c.device];
      if !c.attempt.opens {
        ClosedIsSilent(c);
        continue;
      }
      var info, written := Probe(c);
      ProbedMore(cs, busy, i, writes, written);
      writes := writes[i := written];
      if info.Some? {
        FirstAnswerIs(cs, busy, i);
        return Some(Found(c.device, info.value)), tried, writes, i;
      }
    }
    FirstAnswerIs(cs, busy, |cs|);
    assert cs[..|cs|] == cs;
    return None, tried, writes, |cs|;
  }

  /** The candidate is free, its port opens, its first request can be written, and its probe ends with this
      information. */
  ghost predicate Answers(c: Candidate, busy: set<Device>, info: RadioInfo) {
    var a := c.attempt;
    && c.device !in busy && a.opens && a.firstWriteOk
    && Play(a.setup, Begin(a.setup), a.turns).0.verdict == Some(Done(info))
  }

  /** A scan finds the device and the information of the first candidate that answers, or nothing if none does. */
  lemma DetectsExactly(cs: seq<Candidate>, busy: set<Device>)
    ensures Detect(cs, busy) == None <==> forall j, info :: 0 <= j < |cs| ==> !Answers(cs[j], busy, info)
    ensures Detect(cs, busy).Some? ==>
      exists i :: 0 <= i < |cs| && Detect(cs, busy).value.device == cs[i].device
        && Answers(cs[i], busy, Detect(cs, busy).value.info)
        && forall j, info :: 0 <= j < i ==> !Answers(cs[j], busy, info)
  {
    hide FirstAnswer, Answers, Answer;
    forall j | 0 <= j < |cs|
      ensures forall info :: Answers(cs[j], busy, info) <==> cs[j].device !in busy && Answer(cs[j]) == Some(info)
    {
      AnswersIs(cs[j], busy);
    }
    var i := FirstAnswer(cs, busy);
    if i < |cs| {
      assert Answers(cs[i], busy, Answer(cs[i]).value);
    }
  }

  lemma AnswersIs(c: Candidate, busy: set<Device>)
    ensures forall info :: Answers(c, busy, info) <==> c.device !in busy && Answer(c) == Some(info)
  {
    hide Play, Begin;
  }
}
