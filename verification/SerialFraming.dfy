/** The byte-at-a-time frame reader and the frame writer of src/serial_framing.rs. */
module SerialFraming {
  import opened Bytes

  const START1: byte := 0x94
  const START2: byte := 0xC3
  const MAX_PACKET_SIZE: nat := 512

  datatype State =
    | WaitStart1
    | WaitStart2
    | ReadLenHigh
    | ReadLenLow(high: byte)
    | ReadPayload(expected: nat)

  /** The two fields of a frame reader, as a value. */
  datatype Reader = Reader(state: State, buf: seq<byte>)

  type Frame = seq<byte>

  const FRESH := Reader(WaitStart1, [])

  // ----- specification: one byte, then many -----

  function Length(high: byte, low: byte): nat {
    high * 256 + low
  }

  function Next(r: Reader, b: byte): Reader {
    match r.state
    case WaitStart1 => if b == START1 then r.(state := WaitStart2) else r
    case WaitStart2 =>
      if b == START2 then r.(state := ReadLenHigh)
      else if b == START1 then r
      else r.(state := WaitStart1)
    case ReadLenHigh => r.(state := ReadLenLow(b))
    case ReadLenLow(high) =>
      var len := Length(high, b);
      if len > MAX_PACKET_SIZE || len == 0 then r.(state := WaitStart1)
      else Reader(ReadPayload(len), [])
    case ReadPayload(expected) =>
      if |r.buf| + 1 >= expected then FRESH else r.(buf := r.buf + [b])
  }

  function Emit(r: Reader, b: byte): seq<Frame> {
    match r.state
    case ReadLenLow(high) => if Length(high, b) == 0 then [[]] else []
    case ReadPayload(expected) => if |r.buf| + 1 >= expected then [r.buf + [b]] else []
    case _ => []
  }

  function After(r: Reader, data: seq<byte>): Reader
    decreases data
  {
    if data == [] then r else After(Next(r, data[0]), data[1..])
  }

  function Frames(r: Reader, data: seq<byte>): seq<Frame>
    decreases data
  {
    if data == [] then [] else Emit(r, data[0]) + Frames(Next(r, data[0]), data[1..])
  }

  /** What a reader emits when its input arrives in pieces, one feed_bytes call for each. */
  function FramesOfChunks(r: Reader, chunks: seq<seq<byte>>): seq<Frame>
    decreases chunks
  {
    if chunks == [] then [] else Frames(r, chunks[0]) + FramesOfChunks(After(r, chunks[0]), chunks[1..])
  }

  function FramePayload(payload: seq<byte>): seq<byte> {
    [START1, START2, (|payload| / 256) % 256, |payload| % 256] + payload
  }

  // ----- the code -----

  class FrameReader {
    var state: State
    var buf: seq<byte>

    ghost function Value(): Reader
      reads this
    {
      Reader(state, buf)
    }

    constructor ()
      ensures Value() == FRESH
    {
      state := WaitStart1;
      buf := [];
    }

    method Feed(b: byte) returns (out: Option<Frame>)
      modifies this
      ensures Value() == Next(old(Value()), b)
      ensures (if out.Some? then [out.value] else []) == Emit(old(Value()), b)
    {
      out := None;
      match state
      case WaitStart1 =>
        if b == START1 {
          state := WaitStart2;
        }
      case WaitStart2 =>
        if b == START2 {
          state := ReadLenHigh;
        } else if b == START1 {
          // another START1: stay
        } else {
          state := WaitStart1;
        }
      case ReadLenHigh =>
        state := ReadLenLow(b);
      case ReadLenLow(high) =>
        var len := Length(high, b);
        if len > MAX_PACKET_SIZE {
          state := WaitStart1;
          return;
        }
        if len == 0 {
          state := WaitStart1;
          return Some([]);
        }
        buf := [];
        state := ReadPayload(len);
      case ReadPayload(expected) =>
        buf := buf + [b];
        if |buf| >= expected {
          state := WaitStart1;
          out := Some(buf);
          buf := [];
        }
    }

    method FeedBytes(data: seq<byte>) returns (frames: seq<Frame>)
      modifies this
      ensures frames == Frames(old(Value()), data)
      ensures Value() == After(old(Value()), data)
    {
      frames := [];
      for i := 0 to |data|
        invariant frames + Frames(Value(), data[i..]) == Frames(old(Value()), data)
        invariant After(Value(), data[i..]) == After(old(Value()), data)
      {
        assert data[i..][1..] == data[i + 1..];
        var payload := Feed(data[i]);
        if payload.Some? {
          frames := frames + [payload.value];
        }
      }
    }
  }

  method WriteFrame(payload: seq<byte>) returns (out: seq<byte>)
    ensures out == FramePayload(payload)
  {
    var len := |payload|;
    out := [];
    out := out + [START1];
    out := out + [START2];
    out := out + [(len / 256) % 256];
    out := out + [len % 256];
    out := out + payload;
  }

  // ----- chunking -----

  lemma {:induction false} FeedConcat(r: Reader, a: seq<byte>, b: seq<byte>)
    ensures Frames(r, a + b) == Frames(r, a) + Frames(After(r, a), b)
    ensures After(r, a + b) == After(After(r, a), b)
    decreases a
  {
    if a == [] {
      assert a + b == b;
    } else {
      assert (a + b)[1..] == a[1..] + b;
      FeedConcat(Next(r, a[0]), a[1..], b);
    }
  }

  lemma {:induction false} ChunkingIrrelevant(r: Reader, chunks: seq<seq<byte>>)
    ensures FramesOfChunks(r, chunks) == Frames(r, Concat(chunks))
    decreases chunks
  {
    if chunks == [] {
    } else {
      ChunkingIrrelevant(After(r, chunks[0]), chunks[1..]);
      FeedConcat(r, chunks[0], Concat(chunks[1..]));
    }
  }

  // ----- the invariant of reachable readers -----

  ghost predicate Reachable(r: Reader) {
    match r.state
    case ReadPayload(expected) => |r.buf| < expected <= MAX_PACKET_SIZE
    case _ => r.buf == []
  }

  lemma {:induction false} ReachableKept(r: Reader, data: seq<byte>)
    requires Reachable(r)
    ensures Reachable(After(r, data))
    decreases data
  {
    if data == [] {
    } else {
      ReachableKept(Next(r, data[0]), data[1..]);
    }
  }

  /** A stream that leads a fresh reader to r. */
  ghost function PathTo(r: Reader): seq<byte> {
    match r.state
    case WaitStart1 => []
    case WaitStart2 => [START1]
    case ReadLenHigh => [START1, START2]
    case ReadLenLow(high) => [START1, START2, high]
    case ReadPayload(expected) => [START1, START2, (expected / 256) % 256, expected % 256] + r.buf
  }

  lemma {:induction false} PayloadPending(r: Reader, data: seq<byte>)
    requires r.state.ReadPayload? && |r.buf| + |data| < r.state.expected
    ensures After(r, data) == r.(buf := r.buf + data) && Frames(r, data) == []
    decreases data
  {
    if data == [] {
      assert r.buf + data == r.buf;
    } else {
      PayloadPending(Next(r, data[0]), data[1..]);
      assert r.buf + [data[0]] + data[1..] == r.buf + data;
    }
  }

  lemma {:induction false} PayloadDone(r: Reader, data: seq<byte>)
    requires r.state.ReadPayload? && |r.buf| < r.state.expected <= |r.buf| + |data|
    ensures var n := r.state.expected - |r.buf|;
            && After(r, data) == After(FRESH, data[n..])
            && Frames(r, data) == [r.buf + data[..n]] + Frames(FRESH, data[n..])
  {
    hide Frames, After, Next, Emit;
    var n := r.state.expected - |r.buf|;
    var init, last := data[..n - 1], data[n - 1..];
    assert data == init + last && last[1..] == data[n..];
    PayloadPending(r, init);
    FeedConcat(r, init, last);
    PayloadLast(r.(buf := r.buf + init), last);
    assert r.buf + init + [last[0]] == r.buf + data[..n];
  }

  lemma PayloadLast(r: Reader, data: seq<byte>)
    requires r.state.ReadPayload? && |r.buf| + 1 == r.state.expected && data != []
    ensures After(r, data) == After(FRESH, data[1..])
    ensures Frames(r, data) == [r.buf + [data[0]]] + Frames(FRESH, data[1..])
  {
  }

  lemma HeaderRead(hi: byte, lo: byte, rest: seq<byte>)
    ensures var r := Reader(ReadLenLow(hi), []);
            var data := [START1, START2, hi, lo] + rest;
            && After(FRESH, data) == After(Next(r, lo), rest)
            && Frames(FRESH, data) == Emit(r, lo) + Frames(Next(r, lo), rest)
  {
    var data := [START1, START2, hi, lo] + rest;
    var d1, d2, d3 := [START2, hi, lo] + rest, [hi, lo] + rest, [lo] + rest;
    assert data[1..] == d1 && d1[1..] == d2 && d2[1..] == d3 && d3[1..] == rest;
    assert After(FRESH, data) == After(Reader(WaitStart2, []), d1) == After(Reader(ReadLenHigh, []), d2);
    assert Frames(FRESH, data) == Frames(Reader(WaitStart2, []), d1) == Frames(Reader(ReadLenHigh, []), d2);
  }

  lemma HeaderPrefix(data: seq<byte>)
    requires |data| <= 3
    requires |data| > 0 ==> data[0] == START1
    requires |data| > 1 ==> data[1] == START2
    ensures After(FRESH, data) == (match |data| case 0 => FRESH
                                               case 1 => Reader(WaitStart2, [])
                                               case 2 => Reader(ReadLenHigh, [])
                                               case _ => Reader(ReadLenLow(data[2]), []))
  {
    if |data| == 0 {
    } else {
      HeaderPrefix(data[..|data| - 1]);
      assert data == data[..|data| - 1] + [data[|data| - 1]];
      FeedConcat(FRESH, data[..|data| - 1], [data[|data| - 1]]);
    }
  }

  /** The two length bytes of a frame that fits. */
  lemma LengthBytes(n: nat)
    requires 0 < n <= MAX_PACKET_SIZE
    ensures Length((n / 256) % 256, n % 256) == n
    ensures Next(Reader(ReadLenLow((n / 256) % 256), []), n % 256) == Reader(ReadPayload(n), [])
  {
  }

  lemma PathReaches(r: Reader)
    requires Reachable(r)
    ensures After(FRESH, PathTo(r)) == r
  {
    hide After, Length, Next;
    if r.state.ReadPayload? {
      var n := r.state.expected;
      HeaderRead((n / 256) % 256, n % 256, r.buf);
      LengthBytes(n);
      PayloadPending(Reader(ReadPayload(n), []), r.buf);
      assert [] + r.buf == r.buf;
    } else {
      HeaderPrefix(PathTo(r));
    }
  }

  /** The invariant is exact: a reader is reached by some stream if and only if it holds. */
  lemma ReachableExactly(r: Reader)
    ensures Reachable(r) <==> exists data :: After(FRESH, data) == r
  {
    hide After, PathTo, Next;
    if Reachable(r) {
      PathReaches(r);
    }
    forall data | After(FRESH, data) == r
      ensures Reachable(r)
    {
      ReachableKept(FRESH, data);
    }
  }

  // ----- hand-off after a completed frame -----

  /** Completing a frame leaves nothing behind: a new reader may take over without losing a byte. */
  lemma CompletedIsFresh(r: Reader, b: byte)
    requires Reachable(r) && Emit(r, b) != []
    ensures Next(r, b) == FRESH && |Emit(r, b)| == 1 && |Emit(r, b)[0]| <= MAX_PACKET_SIZE
  {
  }

  lemma {:induction false} FramesAreBounded(r: Reader, data: seq<byte>)
    requires Reachable(r)
    ensures forall f :: f in Frames(r, data) ==> |f| <= MAX_PACKET_SIZE
    decreases data
  {
    if data == [] {
    } else {
      FramesAreBounded(Next(r, data[0]), data[1..]);
    }
  }

  // ----- round trips -----

  lemma FrameThenRest(payload: seq<byte>, rest: seq<byte>)
    requires |payload| <= MAX_PACKET_SIZE
    ensures Frames(FRESH, FramePayload(payload) + rest) == [payload] + Frames(FRESH, rest)
    ensures After(FRESH, FramePayload(payload) + rest) == After(FRESH, rest)
  {
    var n := |payload|;
    var hi, lo := (n / 256) % 256, n % 256;
    assert FramePayload(payload) + rest == [START1, START2, hi, lo] + (payload + rest);
    HeaderRead(hi, lo, payload + rest);
    if n == 0 {
      assert payload + rest == rest;
    } else {
      LengthBytes(n);
      PayloadDone(Reader(ReadPayload(n), []), payload + rest);
      assert [] + (payload + rest)[..n] == payload;
      assert (payload + rest)[..n] == payload && (payload + rest)[n..] == rest;
    }
  }

  lemma FrameAlone(payload: seq<byte>)
    requires |payload| <= MAX_PACKET_SIZE
    ensures Frames(FRESH, FramePayload(payload)) == [payload] && After(FRESH, FramePayload(payload)) == FRESH
  {
    hide FramePayload;
    FrameThenRest(payload, []);
    assert FramePayload(payload) + [] == FramePayload(payload);
  }

  /** Exactly the payloads of at most 512 bytes survive framing. */
  lemma FramingRoundTripsExactly(payload: seq<byte>)
    ensures Frames(FRESH, FramePayload(payload)) == [payload] <==> |payload| <= MAX_PACKET_SIZE
  {
    if |payload| <= MAX_PACKET_SIZE {
      FrameAlone(payload);
    } else {
      FramesAreBounded(FRESH, FramePayload(payload));
      assert payload !in Frames(FRESH, FramePayload(payload));
    }
  }

  /** The frames of some payloads, one for each. */
  function Framed(payloads: seq<seq<byte>>): seq<seq<byte>>
    decreases |payloads|
  {
    if payloads == [] then [] else Framed(payloads[..|payloads| - 1]) + [FramePayload(payloads[|payloads| - 1])]
  }

  lemma {:induction false} ConcatMore(parts: seq<seq<byte>>, last: seq<byte>)
    ensures Concat(parts + [last]) == Concat(parts) + last
  {
    if parts == [] {
      assert [last][1..] == [];
    } else {
      assert (parts + [last])[1..] == parts[1..] + [last];
      ConcatMore(parts[1..], last);
    }
  }

  lemma {:induction false} FramedInARow(payloads: seq<seq<byte>>)
    requires forall p :: p in payloads ==> |p| <= MAX_PACKET_SIZE
    ensures Frames(FRESH, Concat(Framed(payloads))) == payloads
    ensures After(FRESH, Concat(Framed(payloads))) == FRESH
    decreases |payloads|
  {
    if payloads == [] {
    } else {
      hide FramePayload, Frames, After, Concat;
      var init, last := payloads[..|payloads| - 1], payloads[|payloads| - 1];
      FramedInARow(init);
      ConcatMore(Framed(init), FramePayload(last));
      FeedConcat(FRESH, Concat(Framed(init)), FramePayload(last));
      FrameAlone(last);
      assert payloads == init + [last];
    }
  }

  /** Payloads framed one after another come back as they are if and only if none exceeds 512 bytes. */
  lemma SequenceRoundTripsExactly(payloads: seq<seq<byte>>)
    ensures Frames(FRESH, Concat(Framed(payloads))) == payloads
       <==> forall p :: p in payloads ==> |p| <= MAX_PACKET_SIZE
  {
    FramesAreBounded(FRESH, Concat(Framed(payloads)));
    if forall p :: p in payloads ==> |p| <= MAX_PACKET_SIZE {
      FramedInARow(payloads);
    }
  }

  /** No START1, START2 pair at adjacent positions. The last byte may still be START1. */
  ghost predicate NoPair(g: seq<byte>) {
    forall i: nat :: !PairAt(g, i)
  }

  predicate PairAt(g: seq<byte>, i: nat) {
    i + 1 < |g| && g[i] == START1 && g[i + 1] == START2
  }

  lemma NoPairSuffix(g: seq<byte>, o: nat)
    requires NoPair(g) && o <= |g|
    ensures NoPair(g[o..])
  {
    forall i: nat
      ensures !PairAt(g[o..], i)
    {
      assert !PairAt(g, o + i);
    }
  }

  ghost predicate Hunting(r: Reader) {
    r.buf == [] && (r.state.WaitStart1? || r.state.WaitStart2?)
  }

  /** A hunting reader stays hunting over garbage unless the garbage completes a pending pair. */
  lemma {:induction false} GarbageKeepsHunting(r: Reader, g: seq<byte>)
    requires Hunting(r) && NoPair(g)
    requires r.state.WaitStart2? && g != [] ==> g[0] != START2
    ensures Hunting(After(r, g)) && Frames(r, g) == []
    decreases g
  {
    if g == [] {
    } else {
      NoPairSuffix(g, 1);
      assert !PairAt(g, 0);
      GarbageKeepsHunting(Next(r, g[0]), g[1..]);
    }
  }

  lemma HuntingParsesFrame(r: Reader, payload: seq<byte>, rest: seq<byte>)
    requires Hunting(r) && |payload| <= MAX_PACKET_SIZE
    ensures Frames(r, FramePayload(payload) + rest) == [payload] + Frames(FRESH, rest)
    ensures After(r, FramePayload(payload) + rest) == After(FRESH, rest)
  {
    FrameThenRest(payload, rest);
    var data := FramePayload(payload) + rest;
    assert data[0] == START1;
    assert Next(r, START1) == Next(FRESH, START1);
  }

  /** Frames of the payloads, each after its own stretch of garbage. */
  ghost function Noisy(garbage: seq<seq<byte>>, payloads: seq<seq<byte>>): seq<byte>
    requires |garbage| == |payloads| + 1
  {
    if payloads == [] then garbage[0]
    else garbage[0] + FramePayload(payloads[0]) + Noisy(garbage[1..], payloads[1..])
  }

  lemma {:induction false} NoisyStreamRoundTrips(garbage: seq<seq<byte>>, payloads: seq<seq<byte>>,
                                                 chunks: seq<seq<byte>>)
    requires |garbage| == |payloads| + 1
    requires forall g :: g in garbage ==> NoPair(g)
    requires forall p :: p in payloads ==> |p| <= MAX_PACKET_SIZE
    requires Concat(chunks) == Noisy(garbage, payloads)
    ensures FramesOfChunks(FRESH, chunks) == payloads
  {
    ChunkingIrrelevant(FRESH, chunks);
    NoisyStreamFrames(garbage, payloads);
  }

  lemma {:induction false} NoisyStreamFrames(garbage: seq<seq<byte>>, payloads: seq<seq<byte>>)
    requires |garbage| == |payloads| + 1
    requires forall g :: g in garbage ==> NoPair(g)
    requires forall p :: p in payloads ==> |p| <= MAX_PACKET_SIZE
    ensures Frames(FRESH, Noisy(garbage, payloads)) == payloads
  {
    var g := garbage[0];
    GarbageKeepsHunting(FRESH, g);
    if payloads == [] {
    } else {
      var rest := Noisy(garbage[1..], payloads[1..]);
      NoisyStreamFrames(garbage[1..], payloads[1..]);
      assert g + FramePayload(payloads[0]) + rest == g + (FramePayload(payloads[0]) + rest);
      FeedConcat(FRESH, g, FramePayload(payloads[0]) + rest);
      HuntingParsesFrame(After(FRESH, g), payloads[0], rest);
    }
  }

  // ----- self-stabilisation -----

  /** Bytes without a start pair that certainly end whatever the reader was in the middle of. */
  ghost function Settle(r: Reader): nat
    requires Reachable(r)
  {
    match r.state
    case WaitStart1 => 0
    case WaitStart2 => MAX_PACKET_SIZE + 3
    case ReadLenHigh => MAX_PACKET_SIZE + 2
    case ReadLenLow(_) => MAX_PACKET_SIZE + 1
    case ReadPayload(expected) => expected - |r.buf|
  }

  lemma {:induction false} Settles(r: Reader, data: seq<byte>)
    requires Reachable(r) && NoPair(data) && |data| >= Settle(r)
    ensures Hunting(After(r, data))
    decreases data
  {
    if Hunting(r) && (r.state.WaitStart1? || data[0] != START2) {
      GarbageKeepsHunting(r, data);
    } else {
      NoPairSuffix(data, 1);
      var next := Next(r, data[0]);
      assert Reachable(next);
      Settles(next, data[1..]);
    }
  }

  /** From any reachable reader, 515 bytes without a start pair, and then any valid frame, resynchronise. */
  lemma SelfStabilises(r: Reader, noise: seq<byte>, payload: seq<byte>, rest: seq<byte>)
    requires Reachable(r) && NoPair(noise) && |noise| >= MAX_PACKET_SIZE + 3
    requires |payload| <= MAX_PACKET_SIZE
    ensures Hunting(After(r, noise))
    ensures Frames(r, noise + FramePayload(payload) + rest) == Frames(r, noise) + [payload] + Frames(FRESH, rest)
  {
    Settles(r, noise);
    assert noise + FramePayload(payload) + rest == noise + (FramePayload(payload) + rest);
    FeedConcat(r, noise, FramePayload(payload) + rest);
    HuntingParsesFrame(After(r, noise), payload, rest);
  }

  /** 515 is the best bound: one byte fewer can leave the reader inside a payload. */
  lemma StabilisationBoundIsTight()
    ensures exists r, noise :: Reachable(r) && NoPair(noise) && |noise| == MAX_PACKET_SIZE + 2
                               && !Hunting(After(r, noise))
  {
    hide Frames, After, Emit;
    var r := Reader(WaitStart2, []);
    var body := seq(MAX_PACKET_SIZE - 1, _ => 0);
    var noise := [START2, 2, 0] + body;
    assert [START1] + noise == [START1, START2, 2, 0] + body;
    FeedConcat(FRESH, [START1], noise);
    HeaderRead(2, 0, body);
    PayloadPending(Reader(ReadPayload(MAX_PACKET_SIZE), []), body);
    assert NoPair(noise) && |noise| == MAX_PACKET_SIZE + 2 && Reachable(r);
    AfterOne(FRESH, START1);
    assert !Hunting(After(r, noise));
  }

  lemma AfterOne(r: Reader, b: byte)
    ensures After(r, [b]) == Next(r, b)
  {
    assert [b][1..] == [];
  }
}
