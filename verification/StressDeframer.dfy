/** The buffered deframer of the stress harness (hack/stress/stress.py), a whole-stream reading of
    both deframers, and where the two agree. */
module StressDeframer {
  import opened Bytes
  import opened SerialFraming

  // ----- a whole-stream reference -----

  /** Position of the first START1, START2 pair; |s| when there is none. */
  function FindStart(s: seq<byte>): (i: nat)
    ensures i <= |s| && (i < |s| ==> PairAt(s, i))
    ensures forall j: nat :: j < i ==> !PairAt(s, j)
  {
    Find(s, 0)
  }

  function Find(s: seq<byte>, from: nat): (i: nat)
    requires from <= |s|
    ensures from <= i <= |s| && (i < |s| ==> PairAt(s, i))
    ensures forall j: nat :: from <= j < i ==> !PairAt(s, j)
    decreases |s| - from
  {
    if from == |s| || PairAt(s, from) then from else Find(s, from + 1)
  }

  /** What the front of a stream holds: nothing complete yet, an oversized header, or a frame. */
  datatype Front =
    | Wait(rest: seq<byte>)
    | Oversized(next: seq<byte>)
    | Complete(frame: Frame, next: seq<byte>)

  /** The front of s when its first pair is at i. After a header that declares more than 512 bytes
      the search resumes `skip` bytes after the header's start. */
  function FrontAt(skip: nat, s: seq<byte>, i: nat): (f: Front)
    requires 2 <= skip <= 4 && i <= |s|
    ensures !f.Wait? ==> |f.next| < |s|
  {
    if i == |s| then Wait(if s != [] && s[|s| - 1] == START1 then [START1] else [])
    else if |s| < i + 4 then Wait(s[i..])
    else
      var n := Length(s[i + 2], s[i + 3]);
      if n > MAX_PACKET_SIZE then Oversized(s[i + skip..])
      else if |s| < i + 4 + n then Wait(s[i..])
      else Complete(s[i + 4..i + 4 + n], s[i + 4 + n..])
  }

  function Split(skip: nat, s: seq<byte>): (f: Front)
    requires 2 <= skip <= 4
    ensures !f.Wait? ==> |f.next| < |s|
  {
    FrontAt(skip, s, FindStart(s))
  }

  datatype Parsed = Parsed(frames: seq<Frame>, rest: seq<byte>)

  /** The frames of a stream and the bytes that must be kept to go on. */
  function Parse(skip: nat, s: seq<byte>): Parsed
    requires 2 <= skip <= 4
    decreases |s|
  {
    match Split(skip, s)
    case Wait(rest) => Parsed([], rest)
    case Oversized(next) => Parse(skip, next)
    case Complete(frame, next) => var p := Parse(skip, next); Parsed([frame] + p.frames, p.rest)
  }

  // ----- the code -----

  class Deframer {
    var buf: seq<byte>

    constructor ()
      ensures buf == []
    {
      buf := [];
    }

    method Feed(data: seq<byte>) returns (out: seq<Frame>)
      modifies this
      ensures Parsed(out, buf) == Parse(2, old(buf) + data)
    {
      hide Parse, FindStart, Length;
      buf := buf + data;
      out := [];
      while true
        invariant out + Parse(2, buf).frames == Parse(2, old(buf) + data).frames
        invariant Parse(2, buf).rest == Parse(2, old(buf) + data).rest
        decreases |buf|
      {
        var i := FindStart(buf);
        if i == |buf| {
          ParseWithoutPair(buf);
          buf := if buf != [] && buf[|buf| - 1] == START1 then [buf[|buf| - 1]] else [];
          return;
        }
        if i != 0 {
          ParseSkipsToPair(buf);
          buf := buf[i..];
        }
        ParseAtPair(buf);
        if |buf| < 4 {
          return;
        }
        var n := Length(buf[2], buf[3]);
        if n > 512 {
          buf := buf[2..];
          continue;
        }
        if |buf| < 4 + n {
          return;
        }
        out := out + [buf[4..4 + n]];
        buf := buf[4 + n..];
      }
    }
  }

  // ----- one turn of the deframer's loop, read off Parse -----

  lemma ParseWithoutPair(s: seq<byte>)
    requires FindStart(s) == |s|
    ensures Parse(2, s) == Parsed([], if s != [] && s[|s| - 1] == START1 then [START1] else [])
  {
    hide FindStart;
  }

  lemma ParseSkipsToPair(s: seq<byte>)
    requires 0 < FindStart(s) < |s|
    ensures Parse(2, s) == Parse(2, s[FindStart(s)..]) && FindStart(s[FindStart(s)..]) == 0
  {
    hide FindStart, FrontAt;
    SplitSuffix(2, s, FindStart(s));
  }

  lemma ParseAtPair(s: seq<byte>)
    requires FindStart(s) == 0 < |s|
    ensures var p := Parse(2, s);
            if |s| < 4 then p == Parsed([], s)
            else
              var n := Length(s[2], s[3]);
              if n > MAX_PACKET_SIZE then p == Parse(2, s[2..])
              else if |s| < 4 + n then p == Parsed([], s)
              else p == Parsed([s[4..4 + n]] + Parse(2, s[4 + n..]).frames, Parse(2, s[4 + n..]).rest)
  {
    hide FindStart, Length;
    assert s[0..] == s;
  }

  // ----- positions of the first pair -----

  lemma FindStartUnique(s: seq<byte>, i: nat)
    requires i == |s| || PairAt(s, i)
    requires forall j: nat :: j < i ==> !PairAt(s, j)
    ensures FindStart(s) == i
  {
    var k := FindStart(s);
    if k < i {
      assert false;
    }
  }

  /** The first pair is found from any earlier starting point. */
  lemma FindStartFrom(s: seq<byte>, o: nat)
    requires o <= |s|
    requires forall j: nat :: j < o ==> !PairAt(s, j)
    ensures FindStart(s) == o + FindStart(s[o..])
  {
    var t := s[o..];
    var k := FindStart(t);
    forall j: nat | j < o + k
      ensures !PairAt(s, j)
    {
      assert j >= o ==> !PairAt(t, j - o);
    }
    FindStartUnique(s, o + k);
  }

  lemma DropDrop(s: seq<byte>, o: nat, k: nat)
    requires o + k <= |s|
    ensures s[o..][k..] == s[o + k..]
  {
  }

  lemma SliceShifts(s: seq<byte>, o: nat, a: nat, b: nat)
    requires o <= |s| && a <= b && o + b <= |s|
    ensures s[o..][a..b] == s[o + a..o + b]
  {
  }

  lemma FrontShifts(skip: nat, s: seq<byte>, o: nat, i: nat)
    requires 2 <= skip <= 4 && o <= i <= |s|
    requires o == |s| && s != [] ==> s[|s| - 1] != START1
    ensures FrontAt(skip, s, i) == FrontAt(skip, s[o..], i - o)
  {
    hide Length;
    var t, k := s[o..], i - o;
    if i == |s| {
      assert o < |s| ==> t[|t| - 1] == s[|s| - 1];
    } else if |s| < i + 4 {
      DropDrop(s, o, k);
    } else {
      var n := Length(s[i + 2], s[i + 3]);
      assert n == Length(t[k + 2], t[k + 3]);
      if n > MAX_PACKET_SIZE {
        DropDrop(s, o, k + skip);
      } else if |s| < i + 4 + n {
        DropDrop(s, o, k);
      } else {
        DropDrop(s, o, k + 4 + n);
        SliceShifts(s, o, k + 4, k + 4 + n);
      }
    }
  }

  /** Bytes before the first pair do not matter. */
  lemma SplitSuffix(skip: nat, s: seq<byte>, o: nat)
    requires 2 <= skip <= 4 && o <= |s|
    requires forall j: nat :: j < o ==> !PairAt(s, j)
    requires o == |s| && s != [] ==> s[|s| - 1] != START1
    ensures Split(skip, s) == Split(skip, s[o..])
    ensures FindStart(s) == o + FindStart(s[o..])
  {
    FindStartFrom(s, o);
    FrontShifts(skip, s, o, FindStart(s));
  }

  // ----- the byte automaton is Parse with skip 4 -----

  /** Hunting over a stream is jumping to just behind its first pair. */
  lemma HuntJumps(s: seq<byte>)
    ensures var i := FindStart(s);
            if i == |s| then Frames(FRESH, s) == []
            else Frames(FRESH, s) == Frames(Reader(ReadLenHigh, []), s[i + 2..])
  {
    hide FindStart, Frames, After;
    var i := FindStart(s);
    var g, d := s[..i], s[i..];
    assert s == g + d;
    forall j: nat
      ensures !PairAt(g, j)
    {
      assert PairAt(g, j) ==> PairAt(s, j);
    }
    GarbageKeepsHunting(FRESH, g);
    FeedConcat(FRESH, g, d);
    if i < |s| {
      assert PairAt(d, 0) && d[2..] == s[i + 2..];
      PairIsRead(After(FRESH, g), d);
    } else {
      assert d == [] && s == g;
    }
  }

  lemma PairIsRead(r: Reader, d: seq<byte>)
    requires Hunting(r) && PairAt(d, 0)
    ensures Frames(r, d) == Frames(Reader(ReadLenHigh, []), d[2..])
  {
    assert d[1..][0] == START2 && d[1..][1..] == d[2..];
    assert Next(r, START1) == Reader(WaitStart2, []);
    assert Frames(r, d) == Frames(Reader(WaitStart2, []), d[1..]);
  }

  lemma LengthRead(hi: byte, lo: byte, rest: seq<byte>)
    ensures Frames(Reader(ReadLenHigh, []), [hi, lo] + rest)
         == Emit(Reader(ReadLenLow(hi), []), lo) + Frames(Next(Reader(ReadLenLow(hi), []), lo), rest)
  {
    var d1, d2 := [hi, lo] + rest, [lo] + rest;
    assert d1[1..] == d2 && d2[1..] == rest;
    assert Frames(Reader(ReadLenHigh, []), d1) == Frames(Reader(ReadLenLow(hi), []), d2);
  }

  /** Reading on from just behind a pair: the length, then the payload. */
  lemma HeaderSplits(hi: byte, lo: byte, rest: seq<byte>)
    ensures var fs := Frames(Reader(ReadLenHigh, []), [hi, lo] + rest);
            var n := Length(hi, lo);
            if n > MAX_PACKET_SIZE then fs == Frames(FRESH, rest)
            else if |rest| < n then fs == []
            else fs == [rest[..n]] + Frames(FRESH, rest[n..])
  {
    LengthRead(hi, lo, rest);
    var n := Length(hi, lo);
    if n == 0 {
      assert rest[..n] == [] && rest[n..] == rest;
    } else if n <= MAX_PACKET_SIZE {
      var pay := Reader(ReadPayload(n), []);
      if |rest| < n {
        PayloadPending(pay, rest);
      } else {
        PayloadDone(pay, rest);
        assert [] + rest[..n] == rest[..n];
      }
    }
  }

  lemma AfterPairFollowsFront(s: seq<byte>, i: nat)
    requires i + 2 <= |s|
    ensures var fs := Frames(Reader(ReadLenHigh, []), s[i + 2..]);
            match FrontAt(4, s, i)
            case Wait(_) => fs == []
            case Oversized(next) => fs == Frames(FRESH, next)
            case Complete(frame, next) => fs == [frame] + Frames(FRESH, next)
  {
    hide Frames;
    var d := s[i + 2..];
    if |s| < i + 4 {
      ShortHeader(d);
    } else {
      var rest := s[i + 4..];
      assert d == [s[i + 2], s[i + 3]] + rest;
      HeaderSplits(s[i + 2], s[i + 3], rest);
      var n := Length(s[i + 2], s[i + 3]);
      if |s| >= i + 4 + n {
        DropDrop(s, i + 4, n);
        assert rest[..n] == s[i + 4..i + 4 + n];
      }
    }
  }

  lemma ReaderFollowsFront(s: seq<byte>)
    ensures match Split(4, s)
            case Wait(_) => Frames(FRESH, s) == []
            case Oversized(next) => Frames(FRESH, s) == Frames(FRESH, next)
            case Complete(frame, next) => Frames(FRESH, s) == [frame] + Frames(FRESH, next)
  {
    hide FindStart, Frames;
    HuntJumps(s);
    if FindStart(s) < |s| {
      AfterPairFollowsFront(s, FindStart(s));
    }
  }

  lemma ShortHeader(d: seq<byte>)
    requires |d| < 2
    ensures Frames(Reader(ReadLenHigh, []), d) == []
  {
    assert d != [] ==> d[1..] == [];
  }

  /** The byte automaton computes the whole-stream reading, for every stream. */
  lemma {:induction false} ReaderRefinesParse(s: seq<byte>)
    ensures Frames(FRESH, s) == Parse(4, s).frames
    decreases |s|
  {
    ReaderFollowsFront(s);
    var f := Split(4, s);
    if f.Wait? {
    } else {
      ReaderRefinesParse(f.next);
    }
  }

  // ----- the buffered deframer does not depend on chunking -----

  lemma FindStartConcat(a: seq<byte>, b: seq<byte>)
    requires FindStart(a) < |a|
    ensures FindStart(a + b) == FindStart(a)
  {
    var i, s := FindStart(a), a + b;
    forall j: nat | j < i
      ensures !PairAt(s, j)
    {
      assert !PairAt(a, j);
    }
    assert PairAt(a, i) && PairAt(s, i);
    FindStartUnique(s, i);
  }

  lemma FrontConcat(skip: nat, a: seq<byte>, b: seq<byte>, i: nat)
    requires 2 <= skip <= 4 && i <= |a| && !FrontAt(skip, a, i).Wait?
    ensures var f, g := FrontAt(skip, a, i), FrontAt(skip, a + b, i);
            && g.next == f.next + b
            && (if f.Oversized? then g.Oversized? else g.Complete? && g.frame == f.frame)
  {
    var s := a + b;
    var n := Length(a[i + 2], a[i + 3]);
    assert s[i + 2] == a[i + 2] && s[i + 3] == a[i + 3];
    if n > MAX_PACKET_SIZE {
      assert s[i + skip..] == a[i + skip..] + b;
    } else {
      assert s[i + 4 + n..] == a[i + 4 + n..] + b;
      assert s[i + 4..i + 4 + n] == a[i + 4..i + 4 + n];
    }
  }

  /** What is kept while waiting starts behind every byte that can still matter. */
  lemma WaitKeepsEnough(skip: nat, a: seq<byte>, b: seq<byte>)
    requires 2 <= skip <= 4 && Split(skip, a).Wait?
    ensures var rest := Split(skip, a).rest;
            && |rest| <= |a| && a[|a| - |rest|..] == rest
            && (forall j: nat :: j < |a| - |rest| ==> !PairAt(a + b, j))
            && (rest == [] && a != [] ==> a[|a| - 1] != START1)
  {
    var i, s := FindStart(a), a + b;
    var o := |a| - |Split(skip, a).rest|;
    forall j: nat | j < o
      ensures !PairAt(s, j)
    {
      assert j < i ==> !PairAt(a, j);
    }
  }

  lemma SplitConcat(skip: nat, a: seq<byte>, b: seq<byte>)
    requires 2 <= skip <= 4
    ensures match Split(skip, a)
            case Wait(rest) => Split(skip, a + b) == Split(skip, rest + b)
            case Oversized(next) => Split(skip, a + b) == Oversized(next + b)
            case Complete(frame, next) => Split(skip, a + b) == Complete(frame, next + b)
  {
    var f := Split(skip, a);
    if f.Wait? {
      WaitKeepsEnough(skip, a, b);
      var o, s := |a| - |f.rest|, a + b;
      assert s[o..] == f.rest + b;
      assert b == [] ==> s == a;
      SplitSuffix(skip, s, o);
    } else {
      FindStartConcat(a, b);
      FrontConcat(skip, a, b, FindStart(a));
    }
  }

  lemma {:induction false} ParseConcat(skip: nat, a: seq<byte>, b: seq<byte>)
    requires 2 <= skip <= 4
    ensures var p := Parse(skip, a);
            var q := Parse(skip, p.rest + b);
            Parse(skip, a + b) == Parsed(p.frames + q.frames, q.rest)
    decreases |a|
  {
    hide FrontAt, FindStart;
    SplitConcat(skip, a, b);
    var f := Split(skip, a);
    if f.Wait? {
    } else {
      ParseConcat(skip, f.next, b);
    }
  }

  // ----- agreement -----

  /** An oversized header whose length bytes could themselves begin a header. */
  ghost predicate Overlaps(header: seq<byte>)
    requires |header| >= 4
  {
    || (header[2] == START1 && header[3] == START2)
    || (|header| > 4 && header[3] == START1 && header[4] == START2)
  }

  /** No oversized header met while parsing has length bytes that could begin a header. */
  ghost predicate Unambiguous(s: seq<byte>)
    decreases |s|
  {
    match Split(4, s)
    case Wait(_) => true
    case Oversized(next) => !Overlaps(s[FindStart(s)..]) && Unambiguous(next)
    case Complete(_, next) => Unambiguous(next)
  }

  /** No header met while parsing declares more than 512 bytes. */
  ghost predicate NoOversized(s: seq<byte>)
    decreases |s|
  {
    match Split(4, s)
    case Wait(_) => true
    case Oversized(_) => false
    case Complete(_, next) => NoOversized(next)
  }

  lemma {:induction false} NoOversizedIsUnambiguous(s: seq<byte>)
    requires NoOversized(s)
    ensures Unambiguous(s)
    decreases |s|
  {
    if !Split(4, s).Complete? {
    } else {
      NoOversizedIsUnambiguous(Split(4, s).next);
    }
  }

  /** After an oversized header the two searches resume at different bytes, and find the same next
      header exactly when the length bytes do not overlap one. */
  lemma ResumePointsAgree(h: seq<byte>)
    requires |h| >= 4 && Length(h[2], h[3]) > MAX_PACKET_SIZE
    ensures 2 + FindStart(h[2..]) == 4 + FindStart(h[4..]) <==> !Overlaps(h)
  {
    var t := h[2..];
    assert t[2..] == h[4..];
    assert PairAt(t, 0) || PairAt(t, 1) <==> Overlaps(h);
    if !Overlaps(h) {
      FindStartFrom(t, 2);
    }
  }

  lemma {:induction false} ParsesAgree(s: seq<byte>)
    requires Unambiguous(s)
    ensures Parse(2, s).frames == Parse(4, s).frames
    decreases |s|
  {
    hide FrontAt, FindStart;
    SkipsDifferOnlyAfterOversized(s);
    var f := Split(4, s);
    if f.Wait? {
    } else if f.Oversized? {
      ParsesAgree(f.next);
      SameFrontSameFrames(2, Split(2, s).next, 2);
    } else {
      ParsesAgree(f.next);
    }
  }

  /** The two skips see the same front, except where they go on after an oversized header. */
  lemma SkipsDifferOnlyAfterOversized(s: seq<byte>)
    ensures var f, g := Split(4, s), Split(2, s);
            if f.Oversized? then
              && g.Oversized? && |g.next| == |f.next| + 2 && g.next[2..] == f.next
              && FindStart(s) + 4 <= |s|
              && (Overlaps(s[FindStart(s)..]) <==> PairAt(g.next, 0) || PairAt(g.next, 1))
            else g == f
  {
    hide Find;
    var i := FindStart(s);
    if Split(4, s).Oversized? {
      DropDrop(s, i + 2, 2);
    }
  }

  lemma SameFrontSameFrames(skip: nat, t: seq<byte>, o: nat)
    requires 2 <= skip <= 4 && o <= |t|
    requires forall j: nat :: j < o ==> !PairAt(t, j)
    ensures Parse(skip, t).frames == Parse(skip, t[o..]).frames
  {
    FindStartFrom(t, o);
    if FindStart(t) < |t| {
      SplitSuffix(skip, t, o);
    }
  }

  /** The positions of the headers met while parsing, in a stream whose first byte is number `at`. */
  ghost function Visits(skip: nat, s: seq<byte>, at: nat): seq<nat>
    requires 2 <= skip <= 4
    decreases |s|
  {
    if FindStart(s) == |s| then []
    else
      [at + FindStart(s)] +
      (var f := Split(skip, s); if f.Wait? then [] else Visits(skip, f.next, at + |s| - |f.next|))
  }

  lemma VisitsStartBehind(skip: nat, s: seq<byte>, at: nat)
    requires 2 <= skip <= 4
    ensures Visits(skip, s, at) != [] <==> FindStart(s) < |s|
    ensures Visits(skip, s, at) != [] ==> Visits(skip, s, at)[0] == at + FindStart(s)
  {
  }

  lemma VisitsOfSuffix(skip: nat, t: seq<byte>, o: nat, at: nat)
    requires 2 <= skip <= 4 && o <= |t|
    requires forall j: nat :: j < o ==> !PairAt(t, j)
    ensures Visits(skip, t, at) == Visits(skip, t[o..], at + o)
  {
    hide FrontAt, FindStart, Length, Visits;
    FindStartFrom(t, o);
    if FindStart(t) < |t| {
      SplitSuffix(skip, t, o);
      VisitsFollow(skip, t, at);
      VisitsFollow(skip, t[o..], at + o);
    } else {
      VisitsStartBehind(skip, t, at);
      VisitsStartBehind(skip, t[o..], at + o);
    }
  }

  lemma VisitsFollow(skip: nat, s: seq<byte>, at: nat)
    requires 2 <= skip <= 4 && FindStart(s) < |s|
    ensures Visits(skip, s, at) == [at + FindStart(s)] +
              (var f := Split(skip, s); if f.Wait? then [] else Visits(skip, f.next, at + |s| - |f.next|))
  {
    hide FrontAt, FindStart;
  }

  /** On a whole stream the two deframers meet the same headers if and only if no oversized one has
      length bytes that could begin another. */
  lemma {:induction false} SameHeadersExactly(s: seq<byte>, at: nat)
    ensures Visits(2, s, at) == Visits(4, s, at) <==> Unambiguous(s)
    decreases |s|
  {
    hide FrontAt, FindStart, Overlaps, Visits;
    var f, g := Split(4, s), Split(2, s);
    SkipsDifferOnlyAfterOversized(s);
    VisitsStartBehind(2, s, at);
    VisitsStartBehind(4, s, at);
    if FindStart(s) < |s| {
      VisitsFollow(2, s, at);
      VisitsFollow(4, s, at);
      var v, w := Visits(2, s, at), Visits(4, s, at);
      assert v == w <==> v[1..] == w[1..];
      if f.Oversized? {
        var a := at + |s| - |g.next|;
        if Overlaps(s[FindStart(s)..]) {
          PairComesFirst(g.next);
          VisitsStartBehind(2, g.next, a);
          VisitsStartBehind(4, f.next, a + 2);
        } else {
          VisitsOfSuffix(2, g.next, 2, a);
          SameHeadersExactly(f.next, a + 2);
        }
      } else if f.Complete? {
        SameHeadersExactly(f.next, at + |s| - |f.next|);
      }
    } else {
      NoPairWaits(s);
    }
  }

  lemma NoPairWaits(s: seq<byte>)
    requires FindStart(s) == |s|
    ensures Split(4, s).Wait?
  {
  }

  lemma PairComesFirst(t: seq<byte>)
    requires PairAt(t, 0) || PairAt(t, 1)
    ensures FindStart(t) < 2 && FindStart(t) < |t|
  {
  }

  lemma {:induction false} UnambiguousPrefix(a: seq<byte>, b: seq<byte>)
    requires Unambiguous(a + b)
    ensures Unambiguous(a)
    decreases |a|
  {
    SplitConcat(4, a, b);
    var f := Split(4, a);
    if f.Wait? {
    } else {
      if f.Oversized? {
        var i := FindStart(a);
        FindStartConcat(a, b);
        assert (a + b)[i..] == a[i..] + b;
      }
      UnambiguousPrefix(f.next, b);
    }
  }

  /** What each feed call of the byte automaton returns. */
  ghost function ReaderCalls(r: Reader, chunks: seq<seq<byte>>): seq<seq<Frame>>
    decreases chunks
  {
    if chunks == [] then [] else [Frames(r, chunks[0])] + ReaderCalls(After(r, chunks[0]), chunks[1..])
  }

  /** What each feed call of the buffered deframer returns. */
  ghost function DeframerCalls(buf: seq<byte>, chunks: seq<seq<byte>>): seq<seq<Frame>>
    decreases chunks
  {
    if chunks == [] then []
    else var p := Parse(2, buf + chunks[0]); [p.frames] + DeframerCalls(p.rest, chunks[1..])
  }

  /** Call by call, the two deframers return the same frames, however the stream is split. */
  lemma DeframersAgree(chunks: seq<seq<byte>>)
    requires Unambiguous(Concat(chunks))
    ensures ReaderCalls(FRESH, chunks) == DeframerCalls([], chunks)
  {
    assert [] + Concat(chunks) == Concat(chunks);
    DeframersAgreeFrom([], chunks);
  }

  /** In particular they agree on every stream in which no header declares more than 512 bytes. */
  lemma DeframersAgreeWithoutOversized(chunks: seq<seq<byte>>)
    requires NoOversized(Concat(chunks))
    ensures ReaderCalls(FRESH, chunks) == DeframerCalls([], chunks)
  {
    NoOversizedIsUnambiguous(Concat(chunks));
    DeframersAgree(chunks);
  }

  lemma {:induction false} DeframersAgreeFrom(seen: seq<byte>, chunks: seq<seq<byte>>)
    requires Unambiguous(seen + Concat(chunks))
    ensures ReaderCalls(After(FRESH, seen), chunks) == DeframerCalls(Parse(2, seen).rest, chunks)
    decreases chunks
  {
    hide Split, Next, Emit;
    if chunks == [] {
    } else {
      var c, more := chunks[0], Concat(chunks[1..]);
      assert seen + (c + more) == (seen + c) + more;
      UnambiguousPrefix(seen + c, more);
      UnambiguousPrefix(seen, c);
      ParsesAgree(seen);
      ParsesAgree(seen + c);
      ReaderRefinesParse(seen);
      ReaderRefinesParse(seen + c);
      FeedConcat(FRESH, seen, c);
      ParseConcat(2, seen, c);
      CancelPrefix(Frames(FRESH, seen), Frames(After(FRESH, seen), c), Parse(2, Parse(2, seen).rest + c).frames);
      DeframersAgreeFrom(seen + c, chunks[1..]);
    }
  }

  lemma CancelPrefix<T>(a: seq<T>, b: seq<T>, c: seq<T>)
    requires a + b == a + c
    ensures b == c
  {
    assert (a + b)[|a|..] == b && (a + c)[|a|..] == c;
  }

  /** An oversized header with an empty frame's header in its length bytes. */
  const OVERLAPPING: seq<byte> := [0x94, 0xC3, 0x94, 0xC3, 0, 0]

  /** On these six bytes the buffered deframer finds the empty frame and the byte automaton nothing. */
  lemma DeframersCanPart()
    ensures !Unambiguous(OVERLAPPING) && Frames(FRESH, OVERLAPPING) == [] && Parse(2, OVERLAPPING).frames == [[]]
  {
    var s := OVERLAPPING;
    assert PairAt(s, 0);
    FindStartUnique(s, 0);
    HeaderRead(START1, START2, [0, 0]);
    assert s == [START1, START2, START1, START2] + [0, 0];
    GarbageKeepsHunting(FRESH, [0, 0]);
    var t := s[2..];
    assert PairAt(t, 0);
    FindStartUnique(t, 0);
    assert Split(2, s) == Oversized(t);
    assert Split(2, t) == Complete([], []);
    assert Parse(2, []).frames == [];
    assert Parse(2, s) == Parse(2, t);
  }
}
