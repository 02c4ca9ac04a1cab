/**
 Length-prefixed frames over a byte pipe: the bytes of one frame, the loops that move them through
 partial and interrupted system calls, and any interleaving of several writers with one reader.
 */
module Framing {
  import opened Wrappers

  type byte = b: int | 0 <= b < 0x100

  const LIMIT := 0x1_0000_0000

  /** A buffer whose length fits the unsigned int that precedes it. */
  type Payload = p: seq<byte> | |p| < LIMIT

  /** The bytes of an unsigned int in memory, least significant first. */
  function Header(n: nat): (h: seq<byte>)
    requires n < LIMIT
    ensures |h| == 4
  {
    [n % 0x100, n / 0x100 % 0x100, n / 0x1_0000 % 0x100, n / 0x100_0000]
  }

  function Value(h: seq<byte>): (n: nat)
    requires |h| == 4
    ensures n < LIMIT
  {
    var b0: int, b1: int, b2: int, b3: int := h[0], h[1], h[2], h[3];
    b0 + 0x100 * b1 + 0x1_0000 * b2 + 0x100_0000 * b3
  }

  lemma HeaderValue(n: nat)
    requires n < LIMIT
    ensures Value(Header(n)) == n
  {
    var m1, m2 := n / 0x100, n / 0x1_0000;
    assert m2 == m1 / 0x100 && n / 0x100_0000 == m2 / 0x100;
    assert n == n % 0x100 + 0x100 * m1;
    assert m1 == m1 % 0x100 + 0x100 * m2;
    assert m2 == m2 % 0x100 + 0x100 * (m2 / 0x100);
  }

  lemma ValueHeader(h: seq<byte>)
    requires |h| == 4
    ensures Header(Value(h)) == h
  {
    var b0: int, b1: int, b2: int, b3: int := h[0], h[1], h[2], h[3];
    Digits(b0, b1 + 0x100 * b2 + 0x1_0000 * b3);
    Digits(b1, b2 + 0x100 * b3);
    Digits(b2, b3);
    assert Value(h) / 0x100 == b1 + 0x100 * (b2 + 0x100 * b3);
    assert Value(h) / 0x1_0000 == Value(h) / 0x100 / 0x100 == b2 + 0x100 * b3;
    assert Value(h) / 0x100_0000 == Value(h) / 0x1_0000 / 0x100 == b3;
    assert Header(Value(h)) == [b0, b1, b2, b3] == h;
  }

  lemma Digits(low: int, high: int)
    requires 0 <= low < 0x100
    ensures (low + 0x100 * high) / 0x100 == high && (low + 0x100 * high) % 0x100 == low
  {}

  function Frame(p: Payload): seq<byte> {
    Header(|p|) + p
  }

  function Frames(ps: seq<Payload>): seq<byte> {
    if ps == [] then [] else Frame(ps[0]) + Frames(ps[1..])
  }

  lemma {:induction false} FramesAppend(ps: seq<Payload>, p: Payload)
    ensures Frames(ps + [p]) == Frames(ps) + Frame(p)
    decreases |ps|
  {
    if ps == [] {
      assert ps + [p] == [p] && [p][1..] == [];
    } else {
      assert (ps + [p])[1..] == ps[1..] + [p];
      FramesAppend(ps[1..], p);
    }
  }

  lemma FramesNonEmpty(ps: seq<Payload>)
    ensures if ps == [] then Frames(ps) == [] else |Frames(ps)| >= 4
  {}

  // ---------- any interleaving ----------

  datatype Writing = Unlocked | AtHeader(p: Payload) | AtPayload(p: Payload, sent: nat)

  datatype Reading = InHeader(got: seq<byte>) | InPayload(n: nat, got: seq<byte>)

  /** One writer at a time holds the write mutex; the reader is in, or between, calls of read. */
  datatype State = State(
    stream: seq<byte>,        // bytes in the pipe
    writing: Writing,
    reading: Reading,
    written: seq<Payload>,    // history: payloads in the order in which the mutex was taken
    delivered: seq<Payload>,  // history: payloads that read has returned
    consumed: seq<byte>)      // history: every byte taken out of the pipe

  const INIT := State([], Unlocked, InHeader([]), [], [], [])

  datatype Step =
    | Lock(p: Payload)
    | WriteHeader          // one system call, which the reader relies on
    | WriteSome(k: nat)    // a possibly partial write of the payload
    | Unlock
    | Interrupted          // EINTR on either side
    | ReadHeader(k: nat)   // a possibly partial read of the header
    | WouldBlock           // EAGAIN: read gives up and returns 0
    | ReadSome(k: nat)
    | Return

  predicate Enabled(s: State, step: Step) {
    match step
    case Lock(_) => s.writing.Unlocked?
    case WriteHeader => s.writing.AtHeader?
    case WriteSome(k) => s.writing.AtPayload? && 0 < k <= |s.writing.p| - s.writing.sent
    case Unlock => s.writing.AtPayload? && s.writing.sent == |s.writing.p|
    case Interrupted => true
    case ReadHeader(k) =>
      s.reading.InHeader? && 0 < k <= |s.stream| && |s.reading.got| + k <= 4
    case WouldBlock => s.reading.InHeader? && s.stream == []
    case ReadSome(k) =>
      s.reading.InPayload? && 0 < k <= |s.stream| && |s.reading.got| + k <= s.reading.n
    case Return => s.reading.InPayload? && |s.reading.got| == s.reading.n < LIMIT
  }

  function Apply(s: State, step: Step): State
    requires Enabled(s, step)
  {
    match step
    case Lock(p) => s.(writing := AtHeader(p), written := s.written + [p])
    case WriteHeader =>
      s.(writing := AtPayload(s.writing.p, 0), stream := s.stream + Header(|s.writing.p|))
    case WriteSome(k) =>
      var sent := s.writing.sent;
      s.(writing := AtPayload(s.writing.p, sent + k), stream := s.stream + s.writing.p[sent..sent + k])
    case Unlock => s.(writing := Unlocked)
    case Interrupted => s
    case ReadHeader(k) =>
      var got := s.reading.got + s.stream[..k];
      s.(stream := s.stream[k..], consumed := s.consumed + s.stream[..k],
         reading := if |got| == 4 then InPayload(Value(got), []) else InHeader(got))
    case WouldBlock => s.(reading := InHeader([]))
    case ReadSome(k) =>
      s.(stream := s.stream[k..], consumed := s.consumed + s.stream[..k],
         reading := InPayload(s.reading.n, s.reading.got + s.stream[..k]))
    case Return =>
      s.(reading := InHeader([]), delivered := s.delivered + [s.reading.got])
  }

  /** What the writer still has to put into the pipe of the frame it is writing. */
  function Unsent(w: Writing): seq<byte> {
    match w
    case Unlocked => []
    case AtHeader(p) => Frame(p)
    case AtPayload(p, sent) => if sent <= |p| then p[sent..] else []
  }

  /** What the reader has taken of the frame it is reading. */
  function Partial(r: Reading): seq<byte> {
    match r
    case InHeader(got) => got
    case InPayload(n, got) => if n < LIMIT then Header(n) + got else got
  }

  function Undelivered(s: State): seq<Payload>
    requires |s.delivered| <= |s.written|
  {
    s.written[|s.delivered|..]
  }

  ghost predicate Inv(s: State) {
    && s.delivered <= s.written
    && s.consumed == Frames(s.delivered) + Partial(s.reading)
    && Partial(s.reading) + (s.stream + Unsent(s.writing)) == Frames(Undelivered(s))
    && (!s.writing.Unlocked? ==> s.written != [] && s.written[|s.written| - 1] == s.writing.p)
    && (s.writing.AtPayload? ==> s.writing.sent <= |s.writing.p|)
    && (match s.reading
        case InHeader(got) => |got| < 4 && (got != [] ==> |got| + |s.stream| >= 4)
        case InPayload(n, got) => |got| <= n < LIMIT)
  }

  /** Once anything of a frame is in the pipe, all of its header is. */
  lemma HeaderComplete(s: State)
    requires Inv(s) && s.reading == InHeader([]) && s.stream != []
    ensures |s.stream| >= 4
  {
    var rest := Undelivered(s);
    assert s.stream + Unsent(s.writing) == Frames(rest);
    FramesNonEmpty(rest);
    if !s.writing.Unlocked? {
      var init := rest[..|rest| - 1];
      assert rest == init + [s.writing.p];
      FramesAppend(init, s.writing.p);
      FramesNonEmpty(init);
      assert |Frames(rest)| == |Frames(init)| + 4 + |s.writing.p|;
    }
  }

  /** The frame being read is the first that was not delivered. */
  lemma FirstFrame(s: State)
    requires Inv(s) && s.reading.InPayload?
    ensures Undelivered(s) != [] && |Undelivered(s)[0]| == s.reading.n
    ensures |s.reading.got| == s.reading.n ==>
              s.reading.got == Undelivered(s)[0]
              && s.stream + Unsent(s.writing) == Frames(Undelivered(s)[1..])
  {
    var rest, n, got := Undelivered(s), s.reading.n, s.reading.got;
    var tail := s.stream + Unsent(s.writing);
    assert (Header(n) + got) + tail == Header(n) + (got + tail);
    assert Frames(rest) != [];
    assert Frames(rest) == Header(|rest[0]|) + (rest[0] + Frames(rest[1..]));
    SameStart(Header(n), got + tail, Header(|rest[0]|), rest[0] + Frames(rest[1..]));
    HeaderValue(n);
    HeaderValue(|rest[0]|);
    if |got| == n {
      SameStart(got, tail, rest[0], Frames(rest[1..]));
    }
  }

  lemma SameStart(a: seq<byte>, x: seq<byte>, b: seq<byte>, y: seq<byte>)
    requires |a| == |b| && a + x == b + y
    ensures a == b && x == y
  {
    assert a == (a + x)[..|a|] && b == (b + y)[..|b|];
    assert x == (a + x)[|a|..] && y == (b + y)[|b|..];
  }

  lemma StepKeeps(s: State, step: Step)
    requires Inv(s) && Enabled(s, step)
    ensures Inv(Apply(s, step))
  {
    hide Inv, Header, Value;
    match step
    case Lock(p) => LockKeeps(s, p);
    case WriteHeader => WriteHeaderKeeps(s);
    case WriteSome(k) => WriteSomeKeeps(s, k);
    case Unlock => UnlockKeeps(s);
    case Interrupted =>
    case ReadHeader(k) => ReadHeaderKeeps(s, k);
    case WouldBlock => WouldBlockChangesNothing(s);
    case ReadSome(k) => ReadSomeKeeps(s, k);
    case Return => ReturnKeeps(s);
  }

  lemma LockKeeps(s: State, p: Payload)
    requires Inv(s) && s.writing.Unlocked?
    ensures Inv(Apply(s, Lock(p)))
  {
    var s' := Apply(s, Lock(p));
    hide Frames, Frame, Partial;
    assert Undelivered(s') == Undelivered(s) + [p];
    FramesAppend(Undelivered(s), p);
    var r := Partial(s.reading);
    assert s.stream + [] == s.stream;
    Rejoined(r, s.stream, Frame(p));
    assert s'.written[..|s.written|] == s.written;
  }

  /** Moving bytes from the writer's hand into the pipe changes nothing else. */
  lemma WriterKeeps(s: State, s': State)
    requires Inv(s) && !s.writing.Unlocked?
    requires s'.stream + Unsent(s'.writing) == s.stream + Unsent(s.writing)
    requires s' == s.(stream := s'.stream, writing := s'.writing)
    requires |s'.stream| >= |s.stream|
    requires !s'.writing.Unlocked? ==> s'.writing.p == s.writing.p
    requires s'.writing.AtPayload? ==> s'.writing.sent <= |s'.writing.p|
    ensures Inv(s')
  {}

  lemma WriteHeaderKeeps(s: State)
    requires Inv(s) && s.writing.AtHeader?
    ensures Inv(Apply(s, WriteHeader))
  {
    hide Inv, Header;
    var p := s.writing.p;
    assert (s.stream + Header(|p|)) + p[0..] == s.stream + (Header(|p|) + p);
    WriterKeeps(s, Apply(s, WriteHeader));
  }

  lemma Slide(stream: seq<byte>, p: seq<byte>, sent: nat, k: nat)
    requires sent + k <= |p|
    ensures (stream + p[sent..sent + k]) + p[sent + k..] == stream + p[sent..]
  {
    assert p[sent..] == p[sent..sent + k] + p[sent + k..];
  }

  lemma WriteSomeKeeps(s: State, k: nat)
    requires Inv(s) && Enabled(s, WriteSome(k))
    ensures Inv(Apply(s, WriteSome(k)))
  {
    hide Inv;
    Slide(s.stream, s.writing.p, s.writing.sent, k);
    WriterKeeps(s, Apply(s, WriteSome(k)));
  }

  lemma UnlockKeeps(s: State)
    requires Inv(s) && Enabled(s, Unlock)
    ensures Inv(Apply(s, Unlock))
  {
    hide Inv;
    WriterKeeps(s, Apply(s, Unlock));
  }

  /** When the pipe is empty the reader has nothing of a header in hand. */
  lemma WouldBlockChangesNothing(s: State)
    requires Inv(s) && Enabled(s, WouldBlock)
    ensures Apply(s, WouldBlock) == s && s.reading == InHeader([])
  {
    hide Header, Value, Frames;
  }

  lemma ReadHeaderKeeps(s: State, k: nat)
    requires Inv(s) && Enabled(s, ReadHeader(k))
    ensures Inv(Apply(s, ReadHeader(k)))
  {
    hide Header, Value, Frames;
    var s' := Apply(s, ReadHeader(k));
    if s.reading.got == [] {
      HeaderComplete(s);
    }
    var got := s.reading.got + s.stream[..k];
    if |got| == 4 {
      ValueHeader(got);
      assert Header(Value(got)) + [] == got;
    }
    assert Partial(s'.reading) == got;
    Shift(s.reading.got, s.stream, k, Unsent(s.writing));
    assert Frames(s.delivered) + got == Frames(s.delivered) + s.reading.got + s.stream[..k];
  }

  lemma ReadSomeKeeps(s: State, k: nat)
    requires Inv(s) && Enabled(s, ReadSome(k))
    ensures Inv(Apply(s, ReadSome(k)))
  {
    var s' := Apply(s, ReadSome(k));
    var before := Partial(s.reading);
    assert Partial(s'.reading) == before + s.stream[..k];
    Shift(before, s.stream, k, Unsent(s.writing));
    assert Frames(s.delivered) + (before + s.stream[..k]) == Frames(s.delivered) + before + s.stream[..k];
  }

  lemma Shift(before: seq<byte>, stream: seq<byte>, k: nat, after: seq<byte>)
    requires k <= |stream|
    ensures (before + stream[..k]) + (stream[k..] + after) == before + (stream + after)
  {
    assert stream[..k] + stream[k..] == stream;
  }

  lemma ReturnKeeps(s: State)
    requires Inv(s) && Enabled(s, Return)
    ensures Inv(Apply(s, Return))
  {
    var s' := Apply(s, Return);
    FirstFrame(s);
    var got := s.reading.got;
    FramesAppend(s.delivered, got);
    assert Undelivered(s) == [got] + Undelivered(s');
    assert Undelivered(s)[1..] == Undelivered(s');
    assert [] + (s.stream + Unsent(s.writing)) == s.stream + Unsent(s.writing);
    assert Frames(s'.delivered) + [] == Frames(s'.delivered);
  }

  ghost predicate Run(trace: seq<State>, steps: seq<Step>) {
    && |trace| == |steps| + 1 && trace[0] == INIT
    && forall k {:trigger steps[k]} :: 0 <= k < |steps| ==>
         Enabled(trace[k], steps[k]) && trace[k + 1] == Apply(trace[k], steps[k])
  }

  lemma {:induction false} RunKeeps(trace: seq<State>, steps: seq<Step>, k: nat)
    requires Run(trace, steps) && k < |trace|
    ensures Inv(trace[k])
  {
    if k > 0 {
      RunKeeps(trace, steps, k - 1);
      assert Enabled(trace[k - 1], steps[k - 1]);
      StepKeeps(trace[k - 1], steps[k - 1]);
    }
  }

  /**
   For every schedule of partial and interrupted calls and any number of writers: what read returned is
   a prefix of what was written, in the order of the mutex, and the bytes taken out of the pipe are
   the frames of it (4 + n bytes for a payload of n) plus what the call under way has read.
   */
  lemma DeliveredInOrder(trace: seq<State>, steps: seq<Step>, k: nat)
    requires Run(trace, steps) && k < |trace|
    ensures trace[k].delivered <= trace[k].written
    ensures trace[k].consumed == Frames(trace[k].delivered) + Partial(trace[k].reading)
  {
    RunKeeps(trace, steps, k);
  }

  /** An empty pipe makes read return 0 without a change: it never gives up inside a header. */
  lemma EmptyReadHarmless(trace: seq<State>, steps: seq<Step>, k: nat)
    requires Run(trace, steps) && k < |steps| && steps[k] == WouldBlock
    ensures trace[k + 1] == trace[k] && trace[k].reading == InHeader([])
  {
    RunKeeps(trace, steps, k);
    assert Enabled(trace[k], steps[k]);
    WouldBlockChangesNothing(trace[k]);
  }

  /** When the writers are done and the reader finds the pipe empty, everything was delivered. */
  lemma NothingLost(trace: seq<State>, steps: seq<Step>, k: nat)
    requires Run(trace, steps) && k < |trace|
    requires trace[k].writing.Unlocked? && trace[k].stream == [] && trace[k].reading == InHeader([])
    ensures trace[k].delivered == trace[k].written
  {
    RunKeeps(trace, steps, k);
    FramesNonEmpty(Undelivered(trace[k]));
  }

  // ---------- everything is delivered ----------

  /** The steps that move something. */
  predicate Moves(step: Step) {
    !step.Lock? && !step.Interrupted? && !step.WouldBlock?
  }

  function Work(s: State): nat {
    4 * |Unsent(s.writing)| + 2 * |s.stream|
    + (match s.writing case Unlocked => 0 case AtHeader(_) => 2 case AtPayload(_, _) => 1)
    + (if s.reading.InPayload? then 1 else 0)
  }

  lemma WorkFalls(s: State, step: Step)
    requires Inv(s) && Moves(step) && Enabled(s, step)
    ensures Work(Apply(s, step)) < Work(s)
  {
    hide Inv, Frames, Header, Value;
  }

  /** Whoever is in the middle of something can go on, until all that was written is delivered. */
  lemma Stuck(s: State)
    requires Inv(s) && forall step :: Moves(step) ==> !Enabled(s, step)
    ensures s.writing.Unlocked? && s.stream == [] && s.reading == InHeader([]) && s.delivered == s.written
  {
    var rest := Undelivered(s);
    assert Moves(WriteHeader) && Moves(WriteSome(1)) && Moves(Unlock);
    assert s.writing.Unlocked?;
    FramesNonEmpty(rest);
    match s.reading
    case InHeader(got) => assert Moves(ReadHeader(1));
    case InPayload(n, got) =>
      assert Moves(ReadSome(1)) && Moves(Return);
      FirstFrame(s);
      assert false;
  }

  /** From every state of every run, all that was written can still be delivered. */
  lemma {:induction false} Drains(trace: seq<State>, steps: seq<Step>)
    returns (trace': seq<State>, steps': seq<Step>)
    requires Run(trace, steps)
    ensures Run(trace', steps') && trace <= trace' && steps <= steps'
    ensures var s := trace'[|steps'|];
            && s.written == trace[|steps|].written == s.delivered
            && s.writing.Unlocked? && s.reading == InHeader([])
    decreases Work(trace[|steps|])
  {
    var s := trace[|steps|];
    RunKeeps(trace, steps, |steps|);
    hide Inv, Enabled, Apply, Work;
    if exists step :: Moves(step) && Enabled(s, step) {
      var step :| Moves(step) && Enabled(s, step);
      WorkFalls(s, step);
      trace', steps' := Drains(trace + [Apply(s, step)], steps + [step]);
    } else {
      Stuck(s);
      trace', steps' := trace, steps;
    }
  }

  /** Any payloads, also empty ones, can be sent through the pipe. */
  lemma {:induction false} Transmits(ps: seq<Payload>) returns (trace: seq<State>, steps: seq<Step>)
    ensures Run(trace, steps) && trace[|steps|].delivered == ps == trace[|steps|].written
    decreases |ps|
  {
    if ps == [] {
      trace, steps := [INIT], [];
    } else {
      var most, last := ps[..|ps| - 1], ps[|ps| - 1];
      trace, steps := Transmits(most);
      trace, steps := Drains(trace, steps);
      var s := trace[|steps|];
      assert most + [last] == ps;
      trace, steps := Drains(trace + [Apply(s, Lock(last))], steps + [Lock(last)]);
    }
  }

  // ---------- the loops ----------

  /** The outcome of one system call: interrupted, or at most so many bytes (and at least one) moved. */
  datatype Outcome = Eintr | Moved(most: nat)

  function Min(a: nat, b: nat): nat {
    if a < b then a else b
  }

  function Flat(chunks: seq<seq<byte>>): seq<byte> {
    if chunks == [] then [] else chunks[0] + Flat(chunks[1..])
  }

  lemma {:induction false} FlatSplit(chunks: seq<seq<byte>>, k: nat)
    requires k <= |chunks|
    ensures Flat(chunks) == Flat(chunks[..k]) + Flat(chunks[k..])
    decreases k
  {
    if k == 0 {
      assert chunks[..0] == [] && chunks[0..] == chunks;
    } else {
      FlatSplit(chunks[1..], k - 1);
      assert chunks[..k][1..] == chunks[1..][..k - 1] && chunks[1..][k - 1..] == chunks[k..];
    }
  }

  lemma Rejoined(a: seq<byte>, b: seq<byte>, c: seq<byte>)
    ensures (a + b) + c == a + (b + c)
  {
  }

  lemma FlatNext(chunks: seq<seq<byte>>, k: nat)
    requires k < |chunks|
    ensures Flat(chunks[..k + 1]) == Flat(chunks[..k]) + chunks[k]
  {
    FlatSplit(chunks[..k + 1], k);
    assert chunks[..k + 1][..k] == chunks[..k] && chunks[..k + 1][k..] == [chunks[k]];
    var one: seq<seq<byte>> := [chunks[k]];
    assert one[1..] == [];
  }

  /** The pipe as one thread uses it, while others write. */
  class Pipe {
    var kernel: seq<byte>      // what the operating system holds
    var coming: seq<seq<byte>> // what others will still write, a system call each
    var nonBlocking: bool      // O_NONBLOCK on the reading end
    var schedule: seq<Outcome> // how the next system calls will turn out; afterwards they move everything
    var arrivals: seq<nat>     // how many writes of others happen in the next moments

    constructor (schedule: seq<Outcome>, coming: seq<seq<byte>>, arrivals: seq<nat>)
      ensures kernel == [] && nonBlocking && this.coming == coming
    {
      kernel, nonBlocking := [], true;
      this.schedule, this.coming, this.arrivals := schedule, coming, arrivals;
    }

    /** How many bytes the next call moves out of `wanted`; None is EINTR. */
    method SystemCall(wanted: nat) returns (rc: Option<nat>)
      requires wanted > 0
      modifies this`schedule
      ensures rc.Some? ==> 0 < rc.value <= wanted
      ensures rc == None ==> |schedule| < |old(schedule)|
      ensures |schedule| <= |old(schedule)|
    {
      if schedule == [] {
        return Some(wanted);
      }
      var outcome := schedule[0];
      schedule := schedule[1..];
      match outcome {
        case Eintr => rc := None;
        case Moved(most) => rc := Some(Min(most, wanted - 1) + 1);
      }
    }

    /** A write of another thread. */
    method ArriveOne()
      requires coming != []
      modifies this`kernel, this`coming
      ensures kernel == old(kernel) + old(coming)[0] && coming == old(coming)[1..]
    {
      kernel := kernel + coming[0];
      coming := coming[1..];
    }

    /** A moment in which others write. */
    method Arrive() returns (ghost k: nat)
      modifies this`kernel, this`coming, this`arrivals
      ensures k <= |old(coming)| && coming == old(coming)[k..] && kernel == old(kernel) + Flat(old(coming)[..k])
    {
      var most := if arrivals == [] then 0 else arrivals[0];
      arrivals := if arrivals == [] then [] else arrivals[1..];
      k := 0;
      var i := 0;
      while i < most && coming != []
        invariant k <= |old(coming)| && coming == old(coming)[k..]
        invariant kernel == old(kernel) + Flat(old(coming)[..k])
        decreases |coming|
      {
        FlatNext(old(coming), k);
        Rejoined(old(kernel), Flat(old(coming)[..k]), coming[0]);
        ArriveOne();
        i, k := i + 1, k + 1;
      }
    }

    method WriteAll(buffer: seq<byte>)
      modifies this`kernel, this`schedule
      ensures kernel == old(kernel) + buffer
    {
      var written := 0;
      while written < |buffer|
        invariant written <= |buffer|
        invariant kernel == old(kernel) + buffer[..written]
        decreases |buffer| - written, |schedule|
      {
        var rc := SystemCall(|buffer| - written);
        if rc == None {
          continue;
        }
        kernel := kernel + buffer[written..written + rc.value];
        assert buffer[..written + rc.value] == buffer[..written] + buffer[written..written + rc.value];
        written := written + rc.value;
      }
      assert buffer[..written] == buffer;
    }

    /** Pipe::write: under the mutex, which keeps others from writing, the length and then the payload. */
    method Write(payload: Payload)
      modifies this`kernel, this`schedule
      ensures kernel == old(kernel) + Frame(payload)
    {
      WriteAll(Header(|payload|));
      WriteAll(payload);
    }

    /**
     Read exactly `n` bytes, waiting for those that are not there yet, as only a blocking descriptor does; `k`
     writes of others happen meanwhile.
     */
    method ReadAll(n: nat) returns (buffer: seq<byte>, ghost k: nat)
      requires n <= |kernel| + |Flat(coming)| && !nonBlocking
      modifies this`kernel, this`coming, this`schedule
      ensures k <= |old(coming)| && coming == old(coming)[k..]
      ensures var stream := old(kernel) + Flat(old(coming)[..k]);
              n <= |stream| && buffer == stream[..n] && kernel == stream[n..]
    {
      buffer, k := [], 0;
      ghost var stream := kernel;
      while |buffer| < n
        invariant k <= |old(coming)| && coming == old(coming)[k..]
        invariant stream == old(kernel) + Flat(old(coming)[..k])
        invariant |buffer| <= n && |buffer| <= |stream|
        invariant buffer == stream[..|buffer|] && kernel == stream[|buffer|..]
        decreases n - |buffer|, |coming|, |schedule|
      {
        if kernel == [] {
          FlatSplit(old(coming), k);
          assert coming != [] by { assert |stream| == |buffer|; }
          FlatNext(old(coming), k);
          stream := stream + coming[0];
          ArriveOne();
          k := k + 1;
          continue;
        }
        var rc := SystemCall(n - |buffer|);
        if rc == None {
          continue;
        }
        var most := Min(rc.value, |kernel|);
        buffer := buffer + kernel[..most];
        kernel := kernel[most..];
      }
    }

    /**
     Pipe::read: from an empty pipe nothing, and no wait; otherwise the payload of the first frame, waiting
     for what is not there yet of it.
     */
    method Read() returns (r: Option<seq<byte>>, ghost k: nat)
      requires kernel != [] ==> |kernel| >= 4 && |kernel| + |Flat(coming)| >= 4 + Value(kernel[..4])
      requires kernel == [] ==> nonBlocking
      modifies this
      ensures k <= |old(coming)| && coming == old(coming)[k..]
      ensures old(kernel) == [] ==> r == None && kernel == [] && k == 0
      ensures old(kernel) != [] ==>
                var n, stream := Value(old(kernel)[..4]), old(kernel) + Flat(old(coming)[..k]);
                |stream| >= 4 + n && r == Some(stream[4..4 + n]) && kernel == stream[4 + n..]
      ensures nonBlocking == old(nonBlocking)
    {
      k := 0;
      if kernel == [] {
        return None, 0;
      }
      var header := ReadHeader();
      var oldFlag := nonBlocking;
      if oldFlag {
        nonBlocking := false;
      }
      var payload;
      payload, k := ReadAll(Value(header));
      ghost var stream := old(kernel) + Flat(old(coming)[..k]);
      ghost var n := Value(header);
      assert stream[4..] == old(kernel)[4..] + Flat(old(coming)[..k]);
      assert stream[4..][..n] == stream[4..4 + n] && stream[4..][n..] == stream[4 + n..];
      if oldFlag {
        nonBlocking := true;
      }
      r := Some(payload);
    }

    /** The four bytes of a header that is there. */
    method ReadHeader() returns (header: seq<byte>)
      requires |kernel| >= 4
      modifies this`kernel, this`schedule
      ensures header == old(kernel)[..4] && kernel == old(kernel)[4..] && |header| == 4
    {
      header := [];
      while |header| < 4
        invariant |header| <= 4 && header == old(kernel)[..|header|] && kernel == old(kernel)[|header|..]
        decreases 4 - |header|, |schedule|
      {
        var rc := SystemCall(4 - |header|);
        if rc == None {
          continue;
        }
        header := header + kernel[..rc.value];
        kernel := kernel[rc.value..];
      }
    }

    /** What one call writes is read after the frames that were waiting, whatever others write meanwhile. */
    method WriteThenRead(payload: Payload, ghost waiting: seq<Payload>) returns (r: Option<seq<byte>>, ghost k: nat)
      requires kernel == Frames(waiting)
      modifies this
      ensures k <= |old(coming)| && coming == old(coming)[k..]
      ensures var frames := waiting + [payload];
              r == Some(frames[0]) && kernel == Frames(frames[1..]) + Flat(old(coming)[..k])
    {
      hide Frames, Value;
      ghost var frames := waiting + [payload];
      FramesAppend(waiting, payload);
      Write(payload);
      FirstOf(frames);
      ghost var bytes, n := kernel, 4 + |frames[0]|;
      r, k := Read();
      ghost var more := Flat(old(coming)[..k]);
      assert (bytes + more)[4..n] == bytes[4..n] && (bytes + more)[n..] == bytes[n..] + more;
    }
  }

  /** With whole frames in the pipe, the first bytes are the header and the payload of the first. */
  lemma FirstOf(frames: seq<Payload>)
    requires frames != []
    ensures var bytes := Frames(frames);
            && |bytes| >= 4 && Value(bytes[..4]) == |frames[0]| && |bytes| >= 4 + |frames[0]|
            && bytes[4..4 + |frames[0]|] == frames[0] && bytes[4 + |frames[0]|..] == Frames(frames[1..])
  {
    var bytes, first, more := Frames(frames), frames[0], Frames(frames[1..]);
    assert bytes == Header(|first|) + first + more;
    assert bytes[..4] == Header(|first|);
    HeaderValue(|first|);
  }

  /** What an interleaved reader finds meets what `Read` asks for: a whole header, and the rest is coming. */
  lemma ReadCanFinish(s: State)
    requires Inv(s) && s.reading == InHeader([]) && s.stream != []
    ensures |s.stream| >= 4 && |s.stream| + |Unsent(s.writing)| >= 4 + Value(s.stream[..4])
  {
    hide Frames, Value;
    HeaderComplete(s);
    var all := s.stream + Unsent(s.writing);
    assert Partial(s.reading) + all == all == Frames(Undelivered(s));
    FramesNonEmpty(Undelivered(s));
    FirstOf(Undelivered(s));
    assert all[..4] == s.stream[..4];
  }
}
