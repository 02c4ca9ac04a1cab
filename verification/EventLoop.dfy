/**
 The loop of the bus dispatcher over its pipes, while other threads write into them: in every iteration
 each pipe gives up at most one frame, so that no pipe starves the others, and a frame without payload
 never reaches a handler.
 */
module EventLoop {
  import opened Framing
  import opened Wrappers

  /** One call of a pipe's handler. */
  datatype HandlerCall = HandlerCall(pipe: nat, payload: seq<byte>)

  // ---------- one pipe ----------

  /** So many bytes of the frames can stand in a pipe: no header is there in part. */
  predicate Cut(len: nat, frames: seq<Payload>) {
    len == 0
    || (frames != [] && len >= 4
        && (len >= 4 + |frames[0]| ==> Cut(len - 4 - |frames[0]|, frames[1..])))
  }

  /** The frames are what the pipe holds together with what others will still write into it. */
  ghost predicate Holds(kernel: seq<byte>, coming: seq<seq<byte>>, frames: seq<Payload>) {
    && kernel + Flat(coming) == Frames(frames)
    && forall k :: 0 <= k <= |coming| ==> Cut(|kernel| + |Flat(coming[..k])|, frames)
  }

  /** How many of the frames have begun to arrive once so many bytes are there. */
  function Begun(len: nat, frames: seq<Payload>): (n: nat)
    ensures n <= |frames|
    ensures n == 0 <==> len == 0 || frames == []
  {
    if len == 0 || frames == [] then 0
    else 1 + Begun(if len < 4 + |frames[0]| then 0 else len - 4 - |frames[0]|, frames[1..])
  }

  /** So many as are there as a whole, and one more when a part of it is. */
  lemma {:induction false} BegunAt(init: seq<Payload>, x: nat, rest: seq<Payload>)
    requires x == 0 || (rest != [] && x <= 4 + |rest[0]|)
    ensures Begun(|Frames(init)| + x, init + rest) == |init| + if x > 0 then 1 else 0
    decreases |init|
  {
    if init == [] {
      assert init + rest == rest;
    } else {
      assert (init + rest)[1..] == init[1..] + rest;
      BegunAt(init[1..], x, rest);
    }
  }

  lemma {:induction false} BegunGrows(len: nat, more: nat, frames: seq<Payload>)
    requires len <= more
    ensures Begun(len, frames) <= Begun(more, frames)
    decreases |frames|
  {
    if len > 0 && frames != [] {
      var n := 4 + |frames[0]|;
      BegunGrows(if len < n then 0 else len - n, if more < n then 0 else more - n, frames[1..]);
    }
  }

  lemma LaterChunks(coming: seq<seq<byte>>, k: nat, j: nat)
    requires k + j <= |coming|
    ensures Flat(coming[..k + j]) == Flat(coming[..k]) + Flat(coming[k..][..j])
  {
    FlatSplit(coming[..k + j], k);
    assert coming[..k + j][..k] == coming[..k] && coming[..k + j][k..] == coming[k..][..j];
  }

  /** Writes of others leave the frames of the pipe what they are. */
  lemma ArrivalKeeps(kernel: seq<byte>, coming: seq<seq<byte>>, k: nat, frames: seq<Payload>)
    requires Holds(kernel, coming, frames) && k <= |coming|
    ensures Holds(kernel + Flat(coming[..k]), coming[k..], frames)
  {
    hide Cut, Frames, Flat;
    var now, later := kernel + Flat(coming[..k]), coming[k..];
    FlatSplit(coming, k);
    assert now + Flat(later) == kernel + (Flat(coming[..k]) + Flat(later));
    forall j | 0 <= j <= |later|
      ensures Cut(|now| + |Flat(later[..j])|, frames)
    {
      LaterChunks(coming, k, j);
    }
  }

  lemma WholeHeader(kernel: seq<byte>, coming: seq<seq<byte>>, frames: seq<Payload>)
    requires Holds(kernel, coming, frames) && kernel != []
    ensures frames != [] && |kernel| >= 4 && Value(kernel[..4]) == |frames[0]|
    ensures |kernel| + |Flat(coming)| >= 4 + |frames[0]|
  {
    hide Frames, Value;
    assert coming[..0] == [];
    assert Cut(|kernel| + |Flat(coming[..0])|, frames);
    FirstOf(frames);
    assert (kernel + Flat(coming))[..4] == kernel[..4];
  }

  /** Reading takes the first frame away, whatever others write while it waits for the payload. */
  lemma ReadTakes(kernel: seq<byte>, coming: seq<seq<byte>>, k: nat, frames: seq<Payload>)
    requires Holds(kernel, coming, frames) && kernel != [] && k <= |coming| && frames != []
    requires |kernel| + |Flat(coming[..k])| >= 4 + |frames[0]|
    ensures var stream, n := kernel + Flat(coming[..k]), 4 + |frames[0]|;
            && stream[4..n] == frames[0]
            && Holds(stream[n..], coming[k..], frames[1..])
            && Begun(|kernel|, frames) <= 1 + Begun(|stream[n..]|, frames[1..])
  {
    hide Frames, Value, Flat;
    var stream, n := kernel + Flat(coming[..k]), 4 + |frames[0]|;
    ArrivalKeeps(kernel, coming, k, frames);
    var all, later := stream + Flat(coming[k..]), coming[k..];
    FirstOf(frames);
    assert stream[4..n] == all[4..n] && stream[n..] + Flat(later) == all[n..];
    forall j | 0 <= j <= |later|
      ensures Cut(|stream[n..]| + |Flat(later[..j])|, frames[1..])
    {
      assert Cut(|stream| + |Flat(later[..j])|, frames);
    }
    BegunGrows(if |kernel| < n then 0 else |kernel| - n, |stream[n..]|, frames[1..]);
  }

  // ---------- what writers bring about ----------

  predicate Writes(step: Step) {
    step.Lock? || step.WriteHeader? || step.WriteSome? || step.Unlock? || step.Interrupted?
  }

  ghost predicate WritersRun(s: State, steps: seq<Step>)
    decreases |steps|
  {
    steps == [] || (Writes(steps[0]) && Enabled(s, steps[0]) && WritersRun(Apply(s, steps[0]), steps[1..]))
  }

  ghost function AfterWriters(s: State, steps: seq<Step>): State
    requires WritersRun(s, steps)
    decreases |steps|
  {
    if steps == [] then s else AfterWriters(Apply(s, steps[0]), steps[1..])
  }

  /** What a step puts into the pipe, if it is a system call that writes. */
  function Written(s: State, step: Step): seq<seq<byte>>
    requires Enabled(s, step)
  {
    match step
    case WriteHeader => [Header(|s.writing.p|)]
    case WriteSome(k) => [s.writing.p[s.writing.sent..s.writing.sent + k]]
    case _ => []
  }

  ghost function SystemCalls(s: State, steps: seq<Step>): seq<seq<byte>>
    requires WritersRun(s, steps)
    decreases |steps|
  {
    if steps == [] then [] else Written(s, steps[0]) + SystemCalls(Apply(s, steps[0]), steps[1..])
  }

  lemma {:induction false} CutAt(init: seq<Payload>, x: nat, rest: seq<Payload>)
    requires x == 0 || (rest != [] && 4 <= x <= 4 + |rest[0]|)
    ensures Cut(|Frames(init)| + x, init + rest)
    decreases |init|
  {
    if init == [] {
      assert init + rest == rest;
    } else {
      assert (init + rest)[1..] == init[1..] + rest;
      CutAt(init[1..], x, rest);
    }
  }

  /** Between two reads, the header of a frame is in the pipe as a whole or not at all. */
  lemma CutNow(s: State, more: seq<Payload>)
    requires Inv(s) && s.reading == InHeader([])
    ensures Cut(|s.stream|, Undelivered(s) + more)
  {
    var frames := Undelivered(s);
    AllThere(s);
    FramesNonEmpty(frames);
    hide Frames, Inv, Value;
    if frames == [] {
      assert |s.stream| == 0;
    } else if s.writing.Unlocked? {
      hide Cut;
      CutAt(frames, 0, more);
    } else {
      hide Cut;
      LastFrame(s);
      var p, init := s.writing.p, frames[..|frames| - 1];
      assert init + ([p] + more) == frames + more;
      CutAt(init, if s.writing.AtHeader? then 0 else 4 + s.writing.sent, [p] + more);
    }
  }

  lemma AllThere(s: State)
    requires Inv(s) && s.reading == InHeader([])
    ensures s.stream + Unsent(s.writing) == Frames(Undelivered(s))
    ensures s.writing.Unlocked? || Undelivered(s) == [] ==> |s.stream| == |Frames(Undelivered(s))|
  {
    hide Frames;
    assert Partial(s.reading) + (s.stream + Unsent(s.writing)) == s.stream + Unsent(s.writing);
    FramesNonEmpty(Undelivered(s));
  }

  lemma LastWritten(s: State)
    requires Inv(s) && !s.writing.Unlocked? && Undelivered(s) != []
    ensures Undelivered(s)[|Undelivered(s)| - 1] == s.writing.p
    ensures s.writing.AtPayload? ==> s.writing.sent <= |s.writing.p|
  {
    hide Frames, Header, Value;
  }

  lemma LastFrame(s: State)
    requires Inv(s) && s.reading == InHeader([]) && !s.writing.Unlocked? && Undelivered(s) != []
    ensures var frames := Undelivered(s);
            && frames[|frames| - 1] == s.writing.p
            && (s.writing.AtPayload? ==> s.writing.sent <= |s.writing.p|)
            && |s.stream| == |Frames(frames[..|frames| - 1])|
                             + (if s.writing.AtHeader? then 0 else 4 + s.writing.sent)
  {
    var frames, p := Undelivered(s), s.writing.p;
    var init := frames[..|frames| - 1];
    AllThere(s);
    LastWritten(s);
    hide Frames, Header, Value, Inv;
    assert frames == init + [p];
    FramesAppend(init, p);
    assert |Frame(p)| == 4 + |p|;
    assert |Frames(frames)| == |Frames(init)| + |Frame(p)| && |s.stream| + |Unsent(s.writing)| == |Frames(frames)|;
  }

  lemma WriterKeepsReader(s: State, step: Step)
    requires Inv(s) && Enabled(s, step) && Writes(step)
    ensures Inv(Apply(s, step)) && Apply(s, step).reading == s.reading && Apply(s, step).delivered == s.delivered
    ensures s.written <= Apply(s, step).written
    ensures Written(s, step) == [] ==> Apply(s, step).stream == s.stream
    ensures Written(s, step) != [] ==>
              Written(s, step) == [Written(s, step)[0]] && Apply(s, step).stream == s.stream + Written(s, step)[0]
  {
    StepKeeps(s, step);
  }

  lemma FirstStep(s: State, steps: seq<Step>)
    requires steps != [] && WritersRun(s, steps)
    ensures Writes(steps[0]) && Enabled(s, steps[0]) && WritersRun(Apply(s, steps[0]), steps[1..])
    ensures AfterWriters(s, steps) == AfterWriters(Apply(s, steps[0]), steps[1..])
    ensures SystemCalls(s, steps) == Written(s, steps[0]) + SystemCalls(Apply(s, steps[0]), steps[1..])
  {
    hide Enabled, Apply, Written;
  }

  /** One step more at the front. */
  lemma StepHolds(s: State, step: Step, coming: seq<seq<byte>>, t: State)
    requires Inv(s) && s.reading == InHeader([]) && Enabled(s, step) && Writes(step)
    requires s.delivered == t.delivered && s.delivered <= s.written <= t.written
    requires Holds(Apply(s, step).stream, coming, Undelivered(t))
    ensures Holds(s.stream, Written(s, step) + coming, Undelivered(t))
  {
    CutNow(s, t.written[|s.written|..]);
    assert Undelivered(s) + t.written[|s.written|..] == Undelivered(t);
    WriterKeepsReader(s, step);
    var chunk := Written(s, step);
    hide Cut, Frames, Flat, Holds, Inv, Apply, Enabled, Written, Undelivered;
    if chunk == [] {
      assert chunk + coming == coming;
    } else {
      OneEarlier(s.stream, chunk[0], coming, Undelivered(t));
    }
  }

  /** However writers split their payloads into system calls, a reader finds what `Holds` says. */
  lemma {:induction false} WritersHold(s: State, steps: seq<Step>)
    requires Inv(s) && s.reading == InHeader([]) && WritersRun(s, steps) && AfterWriters(s, steps).writing.Unlocked?
    ensures var t := AfterWriters(s, steps);
            s.delivered == t.delivered && s.delivered <= s.written <= t.written
            && Holds(s.stream, SystemCalls(s, steps), Undelivered(t))
    decreases |steps|
  {
    assert s.delivered <= s.written;
    if steps == [] {
      CutNow(s, []);
      StreamWhole(s);
    } else {
      hide Cut, Holds, Inv, Apply, Enabled, Written, WritersRun, AfterWriters, SystemCalls;
      FirstStep(s, steps);
      WriterKeepsReader(s, steps[0]);
      var next := Apply(s, steps[0]);
      WritersHold(next, steps[1..]);
      StepHolds(s, steps[0], SystemCalls(next, steps[1..]), AfterWriters(s, steps));
    }
  }

  lemma StreamWhole(s: State)
    requires Inv(s) && s.reading == InHeader([]) && s.writing.Unlocked?
    requires Cut(|s.stream|, Undelivered(s) + [])
    ensures Holds(s.stream, [], Undelivered(s))
  {
    hide Cut, Frames;
    AllThere(s);
    assert Undelivered(s) + [] == Undelivered(s) && s.stream + [] == s.stream;
  }

  lemma FlatFirst(chunk: seq<byte>, more: seq<seq<byte>>)
    ensures Flat([chunk] + more) == chunk + Flat(more)
  {
    assert ([chunk] + more)[1..] == more;
  }

  lemma OneEarlier(kernel: seq<byte>, c: seq<byte>, coming: seq<seq<byte>>, frames: seq<Payload>)
    requires Holds(kernel + c, coming, frames) && Cut(|kernel|, frames)
    ensures Holds(kernel, [c] + coming, frames)
  {
    FlatFirst(c, coming);
    hide Cut, Frames, Flat;
    assert kernel + (c + Flat(coming)) == (kernel + c) + Flat(coming);
    forall k | 0 <= k <= |[c] + coming|
      ensures Cut(|kernel| + |Flat(([c] + coming)[..k])|, frames)
    {
      CutsEarlier(kernel, c, coming, frames, k);
    }
  }

  lemma CutsEarlier(kernel: seq<byte>, c: seq<byte>, coming: seq<seq<byte>>, frames: seq<Payload>, k: nat)
    requires Holds(kernel + c, coming, frames) && Cut(|kernel|, frames) && k <= |coming| + 1
    ensures Cut(|kernel| + |Flat(([c] + coming)[..k])|, frames)
  {
    var all := [c] + coming;
    hide Cut, Frames;
    if k == 0 {
      assert all[..k] == [];
    } else {
      assert all[..k] == [c] + coming[..k - 1];
      FlatFirst(c, coming[..k - 1]);
      assert Cut(|kernel + c| + |Flat(coming[..k - 1])|, frames);
    }
  }

  // ---------- all pipes ----------

  function Rest(frames: seq<Payload>, ready: bool): seq<Payload> {
    if ready && frames != [] then frames[1..] else frames
  }

  /** What a read of this pipe makes its handler hear. */
  function Heard(pipe: nat, frames: seq<Payload>, ready: bool): seq<HandlerCall> {
    if ready && frames != [] && frames[0] != [] then [HandlerCall(pipe, frames[0])] else []
  }

  /**
   A pipe that held so many bytes of these frames before its turn holds the rest now. It gave up a frame
   if one had begun to arrive.
   */
  ghost predicate Turned(len: nat, kernel: seq<byte>, coming: seq<seq<byte>>, frames: seq<Payload>, ready: bool) {
    && (ready ==> frames != [])
    && Holds(kernel, coming, Rest(frames, ready))
    && Begun(len, frames) <= if ready then 1 + Begun(|kernel|, Rest(frames, ready)) else 0
  }

  /** What one iteration makes the handlers hear, when these pipes are not empty as their turns come. */
  function HeardAll(waiting: seq<seq<Payload>>, ready: seq<bool>): seq<HandlerCall>
    requires |ready| == |waiting|
  {
    if waiting == [] then []
    else
      var last := |waiting| - 1;
      HeardAll(waiting[..last], ready[..last]) + Heard(last, waiting[last], ready[last])
  }

  function RestAll(waiting: seq<seq<Payload>>, ready: seq<bool>): (rest: seq<seq<Payload>>)
    requires |ready| == |waiting|
    ensures |rest| == |waiting|
  {
    seq(|waiting|, i requires 0 <= i < |waiting| => Rest(waiting[i], ready[i]))
  }

  predicate OfLength(turns: seq<seq<bool>>, n: nat) {
    forall i :: 0 <= i < |turns| ==> |turns[i]| == n
  }

  /** Any number of iterations. */
  function HeardIn(turns: seq<seq<bool>>, waiting: seq<seq<Payload>>): seq<HandlerCall>
    requires OfLength(turns, |waiting|)
  {
    if turns == [] then []
    else HeardAll(waiting, turns[0]) + HeardIn(turns[1..], RestAll(waiting, turns[0]))
  }

  function RestIn(turns: seq<seq<bool>>, waiting: seq<seq<Payload>>): (rest: seq<seq<Payload>>)
    requires OfLength(turns, |waiting|)
    ensures |rest| == |waiting|
  {
    if turns == [] then waiting else RestIn(turns[1..], RestAll(waiting, turns[0]))
  }

  /** How many frames the pipe gave up. */
  function Count(turns: seq<seq<bool>>, pipe: nat): (n: nat)
    requires forall i :: 0 <= i < |turns| ==> pipe < |turns[i]|
    ensures n <= |turns|
  {
    if turns == [] then 0 else (if turns[0][pipe] then 1 else 0) + Count(turns[1..], pipe)
  }

  function OfPipe(calls: seq<HandlerCall>, pipe: nat): seq<seq<byte>> {
    if calls == [] then []
    else (if calls[0].pipe == pipe then [calls[0].payload] else []) + OfPipe(calls[1..], pipe)
  }

  function WithPayload(frames: seq<Payload>): seq<seq<byte>> {
    if frames == [] then [] else (if frames[0] != [] then [frames[0]] else []) + WithPayload(frames[1..])
  }

  lemma {:induction false} OfPipeConcat(a: seq<HandlerCall>, b: seq<HandlerCall>, pipe: nat)
    ensures OfPipe(a + b, pipe) == OfPipe(a, pipe) + OfPipe(b, pipe)
    decreases |a|
  {
    if a == [] {
      assert a + b == b;
    } else {
      assert (a + b)[0] == a[0] && (a + b)[1..] == a[1..] + b;
      OfPipeConcat(a[1..], b, pipe);
    }
  }

  lemma HeardOne(frames: seq<Payload>, ready: bool, i: nat, pipe: nat)
    ensures OfPipe(Heard(i, frames, ready), pipe)
         == if i == pipe && ready && frames != [] && frames[0] != [] then [frames[0]] else []
  {
    var one := Heard(i, frames, ready);
    if one != [] {
      assert one[1..] == [];
    }
  }

  lemma {:induction false} HeardOfPipe(waiting: seq<seq<Payload>>, ready: seq<bool>, pipe: nat)
    requires |ready| == |waiting|
    ensures OfPipe(HeardAll(waiting, ready), pipe)
         == if pipe < |waiting| && ready[pipe] && waiting[pipe] != [] && waiting[pipe][0] != []
            then [waiting[pipe][0]] else []
    decreases |waiting|
  {
    if waiting != [] {
      var last := |waiting| - 1;
      var most, one := HeardAll(waiting[..last], ready[..last]), Heard(last, waiting[last], ready[last]);
      assert HeardAll(waiting, ready) == most + one;
      hide HeardAll, OfPipe, Heard;
      HeardOfPipe(waiting[..last], ready[..last], pipe);
      OfPipeConcat(most, one, pipe);
      HeardOne(waiting[last], ready[last], last, pipe);
    }
  }

  /** In an iteration the handlers hear in the order of the list of pipes. */
  lemma {:induction false} HeardInOrder(waiting: seq<seq<Payload>>, ready: seq<bool>)
    requires |ready| == |waiting|
    ensures forall i :: 0 <= i < |HeardAll(waiting, ready)| ==> HeardAll(waiting, ready)[i].pipe < |waiting|
    ensures forall i, j :: 0 <= i < j < |HeardAll(waiting, ready)| ==>
              HeardAll(waiting, ready)[i].pipe < HeardAll(waiting, ready)[j].pipe
    decreases |waiting|
  {
    if waiting != [] {
      var last := |waiting| - 1;
      var most, one := HeardAll(waiting[..last], ready[..last]), Heard(last, waiting[last], ready[last]);
      assert HeardAll(waiting, ready) == most + one;
      assert |one| <= 1 && forall i | 0 <= i < |one| :: one[i].pipe == last;
      hide HeardAll, Heard;
      HeardInOrder(waiting[..last], ready[..last]);
    }
  }

  lemma Turns(turns: seq<seq<bool>>, waiting: seq<seq<Payload>>)
    requires turns != [] && OfLength(turns, |waiting|)
    ensures OfLength(turns[1..], |waiting|)
    ensures var left := RestAll(waiting, turns[0]);
            && HeardIn(turns, waiting) == HeardAll(waiting, turns[0]) + HeardIn(turns[1..], left)
            && RestIn(turns, waiting) == RestIn(turns[1..], left)
  {
  }

  /** One iteration: what this pipe's handler hears. */
  lemma FirstShare(waiting: seq<seq<Payload>>, ready: seq<bool>, pipe: nat)
    requires |ready| == |waiting| && pipe < |waiting| && (ready[pipe] ==> waiting[pipe] != [])
    ensures OfPipe(HeardAll(waiting, ready), pipe) == if ready[pipe] then WithPayload(waiting[pipe][..1]) else []
  {
    HeardOfPipe(waiting, ready, pipe);
    hide HeardAll, OfPipe, WithPayload;
    if ready[pipe] {
      OnePayload(waiting[pipe][0]);
      assert waiting[pipe][..1] == [waiting[pipe][0]];
    }
  }

  lemma OnePayload(p: Payload)
    ensures WithPayload([p]) == if p != [] then [p] else []
  {
    assert [p][1..] == [];
  }

  lemma FirstGone(frames: seq<Payload>, n: nat)
    requires 0 < n <= |frames|
    ensures WithPayload(frames[..n]) == WithPayload(frames[..1]) + WithPayload(frames[1..][..n - 1])
    ensures frames[n..] == frames[1..][n - 1..]
  {
    OnePayload(frames[0]);
    assert frames[..1] == [frames[0]] && frames[..n][1..] == frames[1..][..n - 1];
  }

  /** A pipe that gave up n frames made its handler hear its first n frames, in order, but for the empty ones. */
  lemma {:induction false} FairShare(turns: seq<seq<bool>>, waiting: seq<seq<Payload>>, pipe: nat)
    requires OfLength(turns, |waiting|) && pipe < |waiting| && Count(turns, pipe) <= |waiting[pipe]|
    ensures OfPipe(HeardIn(turns, waiting), pipe) == WithPayload(waiting[pipe][..Count(turns, pipe)])
    ensures RestIn(turns, waiting)[pipe] == waiting[pipe][Count(turns, pipe)..]
    decreases |turns|
  {
    if turns != [] {
      var left := RestAll(waiting, turns[0]);
      Turns(turns, waiting);
      hide HeardAll, HeardIn, RestIn, OfPipe, WithPayload;
      FairShare(turns[1..], left, pipe);
      OfPipeConcat(HeardAll(waiting, turns[0]), HeardIn(turns[1..], left), pipe);
      FirstShare(waiting, turns[0], pipe);
      if turns[0][pipe] {
        FirstGone(waiting[pipe], Count(turns, pipe));
      }
    }
  }

  lemma HeardNext(waiting: seq<seq<Payload>>, ready: seq<bool>, i: nat, next: bool)
    requires i < |waiting| && |ready| == i
    ensures HeardAll(waiting[..i + 1], ready + [next]) == HeardAll(waiting[..i], ready) + Heard(i, waiting[i], next)
  {
    assert waiting[..i + 1][..i] == waiting[..i] && (ready + [next])[..i] == ready;
  }

  lemma TurnedHolds(len: nat, kernel: seq<byte>, coming: seq<seq<byte>>, frames: seq<Payload>, ready: bool)
    requires Turned(len, kernel, coming, frames, ready)
    ensures Holds(kernel, coming, Rest(frames, ready))
  {
  }

  lemma HeardNone(waiting: seq<seq<Payload>>)
    ensures HeardAll(waiting[..0], []) == []
  {
  }

  lemma NoTurns(waiting: seq<seq<Payload>>)
    ensures HeardIn([], waiting) == [] && RestIn([], waiting) == waiting
  {
  }

  /** The frames given up so far and those still due make up the frames due at the start. */
  ghost predicate Due(first: nat, len: nat, n: nat, turns: seq<seq<bool>>, waiting: seq<seq<Payload>>, pipe: nat)
    requires OfLength(turns, |waiting|) && pipe < |waiting| && |turns| <= n
  {
    var left := RestIn(turns, waiting)[pipe];
    && Count(turns, pipe) + |left| == |waiting[pipe]|
    && Min(n, Begun(first, waiting[pipe])) <= Count(turns, pipe) + Min(n - |turns|, Begun(len, left))
  }

  lemma StillDue(first: nat, len: nat, kernel: seq<byte>, coming: seq<seq<byte>>, n: nat,
                 turns: seq<seq<bool>>, ready: seq<bool>, waiting: seq<seq<Payload>>, pipe: nat)
    requires OfLength(turns, |waiting|) && pipe < |waiting| == |ready| && |turns| < n
    requires Due(first, len, n, turns, waiting, pipe)
    requires Turned(len, kernel, coming, RestIn(turns, waiting)[pipe], ready[pipe])
    ensures Due(first, |kernel|, n, turns + [ready], waiting, pipe)
  {
    hide Begun, Holds, Count, RestIn, HeardIn, HeardAll;
    CountLast(turns, ready, pipe);
    HeardLast(turns, waiting, ready);
  }

  lemma Grouped(a: seq<HandlerCall>, b: seq<HandlerCall>, c: seq<HandlerCall>)
    ensures (a + b) + c == a + (b + c)
  {
  }

  lemma {:induction false} HeardLast(turns: seq<seq<bool>>, waiting: seq<seq<Payload>>, ready: seq<bool>)
    requires OfLength(turns, |waiting|) && |ready| == |waiting|
    ensures HeardIn(turns + [ready], waiting) == HeardIn(turns, waiting) + HeardAll(RestIn(turns, waiting), ready)
    ensures RestIn(turns + [ready], waiting) == RestAll(RestIn(turns, waiting), ready)
    decreases |turns|
  {
    hide HeardAll, RestAll;
    var all := turns + [ready];
    if turns == [] {
      assert all[1..] == [];
    } else {
      assert all[1..] == turns[1..] + [ready];
      HeardLast(turns[1..], RestAll(waiting, turns[0]), ready);
    }
  }

  lemma {:induction false} CountLast(turns: seq<seq<bool>>, ready: seq<bool>, pipe: nat)
    requires pipe < |ready| && forall i :: 0 <= i < |turns| ==> pipe < |turns[i]|
    ensures Count(turns + [ready], pipe) == Count(turns, pipe) + if ready[pipe] then 1 else 0
    decreases |turns|
  {
    var all := turns + [ready];
    if turns == [] {
      assert all[1..] == [];
    } else {
      assert all[1..] == turns[1..] + [ready];
      CountLast(turns[1..], ready, pipe);
    }
  }

  class BusDispatcher {
    var pipes: seq<Pipe>             // pipe_list
    var handled: seq<HandlerCall>    // the calls of the pipes' handlers

    constructor ()
      ensures pipes == [] && handled == []
    {
      pipes, handled := [], [];
    }

    /** Of each pipe, the frames that it holds or will hold. */
    ghost predicate Waiting(waiting: seq<seq<Payload>>)
      reads this, pipes
    {
      && |waiting| == |pipes|
      && (forall i, j :: 0 <= i < j < |pipes| ==> pipes[i] != pipes[j])
      && forall i :: 0 <= i < |pipes| ==>
           pipes[i].nonBlocking && Holds(pipes[i].kernel, pipes[i].coming, waiting[i])
    }

    method AddPipe(pipe: Pipe, ghost waiting: seq<seq<Payload>>, ghost frames: seq<Payload>)
      requires Waiting(waiting) && pipe !in pipes && pipe.nonBlocking && Holds(pipe.kernel, pipe.coming, frames)
      modifies this`pipes
      ensures pipes == old(pipes) + [pipe] && Waiting(waiting + [frames])
    {
      pipes := pipes + [pipe];
    }

    /** The loop over the pipes in `enter`. */
    method Iteration(ghost waiting: seq<seq<Payload>>) returns (ghost ready: seq<bool>)
      requires Waiting(waiting)
      modifies this`handled, pipes
      ensures |ready| == |waiting| == |pipes| && Waiting(RestAll(waiting, ready))
      ensures handled == old(handled) + HeardAll(waiting, ready)
      ensures forall i :: 0 <= i < |pipes| ==>
                Turned(old(|pipes[i].kernel|), pipes[i].kernel, pipes[i].coming, waiting[i], ready[i])
    {
      hide Turned, Holds, Heard, HeardAll, Rest;
      ready := [];
      HeardNone(waiting);
      for i := 0 to |pipes|
        invariant |ready| == i && forall j :: 0 <= j < |pipes| ==> pipes[j].nonBlocking
        invariant forall j :: 0 <= j < i ==>
                    Turned(old(|pipes[j].kernel|), pipes[j].kernel, pipes[j].coming, waiting[j], ready[j])
        invariant forall j :: i <= j < |pipes| ==>
                    pipes[j].kernel == old(pipes[j].kernel) && pipes[j].coming == old(pipes[j].coming)
        invariant handled == old(handled) + HeardAll(waiting[..i], ready)
      {
        var isReady := Turn(i, waiting[i]);
        HeardNext(waiting, ready, i, isReady);
        Grouped(old(handled), HeardAll(waiting[..i], ready), Heard(i, waiting[i], isReady));
        ready := ready + [isReady];
      }
      assert waiting[..|pipes|] == waiting;
      forall i | 0 <= i < |pipes|
        ensures Holds(pipes[i].kernel, pipes[i].coming, RestAll(waiting, ready)[i])
      {
        TurnedHolds(old(|pipes[i].kernel|), pipes[i].kernel, pipes[i].coming, waiting[i], ready[i]);
      }
    }

    /** The turn of one pipe. */
    method Turn(i: nat, ghost frames: seq<Payload>) returns (ghost ready: bool)
      requires i < |pipes| && pipes[i].nonBlocking && Holds(pipes[i].kernel, pipes[i].coming, frames)
      modifies this`handled, pipes[i]
      ensures pipes[i].nonBlocking
      ensures handled == old(handled) + Heard(i, frames, ready)
      ensures Turned(old(|pipes[i].kernel|), pipes[i].kernel, pipes[i].coming, frames, ready)
    {
      hide Holds, Heard;
      var payload;
      payload, ready := TakeOne(pipes[i], frames);
      CallHandler(i, payload, frames, ready);
    }

    method CallHandler(i: nat, payload: Option<seq<byte>>, ghost frames: seq<Payload>, ghost ready: bool)
      requires ready ==> frames != []
      requires payload == if ready then Some(frames[0]) else None
      modifies this`handled
      ensures handled == old(handled) + Heard(i, frames, ready)
    {
      if payload.Some? && |payload.value| > 0 {
        handled := handled + [HandlerCall(i, payload.value)];
      }
    }

    /** Others may have written before the read, and may write while the payload is read. */
    method TakeOne(pipe: Pipe, ghost frames: seq<Payload>) returns (payload: Option<seq<byte>>, ghost ready: bool)
      requires Holds(pipe.kernel, pipe.coming, frames) && pipe.nonBlocking
      modifies pipe
      ensures pipe.nonBlocking
      ensures payload == if ready && frames != [] then Some(frames[0]) else None
      ensures Turned(old(|pipe.kernel|), pipe.kernel, pipe.coming, frames, ready)
    {
      hide Holds;
      var k := pipe.Arrive();
      ArrivalKeeps(old(pipe.kernel), old(pipe.coming), k, frames);
      BegunGrows(old(|pipe.kernel|), |pipe.kernel|, frames);
      ready := pipe.kernel != [];
      ghost var kernel, coming := pipe.kernel, pipe.coming;
      if ready {
        WholeHeader(kernel, coming, frames);
      }
      payload, k := pipe.Read();
      if ready {
        ReadTakes(kernel, coming, k, frames);
      } else {
        assert coming[0..] == coming;
      }
    }

    /**
     `n` iterations of `enter`. In every one each pipe gives up one of the frames that had begun to arrive
     when the loop started, while there are any.
     */
    method Enter(n: nat, ghost waiting: seq<seq<Payload>>) returns (ghost turns: seq<seq<bool>>)
      requires Waiting(waiting)
      modifies this`handled, pipes
      ensures |turns| == n && OfLength(turns, |waiting|) && |waiting| == |pipes|
      ensures handled == old(handled) + HeardIn(turns, waiting)
      ensures Waiting(RestIn(turns, waiting))
      ensures forall i :: 0 <= i < |pipes| ==>
                Min(n, Begun(old(|pipes[i].kernel|), waiting[i])) <= Count(turns, i) <= |waiting[i]|
    {
      hide HeardAll, HeardIn, RestAll, RestIn, Begun, Holds;
      turns := [];
      NoTurns(waiting);
      var done := 0;
      while done < n
        invariant done == |turns| <= n && OfLength(turns, |waiting|)
        invariant handled == old(handled) + HeardIn(turns, waiting)
        invariant Waiting(RestIn(turns, waiting))
        invariant forall i :: 0 <= i < |pipes| ==>
                    Due(old(|pipes[i].kernel|), |pipes[i].kernel|, n, turns, waiting, i)
      {
        ghost var left, before := RestIn(turns, waiting), handled;
        ghost var kernels := seq(|pipes|, i requires 0 <= i < |pipes| reads pipes, this => pipes[i].kernel);
        ghost var ready := Iteration(left);
        HeardLast(turns, waiting, ready);
        Grouped(old(handled), HeardIn(turns, waiting), HeardAll(left, ready));
        forall i | 0 <= i < |pipes|
          ensures Due(old(|pipes[i].kernel|), |pipes[i].kernel|, n, turns + [ready], waiting, i)
        {
          StillDue(old(|pipes[i].kernel|), |kernels[i]|, pipes[i].kernel, pipes[i].coming, n, turns, ready, waiting, i);
        }
        turns := turns + [ready];
        done := done + 1;
      }
    }
  }
}
