/**
 What goes through the piper over a run: requests in the order of their acceptance, every reply with the
 body that the original method returned or the service completed the call with, and every signal once.
 */
module PiperHistory {
  import opened Wire
  import opened Piper
  import opened PiperInvariant
  import opened PiperTheorems

  lemma RunStep(trace: seq<State>, steps: seq<Step>, k: nat)
    requires Run(trace, steps) && k < |steps|
    ensures Enabled(trace[k], steps[k]) && trace[k + 1] == Apply(trace[k], steps[k])
  {
  }

  // ---------- requests ----------

  /** The calls that wait are those accepted last, in their order. */
  ghost predicate Queued(s: State) {
    |s.sh.requests| <= s.accepted
    && forall k :: 0 <= k < |s.sh.requests| ==> s.sh.requests[k].call == s.accepted - |s.sh.requests| + k
  }

  lemma QueuedStep(s: State, step: Step)
    requires Queued(s) && Enabled(s, step)
    ensures Queued(Apply(s, step))
  {
  }

  /** So a worker takes the call that was accepted before all others that wait. */
  lemma {:induction false} RequestsInOrder(trace: seq<State>, steps: seq<Step>, k: nat)
    requires Run(trace, steps) && k < |trace|
    ensures Queued(trace[k])
  {
    if k > 0 {
      RequestsInOrder(trace, steps, k - 1);
      RunStep(trace, steps, k - 1);
      hide Run, Enabled, Apply, Queued;
      QueuedStep(trace[k - 1], steps[k - 1]);
    }
  }

  // ---------- replies ----------

  /** The call is in a thread's hand, in the queue, with the dispatcher or on the bus, with this body. */
  ghost predicate Carries(s: State, c: CallId, body: Body) {
    || InHand(s.hands, c, body)
    || Response(c, body) in s.sh.responses
    || ((s.disp.Popped? || s.disp.Confirmed?) && s.disp.job.call == c && s.disp.body == body)
    || Reply(c, body) in s.sh.bus
  }

  ghost predicate InHand(hands: seq<Hand>, c: CallId, body: Body) {
    exists i :: 0 <= i < |hands| && hands[i].Answering? && hands[i].job.call == c && hands[i].body == body
  }

  lemma CarriesOn(s: State, step: Step, c: CallId, body: Body)
    requires Reachable(s) && Enabled(s, step) && Carries(s, c, body)
    ensures Carries(Apply(s, step), c, body)
  {
    NoEmptyPop(s);
    if s.disp.Popped? || s.disp.Confirmed? {
      TagSafety(s);
    }
    hide Reachable;
    if InHand(s.hands, c, body) {
      HandCarries(s, step, c, body);
    } else if Response(c, body) in s.sh.responses {
      QueueCarries(s, step, c, body);
    } else if Reply(c, body) in s.sh.bus {
      HistoryGrows(s, step);
    } else {
      DispatcherCarries(s, step, c, body);
    }
  }

  lemma HandCarries(s: State, step: Step, c: CallId, body: Body)
    requires Enabled(s, step) && InHand(s.hands, c, body)
    ensures Carries(Apply(s, step), c, body)
  {
    var s' := Apply(s, step);
    var i :| 0 <= i < |s.hands| && s.hands[i].Answering? && s.hands[i].job.call == c && s.hands[i].body == body;
    if step == Submit(i) {
      assert s'.sh.responses[|s.sh.responses|] == Response(c, body);
    } else {
      assert s'.hands[i] == s.hands[i];
    }
  }

  lemma QueueCarries(s: State, step: Step, c: CallId, body: Body)
    requires Enabled(s, step) && Response(c, body) in s.sh.responses
    ensures Carries(Apply(s, step), c, body)
  {
    var s' := Apply(s, step);
    var k :| 0 <= k < |s.sh.responses| && s.sh.responses[k] == Response(c, body);
    if step.PopEntry? && s.disp.frame.TagFrame? && k > 0 {
      assert s'.sh.responses[k - 1] == s.sh.responses[k];
    } else if !step.PopEntry? {
      assert s'.sh.responses[k] == s.sh.responses[k];
    }
  }

  lemma DispatcherCarries(s: State, step: Step, c: CallId, body: Body)
    requires Enabled(s, step) && (s.disp.Popped? || s.disp.Confirmed?)
    requires s.disp.job.call == c && s.disp.body == body
    requires var tag := s.disp.job.tag;
             tag in s.sh.continuations && s.sh.continuations[tag] == c && tag !in s.sh.deferred
    ensures Carries(Apply(s, step), c, body)
  {
    var s' := Apply(s, step);
    if step == Send {
      assert s'.sh.bus[|s.sh.bus|] == Reply(c, body);
    }
  }

  lemma {:induction false} CarriesLater(trace: seq<State>, steps: seq<Step>, k: nat, m: nat, c: CallId, body: Body)
    requires Run(trace, steps) && k <= m < |trace| && Carries(trace[k], c, body)
    ensures Carries(trace[m], c, body)
    decreases m
  {
    if k < m {
      CarriesLater(trace, steps, k, m - 1, c, body);
      RunReaches(trace, steps, m - 1);
      RunStep(trace, steps, m - 1);
      hide Run, Enabled, Apply, Carries, Reachable;
      CarriesOn(trace[m - 1], steps[m - 1], c, body);
    }
  }

  lemma TallyHead(q: seq<Out>, c: CallId)
    requires q != []
    ensures Tally(q, OutCalls)[c] == OutCalls(q[0])[c] + Tally(q[1..], OutCalls)[c]
  {
    hide OutCalls;
  }

  lemma TallyHas(q: seq<Out>, i: nat, c: CallId)
    requires i < |q|
    ensures OutCalls(q[i])[c] <= Tally(q, OutCalls)[c]
  {
    TallyMember(q, i, OutCalls);
    hide OutCalls, Tally;
  }

  /** Two entries of one call count twice. */
  lemma {:induction false} TallyTwo(q: seq<Out>, i: nat, j: nat, c: CallId)
    requires i < j < |q| && OutCalls(q[i])[c] > 0 && OutCalls(q[j])[c] > 0
    ensures Tally(q, OutCalls)[c] >= 2
    decreases |q|
  {
    hide Tally, OutCalls;
    var rest := q[1..];
    TallyHead(q, c);
    assert rest[j - 1] == q[j];
    if i == 0 {
      TallyHas(rest, j - 1, c);
    } else {
      assert rest[i - 1] == q[i];
      TallyTwo(rest, i - 1, j - 1, c);
    }
  }

  lemma OneReply(bus: seq<Out>, c: CallId, body: Body, other: Body)
    requires Reply(c, body) in bus && Reply(c, other) in bus && Tally(bus, OutCalls)[c] <= 1
    ensures other == body
  {
    var i :| 0 <= i < |bus| && bus[i] == Reply(c, body);
    var j :| 0 <= j < |bus| && bus[j] == Reply(c, other);
    if i < j {
      TallyTwo(bus, i, j, c);
    } else if j < i {
      TallyTwo(bus, j, i, c);
    }
  }

  /** A call that is on its way with a body has no reply with another. */
  lemma OneBody(s: State, c: CallId, body: Body, other: Body)
    requires Reachable(s) && Carries(s, c, body) && Reply(c, other) in s.sh.bus
    ensures other == body
  {
    ExactlyOnce(s, c);
    hide Reachable, Tally, Carries, Places;
    if Reply(c, body) in s.sh.bus {
      OneReply(s.sh.bus, c, body, other);
    } else {
      Elsewhere(s, c, body);
      var j :| 0 <= j < |s.sh.bus| && s.sh.bus[j] == Reply(c, other);
      TallyMember(s.sh.bus, j, OutCalls);
    }
  }

  lemma Elsewhere(s: State, c: CallId, body: Body)
    requires Carries(s, c, body) && Reply(c, body) !in s.sh.bus && Places(s, c) <= 1
    ensures Replies(s)[c] == 0
  {
    if InHand(s.hands, c, body) {
      var i :| 0 <= i < |s.hands| && s.hands[i].Answering? && s.hands[i].job.call == c && s.hands[i].body == body;
      TallyMember(s.hands, i, HandCalls);
      assert HandCalls(s.hands[i])[c] == 1;
    } else if Response(c, body) in s.sh.responses {
      var k :| 0 <= k < |s.sh.responses| && s.sh.responses[k] == Response(c, body);
      TallyMember(s.sh.responses, k, ResponseCalls);
      assert ResponseCalls(s.sh.responses[k])[c] == 1;
    }
    hide Tally, Parked;
  }

  /** An answer in a thread's hand is the reply to its call, whenever there is one. */
  lemma HandDelivered(trace: seq<State>, steps: seq<Step>, k: nat, m: nat, i: nat, job: Job, body: Body)
    requires Run(trace, steps) && k <= m < |trace|
    requires IsThread(trace[k], i) && trace[k].hands[i] == Answering(job, body)
    ensures forall other :: Reply(job.call, other) in trace[m].sh.bus ==> other == body
  {
    assert InHand(trace[k].hands, job.call, body);
    hide Run, InHand, Reachable;
    CarriesLater(trace, steps, k, m, job.call, body);
    RunReaches(trace, steps, m);
    forall other | Reply(job.call, other) in trace[m].sh.bus ensures other == body {
      OneBody(trace[m], job.call, body, other);
    }
  }

  /** What the original method returned is the reply to the call that it served, whenever there is one. */
  lemma AnswerDelivered(trace: seq<State>, steps: seq<Step>, a: nat, m: nat, i: nat, job: Job, body: Body)
    requires Run(trace, steps) && a < m < |trace| && steps[a] == Finish(i, body)
    requires IsThread(trace[a], i) && trace[a].hands[i] == Serving(job)
    ensures forall other :: Reply(job.call, other) in trace[m].sh.bus ==> other == body
  {
    RunStep(trace, steps, a);
    HandDelivered(trace, steps, a + 1, m, i, job, body);
  }

  /** What the service completes a deferred call with is the reply to the call that was parked. */
  lemma CompletionDelivered(trace: seq<State>, steps: seq<Step>, a: nat, m: nat, i: nat, user: Tag, body: Body)
    requires Run(trace, steps) && a < m < |trace| && steps[a] == Complete(i, user, body)
    requires user in trace[a].sh.deferred
    ensures forall other ::
              Reply(trace[a].sh.deferred[user].call, other) in trace[m].sh.bus ==> other == body
  {
    RunStep(trace, steps, a);
    HandDelivered(trace, steps, a + 1, m, i, trace[a].sh.deferred[user], body);
  }

  /** What a worker defers is parked as it was, under the tag that it threw. */
  lemma {:induction false} DeferredIsParked(trace: seq<State>, steps: seq<Step>, a: nat, b: nat, i: nat,
                                            user: Tag, job: Job)
    requires Run(trace, steps) && a < b < |steps| && steps[a] == Step.Defer(i, user) && steps[b] == Register(i)
    requires IsThread(trace[a], i) && trace[a].hands[i] == Serving(job)
    requires forall l :: a < l < b ==> steps[l] != Register(i)
    ensures user in trace[b + 1].sh.deferred && trace[b + 1].sh.deferred[user] == job
  {
    DeferringStays(trace, steps, a, b, i, user, job);
    RunStep(trace, steps, b);
  }

  lemma {:induction false} DeferringStays(trace: seq<State>, steps: seq<Step>, a: nat, b: nat, i: nat,
                                          user: Tag, job: Job)
    requires Run(trace, steps) && a < b < |trace| && steps[a] == Step.Defer(i, user)
    requires IsThread(trace[a], i) && trace[a].hands[i] == Serving(job)
    requires forall l :: a < l < b ==> steps[l] != Register(i)
    ensures IsThread(trace[b], i) && trace[b].hands[i] == Deferring(job, user)
    decreases b
  {
    if b == a + 1 {
      RunStep(trace, steps, a);
    } else {
      DeferringStays(trace, steps, a, b - 1, i, user, job);
      RunStep(trace, steps, b - 1);
      assert steps[b - 1] != Register(i);
    }
  }

  // ---------- signals and order ----------

  /** What a step submits to the response pipe. */
  function Submitted(s: State, step: Step): seq<Out>
    requires Enabled(s, step)
  {
    match step
    case Emit(sig) => [Signal(sig)]
    case Submit(i) => [Reply(s.hands[i].job.call, s.hands[i].body)]
    case _ => []
  }

  lemma StepSubmits(s: State, step: Step)
    requires Enabled(s, step)
    ensures Apply(s, step).submitted == s.submitted + Submitted(s, step)
  {
    if !step.Emit? && !step.Submit? {
      assert s.submitted + [] == s.submitted;
    }
  }

  /** What the first k steps of a run have submitted. */
  ghost function Submissions(trace: seq<State>, steps: seq<Step>, k: nat): seq<Out>
    requires Run(trace, steps) && k <= |steps|
  {
    if k == 0 then []
    else
      RunStep(trace, steps, k - 1);
      Submissions(trace, steps, k - 1) + Submitted(trace[k - 1], steps[k - 1])
  }

  lemma {:induction false} SubmittedAre(trace: seq<State>, steps: seq<Step>, k: nat)
    requires Run(trace, steps) && k < |trace|
    ensures trace[k].submitted == Submissions(trace, steps, k)
  {
    if k > 0 {
      SubmittedAre(trace, steps, k - 1);
      RunStep(trace, steps, k - 1);
      hide Run, Enabled, Apply, Submitted;
      StepSubmits(trace[k - 1], steps[k - 1]);
    } else {
      var threads: nat :| trace[0] == Init(threads);
    }
  }

  /** What went through the pipe is on the bus in the order of its submission, and the rest is on its way. */
  lemma BusIsSubmissions(trace: seq<State>, steps: seq<Step>, k: nat)
    requires Run(trace, steps) && k < |trace|
    ensures Piped(trace[k].sh.bus) <= Submissions(trace, steps, k)
    ensures Quiescent(trace[k]) && |trace[k].hands| > 0 ==> Piped(trace[k].sh.bus) == Submissions(trace, steps, k)
  {
    SubmittedAre(trace, steps, k);
    RunReaches(trace, steps, k);
    BusOrder(trace[k]);
    hide Run, Submissions, Piped, Reachable, Quiescent;
    if Quiescent(trace[k]) && |trace[k].hands| > 0 {
      QuiescentHands(trace[k]);
      Drained(trace[k]);
      assert Leaving(trace[k].disp) + Pending(Flight(trace[k]), trace[k].sh.responses, trace[k].sh.signals) == [];
    }
  }

  /** The signals on the bus that did not go through the pipe. */
  ghost function Directs(bus: seq<Out>): seq<SignalId> {
    if bus == [] then []
    else Directs(bus[..|bus| - 1]) + (if bus[|bus| - 1].Direct? then [bus[|bus| - 1].sig] else [])
  }

  function DirectEmissions(steps: seq<Step>): seq<SignalId> {
    if steps == [] then []
    else
      DirectEmissions(steps[..|steps| - 1])
      + (if steps[|steps| - 1].EmitDirect? then [steps[|steps| - 1].sig] else [])
  }

  lemma DirectsAppend(bus: seq<Out>, o: Out)
    ensures Directs(bus + [o]) == Directs(bus) + (if o.Direct? then [o.sig] else [])
  {
    assert (bus + [o])[..|bus|] == bus;
  }

  lemma DirectStep(s: State, step: Step)
    requires Enabled(s, step)
    ensures Directs(Apply(s, step).sh.bus) == Directs(s.sh.bus) + (if step.EmitDirect? then [step.sig] else [])
  {
    var bus := s.sh.bus;
    BusGrows(s, step);
    hide Directs, Apply, Enabled;
    assert Directs(bus) + [] == Directs(bus);
    if Apply(s, step).sh.bus != bus {
      DirectsAppend(bus, Apply(s, step).sh.bus[|bus|]);
    }
  }

  /** At most one message leaves at a time. */
  lemma BusGrows(s: State, step: Step)
    requires Enabled(s, step)
    ensures var bus, later := s.sh.bus, Apply(s, step).sh.bus;
            && (later == bus || (|later| == |bus| + 1 && later == bus + [later[|bus|]]))
            && (step.EmitDirect? ==> later == bus + [Direct(step.sig)])
            && (!step.EmitDirect? && later != bus ==> !later[|bus|].Direct?)
  {
  }

  /** A signal that the dispatcher thread emits is sent at once: all of them, in order, and nothing else so. */
  lemma {:induction false} DirectsInOrder(trace: seq<State>, steps: seq<Step>, k: nat)
    requires Run(trace, steps) && k < |trace|
    ensures Directs(trace[k].sh.bus) == DirectEmissions(steps[..k])
  {
    if k == 0 {
      var threads: nat :| trace[0] == Init(threads);
    } else {
      DirectsInOrder(trace, steps, k - 1);
      RunStep(trace, steps, k - 1);
      hide Run, Enabled, Apply, Directs;
      DirectStep(trace[k - 1], steps[k - 1]);
      assert steps[..k][..k - 1] == steps[..k - 1];
    }
  }
}
