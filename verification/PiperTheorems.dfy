/** What holds in every reachable state of the request piper, under every interleaving. */
module PiperTheorems {
  import opened Wire
  import opened Piper
  import opened PiperInvariant
  import opened PiperSteps

  lemma {:induction false} RunKeeps(trace: seq<State>, steps: seq<Step>, k: nat)
    requires Run(trace, steps) && k < |trace|
    ensures Inv(trace[k])
  {
    hide Inv, Init, Apply, Enabled;
    if k == 0 {
      var threads: nat :| trace[0] == Init(threads);
      InitInv(threads);
    } else {
      RunKeeps(trace, steps, k - 1);
      assert Enabled(trace[k - 1], steps[k - 1]);
      StepKeeps(trace[k - 1], steps[k - 1]);
    }
  }

  lemma ReachableInv(s: State)
    requires Reachable(s)
    ensures Inv(s)
  {
    var trace, steps :| Run(trace, steps) && trace[|trace| - 1] == s;
    RunKeeps(trace, steps, |trace| - 1);
  }

  // ---------- conservation ----------

  /**
   Each accepted call is in exactly one place (a queue, one thread's hand, parked, or answered on the
   bus), a call that was not accepted is nowhere, and so no call is ever answered twice.
   */
  lemma ExactlyOnce(s: State, c: CallId)
    requires Reachable(s)
    ensures Places(s, c) == if c < s.accepted then 1 else 0
    ensures Replies(s)[c] <= 1
  {
    ReachableInv(s);
    hide Tally, Parked;
    assert Replies(s)[c] <= Places(s, c);
  }

  // ---------- lockstep ----------

  function TagsOf(flight: seq<Frame>): seq<Tag> {
    if flight == [] then []
    else (if flight[0].TagFrame? then [flight[0].tag] else []) + TagsOf(flight[1..])
  }

  function Nulls(flight: seq<Frame>): nat {
    if flight == [] then 0 else (if flight[0].NullFrame? then 1 else 0) + Nulls(flight[1..])
  }

  lemma {:induction false} PairedPointwise(
      owner: map<Tag, CallId>, flight: seq<Frame>, rs: seq<Response>, sigs: seq<SignalId>)
    requires Paired(owner, flight, rs, sigs)
    ensures |TagsOf(flight)| == |rs| && Nulls(flight) == |sigs|
    ensures forall k :: 0 <= k < |rs| ==> TagsOf(flight)[k] in owner && owner[TagsOf(flight)[k]] == rs[k].call
    decreases |flight|
  {
    if flight != [] {
      match flight[0]
      case TagFrame(t) =>
        PairedPointwise(owner, flight[1..], rs[1..], sigs);
        forall k | 0 <= k < |rs|
          ensures TagsOf(flight)[k] in owner && owner[TagsOf(flight)[k]] == rs[k].call
        {
          if k > 0 {
            assert TagsOf(flight)[k] == TagsOf(flight[1..])[k - 1] && rs[k] == rs[1..][k - 1];
          }
        }
      case NullFrame =>
        PairedPointwise(owner, flight[1..], rs, sigs[1..]);
        assert TagsOf(flight) == TagsOf(flight[1..]);
    }
  }

  /**
   Pipes and queues stay in lockstep: the tags in flight stand, in order, for the calls of the
   waiting responses, the NULL frames are as many as the waiting signals, and the wakeup bytes
   together with the threads already woken are as many as the waiting requests.
   */
  lemma PipesMatchQueues(s: State)
    requires Reachable(s)
    ensures var tags := TagsOf(Flight(s));
            && |tags| == |s.sh.responses|
            && (forall k :: 0 <= k < |tags| ==> tags[k] in Owner(s) && Owner(s)[tags[k]] == s.sh.responses[k].call)
    ensures Nulls(Flight(s)) == |s.sh.signals|
    ensures s.sh.wakeups + |Awake(s.hands)| == |s.sh.requests|
  {
    ReachableInv(s);
    PairedPointwise(Owner(s), Flight(s), s.sh.responses, s.sh.signals);
  }

  /** No pop hits an empty queue; the "unexpectedly empty" branch is never taken. */
  lemma NoEmptyPop(s: State)
    requires Reachable(s)
    ensures !s.disp.Fault?
    ensures forall i: nat :: i < |s.hands| && s.hands[i].Woken? ==> s.sh.requests != []
    ensures s.disp.Framed? && s.disp.frame.TagFrame? ==> s.sh.responses != []
    ensures s.disp.Framed? && s.disp.frame.NullFrame? ==> s.sh.signals != []
  {
    ReachableInv(s);
    NoFault(s);
    forall i: nat | i < |s.hands| && s.hands[i].Woken? ensures s.sh.requests != [] {
      WokenHasRequest(s, i);
    }
    if s.disp.Framed? {
      FramePaired(s);
    }
  }

  // ---------- tag safety ----------

  /**
   Whenever the dispatcher has popped a response under tag t, the continuation of t exists and is of
   that very call, whatever the order of answering and registering; t is still allocated and is not
   mistaken for a deferred call's tag, though the allocator may reuse addresses.
   */
  lemma TagSafety(s: State)
    requires Reachable(s) && (s.disp.Popped? || s.disp.Confirmed?)
    ensures var job := s.disp.job;
            && job.tag in s.sh.continuations && s.sh.continuations[job.tag] == job.call
            && job.tag in s.originals && job.tag !in s.users && job.tag !in s.sh.deferred
  {
    ReachableInv(s);
    assert Owns(s, s.disp.job);
    assert s.disp.job.tag in s.originals;
  }

  /** So the reply that is sent answers the call whose response was popped, with its body. */
  lemma RightReply(s: State)
    requires Reachable(s) && s.disp.Confirmed?
    ensures Apply(s, Send).sh.bus == s.sh.bus + [Reply(s.disp.job.call, s.disp.body)]
    ensures s.disp.job.tag !in Apply(s, Send).sh.continuations
  {
    TagSafety(s);
  }

  // ---------- deferred completion ----------

  /**
   A completion that starts after tag_registered() finds its tag and takes over the deferred call
   under its original tag, which no other thread and no queue has.
   */
  lemma CompletionForwards(s: State, i: nat, user: Tag, body: Body)
    requires Reachable(s) && Enabled(s, Complete(i, user, body)) && user in s.announced
    ensures user in s.sh.deferred
    ensures var s' := Apply(s, Complete(i, user, body));
            && s'.hands[i] == Answering(s.sh.deferred[user], body)
            && Owns(s', s'.hands[i].job) && Places(s', s'.hands[i].job.call) == 1
            && user !in s'.sh.deferred
  {
    ReachableInv(s);
    var s' := Apply(s, Complete(i, user, body));
    CompleteKeeps(s, i, user, body);
    var job := s.sh.deferred[user];
    assert Owns(s, job);
    assert Owner(s') == Owner(s);
    hide Places;
    assert Places(s', job.call) == 1;
  }

  /** return_now sends something, now or later, exactly when the tag is registered and not yet returned. */
  lemma CompletionForwardsIff(s: State, i: nat, user: Tag, body: Body)
    requires Reachable(s) && Enabled(s, Complete(i, user, body))
    ensures Apply(s, Complete(i, user, body)).hands[i].Answering? <==> user in s.sh.deferred
    ensures user !in s.sh.deferred ==>
              var asked := Apply(s, Complete(i, user, body));
              && Enabled(asked, Upcall(i))
              && Apply(asked, Upcall(i)) == s
  {
    if user !in s.sh.deferred {
      ReachableInv(s);
      var asked := Apply(s, Complete(i, user, body));
      CompleteKeeps(s, i, user, body);
      UpcallFindsNothing(asked, i);
      assert asked.hands[i := Idle] == s.hands;
    }
  }

  /** A run in which no completion starts before its tag_registered(). */
  ghost predicate Disciplined(trace: seq<State>, steps: seq<Step>) {
    && Run(trace, steps)
    && forall k {:trigger steps[k]} :: 0 <= k < |steps| && steps[k].Complete? ==>
         forall j :: 0 <= j < |trace[k].hands| ==>
           trace[k].hands[j] != Announcing(steps[k].user)
  }

  ghost predicate AnnouncingParked(s: State) {
    forall j {:trigger s.hands[j]} :: 0 <= j < |s.hands| && s.hands[j].Announcing? ==>
      s.hands[j].user in s.sh.deferred
  }

  /** In such a run tag_registered() always comes while the call is parked, so none is ever missed. */
  lemma {:induction false} AnnouncedInTime(trace: seq<State>, steps: seq<Step>, k: nat)
    requires Disciplined(trace, steps) && k < |trace|
    ensures AnnouncingParked(trace[k])
  {
    if k == 0 {
      var threads: nat :| trace[0] == Init(threads);
    } else {
      AnnouncedInTime(trace, steps, k - 1);
      var s, step := trace[k - 1], steps[k - 1];
      assert Enabled(s, step) && trace[k] == Apply(s, step);
      assert step.Complete? ==> forall j :: 0 <= j < |s.hands| ==> s.hands[j] != Announcing(step.user);
      AnnouncedStep(s, step);
    }
  }

  lemma AnnouncedStep(s: State, step: Step)
    requires AnnouncingParked(s) && Enabled(s, step)
    requires step.Complete? ==> forall j :: 0 <= j < |s.hands| ==> s.hands[j] != Announcing(step.user)
    ensures AnnouncingParked(Apply(s, step))
  {
    var s' := Apply(s, step);
    forall j | 0 <= j < |s'.hands| && s'.hands[j].Announcing? ensures s'.hands[j].user in s'.sh.deferred {
      if s'.hands[j] == s.hands[j] {
        assert s.hands[j].user in s.sh.deferred;
      }
    }
  }

  /**
   In such a run a thread that has yet to call tag_registered() has a tag that is still allocated and
   cannot be released before the call.
   */
  lemma AnnouncesAllocated(trace: seq<State>, steps: seq<Step>, k: nat, i: nat)
    requires Disciplined(trace, steps) && k < |trace|
    requires i < |trace[k].hands| && trace[k].hands[i].Announcing?
    ensures trace[k].hands[i].user in trace[k].users && !Enabled(trace[k], Release(trace[k].hands[i].user))
  {
    AnnouncedInTime(trace, steps, k);
    RunKeeps(trace, steps, k);
    hide Run, Conserved, TagsMatch, Lockstep, Ordered;
    assert trace[k].hands[i].user in trace[k].sh.deferred;
  }

  lemma ReachesNext(s: State, step: Step)
    requires Reachable(s) && Enabled(s, step)
    ensures Reachable(Apply(s, step))
  {
    var trace, steps :| Run(trace, steps) && trace[|trace| - 1] == s;
    hide Enabled, Apply;
    var longer, more := trace + [Apply(s, step)], steps + [step];
    forall k | 0 <= k < |more|
      ensures Enabled(longer[k], more[k]) && longer[k + 1] == Apply(longer[k], more[k])
    {
      if k < |steps| {
        assert more[k] == steps[k] && longer[k] == trace[k] && longer[k + 1] == trace[k + 1];
      }
    }
    assert longer[0] == trace[0];
    assert Run(longer, more) && longer[|longer| - 1] == Apply(s, step);
  }

  lemma InitReachable(threads: nat)
    ensures Reachable(Init(threads))
  {
    assert Run([Init(threads)], []);
  }

  lemma TakeStep(s: State, step: Step) returns (t: State)
    requires Reachable(s) && Enabled(s, step)
    ensures Reachable(t) && t == Apply(s, step)
  {
    t := Apply(s, step);
    hide Enabled, Apply, Reachable;
    ReachesNext(s, step);
  }

  lemma AnnounceIsHeard(trace: seq<State>, steps: seq<Step>, k: nat)
    requires Disciplined(trace, steps) && k < |steps| && steps[k].Announce?
    ensures steps[k].i < |trace[k].hands| && trace[k].hands[steps[k].i].Announcing?
    ensures trace[k].hands[steps[k].i].user in trace[k + 1].announced
  {
    AnnouncedInTime(trace, steps, k);
    assert Enabled(trace[k], steps[k]) && trace[k + 1] == Apply(trace[k], steps[k]);
  }

  /** From then on the call stays parked until a completion takes it, whatever other threads do. */
  lemma AnnouncedStays(s: State, step: Step, user: Tag)
    requires Reachable(s) && Enabled(s, step) && user in s.announced
    requires !(step.Complete? && step.user == user)
    ensures user in Apply(s, step).announced && user in s.sh.deferred
    ensures user in Apply(s, step).sh.deferred && Apply(s, step).sh.deferred[user] == s.sh.deferred[user]
  {
    ReachableInv(s);
    hide Apply, Enabled, Reachable, Conserved, TagsMatch, Lockstep, Ordered, Heap;
    HeldStays(s, step, user);
  }

  lemma HeldStays(s: State, step: Step, user: Tag)
    requires Heap(s) && Enabled(s, step) && user in s.announced
    requires !(step.Complete? && step.user == user)
    ensures user in Apply(s, step).announced && user in s.sh.deferred
    ensures user in Apply(s, step).sh.deferred && Apply(s, step).sh.deferred[user] == s.sh.deferred[user]
  {
    assert user in s.sh.deferred;
    assert step.Register? ==> s.hands[step.i].user !in s.sh.deferred;
    hide Heap;
  }

  /** Over a whole run: until its completion starts, an announced call waits as it was parked. */
  lemma {:induction false} AnnouncedUntil(trace: seq<State>, steps: seq<Step>, k: nat, j: nat, user: Tag)
    requires Run(trace, steps) && k <= j < |trace| && user in trace[k].announced
    requires forall l :: k <= l < j ==> !(steps[l].Complete? && steps[l].user == user)
    ensures user in trace[j].announced && user in trace[k].sh.deferred && user in trace[j].sh.deferred
    ensures trace[j].sh.deferred[user] == trace[k].sh.deferred[user]
    decreases j
  {
    RunReaches(trace, steps, j);
    hide Reachable;
    ReachableAnnounced(trace[j], user);
    if k < j {
      AnnouncedUntil(trace, steps, k, j - 1, user);
      RunReaches(trace, steps, j - 1);
      assert Enabled(trace[j - 1], steps[j - 1]) && trace[j] == Apply(trace[j - 1], steps[j - 1]);
      hide Run, Apply, Enabled;
      AnnouncedStays(trace[j - 1], steps[j - 1], user);
    }
  }

  lemma RunReaches(trace: seq<State>, steps: seq<Step>, k: nat)
    requires Run(trace, steps) && k < |trace|
    ensures Reachable(trace[k])
  {
    var start, taken := trace[..k + 1], steps[..k];
    assert Run(start, taken) && start[|start| - 1] == trace[k];
  }

  lemma ReachableAnnounced(s: State, user: Tag)
    requires Reachable(s)
    ensures user in s.announced ==> user in s.sh.deferred
  {
    ReachableInv(s);
  }

  /**
   Over a whole run in which completions wait for tag_registered(): the first completion after it
   finds the call that was parked, and answers it under its original tag.
   */
  lemma DeferredCallAnswered(trace: seq<State>, steps: seq<Step>, k: nat, j: nat)
    requires Disciplined(trace, steps) && k < j < |steps| && steps[k].Announce? && steps[j].Complete?
    requires steps[k].i < |trace[k].hands| && trace[k].hands[steps[k].i] == Announcing(steps[j].user)
    requires forall l :: k < l < j ==> !(steps[l].Complete? && steps[l].user == steps[j].user)
    ensures var user := steps[j].user;
            && user in trace[k].sh.deferred && steps[j].i < |trace[j + 1].hands|
            && trace[j + 1].hands[steps[j].i] == Answering(trace[k].sh.deferred[user], steps[j].body)
  {
    var user := steps[j].user;
    AnnounceIsHeard(trace, steps, k);
    AnnouncedInTime(trace, steps, k);
    assert Enabled(trace[k], steps[k]) && trace[k + 1] == Apply(trace[k], steps[k]);
    assert trace[k + 1].sh.deferred == trace[k].sh.deferred;
    AnnouncedUntil(trace, steps, k + 1, j, user);
    assert Enabled(trace[j], steps[j]) && trace[j + 1] == Apply(trace[j], steps[j]);
  }

  // ---------- order ----------

  /**
   The replies and signals that went through the response pipe leave in the order in which their
   critical sections ran: what is on the bus is a prefix of it, and the rest is still on its way.
   */
  lemma BusOrder(s: State)
    requires Reachable(s)
    ensures Piped(s.sh.bus) <= s.submitted
    ensures s.submitted[|Piped(s.sh.bus)|..]
         == Leaving(s.disp) + Pending(Flight(s), s.sh.responses, s.sh.signals)
  {
    ReachableInv(s);
    hide Pending, Piped;
  }

  lemma {:induction false} SubmittedGrows(trace: seq<State>, steps: seq<Step>, k: nat, m: nat)
    requires Run(trace, steps) && k <= m < |trace|
    ensures trace[k].submitted <= trace[m].submitted
    decreases m
  {
    if k < m {
      SubmittedGrows(trace, steps, k, m - 1);
      assert Enabled(trace[m - 1], steps[m - 1]) && trace[m] == Apply(trace[m - 1], steps[m - 1]);
      hide Run, Enabled, Apply;
      HistoryGrows(trace[m - 1], steps[m - 1]);
    }
  }

  /** A reply that a frame in flight stands for is of a call in the response queue. */
  lemma {:induction false} PendingReply(flight: seq<Frame>, rs: seq<Response>, sigs: seq<SignalId>, i: nat)
    requires i < |Pending(flight, rs, sigs)| && Pending(flight, rs, sigs)[i].Reply?
    ensures Tally(rs, ResponseCalls)[Pending(flight, rs, sigs)[i].call] > 0
    decreases |flight|
  {
    var o := Pending(flight, rs, sigs)[i];
    if i > 0 {
      match flight[0]
      case TagFrame(_) =>
        TallyFirst(rs, ResponseCalls);
        PendingReply(flight[1..], rs[1..], sigs, i - 1);
      case NullFrame => PendingReply(flight[1..], rs, sigs[1..], i - 1);
    } else {
      TallyFirst(rs, ResponseCalls);
    }
  }

  /** A reply on its way is of a call that is in the dispatcher's hand or in the response queue. */
  lemma LeavingReply(s: State, r: nat)
    requires r < |Leaving(s.disp) + Pending(Flight(s), s.sh.responses, s.sh.signals)|
    requires (Leaving(s.disp) + Pending(Flight(s), s.sh.responses, s.sh.signals))[r].Reply?
    ensures var c := (Leaving(s.disp) + Pending(Flight(s), s.sh.responses, s.sh.signals))[r].call;
            DispCalls(s.disp)[c] + Tally(s.sh.responses, ResponseCalls)[c] > 0
  {
    hide Pending, Tally;
    if r >= |Leaving(s.disp)| {
      PendingReply(Flight(s), s.sh.responses, s.sh.signals, r - |Leaving(s.disp)|);
    }
  }

  /** A reply that was submitted and is not yet on the bus is of a call without a reply there. */
  lemma UnsentReply(s: State, q: nat)
    requires Reachable(s) && |Piped(s.sh.bus)| <= q < |s.submitted| && s.submitted[q].Reply?
    ensures Replies(s)[s.submitted[q].call] == 0
  {
    hide Reachable, Places, Replies, Pending, Piped, Leaving, Flight, DispCalls, Tally;
    ExactlyOnce(s, s.submitted[q].call);
    BusOrder(s);
    SuffixAt(s.submitted, |Piped(s.sh.bus)|, q);
    LeavingReply(s, q - |Piped(s.sh.bus)|);
    OnlyOnce(s, s.submitted[q].call);
  }

  lemma SuffixAt(outs: seq<Out>, p: nat, q: nat)
    requires p <= q < |outs|
    ensures q - p < |outs[p..]| && outs[p..][q - p] == outs[q]
  {
  }

  lemma OnlyOnce(s: State, c: CallId)
    requires Places(s, c) <= 1
    ensures DispCalls(s.disp)[c] + Tally(s.sh.responses, ResponseCalls)[c] > 0 ==> Replies(s)[c] == 0
  {
    hide Tally, Parked, DispCalls, Replies;
  }

  /**
   A signal emitted before a reply is submitted: in every later state in which the call has its reply on
   the bus, the signal stands before it, each at the place of its submission.
   */
  lemma SignalBeforeReply(trace: seq<State>, steps: seq<Step>, a: nat, b: nat, m: nat,
                          sig: SignalId, i: nat, job: Job, body: Body)
    requires Run(trace, steps) && a < b < m < |trace| && steps[a] == Emit(sig) && steps[b] == Submit(i)
    requires IsThread(trace[b], i) && trace[b].hands[i] == Answering(job, body)
    requires Replies(trace[m])[job.call] > 0
    ensures var bus, p, q := Piped(trace[m].sh.bus), |trace[a].submitted|, |trace[b].submitted|;
            p < q < |bus| && bus[p] == Signal(sig) && bus[q] == Reply(job.call, body)
  {
    var s := trace[m];
    SubmittedGrows(trace, steps, a + 1, b);
    SubmittedGrows(trace, steps, b + 1, m);
    assert Enabled(trace[a], steps[a]) && trace[a + 1] == Apply(trace[a], steps[a]);
    assert Enabled(trace[b], steps[b]) && trace[b + 1] == Apply(trace[b], steps[b]);
    RunReaches(trace, steps, m);
    BusOrder(s);
    hide Run, Enabled, Reachable, Piped, Replies, Pending;
    var q := |trace[b].submitted|;
    assert s.submitted[q] == Reply(job.call, body);
    if q >= |Piped(s.sh.bus)| {
      UnsentReply(s, q);
    }
  }

  /** Nothing is taken back from the bus, and the order of submission is never revised. */
  lemma HistoryGrows(s: State, step: Step)
    requires Enabled(s, step)
    ensures s.sh.bus <= Apply(s, step).sh.bus
    ensures s.submitted <= Apply(s, step).submitted
    ensures s.accepted <= Apply(s, step).accepted
  {}

  // ---------- drain ----------

  /** Steps that the piper takes by itself, given that original methods return or defer. */
  predicate Internal(step: Step) {
    !(step.Accept? || step.Emit? || step.EmitDirect? || step.Allocate? || step.Release? || step.Complete?)
  }

  function HandWeight(h: Hand): nat {
    match h
    case Idle => 0
    case Woken => 1
    case Serving(_) => 18
    case Answering(_, _) => 12
    case Deferring(_, _) => 16
    case Announcing(_) => 1
    case Upcalling(_, _) => 1
  }

  function DispWeight(d: Dispatching): nat {
    match d
    case Ready => 0
    case Forwarding(_) => 1
    case Framed(_) => 8
    case Popped(_, _) => 6
    case Confirmed(_, _) => 4
    case Disposing(_) => 2
    case Broadcasting(_) => 2
    case Fault => 0
  }

  function HandsWeight(hands: seq<Hand>): nat {
    if hands == [] then 0 else HandWeight(hands[0]) + HandsWeight(hands[1..])
  }

  lemma {:induction false} HandsWeightUpdate(hands: seq<Hand>, i: nat, h: Hand)
    requires i < |hands|
    ensures HandsWeight(hands[i := h]) == HandsWeight(hands) - HandWeight(hands[i]) + HandWeight(h)
    decreases |hands|
  {
    if i == 0 {
      assert hands[i := h][1..] == hands[1..];
    } else {
      assert hands[i := h][1..] == hands[1..][i - 1 := h];
      HandsWeightUpdate(hands[1..], i - 1, h);
    }
  }

  /** How much work is left; a parked call counts for what its completion will still cost. */
  function Work(s: State): nat {
    20 * |s.sh.requests| + 2 * s.sh.wakeups + HandsWeight(s.hands) + 13 * |s.sh.deferred|
    + 10 * |s.sh.frames| + DispWeight(s.disp)
  }

  /** Without new calls and signals every step, and every completion that finds its call, is progress. */
  lemma WorkFalls(s: State, step: Step)
    requires Reachable(s) && Enabled(s, step)
    requires Internal(step) || (step.Complete? && step.user in s.sh.deferred)
    ensures Work(Apply(s, step)) < Work(s)
  {
    ReachableInv(s);
    NoEmptyPop(s);
    hide Conserved, TagsMatch, Lockstep, Ordered, Work;
    match step
    case Wake(i) => HandWorkFalls(s, step, i);
    case Take(i) => HandWorkFalls(s, step, i);
    case Finish(i, _) => HandWorkFalls(s, step, i);
    case Defer(i, _) => HandWorkFalls(s, step, i);
    case Register(i) => RegisterWorkFalls(s, i);
    case Announce(i) => HandWorkFalls(s, step, i);
    case Upcall(i) =>
      UpcallFindsNothing(s, i);
      HandWorkFalls(s, step, i);
    case Submit(i) => HandWorkFalls(s, step, i);
    case Complete(i, user, body) => CompleteWorkFalls(s, i, user, body);
    case _ => DispatcherWorkFalls(s, step);
  }

  lemma HandWorkFalls(s: State, step: Step, i: nat)
    requires Enabled(s, step) && i < |s.hands|
    requires step == Wake(i) || step == Take(i) || (step.Finish? && step.i == i) || (step.Defer? && step.i == i)
          || step == Announce(i) || step == Upcall(i) || step == Submit(i)
    requires step.Take? ==> s.sh.requests != []
    requires step.Upcall? ==> Apply(s, step) == WithHand(s, i, Idle)
    ensures Work(Apply(s, step)) < Work(s)
  {
    HandsWeightUpdate(s.hands, i, Apply(s, step).hands[i]);
    hide HandsWeight;
  }

  lemma RegisterWorkFalls(s: State, i: nat)
    requires Enabled(s, Register(i)) && Heap(s)
    ensures Work(Apply(s, Register(i))) < Work(s)
  {
    assert s.hands[i].user !in s.sh.deferred;
    hide HandsWeight, Heap;
    HandsWeightUpdate(s.hands, i, Apply(s, Register(i)).hands[i]);
  }

  lemma CompleteWorkFalls(s: State, i: nat, user: Tag, body: Body)
    requires Enabled(s, Complete(i, user, body)) && user in s.sh.deferred
    ensures Work(Apply(s, Complete(i, user, body))) < Work(s)
  {
    var s' := Apply(s, Complete(i, user, body));
    assert s.sh.deferred == s'.sh.deferred[user := s.sh.deferred[user]];
    hide HandsWeight;
    HandsWeightUpdate(s.hands, i, s'.hands[i]);
  }

  lemma DispatcherWorkFalls(s: State, step: Step)
    requires Enabled(s, step)
    requires step.Continue? || step.ReadFrame? || step.PopEntry? || step.Route? || step.Send? || step.Dispose?
    ensures Work(Apply(s, step)) < Work(s)
  {
    hide HandsWeight;
    assert Apply(s, step).hands == s.hands;
  }

  ghost predicate InternalRun(s: State, steps: seq<Step>)
    decreases |steps|
  {
    steps == []
    || (Internal(steps[0]) && Enabled(s, steps[0]) && InternalRun(Apply(s, steps[0]), steps[1..]))
  }

  /** So the piper can take at most as many steps by itself as there is work. */
  lemma {:induction false} BoundedRun(s: State, steps: seq<Step>)
    requires Reachable(s) && InternalRun(s, steps)
    ensures |steps| <= Work(s)
    decreases |steps|
  {
    if steps != [] {
      hide Work, Internal, Enabled, Apply, Reachable;
      WorkFalls(s, steps[0]);
      ReachesNext(s, steps[0]);
      BoundedRun(Apply(s, steps[0]), steps[1..]);
    }
  }

  ghost predicate Quiescent(s: State) {
    forall step :: Internal(step) ==> !Enabled(s, step)
  }

  /** Nobody holds anything. */
  lemma QuiescentHands(s: State)
    requires Reachable(s) && Quiescent(s)
    ensures s.disp.Ready?
    ensures forall i :: 0 <= i < |s.hands| ==> s.hands[i].Idle?
  {
    NoEmptyPop(s);
    hide Reachable;
    assert s.disp.Ready? by {
      assert !Enabled(s, Continue) && !Enabled(s, PopEntry) && !Enabled(s, Route);
      assert !Enabled(s, Send) && !Enabled(s, Dispose);
    }
    hide Quiescent;
    forall i: nat | i < |s.hands| ensures s.hands[i].Idle? {
      QuiescentHand(s, i);
    }
  }

  lemma QuiescentHand(s: State, i: nat)
    requires Quiescent(s) && i < |s.hands| && (s.hands[i].Woken? ==> s.sh.requests != [])
    ensures s.hands[i].Idle?
  {
    assert !Enabled(s, Take(i)) && !Enabled(s, Finish(i, [])) && !Enabled(s, Register(i));
    assert !Enabled(s, Announce(i)) && !Enabled(s, Upcall(i)) && !Enabled(s, Submit(i));
  }

  lemma {:induction false} IdleTally(hands: seq<Hand>)
    requires forall i :: 0 <= i < |hands| ==> hands[i].Idle?
    ensures Tally(hands, HandCalls) == multiset{}
    decreases |hands|
  {
    if hands != [] {
      IdleTally(hands[1..]);
    }
  }

  /**
   When nothing more happens by itself, every queue and pipe is empty, and the continuations that
   remain are exactly the original tags of the parked calls, one for each.
   */
  lemma Drained(s: State)
    requires Reachable(s) && Quiescent(s) && |s.hands| > 0
    ensures s.sh.requests == [] && s.sh.wakeups == 0
    ensures s.sh.responses == [] && s.sh.signals == [] && s.sh.frames == []
    ensures s.sh.continuations.Keys == set u | u in s.sh.deferred :: s.sh.deferred[u].tag
    ensures forall u, u' :: u in s.sh.deferred && u' in s.sh.deferred && u != u' ==>
              s.sh.deferred[u].tag != s.sh.deferred[u'].tag
  {
    ReachableInv(s);
    QuiescentHands(s);
    QueuesEmpty(s);
    IdleTally(s.hands);
    hide Lockstep, Ordered, Tally;
    forall t | t in s.sh.continuations
      ensures t in set u | u in s.sh.deferred :: s.sh.deferred[u].tag
    {
      ContinuationParked(s, t);
    }
    forall u | u in s.sh.deferred ensures s.sh.deferred[u].tag in s.sh.continuations {
      assert Owns(s, s.sh.deferred[u]);
    }
    forall u, u' | u in s.sh.deferred && u' in s.sh.deferred && u != u'
      ensures s.sh.deferred[u].tag != s.sh.deferred[u'].tag
    {
      ParkedApart(s, u, u');
    }
  }

  /** Every accepted call then has exactly one reply on the bus or is parked, once. */
  lemma AllAnswered(s: State, c: CallId)
    requires Reachable(s) && Quiescent(s) && |s.hands| > 0 && c < s.accepted
    ensures Replies(s)[c] + |Parked(s.sh.deferred, c)| == 1
  {
    ReachableInv(s);
    QuiescentHands(s);
    QueuesEmpty(s);
    IdleTally(s.hands);
    assert Places(s, c) == 1;
  }

  lemma QueuesEmpty(s: State)
    requires Inv(s) && Quiescent(s) && |s.hands| > 0 && s.disp.Ready?
    requires forall i :: 0 <= i < |s.hands| ==> s.hands[i].Idle?
    ensures s.sh.requests == [] && s.sh.wakeups == 0
    ensures s.sh.responses == [] && s.sh.signals == [] && s.sh.frames == []
  {
    hide Conserved, TagsMatch, Ordered, Heap;
    assert !Enabled(s, ReadFrame) && !Enabled(s, Wake(0));
    assert Awake(s.hands) == {};
  }

  /** A live continuation whose call is in no queue and no hand is that of a parked call. */
  lemma ContinuationParked(s: State, t: Tag)
    requires Conserved(s) && TagsMatch(s) && s.disp.Ready? && t in s.sh.continuations
    requires s.sh.requests == [] && s.sh.responses == [] && Tally(s.hands, HandCalls) == multiset{}
    ensures exists u :: u in s.sh.deferred && s.sh.deferred[u].tag == t
  {
    var c := s.sh.continuations[t];
    assert t in Owner(s) && Owner(s)[t] == c;
    assert Places(s, c) == 1;
    assert |Parked(s.sh.deferred, c)| == 1;
    var u :| u in Parked(s.sh.deferred, c);
    assert Owns(s, s.sh.deferred[u]);
  }

  lemma ParkedApart(s: State, u: Tag, u': Tag)
    requires Conserved(s) && TagsMatch(s) && u in s.sh.deferred && u' in s.sh.deferred && u != u'
    ensures s.sh.deferred[u].tag != s.sh.deferred[u'].tag
  {
    hide Tally;
    assert Owns(s, s.sh.deferred[u]) && Owns(s, s.sh.deferred[u']);
    var c := s.sh.deferred[u].call;
    assert Places(s, c) <= 1;
    if s.sh.deferred[u'].call == c {
      assert {u, u'} <= Parked(s.sh.deferred, c);
      SubsetSize({u, u'}, Parked(s.sh.deferred, c));
      assert false;
    }
  }

  lemma SubsetSize(a: set<Tag>, b: set<Tag>)
    requires a <= b
    ensures |a| <= |b|
  {
    assert b == a + (b - a);
  }
}
