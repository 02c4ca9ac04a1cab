/**
 The request piper as a state machine: one dispatcher thread, any number of worker and completion
 threads, and one step for each critical section and each unlocked read or write of shared state.
 */
module Piper {
  import opened Wire

  type Tag = nat      // the address of a Tag object; the allocator may reuse a freed one
  type CallId = nat   // calls in the order in which the forwarding stub accepted them
  type SignalId = nat

  /** A forwarded call and the tag that the forwarding stub allocated for it. */
  datatype Job = Job(call: CallId, tag: Tag)

  datatype Response = Response(call: CallId, body: Body)

  /** What the response pipe carries: the bytes of a tag pointer, NULL for a signal. */
  datatype Frame = TagFrame(tag: Tag) | NullFrame

  /** What leaves on the bus; `Direct` signals are emitted by the dispatcher thread itself. */
  datatype Out = Reply(call: CallId, body: Body) | Signal(sig: SignalId) | Direct(sig: SignalId)

  // ---------- the fields that the threads share ----------

  datatype Shared = Shared(
    requests: seq<Job>,               // request_queue
    wakeups: nat,                     // bytes in the request pipe
    responses: seq<Response>,         // response_queue
    signals: seq<SignalId>,           // signal_queue
    frames: seq<Frame>,               // frames in the response pipe
    deferred: map<Tag, Job>,          // _pipe_continuations, by user tag
    continuations: map<Tag, CallId>,  // _continuations, by original tag
    bus: seq<Out>)                    // messages sent on the connection

  /** The critical section of the forwarding stub. */
  function PushRequest(sh: Shared, job: Job): Shared {
    sh.(requests := sh.requests + [job], wakeups := sh.wakeups + 1)
  }

  function PopRequest(sh: Shared): Shared
    requires sh.requests != []
  {
    sh.(requests := sh.requests[1..])
  }

  /** The critical section of do_dispatch. */
  function PushResponse(sh: Shared, job: Job, body: Body): Shared {
    sh.(responses := sh.responses + [Response(job.call, body)], frames := sh.frames + [TagFrame(job.tag)])
  }

  /** The critical section of _emit_signal outside the dispatcher thread. */
  function PushSignal(sh: Shared, sig: SignalId): Shared {
    sh.(signals := sh.signals + [sig], frames := sh.frames + [NullFrame])
  }

  function PopFrame(sh: Shared): Shared
    requires sh.frames != []
  {
    sh.(frames := sh.frames[1..])
  }

  function PopResponse(sh: Shared): Shared
    requires sh.responses != []
  {
    sh.(responses := sh.responses[1..])
  }

  function PopSignal(sh: Shared): Shared
    requires sh.signals != []
  {
    sh.(signals := sh.signals[1..])
  }

  function Park(sh: Shared, user: Tag, job: Job): Shared {
    sh.(deferred := sh.deferred[user := job])
  }

  function Unpark(sh: Shared, user: Tag): Shared {
    sh.(deferred := sh.deferred - {user})
  }

  function AddContinuation(sh: Shared, job: Job): Shared {
    sh.(continuations := sh.continuations[job.tag := job.call])
  }

  /** ObjectAdaptor::return_now: without a continuation for the tag nothing is sent. */
  function ReturnNow(sh: Shared, tag: Tag, body: Body): Shared {
    if tag in sh.continuations then
      sh.(bus := sh.bus + [Reply(sh.continuations[tag], body)], continuations := sh.continuations - {tag})
    else
      sh
  }

  // ---------- what each thread has in hand ----------

  datatype Hand =
    | Idle
    | Woken                             // a byte read, the request not yet popped
    | Serving(job: Job)                 // the request popped, the original method running
    | Answering(job: Job, body: Body)   // a result in hand, do_dispatch not yet entered
    | Deferring(job: Job, user: Tag)    // return_later thrown, the user tag not yet registered
    | Announcing(user: Tag)             // registered, tag_registered() not yet called
    | Upcalling(user: Tag, body: Body)  // return_now found no deferred call, base class not yet asked

  datatype Dispatching =
    | Ready
    | Forwarding(job: Job)              // enqueued, the continuation not yet registered
    | Framed(frame: Frame)              // a frame read, the queue entry not yet popped
    | Popped(job: Job, body: Body)      // popped, _pipe_continuations not yet consulted
    | Confirmed(job: Job, body: Body)   // not a deferred call, the reply not yet sent
    | Disposing(tag: Tag)               // sent, the tag not yet deleted
    | Broadcasting(sig: SignalId)       // a signal popped, not yet sent
    | Fault                             // read from an empty queue, or a tag misrouted or unknown

  datatype State = State(
    sh: Shared,
    hands: seq<Hand>,
    disp: Dispatching,
    originals: set<Tag>,   // live tags of the forwarding stub
    users: set<Tag>,       // live tags of the service's own code
    accepted: nat,         // how many calls the forwarding stub has accepted
    submitted: seq<Out>,   // history: replies and signals in the order of the response pipe's lock
    announced: set<Tag>)   // history: user tags whose tag_registered() came and that nobody returned

  const EMPTY := Shared([], 0, [], [], [], map[], map[], [])

  function Init(threads: nat): State {
    State(EMPTY, seq(threads, _ => Idle), Ready, {}, {}, 0, [], {})
  }

  // ---------- steps ----------

  datatype Step =
    // the outside world: calls arrive, signals are emitted, the service allocates and frees its tags
    | Accept(tag: Tag)
    | Emit(sig: SignalId)
    | EmitDirect(sig: SignalId)
    | Allocate(user: Tag)
    | Release(user: Tag)
    | Complete(i: nat, user: Tag, body: Body)
    // worker and completion threads
    | Wake(i: nat)
    | Take(i: nat)
    | Finish(i: nat, body: Body)
    | Defer(i: nat, user: Tag)
    | Register(i: nat)
    | Announce(i: nat)
    | Upcall(i: nat)
    | Submit(i: nat)
    // the dispatcher thread
    | Continue
    | ReadFrame
    | PopEntry
    | Route
    | Send
    | Dispose

  /** The service's tag is not yet registered, or a return_now on it is under way. */
  predicate UserTag(h: Hand, user: Tag) {
    match h
    case Deferring(_, u) => u == user
    case Upcalling(u, _) => u == user
    case _ => false
  }

  /** Some thread is between throwing return_later with this tag and registering it. */
  predicate BeingDeferred(hands: seq<Hand>, user: Tag) {
    exists k :: 0 <= k < |hands| && hands[k].Deferring? && hands[k].user == user
  }

  predicate InAHand(hands: seq<Hand>, user: Tag) {
    exists k :: 0 <= k < |hands| && UserTag(hands[k], user)
  }

  predicate IsThread(s: State, i: nat) {
    i < |s.hands|
  }

  predicate Enabled(s: State, step: Step) {
    match step
    case Accept(tag) => s.disp.Ready? && tag !in s.originals + s.users
    case Emit(_) => true
    case EmitDirect(_) => s.disp.Ready?
    case Allocate(user) => user !in s.originals + s.users
    case Release(user) =>
      // a tag stays allocated until it is returned and no return_now on it is under way
      user in s.users && user !in s.sh.deferred && !InAHand(s.hands, user)
    case Complete(i, user, _) => IsThread(s, i) && s.hands[i].Idle? && user in s.users
    case Wake(i) => IsThread(s, i) && s.hands[i].Idle? && s.sh.wakeups > 0
    case Take(i) => IsThread(s, i) && s.hands[i].Woken?
    case Finish(i, _) => IsThread(s, i) && s.hands[i].Serving?
    case Defer(i, user) =>
      // a tag of the service's own is used for one outstanding call at a time
      IsThread(s, i) && s.hands[i].Serving?
      && user in s.users && user !in s.sh.deferred && !BeingDeferred(s.hands, user)
    case Register(i) => IsThread(s, i) && s.hands[i].Deferring?
    case Announce(i) => IsThread(s, i) && s.hands[i].Announcing?
    case Upcall(i) => IsThread(s, i) && s.hands[i].Upcalling?
    case Submit(i) => IsThread(s, i) && s.hands[i].Answering?
    case Continue => s.disp.Forwarding?
    case ReadFrame => s.disp.Ready? && s.sh.frames != []
    case PopEntry => s.disp.Framed?
    case Route => s.disp.Popped?
    case Send => s.disp.Confirmed? || s.disp.Broadcasting?
    case Dispose => s.disp.Disposing?
  }

  function WithHand(s: State, i: nat, h: Hand): State
    requires IsThread(s, i)
  {
    s.(hands := s.hands[i := h])
  }

  function Apply(s: State, step: Step): State
    requires Enabled(s, step)
  {
    match step
    case Accept(tag) =>
      var job := Job(s.accepted, tag);
      s.(sh := PushRequest(s.sh, job), disp := Forwarding(job),
         originals := s.originals + {tag}, accepted := s.accepted + 1)
    case Emit(sig) =>
      s.(sh := PushSignal(s.sh, sig), submitted := s.submitted + [Signal(sig)])
    case EmitDirect(sig) =>
      s.(sh := s.sh.(bus := s.sh.bus + [Direct(sig)]))
    case Allocate(user) => s.(users := s.users + {user})
    case Release(user) => s.(users := s.users - {user})
    case Complete(i, user, body) =>
      if user in s.sh.deferred then
        WithHand(s, i, Answering(s.sh.deferred[user], body))
          .(sh := Unpark(s.sh, user), announced := s.announced - {user})
      else
        WithHand(s, i, Upcalling(user, body))
    case Wake(i) => WithHand(s, i, Woken).(sh := s.sh.(wakeups := s.sh.wakeups - 1))
    case Take(i) =>
      if s.sh.requests == [] then WithHand(s, i, Idle)   // "unexpectedly empty"
      else WithHand(s, i, Serving(s.sh.requests[0])).(sh := PopRequest(s.sh))
    case Finish(i, body) => WithHand(s, i, Answering(s.hands[i].job, body))
    case Defer(i, user) => WithHand(s, i, Deferring(s.hands[i].job, user))
    case Register(i) =>
      WithHand(s, i, Announcing(s.hands[i].user)).(sh := Park(s.sh, s.hands[i].user, s.hands[i].job))
    case Announce(i) =>
      var user := s.hands[i].user;
      WithHand(s, i, Idle).(announced := if user in s.sh.deferred then s.announced + {user} else s.announced)
    case Upcall(i) => WithHand(s, i, Idle).(sh := ReturnNow(s.sh, s.hands[i].user, s.hands[i].body))
    case Submit(i) =>
      var h := s.hands[i];
      WithHand(s, i, Idle)
        .(sh := PushResponse(s.sh, h.job, h.body), submitted := s.submitted + [Reply(h.job.call, h.body)])
    case Continue => s.(sh := AddContinuation(s.sh, s.disp.job), disp := Ready)
    case ReadFrame => s.(sh := PopFrame(s.sh), disp := Framed(s.sh.frames[0]))
    case PopEntry =>
      (match s.disp.frame
       case TagFrame(tag) =>
         if s.sh.responses == [] then s.(disp := Fault)
         else s.(sh := PopResponse(s.sh),
                 disp := Popped(Job(s.sh.responses[0].call, tag), s.sh.responses[0].body))
       case NullFrame =>
         if s.sh.signals == [] then s.(disp := Fault)
         else s.(sh := PopSignal(s.sh), disp := Broadcasting(s.sh.signals[0])))
    case Route =>
      if s.disp.job.tag in s.sh.deferred then s.(disp := Fault)
      else s.(disp := Confirmed(s.disp.job, s.disp.body))
    case Send =>
      (match s.disp
       case Broadcasting(sig) => s.(sh := s.sh.(bus := s.sh.bus + [Signal(sig)]), disp := Ready)
       case Confirmed(job, body) =>
         if job.tag in s.sh.continuations
         then s.(sh := ReturnNow(s.sh, job.tag, body), disp := Disposing(job.tag))
         else s.(disp := Fault))
    case Dispose => s.(originals := s.originals - {s.disp.tag}, disp := Ready)
  }

  /** A run: every state follows from the one before by an enabled step. */
  ghost predicate Run(trace: seq<State>, steps: seq<Step>) {
    && |trace| == |steps| + 1
    && (exists threads: nat :: trace[0] == Init(threads))
    && forall k {:trigger steps[k]} :: 0 <= k < |steps| ==>
         Enabled(trace[k], steps[k]) && trace[k + 1] == Apply(trace[k], steps[k])
  }

  ghost predicate Reachable(s: State) {
    exists trace, steps :: Run(trace, steps) && trace[|trace| - 1] == s
  }
}
