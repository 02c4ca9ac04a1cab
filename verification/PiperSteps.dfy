/** Every step of the request piper keeps the invariant. */
module PiperSteps {
  import opened Wire
  import opened Piper
  import opened PiperInvariant

  // ---------- what a step must leave alone for a part of the invariant to survive ----------

  lemma KeepConserved(s: State, s': State)
    requires Conserved(s) && s'.accepted == s.accepted
    requires forall c: CallId :: Places(s', c) == Places(s, c)
    ensures Conserved(s')
  {
    hide Places;
  }

  lemma KeepTags(s: State, s': State)
    requires TagsMatch(s)
    requires Owner(s') == Owner(s) && Replies(s') == Replies(s) && s'.accepted == s.accepted
    requires s'.sh.requests == s.sh.requests && s'.sh.deferred == s.sh.deferred && s'.hands == s.hands
    requires s'.disp.Popped? || s'.disp.Confirmed? ==> Owns(s, s'.disp.job)
    ensures TagsMatch(s')
  {
    hide Replies;
  }

  lemma KeepLockstep(s: State, s': State)
    requires Lockstep(s)
    requires Owner(s') == Owner(s) && Flight(s') == Flight(s) && !s'.disp.Fault?
    requires s'.sh.responses == s.sh.responses && s'.sh.signals == s.sh.signals
    requires s'.sh.wakeups == s.sh.wakeups && s'.sh.requests == s.sh.requests && s'.hands == s.hands
    ensures Lockstep(s')
  {}

  lemma KeepOrdered(s: State, s': State)
    requires Ordered(s)
    requires s'.submitted == s.submitted && Piped(s'.sh.bus) == Piped(s.sh.bus)
    requires Leaving(s'.disp) + Pending(Flight(s'), s'.sh.responses, s'.sh.signals)
          == Leaving(s.disp) + Pending(Flight(s), s.sh.responses, s.sh.signals)
    ensures Ordered(s')
  {}

  lemma KeepHeap(s: State, s': State)
    requires Heap(s)
    requires Owner(s') == Owner(s) && s'.originals == s.originals && s'.users == s.users
    requires s'.sh.deferred == s.sh.deferred && s'.hands == s.hands && s'.announced == s.announced
    requires !s.disp.Disposing? && !s'.disp.Disposing?
    ensures Heap(s')
  {}

  lemma PlacesSame(s: State, s': State)
    requires s'.sh.requests == s.sh.requests && s'.hands == s.hands && s'.sh.deferred == s.sh.deferred
    requires s'.sh.responses == s.sh.responses && DispCalls(s'.disp) == DispCalls(s.disp) && Replies(s') == Replies(s)
    ensures forall c: CallId :: Places(s', c) == Places(s, c)
  {
    hide Tally, Parked, DispCalls, Replies;
  }

  /** A step that changes neither where a call is, nor whose a tag is, nor what is in flight. */
  lemma KeepMost(s: State, s': State)
    requires Conserved(s) && TagsMatch(s) && Lockstep(s)
    requires Owner(s') == Owner(s) && Flight(s') == Flight(s) && !s'.disp.Fault?
    requires Replies(s') == Replies(s) && DispCalls(s'.disp) == DispCalls(s.disp)
    requires s'.sh.requests == s.sh.requests && s'.sh.wakeups == s.sh.wakeups && s'.hands == s.hands
    requires s'.sh.responses == s.sh.responses && s'.sh.signals == s.sh.signals
    requires s'.sh.deferred == s.sh.deferred && s'.accepted == s.accepted
    requires s'.disp.Popped? || s'.disp.Confirmed? ==> Owns(s, s'.disp.job)
    ensures Conserved(s') && TagsMatch(s') && Lockstep(s')
  {
    hide Conserved, TagsMatch, Lockstep, Places, Owner, Flight, Replies, DispCalls;
    PlacesSame(s, s');
    KeepConserved(s, s');
    KeepTags(s, s');
    KeepLockstep(s, s');
  }

  /** Thread `i` moves on; of the rest, only queues, pipes and parked calls may change. */
  ghost predicate HandStep(s: State, s': State, i: nat) {
    && i < |s.hands| == |s'.hands|
    && s'.hands == s.hands[i := s'.hands[i]]
    && s'.disp == s.disp && s'.sh.continuations == s.sh.continuations && s'.sh.bus == s.sh.bus
    && s'.originals == s.originals && s'.users == s.users && s'.accepted == s.accepted
  }

  /** The places of call `c` that a step of thread `i` can change. */
  ghost function Movable(s: State, i: nat, c: CallId): nat
    requires i < |s.hands|
  {
    Tally(s.sh.requests, JobCalls)[c] + HandCalls(s.hands[i])[c] + |Parked(s.sh.deferred, c)|
    + Tally(s.sh.responses, ResponseCalls)[c]
  }

  lemma HandConserved(s: State, s': State, i: nat)
    requires Conserved(s) && HandStep(s, s', i)
    requires forall c: CallId :: Movable(s', i, c) == Movable(s, i, c)
    ensures Conserved(s')
  {
    TallyUpdate(s.hands, i, s'.hands[i], HandCalls);
    assert Replies(s') == Replies(s);
    forall c: CallId ensures Places(s', c) == Places(s, c) {
      hide Tally, HandCalls, Parked, DispCalls, Replies;
      assert Movable(s', i, c) == Movable(s, i, c);
      assert (Tally(s'.hands, HandCalls) + HandCalls(s.hands[i]))[c]
          == (Tally(s.hands, HandCalls) + HandCalls(s'.hands[i]))[c];
    }
  }

  lemma HandTags(s: State, s': State, i: nat)
    requires TagsMatch(s) && HandStep(s, s', i)
    requires forall k :: 0 <= k < |s'.sh.requests| ==> Owns(s, s'.sh.requests[k])
    requires forall u :: u in s'.sh.deferred ==> Owns(s, s'.sh.deferred[u])
    requires HandCalls(s'.hands[i]) != multiset{} ==> Owns(s, s'.hands[i].job)
    ensures TagsMatch(s')
  {
    hide HandCalls;
    assert Owner(s') == Owner(s) && Replies(s') == Replies(s);
  }

  lemma HandLockstep(s: State, s': State, i: nat)
    requires Lockstep(s) && HandStep(s, s', i)
    requires s'.sh.wakeups - (if s.hands[i].Woken? then 1 else 0) + (if s'.hands[i].Woken? then 1 else 0)
             - |s'.sh.requests| == s.sh.wakeups - |s.sh.requests|
    requires s'.sh.frames == s.sh.frames && s'.sh.responses == s.sh.responses && s'.sh.signals == s.sh.signals
    ensures Lockstep(s')
  {
    hide Paired, Awake;
    AwakeUpdate(s.hands, i, s'.hands[i]);
  }

  lemma HandHeap(s: State, s': State, i: nat)
    requires Heap(s) && HandStep(s, s', i)
    requires forall u :: u in s'.sh.deferred ==> u in s.users
    requires forall u :: UserTag(s'.hands[i], u) ==> u in s.users
    requires s'.hands[i].Deferring? ==> !BeingDeferred(s.hands, s'.hands[i].user)
    requires forall k :: 0 <= k < |s'.hands| && s'.hands[k].Deferring? ==> s'.hands[k].user !in s'.sh.deferred
    requires forall u :: u in s'.announced ==> u in s'.sh.deferred
    ensures Heap(s')
  {
    assert Owner(s') == Owner(s);
  }

  // ---------- the beginning ----------

  lemma {:induction false} InitTally(threads: nat)
    ensures Tally(seq(threads, _ => Idle), HandCalls) == multiset{}
    decreases threads
  {
    if threads > 0 {
      var hands: seq<Hand> := seq(threads, _ => Idle);
      var rest: seq<Hand> := seq(threads - 1, _ => Idle);
      assert hands[1..] == rest;
      InitTally(threads - 1);
    }
  }

  lemma InitInv(threads: nat)
    ensures Inv(Init(threads))
  {
    InitTally(threads);
    var s := Init(threads);
    assert Awake(s.hands) == {};
    forall c: CallId ensures Places(s, c) == 0 {
      assert Parked(s.sh.deferred, c) == {};
    }
  }

  // ---------- the outside world ----------

  lemma AcceptKeeps(s: State, tag: Tag)
    requires Inv(s) && Enabled(s, Accept(tag))
    ensures Inv(Apply(s, Accept(tag)))
  {
    var s' := Apply(s, Accept(tag));
    AcceptConserved(s, tag);
    NotYetReplied(s);
    AllocatedTag(s, tag);
    AcceptTags(s, tag);
    AcceptLockstep(s, tag);
    hide Conserved, TagsMatch, Lockstep, Ordered;
    KeepOrdered(s, s') by { assert Ordered(s); }
    AcceptHeap(s, tag);
  }

  lemma AcceptConserved(s: State, tag: Tag)
    requires Conserved(s) && Enabled(s, Accept(tag))
    ensures Conserved(Apply(s, Accept(tag)))
  {
    hide Tally, Parked;
    var s' := Apply(s, Accept(tag));
    var job := Job(s.accepted, tag);
    TallyAppend(s.sh.requests, job, JobCalls);
    assert JobCalls(job) == multiset{s.accepted} && DispCalls(s'.disp) == DispCalls(s.disp);
    assert Replies(s') == Replies(s);
    hide JobCalls, DispCalls, Replies;
    forall c: CallId ensures Places(s', c) == if c < s'.accepted then 1 else 0 {
      assert Places(s, c) == if c < s.accepted then 1 else 0;
    }
  }

  lemma AcceptTags(s: State, tag: Tag)
    requires TagsMatch(s) && Enabled(s, Accept(tag)) && tag !in Owner(s)
    requires Replies(s)[s.accepted] == 0
    ensures TagsMatch(Apply(s, Accept(tag)))
  {
    var s' := Apply(s, Accept(tag));
    assert Owner(s') == Owner(s)[tag := s.accepted];
    assert Replies(s') == Replies(s);
    GrowTags(s, s', tag) by { hide TagsMatch, Owner, Replies; }
  }

  /** A new call with a new tag joins at the end of the request queue. */
  lemma GrowTags(s: State, s': State, tag: Tag)
    requires TagsMatch(s) && tag !in Owner(s) && Replies(s)[s.accepted] == 0
    requires Owner(s') == Owner(s)[tag := s.accepted] && Replies(s') == Replies(s)
    requires s'.accepted == s.accepted + 1 && s'.sh.requests == s.sh.requests + [Job(s.accepted, tag)]
    requires s'.hands == s.hands && s'.sh.deferred == s.sh.deferred
    requires !s'.disp.Popped? && !s'.disp.Confirmed?
    ensures TagsMatch(s')
  {
    hide Owner, Replies, HandCalls;
  }

  lemma NotYetReplied(s: State)
    requires Conserved(s)
    ensures Replies(s)[s.accepted] == 0
  {
    hide Tally, Parked;
    assert Places(s, s.accepted) == 0;
  }

  lemma AllocatedTag(s: State, tag: Tag)
    requires Heap(s) && tag !in s.originals
    ensures tag !in Owner(s)
  {}

  lemma AcceptLockstep(s: State, tag: Tag)
    requires Lockstep(s) && Heap(s) && Enabled(s, Accept(tag))
    ensures Lockstep(Apply(s, Accept(tag)))
  {
    var s' := Apply(s, Accept(tag));
    assert Owner(s') == Owner(s)[tag := s.accepted];
    PairedGrow(Owner(s), Owner(s'), Flight(s), s.sh.responses, s.sh.signals);
  }

  lemma AcceptHeap(s: State, tag: Tag)
    requires Heap(s) && Enabled(s, Accept(tag))
    ensures Heap(Apply(s, Accept(tag)))
  {
    var s' := Apply(s, Accept(tag));
    assert Owner(s') == Owner(s)[tag := s.accepted];
  }

  lemma EmitKeeps(s: State, sig: SignalId)
    requires Inv(s)
    ensures Inv(Apply(s, Emit(sig)))
  {
    var s' := Apply(s, Emit(sig));
    EmitPipe(s, sig);
    hide Conserved, TagsMatch, Lockstep, Ordered, Heap, Places;
    PlacesSame(s, s');
    KeepConserved(s, s');
    KeepTags(s, s') by { DispOwned(s); }
    KeepHeapOrDispose(s, s');
  }

  lemma EmitPipe(s: State, sig: SignalId)
    requires Lockstep(s) && Ordered(s)
    ensures Lockstep(Apply(s, Emit(sig))) && Ordered(Apply(s, Emit(sig)))
  {
    assert Flight(Apply(s, Emit(sig))) == Flight(s) + [NullFrame];
    PairedAppendNull(Owner(s), Flight(s), s.sh.responses, s.sh.signals, sig);
    hide Paired, Pending, Piped;
  }

  lemma DispOwned(s: State)
    requires TagsMatch(s)
    ensures s.disp.Popped? || s.disp.Confirmed? ==> Owns(s, s.disp.job)
  {}

  lemma KeepHeapOrDispose(s: State, s': State)
    requires Heap(s) && s'.disp == s.disp && s'.sh.continuations == s.sh.continuations
    requires s'.originals == s.originals && s'.users == s.users
    requires s'.sh.deferred == s.sh.deferred && s'.hands == s.hands && s'.announced == s.announced
    ensures Heap(s')
  {}

  lemma EmitDirectKeeps(s: State, sig: SignalId)
    requires Inv(s) && Enabled(s, EmitDirect(sig))
    ensures Inv(Apply(s, EmitDirect(sig)))
  {
    var s' := Apply(s, EmitDirect(sig));
    TallyAppend(s.sh.bus, Direct(sig), OutCalls);
    PipedAppend(s.sh.bus, Direct(sig));
    hide Conserved, TagsMatch, Lockstep, Ordered, Heap, Tally, Piped, Pending;
    KeepMost(s, s');
    KeepOrdered(s, s');
    KeepHeap(s, s');
  }

  lemma AllocateKeeps(s: State, user: Tag)
    requires Inv(s) && Enabled(s, Allocate(user))
    ensures Inv(Apply(s, Allocate(user)))
  {
    var s' := Apply(s, Allocate(user));
    UsersHeap(s, s');
    UsersKeep(s, s');
  }

  lemma ReleaseKeeps(s: State, user: Tag)
    requires Inv(s) && Enabled(s, Release(user))
    ensures Inv(Apply(s, Release(user)))
  {
    var s' := Apply(s, Release(user));
    ReleaseHeap(s, user);
    UsersKeep(s, s');
  }

  lemma UsersHeap(s: State, s': State)
    requires Heap(s) && s' == s.(users := s'.users) && s.users <= s'.users && s'.users !! s.originals
    ensures Heap(s')
  {}

  lemma ReleaseHeap(s: State, user: Tag)
    requires Heap(s) && Enabled(s, Release(user))
    ensures Heap(Apply(s, Release(user)))
  {}

  lemma UsersKeep(s: State, s': State)
    requires Inv(s) && s' == s.(users := s'.users)
    ensures Conserved(s') && TagsMatch(s') && Lockstep(s') && Ordered(s')
  {
    hide Conserved, TagsMatch, Lockstep, Ordered, Heap;
    DispOwned(s);
    NoFault(s);
    KeepMost(s, s');
    KeepOrdered(s, s');
  }

  lemma NoFault(s: State)
    requires Lockstep(s)
    ensures !s.disp.Fault?
  {}

  lemma HandOrdered(s: State, s': State, i: nat)
    requires Ordered(s) && HandStep(s, s', i) && s'.submitted == s.submitted
    requires s'.sh.frames == s.sh.frames && s'.sh.responses == s.sh.responses && s'.sh.signals == s.sh.signals
    ensures Ordered(s')
  {
    hide Piped, Pending;
  }
  // ---------- workers and completions ----------

  lemma CompleteKeeps(s: State, i: nat, user: Tag, body: Body)
    requires Inv(s) && Enabled(s, Complete(i, user, body))
    ensures Inv(Apply(s, Complete(i, user, body)))
  {
    var s' := Apply(s, Complete(i, user, body));
    CompleteConserved(s, i, user, body);
    CompleteTags(s, i, user, body);
    CompleteHeap(s, i, user, body);
    hide Conserved, TagsMatch, Lockstep, Ordered, Heap;
    HandLockstep(s, s', i);
    HandOrdered(s, s', i);
  }

  lemma CompleteMovable(s: State, i: nat, user: Tag, body: Body, c: CallId)
    requires Enabled(s, Complete(i, user, body))
    ensures Movable(Apply(s, Complete(i, user, body)), i, c) == Movable(s, i, c)
  {
    hide Tally, Parked;
    if user in s.sh.deferred {
      ParkedRemove(s.sh.deferred, user, c);
    }
  }

  lemma CompleteConserved(s: State, i: nat, user: Tag, body: Body)
    requires Conserved(s) && Enabled(s, Complete(i, user, body))
    ensures Conserved(Apply(s, Complete(i, user, body)))
  {
    var s' := Apply(s, Complete(i, user, body));
    assert HandStep(s, s', i);
    hide Conserved, Tally, Parked, Movable, HandCalls, HandStep;
    forall c: CallId ensures Movable(s', i, c) == Movable(s, i, c) {
      CompleteMovable(s, i, user, body, c);
    }
    HandConserved(s, s', i);
  }

  lemma CompleteTags(s: State, i: nat, user: Tag, body: Body)
    requires TagsMatch(s) && Enabled(s, Complete(i, user, body))
    ensures TagsMatch(Apply(s, Complete(i, user, body)))
  {
    HandTags(s, Apply(s, Complete(i, user, body)), i);
  }

  lemma CompleteHeap(s: State, i: nat, user: Tag, body: Body)
    requires Heap(s) && Enabled(s, Complete(i, user, body))
    ensures Heap(Apply(s, Complete(i, user, body)))
  {
    HandHeap(s, Apply(s, Complete(i, user, body)), i);
  }

  lemma WakeKeeps(s: State, i: nat)
    requires Inv(s) && Enabled(s, Wake(i))
    ensures Inv(Apply(s, Wake(i)))
  {
    var s' := Apply(s, Wake(i));
    WakeConserved(s, i);
    WakeTags(s, i);
    WakeHeap(s, i);
    hide Conserved, TagsMatch, Lockstep, Ordered, Heap;
    HandLockstep(s, s', i);
    HandOrdered(s, s', i);
  }

  lemma WakeConserved(s: State, i: nat)
    requires Conserved(s) && Enabled(s, Wake(i))
    ensures Conserved(Apply(s, Wake(i)))
  {
    var s' := Apply(s, Wake(i));
    hide Conserved, Tally, Parked;
    forall c: CallId ensures Movable(s', i, c) == Movable(s, i, c) {}
    HandConserved(s, s', i);
  }

  lemma WakeTags(s: State, i: nat)
    requires TagsMatch(s) && Enabled(s, Wake(i))
    ensures TagsMatch(Apply(s, Wake(i)))
  {
    HandTags(s, Apply(s, Wake(i)), i);
  }

  lemma WakeHeap(s: State, i: nat)
    requires Heap(s) && Enabled(s, Wake(i))
    ensures Heap(Apply(s, Wake(i)))
  {
    HandHeap(s, Apply(s, Wake(i)), i);
  }

  /** A byte that was read always has its request: the queue is not empty. */
  lemma WokenHasRequest(s: State, i: nat)
    requires Lockstep(s) && i < |s.hands| && s.hands[i].Woken?
    ensures s.sh.requests != []
  {
    assert i as int in Awake(s.hands);
  }

  lemma TakeKeeps(s: State, i: nat)
    requires Inv(s) && Enabled(s, Take(i))
    ensures Inv(Apply(s, Take(i)))
  {
    var s' := Apply(s, Take(i));
    WokenHasRequest(s, i);
    TakeConserved(s, i);
    TakeTags(s, i);
    TakeHeap(s, i);
    hide Conserved, TagsMatch, Lockstep, Ordered, Heap;
    HandLockstep(s, s', i);
    HandOrdered(s, s', i);
  }

  lemma TakeConserved(s: State, i: nat)
    requires Conserved(s) && Enabled(s, Take(i)) && s.sh.requests != []
    ensures Conserved(Apply(s, Take(i)))
  {
    hide Conserved, Tally, Parked;
    var s' := Apply(s, Take(i));
    var first := s.sh.requests[0];
    TallyFirst(s.sh.requests, JobCalls);
    assert HandCalls(s'.hands[i]) == JobCalls(first) && HandCalls(s.hands[i]) == multiset{};
    hide JobCalls, HandCalls;
    forall c: CallId ensures Movable(s', i, c) == Movable(s, i, c) {}
    HandConserved(s, s', i);
  }

  lemma TakeTags(s: State, i: nat)
    requires TagsMatch(s) && Enabled(s, Take(i)) && s.sh.requests != []
    ensures TagsMatch(Apply(s, Take(i)))
  {
    HandTags(s, Apply(s, Take(i)), i);
  }

  lemma TakeHeap(s: State, i: nat)
    requires Heap(s) && Enabled(s, Take(i)) && s.sh.requests != []
    ensures Heap(Apply(s, Take(i)))
  {
    HandHeap(s, Apply(s, Take(i)), i);
  }

  lemma FinishKeeps(s: State, i: nat, body: Body)
    requires Inv(s) && Enabled(s, Finish(i, body))
    ensures Inv(Apply(s, Finish(i, body)))
  {
    var s' := Apply(s, Finish(i, body));
    FinishConserved(s, i, body);
    FinishTags(s, i, body);
    FinishHeap(s, i, body);
    hide Conserved, TagsMatch, Lockstep, Ordered, Heap;
    HandLockstep(s, s', i);
    HandOrdered(s, s', i);
  }

  lemma FinishConserved(s: State, i: nat, body: Body)
    requires Conserved(s) && Enabled(s, Finish(i, body))
    ensures Conserved(Apply(s, Finish(i, body)))
  {
    var s' := Apply(s, Finish(i, body));
    hide Conserved, Tally, Parked;
    forall c: CallId ensures Movable(s', i, c) == Movable(s, i, c) {}
    HandConserved(s, s', i);
  }

  lemma FinishTags(s: State, i: nat, body: Body)
    requires TagsMatch(s) && Enabled(s, Finish(i, body))
    ensures TagsMatch(Apply(s, Finish(i, body)))
  {
    HandTags(s, Apply(s, Finish(i, body)), i);
  }

  lemma FinishHeap(s: State, i: nat, body: Body)
    requires Heap(s) && Enabled(s, Finish(i, body))
    ensures Heap(Apply(s, Finish(i, body)))
  {
    HandHeap(s, Apply(s, Finish(i, body)), i);
  }

  lemma DeferKeeps(s: State, i: nat, user: Tag)
    requires Inv(s) && Enabled(s, Defer(i, user))
    ensures Inv(Apply(s, Defer(i, user)))
  {
    var s' := Apply(s, Defer(i, user));
    DeferConserved(s, i, user);
    DeferTags(s, i, user);
    DeferHeap(s, i, user);
    hide Conserved, TagsMatch, Lockstep, Ordered, Heap;
    HandLockstep(s, s', i);
    HandOrdered(s, s', i);
  }

  lemma DeferConserved(s: State, i: nat, user: Tag)
    requires Conserved(s) && Enabled(s, Defer(i, user))
    ensures Conserved(Apply(s, Defer(i, user)))
  {
    var s' := Apply(s, Defer(i, user));
    hide Conserved, Tally, Parked;
    forall c: CallId ensures Movable(s', i, c) == Movable(s, i, c) {}
    HandConserved(s, s', i);
  }

  lemma DeferTags(s: State, i: nat, user: Tag)
    requires TagsMatch(s) && Enabled(s, Defer(i, user))
    ensures TagsMatch(Apply(s, Defer(i, user)))
  {
    HandTags(s, Apply(s, Defer(i, user)), i);
  }

  lemma DeferHeap(s: State, i: nat, user: Tag)
    requires Heap(s) && Enabled(s, Defer(i, user))
    ensures Heap(Apply(s, Defer(i, user)))
  {
    HandHeap(s, Apply(s, Defer(i, user)), i);
  }

  lemma RegisterKeeps(s: State, i: nat)
    requires Inv(s) && Enabled(s, Register(i))
    ensures Inv(Apply(s, Register(i)))
  {
    var s' := Apply(s, Register(i));
    RegisterConserved(s, i);
    RegisterTags(s, i);
    RegisterHeap(s, i);
    hide Conserved, TagsMatch, Lockstep, Ordered, Heap;
    HandLockstep(s, s', i);
    HandOrdered(s, s', i);
  }

  lemma RegisterConserved(s: State, i: nat)
    requires Conserved(s) && Heap(s) && Enabled(s, Register(i))
    ensures Conserved(Apply(s, Register(i)))
  {
    var s' := Apply(s, Register(i));
    hide Conserved, Tally, Parked;
    forall c: CallId ensures Movable(s', i, c) == Movable(s, i, c) {
      ParkedAdd(s.sh.deferred, s.hands[i].user, s.hands[i].job, c);
    }
    HandConserved(s, s', i);
  }

  lemma RegisterTags(s: State, i: nat)
    requires TagsMatch(s) && Enabled(s, Register(i))
    ensures TagsMatch(Apply(s, Register(i)))
  {
    HandTags(s, Apply(s, Register(i)), i);
  }

  lemma RegisterHeap(s: State, i: nat)
    requires Heap(s) && Enabled(s, Register(i))
    ensures Heap(Apply(s, Register(i)))
  {
    HandHeap(s, Apply(s, Register(i)), i);
  }

  lemma AnnounceKeeps(s: State, i: nat)
    requires Inv(s) && Enabled(s, Announce(i))
    ensures Inv(Apply(s, Announce(i)))
  {
    var s' := Apply(s, Announce(i));
    AnnounceConserved(s, i);
    AnnounceTags(s, i);
    AnnounceHeap(s, i);
    hide Conserved, TagsMatch, Lockstep, Ordered, Heap;
    HandLockstep(s, s', i);
    HandOrdered(s, s', i);
  }

  lemma AnnounceConserved(s: State, i: nat)
    requires Conserved(s) && Enabled(s, Announce(i))
    ensures Conserved(Apply(s, Announce(i)))
  {
    var s' := Apply(s, Announce(i));
    hide Conserved, Tally, Parked;
    forall c: CallId ensures Movable(s', i, c) == Movable(s, i, c) {}
    HandConserved(s, s', i);
  }

  lemma AnnounceTags(s: State, i: nat)
    requires TagsMatch(s) && Enabled(s, Announce(i))
    ensures TagsMatch(Apply(s, Announce(i)))
  {
    HandTags(s, Apply(s, Announce(i)), i);
  }

  lemma AnnounceHeap(s: State, i: nat)
    requires Heap(s) && Enabled(s, Announce(i))
    ensures Heap(Apply(s, Announce(i)))
  {
    HandHeap(s, Apply(s, Announce(i)), i);
  }

  /** A tag of the service's own is never found among the continuations. */
  lemma UserTagHasNoContinuation(s: State, user: Tag)
    requires Heap(s) && user in s.users
    ensures user !in s.sh.continuations
  {
    assert user !in Owner(s);
  }

  /** So asking the base class about it outside the dispatcher thread changes nothing. */
  lemma UpcallFindsNothing(s: State, i: nat)
    requires Heap(s) && Enabled(s, Upcall(i))
    ensures Apply(s, Upcall(i)) == WithHand(s, i, Idle)
  {
    assert UserTag(s.hands[i], s.hands[i].user);
    UserTagHasNoContinuation(s, s.hands[i].user);
  }

  lemma UpcallKeeps(s: State, i: nat)
    requires Inv(s) && Enabled(s, Upcall(i))
    ensures Inv(Apply(s, Upcall(i)))
  {
    var s' := Apply(s, Upcall(i));
    UpcallFindsNothing(s, i);
    UpcallConserved(s, i);
    UpcallTags(s, i);
    UpcallHeap(s, i);
    hide Conserved, TagsMatch, Lockstep, Ordered, Heap;
    HandLockstep(s, s', i);
    HandOrdered(s, s', i);
  }

  lemma UpcallConserved(s: State, i: nat)
    requires Conserved(s) && Heap(s) && Enabled(s, Upcall(i))
    ensures Conserved(Apply(s, Upcall(i)))
  {
    UpcallFindsNothing(s, i);
    var s' := Apply(s, Upcall(i));
    hide Conserved, Tally, Parked;
    forall c: CallId ensures Movable(s', i, c) == Movable(s, i, c) {}
    HandConserved(s, s', i);
  }

  lemma UpcallTags(s: State, i: nat)
    requires TagsMatch(s) && Heap(s) && Enabled(s, Upcall(i))
    ensures TagsMatch(Apply(s, Upcall(i)))
  {
    UpcallFindsNothing(s, i);
    HandTags(s, Apply(s, Upcall(i)), i);
  }

  lemma UpcallHeap(s: State, i: nat)
    requires Heap(s) && Enabled(s, Upcall(i))
    ensures Heap(Apply(s, Upcall(i)))
  {
    UpcallFindsNothing(s, i);
    HandHeap(s, Apply(s, Upcall(i)), i);
  }

  lemma SubmitKeeps(s: State, i: nat)
    requires Inv(s) && Enabled(s, Submit(i))
    ensures Inv(Apply(s, Submit(i)))
  {
    SubmitConserved(s, i);
    SubmitTags(s, i);
    SubmitHeap(s, i);
    SubmitPipe(s, i);
  }

  lemma SubmitMovable(s: State, i: nat, c: CallId)
    requires Enabled(s, Submit(i))
    ensures Movable(Apply(s, Submit(i)), i, c) == Movable(s, i, c)
  {
    var r := Response(s.hands[i].job.call, s.hands[i].body);
    TallyAppend(s.sh.responses, r, ResponseCalls);
    hide Tally, Parked;
  }

  lemma SubmitConserved(s: State, i: nat)
    requires Conserved(s) && Enabled(s, Submit(i))
    ensures Conserved(Apply(s, Submit(i)))
  {
    var s' := Apply(s, Submit(i));
    assert HandStep(s, s', i);
    hide Conserved, Tally, Parked, Movable, HandCalls, HandStep;
    forall c: CallId ensures Movable(s', i, c) == Movable(s, i, c) {
      SubmitMovable(s, i, c);
    }
    HandConserved(s, s', i);
  }

  lemma SubmitTags(s: State, i: nat)
    requires TagsMatch(s) && Enabled(s, Submit(i))
    ensures TagsMatch(Apply(s, Submit(i)))
  {
    HandTags(s, Apply(s, Submit(i)), i);
  }

  lemma SubmitHeap(s: State, i: nat)
    requires Heap(s) && Enabled(s, Submit(i))
    ensures Heap(Apply(s, Submit(i)))
  {
    HandHeap(s, Apply(s, Submit(i)), i);
  }

  lemma SubmitPipe(s: State, i: nat)
    requires Lockstep(s) && Ordered(s) && TagsMatch(s) && Enabled(s, Submit(i))
    ensures Lockstep(Apply(s, Submit(i))) && Ordered(Apply(s, Submit(i)))
  {
    var s' := Apply(s, Submit(i));
    var job, r := s.hands[i].job, Response(s.hands[i].job.call, s.hands[i].body);
    assert Owns(s, job);
    AwakeUpdate(s.hands, i, Idle);
    assert Flight(s') == Flight(s) + [TagFrame(job.tag)];
    PairedAppendTag(Owner(s), Flight(s), s.sh.responses, s.sh.signals, job.tag, r);
    hide Paired, Pending, Piped, Awake;
  }

  // ---------- the dispatcher ----------

  lemma ContinueKeeps(s: State)
    requires Inv(s) && Enabled(s, Continue)
    ensures Inv(Apply(s, Continue))
  {
    var s' := Apply(s, Continue);
    hide Conserved, TagsMatch, Lockstep, Ordered, Heap;
    KeepMost(s, s');
    KeepOrdered(s, s');
    KeepHeap(s, s');
  }

  lemma ReadFrameKeeps(s: State)
    requires Inv(s) && Enabled(s, ReadFrame)
    ensures Inv(Apply(s, ReadFrame))
  {
    var s' := Apply(s, ReadFrame);
    assert Flight(s') == Flight(s);
    hide Conserved, TagsMatch, Lockstep, Ordered, Heap, Flight, Pending;
    KeepMost(s, s');
    KeepOrdered(s, s');
    KeepHeap(s, s');
  }

  lemma PopEntryKeeps(s: State)
    requires Inv(s) && Enabled(s, PopEntry)
    ensures Inv(Apply(s, PopEntry))
  {
    var s' := Apply(s, PopEntry);
    FramePaired(s);
    PopEntryPipe(s);
    PopEntryConserved(s);
    assert Owner(s') == Owner(s);
    hide Conserved, TagsMatch, Lockstep, Ordered, Heap, Places;
    KeepTags(s, s');
    KeepHeap(s, s');
  }

  /** The queue has the entry that the frame in hand announces, and it is of the tag's own call. */
  lemma FramePaired(s: State)
    requires Lockstep(s) && s.disp.Framed?
    ensures s.disp.frame.TagFrame? ==>
              s.sh.responses != [] && Owns(s, Job(s.sh.responses[0].call, s.disp.frame.tag))
    ensures s.disp.frame.NullFrame? ==> s.sh.signals != []
  {}

  lemma PopEntryPipe(s: State)
    requires Lockstep(s) && Ordered(s) && s.disp.Framed?
    ensures Lockstep(Apply(s, PopEntry)) && Ordered(Apply(s, PopEntry))
  {
    var s' := Apply(s, PopEntry);
    assert Flight(s)[1..] == Flight(s') && Flight(s)[0] == s.disp.frame;
    assert Owner(s') == Owner(s);
    hide Owner, Awake, Piped;
    assert Leaving(s.disp) == [];
    assert [] + Pending(Flight(s), s.sh.responses, s.sh.signals)
        == Leaving(s'.disp) + Pending(Flight(s'), s'.sh.responses, s'.sh.signals);
  }

  lemma PopEntryConserved(s: State)
    requires Conserved(s) && Lockstep(s) && s.disp.Framed?
    ensures Conserved(Apply(s, PopEntry))
  {
    FramePaired(s);
    hide Conserved, Lockstep, Owns;
    var s' := Apply(s, PopEntry);
    if s.disp.frame.TagFrame? {
      TakeResponse(s, s');
    } else {
      PlacesSame(s, s');
      KeepConserved(s, s');
    }
  }

  /** The first response moves into the dispatcher's hand. */
  lemma TakeResponse(s: State, s': State)
    requires Conserved(s) && s.disp.Framed? && s'.disp.Popped? && s.sh.responses != []
    requires s'.sh.responses == s.sh.responses[1..] && s'.disp.job.call == s.sh.responses[0].call
    requires s'.sh.requests == s.sh.requests && s'.hands == s.hands && s'.sh.deferred == s.sh.deferred
    requires Replies(s') == Replies(s) && s'.accepted == s.accepted
    ensures Conserved(s')
  {
    hide Conserved, Tally, Parked, Replies;
    TallyFirst(s.sh.responses, ResponseCalls);
    forall c: CallId ensures Places(s', c) == Places(s, c) {}
    KeepConserved(s, s');
  }

  /** The original tag in the dispatcher's hand is no tag of the service's own. */
  lemma OriginalNotDeferred(s: State)
    requires TagsMatch(s) && Heap(s) && s.disp.Popped?
    ensures s.disp.job.tag !in s.sh.deferred && Owns(s, s.disp.job)
  {
    assert s.disp.job.tag in s.originals;
  }

  lemma RouteKeeps(s: State)
    requires Inv(s) && Enabled(s, Route)
    ensures Inv(Apply(s, Route))
  {
    OriginalNotDeferred(s);
    var s' := Apply(s, Route);
    hide Conserved, TagsMatch, Lockstep, Ordered, Heap;
    KeepMost(s, s');
    KeepOrdered(s, s');
    KeepHeap(s, s');
  }

  /** The call in the dispatcher's hand is in no queue, in no other hand and not parked. */
  lemma OnlyInHand(s: State)
    requires Conserved(s) && s.disp.Confirmed?
    ensures var c := s.disp.job.call;
            && (forall k :: 0 <= k < |s.sh.requests| ==> s.sh.requests[k].call != c)
            && (forall k :: 0 <= k < |s.hands| && HandCalls(s.hands[k]) != multiset{} ==> s.hands[k].job.call != c)
            && (forall u :: u in s.sh.deferred ==> s.sh.deferred[u].call != c)
            && (forall k :: 0 <= k < |s.sh.responses| ==> s.sh.responses[k].call != c)
  {
    var c := s.disp.job.call;
    AllElsewhereZero(s);
    hide Conserved, Tally;
    TallyNone(s.sh.requests, JobCalls, c);
    TallyNone(s.hands, HandCalls, c);
    TallyNone(s.sh.responses, ResponseCalls, c);
    forall k | 0 <= k < |s.sh.requests| ensures s.sh.requests[k].call != c {
      assert JobCalls(s.sh.requests[k])[c] == 0;
    }
    forall k | 0 <= k < |s.hands| && HandCalls(s.hands[k]) != multiset{} ensures s.hands[k].job.call != c {
      assert HandCalls(s.hands[k])[c] == 0;
    }
    forall u | u in s.sh.deferred ensures s.sh.deferred[u].call != c {
      assert u !in Parked(s.sh.deferred, c);
    }
    forall k | 0 <= k < |s.sh.responses| ensures s.sh.responses[k].call != c {
      assert ResponseCalls(s.sh.responses[k])[c] == 0;
    }
  }

  lemma AllElsewhereZero(s: State)
    requires Conserved(s) && s.disp.Confirmed?
    ensures var c := s.disp.job.call;
            && Tally(s.sh.requests, JobCalls)[c] == 0 && Tally(s.hands, HandCalls)[c] == 0
            && Parked(s.sh.deferred, c) == {} && Tally(s.sh.responses, ResponseCalls)[c] == 0
            && Replies(s)[c] == 0
  {
    hide Tally, Parked;
    assert DispCalls(s.disp)[s.disp.job.call] == 1;
    assert Places(s, s.disp.job.call) <= 1;
  }

  lemma SendReplyKeeps(s: State)
    requires Inv(s) && s.disp.Confirmed?
    ensures Inv(Apply(s, Send))
  {
    ConfirmedOwned(s);
    OnlyInHand(s);
    SendReplyConserved(s);
    SendReplyTags(s);
    SendReplyPipe(s);
    SendReplyHeap(s);
  }

  lemma ConfirmedOwned(s: State)
    requires TagsMatch(s) && s.disp.Confirmed?
    ensures s.disp.job.tag in s.sh.continuations && s.sh.continuations[s.disp.job.tag] == s.disp.job.call
    ensures Apply(s, Send).sh.bus == s.sh.bus + [Reply(s.disp.job.call, s.disp.body)]
    ensures Apply(s, Send).disp == Disposing(s.disp.job.tag)
    ensures Owner(Apply(s, Send)) == Owner(s) - {s.disp.job.tag}
  {
    assert Owns(s, s.disp.job);
  }

  lemma SendReplyConserved(s: State)
    requires Conserved(s) && TagsMatch(s) && s.disp.Confirmed?
    ensures Conserved(Apply(s, Send))
  {
    ConfirmedOwned(s);
    TallyAppend(s.sh.bus, Reply(s.disp.job.call, s.disp.body), OutCalls);
    MoveToBus(s, Apply(s, Send)) by { hide Conserved, TagsMatch, Tally, Owner; }
  }

  /** The call in the dispatcher's hand becomes a reply. */
  lemma MoveToBus(s: State, s': State)
    requires Conserved(s) && s.disp.Confirmed? && s'.disp.Disposing? && s'.accepted == s.accepted
    requires Replies(s') == Replies(s) + multiset{s.disp.job.call}
    requires s'.sh.requests == s.sh.requests && s'.hands == s.hands
    requires s'.sh.deferred == s.sh.deferred && s'.sh.responses == s.sh.responses
    ensures Conserved(s')
  {
    hide Conserved, Tally, Parked, Replies;
    assert DispCalls(s.disp) == multiset{s.disp.job.call} && DispCalls(s'.disp) == multiset{};
    forall c: CallId ensures Places(s', c) == Places(s, c) {}
    KeepConserved(s, s');
  }

  lemma SendReplyTags(s: State)
    requires Conserved(s) && TagsMatch(s) && s.disp.Confirmed?
    ensures TagsMatch(Apply(s, Send))
  {
    ConfirmedOwned(s);
    OnlyInHand(s);
    hide Conserved, TagsMatch, Tally, HandCalls, Owner;
    var s' := Apply(s, Send);
    TallyAppend(s.sh.bus, Reply(s.disp.job.call, s.disp.body), OutCalls);
    assert Replies(s') == Replies(s) + multiset{s.disp.job.call};
    ShrinkTags(s, s');
  }

  /** A tag is forgotten once nobody holds its call any more. */
  lemma ShrinkTags(s: State, s': State)
    requires TagsMatch(s) && s.disp.Confirmed?
    requires Owner(s') == Owner(s) - {s.disp.job.tag} && Replies(s') == Replies(s) + multiset{s.disp.job.call}
    requires s'.accepted == s.accepted && s'.sh.requests == s.sh.requests
    requires s'.hands == s.hands && s'.sh.deferred == s.sh.deferred
    requires !s'.disp.Popped? && !s'.disp.Confirmed?
    requires forall k :: 0 <= k < |s.sh.requests| ==> s.sh.requests[k].call != s.disp.job.call
    requires forall k :: 0 <= k < |s.hands| && HandCalls(s.hands[k]) != multiset{} ==>
                           s.hands[k].job.call != s.disp.job.call
    requires forall u :: u in s.sh.deferred ==> s.sh.deferred[u].call != s.disp.job.call
    ensures TagsMatch(s')
  {
    hide Owner, Replies, HandCalls;
    assert Owns(s, s.disp.job);
  }

  lemma SendReplyPipe(s: State)
    requires Conserved(s) && TagsMatch(s) && Lockstep(s) && Ordered(s) && s.disp.Confirmed?
    ensures Lockstep(Apply(s, Send)) && Ordered(Apply(s, Send))
  {
    ConfirmedOwned(s);
    OnlyInHand(s);
    var s' := Apply(s, Send);
    PairedForget(Owner(s), s.disp.job.tag, Flight(s), s.sh.responses, s.sh.signals);
    PipedAppend(s.sh.bus, Reply(s.disp.job.call, s.disp.body));
    hide Conserved, TagsMatch, Paired, Pending, Piped, Owner;
  }

  lemma SendReplyHeap(s: State)
    requires TagsMatch(s) && Heap(s) && s.disp.Confirmed?
    ensures Heap(Apply(s, Send))
  {
    ConfirmedOwned(s);
    hide TagsMatch;
  }

  lemma SendSignalKeeps(s: State)
    requires Inv(s) && s.disp.Broadcasting?
    ensures Inv(Apply(s, Send))
  {
    var s' := s.(sh := s.sh.(bus := s.sh.bus + [Signal(s.disp.sig)]), disp := Ready);
    assert Apply(s, Send) == s';
    SendSignalOrdered(s);
    hide Apply, Enabled, Conserved, TagsMatch, Lockstep, Ordered, Heap;
    TallyAppend(s.sh.bus, Signal(s.disp.sig), OutCalls);
    KeepHeap(s, s');
    hide Tally, Paired;
    KeepMost(s, s');
  }

  lemma SendSignalOrdered(s: State)
    requires Ordered(s) && s.disp.Broadcasting?
    ensures Ordered(Apply(s, Send))
  {
    var out, pending := Signal(s.disp.sig), Pending(Flight(s), s.sh.responses, s.sh.signals);
    PipedAppend(s.sh.bus, out);
    assert Flight(Apply(s, Send)) == Flight(s);
    assert (Piped(s.sh.bus) + [out]) + ([] + pending) == Piped(s.sh.bus) + ([out] + pending);
    hide Piped, Pending, Flight;
  }

  lemma DisposeKeeps(s: State)
    requires Inv(s) && Enabled(s, Dispose)
    ensures Inv(Apply(s, Dispose))
  {
    var s' := Apply(s, Dispose);
    DisposeHeap(s);
    hide Conserved, TagsMatch, Lockstep, Ordered, Heap;
    KeepMost(s, s');
    KeepOrdered(s, s');
  }

  lemma DisposeHeap(s: State)
    requires Heap(s) && Enabled(s, Dispose)
    ensures Heap(Apply(s, Dispose))
  {
    assert Owner(Apply(s, Dispose)) == Owner(s);
  }

  // ---------- every step ----------

  lemma StepKeeps(s: State, step: Step)
    requires Inv(s) && Enabled(s, step)
    ensures Inv(Apply(s, step))
  {
    hide Inv;
    match step
    case Accept(tag) => AcceptKeeps(s, tag);
    case Emit(sig) => EmitKeeps(s, sig);
    case EmitDirect(sig) => EmitDirectKeeps(s, sig);
    case Allocate(user) => AllocateKeeps(s, user);
    case Release(user) => ReleaseKeeps(s, user);
    case Complete(i, user, body) => CompleteKeeps(s, i, user, body);
    case Wake(i) => WakeKeeps(s, i);
    case Take(i) => TakeKeeps(s, i);
    case Finish(i, body) => FinishKeeps(s, i, body);
    case Defer(i, user) => DeferKeeps(s, i, user);
    case Register(i) => RegisterKeeps(s, i);
    case Announce(i) => AnnounceKeeps(s, i);
    case Upcall(i) => UpcallKeeps(s, i);
    case Submit(i) => SubmitKeeps(s, i);
    case Continue => ContinueKeeps(s);
    case ReadFrame => ReadFrameKeeps(s);
    case PopEntry => PopEntryKeeps(s);
    case Route => RouteKeeps(s);
    case Send =>
      if s.disp.Confirmed? {
        SendReplyKeeps(s);
      } else {
        SendSignalKeeps(s);
      }
    case Dispose => DisposeKeeps(s);
  }
}
