/**
 How long the service must keep a tag.  A thread that has registered a deferred call still owes the tag its
 tag_registered(), and a return_now may still be under way when the tag has been returned.
 */
module PiperLifetimes {
  import opened Wire
  import opened Piper
  import opened PiperInvariant
  import opened PiperSteps
  import opened PiperTheorems

  // ---------- until the announcement ----------

  predicate Completes(step: Step, user: Tag) {
    step.Complete? && step.user == user
  }

  /** Steps that end with the tag freed: thread j does not come to its announcement, and no completion starts. */
  ghost predicate Frees(s: State, steps: seq<Step>, j: nat, user: Tag)
    decreases |steps|
  {
    if steps == [] then user !in s.users
    else
      && Enabled(s, steps[0]) && steps[0] != Announce(j) && !Completes(steps[0], user)
      && Frees(Apply(s, steps[0]), steps[1..], j, user)
  }

  /** The tag can be gone when thread j calls its tag_registered(), without any further completion. */
  ghost predicate MayDie(s: State, j: nat, user: Tag) {
    exists steps :: Frees(s, steps, j, user)
  }

  ghost predicate Guarded(s: State, user: Tag) {
    user in s.sh.deferred || BeingDeferred(s.hands, user)
  }

  /** Only a completion ends the time in which a call is deferred under the tag. */
  lemma GuardedStep(s: State, step: Step, user: Tag)
    requires Enabled(s, step) && Guarded(s, user) && !Completes(step, user)
    ensures Guarded(Apply(s, step), user)
  {
    var s' := Apply(s, step);
    if user !in s.sh.deferred {
      var k :| 0 <= k < |s.hands| && s.hands[k].Deferring? && s.hands[k].user == user;
      if step != Register(k) {
        assert s'.hands[k] == s.hands[k];
      }
    }
  }

  lemma GuardedLives(s: State, user: Tag)
    requires Heap(s) && Guarded(s, user)
    ensures user in s.users
  {
    if user !in s.sh.deferred {
      var k :| 0 <= k < |s.hands| && s.hands[k].Deferring? && s.hands[k].user == user;
      assert UserTag(s.hands[k], user);
    }
  }

  lemma {:induction false} GuardedNotFreed(s: State, steps: seq<Step>, j: nat, user: Tag)
    requires Reachable(s) && Guarded(s, user)
    ensures !Frees(s, steps, j, user)
    decreases |steps|
  {
    hide Reachable, Guarded, Apply, Enabled, Heap;
    if steps == [] {
      ReachableInv(s);
      GuardedLives(s, user);
    } else if Enabled(s, steps[0]) && !Completes(steps[0], user) {
      ReachesNext(s, steps[0]);
      GuardedStep(s, steps[0], user);
      GuardedNotFreed(Apply(s, steps[0]), steps[1..], j, user);
    }
  }

  ghost function Askers(hands: seq<Hand>, user: Tag): set<int> {
    set k | 0 <= k < |hands| && UserTag(hands[k], user)
  }

  lemma AskerLeaves(s: State, k: nat, user: Tag)
    requires k < |s.hands| && UserTag(s.hands[k], user)
    ensures |Askers(s.hands[k := Idle], user)| < |Askers(s.hands, user)|
  {
    assert Askers(s.hands[k := Idle], user) == Askers(s.hands, user) - {k as int};
  }

  /** Every return_now that is under way finds nothing; then the service may free the tag. */
  lemma {:induction false} CanBeFreed(s: State, j: nat, user: Tag) returns (steps: seq<Step>)
    requires Reachable(s) && j < |s.hands| && s.hands[j] == Announcing(user) && !Guarded(s, user)
    ensures Frees(s, steps, j, user)
    decreases |Askers(s.hands, user)|
  {
    hide Reachable, Askers;
    if user !in s.users {
      return [];
    }
    if !InAHand(s.hands, user) {
      assert [Release(user)][1..] == [];
      return [Release(user)];
    }
    var k :| 0 <= k < |s.hands| && UserTag(s.hands[k], user);
    ReachableInv(s);
    UpcallFindsNothing(s, k);
    hide Inv, Conserved, TagsMatch, Lockstep, Ordered, Heap;
    ReachesNext(s, Upcall(k));
    AskerLeaves(s, k, user);
    var next := WithHand(s, k, Idle);
    assert !BeingDeferred(next.hands, user) by {
      assert forall l | 0 <= l < |s.hands| && l != k :: next.hands[l] == s.hands[l];
    }
    steps := CanBeFreed(next, j, user);
    steps := [Upcall(k)] + steps;
  }

  /** In a reachable state: exactly when the call has been taken from under the tag and none is on its way there. */
  lemma MayDieIff(s: State, j: nat, user: Tag)
    requires Reachable(s) && j < |s.hands| && s.hands[j] == Announcing(user)
    ensures MayDie(s, j, user) <==> user !in s.sh.deferred && !BeingDeferred(s.hands, user)
  {
    hide Reachable, Frees, BeingDeferred;
    if Guarded(s, user) {
      forall steps ensures !Frees(s, steps, j, user) {
        GuardedNotFreed(s, steps, j, user);
      }
    } else {
      var steps := CanBeFreed(s, j, user);
    }
  }

  /** A step that follows the registration lays the tag open exactly when it is a completion. */
  lemma EarlyCompletionIff(s: State, j: nat, user: Tag, step: Step)
    requires Reachable(s) && j < |s.hands| && s.hands[j] == Announcing(user) && user in s.sh.deferred
    requires Enabled(s, step) && step != Announce(j)
    ensures MayDie(Apply(s, step), j, user) <==> Completes(step, user)
  {
    ReachableInv(s);
    AnnouncerStays(s, j, step);
    if Completes(step, user) {
      CompletedUnguarded(s, step.i, user, step.body);
    } else {
      GuardedStep(s, step, user);
    }
    hide Reachable, Inv, Heap, MayDie, Apply, Enabled;
    ReachesNext(s, step);
    MayDieIff(Apply(s, step), j, user);
  }

  lemma AnnouncerStays(s: State, j: nat, step: Step)
    requires j < |s.hands| && s.hands[j].Announcing? && Enabled(s, step) && step != Announce(j)
    ensures j < |Apply(s, step).hands| && Apply(s, step).hands[j] == s.hands[j]
  {
  }

  lemma CompletedUnguarded(s: State, i: nat, user: Tag, body: Body)
    requires Heap(s) && Enabled(s, Complete(i, user, body)) && user in s.sh.deferred
    ensures !Guarded(Apply(s, Complete(i, user, body)), user)
  {
    var s' := Apply(s, Complete(i, user, body));
    assert !BeingDeferred(s.hands, user);
    assert forall l | 0 <= l < |s.hands| && l != i :: s'.hands[l] == s.hands[l];
  }

  lemma {:induction false} FreedReached(s: State, steps: seq<Step>, j: nat, user: Tag) returns (t: State)
    requires Reachable(s) && j < |s.hands| && s.hands[j] == Announcing(user) && Frees(s, steps, j, user)
    ensures Reachable(t) && j < |t.hands| && t.hands[j] == Announcing(user) && user !in t.users
    decreases |steps|
  {
    hide Reachable;
    t := s;
    if steps != [] {
      ReachesNext(s, steps[0]);
      AnnouncerStays(s, j, steps[0]);
      t := FreedReached(Apply(s, steps[0]), steps[1..], j, user);
    }
  }

  /** Every completion that does not wait can be followed by a tag_registered() on a dead tag. */
  lemma EarlyCompletion(s: State, i: nat, j: nat, user: Tag, body: Body) returns (t: State)
    requires Reachable(s) && j < |s.hands| && s.hands[j] == Announcing(user)
    requires user in s.sh.deferred && Enabled(s, Complete(i, user, body))
    ensures Reachable(t) && j < |t.hands| && t.hands[j] == Announcing(user)
    ensures Enabled(t, Announce(j)) && user !in t.users
  {
    EarlyCompletionIff(s, j, user, Complete(i, user, body));
    AnnouncerStays(s, j, Complete(i, user, body));
    hide Reachable, Frees;
    var s' := Apply(s, Complete(i, user, body));
    ReachesNext(s, Complete(i, user, body));
    var steps :| Frees(s', steps, j, user);
    t := FreedReached(s', steps, j, user);
  }

  ghost predicate Exposed(s: State) {
    exists j: nat :: j < |s.hands| && s.hands[j].Announcing? && MayDie(s, j, s.hands[j].user)
  }

  /**
   A run is safe for every tag_registered() exactly when no completion starts before it: only then is there
   no state from which a tag could be freed under a thread that has yet to announce it.
   */
  lemma DisciplinedIff(trace: seq<State>, steps: seq<Step>)
    requires Run(trace, steps)
    ensures Disciplined(trace, steps) <==> forall k :: 0 <= k < |trace| ==> !Exposed(trace[k])
  {
    if Disciplined(trace, steps) {
      forall k: nat | k < |trace| ensures !Exposed(trace[k]) {
        ParkedNotExposed(trace, steps, k);
      }
    } else {
      var k: nat :| k < |steps| && Early(trace[k], steps[k]);
      EarlyExposes(trace, steps, k);
    }
  }

  lemma ParkedNotExposed(trace: seq<State>, steps: seq<Step>, k: nat)
    requires Disciplined(trace, steps) && k < |trace|
    ensures !Exposed(trace[k])
  {
    AnnouncedInTime(trace, steps, k);
    RunReaches(trace, steps, k);
    hide Disciplined, Reachable, MayDie;
    var s := trace[k];
    forall j: nat | j < |s.hands| && s.hands[j].Announcing? ensures !MayDie(s, j, s.hands[j].user) {
      MayDieIff(s, j, s.hands[j].user);
    }
  }

  predicate Early(s: State, step: Step) {
    step.Complete? && Announcing(step.user) in s.hands
  }

  /** The first completion that comes too early leaves a state in which the tag may die. */
  lemma {:induction false} EarlyExposes(trace: seq<State>, steps: seq<Step>, k: nat)
    requires Run(trace, steps) && k < |steps| && Early(trace[k], steps[k])
    ensures exists l :: 0 <= l < |trace| && Exposed(trace[l])
    decreases k
  {
    if l: nat :| l < k && Early(trace[l], steps[l]) {
      EarlyExposes(trace, steps, l);
    } else {
      var s, step := trace[k], steps[k];
      var j :| 0 <= j < |s.hands| && s.hands[j] == Announcing(step.user);
      FirstEarlyParked(trace, steps, k, j);
      RunReaches(trace, steps, k);
      assert Enabled(s, step) && trace[k + 1] == Apply(s, step);
      AnnouncerStays(s, j, step);
      hide Reachable, MayDie, Run, Enabled, Apply;
      EarlyCompletionIff(s, j, step.user, step);
      assert Exposed(trace[k + 1]);
    }
  }

  lemma FirstEarlyParked(trace: seq<State>, steps: seq<Step>, k: nat, j: nat)
    requires Run(trace, steps) && k < |steps| && j < |trace[k].hands| && trace[k].hands[j].Announcing?
    requires forall l: nat :: l < k ==> !Early(trace[l], steps[l])
    ensures trace[k].hands[j].user in trace[k].sh.deferred
  {
    var start, taken := trace[..k + 1], steps[..k];
    assert Run(start, taken);
    forall l | 0 <= l < |taken| && taken[l].Complete?
      ensures forall i :: 0 <= i < |start[l].hands| ==> start[l].hands[i] != Announcing(taken[l].user)
    {
      assert !Early(trace[l], steps[l]);
    }
    AnnouncedInTime(start, taken, k);
    assert start[k].hands[j].Announcing?;
  }

  // ---------- during a return ----------

  /**
   The tag freed regardless of a return_now under way, its address taken by the forwarding stub, and
   then the base class asked.
   */
  ghost predicate AfterFreeing(s: State, i: nat, user: Tag, t: State) {
    var freed := s.(users := s.users - {user});
    && Enabled(freed, Accept(user)) && Enabled(Apply(freed, Accept(user)), Continue)
    && Enabled(Apply(Apply(freed, Accept(user)), Continue), Upcall(i))
    && t == Apply(Apply(Apply(freed, Accept(user)), Continue), Upcall(i))
  }

  /**
   Why a tag must stay allocated while a return_now on it is under way: from every state in which one has
   looked for a parked call and has not yet asked the base class, freeing the tag lets the late body answer
   a call that still waits in the request queue.
   */
  lemma FreedDuringReturn(s: State, i: nat, user: Tag, body: Body) returns (t: State)
    requires Reachable(s) && s.disp.Ready? && i < |s.hands| && s.hands[i] == Upcalling(user, body)
    ensures AfterFreeing(s, i, user, t)
    ensures t.sh.bus == s.sh.bus + [Reply(s.accepted, body)]
    ensures t.sh.requests == s.sh.requests + [Job(s.accepted, user)]
    ensures Places(t, s.accepted) == 2
  {
    ReachableInv(s);
    ExactlyOnce(s, s.accepted);
    assert UserTag(s.hands[i], user);
    assert user !in s.originals;
    hide Reachable, Inv, Heap, Conserved, Places, AfterFreeing;
    t := Misanswer(s, i, user, body);
    AnsweredWhileWaiting(s, t, i, user, body);
  }

  lemma Misanswer(s: State, i: nat, user: Tag, body: Body) returns (t: State)
    requires s.disp.Ready? && i < |s.hands| && s.hands[i] == Upcalling(user, body) && user !in s.originals
    ensures AfterFreeing(s, i, user, t)
    ensures t.sh.bus == s.sh.bus + [Reply(s.accepted, body)]
    ensures t.sh.requests == s.sh.requests + [Job(s.accepted, user)]
    ensures t.hands == s.hands[i := Idle] && t.disp.Ready?
    ensures t.sh.deferred == s.sh.deferred && t.sh.responses == s.sh.responses
  {
    var freed := s.(users := s.users - {user});
    var forwarding := Apply(freed, Accept(user));
    var registered := Apply(forwarding, Continue);
    assert registered.sh.continuations[user] == s.accepted;
    t := Apply(registered, Upcall(i));
  }

  lemma AnsweredWhileWaiting(s: State, t: State, i: nat, user: Tag, body: Body)
    requires Places(s, s.accepted) == 0 && i < |s.hands| && s.hands[i] == Upcalling(user, body) && s.disp.Ready?
    requires t.sh.requests == s.sh.requests + [Job(s.accepted, user)]
    requires t.sh.bus == s.sh.bus + [Reply(s.accepted, body)] && t.hands == s.hands[i := Idle]
    requires t.sh.deferred == s.sh.deferred && t.sh.responses == s.sh.responses && t.disp.Ready?
    ensures Places(t, s.accepted) == 2
  {
    var c, job, reply := s.accepted, Job(s.accepted, user), Reply(s.accepted, body);
    TallyAppend(s.sh.requests, job, JobCalls);
    TallyAppend(s.sh.bus, reply, OutCalls);
    TallyUpdate(s.hands, i, Idle, HandCalls);
    assert JobCalls(job) == multiset{c} && OutCalls(reply) == multiset{c};
    assert HandCalls(Idle) == multiset{} && HandCalls(s.hands[i]) == multiset{};
    hide Tally, Parked, JobCalls, OutCalls, HandCalls;
    assert (Tally(t.hands, HandCalls) + HandCalls(s.hands[i]))[c] == (Tally(s.hands, HandCalls) + HandCalls(Idle))[c];
    assert Tally(t.sh.requests, JobCalls)[c] == Tally(s.sh.requests, JobCalls)[c] + 1;
    assert Replies(t)[c] == Replies(s)[c] + 1;
  }

  // ---------- such states are reached ----------

  /** A call forwarded, under the original tag 1, while the service has a tag 2 and two threads. */
  lemma OneForwarded() returns (s: State)
    ensures Reachable(s)
    ensures s == State(EMPTY.(requests := [Job(0, 1)], wakeups := 1, continuations := map[1 := 0]),
                       [Idle, Idle], Ready, {1}, {2}, 1, [], {})
  {
    InitReachable(2);
    s := Init(2);
    assert s == State(EMPTY, [Idle, Idle], Ready, {}, {}, 0, [], {});
    hide Reachable, Init;
    s := TakeStep(s, Allocate(2));
    assert s == State(EMPTY, [Idle, Idle], Ready, {}, {2}, 0, [], {});
    s := TakeStep(s, Accept(1));
    assert s == State(EMPTY.(requests := [Job(0, 1)], wakeups := 1), [Idle, Idle], Forwarding(Job(0, 1)),
                      {1}, {2}, 1, [], {});
    s := TakeStep(s, Continue);
  }

  /** The call popped by the first thread. */
  lemma OneServing() returns (s: State)
    ensures Reachable(s)
    ensures s == State(EMPTY.(continuations := map[1 := 0]),
                       [Serving(Job(0, 1)), Idle], Ready, {1}, {2}, 1, [], {})
  {
    s := OneForwarded();
    hide Reachable;
    s := TakeStep(s, Wake(0));
    assert s.hands == [Woken, Idle];
    s := TakeStep(s, Take(0));
    assert [Job(0, 1)][1..] == [];
  }

  /** A completion returns the tag between the registration and tag_registered(), and the service frees it. */
  lemma FreedBeforeAnnounced() returns (s: State)
    ensures Reachable(s) && Enabled(s, Announce(0)) && s.hands[0] == Announcing(2) && 2 !in s.users
  {
    s := OneServing();
    hide Reachable;
    s := TakeStep(s, Defer(0, 2));
    s := TakeStep(s, Register(0));
    s := EarlyCompletion(s, 1, 0, 2, []);
  }

  /** A second return_now on a tag that was returned before, or was never deferred. */
  lemma LateReturn() returns (s: State, t: State)
    ensures Reachable(s) && s == State(EMPTY, [Upcalling(2, [])], Ready, {}, {2}, 0, [], {})
    ensures AfterFreeing(s, 0, 2, t) && Places(t, 0) == 2
  {
    InitReachable(1);
    hide Reachable;
    s := Init(1);
    assert s.hands == [Idle];
    s := TakeStep(s, Allocate(2));
    s := TakeStep(s, Complete(0, 2, []));
    assert s.hands == [Upcalling(2, [])] && s.users == {2};
    t := FreedDuringReturn(s, 0, 2, []);
  }
}
