/**
 What every step of the request piper keeps: where each accepted call is, which queue entry each
 frame of the response pipe stands for, and which tags and addresses are live.
 */
module PiperInvariant {
  import opened Piper

  // ---------- where the calls are ----------

  /** All calls found in the entries of a queue, with multiplicity. */
  ghost function Tally<T>(q: seq<T>, calls: T -> multiset<CallId>): multiset<CallId> {
    if q == [] then multiset{} else calls(q[0]) + Tally(q[1..], calls)
  }

  function JobCalls(job: Job): multiset<CallId> {
    multiset{job.call}
  }

  function ResponseCalls(r: Response): multiset<CallId> {
    multiset{r.call}
  }

  function OutCalls(o: Out): multiset<CallId> {
    if o.Reply? then multiset{o.call} else multiset{}
  }

  function HandCalls(h: Hand): multiset<CallId> {
    if h.Serving? || h.Answering? || h.Deferring? then multiset{h.job.call} else multiset{}
  }

  function DispCalls(d: Dispatching): multiset<CallId> {
    if d.Popped? || d.Confirmed? then multiset{d.job.call} else multiset{}
  }

  ghost function Parked(deferred: map<Tag, Job>, c: CallId): set<Tag> {
    set u | u in deferred && deferred[u].call == c
  }

  ghost function Replies(s: State): multiset<CallId> {
    Tally(s.sh.bus, OutCalls)
  }

  /** In how many places call `c` is. */
  ghost function Places(s: State, c: CallId): nat {
    Tally(s.sh.requests, JobCalls)[c] + Tally(s.hands, HandCalls)[c] + |Parked(s.sh.deferred, c)|
    + Tally(s.sh.responses, ResponseCalls)[c] + DispCalls(s.disp)[c] + Replies(s)[c]
  }

  ghost predicate Conserved(s: State) {
    forall c: CallId :: Places(s, c) == if c < s.accepted then 1 else 0
  }

  // ---------- which call each original tag stands for ----------

  ghost function Owner(s: State): map<Tag, CallId> {
    if s.disp.Forwarding? then s.sh.continuations[s.disp.job.tag := s.disp.job.call]
    else s.sh.continuations
  }

  ghost predicate Owns(s: State, job: Job) {
    job.tag in Owner(s) && Owner(s)[job.tag] == job.call
  }

  ghost predicate TagsMatch(s: State) {
    && (forall k :: 0 <= k < |s.sh.requests| ==> Owns(s, s.sh.requests[k]))
    && (forall k :: 0 <= k < |s.hands| && HandCalls(s.hands[k]) != multiset{} ==> Owns(s, s.hands[k].job))
    && (forall u :: u in s.sh.deferred ==> Owns(s, s.sh.deferred[u]))
    && (s.disp.Popped? || s.disp.Confirmed? ==> Owns(s, s.disp.job))
    && (forall t :: t in Owner(s) ==> Owner(s)[t] < s.accepted && Replies(s)[Owner(s)[t]] == 0)
    && (forall t, t' :: t in Owner(s) && t' in Owner(s) && Owner(s)[t] == Owner(s)[t'] ==> t == t')
  }

  // ---------- pipes and queues in lockstep ----------

  ghost function Awake(hands: seq<Hand>): set<int> {
    set k | 0 <= k < |hands| && hands[k].Woken?
  }

  /** The frames written and not yet acted upon, the one in the dispatcher's hand first. */
  ghost function Flight(s: State): seq<Frame> {
    if s.disp.Framed? then [s.disp.frame] + s.sh.frames else s.sh.frames
  }

  /** Each tag frame has its response, of the call the tag stands for, and each NULL its signal. */
  ghost predicate Paired(owner: map<Tag, CallId>, flight: seq<Frame>, rs: seq<Response>, sigs: seq<SignalId>) {
    if flight == [] then rs == [] && sigs == []
    else match flight[0]
      case TagFrame(t) =>
        rs != [] && t in owner && owner[t] == rs[0].call && Paired(owner, flight[1..], rs[1..], sigs)
      case NullFrame =>
        sigs != [] && Paired(owner, flight[1..], rs, sigs[1..])
  }

  ghost predicate Lockstep(s: State) {
    && s.sh.wakeups + |Awake(s.hands)| == |s.sh.requests|
    && Paired(Owner(s), Flight(s), s.sh.responses, s.sh.signals)
    && !s.disp.Fault?
  }

  // ---------- order ----------

  /** What the frames in flight will put on the bus, in their order. */
  ghost function Pending(flight: seq<Frame>, rs: seq<Response>, sigs: seq<SignalId>): seq<Out> {
    if flight == [] then []
    else match flight[0]
      case TagFrame(t) =>
        if rs == [] then [] else [Reply(rs[0].call, rs[0].body)] + Pending(flight[1..], rs[1..], sigs)
      case NullFrame =>
        if sigs == [] then [] else [Signal(sigs[0])] + Pending(flight[1..], rs, sigs[1..])
  }

  function Leaving(d: Dispatching): seq<Out> {
    match d
    case Popped(job, body) => [Reply(job.call, body)]
    case Confirmed(job, body) => [Reply(job.call, body)]
    case Broadcasting(sig) => [Signal(sig)]
    case _ => []
  }

  /** The bus traffic that went through the response pipe. */
  ghost function Piped(bus: seq<Out>): seq<Out> {
    if bus == [] then [] else (if bus[0].Direct? then [] else [bus[0]]) + Piped(bus[1..])
  }

  ghost predicate Ordered(s: State) {
    s.submitted == Piped(s.sh.bus) + (Leaving(s.disp) + Pending(Flight(s), s.sh.responses, s.sh.signals))
  }

  // ---------- the heap of tags ----------

  ghost predicate Heap(s: State) {
    && s.originals == Owner(s).Keys + (if s.disp.Disposing? then {s.disp.tag} else {})
    && (s.disp.Disposing? ==> s.disp.tag !in Owner(s))
    && s.originals !! s.users
    && (forall u :: u in s.sh.deferred ==> u in s.users)
    && (forall k, u :: 0 <= k < |s.hands| && UserTag(s.hands[k], u) ==> u in s.users)
    && (forall k :: 0 <= k < |s.hands| && s.hands[k].Deferring? ==> s.hands[k].user !in s.sh.deferred)
    && (forall k, l :: 0 <= k < l < |s.hands| && s.hands[k].Deferring? && s.hands[l].Deferring? ==>
          s.hands[k].user != s.hands[l].user)
    && (forall u :: u in s.announced ==> u in s.sh.deferred)
  }

  ghost predicate Inv(s: State) {
    Conserved(s) && TagsMatch(s) && Lockstep(s) && Ordered(s) && Heap(s)
  }

  // ---------- how the parts of the invariant react to one change ----------

  lemma {:induction false} TallyAppend<T>(q: seq<T>, x: T, calls: T -> multiset<CallId>)
    ensures Tally(q + [x], calls) == Tally(q, calls) + calls(x)
    decreases |q|
  {
    if q == [] {
      assert Tally(([x])[1..], calls) == multiset{};
      assert q + [x] == [x];
    } else {
      assert (q + [x])[1..] == q[1..] + [x];
      TallyAppend(q[1..], x, calls);
    }
  }

  lemma TallyFirst<T>(q: seq<T>, calls: T -> multiset<CallId>)
    requires q != []
    ensures Tally(q, calls) == calls(q[0]) + Tally(q[1..], calls)
  {}

  lemma {:induction false} TallyUpdate<T>(q: seq<T>, i: nat, x: T, calls: T -> multiset<CallId>)
    requires i < |q|
    ensures Tally(q[i := x], calls) + calls(q[i]) == Tally(q, calls) + calls(x)
    decreases |q|
  {
    if i == 0 {
      assert q[i := x][1..] == q[1..];
    } else {
      assert q[i := x][1..] == q[1..][i - 1 := x] && q[i := x][0] == q[0];
      TallyUpdate(q[1..], i - 1, x, calls);
      var rest, rest' := Tally(q[1..], calls), Tally(q[1..][i - 1 := x], calls);
      assert q[1..][i - 1] == q[i];
      assert rest' + calls(q[i]) == rest + calls(x);
      assert calls(q[0]) + rest' + calls(q[i]) == calls(q[0]) + (rest' + calls(q[i]));
    }
  }

  /** Each entry's calls are counted. */
  lemma {:induction false} TallyMember<T>(q: seq<T>, i: nat, calls: T -> multiset<CallId>)
    requires i < |q|
    ensures calls(q[i]) <= Tally(q, calls)
    decreases |q|
  {
    if i > 0 {
      TallyMember(q[1..], i - 1, calls);
    }
  }

  lemma {:induction false} TallyNone<T>(q: seq<T>, calls: T -> multiset<CallId>, c: CallId)
    requires Tally(q, calls)[c] == 0
    ensures forall k :: 0 <= k < |q| ==> calls(q[k])[c] == 0
  {
    forall k | 0 <= k < |q| ensures calls(q[k])[c] == 0 {
      TallyMember(q, k, calls);
    }
  }

  lemma ParkedAdd(deferred: map<Tag, Job>, user: Tag, job: Job, c: CallId)
    requires user !in deferred
    ensures |Parked(deferred[user := job], c)| == |Parked(deferred, c)| + (if job.call == c then 1 else 0)
  {
    var added: set<Tag> := if job.call == c then {user} else {};
    assert Parked(deferred[user := job], c) == Parked(deferred, c) + added;
  }

  lemma ParkedRemove(deferred: map<Tag, Job>, user: Tag, c: CallId)
    requires user in deferred
    ensures |Parked(deferred - {user}, c)| == |Parked(deferred, c)| - (if deferred[user].call == c then 1 else 0)
  {
    var gone: set<Tag> := if deferred[user].call == c then {user} else {};
    assert Parked(deferred - {user}, c) == Parked(deferred, c) - gone;
  }

  lemma AwakeUpdate(hands: seq<Hand>, i: nat, h: Hand)
    requires i < |hands|
    ensures |Awake(hands[i := h])| ==
            |Awake(hands)| - (if hands[i].Woken? then 1 else 0) + (if h.Woken? then 1 else 0)
  {
    var hands' := hands[i := h];
    var others: set<int> := set k | 0 <= k < |hands| && k != i && hands[k].Woken?;
    assert forall k: int :: k in Awake(hands') <==> k in others || (k == i && h.Woken?);
    assert forall k: int :: k in Awake(hands) <==> k in others || (k == i && hands[i].Woken?);
    assert Awake(hands') == if h.Woken? then others + {i as int} else others;
    assert Awake(hands) == if hands[i].Woken? then others + {i as int} else others;
  }

  lemma {:induction false} PairedAppendTag(
      owner: map<Tag, CallId>, flight: seq<Frame>, rs: seq<Response>, sigs: seq<SignalId>, t: Tag, r: Response)
    requires Paired(owner, flight, rs, sigs) && t in owner && owner[t] == r.call
    ensures Paired(owner, flight + [TagFrame(t)], rs + [r], sigs)
    ensures Pending(flight + [TagFrame(t)], rs + [r], sigs) == Pending(flight, rs, sigs) + [Reply(r.call, r.body)]
    decreases |flight|
  {
    var flight', rs' := flight + [TagFrame(t)], rs + [r];
    if flight == [] {
      assert flight'[1..] == [] && rs'[1..] == [];
      assert Paired(owner, flight'[1..], rs'[1..], sigs);
    } else {
      assert flight'[1..] == flight[1..] + [TagFrame(t)];
      match flight[0]
      case TagFrame(_) =>
        assert rs'[1..] == rs[1..] + [r];
        PairedAppendTag(owner, flight[1..], rs[1..], sigs, t, r);
      case NullFrame =>
        PairedAppendTag(owner, flight[1..], rs, sigs[1..], t, r);
    }
  }

  lemma {:induction false} PairedAppendNull(
      owner: map<Tag, CallId>, flight: seq<Frame>, rs: seq<Response>, sigs: seq<SignalId>, sig: SignalId)
    requires Paired(owner, flight, rs, sigs)
    ensures Paired(owner, flight + [NullFrame], rs, sigs + [sig])
    ensures Pending(flight + [NullFrame], rs, sigs + [sig]) == Pending(flight, rs, sigs) + [Signal(sig)]
    decreases |flight|
  {
    var flight', sigs' := flight + [NullFrame], sigs + [sig];
    if flight == [] {
      assert flight'[1..] == [] && sigs'[1..] == [];
      assert Paired(owner, flight'[1..], rs, sigs'[1..]);
    } else {
      assert flight'[1..] == flight[1..] + [NullFrame];
      match flight[0]
      case TagFrame(_) =>
        PairedAppendNull(owner, flight[1..], rs[1..], sigs, sig);
      case NullFrame =>
        assert sigs'[1..] == sigs[1..] + [sig];
        PairedAppendNull(owner, flight[1..], rs, sigs[1..], sig);
    }
  }

  lemma {:induction false} PairedGrow(
      owner: map<Tag, CallId>, owner': map<Tag, CallId>, flight: seq<Frame>, rs: seq<Response>, sigs: seq<SignalId>)
    requires Paired(owner, flight, rs, sigs)
    requires forall t :: t in owner ==> t in owner' && owner'[t] == owner[t]
    ensures Paired(owner', flight, rs, sigs)
    decreases |flight|
  {
    if flight != [] {
      match flight[0]
      case TagFrame(_) => PairedGrow(owner, owner', flight[1..], rs[1..], sigs);
      case NullFrame => PairedGrow(owner, owner', flight[1..], rs, sigs[1..]);
    }
  }

  /** A tag whose call has no response waiting is in no frame, so it may be forgotten. */
  lemma {:induction false} PairedForget(
      owner: map<Tag, CallId>, gone: Tag, flight: seq<Frame>, rs: seq<Response>, sigs: seq<SignalId>)
    requires Paired(owner, flight, rs, sigs) && gone in owner
    requires forall k :: 0 <= k < |rs| ==> rs[k].call != owner[gone]
    ensures Paired(owner - {gone}, flight, rs, sigs)
    decreases |flight|
  {
    if flight != [] {
      match flight[0]
      case TagFrame(_) => PairedForget(owner, gone, flight[1..], rs[1..], sigs);
      case NullFrame => PairedForget(owner, gone, flight[1..], rs, sigs[1..]);
    }
  }

  lemma PipedFirst(o: Out, bus: seq<Out>)
    ensures Piped([o] + bus) == (if o.Direct? then [] else [o]) + Piped(bus)
  {
    assert ([o] + bus)[1..] == bus;
  }

  lemma {:induction false} PipedAppend(bus: seq<Out>, o: Out)
    ensures Piped(bus + [o]) == Piped(bus) + (if o.Direct? then [] else [o])
    decreases |bus|
  {
    if bus == [] {
      PipedFirst(o, []);
      assert bus + [o] == [o] + [];
    } else {
      hide Piped;
      PipedAppend(bus[1..], o);
      PipedFirst(bus[0], bus[1..]);
      PipedFirst(bus[0], bus[1..] + [o]);
      assert bus == [bus[0]] + bus[1..] && bus + [o] == [bus[0]] + (bus[1..] + [o]);
    }
  }
}
