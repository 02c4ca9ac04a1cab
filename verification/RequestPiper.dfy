/**
 The request piper's object: its queues, pipes and continuation maps, updated in place.  Beside it runs the
 state machine; each method is one of its steps, or one thread's steps in a row, and the fields are the
 machine's shared state throughout.
 */
module RequestPiperObject {
  import opened Wire
  import opened Piper
  import opened PiperInvariant
  import opened PiperSteps
  import opened PiperTheorems
  import opened Wrappers

  /** What the original method does: it returns or throws, or it defers its reply under a tag of its own. */
  datatype Outcome = Answer(body: Body) | Later(user: Tag)

  ghost predicate CanDefer(s: State, user: Tag) {
    user in s.users && user !in s.sh.deferred && !BeingDeferred(s.hands, user)
  }

  /** The steps of a worker that has popped a request, one after the other. */
  ghost function Served(s: State, i: nat, outcome: Outcome): State
    requires i < |s.hands| && s.hands[i].Serving? && (outcome.Later? ==> CanDefer(s, outcome.user))
  {
    match outcome
    case Answer(body) => Apply(Apply(s, Finish(i, body)), Submit(i))
    case Later(user) => Apply(Apply(Apply(s, Step.Defer(i, user)), Register(i)), Announce(i))
  }

  /** The steps of one return_now in a row. */
  ghost function Returned(s: State, i: nat, tag: Tag, body: Body): State
    requires Enabled(s, Complete(i, tag, body))
  {
    var taken := Apply(s, Complete(i, tag, body));
    if tag in s.sh.deferred then Apply(taken, Submit(i)) else Apply(taken, Upcall(i))
  }

  class RequestPiper {
    var requestQueue: seq<Job>
    var requestPipe: nat
    var responseQueue: seq<Response>
    var signalQueue: seq<SignalId>
    var responsePipe: seq<Frame>
    var pipeContinuations: map<Tag, Job>
    var continuations: map<Tag, CallId>
    var sent: seq<Out>
    ghost var state: State

    ghost function View(): Shared
      reads this
    {
      Shared(requestQueue, requestPipe, responseQueue, signalQueue, responsePipe,
             pipeContinuations, continuations, sent)
    }

    /** The fields are the shared part of a reachable state. */
    ghost predicate Valid()
      reads this
    {
      state.sh == View() && Reachable(state)
    }

    constructor (threads: nat)
      ensures Valid() && state == Init(threads)
    {
      requestQueue, requestPipe, responseQueue, signalQueue, responsePipe := [], 0, [], [], [];
      pipeContinuations, continuations, sent := map[], map[], [];
      state := Init(threads);
      InitReachable(threads);
    }

    /** The machine moves on; the caller has already changed the fields accordingly. */
    ghost method Moves(step: Step)
      requires Enabled(state, step) && Reachable(state) && View() == Apply(state, step).sh
      modifies this`state
      ensures Valid() && state == Apply(old(state), step)
    {
      hide Reachable, Enabled, Apply;
      ReachesNext(state, step);
      state := Apply(state, step);
    }

    /** _Forwarding_stub: the entry first, then the byte that wakes a worker, under request_mutex. */
    method ForwardingStub(call: CallId, laterTag: Tag)
      requires Valid() && Enabled(state, Accept(laterTag)) && call == state.accepted
      modifies this
      ensures Valid() && state == Apply(old(state), Accept(laterTag))
      ensures View() == old(View()).(requests := old(requestQueue) + [Job(call, laterTag)],
                                     wakeups := old(requestPipe) + 1)
    {
      hide Reachable;
      requestQueue := requestQueue + [Job(call, laterTag)];
      requestPipe := requestPipe + 1;
      Moves(Accept(laterTag));
    }

    /** handle_message catching the forwarding stub's return_later. */
    method RegisterContinuation(call: CallId, tag: Tag)
      requires Valid() && state.disp == Forwarding(Job(call, tag))
      modifies this
      ensures Valid() && state == Apply(old(state), Continue)
      ensures View() == old(View()).(continuations := old(continuations)[tag := call])
    {
      hide Reachable;
      continuations := continuations[tag := call];
      Moves(Continue);
    }

    /**
     handle_message for a forwarded method, on the dispatcher thread that nothing interrupts: the stub
     enqueues and throws return_later, and the continuation is registered under the stub's tag.
     */
    method HandleMessage(call: CallId, laterTag: Tag)
      requires Valid() && Enabled(state, Accept(laterTag)) && call == state.accepted
      modifies this
      ensures Valid() && Enabled(Apply(old(state), Accept(laterTag)), Continue)
      ensures state == Apply(Apply(old(state), Accept(laterTag)), Continue)
      ensures View() == old(View()).(requests := old(requestQueue) + [Job(call, laterTag)],
                                     wakeups := old(requestPipe) + 1,
                                     continuations := old(continuations)[laterTag := call])
    {
      hide Reachable;
      ForwardingStub(call, laterTag);
      RegisterContinuation(call, laterTag);
    }

    /** check_pipe_request: the read that wakes the worker. */
    method ReadByte(i: nat)
      requires Valid() && Enabled(state, Wake(i))
      modifies this
      ensures Valid() && state == Apply(old(state), Wake(i))
      ensures old(requestPipe) > 0 && View() == old(View()).(wakeups := old(requestPipe) - 1)
    {
      hide Reachable;
      requestPipe := requestPipe - 1;
      Moves(Wake(i));
    }

    /** The pop of process_pipe_request under request_mutex; a woken worker always finds an entry. */
    method TakeRequest(i: nat) returns (job: Job)
      requires Valid() && Enabled(state, Take(i))
      modifies this
      ensures Valid() && state == Apply(old(state), Take(i)) && IsThread(state, i) && state.hands[i] == Serving(job)
      ensures old(requestQueue) == [job] + requestQueue && View() == old(View()).(requests := requestQueue)
    {
      NoEmptyPop(state);
      hide Reachable;
      job := requestQueue[0];
      requestQueue := requestQueue[1..];
      Moves(Take(i));
    }

    /** do_dispatch: response and tag together, under response_n_signal_mutex. */
    method DoDispatch(i: nat, job: Job, body: Body)
      requires Valid() && IsThread(state, i) && state.hands[i] == Answering(job, body)
      modifies this
      ensures Valid() && state == Apply(old(state), Submit(i))
      ensures View() == old(View()).(responses := old(responseQueue) + [Response(job.call, body)],
                                     frames := old(responsePipe) + [TagFrame(job.tag)])
    {
      hide Reachable;
      responseQueue := responseQueue + [Response(job.call, body)];
      responsePipe := responsePipe + [TagFrame(job.tag)];
      Moves(Submit(i));
    }

    /** The worker's return_later: the new tag is the key, the forwarding stub's tag is kept with the call. */
    method Park(i: nat, user: Tag, job: Job)
      requires Valid() && IsThread(state, i) && state.hands[i] == Deferring(job, user)
      modifies this
      ensures Valid() && state == Apply(old(state), Register(i))
      ensures View() == old(View()).(deferred := old(pipeContinuations)[user := job])
    {
      hide Reachable;
      pipeContinuations := pipeContinuations[user := job];
      Moves(Register(i));
    }

    /** process_pipe_request by a worker that nothing interrupts. */
    method ProcessPipeRequest(i: nat, outcome: Outcome)
      requires Valid() && Enabled(state, Take(i)) && (outcome.Later? ==> CanDefer(state, outcome.user))
      modifies this
      ensures Valid() && Enabled(old(state), Take(i))
      ensures var popped := Apply(old(state), Take(i));
              && popped.hands[i].Serving? && (outcome.Later? ==> CanDefer(popped, outcome.user))
              && state == Served(popped, i, outcome)
      ensures old(requestQueue) != []
      ensures outcome.Answer? ==>
                View() == old(View()).(requests := old(requestQueue)[1..],
                                       responses := old(responseQueue)
                                                    + [Response(old(requestQueue)[0].call, outcome.body)],
                                       frames := old(responsePipe) + [TagFrame(old(requestQueue)[0].tag)])
      ensures outcome.Later? ==>
                View() == old(View()).(requests := old(requestQueue)[1..],
                                       deferred := old(pipeContinuations)[outcome.user := old(requestQueue)[0]])
    {
      hide Reachable;
      var job := TakeRequest(i);
      match outcome {
        case Answer(body) =>
          Moves(Finish(i, body));
          DoDispatch(i, job, body);
        case Later(user) =>
          assert CanDefer(state, user);
          Moves(Step.Defer(i, user));
          Park(i, user, job);
          Moves(Announce(i));
      }
    }

    /** One turn of check_pipe_request by a worker that nothing interrupts: a byte, then the oldest request. */
    method CheckPipeRequest(i: nat, outcome: Outcome)
      requires Valid() && Enabled(state, Wake(i)) && (outcome.Later? ==> CanDefer(state, outcome.user))
      modifies this
      ensures Valid() && old(requestQueue) != [] && Enabled(old(state), Wake(i))
      ensures var woken := Apply(old(state), Wake(i));
              && Enabled(woken, Take(i))
              && var popped := Apply(woken, Take(i));
              && popped.hands[i] == Serving(old(requestQueue)[0])
              && (outcome.Later? ==> CanDefer(popped, outcome.user))
              && state == Served(popped, i, outcome)
      ensures old(requestPipe) > 0
      ensures outcome.Answer? ==>
                View() == old(View()).(wakeups := old(requestPipe) - 1, requests := old(requestQueue)[1..],
                                       responses := old(responseQueue)
                                                    + [Response(old(requestQueue)[0].call, outcome.body)],
                                       frames := old(responsePipe) + [TagFrame(old(requestQueue)[0].tag)])
      ensures outcome.Later? ==>
                View() == old(View()).(wakeups := old(requestPipe) - 1, requests := old(requestQueue)[1..],
                                       deferred := old(pipeContinuations)[outcome.user := old(requestQueue)[0]])
    {
      hide Reachable;
      ReadByte(i);
      ProcessPipeRequest(i, outcome);
    }

    /** _emit_signal: the dispatcher thread sends by itself, every other thread goes through the pipe. */
    method EmitSignal(sig: SignalId, inDispatcherThread: bool)
      requires Valid() && (inDispatcherThread ==> state.disp.Ready?)
      modifies this
      ensures Valid() && state == Apply(old(state), if inDispatcherThread then EmitDirect(sig) else Emit(sig))
      ensures inDispatcherThread ==> View() == old(View()).(bus := old(sent) + [Direct(sig)])
      ensures !inDispatcherThread ==> View() == old(View()).(signals := old(signalQueue) + [sig],
                                                             frames := old(responsePipe) + [NullFrame])
    {
      hide Reachable;
      if inDispatcherThread {
        sent := sent + [Direct(sig)];
        Moves(EmitDirect(sig));
        return;
      }
      signalQueue := signalQueue + [sig];
      responsePipe := responsePipe + [NullFrame];
      Moves(Emit(sig));
    }

    /** The look-up of return_now, under _pipe_continuations_mutex. */
    method TakeDeferred(i: nat, tag: Tag, body: Body) returns (job: Option<Job>)
      requires Valid() && Enabled(state, Complete(i, tag, body))
      modifies this
      ensures Valid() && state == Apply(old(state), Complete(i, tag, body))
      ensures job == if tag in old(state).sh.deferred then Some(old(state).sh.deferred[tag]) else None
      ensures View() == old(View()).(deferred := old(pipeContinuations) - {tag})
    {
      hide Reachable;
      if tag in pipeContinuations {
        job := Some(pipeContinuations[tag]);
        pipeContinuations := pipeContinuations - {tag};
      } else {
        job := None;
      }
      Moves(Complete(i, tag, body));
    }

    /** return_now by a thread that nothing interrupts: forward the reply, or ask the base class. */
    method ReturnNow(i: nat, tag: Tag, body: Body)
      requires Valid() && Enabled(state, Complete(i, tag, body))
      modifies this
      ensures Valid() && state == Returned(old(state), i, tag, body)
      ensures tag !in old(pipeContinuations) ==> View() == old(View())
      ensures tag in old(pipeContinuations) ==>
                var job := old(pipeContinuations)[tag];
                View() == old(View()).(deferred := old(pipeContinuations) - {tag},
                                       responses := old(responseQueue) + [Response(job.call, body)],
                                       frames := old(responsePipe) + [TagFrame(job.tag)])
    {
      var deferred := TakeDeferred(i, tag, body);
      if deferred == None {
        ReachableInv(state);
        UpcallFindsNothing(state, i);
        hide Inv, Reachable;
        BaseReturnNow(tag, body);
        Moves(Upcall(i));
      } else {
        hide Reachable;
        DoDispatch(i, deferred.value, body);
      }
    }

    /** ObjectAdaptor::return_now: the body is copied into the continuation's own, still empty, return message. */
    method BaseReturnNow(tag: Tag, body: Body)
      modifies this`sent, this`continuations
      ensures View() == Piper.ReturnNow(old(View()), tag, body)
      ensures tag !in old(continuations) ==> View() == old(View())
      ensures tag in old(continuations) ==>
                && sent == old(sent) + [Reply(old(continuations)[tag], body)]
                && continuations == old(continuations) - {tag}
    {
      if tag in continuations {
        var reader := new Reader(body);
        var writer := new Writer(StructKind, "");
        reader.CopyData(writer);
        assert writer.out == body;
        sent := sent + [Reply(continuations[tag], writer.out)];
        continuations := continuations - {tag};
      }
    }

    /** The read of a frame by the dispatcher thread. */
    method ReadPipe() returns (frame: Frame)
      requires Valid() && Enabled(state, ReadFrame)
      modifies this
      ensures Valid() && state == Apply(old(state), ReadFrame) && state.disp == Framed(frame)
    {
      hide Reachable;
      frame := responsePipe[0];
      responsePipe := responsePipe[1..];
      Moves(ReadFrame);
    }

    /** The pop of a response under response_n_signal_mutex: a tag always has one. */
    method TakeResponse(tag: Tag) returns (r: Response)
      requires Valid() && state.disp == Framed(TagFrame(tag))
      modifies this
      ensures Valid() && state == Apply(old(state), PopEntry)
      ensures state.disp == Popped(Job(r.call, tag), r.body)
    {
      NoEmptyPop(state);
      hide Reachable;
      r := responseQueue[0];
      responseQueue := responseQueue[1..];
      Moves(PopEntry);
    }

    /** The pop of a signal: a NULL always has one. */
    method TakeSignal() returns (sig: SignalId)
      requires Valid() && state.disp == Framed(NullFrame)
      modifies this
      ensures Valid() && state == Apply(old(state), PopEntry) && state.disp == Broadcasting(sig)
    {
      NoEmptyPop(state);
      hide Reachable;
      sig := signalQueue[0];
      signalQueue := signalQueue[1..];
      Moves(PopEntry);
    }

    /**
     do_send: return_now looks for a deferred call, which the tag is not, and the base class sends the reply
     of the tag's continuation, which is of the very call whose response was popped; then the tag is freed.
     */
    method DoSend(tag: Tag, call: CallId, body: Body)
      requires Valid() && state.disp == Popped(Job(call, tag), body)
      modifies this
      ensures Valid() && state.disp.Ready? && sent == old(sent) + [Reply(call, body)]
      ensures tag !in state.originals && continuations == old(continuations) - {tag}
      ensures View() == old(View()).(bus := sent, continuations := continuations)
    {
      TagSafety(state);
      if tag in pipeContinuations {
        assert false;
      } else {
        SendSteps(state, tag, call, body);
        hide Reachable, Apply, Enabled;
        Moves(Route);
        BaseReturnNow(tag, body);
        Moves(Send);
        Moves(Dispose);
      }
    }

    /**
     dispatcher_pipe_handler on the next frame, by a dispatcher that nothing interrupts: whatever the frame
     is, its entry is there, and a signal or the reply to the very call of the response goes out.
     */
    method DispatcherPipeHandler()
      requires Valid() && Enabled(state, ReadFrame)
      modifies this
      ensures Valid() && state.disp.Ready? && responsePipe == old(responsePipe)[1..]
      ensures requestQueue == old(requestQueue) && requestPipe == old(requestPipe)
      ensures pipeContinuations == old(pipeContinuations)
      ensures old(responsePipe)[0].NullFrame? ==>
                old(signalQueue) != [] && sent == old(sent) + [Signal(old(signalQueue)[0])]
                && signalQueue == old(signalQueue)[1..] && responseQueue == old(responseQueue)
                && continuations == old(continuations)
      ensures old(responsePipe)[0].TagFrame? ==>
                old(responseQueue) != []
                && sent == old(sent) + [Reply(old(responseQueue)[0].call, old(responseQueue)[0].body)]
                && responseQueue == old(responseQueue)[1..] && signalQueue == old(signalQueue)
                && continuations == old(continuations) - {old(responsePipe)[0].tag}
    {
      hide Reachable;
      var frame := ReadPipe();
      match frame {
        case TagFrame(tag) =>
          var r := TakeResponse(tag);
          DoSend(tag, r.call, r.body);
        case NullFrame =>
          var sig := TakeSignal();
          sent := sent + [Signal(sig)];
          Moves(Send);
      }
    }
  }

  /** The dispatcher's last three steps for a popped response. */
  lemma SendSteps(s: State, tag: Tag, call: CallId, body: Body)
    requires s.disp == Popped(Job(call, tag), body)
    requires tag in s.sh.continuations && s.sh.continuations[tag] == call && tag !in s.sh.deferred
    ensures var confirmed := s.(disp := Confirmed(Job(call, tag), body));
            var answered := s.(sh := ReturnNow(s.sh, tag, body), disp := Disposing(tag));
            && Enabled(s, Route) && Apply(s, Route) == confirmed
            && Enabled(confirmed, Step.Send) && Apply(confirmed, Step.Send) == answered
            && Enabled(answered, Dispose)
            && Apply(answered, Dispose) == answered.(originals := s.originals - {tag}, disp := Ready)
  {
  }
}
