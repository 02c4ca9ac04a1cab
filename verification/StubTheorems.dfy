/**
 The classes that the generators write for an interface, together: a call of the proxy is a call of the
 user's method behind the adaptor, and a signal of the adaptor a call of the user's handler in the proxy,
 exactly when the classes compile; and they are transparent exactly when no text contains NUL and no result
 goes into a variable that already holds something.
 */
module StubTheorems {
  import opened Types
  import opened Wire
  import opened Marshal
  import opened Extraction
  import opened StubLanguage
  import opened StubGenerators
  import opened Overloads
  import opened StubNames
  import opened StubClasses
  import opened StubRuns
  import opened Wrappers

  // ---------- one side ----------

  /** The adaptor's handler of a method; None if the class does not compile. */
  ghost function RunAdaptor(iface: Interface, m: Method, body: seq<Tree>, b: Build,
                            serve: (string, seq<Value>) -> seq<Value>): Option<State> {
    if !Compiles(AdaptorClass(iface), b) then None
    else ExecAdaptor(m, body, World(b.asserts, |m.ins|, Nobody, serve))
  }

  /** What the handler extracts: values of the declared types. */
  ghost function Extracted(its: seq<Type>, body: seq<Tree>): seq<Value>
    requires Front(its, body)
  {
    ReadAll(its, Freshes(|its|), body[..|its|]).value
  }

  /** The handler hands on what it extracts, once, and replies with what the method gives back. */
  lemma AdaptorRuns(iface: Interface, m: Method, its: seq<Type>, ots: seq<Type>, body: seq<Tree>, b: Build,
                    serve: (string, seq<Value>) -> seq<Value>)
    requires m in iface.methods && Describes(its, m.ins) && Describes(ots, m.outs) && AdaptorClear(iface)
    requires Front(its, body) && AllTyped(ots, serve(m.name, Extracted(its, body)))
    ensures RunAdaptor(iface, m, body, b, serve).Some?
    ensures var after, vs := RunAdaptor(iface, m, body, b, serve).value, Extracted(its, body);
            && after.heard == [Heard(m.name, vs)]
            && after.result == Some(Msg("", ToFields(ots, serve(m.name, vs))))
  {
    AdaptorCompilesIff(iface, b);
    hide Compiles, ExecAdaptor, AllTyped, Describes, ReadAll, Front, AdaptorMethodClear, ToFields;
    AdaptorExecutes(m, its, ots, body, World(b.asserts, |m.ins|, Nobody, serve));
  }

  /** The method gets as many values as it has parameters, of their types, whatever the message. */
  lemma {:induction false} FrontIff(ts: seq<Type>, body: seq<Tree>)
    requires AllValid(ts) && WellFormedAll(body)
    ensures Front(ts, body) <==> ReadableAll(ts, body)
    ensures Front(ts, body) ==> AllTyped(ts, Extracted(ts, body))
    decreases |ts|
  {
    if ts == [] {
      assert body[..0] == [];
    } else {
      hide ReadTree, Readable, WellFormed, Valid, HasType;
      FrontFirst(ts, body);
      if body != [] {
        ReadIff(ts[0], FRESH, body[0]);
        ReadableFirst(ts, body);
        FrontIff(ts[1..], body[1..]);
        if Front(ts, body) {
          FirstExtracted(ts, body);
          ReadableTyped(ts[0], FRESH, body[0]);
        }
      }
    }
  }

  lemma FirstExtracted(ts: seq<Type>, body: seq<Tree>)
    requires ts != [] && Front(ts, body)
    ensures Front(ts[1..], body[1..]) && ReadTree(ts[0], FRESH, body[0]).Some?
    ensures Extracted(ts, body) == [ReadTree(ts[0], FRESH, body[0]).value] + Extracted(ts[1..], body[1..])
  {
    hide ReadTree;
    FrontFirst(ts, body);
    assert Freshes(|ts|)[0] == FRESH && Freshes(|ts|)[1..] == Freshes(|ts| - 1);
    assert body[..|ts|][0] == body[0] && body[..|ts|][1..] == body[1..][..|ts| - 1];
  }

  /**
   Every call, well-typed or not: it is answered exactly when the names of the interface are clear for the
   adaptor and the message begins with values that can be read as the parameters.  Otherwise the user's
   method does not hear of it.
   */
  lemma AdaptorRunsIff(iface: Interface, m: Method, its: seq<Type>, ots: seq<Type>, body: seq<Tree>, b: Build,
                       serve: (string, seq<Value>) -> seq<Value>)
    requires m in iface.methods && Describes(its, m.ins) && Describes(ots, m.outs) && WellFormedAll(body)
    requires Serves(serve, m.name, its, ots)
    ensures RunAdaptor(iface, m, body, b, serve).Some? <==> AdaptorClear(iface) && ReadableAll(its, body)
    ensures RunAdaptor(iface, m, body, b, serve).Some? ==>
              && Front(its, body) && AllTyped(its, Extracted(its, body))
              && RunAdaptor(iface, m, body, b, serve).value.heard == [Heard(m.name, Extracted(its, body))]
  {
    AdaptorCompilesIff(iface, b);
    assert AllValid(its);
    hide Compiles, ExecAdaptor, AllTyped, Describes, ReadAll, Front, ReadableAll, AdaptorClear, WellFormed;
    FrontIff(its, body);
    if AdaptorClear(iface) {
      if Front(its, body) {
        AdaptorRuns(iface, m, its, ots, body, b, serve);
      } else {
        AdaptorThrows(m, its, body, World(b.asserts, |m.ins|, Nobody, serve));
      }
    }
  }

  /** `vs` are the values of the parameters: the arguments, and the result variables if they are several. */
  ghost function RunProxy(iface: Interface, m: Method, vs: seq<Value>, b: Build,
                          remote: (string, seq<Tree>) -> Option<seq<Tree>>): Option<State> {
    if !Compiles(ProxyClass(iface), b) then None else RunStub(m, vs, b, remote)
  }

  ghost function RunStub(m: Method, vs: seq<Value>, b: Build, remote: (string, seq<Tree>) -> Option<seq<Tree>>)
    : Option<State>
  {
    if Bind(ProxyParams(m), vs).None? then None
    else
      ExecAll(ProxyStub(m).body, State(Bind(ProxyParams(m), vs).value, [], [], None),
              World(b.asserts, 0, remote, NoResults))
  }

  /** The stub sends the arguments, once, and brings the results of the reply to the caller. */
  lemma ProxyRuns(iface: Interface, m: Method, its: seq<Type>, ots: seq<Type>, ins: seq<Value>, dests: seq<Value>,
                  outs: seq<Value>, b: Build, remote: (string, seq<Tree>) -> Option<seq<Tree>>)
    requires m in iface.methods && GoodCall(m, its, ots, ins, dests) && AllTyped(ots, outs)
    requires ProxyClear(iface, b)
    requires Waits(m) ==> remote(m.name, ToFields(its, ins)) == Some(ToFields(ots, outs))
    ensures RunProxy(iface, m, ins + dests, b, remote).Some?
    ensures var after := RunProxy(iface, m, ins + dests, b, remote).value;
            && after.sent == SentBy(m, ToFields(its, ins), b.asserts)
            && Results(m, after) == ReceivedAll(ots, Targets(m, dests), outs)
    ensures var after, waits := RunProxy(iface, m, ins + dests, b, remote).value, !m.noReply || m.outs != [];
            after.sent == if waits || b.asserts then [Sent(m.name, ToFields(its, ins), waits)] else []
  {
    ProxyCompilesIff(iface, b);
    assert LocalsClear(m, b.asserts) by {
      assert ProxyMethodClear(iface, m, b.asserts);
    }
    hide Compiles, ExecAll, AllTyped, Describes, Results, ReceivedAll, SentBy, ToFields, Bind, Waits, LocalsClear;
    ProxyExecutes(m, its, ots, ins, dests, outs, World(b.asserts, 0, remote, NoResults));
  }

  /** It runs to its end, against a side that answers well, exactly when the names are clear for the proxy. */
  lemma ProxyRunsIff(iface: Interface, m: Method, its: seq<Type>, ots: seq<Type>, ins: seq<Value>, dests: seq<Value>,
                     outs: seq<Value>, b: Build, remote: (string, seq<Tree>) -> Option<seq<Tree>>)
    requires m in iface.methods && GoodCall(m, its, ots, ins, dests) && AllTyped(ots, outs)
    requires Waits(m) ==> remote(m.name, ToFields(its, ins)) == Some(ToFields(ots, outs))
    ensures RunProxy(iface, m, ins + dests, b, remote).Some? <==> ProxyClear(iface, b)
  {
    ProxyCompilesIff(iface, b);
    hide Compiles, ExecAll, AllTyped, Describes, Results, ReceivedAll, SentBy, ToFields, Bind, Waits, ProxyClear;
    if ProxyClear(iface, b) {
      ProxyRuns(iface, m, its, ots, ins, dests, outs, b, remote);
    }
  }

  // ---------- proxy and adaptor together ----------

  /** The table of handlers, by the names of the methods; a later entry replaces an earlier one. */
  function FindMethod(methods: seq<Method>, name: string): Option<Method> {
    if methods == [] then None
    else if methods[|methods| - 1].name == name then Some(methods[|methods| - 1])
    else FindMethod(methods[..|methods| - 1], name)
  }

  /** It finds the last method of the name, and nothing exactly when there is none. */
  lemma {:induction false} FindIff(methods: seq<Method>, name: string)
    ensures FindMethod(methods, name) == None <==> name !in MethodNames(methods)
    ensures FindMethod(methods, name).Some? ==>
              exists i :: 0 <= i < |methods| && methods[i] == FindMethod(methods, name).value && methods[i].name == name
                && forall j :: i < j < |methods| ==> methods[j].name != name
    decreases |methods|
  {
    if methods != [] {
      var most, last := methods[..|methods| - 1], |methods| - 1;
      var names := MethodNames(methods);
      assert names == MethodNames(most) + [methods[last].name];
      FindIff(most, name);
      if methods[last].name == name {
        assert methods[last] == FindMethod(methods, name).value;
      } else if FindMethod(most, name).Some? {
        var i :| 0 <= i < |most| && most[i] == FindMethod(most, name).value && most[i].name == name
          && forall j :: i < j < |most| ==> most[j].name != name;
        assert methods[i] == most[i];
        forall j | i < j < |methods| ensures methods[j].name != name {
          assert j < last ==> methods[j] == most[j];
        }
      }
    }
  }

  lemma {:induction false} Found(methods: seq<Method>, m: Method)
    requires m in methods && Distinct(MethodNames(methods))
    ensures FindMethod(methods, m.name) == Some(m)
    decreases |methods|
  {
    var most, last := methods[..|methods| - 1], methods[|methods| - 1];
    var names := MethodNames(methods);
    assert MethodNames(most) == names[..|most|];
    if last != m {
      assert m in most;
      var i :| 0 <= i < |most| && most[i] == m;
      assert names[i] == m.name && names[|most|] == last.name;
      Found(most, m);
    }
  }

  /** The far side of a call: the handler of the method that the message names. */
  ghost function FarSide(iface: Interface, b: Build, serve: (string, seq<Value>) -> seq<Value>)
    : (string, seq<Tree>) -> Option<seq<Tree>>
  {
    (member, body) =>
      match FindMethod(iface.methods, member)
      case None => None
      case Some(m) => ReplyBody(RunAdaptor(iface, m, body, b, serve))
  }

  function ReplyBody(run: Option<State>): Option<seq<Tree>> {
    if run.Some? && run.value.result.Some? && run.value.result.value.Msg? then Some(run.value.result.value.body)
    else None
  }

  /** What the user's method is called with: values of the declared types. */
  ghost function Delivered(its: seq<Type>, ins: seq<Value>): (vs: seq<Value>)
    requires AllTyped(its, ins)
    ensures AllTyped(its, vs)
  {
    ReceivedTyped(its, ins);
    ReceivedAll(its, Freshes(|its|), ins)
  }

  /** The user's method returns values of its declared types. */
  ghost predicate Serves(serve: (string, seq<Value>) -> seq<Value>, name: string, its: seq<Type>, ots: seq<Type>) {
    forall vs :: AllTyped(its, vs) ==> AllTyped(ots, serve(name, vs))
  }

  predicate Clear(iface: Interface, b: Build) {
    ProxyClear(iface, b) && AdaptorClear(iface)
  }

  ghost predicate Calling(iface: Interface, m: Method, its: seq<Type>, ots: seq<Type>, ins: seq<Value>,
                          dests: seq<Value>, serve: (string, seq<Value>) -> seq<Value>) {
    m in iface.methods && GoodCall(m, its, ots, ins, dests) && Serves(serve, m.name, its, ots)
  }

  lemma DistinctMethods(iface: Interface)
    requires Distinct(MemberNames(iface))
    ensures Distinct(MethodNames(iface.methods))
  {
    var names := MethodNames(iface.methods);
    forall i, j | 0 <= i < j < |names|
      ensures names[i] != names[j]
    {
      assert MemberNames(iface)[i] == names[i] && MemberNames(iface)[j] == names[j];
    }
  }

  /**
   For none, one or many results: one message goes out, the user's method is called once with what
   arrives of the arguments, and the caller gets what arrives of the method's results.
   */
  lemma CallDelivers(iface: Interface, m: Method, its: seq<Type>, ots: seq<Type>, ins: seq<Value>, dests: seq<Value>,
                     b: Build, serve: (string, seq<Value>) -> seq<Value>)
    requires Calling(iface, m, its, ots, ins, dests, serve) && Clear(iface, b)
    ensures var run := RunProxy(iface, m, ins + dests, b, FarSide(iface, b, serve));
            var far := RunAdaptor(iface, m, ToFields(its, ins), b, serve);
            && run.Some? && run.value.sent == SentBy(m, ToFields(its, ins), b.asserts)
            && far.Some? && far.value.heard == [Heard(m.name, Delivered(its, ins))]
            && Results(m, run.value) == ReceivedAll(ots, Targets(m, dests), serve(m.name, Delivered(its, ins)))
  {
    var body, outs := ToFields(its, ins), serve(m.name, Delivered(its, ins));
    DistinctMethods(iface);
    Found(iface.methods, m);
    OwnFront(its, ins);
    hide AllTyped, Describes, Front, Extracted, ReceivedAll, Results, Waits, AdaptorClear, ProxyClear, RunProxy,
         RunAdaptor, SentBy, FindMethod, Distinct, ToFields;
    AdaptorRuns(iface, m, its, ots, body, b, serve);
    assert FarSide(iface, b, serve)(m.name, body) == Some(ToFields(ots, outs));
    ProxyRuns(iface, m, its, ots, ins, dests, outs, b, FarSide(iface, b, serve));
  }

  /** What the library has appended is extracted as it arrives. */
  lemma OwnFront(its: seq<Type>, ins: seq<Value>)
    requires AllTyped(its, ins)
    ensures Front(its, ToFields(its, ins)) && Extracted(its, ToFields(its, ins)) == Delivered(its, ins)
  {
    ReadAllReceives(its, Freshes(|its|), ins);
    assert ToFields(its, ins)[..|its|] == ToFields(its, ins);
    hide ReadAll, ToFields;
  }

  /** Both sides run exactly when the names of the interface are clear. */
  lemma CallRunsIff(iface: Interface, m: Method, its: seq<Type>, ots: seq<Type>, ins: seq<Value>, dests: seq<Value>,
                    b: Build, serve: (string, seq<Value>) -> seq<Value>)
    requires Calling(iface, m, its, ots, ins, dests, serve)
    ensures RunProxy(iface, m, ins + dests, b, FarSide(iface, b, serve)).Some?
            && RunAdaptor(iface, m, ToFields(its, ins), b, serve).Some?
       <==> Clear(iface, b)
  {
    AdaptorCompilesIff(iface, b);
    ProxyCompilesIff(iface, b);
    hide Compiles, ExecAll, ExecAdaptor, AllTyped, Describes, Bind, AdaptorClear, ProxyClear, ToFields, SentBy, Results;
    if Clear(iface, b) {
      CallDelivers(iface, m, its, ots, ins, dests, b, serve);
    }
  }

  lemma ResultsUnchangedIff(m: Method, ots: seq<Type>, dests: seq<Value>, outs: seq<Value>)
    requires AllTyped(ots, outs) && |ots| == |m.outs| && |dests| == if |m.outs| > 1 then |m.outs| else 0
    ensures ReceivedAll(ots, Targets(m, dests), outs) == outs <==>
              forall j | 0 <= j < |ots| ::
                if |m.outs| > 1 then Survives(ots[j], dests[j], outs[j]) else Clean(outs[j])
  {
    hide HasType, Clean, Survives, Valid, ReceivedAll;
    if |m.outs| == 1 {
      assert Freshes(|ots|) == [FRESH];
      FreshUnchangedIff(ots, outs);
    } else {
      ReceivedUnchangedIff(ots, dests, outs);
    }
  }

  /**
   Exactly when such a call is transparent.  The arguments: no text with NUL.  A single result: the same.
   Several results: each survives in its caller's variable, which means no NUL and nothing there that would
   be added to, or, where both hold NUL, that the variable supplies what is lost (`Marshal.SurvivesIff`).
   */
  lemma CallTransparentIff(iface: Interface, m: Method, its: seq<Type>, ots: seq<Type>, ins: seq<Value>,
                           dests: seq<Value>, b: Build, serve: (string, seq<Value>) -> seq<Value>)
    requires Calling(iface, m, its, ots, ins, dests, serve) && Clear(iface, b)
    ensures RunProxy(iface, m, ins + dests, b, FarSide(iface, b, serve)).Some?
    ensures RunAdaptor(iface, m, ToFields(its, ins), b, serve).Some?
    ensures var run := RunProxy(iface, m, ins + dests, b, FarSide(iface, b, serve)).value;
            var far, outs := RunAdaptor(iface, m, ToFields(its, ins), b, serve).value,
                             serve(m.name, Delivered(its, ins));
            && far.heard == [Heard(m.name, Delivered(its, ins))]
            && (Delivered(its, ins) == ins <==> forall i | 0 <= i < |its| :: Clean(ins[i]))
            && (Results(m, run) == outs <==>
                  forall j | 0 <= j < |ots| ::
                    if |m.outs| > 1 then Survives(ots[j], dests[j], outs[j]) else Clean(outs[j]))
  {
    CallDelivers(iface, m, its, ots, ins, dests, b, serve);
    hide RunProxy, RunAdaptor, Results, ReceivedAll, HasType, Clean, Survives, Valid, Freshes, ToFields,
         AdaptorClear, ProxyClear, Describes, SentBy, FarSide;
    FreshUnchangedIff(its, ins);
    ResultsUnchangedIff(m, ots, dests, serve(m.name, Delivered(its, ins)));
  }

  /** With several results, what arrives of each is added to what its variable holds. */
  lemma ResultsAbsorbed(iface: Interface, m: Method, its: seq<Type>, ots: seq<Type>, ins: seq<Value>,
                        dests: seq<Value>, b: Build, serve: (string, seq<Value>) -> seq<Value>, j: nat)
    requires Calling(iface, m, its, ots, ins, dests, serve) && Clear(iface, b) && |m.outs| > 1 && j < |ots|
    ensures var run := RunProxy(iface, m, ins + dests, b, FarSide(iface, b, serve));
            var v := serve(m.name, Delivered(its, ins))[j];
            && run.Some? && |Results(m, run.value)| == |ots|
            && HasType(Arriving(ots[j], v), ots[j])
            && Results(m, run.value)[j] == Absorb(ots[j], dests[j], Arriving(ots[j], v))
            && (Clean(v) ==> Results(m, run.value)[j] == Absorb(ots[j], dests[j], v))
  {
    CallDelivers(iface, m, its, ots, ins, dests, b, serve);
    var v := serve(m.name, Delivered(its, ins))[j];
    hide RunProxy, RunAdaptor, Results, HasType, Clean, Valid, Absorb, Arriving, AdaptorClear, ProxyClear, Describes,
         SentBy, FarSide, ToFields;
    RoundTrip(ots[j], dests[j], v);
    ArrivesWholeIff(ots[j], v);
  }

  // ---------- signals ----------

  ghost function RunEmitter(iface: Interface, s: Signal, vs: seq<Value>, b: Build): Option<State> {
    if !Compiles(AdaptorClass(iface), b) || Bind(EmitterStub(s).params, vs).None? then None
    else
      ExecAll(EmitterStub(s).body, State(Bind(EmitterStub(s).params, vs).value, [], [], None),
              World(b.asserts, 0, Nobody, NoResults))
  }

  /** The handler calls the user's function, or a method that takes the signal's arguments as its results. */
  ghost function RunHandler(iface: Interface, s: Signal, body: seq<Tree>, b: Build,
                            remote: (string, seq<Tree>) -> Option<seq<Tree>>): Option<State> {
    if !Compiles(ProxyClass(iface), b) then None
    else if Heeded(iface, s, b.converts) then ExecHandler(s, body, World(b.asserts, |s.args|, Nobody, NoResults))
    else RunMisdirected(iface, s, body, b, remote)
  }

  ghost predicate Misdirects(iface: Interface, s: Signal, b: Build, m: Method) {
    m in iface.methods && Called(ProxyFunctions(iface), s.name, Texts(s.args), b.converts, MethodFunction(m))
  }

  /** The method's stub runs on the variables that the handler has filled. */
  ghost function RunMisdirected(iface: Interface, s: Signal, body: seq<Tree>, b: Build,
                                remote: (string, seq<Tree>) -> Option<seq<Tree>>): Option<State> {
    var fetched := ExecAll(Fetching("sig", Texts(s.args), HandlerNames(s)),
                           State(map["sig" := Msg(s.name, body)], [], [], None),
                           World(b.asserts, 0, Nobody, NoResults));
    if fetched == None || !HasAll(fetched.value.vars, HandlerNames(s)) then None
    else if !exists m :: Misdirects(iface, s, b, m) then None
    else
      var m :| Misdirects(iface, s, b, m);
      RunStub(m, ValuesOf(fetched.value.vars, HandlerNames(s)), b, remote)
  }

  lemma {:induction false} NothingHeard(stmts: seq<Stmt>, s: State, w: World)
    requires NoUserCalls(stmts) && ExecAll(stmts, s, w).Some?
    ensures ExecAll(stmts, s, w).value.heard == s.heard
    decreases |stmts|
  {
    if stmts != [] {
      var next := Exec(stmts[0], s, w).value;
      assert !CallsUser(stmts[0]) && next.heard == s.heard;
      hide Exec;
      NothingHeard(stmts[1..], next, w);
    }
  }

  lemma MisdirectedUnheard(iface: Interface, s: Signal, body: seq<Tree>, b: Build,
                           remote: (string, seq<Tree>) -> Option<seq<Tree>>)
    ensures var run := RunMisdirected(iface, s, body, b, remote); run.Some? ==> run.value.heard == []
  {
    if RunMisdirected(iface, s, body, b, remote).Some? {
      forall m: Method, vs: seq<Value>
        ensures RunStub(m, vs, b, remote).Some? ==> RunStub(m, vs, b, remote).value.heard == []
      {
        StubUnheard(m, vs, b, remote);
      }
    }
  }

  lemma StubUnheard(m: Method, vs: seq<Value>, b: Build, remote: (string, seq<Tree>) -> Option<seq<Tree>>)
    ensures RunStub(m, vs, b, remote).Some? ==> RunStub(m, vs, b, remote).value.heard == []
  {
    ProxyCallsNobody(m);
    hide ProxyStub, ExecAll, Bind, NoUserCalls;
    if RunStub(m, vs, b, remote).Some? {
      NothingHeard(ProxyStub(m).body, State(Bind(ProxyParams(m), vs).value, [], [], None),
                   World(b.asserts, 0, remote, NoResults));
    }
  }

  /** The emitter sends its arguments, once, exactly when the names are clear for the adaptor. */
  lemma EmitterRunsIff(iface: Interface, s: Signal, ts: seq<Type>, vs: seq<Value>, b: Build)
    requires s in iface.signals && Describes(ts, s.args) && AllTyped(ts, vs)
    ensures RunEmitter(iface, s, vs, b).Some? <==> AdaptorClear(iface)
    ensures AdaptorClear(iface) ==>
              RunEmitter(iface, s, vs, b).value.sent == [Sent(s.name, ToFields(ts, vs), false)]
  {
    AdaptorCompilesIff(iface, b);
    hide Compiles, AdaptorClear, AllTyped, Holding, Filling, EmitterNames, Params, Describes, Bind, ExecAll, ToFields;
    var vars := EmitterEntered(s, ts, vs);
    FilledSent(s.name, EmitterNames(s), ts, vs, State(vars, [], [], None), World(b.asserts, 0, Nobody, NoResults));
  }

  lemma HandlerRuns(iface: Interface, s: Signal, ts: seq<Type>, body: seq<Tree>, b: Build,
                    remote: (string, seq<Tree>) -> Option<seq<Tree>>)
    requires s in iface.signals && Describes(ts, s.args) && Front(ts, body)
    requires ProxyClear(iface, b) && Heeded(iface, s, b.converts)
    ensures RunHandler(iface, s, body, b, remote).Some?
    ensures RunHandler(iface, s, body, b, remote).value.heard == [Heard(s.name, Extracted(ts, body))]
  {
    ProxyCompilesIff(iface, b);
    assert HandlerClear(s);
    hide Compiles, ProxyClear, HandlerClear, Heeded, Describes, ReadAll, Front, ExecHandler;
    HandlerExecutes(s, ts, body, World(b.asserts, |s.args|, Nobody, NoResults));
  }

  /**
   Every signal, well-typed or not: the user's handler hears of it exactly when the names are clear for the
   proxy, the call goes to it, and the message begins with values that can be read as the arguments.  Then it
   is called once, with them.
   */
  lemma HandlerRunsIff(iface: Interface, s: Signal, ts: seq<Type>, body: seq<Tree>, b: Build,
                       remote: (string, seq<Tree>) -> Option<seq<Tree>>)
    requires s in iface.signals && Describes(ts, s.args) && WellFormedAll(body)
    ensures var run := RunHandler(iface, s, body, b, remote);
            && (run.Some? && run.value.heard != []
                <==> ProxyClear(iface, b) && Heeded(iface, s, b.converts) && ReadableAll(ts, body))
            && (run.Some? && run.value.heard != [] ==>
                  Front(ts, body) && AllTyped(ts, Extracted(ts, body))
                  && run.value.heard == [Heard(s.name, Extracted(ts, body))])
  {
    ProxyCompilesIff(iface, b);
    assert ProxyClear(iface, b) ==> HandlerClear(s);
    assert AllValid(ts);
    hide Compiles, ProxyClear, HandlerClear, Heeded, Describes, ReadAll, Front, ReadableAll, ExecHandler,
         RunMisdirected, WellFormed, AllTyped;
    FrontIff(ts, body);
    MisdirectedUnheard(iface, s, body, b, remote);
    if ProxyClear(iface, b) && Heeded(iface, s, b.converts) {
      if Front(ts, body) {
        HandlerRuns(iface, s, ts, body, b, remote);
      } else {
        HandlerThrows(s, ts, body, World(b.asserts, |s.args|, Nobody, NoResults));
      }
    }
  }

  /**
   A signal: one message goes out, and the user's handler is called once with what arrives, exactly
   when the names are clear; it gets the arguments themselves exactly when no text has NUL.
   */
  lemma SignalDeliversIff(iface: Interface, s: Signal, ts: seq<Type>, vs: seq<Value>, b: Build,
                          remote: (string, seq<Tree>) -> Option<seq<Tree>>)
    requires s in iface.signals && Describes(ts, s.args) && AllTyped(ts, vs)
    ensures RunEmitter(iface, s, vs, b).Some? && RunHandler(iface, s, ToFields(ts, vs), b, remote).Some?
       <==> Clear(iface, b)
    ensures Clear(iface, b) ==>
              && RunEmitter(iface, s, vs, b).value.sent == [Sent(s.name, ToFields(ts, vs), false)]
              && RunHandler(iface, s, ToFields(ts, vs), b, remote).value.heard == [Heard(s.name, Delivered(ts, vs))]
    ensures Delivered(ts, vs) == vs <==> forall i | 0 <= i < |ts| :: Clean(vs[i])
  {
    assert AdaptorClear(iface) ==> Distinct(MemberNames(iface));
    ProxyCompilesIff(iface, b);
    OwnFront(ts, vs);
    hide RunEmitter, Compiles, RunMisdirected, ExecHandler, Heeded, ProxyClear, AdaptorClear, Describes, Front,
         Extracted, ReceivedAll, Clean, ToFields;
    EmitterRunsIff(iface, s, ts, vs, b);
    FreshUnchangedIff(ts, vs);
    if Clear(iface, b) {
      HeededAlone(iface, s, b.converts);
      HandlerRuns(iface, s, ts, ToFields(ts, vs), b, remote);
    }
  }
}
