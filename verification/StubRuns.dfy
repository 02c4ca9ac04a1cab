/**
 What the generated stubs do when their names are clear: each runs to its end, and what goes in comes out
 at the other side.
 */
module StubRuns {
  import opened Types
  import opened Wire
  import opened Marshal
  import opened SignatureParser
  import opened Overloads
  import opened StubLanguage
  import opened StubGenerators
  import opened StubNames
  import opened Wrappers

  ghost predicate Describes(ts: seq<Type>, args: seq<Arg>) {
    |args| == |ts| && AllValid(ts) && forall i | 0 <= i < |ts| :: args[i].sig == Sig(ts[i])
  }

  lemma DescribedNamed(ts: seq<Type>, args: seq<Arg>)
    requires Describes(ts, args)
    ensures Named(Texts(args), ts)
  {
    hide Compiled, Sig, TypeNamed, Valid;
    forall i | 0 <= i < |ts|
      ensures TypeNamed(Texts(args)[i]) == Some(ts[i])
    {
      CompiledNames(ts[i]);
    }
  }

  /** The names stand for variables with these values. */
  ghost predicate Holding(vars: Vars, names: seq<string>, ts: seq<Type>, vs: seq<Value>) {
    |names| == |ts| == |vs| && forall i | 0 <= i < |names| :: names[i] in vars && vars[names[i]] == Data(ts[i], vs[i])
  }

  lemma HoldingValues(vars: Vars, names: seq<string>, ts: seq<Type>, vs: seq<Value>)
    requires Holding(vars, names, ts, vs)
    ensures HasAll(vars, names) && ValuesOf(vars, names) == vs && TypesOf(vars, names) == ts
  {
  }

  lemma WithHolding(vars: Vars, names: seq<string>, ts: seq<Type>, vs: seq<Value>)
    requires |names| == |ts| == |vs| && Distinct(names)
    ensures var after := With(vars, names, DataOf(ts, vs));
            && Holding(after, names, ts, vs)
            && (forall x | x in after :: x in vars || x in names)
            && (forall x | x in vars && x !in names :: x in after && after[x] == vars[x])
  {
    WithLooksUp(vars, names, DataOf(ts, vs));
  }

  /** A call takes the first arguments as they are and sets the others. */
  lemma CallRun(fn: string, ins: seq<string>, outs: seq<string>, its: seq<Type>, ots: seq<Type>,
                vs: seq<Value>, ds: seq<Value>, s: State, w: World)
    requires fn !in s.vars && |ins| == w.ins && |w.serve(fn, vs)| == |ots|
    requires Holding(s.vars, ins, its, vs) && Holding(s.vars, outs, ots, ds)
    ensures Exec(Call(fn, ins + outs), s, w)
         == Some(s.(vars := With(s.vars, outs, DataOf(ots, w.serve(fn, vs))), heard := s.heard + [Heard(fn, vs)]))
  {
    hide With;
    assert (ins + outs)[..w.ins] == ins && (ins + outs)[w.ins..] == outs;
    HoldingValues(s.vars, ins, its, vs);
    HoldingValues(s.vars, outs, ots, ds);
    hide Holding;
    assert HasAll(s.vars, ins + outs) by {
      hide Has;
    }
  }

  lemma MessageFilled(message: string, member: string, names: seq<string>, ts: seq<Type>, vs: seq<Value>,
                      s: State, w: World)
    returns (locals: Vars)
    requires AllTyped(ts, vs) && Holding(s.vars, names, ts, vs)
    requires message !in s.vars && message != "wi" && (names != [] ==> "wi" !in s.vars)
    ensures ExecAll(Filling(message, member, names), s, w) == Some(s.(vars := locals))
    ensures message in locals && locals[message] == Msg(member, ToFields(ts, vs))
    ensures forall x | x in s.vars :: x in locals && locals[x] == s.vars[x]
    ensures forall x | x in locals :: x in s.vars || x == message || (names != [] && x == "wi")
  {
    var body := ToFields(ts, vs);
    var made := s.(vars := s.vars[message := Msg(member, [])]);
    hide HasType, ToTree, ReadTree, TypeNamed;
    ExecOne(Message(message, member), s, w);
    if names == [] {
      locals := made.vars;
      assert Filling(message, member, names) == [Message(message, member)];
    } else {
      var open := made.(vars := made.vars["wi" := WriterOf(message)]);
      ExecOne(OpenWriter("wi", message), made, w);
      hide ExecAll, Exec;
      InsertsRun("wi", names, ts, vs, open, w, message);
      assert [] + body == body;
      locals := open.vars[message := Msg(member, body)];
      ExecConcat([Message(message, member)], [OpenWriter("wi", message)], s, w);
      ExecConcat([Message(message, member)] + [OpenWriter("wi", message)], Inserts("wi", names), s, w);
    }
  }

  function Nobody(member: string, body: seq<Tree>): Option<seq<Tree>> {
    None
  }

  function NoResults(fn: string, vs: seq<Value>): seq<Value> {
    []
  }

  // ---------- the adaptor ----------

  ghost function ExecAdaptor(m: Method, body: seq<Tree>, w: World): Option<State> {
    ExecAll(AdaptorStub(m).body, State(map["call" := Msg(m.name, body)], [], [], None), w)
  }

  lemma Fetched(message: string, member: string, texts: seq<string>, names: seq<string>, ts: seq<Type>,
                body: seq<Tree>, s: State, w: World)
    returns (locals: Vars)
    requires |names| == |ts| && Named(texts, ts) && Front(ts, body)
    requires s.vars == map[message := Msg(member, body)]
    requires Distinct(names) && message !in names && "ri" !in names && message != "ri"
    ensures ExecAll(Fetching(message, texts, names), s, w) == Some(s.(vars := locals))
    ensures Holding(locals, names, ts, ReadAll(ts, Freshes(|ts|), body[..|ts|]).value)
    ensures forall x | x in locals :: x == message || (names != [] && x == "ri") || x in names
  {
    var ws, more := body[..|ts|], body[|ts|..];
    var vs := ReadAll(ts, Freshes(|ts|), ws).value;
    hide ReadTree, TypeNamed, Named;
    if names == [] {
      assert Fetching(message, texts, names) == [];
      locals := s.vars;
    } else {
      var open := Opened(message, member, texts, names, body, s, w);
      assert Unused(open.vars, names) && body == ws + more;
      hide ExecAll, Exec, DeclareExtracts, With, ReadAll, Unused;
      DeclareExtractsRun("ri", texts, names, ts, ws, more, open, w);
      var base := open.vars["ri" := ReaderAt(more)];
      locals := With(base, names, DataOf(ts, vs));
      WithHolding(base, names, ts, vs);
    }
  }

  /** The reader of a message, before anything is extracted. */
  lemma Opened(message: string, member: string, texts: seq<string>, names: seq<string>, body: seq<Tree>,
               s: State, w: World)
    returns (open: State)
    requires |names| == |texts| && names != [] && message != "ri" && s.vars == map[message := Msg(member, body)]
    ensures open == s.(vars := s.vars["ri" := ReaderAt(body)])
    ensures ExecAll(Fetching(message, texts, names), s, w) == ExecAll(DeclareExtracts("ri", texts, names), open, w)
  {
    open := s.(vars := s.vars["ri" := ReaderAt(body)]);
    assert Exec(OpenReader("ri", message), s, w) == Some(open);
    hide Exec, DeclareExtracts;
    ExecOne(OpenReader("ri", message), s, w);
    ExecConcat([OpenReader("ri", message)], DeclareExtracts("ri", texts, names), s, w);
  }

  /** A message whose values are not of the declared types makes the extraction throw. */
  lemma FetchThrows(message: string, member: string, texts: seq<string>, names: seq<string>, ts: seq<Type>,
                    body: seq<Tree>, s: State, w: World)
    requires |names| == |ts| && Named(texts, ts) && !Front(ts, body)
    requires s.vars == map[message := Msg(member, body)]
    requires Distinct(names) && message !in names && "ri" !in names && message != "ri"
    ensures ExecAll(Fetching(message, texts, names), s, w) == None
  {
    assert body[..0] == [];
    assert names != [];
    var open := Opened(message, member, texts, names, body, s, w);
    assert Unused(open.vars, names);
    hide Fetching, ExecAll, Exec, Front, Named, DeclareExtracts, Unused;
    DeclareExtractsThrow("ri", texts, names, ts, body, open, w);
  }

  lemma AdaptorReceivesRun(m: Method, its: seq<Type>, body: seq<Tree>, s: State, w: World)
    returns (locals: Vars)
    requires Describes(its, m.ins) && Front(its, body)
    requires s.vars == map["call" := Msg(m.name, body)]
    ensures ExecAll(AdaptorReceives(m), s, w) == Some(s.(vars := locals))
    ensures Holding(locals, AdaptorIns(m), its, ReadAll(its, Freshes(|its|), body[..|its|]).value)
    ensures forall x | x in locals :: x == "call" || (m.ins != [] && x == "ri") || x in AdaptorIns(m)
  {
    AdaptorNamesApart(m);
    DescribedNamed(its, m.ins);
    hide ReadAll, CountedNames, Texts, Named, Fetching, Holding, Front;
    locals := Fetched("call", m.name, Texts(m.ins), AdaptorIns(m), its, body, s, w);
  }

  lemma AdaptorServesRun(m: Method, its: seq<Type>, ots: seq<Type>, vs: seq<Value>, s: State, w: World)
    returns (locals: Vars)
    requires |its| == |m.ins| && Describes(ots, m.outs) && w.ins == |m.ins|
    requires Holding(s.vars, AdaptorIns(m), its, vs) && AdaptorMethodClear(m)
    requires forall x | x in s.vars :: x == "call" || (m.ins != [] && x == "ri") || x in AdaptorIns(m)
    requires |w.serve(m.name, vs)| == |ots|
    ensures ExecAll(AdaptorServes(m), s, w) == Some(s.(vars := locals, heard := s.heard + [Heard(m.name, vs)]))
    ensures Holding(locals, AdaptorOuts(m), ots, w.serve(m.name, vs))
    ensures "reply" !in locals && "wi" !in locals
  {
    AdaptorNamesApart(m);
    DescribedNamed(ots, m.outs);
    var ins, outs, rs := AdaptorIns(m), AdaptorOuts(m), w.serve(m.name, vs);
    HoldingValues(s.vars, ins, its, vs);
    if |m.outs| == 1 {
      locals := SingleServed(m, its, ots, vs, s, w);
    } else {
      var texts := Texts(m.outs);
      hide ReadTree, TypeNamed, CountedNames, Texts, Named, Describes, Declarations;
      DeclarationsRun(texts, outs, ots, s, w);
      var declared := s.(vars := With(s.vars, outs, DataOf(ots, Freshes(|ots|))));
      WithHolding(s.vars, outs, ots, Freshes(|ots|));
      ExecConcat(Declarations(texts, outs), [Call(m.name, ins + outs)], s, w);
      locals := SeveralServed(m, its, ots, vs, declared, w);
    }
  }

  lemma SingleServed(m: Method, its: seq<Type>, ots: seq<Type>, vs: seq<Value>, s: State, w: World)
    returns (locals: Vars)
    requires |m.outs| == 1 && Describes(ots, m.outs) && w.ins == |m.ins| == |its| && |w.serve(m.name, vs)| == 1
    requires Holding(s.vars, AdaptorIns(m), its, vs) && AdaptorMethodClear(m)
    requires forall x | x in s.vars :: x == "call" || (m.ins != [] && x == "ri") || x in AdaptorIns(m)
    ensures ExecAll(AdaptorServes(m), s, w) == Some(s.(vars := locals, heard := s.heard + [Heard(m.name, vs)]))
    ensures Holding(locals, AdaptorOuts(m), ots, w.serve(m.name, vs))
    ensures "reply" !in locals && "wi" !in locals
  {
    AdaptorNamesApart(m);
    DescribedNamed(ots, m.outs);
    ArgsComplete(m);
    assert AdaptorOuts(m) == ["argout1"] && "argout1" in AdaptorOuts(m);
    assert Texts(m.outs)[0] == Compiled(m.outs[0].sig);
    hide TypeNamed, CountedNames, Compiled, Texts, Describes, Numbered, Exec, ExecAll;
    var st := DeclareCall(Compiled(m.outs[0].sig), "argout1", m.name, AdaptorIns(m));
    locals := s.vars["argout1" := Data(ots[0], w.serve(m.name, vs)[0])];
    DeclareCallRun(Compiled(m.outs[0].sig), "argout1", m.name, AdaptorIns(m), its, vs, ots[0], s, w);
    ExecOne(st, s, w);
  }

  lemma DeclareCallRun(text: string, name: string, fn: string, args: seq<string>, its: seq<Type>, vs: seq<Value>,
                       t: Type, s: State, w: World)
    requires TypeNamed(text) == Some(t) && name !in s.vars && fn !in s.vars && fn != name
    requires Holding(s.vars, args, its, vs) && |args| == w.ins && |w.serve(fn, vs)| == 1
    ensures Exec(DeclareCall(text, name, fn, args), s, w)
         == Some(s.(vars := s.vars[name := Data(t, w.serve(fn, vs)[0])], heard := s.heard + [Heard(fn, vs)]))
  {
    HoldingValues(s.vars, args, its, vs);
    hide TypeNamed;
  }

  lemma SeveralServed(m: Method, its: seq<Type>, ots: seq<Type>, vs: seq<Value>, s: State, w: World)
    returns (locals: Vars)
    requires w.ins == |m.ins| == |its| && |ots| == |m.outs| && |w.serve(m.name, vs)| == |ots| && AdaptorMethodClear(m)
    requires Holding(s.vars, AdaptorIns(m), its, vs) && Holding(s.vars, AdaptorOuts(m), ots, Freshes(|ots|))
    requires forall x | x in s.vars ::
               x == "call" || (m.ins != [] && x == "ri") || x in AdaptorIns(m) || x in AdaptorOuts(m)
    ensures ExecAll([Call(m.name, AdaptorIns(m) + AdaptorOuts(m))], s, w)
         == Some(s.(vars := locals, heard := s.heard + [Heard(m.name, vs)]))
    ensures Holding(locals, AdaptorOuts(m), ots, w.serve(m.name, vs))
    ensures "reply" !in locals && "wi" !in locals
  {
    AdaptorNamesApart(m);
    var ins, outs := AdaptorIns(m), AdaptorOuts(m);
    WithHolding(s.vars, outs, ots, w.serve(m.name, vs));
    hide CountedNames, With, Holding, Exec;
    locals := With(s.vars, outs, DataOf(ots, w.serve(m.name, vs)));
    CallRun(m.name, ins, outs, its, ots, vs, Freshes(|ots|), s, w);
    ExecOne(Call(m.name, ins + outs), s, w);
  }

  lemma AdaptorSendsRun(m: Method, ots: seq<Type>, rs: seq<Value>, s: State, w: World)
    requires AllTyped(ots, rs) && |ots| == |m.outs| && Holding(s.vars, AdaptorOuts(m), ots, rs)
    requires "reply" !in s.vars && "wi" !in s.vars
    ensures ExecAll(AdaptorSends(m), s, w).Some?
    ensures var after := ExecAll(AdaptorSends(m), s, w).value;
            after.heard == s.heard && after.result == Some(Msg("", ToFields(ots, rs)))
  {
    hide CountedNames, Filling;
    var vars := MessageFilled("reply", "", AdaptorOuts(m), ots, rs, s, w);
    var filled := s.(vars := vars);
    ExecOne(Return("reply"), filled, w);
    ExecConcat(Filling("reply", "", AdaptorOuts(m)), [Return("reply")], s, w);
  }

  /** The handler hands on what it extracts, once, and replies with what the method gives back. */
  lemma AdaptorExecutes(m: Method, its: seq<Type>, ots: seq<Type>, body: seq<Tree>, w: World)
    requires Describes(its, m.ins) && Describes(ots, m.outs) && AdaptorMethodClear(m) && w.ins == |m.ins|
    requires Front(its, body)
    requires AllTyped(ots, w.serve(m.name, ReadAll(its, Freshes(|its|), body[..|its|]).value))
    ensures ExecAdaptor(m, body, w).Some?
    ensures var after, vs := ExecAdaptor(m, body, w).value, ReadAll(its, Freshes(|its|), body[..|its|]).value;
            && after.heard == [Heard(m.name, vs)]
            && after.result == Some(Msg("", ToFields(ots, w.serve(m.name, vs))))
  {
    var s := State(map["call" := Msg(m.name, body)], [], [], None);
    var vs := ReadAll(its, Freshes(|its|), body[..|its|]).value;
    hide AdaptorReceives, AdaptorServes, AdaptorSends, ExecAll, ReadAll, AdaptorMethodClear, AdaptorIns, AdaptorOuts,
         Front;
    var vars1 := AdaptorReceivesRun(m, its, body, s, w);
    var s1 := s.(vars := vars1);
    var vars2 := AdaptorServesRun(m, its, ots, vs, s1, w);
    var s2 := s1.(vars := vars2, heard := s1.heard + [Heard(m.name, vs)]);
    assert s2.heard == [Heard(m.name, vs)];
    AdaptorSendsRun(m, ots, w.serve(m.name, vs), s2, w);
    ExecConcat(AdaptorReceives(m), AdaptorServes(m), s, w);
    ExecConcat(AdaptorReceives(m) + AdaptorServes(m), AdaptorSends(m), s, w);
  }

  /** An ill-typed call throws before the user's method is called. */
  lemma AdaptorThrows(m: Method, its: seq<Type>, body: seq<Tree>, w: World)
    requires Describes(its, m.ins) && !Front(its, body)
    ensures ExecAdaptor(m, body, w) == None
  {
    var s := State(map["call" := Msg(m.name, body)], [], [], None);
    AdaptorNamesApart(m);
    DescribedNamed(its, m.ins);
    hide CountedNames, Texts, Named, Fetching, Front, ExecAll, AdaptorServes, AdaptorSends;
    FetchThrows("call", m.name, Texts(m.ins), AdaptorIns(m), its, body, s, w);
    ExecConcat(AdaptorReceives(m), AdaptorServes(m), s, w);
    ExecConcat(AdaptorReceives(m) + AdaptorServes(m), AdaptorSends(m), s, w);
  }

  // ---------- the proxy ----------

  /** What the caller has afterwards. */
  ghost function Results(m: Method, after: State): seq<Value> {
    if |m.outs| == 1 then
      (if after.result.Some? && after.result.value.Data? then [after.result.value.v] else [])
    else if HasAll(after.vars, OutNames(m)) then ValuesOf(after.vars, OutNames(m))
    else []
  }

  /** Into what the results are extracted. */
  function Targets(m: Method, dests: seq<Value>): seq<Value> {
    if |m.outs| == 1 then [FRESH] else dests
  }

  ghost predicate GoodCall(m: Method, its: seq<Type>, ots: seq<Type>, ins: seq<Value>, dests: seq<Value>) {
    && Describes(its, m.ins) && Describes(ots, m.outs) && AllTyped(its, ins)
    && |dests| == if |m.outs| > 1 then |m.outs| else 0
  }

  function ProxyTypes(m: Method, its: seq<Type>, ots: seq<Type>): seq<Type> {
    its + (if |m.outs| > 1 then ots else [])
  }

  lemma BindsTo(params: seq<Param>, names: seq<string>, ts: seq<Type>, vs: seq<Value>)
    requires |params| == |names| == |ts| == |vs| && Names(params) == names
    requires forall i | 0 <= i < |params| :: TypeNamed(params[i].text) == Some(ts[i])
    ensures Bind(params, vs) == Some(With(map[], names, DataOf(ts, vs)))
  {
    hide TypeNamed, With;
    assert seq(|params|, i requires 0 <= i < |params| => Data(TypeNamed(params[i].text).value, vs[i]))
        == DataOf(ts, vs);
  }

  lemma ParamsTyped(ts: seq<Type>, args: seq<Arg>, names: seq<string>)
    requires Describes(ts, args) && |names| == |args|
    ensures Names(Params(args, names)) == names
    ensures forall i | 0 <= i < |args| :: TypeNamed(Params(args, names)[i].text) == Some(ts[i])
  {
    DescribedNamed(ts, args);
    hide TypeNamed, Compiled, Describes;
    forall i | 0 <= i < |args|
      ensures TypeNamed(Params(args, names)[i].text) == Some(ts[i])
    {
      assert Texts(args)[i] == Compiled(args[i].sig);
    }
  }

  lemma ParamsBind(m: Method, its: seq<Type>, ots: seq<Type>, ins: seq<Value>, dests: seq<Value>)
    requires GoodCall(m, its, ots, ins, dests)
    ensures |ProxyNames(m)| == |ProxyTypes(m, its, ots)| == |ins + dests|
    ensures Bind(ProxyParams(m), ins + dests)
         == Some(With(map[], ProxyNames(m), DataOf(ProxyTypes(m, its, ots), ins + dests)))
  {
    ParamsTyped(its, m.ins, InNames(m));
    ParamsTyped(ots, m.outs, OutNames(m));
    hide TypeNamed, Compiled, With, GivenNames, Params, Describes, Bind, DataOf;
    var first, more := Params(m.ins, InNames(m)), Params(m.outs, OutNames(m));
    assert |first| == |m.ins| && |more| == |m.outs| by {
      assert |Names(first)| == |first| && |Names(more)| == |more|;
    }
    assert Names(first + more) == Names(first) + Names(more);
    assert first + [] == first;
    BindsTo(ProxyParams(m), ProxyNames(m), ProxyTypes(m, its, ots), ins + dests);
  }

  /** What a call puts on the bus; without a reply, nothing where assert() is compiled out. */
  ghost function SentBy(m: Method, body: seq<Tree>, asserts: bool): seq<Sent> {
    if Waits(m) || asserts then [Sent(m.name, body, Waits(m))] else []
  }

  lemma ProxySendsRun(m: Method, its: seq<Type>, ins: seq<Value>, s: State, w: World, reply: seq<Tree>)
    returns (locals: Vars)
    requires |its| == |m.ins| && AllTyped(its, ins) && Holding(s.vars, InNames(m), its, ins)
    requires forall x | x in ProxyNeeds(m, w.asserts) :: x !in s.vars
    requires Waits(m) ==> w.remote(m.name, ToFields(its, ins)) == Some(reply)
    ensures ExecAll(ProxySends(m), s, w)
         == Some(s.(vars := locals, sent := s.sent + SentBy(m, ToFields(its, ins), w.asserts)))
    ensures forall x | x in s.vars :: x in locals && locals[x] == s.vars[x]
    ensures Waits(m) ==> "ret" in locals && locals["ret"] == Msg("", reply)
    ensures m.outs != [] ==> "ri" !in locals
    ensures |m.outs| == 1 ==> "argout" !in locals
  {
    NeedsInclude(m, w.asserts);
    hide ProxyNeeds, GivenNames, Filling;
    var filling := MessageFilled("call", "", InNames(m), its, ins, s, w);
    var filled := s.(vars := filling);
    var body := ToFields(its, ins);
    var named := s.(vars := filling["call" := Msg(m.name, body)]);
    hide AllTyped, Holding, ToFields;
    ExecOne(SetMember("call", m.name), filled, w);
    locals := LastRuns(m, body, named, w, reply);
    ExecOne(ProxyCalls(m), named, w);
    hide ExecAll, Exec, Waits, SentBy;
    ExecConcat(Filling("call", "", InNames(m)), [SetMember("call", m.name)], s, w);
    ExecConcat(Filling("call", "", InNames(m)) + [SetMember("call", m.name)], [ProxyCalls(m)], s, w);
  }

  /** The statement that sends the call. */
  lemma LastRuns(m: Method, body: seq<Tree>, s: State, w: World, reply: seq<Tree>) returns (locals: Vars)
    requires "call" in s.vars && s.vars["call"] == Msg(m.name, body)
    requires Waits(m) ==> "ret" !in s.vars && "invoke_method" !in s.vars && w.remote(m.name, body) == Some(reply)
    requires !Waits(m) && w.asserts ==> "invoke_method_noreply" !in s.vars
    ensures locals == (if Waits(m) then s.vars["ret" := Msg("", reply)] else s.vars)
    ensures Exec(ProxyCalls(m), s, w) == Some(s.(vars := locals, sent := s.sent + SentBy(m, body, w.asserts)))
  {
    locals := if Waits(m) then s.vars["ret" := Msg("", reply)] else s.vars;
    assert s.sent + [] == s.sent;
  }

  lemma NeedsInclude(m: Method, asserts: bool)
    ensures "call" in ProxyNeeds(m, asserts) && (m.ins != [] ==> "wi" in ProxyNeeds(m, asserts))
    ensures Waits(m) ==> "ret" in ProxyNeeds(m, asserts) && "invoke_method" in ProxyNeeds(m, asserts)
    ensures !Waits(m) && asserts ==> "invoke_method_noreply" in ProxyNeeds(m, asserts)
    ensures m.outs != [] ==> "ri" in ProxyNeeds(m, asserts) && Waits(m)
    ensures |m.outs| == 1 ==> "argout" in ProxyNeeds(m, asserts)
  {
    assert forall x | x in Invoked(m, asserts) :: x in ProxyNeeds(m, asserts);
    assert Waits(m) ==> Invoked(m, asserts)[0] == "invoke_method";
    assert !Waits(m) && asserts ==> Invoked(m, asserts)[0] == "invoke_method_noreply";
  }

  lemma ProxyReceivesRun(m: Method, ots: seq<Type>, dests: seq<Value>, outs: seq<Value>, s: State, w: World)
    requires Describes(ots, m.outs) && AllTyped(ots, outs)
    requires |m.outs| > 1 ==> Holding(s.vars, OutNames(m), ots, dests) && Distinct(OutNames(m))
    requires |dests| == if |m.outs| > 1 then |m.outs| else 0
    requires m.outs != [] ==> "ret" in s.vars && s.vars["ret"] == Msg("", ToFields(ots, outs))
    requires (m.outs != [] ==> "ri" !in s.vars) && (|m.outs| == 1 ==> "argout" !in s.vars)
    ensures ExecAll(ProxyReceives(m), s, w).Some?
    ensures var after := ExecAll(ProxyReceives(m), s, w).value;
            after.sent == s.sent && Results(m, after) == ReceivedAll(ots, Targets(m, dests), outs)
  {
    var body := ToFields(ots, outs);
    if m.outs == [] {
      assert ProxyReceives(m) == [];
    } else {
      var open := s.(vars := s.vars["ri" := ReaderAt(body)]);
      ReadAllReceives(ots, Targets(m, dests), outs);
      var rest := ProxyReceives(m)[1..];
      assert ProxyReceives(m) == [OpenReader("ri", "ret")] + rest;
      hide HasType, ToTree, ReadTree, TypeNamed, Valid;
      assert Exec(OpenReader("ri", "ret"), s, w) == Some(open);
      ExecOne(OpenReader("ri", "ret"), s, w);
      ExecConcat([OpenReader("ri", "ret")], rest, s, w);
      if |m.outs| == 1 {
        SingleReceived(m, ots, outs, open, w);
      } else {
        assert rest == Extracts("ri", OutNames(m));
        hide Exec, ExecAll, GivenNames, ReceivedAll;
        ExtractsRun("ri", OutNames(m), ots, dests, body, open, w);
        var got := ReceivedAll(ots, dests, outs);
        WithHolding(open.vars["ri" := ReaderAt([])], OutNames(m), ots, got);
        HoldingValues(With(open.vars["ri" := ReaderAt([])], OutNames(m), DataOf(ots, got)), OutNames(m), ots, got);
      }
    }
  }

  lemma SingleReceived(m: Method, ots: seq<Type>, outs: seq<Value>, s: State, w: World)
    requires |m.outs| == 1 && Describes(ots, m.outs) && AllTyped(ots, outs)
    requires "ri" in s.vars && s.vars["ri"] == ReaderAt(ToFields(ots, outs)) && "argout" !in s.vars
    ensures var stmts := [Declare(Compiled(m.outs[0].sig), "argout"), Extract("ri", "argout"), Return("argout")];
            && ExecAll(stmts, s, w).Some? && ExecAll(stmts, s, w).value.sent == s.sent
            && Results(m, ExecAll(stmts, s, w).value) == ReceivedAll(ots, [FRESH], outs)
  {
    var text, t, ws := Compiled(m.outs[0].sig), ots[0], ToFields(ots, outs);
    var v := Received(t, FRESH, outs[0]);
    assert TypeNamed(text) == Some(t) by { CompiledNames(t); }
    assert ws[0] == ToTree(t, outs[0]) && ReadTree(t, FRESH, ws[0]) == Some(v) by {
      ToTreeTyped(t, outs[0]);
      ReadSucceeds(t, FRESH, ToTree(t, outs[0]));
    }
    assert ReceivedAll(ots, [FRESH], outs) == [v];
    hide HasType, ToTree, ReadTree, TypeNamed, Valid, Compiled, Received, ReceivedAll, ToFields, AllTyped, Describes;
    DeclareExtractStep("ri", text, "argout", t, ws, s, w);
    var next := s.(vars := s.vars["ri" := ReaderAt(ws[1..])]["argout" := Data(t, v)]);
    ArgoutReturned(text, t, v, s, next, w);
    assert Results(m, next.(result := Some(Data(t, v)))) == [v];
  }

  lemma ArgoutReturned(text: string, t: Type, v: Value, s: State, next: State, w: World)
    requires ExecAll([Declare(text, "argout"), Extract("ri", "argout")], s, w) == Some(next)
    requires "argout" in next.vars && next.vars["argout"] == Data(t, v)
    ensures ExecAll([Declare(text, "argout"), Extract("ri", "argout"), Return("argout")], s, w)
         == Some(next.(result := Some(Data(t, v))))
  {
    var head := [Declare(text, "argout"), Extract("ri", "argout")];
    hide ExecAll;
    assert Exec(Return("argout"), next, w) == Some(next.(result := Some(Data(t, v))));
    hide Exec;
    ExecOne(Return("argout"), next, w);
    ExecConcat(head, [Return("argout")], s, w);
    assert head + [Return("argout")] == [Declare(text, "argout"), Extract("ri", "argout"), Return("argout")];
  }

  /** The stub sends the arguments, once, and brings the results of the reply to the caller. */
  lemma ProxyExecutes(m: Method, its: seq<Type>, ots: seq<Type>, ins: seq<Value>, dests: seq<Value>,
                      outs: seq<Value>, w: World)
    requires GoodCall(m, its, ots, ins, dests) && AllTyped(ots, outs) && LocalsClear(m, w.asserts)
    requires Waits(m) ==> w.remote(m.name, ToFields(its, ins)) == Some(ToFields(ots, outs))
    ensures Bind(ProxyParams(m), ins + dests).Some?
    ensures var entry := State(Bind(ProxyParams(m), ins + dests).value, [], [], None);
            var after := ExecAll(ProxyStub(m).body, entry, w);
            && after.Some? && after.value.sent == SentBy(m, ToFields(its, ins), w.asserts)
            && Results(m, after.value) == ReceivedAll(ots, Targets(m, dests), outs)
  {
    ParamsBind(m, its, ots, ins, dests);
    var s := Entered(m, its, ots, ins, dests, w.asserts);
    NeedsInclude(m, w.asserts);
    hide AllTyped, Describes, Waits, ExecAll, Results, ReceivedAll, Holding,
         ProxySends, ProxyReceives, Bind, ProxyParams, SentBy;
    var vars := ProxySendsRun(m, its, ins, s, w, ToFields(ots, outs));
    var sent := s.(vars := vars, sent := s.sent + SentBy(m, ToFields(its, ins), w.asserts));
    if |m.outs| > 1 {
      HoldingKept(s.vars, vars, OutNames(m), ots, dests);
    }
    ProxyReceivesRun(m, ots, dests, outs, sent, w);
    ExecConcat(ProxySends(m), ProxyReceives(m), s, w);
  }

  /** The state on entry of the stub. */
  ghost function EntryState(m: Method, its: seq<Type>, ots: seq<Type>, ins: seq<Value>, dests: seq<Value>): State
    requires |ProxyNames(m)| == |ProxyTypes(m, its, ots)| == |ins + dests|
  {
    State(With(map[], ProxyNames(m), DataOf(ProxyTypes(m, its, ots), ins + dests)), [], [], None)
  }

  lemma Entered(m: Method, its: seq<Type>, ots: seq<Type>, ins: seq<Value>, dests: seq<Value>, asserts: bool)
    returns (s: State)
    requires GoodCall(m, its, ots, ins, dests) && LocalsClear(m, asserts)
    ensures |ProxyNames(m)| == |ProxyTypes(m, its, ots)| == |ins + dests| && s == EntryState(m, its, ots, ins, dests)
    ensures Holding(s.vars, InNames(m), its, ins) && forall x | x in ProxyNeeds(m, asserts) :: x !in s.vars
    ensures |m.outs| > 1 ==> Holding(s.vars, OutNames(m), ots, dests) && Distinct(OutNames(m))
  {
    hide GivenNames, ProxyNeeds, With, Valid, HasType;
    s := EntryState(m, its, ots, ins, dests);
    WithHolding(map[], ProxyNames(m), ProxyTypes(m, its, ots), ins + dests);
    HoldingSplit(m, its, ots, ins, dests, s.vars);
  }

  lemma HoldingKept(before: Vars, after: Vars, names: seq<string>, ts: seq<Type>, vs: seq<Value>)
    requires Holding(before, names, ts, vs) && forall x | x in before :: x in after && after[x] == before[x]
    ensures Holding(after, names, ts, vs)
  {
  }

  lemma HoldingSplit(m: Method, its: seq<Type>, ots: seq<Type>, ins: seq<Value>, dests: seq<Value>, vars: Vars)
    requires |its| == |m.ins| == |ins| && |ots| == |m.outs| && |dests| == if |m.outs| > 1 then |m.outs| else 0
    requires Holding(vars, ProxyNames(m), ProxyTypes(m, its, ots), ins + dests) && Distinct(ProxyNames(m))
    ensures Holding(vars, InNames(m), its, ins)
    ensures |m.outs| > 1 ==> Holding(vars, OutNames(m), ots, dests) && Distinct(OutNames(m))
  {
    hide GivenNames;
    var names, ts, vs := ProxyNames(m), ProxyTypes(m, its, ots), ins + dests;
    forall i | 0 <= i < |m.ins|
      ensures InNames(m)[i] in vars && vars[InNames(m)[i]] == Data(its[i], ins[i])
    {
      assert names[i] == InNames(m)[i] && ts[i] == its[i] && vs[i] == ins[i];
    }
    if |m.outs| > 1 {
      forall j | 0 <= j < |m.outs|
        ensures OutNames(m)[j] in vars && vars[OutNames(m)[j]] == Data(ots[j], dests[j])
      {
        var i := |m.ins| + j;
        assert names[i] == OutNames(m)[j] && ts[i] == ots[j] && vs[i] == dests[j];
      }
      forall i, j | 0 <= i < j < |m.outs|
        ensures OutNames(m)[i] != OutNames(m)[j]
      {
        assert names[|m.ins| + i] == OutNames(m)[i] && names[|m.ins| + j] == OutNames(m)[j];
      }
    }
  }

  // ---------- signals ----------

  /** The emitter's parameters are numbered, so nothing is in their way. */
  lemma EmitterEntered(s: Signal, ts: seq<Type>, vs: seq<Value>) returns (locals: Vars)
    requires Describes(ts, s.args) && AllTyped(ts, vs)
    ensures Bind(Params(s.args, EmitterNames(s)), vs) == Some(locals) && Holding(locals, EmitterNames(s), ts, vs)
    ensures "sig" !in locals && "wi" !in locals && "emit_signal" !in locals
  {
    var names := EmitterNames(s);
    var params := Params(s.args, names);
    EmitterNamesApart(s);
    ParamsTyped(ts, s.args, names);
    assert |params| == |names|;
    hide EmitterNames, TypeNamed, Params, Bind, With, Valid, HasType, Sig;
    BindsTo(params, names, ts, vs);
    WithHolding(map[], names, ts, vs);
    hide Holding, Distinct;
    locals := With(map[], names, DataOf(ts, vs));
  }

  lemma FilledSent(member: string, names: seq<string>, ts: seq<Type>, vs: seq<Value>, s: State, w: World)
    requires AllTyped(ts, vs) && Holding(s.vars, names, ts, vs)
    requires "sig" !in s.vars && "wi" !in s.vars && "emit_signal" !in s.vars
    ensures var run := ExecAll(Filling("sig", member, names) + [Emit("emit_signal", "sig")], s, w);
            run.Some? && run.value.sent == s.sent + [Sent(member, ToFields(ts, vs), false)]
  {
    hide AllTyped, Holding, Filling, ExecAll, ToFields;
    var emit := Emit("emit_signal", "sig");
    var filling := MessageFilled("sig", member, names, ts, vs, s, w);
    ExecOne(emit, s.(vars := filling), w);
    ExecConcat(Filling("sig", member, names), [emit], s, w);
  }

  ghost function ExecHandler(s: Signal, body: seq<Tree>, w: World): Option<State> {
    ExecAll(HandlerStub(s).body, State(map["sig" := Msg(s.name, body)], [], [], None), w)
  }

  lemma HandlerExecutes(s: Signal, ts: seq<Type>, body: seq<Tree>, w: World)
    requires Describes(ts, s.args) && HandlerClear(s) && w.ins == |s.args|
    requires forall fn, vs :: w.serve(fn, vs) == []
    requires Front(ts, body)
    ensures ExecHandler(s, body, w).Some?
    ensures ExecHandler(s, body, w).value.heard == [Heard(s.name, ReadAll(ts, Freshes(|ts|), body[..|ts|]).value)]
  {
    var names := HandlerNames(s);
    var entry := State(map["sig" := Msg(s.name, body)], [], [], None);
    var vs, call := ReadAll(ts, Freshes(|ts|), body[..|ts|]).value, Call(s.name, names);
    DescribedNamed(ts, s.args);
    hide ReadAll, GivenNames, Texts, Named, Fetching, Holding, Describes, ExecAll, ProxyBlock, Front;
    var vars := Fetched("sig", s.name, Texts(s.args), names, ts, body, entry, w);
    var ready := entry.(vars := vars);
    assert Holding(vars, [], [], []) by { HoldingNothing(vars); }
    assert names + [] == names;
    hide Exec;
    CallRun(s.name, names, [], ts, [], vs, [], ready, w);
    ExecOne(call, ready, w);
    ExecConcat(Fetching("sig", Texts(s.args), names), [call], entry, w);
    assert [] + [Heard(s.name, vs)] == [Heard(s.name, vs)];
  }

  /** An ill-typed signal throws before the user's handler is called. */
  lemma HandlerThrows(s: Signal, ts: seq<Type>, body: seq<Tree>, w: World)
    requires Describes(ts, s.args) && HandlerClear(s) && !Front(ts, body)
    ensures ExecHandler(s, body, w) == None
  {
    var entry := State(map["sig" := Msg(s.name, body)], [], [], None);
    DescribedNamed(ts, s.args);
    hide GivenNames, Texts, Named, Fetching, Front, ExecAll, ProxyBlock;
    FetchThrows("sig", s.name, Texts(s.args), HandlerNames(s), ts, body, entry, w);
    ExecConcat(Fetching("sig", Texts(s.args), HandlerNames(s)), [Call(s.name, HandlerNames(s))], entry, w);
  }

  lemma HoldingNothing(vars: Vars)
    ensures Holding(vars, [], [], [])
  {
  }
}
