/**
 When the generated classes compile: their stubs do, no member function is declared twice, and the call of
 the user's function that a handler makes is not ambiguous.
 */
module StubClasses {
  import opened SignatureParser
  import opened Overloads
  import opened StubLanguage
  import opened StubGenerators
  import opened StubNames

  // ---------- the calls of the user's functions ----------

  lemma NoCalls(body: seq<Stmt>, functions: seq<Function>, converts: Conversions)
    requires forall st | st in body :: !CallsUser(st)
    ensures CallsSelect(body, functions, converts)
  {
  }

  lemma OneCall(a: seq<Stmt>, call: Stmt, z: seq<Stmt>, functions: seq<Function>, converts: Conversions)
    requires (forall st | st in a :: !CallsUser(st)) && CallsUser(call) && forall st | st in z :: !CallsUser(st)
    ensures CallsSelect(a + [call] + z, functions, converts)
       <==> SelectsSome(functions, call.fn, TextsOf(a, call.args), converts)
  {
    var body := a + [call] + z;
    assert body[|a|] == call && body[..|a|] == a;
    forall i | 0 <= i < |body| && i != |a| ensures !CallsUser(body[i]) {
      assert i < |a| ==> body[i] == a[i];
      assert i > |a| ==> body[i] == z[i - |a| - 1];
    }
    hide SelectsSome, TextsOf;
  }

  /** The variables of statements. */
  function Variables(stmts: seq<Stmt>): set<string> {
    if stmts == [] then {}
    else (if stmts[0].Declare? then {stmts[0].name} else {}) + Variables(stmts[1..])
  }

  lemma {:induction false} TextOfConcat(a: seq<Stmt>, z: seq<Stmt>, x: string)
    ensures TextOf(a + z, x) == if x in Variables(a) then TextOf(a, x) else TextOf(z, x)
    ensures Variables(a + z) == Variables(a) + Variables(z)
    decreases |a|
  {
    if a == [] {
      assert a + z == z;
    } else {
      assert (a + z)[0] == a[0] && (a + z)[1..] == a[1..] + z;
      TextOfConcat(a[1..], z, x);
    }
  }

  lemma TwoTexts(text: string, name: string, last: Stmt, x: string)
    requires !last.Declare?
    ensures Variables([Declare(text, name), last]) == {name}
    ensures x == name ==> TextOf([Declare(text, name), last], x) == text
  {
    var both := [Declare(text, name), last];
    assert both[1..] == [last] && [last][1..] == [];
    assert Variables([last]) == {} && both[0] == Declare(text, name);
    assert Variables(both) == {name} + Variables(both[1..]);
  }

  /** Variables declared and filled in turn have the types written. */
  lemma {:induction false} FetchedTexts(it: string, texts: seq<string>, names: seq<string>)
    requires |texts| == |names| && Distinct(names)
    ensures var stmts := DeclareExtracts(it, texts, names);
            && Variables(stmts) == NameSet(names)
            && forall i | 0 <= i < |names| :: TextOf(stmts, names[i]) == texts[i]
    decreases |names|
  {
    if names != [] {
      var first := [Declare(texts[0], names[0]), Extract(it, names[0])];
      var rest := DeclareExtracts(it, texts[1..], names[1..]);
      assert DeclareExtracts(it, texts, names) == first + rest;
      hide DeclareExtracts, TextOf, Variables;
      FetchedTexts(it, texts[1..], names[1..]);
      forall i | 0 <= i < |names| ensures TextOf(first + rest, names[i]) == texts[i] {
        TextOfConcat(first, rest, names[i]);
        TwoTexts(texts[0], names[0], Extract(it, names[0]), names[i]);
        if i > 0 {
          assert names[i] == names[1..][i - 1] && names[0] != names[i];
        }
      }
      TextOfConcat(first, rest, names[0]);
      TwoTexts(texts[0], names[0], Extract(it, names[0]), names[0]);
      assert NameSet(names) == {names[0]} + NameSet(names[1..]);
    }
  }

  lemma {:induction false} DeclaredTexts(texts: seq<string>, names: seq<string>)
    requires |texts| == |names| && Distinct(names)
    ensures forall i | 0 <= i < |names| :: TextOf(Declarations(texts, names), names[i]) == texts[i]
    decreases |names|
  {
    if names != [] {
      var stmts := Declarations(texts, names);
      assert stmts[0] == Declare(texts[0], names[0]) && stmts[1..] == Declarations(texts[1..], names[1..]);
      hide Declarations;
      DeclaredTexts(texts[1..], names[1..]);
      forall i | 0 <= i < |names| ensures TextOf(stmts, names[i]) == texts[i] {
        if i > 0 {
          assert names[i] == names[1..][i - 1] && names[0] != names[i];
        }
      }
    }
  }

  predicate NoUserCalls(stmts: seq<Stmt>) {
    forall st | st in stmts :: !CallsUser(st)
  }

  lemma {:induction false} FetchingCalls(it: string, texts: seq<string>, names: seq<string>)
    requires |texts| == |names|
    ensures NoUserCalls(DeclareExtracts(it, texts, names))
    decreases |names|
  {
    if names != [] {
      FetchingCalls(it, texts[1..], names[1..]);
    }
  }

  lemma FetchingTexts(message: string, texts: seq<string>, names: seq<string>)
    requires |texts| == |names| && Distinct(names)
    ensures NoUserCalls(Fetching(message, texts, names)) && Variables(Fetching(message, texts, names)) == NameSet(names)
    ensures TextsOf(Fetching(message, texts, names), names) == texts
  {
    var opening := if names != [] then [OpenReader("ri", message)] else [];
    var stmts := DeclareExtracts("ri", texts, names);
    FetchingCalls("ri", texts, names);
    FetchedTexts("ri", texts, names);
    assert Variables(opening) == {} by {
      if names != [] {
        assert opening[1..] == [];
      }
    }
    hide DeclareExtracts, TextOf, Variables;
    TextOfConcat(opening, stmts, "");
    forall i | 0 <= i < |names| ensures TextOf(opening + stmts, names[i]) == texts[i] {
      TextOfConcat(opening, stmts, names[i]);
    }
  }

  // ---------- the handler of a signal ----------

  /** The call in the handler of a signal is not ambiguous. */
  predicate CallClear(iface: Interface, s: Signal, converts: Conversions) {
    exists f | f in ProxyFunctions(iface) :: Called(ProxyFunctions(iface), s.name, Texts(s.args), converts, f)
  }

  /** It goes to the user's function, not to a method of the same name that takes its results by reference. */
  predicate Heeded(iface: Interface, s: Signal, converts: Conversions) {
    Called(ProxyFunctions(iface), s.name, Texts(s.args), converts, SignalFunction(s))
  }

  lemma SignalExact(iface: Interface, s: Signal)
    requires s in iface.signals
    ensures SignalFunction(s) in ProxyFunctions(iface) && Exact(SignalFunction(s), Texts(s.args))
    ensures forall g | g in ProxyFunctions(iface) :: !g.isConst
  {
    var i :| 0 <= i < |iface.signals| && iface.signals[i] == s;
    assert ProxyFunctions(iface)[|iface.methods| + i] == SignalFunction(s);
    SlotsExact(s.args, true);
    hide Slots, Texts;
  }

  lemma HandlerSelectsIff(iface: Interface, s: Signal, converts: Conversions)
    requires s in iface.signals && Distinct(HandlerNames(s))
    ensures CallsSelect(HandlerStub(s).body, ProxyFunctions(iface), converts) <==> CallClear(iface, s, converts)
  {
    var fetching, names := Fetching("sig", Texts(s.args), HandlerNames(s)), HandlerNames(s);
    FetchingTexts("sig", Texts(s.args), names);
    assert HandlerStub(s).body == fetching + [Call(s.name, names)] + [];
    SignalExact(iface, s);
    hide Fetching, GivenNames, Texts, ProxyFunctions, TextsOf, Selects, Called, Exact;
    OneCall(fetching, Call(s.name, names), [], ProxyFunctions(iface), converts);
    forall f ensures Selects(ProxyFunctions(iface), s.name, Texts(s.args), converts, f)
                <==> Called(ProxyFunctions(iface), s.name, Texts(s.args), converts, f)
    {
      SelectsIff(ProxyFunctions(iface), s.name, Texts(s.args), converts, SignalFunction(s), f);
    }
  }

  /** Where no other member has its name, the handler reaches the user's function. */
  lemma HeededAlone(iface: Interface, s: Signal, converts: Conversions)
    requires s in iface.signals && Distinct(MemberNames(iface))
    ensures Heeded(iface, s, converts)
  {
    SignalExact(iface, s);
    var functions := ProxyFunctions(iface);
    forall g | g in functions && g.name == s.name ensures g == SignalFunction(s) || g.slots == [MessageOnly] {
      var k :| 0 <= k < |functions| && functions[k] == g;
      SameNameSame(iface, s, k);
    }
    hide ProxyFunctions, Compiled, Viable;
  }

  lemma SameNameSame(iface: Interface, s: Signal, k: nat)
    requires s in iface.signals && Distinct(MemberNames(iface))
    requires k < |ProxyFunctions(iface)| && ProxyFunctions(iface)[k].name == s.name
    ensures ProxyFunctions(iface)[k] == SignalFunction(s) || ProxyFunctions(iface)[k].slots == [MessageOnly]
  {
    var i :| 0 <= i < |iface.signals| && iface.signals[i] == s;
    var own, l := MemberNames(iface), |iface.methods| + i;
    assert own[l] == s.name;
    if k < |own| {
      assert own[k] == ProxyFunctions(iface)[k].name;
      assert k == l;
      assert ProxyFunctions(iface)[l] == SignalFunction(s);
    }
  }

  // ---------- the handler of a method ----------

  function ServedArgs(m: Method): seq<string> {
    Texts(m.ins) + if |m.outs| > 1 then Texts(m.outs) else []
  }

  lemma SlotsExact(args: seq<Arg>, isConst: bool)
    ensures |Texts(args)| == |args|
    ensures forall i | 0 <= i < |args| :: Slots(args, isConst)[i] == ByReference(Texts(args)[i], isConst)
  {
    hide Compiled;
  }

  lemma MethodExact(iface: Interface, m: Method)
    requires m in iface.methods
    ensures MethodFunction(m) in AdaptorFunctions(iface) && Exact(MethodFunction(m), ServedArgs(m))
  {
    SlotsExact(m.ins, true);
    SlotsExact(m.outs, false);
    hide Slots, Texts;
    var i :| 0 <= i < |iface.methods| && iface.methods[i] == m;
    assert AdaptorFunctions(iface)[1 + i] == MethodFunction(m);
    var slots, args := MethodFunction(m).slots, ServedArgs(m);
    forall k | 0 <= k < |args| ensures slots[k].ByReference? && slots[k].text == args[k] {
      assert slots[k] == if k < |m.ins| then Slots(m.ins, true)[k] else Slots(m.outs, false)[k - |m.ins|];
    }
  }

  lemma OthersHarmless(iface: Interface, m: Method, k: nat)
    requires m in iface.methods && Distinct(MemberNames(iface))
    requires k < |AdaptorFunctions(iface)| && AdaptorFunctions(iface)[k].name == m.name
    ensures var g := AdaptorFunctions(iface)[k];
            g == MethodFunction(m) || (g.isConst && g.slots == []) || g.slots == [MessageOnly]
  {
    var i :| 0 <= i < |iface.methods| && iface.methods[i] == m;
    var own := MemberNames(iface);
    assert own[i] == m.name;
    if 1 <= k <= |own| {
      assert own[k - 1] == AdaptorFunctions(iface)[k].name;
      assert k - 1 == i;
      assert AdaptorFunctions(iface)[1 + i] == MethodFunction(m);
    }
  }

  /** What the handler has declared when it calls, and the texts of what it passes. */
  lemma ServingTexts(m: Method)
    ensures NoUserCalls(AdaptorReceives(m)) && TextsOf(AdaptorReceives(m), AdaptorIns(m)) == Texts(m.ins)
    ensures var before := AdaptorReceives(m) + Declarations(Texts(m.outs), AdaptorOuts(m));
            && NoUserCalls(before)
            && TextsOf(before, AdaptorIns(m) + AdaptorOuts(m)) == Texts(m.ins) + Texts(m.outs)
  {
    var ins, outs, declarations := AdaptorIns(m), AdaptorOuts(m), Declarations(Texts(m.outs), AdaptorOuts(m));
    AdaptorNamesApart(m);
    FetchingTexts("call", Texts(m.ins), ins);
    DeclaredTexts(Texts(m.outs), outs);
    assert NoUserCalls(declarations);
    var receives := AdaptorReceives(m);
    hide Fetching, Declarations, CountedNames, Texts, TextOf, Variables;
    forall i | 0 <= i < |ins| ensures TextOf(receives + declarations, ins[i]) == Texts(m.ins)[i] {
      TextOfConcat(receives, declarations, ins[i]);
      assert TextsOf(receives, ins)[i] == TextOf(receives, ins[i]) && ins[i] in NameSet(ins);
    }
    forall i | 0 <= i < |outs| ensures TextOf(receives + declarations, outs[i]) == Texts(m.outs)[i] {
      TextOfConcat(receives, declarations, outs[i]);
      assert outs[i] in outs && outs[i] !in NameSet(ins);
    }
    var all, texts := TextsOf(receives + declarations, ins + outs), Texts(m.ins) + Texts(m.outs);
    forall i | 0 <= i < |all| ensures all[i] == texts[i] {
      assert (ins + outs)[i] == if i < |ins| then ins[i] else outs[i - |ins|];
    }
  }

  lemma SendingCalls(m: Method)
    ensures NoUserCalls(AdaptorSends(m))
  {
  }

  lemma MethodSelected(iface: Interface, m: Method, converts: Conversions)
    requires m in iface.methods && Distinct(MemberNames(iface))
    ensures SelectsSome(AdaptorFunctions(iface), m.name, ServedArgs(m), converts)
  {
    var functions := AdaptorFunctions(iface);
    MethodExact(iface, m);
    forall g | g in functions && g.name == m.name && g != MethodFunction(m)
      ensures (g.isConst && g.slots == []) || g.slots == [MessageOnly]
    {
      var k :| 0 <= k < |functions| && functions[k] == g;
      OthersHarmless(iface, m, k);
    }
    hide AdaptorFunctions, Exact, Selects;
    SelectsExact(functions, m.name, ServedArgs(m), converts, MethodFunction(m));
  }

  /** The handler makes one call, with arguments of the declared types. */
  lemma ServesOnce(m: Method) returns (before: seq<Stmt>, call: Stmt)
    ensures AdaptorStub(m).body == before + [call] + AdaptorSends(m)
    ensures NoUserCalls(before) && CallsUser(call) && NoUserCalls(AdaptorSends(m))
    ensures call.fn == m.name && TextsOf(before, call.args) == ServedArgs(m)
  {
    ServingTexts(m);
    SendingCalls(m);
    hide AdaptorReceives, AdaptorSends, AdaptorIns, AdaptorOuts, TextsOf, Texts, Compiled, NoUserCalls;
    before := AdaptorReceives(m);
    if |m.outs| == 1 {
      call := DeclareCall(Compiled(m.outs[0].sig), "argout1", m.name, AdaptorIns(m));
      assert ServedArgs(m) == Texts(m.ins) + [] == Texts(m.ins);
    } else {
      var declarations := Declarations(Texts(m.outs), AdaptorOuts(m));
      before := before + declarations;
      call := Call(m.name, AdaptorIns(m) + AdaptorOuts(m));
      NoTexts(m);
      hide Declarations;
      assert AdaptorReceives(m) + (declarations + [call]) == before + [call];
    }
  }

  lemma NoTexts(m: Method)
    requires |m.outs| != 1
    ensures ServedArgs(m) == Texts(m.ins) + Texts(m.outs)
  {
  }

  lemma AdaptorSelects(iface: Interface, m: Method, converts: Conversions)
    requires m in iface.methods && Distinct(MemberNames(iface))
    ensures CallsSelect(AdaptorStub(m).body, AdaptorFunctions(iface), converts)
  {
    var before, call := ServesOnce(m);
    MethodSelected(iface, m, converts);
    hide AdaptorStub, AdaptorSends, AdaptorFunctions, CallsSelect, SelectsSome, TextsOf;
    OneCall(before, call, AdaptorSends(m), AdaptorFunctions(iface), converts);
  }

  // ---------- the classes ----------

  /** The names and the declarations of an interface, as far as its proxy is concerned. */
  predicate ProxyClear(iface: Interface, b: Build) {
    && iface.name + "_proxy" !in MemberNames(iface)
    && Distinct(OwnFunctions(iface)) && Distinct(NamesOfStubs(SignalNames(iface.signals)))
    && (forall m | m in iface.methods :: ProxyMethodClear(iface, m, b.asserts))
    && forall s | s in iface.signals :: HandlerClear(s) && CallClear(iface, s, b.converts)
  }

  predicate AdaptorClear(iface: Interface) {
    && iface.name + "_adaptor" !in MemberNames(iface)
    && Distinct(MemberNames(iface)) && Distinct(NamesOfStubs(MethodNames(iface.methods)))
    && (iface.signals != [] ==> "emit_signal" !in MemberNames(iface))
    && forall m | m in iface.methods :: AdaptorMethodClear(m)
  }

  predicate Identifier(name: string) {
    forall c | c in name :: Alphanumeric(c) || c == '_'
  }

  /** Of identifiers, different ones have different stubs. */
  lemma StubNamesDistinct(names: seq<string>)
    requires Distinct(names) && forall name | name in names :: Identifier(name)
    ensures Distinct(NamesOfStubs(names))
  {
    forall i, j | 0 <= i < j < |names| ensures NamesOfStubs(names)[i] != NamesOfStubs(names)[j] {
      if StubName(names[i]) == StubName(names[j]) {
        StubNameKeeps(names[i]);
        StubNameKeeps(names[j]);
        assert names[i] == names[j];
      }
    }
  }

  lemma StubNameKeeps(name: string)
    requires Identifier(name)
    ensures StubName(name) == "_" + name + "_stub"
    ensures |StubName(name)| == |name| + 6 && StubName(name)[1..|name| + 1] == name
  {
    var plain := seq(|name|, i requires 0 <= i < |name| => if Alphanumeric(name[i]) then name[i] else '_');
    assert plain == name;
  }

  /** The stubs' own names are no names of the library and not the class's. */
  lemma StubNamesApart(names: seq<string>, c: string)
    ensures forall x | x in NamesOfStubs(names) :: x != "invoke_method" && x != "invoke_method_noreply"
    ensures forall x | x in NamesOfStubs(names) :: x != "emit_signal" && x != c + "_proxy" && x != c + "_adaptor"
  {
    forall x | x in NamesOfStubs(names)
      ensures x[0] == '_' && x[|x| - 1] == 'b'
    {
      var i :| 0 <= i < |names| && x == StubName(names[i]);
    }
    assert (c + "_proxy")[|c| + 5] == 'y' && (c + "_adaptor")[|c| + 7] == 'r';
  }

  lemma ProxyFunctionNames(iface: Interface)
    ensures FunctionNames(ProxyFunctions(iface)) == MemberNames(iface) + NamesOfStubs(SignalNames(iface.signals))
  {
    var names, members := FunctionNames(ProxyFunctions(iface)), MemberNames(iface);
    var stubs := NamesOfStubs(SignalNames(iface.signals));
    forall i | 0 <= i < |names| ensures names[i] == (members + stubs)[i] {
    }
  }

  lemma AdaptorFunctionNames(iface: Interface)
    ensures FunctionNames(AdaptorFunctions(iface))
         == ["introspect"] + MemberNames(iface) + NamesOfStubs(MethodNames(iface.methods))
  {
    var names, members := FunctionNames(AdaptorFunctions(iface)), MemberNames(iface);
    var stubs := NamesOfStubs(MethodNames(iface.methods));
    forall i | 0 <= i < |names| ensures names[i] == (["introspect"] + members + stubs)[i] {
    }
  }

  lemma DistinctParts<T>(a: seq<T>, z: seq<T>)
    requires forall x | x in a :: x !in z
    ensures Distinct(a + z) <==> Distinct(a) && Distinct(z)
  {
    var all := a + z;
    if Distinct(all) {
      forall i, j | 0 <= i < j < |a| ensures a[i] != a[j] { assert all[i] != all[j]; }
      forall i, j | 0 <= i < j < |z| ensures z[i] != z[j] { assert all[|a| + i] != all[|a| + j]; }
    }
    if Distinct(a) && Distinct(z) {
      forall i, j | 0 <= i < j < |all| ensures all[i] != all[j] {
        if i < |a| <= j {
          assert all[i] in a && all[j] in z;
        }
      }
    }
  }

  lemma StubFunctionsDistinct(names: seq<string>)
    ensures Distinct(StubFunctions(names)) <==> Distinct(NamesOfStubs(names))
  {
    var functions, stubs := StubFunctions(names), NamesOfStubs(names);
    hide StubName;
    forall i, j | 0 <= i < |names| && 0 <= j < |names|
      ensures functions[i] == functions[j] <==> stubs[i] == stubs[j]
    {
    }
  }

  /** The user's functions and the stubs take different parameters. */
  lemma OwnNotStubs(iface: Interface, names: seq<string>)
    ensures forall f | f in OwnFunctions(iface) :: f !in StubFunctions(names)
  {
    forall f | f in OwnFunctions(iface) ensures f.slots != [MessageOnly] {
      var k :| 0 <= k < |OwnFunctions(iface)| && OwnFunctions(iface)[k] == f;
      if f.slots != [] {
        assert f.slots[0].ByReference?;
      }
    }
  }

  lemma ProxyDistinct(iface: Interface)
    ensures Distinct(ProxyFunctions(iface))
       <==> Distinct(OwnFunctions(iface)) && Distinct(NamesOfStubs(SignalNames(iface.signals)))
  {
    var names := SignalNames(iface.signals);
    OwnNotStubs(iface, names);
    hide OwnFunctions, StubFunctions, NamesOfStubs, Distinct;
    DistinctParts(OwnFunctions(iface), StubFunctions(names));
    StubFunctionsDistinct(names);
  }

  lemma AdaptorDistinct(iface: Interface)
    requires Distinct(MemberNames(iface))
    ensures Distinct(AdaptorFunctions(iface)) <==> Distinct(NamesOfStubs(MethodNames(iface.methods)))
  {
    var first, own := [Function("introspect", true, [])], OwnFunctions(iface);
    var stubs := StubFunctions(MethodNames(iface.methods));
    OwnDistinct(iface);
    OwnNotStubs(iface, MethodNames(iface.methods));
    forall f | f in own ensures !f.isConst {
      var k :| 0 <= k < |own| && own[k] == f;
    }
    assert first[0].isConst && forall f | f in stubs :: !f.isConst;
    assert forall f | f in first :: f == first[0];
    assert Distinct(first) && first + own + stubs == first + (own + stubs);
    hide OwnFunctions, StubFunctions, NamesOfStubs, Distinct;
    DistinctParts(first, own + stubs);
    DistinctParts(own, stubs);
    StubFunctionsDistinct(MethodNames(iface.methods));
  }

  lemma OwnDistinct(iface: Interface)
    requires Distinct(MemberNames(iface))
    ensures Distinct(OwnFunctions(iface))
  {
    var own, names := OwnFunctions(iface), MemberNames(iface);
    forall i, j | 0 <= i < j < |own| ensures own[i] != own[j] {
      assert own[i].name == names[i] && own[j].name == names[j] && names[i] != names[j];
    }
  }

  // ---------- when they compile ----------

  lemma ProxyStubs(iface: Interface, functions: seq<Function>, b: Build)
    ensures (forall stub | stub in ProxyClass(iface).stubs :: StubWorks(stub, functions, b))
       <==> (forall m | m in iface.methods :: StubWorks(ProxyStub(m), functions, b))
            && (forall s | s in iface.signals :: StubWorks(HandlerStub(s), functions, b))
  {
    var stubs := ProxyClass(iface).stubs;
    hide StubWorks, ProxyStub, HandlerStub, ProxyBlock, ProxyFunctions;
    forall m | m in iface.methods
      ensures ProxyStub(m) in stubs
    {
      var i :| 0 <= i < |iface.methods| && iface.methods[i] == m;
      assert stubs[i] == ProxyStub(m);
    }
    forall s | s in iface.signals
      ensures HandlerStub(s) in stubs
    {
      var i :| 0 <= i < |iface.signals| && iface.signals[i] == s;
      assert stubs[|iface.methods| + i] == HandlerStub(s);
    }
    forall i | 0 <= i < |stubs|
      ensures if i < |iface.methods| then iface.methods[i] in iface.methods && stubs[i] == ProxyStub(iface.methods[i])
              else iface.signals[i - |iface.methods|] in iface.signals
                   && stubs[i] == HandlerStub(iface.signals[i - |iface.methods|])
    {
    }
  }

  lemma ProxyBlocks(iface: Interface)
    ensures (forall block | block in ProxyClass(iface).blocks :: Distinct(block))
       <==> forall s | s in iface.signals :: Distinct(ProxyBlock(s))
  {
    var blocks := ProxyClass(iface).blocks;
    hide Distinct, ProxyStub, HandlerStub, ProxyBlock, ProxyFunctions;
    forall s | s in iface.signals
      ensures ProxyBlock(s) in blocks
    {
      var i :| 0 <= i < |iface.signals| && iface.signals[i] == s;
      assert blocks[i] == ProxyBlock(s);
    }
    forall i | 0 <= i < |blocks|
      ensures iface.signals[i] in iface.signals && blocks[i] == ProxyBlock(iface.signals[i])
    {
    }
  }

  lemma ProxyMethodIff(iface: Interface, m: Method, b: Build)
    requires m in iface.methods
    ensures StubWorks(ProxyStub(m), ProxyFunctions(iface), b) <==> ProxyMethodClear(iface, m, b.asserts)
  {
    var functions, names := ProxyFunctions(iface), FunctionNames(ProxyFunctions(iface));
    InvokedAlike(iface, m, b.asserts);
    ProxyCallsNobody(m);
    hide ProxyStub, ProxyFunctions, FunctionNames, MemberNames, NamesOfStubs, StubCompiles, CallsSelect, Invoked,
         LocalsClear;
    NoCalls(ProxyStub(m).body, functions, b.converts);
    ProxyStubCompilesIff(m, names, b.asserts);
  }

  /** The stubs are not named like the library's functions. */
  lemma InvokedAlike(iface: Interface, m: Method, asserts: bool)
    ensures forall x | x in Invoked(m, asserts) ::
              x in FunctionNames(ProxyFunctions(iface)) <==> x in MemberNames(iface)
  {
    ProxyFunctionNames(iface);
    StubNamesApart(SignalNames(iface.signals), iface.name);
    hide ProxyFunctions, FunctionNames, MemberNames, NamesOfStubs;
  }

  lemma ProxyCallsNobody(m: Method)
    ensures NoUserCalls(ProxyStub(m).body)
  {
    hide GivenNames, Compiled;
  }

  lemma ProxySignalIff(iface: Interface, s: Signal, b: Build)
    requires s in iface.signals
    ensures StubWorks(HandlerStub(s), ProxyFunctions(iface), b) && Distinct(ProxyBlock(s))
       <==> HandlerClear(s) && CallClear(iface, s, b.converts)
  {
    ProxyFunctionNames(iface);
    var names := FunctionNames(ProxyFunctions(iface));
    assert s.name in names by {
      var i :| 0 <= i < |iface.signals| && iface.signals[i] == s;
      assert MemberNames(iface)[|iface.methods| + i] == s.name;
    }
    hide HandlerStub, ProxyFunctions, FunctionNames, MemberNames, NamesOfStubs, StubCompiles, CallsSelect, CallClear,
         ProxyBlock;
    HandlerStubCompilesIff(s, names, b.asserts);
    if HandlerClear(s) {
      HandlerSelectsIff(iface, s, b.converts);
    }
  }

  /** When the proxy's class compiles.  Members of one name are overloads of each other. */
  lemma ProxyCompilesIff(iface: Interface, b: Build)
    ensures Compiles(ProxyClass(iface), b) <==> ProxyClear(iface, b)
  {
    var c := ProxyClass(iface);
    ProxyFunctionNames(iface);
    StubNamesApart(SignalNames(iface.signals), iface.name);
    assert c.name in FunctionNames(c.functions) <==> c.name in MemberNames(iface);
    hide MemberNames, NamesOfStubs, FunctionNames, ProxyFunctions, StubWorks, Distinct, ProxyStub, HandlerStub,
         ProxyBlock, ProxyMethodClear, HandlerClear, CallClear;
    ProxyDistinct(iface);
    ProxyStubs(iface, c.functions, b);
    ProxyBlocks(iface);
    forall m | m in iface.methods
      ensures StubWorks(ProxyStub(m), c.functions, b) <==> ProxyMethodClear(iface, m, b.asserts)
    {
      ProxyMethodIff(iface, m, b);
    }
    forall s | s in iface.signals
      ensures StubWorks(HandlerStub(s), c.functions, b) && Distinct(ProxyBlock(s))
         <==> HandlerClear(s) && CallClear(iface, s, b.converts)
    {
      ProxySignalIff(iface, s, b);
    }
  }

  /** The variables of introspect() are apart exactly when the members are. */
  lemma IntrospectBlockIff(iface: Interface)
    ensures Distinct(IntrospectBlock(iface)) <==> Distinct(MemberNames(iface))
  {
    var names, c := MemberNames(iface), iface.name + "_adaptor";
    var block, arrays := IntrospectBlock(iface), Suffixed(MemberNames(iface), "_args");
    var n := |names|;
    assert forall i | 0 <= i < n :: block[i] == arrays[i] == names[i] + "_args";
    forall i, j | 0 <= i < n && 0 <= j < n
      ensures block[i] == block[j] <==> names[i] == names[j]
    {
      assert block[i][..|names[i]|] == names[i] && block[j][..|names[j]|] == names[j];
      assert |block[i]| == |names[i]| + 5 && |block[j]| == |names[j]| + 5;
    }
    forall i | 0 <= i < n
      ensures block[i][|block[i]| - 2] == 'g'
    {
    }
    TablesApart(c);
    hide MemberNames, Suffixed;
    var tables := [c + "_methods", c + "_signals", c + "_properties", c + "_interface"];
    assert forall k | 0 <= k < 4 :: block[n + k] == tables[k];
    if Distinct(names) {
      forall i, j | 0 <= i < j < |block|
        ensures block[i] != block[j]
      {
        if j < n {
          assert names[i] != names[j];
        } else if i < n {
          assert block[j] == tables[j - n];
        } else {
          assert block[i] == tables[i - n] && block[j] == tables[j - n];
        }
      }
    }
    if Distinct(block) {
      forall i, j | 0 <= i < j < n
        ensures names[i] != names[j]
      {
        assert block[i] != block[j];
      }
    }
  }

  lemma TablesApart(c: string)
    ensures var tables := [c + "_methods", c + "_signals", c + "_properties", c + "_interface"];
            Distinct(tables) && forall k | 0 <= k < 4 :: tables[k][|tables[k]| - 2] != 'g'
  {
    var a, b, d, e := c + "_methods", c + "_signals", c + "_properties", c + "_interface";
    assert a[|c| + 1] == 'm' && b[|c| + 1] == 's' && d[|c| + 1] == 'p' && e[|c| + 1] == 'i';
  }

  lemma AdaptorStubs(iface: Interface, functions: seq<Function>, b: Build)
    ensures (forall stub | stub in AdaptorClass(iface).stubs :: StubWorks(stub, functions, b))
       <==> (forall s | s in iface.signals :: StubWorks(EmitterStub(s), functions, b))
            && (forall m | m in iface.methods :: StubWorks(AdaptorStub(m), functions, b))
  {
    var stubs := AdaptorClass(iface).stubs;
    hide StubWorks, AdaptorStub, EmitterStub, AdaptorBlock, IntrospectBlock, AdaptorFunctions;
    forall s | s in iface.signals
      ensures EmitterStub(s) in stubs
    {
      var i :| 0 <= i < |iface.signals| && iface.signals[i] == s;
      assert stubs[i] == EmitterStub(s);
    }
    forall m | m in iface.methods
      ensures AdaptorStub(m) in stubs
    {
      var i :| 0 <= i < |iface.methods| && iface.methods[i] == m;
      assert stubs[|iface.signals| + i] == AdaptorStub(m);
    }
    forall i | 0 <= i < |stubs|
      ensures if i < |iface.signals| then iface.signals[i] in iface.signals && stubs[i] == EmitterStub(iface.signals[i])
              else iface.methods[i - |iface.signals|] in iface.methods
                   && stubs[i] == AdaptorStub(iface.methods[i - |iface.signals|])
    {
    }
  }

  lemma AdaptorBlocks(iface: Interface)
    ensures (forall block | block in AdaptorClass(iface).blocks :: Distinct(block))
       <==> Distinct(IntrospectBlock(iface)) && forall m | m in iface.methods :: Distinct(AdaptorBlock(m))
  {
    var blocks := AdaptorClass(iface).blocks;
    hide Distinct, AdaptorStub, EmitterStub, AdaptorBlock, IntrospectBlock, AdaptorFunctions;
    assert blocks[0] == IntrospectBlock(iface);
    forall m | m in iface.methods
      ensures AdaptorBlock(m) in blocks
    {
      var i :| 0 <= i < |iface.methods| && iface.methods[i] == m;
      assert blocks[1 + i] == AdaptorBlock(m);
    }
    forall i | 0 < i < |blocks|
      ensures iface.methods[i - 1] in iface.methods && blocks[i] == AdaptorBlock(iface.methods[i - 1])
    {
    }
  }

  lemma AdaptorSignalIff(iface: Interface, s: Signal, b: Build)
    requires s in iface.signals
    ensures StubWorks(EmitterStub(s), AdaptorFunctions(iface), b) <==> "emit_signal" !in MemberNames(iface)
  {
    AdaptorFunctionNames(iface);
    StubNamesApart(MethodNames(iface.methods), iface.name);
    var functions, names := AdaptorFunctions(iface), FunctionNames(AdaptorFunctions(iface));
    assert "introspect"[0] != "emit_signal"[0];
    assert "emit_signal" in names <==> "emit_signal" in MemberNames(iface);
    assert forall st | st in EmitterStub(s).body :: !CallsUser(st);
    hide EmitterStub, AdaptorFunctions, FunctionNames, MemberNames, NamesOfStubs, StubCompiles, CallsSelect;
    NoCalls(EmitterStub(s).body, functions, b.converts);
    EmitterStubCompilesIff(s, names, b.asserts);
  }

  lemma AdaptorMethodIff(iface: Interface, m: Method, b: Build)
    requires m in iface.methods && Distinct(MemberNames(iface))
    ensures StubWorks(AdaptorStub(m), AdaptorFunctions(iface), b) && Distinct(AdaptorBlock(m))
       <==> AdaptorMethodClear(m)
  {
    AdaptorFunctionNames(iface);
    var names := FunctionNames(AdaptorFunctions(iface));
    assert m.name in names by {
      var i :| 0 <= i < |iface.methods| && iface.methods[i] == m;
      assert MemberNames(iface)[i] == m.name;
    }
    hide AdaptorStub, AdaptorFunctions, FunctionNames, MemberNames, NamesOfStubs, StubCompiles, CallsSelect,
         AdaptorBlock;
    AdaptorStubCompilesIff(m, names, b.asserts);
    AdaptorSelects(iface, m, b.converts);
  }

  lemma AdaptorCompilesIff(iface: Interface, b: Build)
    ensures Compiles(AdaptorClass(iface), b) <==> AdaptorClear(iface)
  {
    var c := AdaptorClass(iface);
    AdaptorFunctionNames(iface);
    StubNamesApart(MethodNames(iface.methods), iface.name);
    assert c.name[|c.name| - 1] == 'r' && "introspect"[9] == 't';
    assert c.name in FunctionNames(c.functions) <==> c.name in MemberNames(iface);
    hide MemberNames, NamesOfStubs, FunctionNames, AdaptorFunctions, StubWorks, Distinct, AdaptorStub, EmitterStub,
         AdaptorBlock, IntrospectBlock, AdaptorMethodClear;
    IntrospectBlockIff(iface);
    AdaptorStubs(iface, c.functions, b);
    AdaptorBlocks(iface);
    forall s | s in iface.signals
      ensures StubWorks(EmitterStub(s), c.functions, b) <==> "emit_signal" !in MemberNames(iface)
    {
      AdaptorSignalIff(iface, s, b);
    }
    if Distinct(MemberNames(iface)) {
      AdaptorDistinct(iface);
      forall m | m in iface.methods
        ensures StubWorks(AdaptorStub(m), c.functions, b) && Distinct(AdaptorBlock(m)) <==> AdaptorMethodClear(m)
      {
        AdaptorMethodIff(iface, m, b);
      }
    }
    if iface.signals != [] {
      assert iface.signals[0] in iface.signals;
    }
  }
}
