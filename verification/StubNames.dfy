/**
 When the generated stubs compile.  The names in an interface must be apart from those that the stubs use,
 and no member of the class may hide a function of the library that a stub calls.
 */
module StubNames {
  import opened SignatureParser
  import opened Overloads
  import opened StubLanguage
  import opened StubGenerators

  // ---------- names of lists of statements ----------

  function Declared(stmts: seq<Stmt>): set<string> {
    if stmts == [] then {} else NamesOf(Declares(stmts[0])) + Declared(stmts[1..])
  }

  lemma {:induction false} ChecksConcat(a: seq<Stmt>, b: seq<Stmt>, taken: set<string>, members: seq<string>,
                                        asserts: bool)
    ensures Checks(a + b, taken, members, asserts)
       <==> Checks(a, taken, members, asserts) && Checks(b, taken + Declared(a), members, asserts)
    ensures Declared(a + b) == Declared(a) + Declared(b)
    decreases |a|
  {
    hide Fits, Resolves;
    if a == [] {
      assert a + b == b && taken + {} == taken;
    } else {
      assert (a + b)[0] == a[0] && (a + b)[1..] == a[1..] + b;
      var next := taken + NamesOf(Declares(a[0]));
      ChecksConcat(a[1..], b, next, members, asserts);
      assert next + Declared(a[1..]) == taken + Declared(a);
    }
  }

  lemma ChecksOne(st: Stmt, taken: set<string>, members: seq<string>, asserts: bool)
    ensures Checks([st], taken, members, asserts) <==> Fits(st, taken, asserts) && Resolves(st, members, asserts)
    ensures Declared([st]) == NamesOf(Declares(st))
  {
    assert [st][1..] == [];
  }

  predicate Quiet(st: Stmt) {
    st.Insert? || st.Extract? || st.SetMember? || st.Return?
  }

  /** Statements that neither declare nor call fit everywhere. */
  lemma {:induction false} QuietChecks(stmts: seq<Stmt>, taken: set<string>, members: seq<string>, asserts: bool)
    requires forall st | st in stmts :: Quiet(st)
    ensures Checks(stmts, taken, members, asserts) && Declared(stmts) == {}
    decreases |stmts|
  {
    if stmts != [] {
      assert Quiet(stmts[0]) && taken + {} == taken;
      QuietChecks(stmts[1..], taken, members, asserts);
    }
  }

  predicate Free(names: seq<string>, taken: set<string>) {
    Distinct(names) && forall x | x in names :: x !in taken
  }

  lemma FreeFirst(names: seq<string>, taken: set<string>)
    requires names != []
    ensures Free(names, taken) <==> names[0] !in taken && Free(names[1..], taken + {names[0]})
  {
    if names[0] !in taken && Free(names[1..], taken + {names[0]}) {
      forall i, j | 0 <= i < j < |names|
        ensures names[i] != names[j]
      {
        assert names[j] == names[1..][j - 1] && names[1..][j - 1] in names[1..];
        if i > 0 {
          assert names[i] == names[1..][i - 1];
        }
      }
      assert forall x | x in names :: x == names[0] || x in names[1..];
    }
    if Free(names, taken) {
      assert names[0] in names && forall x | x in names[1..] :: x in names;
    }
  }

  lemma {:induction false} DeclarationsCheck(texts: seq<string>, names: seq<string>, taken: set<string>,
                                             members: seq<string>, asserts: bool)
    requires |texts| == |names|
    ensures Checks(Declarations(texts, names), taken, members, asserts) <==> Free(names, taken)
    ensures Declared(Declarations(texts, names)) == NameSet(names)
    decreases |names|
  {
    var stmts := Declarations(texts, names);
    if names == [] {
      assert stmts == [];
    } else {
      assert stmts[0] == Declare(texts[0], names[0]) && stmts[1..] == Declarations(texts[1..], names[1..]);
      DeclarationsCheck(texts[1..], names[1..], taken + {names[0]}, members, asserts);
      FreeFirst(names, taken);
      hide Free;
      assert NameSet(names) == {names[0]} + NameSet(names[1..]);
    }
  }

  lemma {:induction false} DeclareExtractsCheck(it: string, texts: seq<string>, names: seq<string>, taken: set<string>,
                                                members: seq<string>, asserts: bool)
    requires |texts| == |names|
    ensures Checks(DeclareExtracts(it, texts, names), taken, members, asserts) <==> Free(names, taken)
    ensures Declared(DeclareExtracts(it, texts, names)) == NameSet(names)
    decreases |names|
  {
    if names == [] {
      assert DeclareExtracts(it, texts, names) == [];
    } else {
      var d, e := Declare(texts[0], names[0]), Extract(it, names[0]);
      var rest := DeclareExtracts(it, texts[1..], names[1..]);
      assert [d] + [e] == [d, e];
      ChecksConcat([d, e], rest, taken, members, asserts);
      ChecksConcat([d], [e], taken, members, asserts);
      ChecksOne(d, taken, members, asserts);
      ChecksOne(e, taken + {names[0]}, members, asserts);
      DeclareExtractsCheck(it, texts[1..], names[1..], taken + {names[0]}, members, asserts);
      FreeFirst(names, taken);
      hide Free;
      assert NameSet(names) == {names[0]} + NameSet(names[1..]);
      assert Declared([d]) + Declared([e]) == {names[0]};
    }
  }

  function Locals(message: string, iter: string, names: seq<string>): set<string> {
    {message} + (if names != [] then {iter} else {})
  }

  lemma FillingChecks(message: string, member: string, names: seq<string>, taken: set<string>,
                      members: seq<string>, asserts: bool)
    requires message != "wi"
    ensures Checks(Filling(message, member, names), taken, members, asserts)
       <==> message !in taken && (names != [] ==> "wi" !in taken)
    ensures Declared(Filling(message, member, names)) == Locals(message, "wi", names)
  {
    var made, opening := Message(message, member), if names != [] then [OpenWriter("wi", message)] else [];
    var next := taken + {message};
    QuietChecks(Inserts("wi", names), next + Declared(opening), members, asserts);
    if names != [] {
      ChecksOne(opening[0], next, members, asserts);
    }
    ChecksOne(made, taken, members, asserts);
    hide Inserts;
    ChecksConcat([made], opening, taken, members, asserts);
    ChecksConcat([made] + opening, Inserts("wi", names), taken, members, asserts);
    assert taken + Declared([made] + opening) == next + Declared(opening);
  }

  lemma FetchingChecks(message: string, texts: seq<string>, names: seq<string>, taken: set<string>,
                       members: seq<string>, asserts: bool)
    requires |texts| == |names|
    ensures Checks(Fetching(message, texts, names), taken, members, asserts)
       <==> Free(names, taken) && (names != [] ==> "ri" !in taken && "ri" !in names)
    ensures Declared(Fetching(message, texts, names)) == NameSet(names) + (if names != [] then {"ri"} else {})
  {
    var opening := if names != [] then [OpenReader("ri", message)] else [];
    if names != [] {
      ChecksOne(opening[0], taken, members, asserts);
    }
    ChecksConcat(opening, DeclareExtracts("ri", texts, names), taken, members, asserts);
    DeclareExtractsCheck("ri", texts, names, taken + Declared(opening), members, asserts);
    assert Declared(opening) == if names != [] then {"ri"} else {};
  }

  // ---------- the methods of a proxy ----------

  /** The names of a stub's parameters. */
  function ProxyNames(m: Method): seq<string> {
    InNames(m) + (if |m.outs| > 1 then OutNames(m) else [])
  }

  /** The function of the library that the stub calls; none if the call is compiled out. */
  function Invoked(m: Method, asserts: bool): seq<string> {
    if Waits(m) then ["invoke_method"] else if asserts then ["invoke_method_noreply"] else []
  }

  /** The names that the body of the stub needs. */
  function ProxyNeeds(m: Method, asserts: bool): seq<string> {
    ["call"]
    + (if m.ins != [] then ["wi"] else [])
    + (if Waits(m) then ["ret"] else [])
    + Invoked(m, asserts)
    + (if m.outs != [] then ["ri"] else [])
    + (if |m.outs| == 1 then ["argout"] else [])
  }

  /** The parameters have names of their own. */
  predicate LocalsClear(m: Method, asserts: bool) {
    Distinct(ProxyNames(m)) && forall x | x in ProxyNeeds(m, asserts) :: x !in ProxyNames(m)
  }

  /** Also, no member of the class hides the library's function. */
  predicate ProxyMethodClear(iface: Interface, m: Method, asserts: bool) {
    LocalsClear(m, asserts) && (forall x | x in Invoked(m, asserts) :: x !in MemberNames(iface))
  }

  lemma ProxySendsChecks(m: Method, taken: set<string>, members: seq<string>, asserts: bool)
    ensures Checks(ProxySends(m), taken, members, asserts)
       <==> "call" !in taken && (m.ins != [] ==> "wi" !in taken) && (Waits(m) ==> "ret" !in taken)
            && (forall x | x in Invoked(m, asserts) :: x !in taken && x !in members)
    ensures Declared(ProxySends(m))
         == Locals("call", "wi", InNames(m)) + (if Waits(m) then {"ret"} else {})
  {
    var filling, named := Filling("call", "", InNames(m)), SetMember("call", m.name);
    var last := ProxyCalls(m);
    var open := taken + Locals("call", "wi", InNames(m));
    hide Filling, Checks, Declared, GivenNames;
    FillingChecks("call", "", InNames(m), taken, members, asserts);
    ChecksOne(named, open, members, asserts);
    ChecksOne(last, open, members, asserts);
    ChecksConcat(filling, [named], taken, members, asserts);
    ChecksConcat(filling + [named], [last], taken, members, asserts);
    assert taken + Declared(filling + [named]) == open;
  }

  lemma ProxyReceivesChecks(m: Method, taken: set<string>, members: seq<string>, asserts: bool)
    ensures Checks(ProxyReceives(m), taken, members, asserts)
       <==> (m.outs != [] ==> "ri" !in taken) && (|m.outs| == 1 ==> "argout" !in taken)
  {
    var opening := if m.outs != [] then [OpenReader("ri", "ret")] else [];
    var rest := ProxyReceives(m)[|opening|..];
    assert ProxyReceives(m) == opening + rest;
    if m.outs != [] {
      ChecksOne(opening[0], taken, members, asserts);
    }
    ChecksConcat(opening, rest, taken, members, asserts);
    var next := taken + Declared(opening);
    assert Declared(opening) == if m.outs != [] then {"ri"} else {};
    if |m.outs| == 1 {
      var d := Declare(Compiled(m.outs[0].sig), "argout");
      var tail := [Extract("ri", "argout"), Return("argout")];
      assert rest == [d] + tail;
      ChecksConcat([d], tail, next, members, asserts);
      ChecksOne(d, next, members, asserts);
      QuietChecks(tail, next + {"argout"}, members, asserts);
    } else {
      assert rest == Extracts("ri", OutNames(m));
      QuietChecks(rest, next, members, asserts);
    }
  }

  lemma ProxyNeedsAll(m: Method, asserts: bool, taken: set<string>)
    ensures (forall x | x in ProxyNeeds(m, asserts) :: x !in taken)
       <==> "call" !in taken && (m.ins != [] ==> "wi" !in taken) && (Waits(m) ==> "ret" !in taken)
            && (forall x | x in Invoked(m, asserts) :: x !in taken)
            && (m.outs != [] ==> "ri" !in taken) && (|m.outs| == 1 ==> "argout" !in taken)
  {
    var needs, invoked := ProxyNeeds(m, asserts), Invoked(m, asserts);
    hide Invoked, Waits;
    assert "call" in needs && (m.ins != [] ==> "wi" in needs) && (Waits(m) ==> "ret" in needs);
    assert forall x | x in invoked :: x in needs;
    assert (m.outs != [] ==> "ri" in needs) && (|m.outs| == 1 ==> "argout" in needs);
    assert forall x | x in needs ::
        x in invoked || x == "call" || (x == "wi" && m.ins != []) || (x == "ret" && Waits(m))
        || (x == "ri" && m.outs != []) || (x == "argout" && |m.outs| == 1);
  }

  lemma ProxyBodyChecks(m: Method, taken: set<string>, members: seq<string>, asserts: bool)
    ensures Checks(ProxyStub(m).body, taken, members, asserts)
       <==> (forall x | x in ProxyNeeds(m, asserts) :: x !in taken)
            && forall x | x in Invoked(m, asserts) :: x !in members
  {
    hide ProxySends, ProxyReceives, Checks, Declared, Waits, GivenNames;
    ProxySendsChecks(m, taken, members, asserts);
    ProxyReceivesChecks(m, taken + Declared(ProxySends(m)), members, asserts);
    ChecksConcat(ProxySends(m), ProxyReceives(m), taken, members, asserts);
    hide ProxyNeeds, Invoked;
    ProxyNeedsAll(m, asserts, taken);
  }

  lemma ProxyParamNames(m: Method)
    ensures Names(ProxyParams(m)) == ProxyNames(m)
  {
    hide GivenNames;
  }

  /** No local of the stub is in the way of another. */
  lemma ProxyStubCompilesIff(m: Method, members: seq<string>, asserts: bool)
    ensures StubCompiles(ProxyStub(m), members, asserts)
       <==> LocalsClear(m, asserts) && forall x | x in Invoked(m, asserts) :: x !in members
  {
    var names := ProxyNames(m);
    ProxyParamNames(m);
    assert [] + names == names;
    hide ProxyParams, Names, ProxySends, ProxyReceives, ProxyNames, ProxyNeeds, Invoked, Checks, Distinct, GivenNames;
    ProxyBodyChecks(m, NameSet(names), members, asserts);
  }

  // ---------- the handlers of signals in a proxy ----------

  /** The variables are apart from each other and from what the stub needs, and so are the declared parameters. */
  predicate HandlerClear(s: Signal) {
    var names := HandlerNames(s);
    && Distinct(names) && Distinct(ProxyBlock(s)) && "sig" !in names && (s.args != [] ==> "ri" !in names)
    && s.name != "sig" && (s.args != [] ==> s.name != "ri") && s.name !in names
  }

  lemma HandlerBodyChecks(s: Signal, members: seq<string>, asserts: bool)
    requires s.name in members
    ensures Checks(HandlerStub(s).body, {"sig"}, members, asserts)
       <==> Free(HandlerNames(s), {"sig"}) && (s.args != [] ==> "ri" !in HandlerNames(s) && s.name != "ri")
            && s.name != "sig" && s.name !in HandlerNames(s)
  {
    var names, texts, call := HandlerNames(s), Texts(s.args), Call(s.name, HandlerNames(s));
    FetchingChecks("sig", texts, names, {"sig"}, members, asserts);
    OwnCall(s.name, names, members, asserts);
    hide Fetching, GivenNames, Texts, Checks, Declared, Resolves, Free;
    var open := {"sig"} + Declared(Fetching("sig", texts, names));
    ChecksConcat(Fetching("sig", texts, names), [call], {"sig"}, members, asserts);
    ChecksOne(call, open, members, asserts);
    assert s.name in open <==> s.name == "sig" || s.name in names || (s.args != [] && s.name == "ri");
  }

  lemma HandlerStubCompilesIff(s: Signal, members: seq<string>, asserts: bool)
    requires s.name in members
    ensures StubCompiles(HandlerStub(s), members, asserts) && Distinct(ProxyBlock(s)) <==> HandlerClear(s)
  {
    assert ["sig"] + Names([]) == ["sig"] && NameSet(["sig"]) == {"sig"} && Distinct(["sig"]);
    hide GivenNames, Fetching, Checks, Distinct, ProxyBlock;
    HandlerBodyChecks(s, members, asserts);
  }

  lemma OwnCall(fn: string, args: seq<string>, members: seq<string>, asserts: bool)
    requires fn in members
    ensures Resolves(Call(fn, args), members, asserts)
  {
  }

  // ---------- the handlers of methods in an adaptor ----------

  /** The method's name is none that its handler uses before calling it; the declared parameters are apart. */
  predicate AdaptorMethodClear(m: Method) {
    && m.name != "call" && (m.ins != [] ==> m.name != "ri") && m.name !in AdaptorIns(m) && m.name !in AdaptorOuts(m)
    && Distinct(AdaptorBlock(m))
  }

  lemma CountedDistinct(n: nat, prefix: string)
    ensures Distinct(CountedNames(n, prefix))
  {
    var names := CountedNames(n, prefix);
    hide Numbered;
    forall i, j | 0 <= i < j < n
      ensures names[i] != names[j]
    {
      if names[i] == names[j] {
        NumberedInjective(prefix, i + 1, j + 1);
      }
    }
  }

  lemma CountedPrefix(n: nat, prefix: string)
    ensures forall x | x in CountedNames(n, prefix) :: prefix < x
  {
  }

  /** None of the handler's variables is in another's way. */
  lemma AdaptorNamesApart(m: Method)
    ensures Distinct(AdaptorIns(m)) && Distinct(AdaptorOuts(m))
    ensures forall x | x in AdaptorIns(m) :: x !in AdaptorOuts(m)
    ensures forall x | x in AdaptorIns(m) || x in AdaptorOuts(m) :: x !in ["call", "ri", "wi", "reply"]
  {
    CountedDistinct(|m.ins|, "argin");
    CountedDistinct(|m.outs|, "argout");
    CountedPrefix(|m.ins|, "argin");
    CountedPrefix(|m.outs|, "argout");
    hide CountedNames;
    forall x | x in AdaptorIns(m)
      ensures x[0] == 'a' && x[3] == 'i'
    {
      assert "argin" < x;
    }
    forall x | x in AdaptorOuts(m)
      ensures x[0] == 'a' && x[3] == 'o'
    {
      assert "argout" < x;
    }
  }

  lemma AdaptorServesChecks(m: Method, taken: set<string>, members: seq<string>, asserts: bool)
    requires m.name in members && forall x | x in AdaptorOuts(m) :: x !in taken
    ensures Checks(AdaptorServes(m), taken, members, asserts) <==> m.name !in taken && m.name !in AdaptorOuts(m)
    ensures Declared(AdaptorServes(m)) == NameSet(AdaptorOuts(m))
  {
    if |m.outs| == 1 {
      ArgsComplete(m);
      assert AdaptorOuts(m) == ["argout1"] by { hide Numbered, Compiled; }
      assert "argout1" in AdaptorOuts(m) && NameSet(["argout1"]) == {"argout1"};
      hide CountedNames, Checks, Declared, Compiled;
      ChecksOne(DeclareCall(Compiled(m.outs[0].sig), "argout1", m.name, AdaptorIns(m)), taken, members, asserts);
    } else {
      SeveralChecks(m, taken, members, asserts);
    }
  }

  lemma SeveralChecks(m: Method, taken: set<string>, members: seq<string>, asserts: bool)
    requires |m.outs| != 1 && m.name in members && forall x | x in AdaptorOuts(m) :: x !in taken
    ensures Checks(AdaptorServes(m), taken, members, asserts) <==> m.name !in taken && m.name !in AdaptorOuts(m)
    ensures Declared(AdaptorServes(m)) == NameSet(AdaptorOuts(m))
  {
    var texts, outs, call := Texts(m.outs), AdaptorOuts(m), Call(m.name, AdaptorIns(m) + AdaptorOuts(m));
    AdaptorNamesApart(m);
    assert |texts| == |outs|;
    hide Numbered, CountedNames, Texts, Declarations, Checks, Declared;
    DeclarationsCheck(texts, outs, taken, members, asserts);
    ChecksConcat(Declarations(texts, outs), [call], taken, members, asserts);
    ChecksOne(call, taken + NameSet(outs), members, asserts);
    assert NameSet(outs) + {} == NameSet(outs);
  }

  lemma AdaptorSendsChecks(m: Method, taken: set<string>, members: seq<string>, asserts: bool)
    requires "reply" !in taken && "wi" !in taken
    ensures Checks(AdaptorSends(m), taken, members, asserts)
  {
    hide CountedNames, Filling;
    FillingChecks("reply", "", AdaptorOuts(m), taken, members, asserts);
    QuietChecks([Return("reply")], taken + Declared(Filling("reply", "", AdaptorOuts(m))), members, asserts);
    ChecksConcat(Filling("reply", "", AdaptorOuts(m)), [Return("reply")], taken, members, asserts);
  }

  lemma AdaptorReceivesChecks(m: Method, members: seq<string>, asserts: bool)
    ensures Checks(AdaptorReceives(m), {"call"}, members, asserts)
    ensures {"call"} + Declared(AdaptorReceives(m))
         == {"call"} + NameSet(AdaptorIns(m)) + (if m.ins != [] then {"ri"} else {})
  {
    AdaptorNamesApart(m);
    hide CountedNames, Fetching;
    FetchingChecks("call", Texts(m.ins), AdaptorIns(m), {"call"}, members, asserts);
    assert Free(AdaptorIns(m), {"call"});
  }

  lemma AdaptorBodyChecks(m: Method, members: seq<string>, asserts: bool)
    requires m.name in members
    ensures Checks(AdaptorStub(m).body, {"call"}, members, asserts)
       <==> m.name !in {"call"} + Declared(AdaptorReceives(m)) && m.name !in AdaptorOuts(m)
  {
    var outs, open := AdaptorOuts(m), {"call"} + Declared(AdaptorReceives(m));
    AdaptorNamesApart(m);
    AdaptorReceivesChecks(m, members, asserts);
    assert forall x | x in outs :: x !in open;
    assert "reply" !in open + NameSet(outs) && "wi" !in open + NameSet(outs);
    hide AdaptorReceives, AdaptorServes, AdaptorSends, Checks, Declared, NameSet, AdaptorIns, AdaptorOuts;
    AdaptorServesChecks(m, open, members, asserts);
    AdaptorSendsChecks(m, open + NameSet(outs), members, asserts);
    ChecksConcat(AdaptorReceives(m), AdaptorServes(m), {"call"}, members, asserts);
    ChecksConcat(AdaptorReceives(m) + AdaptorServes(m), AdaptorSends(m), {"call"}, members, asserts);
    assert {"call"} + Declared(AdaptorReceives(m) + AdaptorServes(m)) == open + NameSet(outs);
  }

  lemma AdaptorStubCompilesIff(m: Method, members: seq<string>, asserts: bool)
    requires m.name in members
    ensures StubCompiles(AdaptorStub(m), members, asserts) && Distinct(AdaptorBlock(m)) <==> AdaptorMethodClear(m)
  {
    assert ["call"] + Names([]) == ["call"] && NameSet(["call"]) == {"call"};
    AdaptorBodyChecks(m, members, asserts);
    AdaptorReceivesChecks(m, members, asserts);
    hide AdaptorReceives, AdaptorServes, AdaptorSends, Checks, Declared, AdaptorBlock, CountedNames;
  }

  // ---------- the emitters of signals in an adaptor ----------

  lemma EmitterNamesApart(s: Signal)
    ensures Distinct(EmitterNames(s))
    ensures forall x | x in EmitterNames(s) :: x !in ["sig", "wi", "emit_signal"]
  {
    CountedDistinct(|s.args|, "arg");
    CountedPrefix(|s.args|, "arg");
    hide CountedNames;
    forall x | x in EmitterNames(s)
      ensures x[0] == 'a'
    {
      assert "arg" < x;
    }
  }

  /** Only a member named like the library's function is in an emitter's way. */
  lemma EmitterStubCompilesIff(s: Signal, members: seq<string>, asserts: bool)
    ensures StubCompiles(EmitterStub(s), members, asserts) <==> "emit_signal" !in members
  {
    var names, emit := EmitterNames(s), Emit("emit_signal", "sig");
    EmitterNamesApart(s);
    assert Names(EmitterStub(s).params) == names && [] + names == names;
    hide EmitterNames, Filling, Checks, Declared;
    FillingChecks("sig", s.name, names, NameSet(names), members, asserts);
    ChecksConcat(Filling("sig", s.name, names), [emit], NameSet(names), members, asserts);
    ChecksOne(emit, NameSet(names) + Locals("sig", "wi", names), members, asserts);
  }

  // ---------- what the stubs return ----------

  predicate Gives(st: Stmt, text: string, name: string) {
    (st.Declare? && st.text == text && st.name == name)
    || (st.Message? && text == "::DBus::Message" && st.name == name)
  }

  /** A function with a result returns a variable of its type, declared before, and another returns nothing. */
  predicate ReturnsOwn(stub: Stub) {
    && (stub.result == "void" <==> forall st | st in stub.body :: !st.Return?)
    && forall j | 0 <= j < |stub.body| && stub.body[j].Return? ::
         exists i :: 0 <= i < j && Gives(stub.body[i], stub.result, stub.body[j].name)
  }

  predicate Silent(stmts: seq<Stmt>) {
    forall st | st in stmts :: !st.Return?
  }

  lemma LastReturns(stub: Stub, before: seq<Stmt>, name: string, i: nat)
    requires stub.body == before + [Return(name)] && Silent(before) && stub.result != "void"
    requires i < |before| && Gives(before[i], stub.result, name)
    ensures ReturnsOwn(stub)
  {
    assert stub.body[|before|] == Return(name) && stub.body[i] == before[i];
    hide Gives;
  }

  lemma {:induction false} FetchesSilent(it: string, texts: seq<string>, names: seq<string>)
    requires |texts| == |names|
    ensures Silent(DeclareExtracts(it, texts, names))
    decreases |names|
  {
    if names != [] {
      FetchesSilent(it, texts[1..], names[1..]);
    }
  }

  /** The proxy returns its only result, the adaptor the reply. */
  lemma MethodsReturn(m: Method)
    requires forall a | a in m.outs :: Compiled(a.sig) != "void"
    ensures ReturnsOwn(ProxyStub(m)) && ReturnsOwn(AdaptorStub(m))
  {
    hide ReturnsOwn;
    ProxyReturns(m);
    AdaptorReturns(m);
  }

  lemma ProxyReturns(m: Method)
    requires forall a | a in m.outs :: Compiled(a.sig) != "void"
    ensures ReturnsOwn(ProxyStub(m))
  {
    hide Compiled, Numbered, GivenNames, ProxyParams;
    assert Silent(ProxySends(m));
    hide ProxySends;
    if |m.outs| == 1 {
      var text := Compiled(m.outs[0].sig);
      var last := [OpenReader("ri", "ret"), Declare(text, "argout"), Extract("ri", "argout")];
      assert ProxyStub(m).body == ProxySends(m) + last + [Return("argout")];
      assert m.outs[0] in m.outs && Silent(last);
      LastReturns(ProxyStub(m), ProxySends(m) + last, "argout", |ProxySends(m)| + 1);
    } else {
      assert Silent(ProxyReceives(m));
      hide ProxyReceives;
    }
  }

  lemma AdaptorReturns(m: Method)
    ensures ReturnsOwn(AdaptorStub(m))
  {
    var before, filling := AdaptorReceives(m) + AdaptorServes(m), Filling("reply", "", AdaptorOuts(m));
    FetchesSilent("ri", Texts(m.ins), AdaptorIns(m));
    hide Compiled, Numbered, DeclareExtracts, CountedNames, ReturnsOwn;
    assert Silent(AdaptorReceives(m)) && Silent(AdaptorServes(m)) && Silent(filling);
    hide AdaptorReceives, AdaptorServes;
    assert AdaptorStub(m).body == before + filling + [Return("reply")];
    assert filling[0] == Message("reply", "") && (before + filling)[|before|] == filling[0];
    hide Filling;
    LastReturns(AdaptorStub(m), before + filling, "reply", |before|);
  }

  /** The two halves of a signal return nothing. */
  lemma SignalsReturn(s: Signal)
    ensures ReturnsOwn(EmitterStub(s)) && ReturnsOwn(HandlerStub(s))
  {
    hide Compiled, Numbered;
    FetchesSilent("ri", Texts(s.args), HandlerNames(s));
    hide DeclareExtracts;
  }
}
