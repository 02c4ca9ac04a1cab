/**
 Interfaces whose generated classes do not compile, or do not do what they should.
 */
module StubWitnesses {
  import opened SignatureParser
  import opened Overloads
  import opened StubLanguage
  import opened StubGenerators
  import opened StubNames
  import opened StubClasses

  /** A method that hides the library's function from its own stub. */
  lemma HidesInvoke(name: string, b: Build)
    ensures !Compiles(ProxyClass(Interface(name, [Method("invoke_method", [], [], false)], [])), b)
  {
    var m := Method("invoke_method", [], [], false);
    var iface := Interface(name, [m], []);
    ProxyCompilesIff(iface, b);
    hide Compiles, ProxyClass, LocalsClear;
    assert m in iface.methods;
    assert "invoke_method" in Invoked(m, b.asserts) && MemberNames(iface)[0] == "invoke_method";
    assert !ProxyMethodClear(iface, m, b.asserts);
  }

  /** The same without a reply, but only where assert() is compiled in. */
  lemma HidesInvokeNoReply(name: string, b: Build)
    ensures var m := Method("invoke_method_noreply", [], [], true);
            Compiles(ProxyClass(Interface(name, [m], [])), b) <==> !b.asserts
  {
    var m := Method("invoke_method_noreply", [], [], true);
    var iface := Interface(name, [m], []);
    ProxyCompilesIff(iface, b);
    hide Compiles, ProxyClass;
    assert MemberNames(iface) == ["invoke_method_noreply"] && ProxyNames(m) == [];
    NoProxyName(name);
    assert m in iface.methods;
    assert |OwnFunctions(iface)| == 1 && SignalNames(iface.signals) == [];
    if b.asserts {
      assert "invoke_method_noreply" in Invoked(m, b.asserts);
      assert !ProxyMethodClear(iface, m, b.asserts);
    } else {
      assert Invoked(m, b.asserts) == [] && ProxyMethodClear(iface, m, b.asserts);
    }
  }

  lemma NoProxyName(name: string)
    ensures name + "_proxy" != "invoke_method_noreply"
  {
    var c, n := name + "_proxy", |name|;
    assert c[n] == '_' && c[n + 1] == 'p';
    assert "invoke_method_noreply"[15] == 'o';
  }

  /** A signal that hides the library's function from its own emitter. */
  lemma HidesEmit(name: string, b: Build)
    ensures !Compiles(AdaptorClass(Interface(name, [], [Signal("emit_signal", [])])), b)
  {
    var iface := Interface(name, [], [Signal("emit_signal", [])]);
    AdaptorCompilesIff(iface, b);
    hide Compiles, AdaptorClass;
    assert MemberNames(iface) == ["emit_signal"];
  }

  /** The declaration of a signal's handler numbers with another prefix than its stub. */
  lemma RepeatsNumber(name: string, b: Build)
    ensures var s := Signal("S", [Arg("argin1", "i"), Arg("", "i")]);
            Distinct(HandlerNames(s)) && !Compiles(ProxyClass(Interface(name, [], [s])), b)
  {
    var s := Signal("S", [Arg("argin1", "i"), Arg("", "i")]);
    var iface := Interface(name, [], [s]);
    ProxyCompilesIff(iface, b);
    hide Compiles, ProxyClass, CallClear;
    assert s in iface.signals && Decimal(1) == "1";
    assert ProxyBlock(s)[0] == "argin1" == ProxyBlock(s)[1];
    assert !HandlerClear(s);
    assert HandlerNames(s)[0] == "argin1" && HandlerNames(s)[1] == Numbered("arg", 1) == "arg1";
  }

  /** The adaptor's handler has variables of its own, but the method is declared with the given names. */
  lemma RepeatsName(name: string, b: Build)
    ensures var m := Method("M", [Arg("x", "i"), Arg("x", "i")], [], false);
            StubCompiles(AdaptorStub(m), ["M"], b.asserts)
            && !Compiles(AdaptorClass(Interface(name, [m], [])), b)
  {
    var m := Method("M", [Arg("x", "i"), Arg("x", "i")], [], false);
    var iface := Interface(name, [m], []);
    AdaptorCompilesIff(iface, b);
    UnnamedCompiles(b.asserts);
    hide Compiles, AdaptorClass, StubCompiles, AdaptorStub;
    assert m in iface.methods;
    assert NamedOnly(m.ins[..1]) == ["x"] && NamedOnly(m.ins) == ["x", "x"];
    assert AdaptorBlock(m)[0] == AdaptorBlock(m)[1] == "x";
    assert !AdaptorMethodClear(m);
  }

  lemma {:induction false} NoneNamed(args: seq<Arg>)
    requires forall i :: 0 <= i < |args| ==> args[i].name == ""
    ensures NamedOnly(args) == []
    decreases |args|
  {
    if args != [] {
      NoneNamed(args[..|args| - 1]);
    }
  }

  /** The handler does not depend on the names given in the interface. */
  lemma UnnamedCompiles(asserts: bool)
    ensures StubCompiles(AdaptorStub(Method("M", [Arg("x", "i"), Arg("x", "i")], [], false)), ["M"], asserts)
  {
    var m := Method("M", [Arg("x", "i"), Arg("x", "i")], [], false);
    var u := Method("M", [Arg("", "i"), Arg("", "i")], [], false);
    assert Texts(m.ins) == Texts(u.ins) && Texts(m.outs) == Texts(u.outs);
    assert AdaptorStub(m) == AdaptorStub(u);
    NoneNamed(u.ins);
    AdaptorStubCompilesIff(u, ["M"], asserts);
    hide StubCompiles, AdaptorStub;
    assert AdaptorBlock(u) == NamedOnly(u.ins) + [];
    CountedPrefix(2, "argin");
    assert !("argin" < "M") && AdaptorOuts(u) == [];
    assert AdaptorMethodClear(u);
  }

  /**
   A method with the name of a signal that takes the signal's arguments as results: the proxy compiles, and
   the handler of the signal calls the method.
   */
  lemma TakesSignal(name: string, b: Build)
    ensures var m, s := Method("S", [], [Arg("", "i"), Arg("", "i")], false), Signal("S", [Arg("", "i"), Arg("", "i")]);
            var iface := Interface(name, [m], [s]);
            && Compiles(ProxyClass(iface), b) && !Heeded(iface, s, b.converts)
            && Called(ProxyFunctions(iface), "S", Texts(s.args), b.converts, MethodFunction(m))
  {
    var m, s := Method("S", [], [Arg("", "i"), Arg("", "i")], false), Signal("S", [Arg("", "i"), Arg("", "i")]);
    var iface := Interface(name, [m], [s]);
    ProxyCompilesIff(iface, b);
    hide Compiles, ProxyClass;
    TakesCalled(iface, m, s, b.converts);
    TakesNames(iface, m, s, b.asserts);
    hide Called, ProxyMethodClear, HandlerClear, ProxyFunctions, OwnFunctions;
    assert forall x | x in iface.methods :: x == m;
    assert forall x | x in iface.signals :: x == s;
    assert MethodFunction(m) in ProxyFunctions(iface);
    assert CallClear(iface, s, b.converts);
    assert MemberNames(iface) == ["S", "S"] && |name + "_proxy"| > 1;
  }

  lemma TakesCalled(iface: Interface, m: Method, s: Signal, converts: Conversions)
    requires iface.methods == [m] && iface.signals == [s] && m.name == s.name && m.ins == [] && m.outs == s.args
    requires |s.args| > 1
    ensures Called(ProxyFunctions(iface), s.name, Texts(s.args), converts, MethodFunction(m))
    ensures MethodFunction(m) in ProxyFunctions(iface) && !Heeded(iface, s, converts)
    ensures Distinct(OwnFunctions(iface)) && Distinct(NamesOfStubs(SignalNames(iface.signals)))
  {
    var f, g, args := MethodFunction(m), SignalFunction(s), Texts(s.args);
    SlotsExact(s.args, true);
    SlotsExact(s.args, false);
    hide Slots, Texts, StubName;
    assert f.slots == [] + Slots(s.args, false) == Slots(s.args, false) && g.slots == Slots(s.args, true);
    assert OwnFunctions(iface) == [f, g] && ProxyFunctions(iface)[0] == f;
    assert f.slots[0] == ByReference(args[0], false) && g.slots[0] == ByReference(args[0], true);
    assert Exact(f, args);
    ExactViable(f, args, converts);
  }

  /** Where it takes only some of them so, and the language converts the rest, the call is ambiguous. */
  lemma Ambiguous(name: string, b: Build, x: string, y: string)
    requires Compiled(x) != Compiled(y) && b.converts(Compiled(y), ByReference(Compiled(x), true))
    ensures var m := Method("S", [Arg("", x)], [Arg("", y), Arg("", y)], false);
            var s := Signal("S", [Arg("", y), Arg("", y), Arg("", y)]);
            !Compiles(ProxyClass(Interface(name, [m], [s])), b)
  {
    var m := Method("S", [Arg("", x)], [Arg("", y), Arg("", y)], false);
    var s := Signal("S", [Arg("", y), Arg("", y), Arg("", y)]);
    var iface := Interface(name, [m], [s]);
    ProxyCompilesIff(iface, b);
    hide Compiles, ProxyClass;
    var functions, args, t := ProxyFunctions(iface), Texts(s.args), Compiled(y);
    var f, g := MethodFunction(m), SignalFunction(s);
    assert functions == [f, g, Function(StubName("S"), false, [MessageOnly])];
    hide Compiled, ProxyFunctions, StubName;
    assert args == [t, t, t];
    assert f.slots == [ByReference(Compiled(x), true), ByReference(t, false), ByReference(t, false)];
    assert g.slots == [ByReference(t, true), ByReference(t, true), ByReference(t, true)];
    hide Called, MethodFunction, SignalFunction;
    NoneCalled(functions, f, g, Compiled(x), t, b.converts);
    assert s in iface.signals && !CallClear(iface, s, b.converts);
  }

  lemma NoneCalled(functions: seq<Function>, f: Function, g: Function, x: string, t: string, converts: Conversions)
    requires |functions| == 3 && functions[0] == f && functions[1] == g && functions[2].slots == [MessageOnly]
    requires f.slots == [ByReference(x, true), ByReference(t, false), ByReference(t, false)] && f.name == "S"
    requires g.slots == [ByReference(t, true), ByReference(t, true), ByReference(t, true)]
    requires x != t && converts(t, ByReference(x, true))
    ensures forall k :: k in functions ==> !Called(functions, "S", [t, t, t], converts, k)
  {
    var args := [t, t, t];
    assert Viable(f, args, converts) by {
      forall i | 0 <= i < 3 ensures Fit(f.slots[i], args[i], converts) < 3 {}
    }
    assert !Exact(f, args) by {
      assert f.slots[0].text != args[0];
    }
    assert !Called(functions, "S", args, converts, g) by {
      assert g.slots[1].isConst && f.slots[1] == ByReference(args[1], false);
    }
  }

  lemma TakesNames(iface: Interface, m: Method, s: Signal, asserts: bool)
    requires m == Method("S", [], [Arg("", "i"), Arg("", "i")], false) && s == Signal("S", [Arg("", "i"), Arg("", "i")])
    requires iface.methods == [m] && iface.signals == [s]
    ensures ProxyMethodClear(iface, m, asserts) && HandlerClear(s)
  {
    assert Decimal(0) == "0" && Decimal(1) == "1";
    assert Numbered("argout", 0) == "argout0" && Numbered("argout", 1) == "argout1";
    assert Numbered("arg", 0) == "arg0" && Numbered("arg", 1) == "arg1";
    assert Numbered("argin", 0) == "argin0" && Numbered("argin", 1) == "argin1";
    hide Numbered;
    assert OutNames(m) == ["argout0", "argout1"] && ProxyNames(m) == [] + ["argout0", "argout1"];
    assert HandlerNames(s) == ["arg0", "arg1"] && ProxyBlock(s) == ["argin0", "argin1"];
    assert MemberNames(iface) == ["S", "S"];
    assert ProxyNeeds(m, asserts) == ["call", "ret", "invoke_method", "ri"];
  }

  /** How arguments without names are numbered, side by side. */
  lemma UnnamedNumbers(m: Method, s: Signal)
    requires m.ins == [Arg("", "i"), Arg("", "i")] && m.outs == [Arg("", "i"), Arg("", "i")]
    requires s.args == [Arg("", "i"), Arg("", "i")]
    ensures InNames(m) == ["argin0", "argin1"] && OutNames(m) == ["argout0", "argout1"]
    ensures AdaptorIns(m) == ["argin1", "argin2"] && AdaptorOuts(m) == ["argout1", "argout2"]
    ensures EmitterNames(s) == ["arg1", "arg2"] && HandlerNames(s) == ["arg0", "arg1"]
    ensures ProxyBlock(s) == ["argin0", "argin1"] && AdaptorBlock(m) == []
  {
    TwoUnnamed("argin");
    TwoUnnamed("argout");
    TwoUnnamed("arg");
    assert m.ins == m.outs == s.args;
    assert NamedOnly(m.ins[..1]) == [] && NamedOnly(m.ins) == [];
    hide NamedOnly, GivenNames, CountedNames;
    assert "argin" + "0" == "argin0" && "argin" + "1" == "argin1" && "argin" + "2" == "argin2";
    assert "argout" + "0" == "argout0" && "argout" + "1" == "argout1" && "argout" + "2" == "argout2";
    assert "arg" + "0" == "arg0" && "arg" + "1" == "arg1" && "arg" + "2" == "arg2";
  }

  lemma TwoUnnamed(prefix: string)
    ensures GivenNames([Arg("", "i"), Arg("", "i")], prefix) == [prefix + "0", prefix + "1"]
    ensures CountedNames(2, prefix) == [prefix + "1", prefix + "2"]
  {
    assert Decimal(0) == "0" && Decimal(1) == "1" && Decimal(2) == "2";
    hide Decimal;
  }

  /** The names that the generators make up themselves. */
  lemma MadeNames(m: Method, s: Signal)
    requires m.name == "Get-It" && s.name == "Gone"
    ensures var iface := Interface("Box", [m], [s]);
            ProxyClass(iface).name == "Box_proxy" && AdaptorClass(iface).name == "Box_adaptor"
    ensures NamesOfStubs(MethodNames([m])) == ["_Get_It_stub"]
  {
    assert "Box" + "_adaptor" == "Box_adaptor" && "Box" + "_proxy" == "Box_proxy";
    assert StubName("Get-It") == "_Get_It_stub";
  }

  lemma TablesNamed(m: Method, s: Signal)
    requires m.name == "M" && s.name == "S"
    ensures IntrospectBlock(Interface("B", [m], [s]))
         == ["M_args", "S_args", "B_adaptor_methods", "B_adaptor_signals", "B_adaptor_properties",
             "B_adaptor_interface"]
  {
    assert MemberNames(Interface("B", [m], [s])) == ["M", "S"];
    assert "M" + "_args" == "M_args" && "S" + "_args" == "S_args";
    assert Suffixed(["M", "S"], "_args") == ["M_args", "S_args"];
    hide Suffixed, MemberNames;
    assert "B" + "_adaptor" == "B_adaptor";
    Suffixes("B_adaptor");
  }

  lemma Suffixes(c: string)
    requires c == "B_adaptor"
    ensures c + "_methods" == "B_adaptor_methods" && c + "_signals" == "B_adaptor_signals"
    ensures c + "_properties" == "B_adaptor_properties" && c + "_interface" == "B_adaptor_interface"
  {
  }

  /** Which names a method is declared with: those given, of the results only where they are several. */
  lemma DeclaredNames(m: Method)
    requires m.ins == [Arg("a", "i"), Arg("", "i")]
    ensures m.outs == [Arg("b", "i")] ==> AdaptorBlock(m) == ["a"]
    ensures m.outs == [Arg("b", "i"), Arg("c", "i")] ==> AdaptorBlock(m) == ["a", "b", "c"]
  {
    assert m.ins[..1] == [Arg("a", "i")] && NamedOnly(m.ins[..1]) == ["a"];
    if m.outs == [Arg("b", "i"), Arg("c", "i")] {
      assert m.outs[..1] == [Arg("b", "i")] && NamedOnly(m.outs[..1]) == ["b"];
    }
  }

  /** The member functions of the two classes for one method and one signal. */
  lemma MembersDeclared(m: Method, s: Signal)
    requires m == Method("M", [Arg("", "i")], [Arg("", "s"), Arg("", "d")], false)
    requires s == Signal("S", [Arg("", "s")])
    ensures var i, d, t := "int32_t", "double", "std::string";
            var own := [Function("M", false, [ByReference(i, true), ByReference(t, false), ByReference(d, false)]),
                        Function("S", false, [ByReference(t, true)])];
            && ProxyFunctions(Interface("B", [m], [s])) == own + [Function("_S_stub", false, [MessageOnly])]
            && AdaptorFunctions(Interface("B", [m], [s]))
               == [Function("introspect", true, [])] + own + [Function("_M_stub", false, [MessageOnly])]
  {
    var i, d, t := "int32_t", "double", "std::string";
    var iface := Interface("B", [m], [s]);
    assert Compiled("i") == i && Compiled("d") == d && Compiled("s") == t;
    assert StubName("M") == "_M_stub" && StubName("S") == "_S_stub";
    hide Compiled, StubName;
    assert Slots(m.ins, true) == [ByReference(i, true)] && Slots(s.args, true) == [ByReference(t, true)];
    assert Slots(m.outs, false) == [ByReference(t, false), ByReference(d, false)];
    assert MethodFunction(m).slots == [ByReference(i, true), ByReference(t, false), ByReference(d, false)];
    assert OwnFunctions(iface) == [MethodFunction(m), SignalFunction(s)];
    assert SignalNames(iface.signals) == ["S"] && MethodNames(iface.methods) == ["M"];
    assert StubFunctions(["S"]) == [Function("_S_stub", false, [MessageOnly])];
    assert StubFunctions(["M"]) == [Function("_M_stub", false, [MessageOnly])];
  }
}
