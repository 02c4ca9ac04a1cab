/**
 The stubs that the generators write for the methods and signals of an interface: on the proxy side a
 method that marshals its arguments, calls, and unmarshals the results; on the adaptor side a handler
 that unmarshals, calls the user's method, and marshals the results; and the two halves of a signal.
 */
module StubGenerators {
  import opened SignatureParser
  import opened Overloads
  import opened StubLanguage

  /** An <arg>: without a name the name is empty.  `sig` is its type attribute. */
  datatype Arg = Arg(name: string, sig: string)

  datatype Method = Method(name: string, ins: seq<Arg>, outs: seq<Arg>, noReply: bool)

  datatype Signal = Signal(name: string, args: seq<Arg>)

  /** `name` is the last component of the interface's name. */
  datatype Interface = Interface(name: string, methods: seq<Method>, signals: seq<Signal>)

  // ---------- names ----------

  function Digit(d: nat): char
    requires d < 10
  {
    ('0' as int + d) as char
  }

  function Decimal(n: nat): (s: string)
    ensures s != ""
  {
    if n < 10 then [Digit(n)] else Decimal(n / 10) + [Digit(n % 10)]
  }

  lemma {:induction false} DecimalInjective(m: nat, n: nat)
    requires Decimal(m) == Decimal(n)
    ensures m == n
    decreases m
  {
    var s, t := Decimal(m), Decimal(n);
    assert s[|s| - 1] == Digit(m % 10) && t[|t| - 1] == Digit(n % 10);
    if m >= 10 && n >= 10 {
      assert s[..|s| - 1] == Decimal(m / 10) && t[..|t| - 1] == Decimal(n / 10);
      DecimalInjective(m / 10, n / 10);
    }
  }

  function Numbered(prefix: string, i: nat): string {
    prefix + Decimal(i)
  }

  lemma NumberedInjective(prefix: string, i: nat, j: nat)
    requires Numbered(prefix, i) == Numbered(prefix, j)
    ensures i == j
  {
    assert Numbered(prefix, i)[|prefix|..] == Decimal(i);
    assert Numbered(prefix, j)[|prefix|..] == Decimal(j);
    DecimalInjective(i, j);
  }

  /** The names given in the interface, with numbers from 0 where there are none. */
  function GivenNames(args: seq<Arg>, prefix: string): (names: seq<string>)
    ensures |names| == |args|
  {
    seq(|args|, i requires 0 <= i < |args| => if args[i].name != "" then args[i].name else Numbered(prefix, i))
  }

  /** Numbers from 1, whatever the interface says. */
  function CountedNames(n: nat, prefix: string): (names: seq<string>)
    ensures |names| == n
  {
    seq(n, i requires 0 <= i < n => Numbered(prefix, i + 1))
  }

  function Texts(args: seq<Arg>): seq<string> {
    seq(|args|, i requires 0 <= i < |args| => Compiled(args[i].sig))
  }

  function Params(args: seq<Arg>, names: seq<string>): seq<Param>
    requires |args| == |names|
  {
    seq(|args|, i requires 0 <= i < |args| => Param(Compiled(args[i].sig), names[i]))
  }

  // ---------- the stubs ----------

  function InNames(m: Method): seq<string> {
    GivenNames(m.ins, "argin")
  }

  function OutNames(m: Method): seq<string> {
    GivenNames(m.outs, "argout")
  }

  /** With several results, they are parameters too. */
  function ProxyParams(m: Method): seq<Param> {
    Params(m.ins, InNames(m)) + (if |m.outs| > 1 then Params(m.outs, OutNames(m)) else [])
  }

  predicate Waits(m: Method) {
    !m.noReply || m.outs != []
  }

  /** A new message with the variables in it; without any, nothing is opened. */
  function Filling(message: string, member: string, names: seq<string>): seq<Stmt> {
    [Message(message, member)]
    + (if names != [] then [OpenWriter("wi", message)] else [])
    + Inserts("wi", names)
  }

  function ProxySends(m: Method): seq<Stmt> {
    Filling("call", "", InNames(m))
    + [SetMember("call", m.name)]
    + [ProxyCalls(m)]
  }

  function ProxyCalls(m: Method): Stmt {
    if Waits(m) then Invoke("ret", "invoke_method", "call") else InvokeNoReply("invoke_method_noreply", "call")
  }

  function ProxyReceives(m: Method): seq<Stmt> {
    (if m.outs != [] then [OpenReader("ri", "ret")] else [])
    + (if |m.outs| == 1
       then [Declare(Compiled(m.outs[0].sig), "argout"), Extract("ri", "argout"), Return("argout")]
       else Extracts("ri", OutNames(m)))
  }

  function ProxyStub(m: Method): Stub {
    var result := if |m.outs| == 1 then Compiled(m.outs[0].sig) else "void";
    Stub(result, [], ProxyParams(m), ProxySends(m) + ProxyReceives(m))
  }

  function AdaptorIns(m: Method): seq<string> {
    CountedNames(|m.ins|, "argin")
  }

  function AdaptorOuts(m: Method): seq<string> {
    CountedNames(|m.outs|, "argout")
  }

  /** The values of a message in new variables; without any, nothing is opened. */
  function Fetching(message: string, texts: seq<string>, names: seq<string>): seq<Stmt>
    requires |texts| == |names|
  {
    (if names != [] then [OpenReader("ri", message)] else []) + DeclareExtracts("ri", texts, names)
  }

  function AdaptorReceives(m: Method): seq<Stmt> {
    Fetching("call", Texts(m.ins), AdaptorIns(m))
  }

  function AdaptorServes(m: Method): seq<Stmt> {
    if |m.outs| == 1 then [DeclareCall(Compiled(m.outs[0].sig), "argout1", m.name, AdaptorIns(m))]
    else Declarations(Texts(m.outs), AdaptorOuts(m)) + [Call(m.name, AdaptorIns(m) + AdaptorOuts(m))]
  }

  function AdaptorSends(m: Method): seq<Stmt> {
    Filling("reply", "", AdaptorOuts(m)) + [Return("reply")]
  }

  function AdaptorStub(m: Method): Stub {
    Stub("::DBus::Message", ["call"], [], AdaptorReceives(m) + AdaptorServes(m) + AdaptorSends(m))
  }

  function EmitterNames(s: Signal): seq<string> {
    CountedNames(|s.args|, "arg")
  }

  function EmitterStub(s: Signal): Stub {
    Stub("void", [], Params(s.args, EmitterNames(s)),
         Filling("sig", s.name, EmitterNames(s))
         + [Emit("emit_signal", "sig")])
  }

  function HandlerNames(s: Signal): seq<string> {
    GivenNames(s.args, "arg")
  }

  function HandlerStub(s: Signal): Stub {
    Stub("void", ["sig"], [],
         Fetching("sig", Texts(s.args), HandlerNames(s))
         + [Call(s.name, HandlerNames(s))])
  }

  // ---------- the classes ----------

  predicate Alphanumeric(c: char) {
    'a' <= c <= 'z' || 'A' <= c <= 'Z' || '0' <= c <= '9'
  }

  function StubName(name: string): string {
    "_" + seq(|name|, i requires 0 <= i < |name| => if Alphanumeric(name[i]) then name[i] else '_') + "_stub"
  }

  function MethodNames(methods: seq<Method>): seq<string> {
    seq(|methods|, i requires 0 <= i < |methods| => methods[i].name)
  }

  function SignalNames(signals: seq<Signal>): seq<string> {
    seq(|signals|, i requires 0 <= i < |signals| => signals[i].name)
  }

  function MemberNames(iface: Interface): seq<string> {
    MethodNames(iface.methods) + SignalNames(iface.signals)
  }

  function NamesOfStubs(names: seq<string>): seq<string> {
    seq(|names|, i requires 0 <= i < |names| => StubName(names[i]))
  }

  function Suffixed(names: seq<string>, suffix: string): seq<string> {
    seq(|names|, i requires 0 <= i < |names| => names[i] + suffix)
  }

  /** Only the names that are given. */
  function NamedOnly(args: seq<Arg>): seq<string> {
    if args == [] then []
    else NamedOnly(args[..|args| - 1]) + (if args[|args| - 1].name != "" then [args[|args| - 1].name] else [])
  }

  /** The parameter names of the user's method, as the adaptor declares it. */
  function AdaptorBlock(m: Method): seq<string> {
    NamedOnly(m.ins) + (if |m.outs| > 1 then NamedOnly(m.outs) else [])
  }

  /** The parameter names of the user's signal handler, as the proxy declares it. */
  function ProxyBlock(s: Signal): seq<string> {
    GivenNames(s.args, "argin")
  }

  /** The static variables of the adaptor's introspect(). */
  function IntrospectBlock(iface: Interface): seq<string> {
    var c := iface.name + "_adaptor";
    Suffixed(MemberNames(iface), "_args") + [c + "_methods", c + "_signals", c + "_properties", c + "_interface"]
  }

  /** How parameters are declared: what goes in as const T&, what comes out as T&. */
  function Slots(args: seq<Arg>, isConst: bool): (slots: seq<Slot>)
    ensures |slots| == |args|
  {
    seq(|args|, i requires 0 <= i < |args| => ByReference(Compiled(args[i].sig), isConst))
  }

  /** A method as either class declares it. */
  function MethodFunction(m: Method): Function {
    Function(m.name, false, Slots(m.ins, true) + (if |m.outs| > 1 then Slots(m.outs, false) else []))
  }

  /** The emitter of a signal in the adaptor, and the user's handler in the proxy. */
  function SignalFunction(s: Signal): Function {
    Function(s.name, false, Slots(s.args, true))
  }

  function StubFunctions(names: seq<string>): seq<Function> {
    seq(|names|, i requires 0 <= i < |names| => Function(StubName(names[i]), false, [MessageOnly]))
  }

  function OwnFunctions(iface: Interface): seq<Function> {
    seq(|iface.methods|, i requires 0 <= i < |iface.methods| => MethodFunction(iface.methods[i]))
    + seq(|iface.signals|, i requires 0 <= i < |iface.signals| => SignalFunction(iface.signals[i]))
  }

  function ProxyFunctions(iface: Interface): seq<Function> {
    OwnFunctions(iface) + StubFunctions(SignalNames(iface.signals))
  }

  function AdaptorFunctions(iface: Interface): seq<Function> {
    [Function("introspect", true, [])] + OwnFunctions(iface) + StubFunctions(MethodNames(iface.methods))
  }

  function ProxyClass(iface: Interface): Class {
    Class(iface.name + "_proxy",
          ProxyFunctions(iface),
          seq(|iface.signals|, i requires 0 <= i < |iface.signals| => ProxyBlock(iface.signals[i])),
          seq(|iface.methods|, i requires 0 <= i < |iface.methods| => ProxyStub(iface.methods[i]))
          + seq(|iface.signals|, i requires 0 <= i < |iface.signals| => HandlerStub(iface.signals[i])))
  }

  function AdaptorClass(iface: Interface): Class {
    Class(iface.name + "_adaptor",
          AdaptorFunctions(iface),
          [IntrospectBlock(iface)]
          + seq(|iface.methods|, i requires 0 <= i < |iface.methods| => AdaptorBlock(iface.methods[i])),
          seq(|iface.signals|, i requires 0 <= i < |iface.signals| => EmitterStub(iface.signals[i]))
          + seq(|iface.methods|, i requires 0 <= i < |iface.methods| => AdaptorStub(iface.methods[i])))
  }

  // ---------- the generators' loops ----------

  method NameOr(name: string, prefix: string, i: nat) returns (r: string)
    ensures r == if name != "" then name else Numbered(prefix, i)
  {
    r := name;
    if |r| == 0 {
      r := prefix;
      r := r + Decimal(i);
    }
  }

  method WriteParams(params: seq<Param>, args: seq<Arg>, prefix: string) returns (r: seq<Param>)
    ensures r == params + Params(args, GivenNames(args, prefix))
  {
    hide Compiled, Numbered;
    r := params;
    for i := 0 to |args|
      invariant r == params + Params(args, GivenNames(args, prefix))[..i]
    {
      var text := SignatureToType(args[i].sig);
      var name := NameOr(args[i].name, prefix, i);
      r := r + [Param(text, name)];
    }
  }

  method GenerateProxy(m: Method) returns (stub: Stub)
    ensures stub == ProxyStub(m)
  {
    hide Compiled, Numbered, Inserts, Extracts, GivenNames, Params;
    var result := "void";
    if |m.outs| == 1 {
      result := SignatureToType(m.outs[0].sig);
    }
    var params := WriteParams([], m.ins, "argin");
    assert params == [] + Params(m.ins, InNames(m)) == Params(m.ins, InNames(m));
    if |m.outs| > 1 {
      params := WriteParams(params, m.outs, "argout");
    }
    assert params == ProxyParams(m);
    var body := [Message("call", "")];
    if m.ins != [] {
      body := body + [OpenWriter("wi", "call")];
    }
    body := WriteInserts(body, m.ins);
    body := body + [SetMember("call", m.name)];
    if m.noReply {
      if |m.outs| != 0 {
        body := body + [Invoke("ret", "invoke_method", "call")];
      } else {
        body := body + [InvokeNoReply("invoke_method_noreply", "call")];
      }
    } else {
      body := body + [Invoke("ret", "invoke_method", "call")];
    }
    assert body == ProxySends(m);
    body := WriteResults(body, m);
    stub := Stub(result, [], params, body);
  }

  method WriteInserts(body: seq<Stmt>, ins: seq<Arg>) returns (r: seq<Stmt>)
    ensures r == body + Inserts("wi", GivenNames(ins, "argin"))
  {
    hide Numbered;
    r := body;
    for i := 0 to |ins|
      invariant r == body + Inserts("wi", GivenNames(ins, "argin"))[..i]
    {
      var name := NameOr(ins[i].name, "argin", i);
      r := r + [Insert("wi", name)];
    }
  }

  method WriteResults(body: seq<Stmt>, m: Method) returns (r: seq<Stmt>)
    ensures r == body + ProxyReceives(m)
  {
    hide Numbered, Compiled;
    r := body;
    ghost var open := if m.outs != [] then [OpenReader("ri", "ret")] else [];
    if m.outs != [] {
      r := r + [OpenReader("ri", "ret")];
    }
    if |m.outs| == 1 {
      var text := SignatureToType(m.outs[0].sig);
      r := r + [Declare(text, "argout")];
      r := r + [Extract("ri", "argout")];
      r := r + [Return("argout")];
      assert r == body + (open + [Declare(text, "argout"), Extract("ri", "argout"), Return("argout")]);
    } else {
      for i := 0 to |m.outs|
        invariant r == body + (open + Extracts("ri", OutNames(m))[..i])
      {
        var name := NameOr(m.outs[i].name, "argout", i);
        r := r + [Extract("ri", name)];
        assert Extracts("ri", OutNames(m))[..i + 1] == Extracts("ri", OutNames(m))[..i] + [Extract("ri", name)];
      }
      assert Extracts("ri", OutNames(m))[..|m.outs|] == Extracts("ri", OutNames(m));
    }
  }

  lemma {:induction false} DeclareExtractsGrow(it: string, texts: seq<string>, names: seq<string>,
                                               text: string, name: string)
    requires |texts| == |names|
    ensures DeclareExtracts(it, texts + [text], names + [name])
         == DeclareExtracts(it, texts, names) + [Declare(text, name), Extract(it, name)]
    decreases |names|
  {
    if names == [] {
      assert (texts + [text])[1..] == [] && (names + [name])[1..] == [];
    } else {
      assert (texts + [text])[1..] == texts[1..] + [text] && (names + [name])[1..] == names[1..] + [name];
      DeclareExtractsGrow(it, texts[1..], names[1..], text, name);
    }
  }

  /** The loop that declares and extracts one variable after the other. */
  method WriteUnmarshalling(body: seq<Stmt>, args: seq<Arg>, prefix: string, counted: bool) returns (r: seq<Stmt>)
    ensures r == body + DeclareExtracts("ri", Texts(args),
                          if counted then CountedNames(|args|, prefix) else GivenNames(args, prefix))
  {
    hide Compiled, Numbered, DeclareExtracts, Texts, CountedNames, GivenNames;
    ghost var texts := Texts(args);
    ghost var names := if counted then CountedNames(|args|, prefix) else GivenNames(args, prefix);
    NamesAt(args, prefix);
    r := body;
    assert texts[..0] == [] && names[..0] == [] && DeclareExtracts("ri", [], []) == [] by { NoDeclareExtracts("ri"); }
    for i := 0 to |args|
      invariant |texts| == |names| == |args|
      invariant r == body + DeclareExtracts("ri", texts[..i], names[..i])
    {
      var text := SignatureToType(args[i].sig);
      var name;
      if counted {
        name := Numbered(prefix, i + 1);
      } else {
        name := NameOr(args[i].name, prefix, i);
      }
      r := r + [Declare(text, name)];
      r := r + [Extract("ri", name)];
      assert texts[i] == text && names[i] == name;
      DeclareExtractsGrow("ri", texts[..i], names[..i], text, name);
      assert texts[..i + 1] == texts[..i] + [text] && names[..i + 1] == names[..i] + [name];
    }
    assert texts[..|args|] == texts && names[..|args|] == names;
  }

  lemma NoDeclareExtracts(it: string)
    ensures DeclareExtracts(it, [], []) == []
  {
  }

  lemma NamesAt(args: seq<Arg>, prefix: string)
    ensures |Texts(args)| == |CountedNames(|args|, prefix)| == |GivenNames(args, prefix)| == |args|
    ensures forall i | 0 <= i < |args| ::
              && Texts(args)[i] == Compiled(args[i].sig)
              && CountedNames(|args|, prefix)[i] == Numbered(prefix, i + 1)
              && GivenNames(args, prefix)[i] == if args[i].name != "" then args[i].name else Numbered(prefix, i)
  {
    hide Numbered, Compiled;
  }

  /** The loop that inserts numbered variables, from 1 on. */
  method WriteCountedInserts(body: seq<Stmt>, n: nat, prefix: string) returns (r: seq<Stmt>)
    ensures r == body + Inserts("wi", CountedNames(n, prefix))
  {
    hide Numbered;
    r := body;
    ghost var stmts := Inserts("wi", CountedNames(n, prefix));
    for i := 0 to n
      invariant r == body + stmts[..i]
    {
      r := r + [Insert("wi", Numbered(prefix, i + 1))];
    }
  }

  /**
   The result variables and the call.  A single result's declaration is left open and the call becomes
   its initializer; several are declared first and passed to the call.
   */
  method WriteServing(body: seq<Stmt>, m: Method) returns (r: seq<Stmt>)
    ensures r == body + AdaptorServes(m)
  {
    hide Compiled, Numbered;
    r := body;
    var unfinished: seq<(string, string)> := [];
    ghost var declared := Declarations(Texts(m.outs), AdaptorOuts(m));
    for i := 0 to |m.outs|
      invariant |m.outs| == 1 ==> r == body
      invariant |m.outs| == 1 && i == 1 ==> unfinished == [(Compiled(m.outs[0].sig), Numbered("argout", 1))]
      invariant |m.outs| != 1 ==> r == body + declared[..i] && unfinished == []
    {
      var text := SignatureToType(m.outs[i].sig);
      if |m.outs| == 1 {
        unfinished := [(text, Numbered("argout", i + 1))];
      } else {
        r := r + [Declare(text, Numbered("argout", i + 1))];
      }
    }
    var args := [];
    for i := 0 to |m.ins|
      invariant args == AdaptorIns(m)[..i]
    {
      args := args + [Numbered("argin", i + 1)];
    }
    if |m.outs| > 1 {
      ghost var ins := args;
      for i := 0 to |m.outs|
        invariant args == ins + AdaptorOuts(m)[..i]
      {
        args := args + [Numbered("argout", i + 1)];
      }
    }
    ArgsComplete(m);
    if unfinished != [] {
      r := r + [DeclareCall(unfinished[0].0, unfinished[0].1, m.name, args)];
    } else {
      r := r + [Call(m.name, args)];
    }
  }

  lemma ArgsComplete(m: Method)
    ensures Numbered("argout", 1) == "argout1"
    ensures AdaptorIns(m)[..|m.ins|] == AdaptorIns(m) && AdaptorOuts(m)[..|m.outs|] == AdaptorOuts(m)
    ensures |m.outs| == 0 ==> AdaptorIns(m) + AdaptorOuts(m) == AdaptorIns(m)
    ensures Declarations(Texts(m.outs), AdaptorOuts(m))[..|m.outs|] == Declarations(Texts(m.outs), AdaptorOuts(m))
  {
    assert Decimal(1) == "1";
    hide Numbered, Compiled;
  }

  method GenerateAdaptor(m: Method) returns (stub: Stub)
    ensures stub == AdaptorStub(m)
  {
    hide Compiled, Numbered, DeclareExtracts, Declarations, Inserts, AdaptorServes, CountedNames;
    var body := [];
    if m.ins != [] {
      body := body + [OpenReader("ri", "call")];
    }
    body := WriteUnmarshalling(body, m.ins, "argin", true);
    assert body == AdaptorReceives(m);
    body := WriteServing(body, m);
    ghost var before := body;
    body := body + [Message("reply", "")];
    if m.outs != [] {
      body := body + [OpenWriter("wi", "reply")];
    }
    body := WriteCountedInserts(body, |m.outs|, "argout");
    body := body + [Return("reply")];
    assert body == before + AdaptorSends(m);
    stub := Stub("::DBus::Message", ["call"], [], body);
  }

  method GenerateEmitter(s: Signal) returns (stub: Stub)
    ensures stub == EmitterStub(s)
  {
    hide Compiled, Numbered;
    var params := [];
    for i := 0 to |s.args|
      invariant params == Params(s.args, EmitterNames(s))[..i]
    {
      var text := SignatureToType(s.args[i].sig);
      params := params + [Param(text, Numbered("arg", i + 1))];
    }
    assert params == Params(s.args, EmitterNames(s));
    hide Inserts, CountedNames;
    var body := [Message("sig", s.name)];
    if s.args != [] {
      body := body + [OpenWriter("wi", "sig")];
      body := WriteCountedInserts(body, |s.args|, "arg");
    } else {
      NoInserts("wi", "arg");
    }
    body := body + [Emit("emit_signal", "sig")];
    stub := Stub("void", [], params, body);
  }

  lemma NoInserts(it: string, prefix: string)
    ensures Inserts(it, CountedNames(0, prefix)) == []
  {
  }

  method GenerateHandler(s: Signal) returns (stub: Stub)
    ensures stub == HandlerStub(s)
  {
    hide Compiled, Numbered, DeclareExtracts;
    var body := [];
    if s.args != [] {
      body := body + [OpenReader("ri", "sig")];
    }
    ghost var open := body;
    body := WriteUnmarshalling(body, s.args, "arg", false);
    var args := [];
    for j := 0 to |s.args|
      invariant args == HandlerNames(s)[..j]
    {
      var name := NameOr(s.args[j].name, "arg", j);
      args := args + [name];
    }
    assert args == HandlerNames(s);
    body := body + [Call(s.name, args)];
    stub := Stub("void", ["sig"], [], body);
  }

  /** The parameter names of a signal handler's declaration. */
  method WriteProxyBlock(s: Signal) returns (block: seq<string>)
    ensures block == ProxyBlock(s)
  {
    hide Numbered;
    block := [];
    for i := 0 to |s.args|
      invariant block == ProxyBlock(s)[..i]
    {
      var name := NameOr(s.args[i].name, "argin", i);
      block := block + [name];
    }
  }

  /** Parameters without a name are declared without one. */
  method WriteNamed(block: seq<string>, args: seq<Arg>) returns (r: seq<string>)
    ensures r == block + NamedOnly(args)
  {
    r := block;
    for i := 0 to |args|
      invariant r == block + NamedOnly(args[..i])
    {
      assert args[..i + 1][..i] == args[..i];
      if |args[i].name| != 0 {
        r := r + [args[i].name];
      }
    }
    assert args[..|args|] == args;
  }

  method WriteAdaptorBlock(m: Method) returns (block: seq<string>)
    ensures block == AdaptorBlock(m)
  {
    block := WriteNamed([], m.ins);
    if |m.outs| > 1 {
      block := WriteNamed(block, m.outs);
    }
  }

  method WriteIntrospectBlock(iface: Interface) returns (block: seq<string>)
    ensures block == IntrospectBlock(iface)
  {
    var ms := MemberNames(iface);
    block := [];
    for i := 0 to |ms|
      invariant block == Suffixed(ms, "_args")[..i]
    {
      block := block + [ms[i] + "_args"];
    }
    assert Suffixed(ms, "_args")[..|ms|] == Suffixed(ms, "_args");
    var c := iface.name + "_adaptor";
    block := block + [c + "_methods", c + "_signals", c + "_properties", c + "_interface"];
  }

  method GenerateProxyClass(iface: Interface) returns (c: Class)
    ensures c == ProxyClass(iface)
  {
    hide ProxyStub, HandlerStub, ProxyBlock, ProxyFunctions;
    var stubs := [];
    for i := 0 to |iface.methods|
      invariant |stubs| == i && forall k | 0 <= k < i :: stubs[k] == ProxyStub(iface.methods[k])
    {
      var stub := GenerateProxy(iface.methods[i]);
      stubs := stubs + [stub];
    }
    var blocks := [];
    for i := 0 to |iface.signals|
      invariant |blocks| == i && forall k | 0 <= k < i :: blocks[k] == ProxyBlock(iface.signals[k])
    {
      var block := WriteProxyBlock(iface.signals[i]);
      blocks := blocks + [block];
    }
    var handlers := [];
    for i := 0 to |iface.signals|
      invariant |handlers| == i && forall k | 0 <= k < i :: handlers[k] == HandlerStub(iface.signals[k])
    {
      var stub := GenerateHandler(iface.signals[i]);
      handlers := handlers + [stub];
    }
    c := Class(iface.name + "_proxy", ProxyFunctions(iface), blocks, stubs + handlers);
  }

  method GenerateAdaptorClass(iface: Interface) returns (c: Class)
    ensures c == AdaptorClass(iface)
  {
    hide AdaptorStub, EmitterStub, AdaptorBlock, IntrospectBlock, AdaptorFunctions;
    var introspect := WriteIntrospectBlock(iface);
    var blocks := [];
    for i := 0 to |iface.methods|
      invariant |blocks| == i && forall k | 0 <= k < i :: blocks[k] == AdaptorBlock(iface.methods[k])
    {
      var block := WriteAdaptorBlock(iface.methods[i]);
      blocks := blocks + [block];
    }
    var emitters := [];
    for i := 0 to |iface.signals|
      invariant |emitters| == i && forall k | 0 <= k < i :: emitters[k] == EmitterStub(iface.signals[k])
    {
      var stub := GenerateEmitter(iface.signals[i]);
      emitters := emitters + [stub];
    }
    var stubs := [];
    for i := 0 to |iface.methods|
      invariant |stubs| == i && forall k | 0 <= k < i :: stubs[k] == AdaptorStub(iface.methods[k])
    {
      var stub := GenerateAdaptor(iface.methods[i]);
      stubs := stubs + [stub];
    }
    c := Class(iface.name + "_adaptor", AdaptorFunctions(iface), [introspect] + blocks, emitters + stubs);
  }
}
