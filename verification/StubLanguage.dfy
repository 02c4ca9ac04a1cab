/**
 The C++ that the code generators write, as far as their stubs use it: a list of declarations, calls and
 stream operators, what compiling it takes, and what running it does.  A name that is already taken cannot
 be declared, a variable or parameter hides a member function of the same name, and a member function of
 the class hides the inherited one.
 */
module StubLanguage {
  import opened Types
  import opened Wire
  import opened Marshal
  import opened SignatureParser
  import opened Overloads
  import opened Wrappers

  datatype Stmt =
    | Message(name: string, member: string)                 // ::DBus::CallMessage call; and its like
    | OpenWriter(name: string, message: string)             // ::DBus::MessageIter wi = call.writer();
    | OpenReader(name: string, message: string)             // ::DBus::MessageIter ri = ret.reader();
    | Insert(iter: string, name: string)                    // wi << x;
    | Extract(iter: string, name: string)                   // ri >> x;
    | SetMember(message: string, member: string)            // call.member("...");
    | Invoke(name: string, fn: string, message: string)     // ::DBus::Message ret = invoke_method (call);
    | InvokeNoReply(fn: string, message: string)            // assert (invoke_method_noreply (call));
    | Declare(text: string, name: string)                   // T x;
    | Call(fn: string, args: seq<string>)                   // f(x, y);
    | DeclareCall(text: string, name: string, fn: string, args: seq<string>)  // T x = f(y);
    | Emit(fn: string, message: string)                     // emit_signal(sig);
    | Return(name: string)                                  // return x;

  datatype Param = Param(text: string, name: string)

  /** A member function; `messages` are the names of the parameters that are messages. */
  datatype Stub = Stub(result: string, messages: seq<string>, params: seq<Param>, body: seq<Stmt>)

  /**
   A generated class: its member functions, the lists of names that are declared together (the parameters
   of a pure virtual function, the variables of one block), and its stubs.
   */
  datatype Class = Class(name: string, functions: seq<Function>, blocks: seq<seq<string>>, stubs: seq<Stub>)

  /** How a class is compiled: whether assert() is compiled in, and which conversions there are. */
  datatype Build = Build(asserts: bool, converts: Conversions)

  /** What a name stands for while a stub runs. */
  datatype Entity =
    | Data(t: Type, v: Value)
    | Msg(member: string, body: seq<Tree>)
    | WriterOf(message: string)
    | ReaderAt(rest: seq<Tree>)

  type Vars = map<string, Entity>

  /** A message handed to the bus. */
  datatype Sent = Sent(member: string, body: seq<Tree>, wantsReply: bool)

  /** A call of a member function that the user writes. */
  datatype Heard = Heard(fn: string, values: seq<Value>)

  datatype State = State(vars: Vars, sent: seq<Sent>, heard: seq<Heard>, result: Option<Entity>)

  /**
   What a stub meets: whether assert() is compiled in, the remote side, which answers a call with the body
   of a reply or with an error, and the member functions written by the user, the one called here taking
   `ins` values and giving back the others.
   */
  datatype World = World(
    asserts: bool,
    ins: nat,
    remote: (string, seq<Tree>) -> Option<seq<Tree>>,
    serve: (string, seq<Value>) -> seq<Value>)

  /** The type that a type text names. */
  ghost function TypeNamed(text: string): Option<Type> {
    if exists t :: Valid(t) && Text(t) == text then
      var t :| Valid(t) && Text(t) == text;
      Some(t)
    else None
  }

  lemma CompiledNames(t: Type)
    requires Valid(t)
    ensures TypeNamed(Compiled(Sig(t))) == Some(t)
  {
    CompilesToText(t);
    var other :| Valid(other) && Text(other) == Text(t) && TypeNamed(Text(t)) == Some(other);
    GeneratedTypeHasSignature(t, other);
  }

  predicate Has(vars: Vars, name: string) {
    name in vars && vars[name].Data?
  }

  predicate HasMessage(vars: Vars, name: string) {
    name in vars && vars[name].Msg?
  }

  predicate HasAll(vars: Vars, names: seq<string>) {
    forall i | 0 <= i < |names| :: Has(vars, names[i])
  }

  function ValuesOf(vars: Vars, names: seq<string>): seq<Value>
    requires HasAll(vars, names)
  {
    seq(|names|, i requires 0 <= i < |names| => vars[names[i]].v)
  }

  /** The variables with new entities under some names. */
  function With(vars: Vars, names: seq<string>, es: seq<Entity>): Vars
    requires |names| == |es|
    decreases |names|
  {
    if names == [] then vars else With(vars[names[0] := es[0]], names[1..], es[1..])
  }

  function DataOf(ts: seq<Type>, vs: seq<Value>): seq<Entity>
    requires |ts| == |vs|
  {
    seq(|ts|, i requires 0 <= i < |ts| => Data(ts[i], vs[i]))
  }

  function TypesOf(vars: Vars, names: seq<string>): seq<Type>
    requires HasAll(vars, names)
  {
    seq(|names|, i requires 0 <= i < |names| => vars[names[i]].t)
  }

  // ---------- compiling ----------

  /** The name that a statement declares. */
  function Declares(st: Stmt): Option<string> {
    match st
    case Message(n, _) => Some(n)
    case OpenWriter(n, _) => Some(n)
    case OpenReader(n, _) => Some(n)
    case Invoke(n, _, _) => Some(n)
    case Declare(_, n) => Some(n)
    case DeclareCall(_, n, _, _) => Some(n)
    case _ => None
  }

  /** The member function that a statement calls; a call inside assert() may be compiled out. */
  function Calls(st: Stmt, asserts: bool): Option<string> {
    match st
    case Invoke(_, fn, _) => Some(fn)
    case InvokeNoReply(fn, _) => if asserts then Some(fn) else None
    case Call(fn, _) => Some(fn)
    case DeclareCall(_, _, fn, _) => Some(fn)
    case Emit(fn, _) => Some(fn)
    case _ => None
  }

  /** No name is declared twice or hidden; a variable is in scope in its own initializer. */
  predicate Fits(st: Stmt, taken: set<string>, asserts: bool) {
    && (Declares(st).Some? ==> Declares(st).value !in taken)
    && (Calls(st, asserts).Some? ==> Calls(st, asserts).value !in taken && Calls(st, asserts) != Declares(st))
  }

  /** The library's functions are inherited, the user's are members of the class itself. */
  predicate Resolves(st: Stmt, members: seq<string>, asserts: bool) {
    Calls(st, asserts).Some? ==>
      (if st.Call? || st.DeclareCall? then Calls(st, asserts).value in members
       else Calls(st, asserts).value !in members)
  }

  predicate Checks(stmts: seq<Stmt>, taken: set<string>, members: seq<string>, asserts: bool) {
    stmts == []
    || (Fits(stmts[0], taken, asserts) && Resolves(stmts[0], members, asserts)
        && Checks(stmts[1..], taken + NamesOf(Declares(stmts[0])), members, asserts))
  }

  function NamesOf(name: Option<string>): set<string> {
    if name.Some? then {name.value} else {}
  }

  predicate StubCompiles(stub: Stub, members: seq<string>, asserts: bool) {
    var names := stub.messages + Names(stub.params);
    Distinct(names) && Checks(stub.body, NameSet(names), members, asserts)
  }

  function NameSet(names: seq<string>): set<string> {
    set x | x in names
  }

  function FunctionNames(functions: seq<Function>): seq<string> {
    seq(|functions|, i requires 0 <= i < |functions| => functions[i].name)
  }

  /** The type text under which a variable is declared. */
  function TextOf(stmts: seq<Stmt>, name: string): string {
    if stmts == [] then ""
    else if stmts[0].Declare? && stmts[0].name == name then stmts[0].text
    else TextOf(stmts[1..], name)
  }

  function TextsOf(stmts: seq<Stmt>, names: seq<string>): (texts: seq<string>)
    ensures |texts| == |names|
  {
    seq(|names|, i requires 0 <= i < |names| => TextOf(stmts, names[i]))
  }

  predicate CallsUser(st: Stmt) {
    st.Call? || st.DeclareCall?
  }

  /** Every call of a member function of the class itself is of one of them, unambiguously. */
  predicate CallsSelect(body: seq<Stmt>, functions: seq<Function>, converts: Conversions) {
    forall i | 0 <= i < |body| && CallsUser(body[i]) ::
      SelectsSome(functions, body[i].fn, TextsOf(body[..i], body[i].args), converts)
  }

  /** A member function named like the class would be a constructor, and none may be declared twice. */
  predicate Compiles(c: Class, b: Build) {
    && c.name !in FunctionNames(c.functions) && Distinct(c.functions)
    && (forall block | block in c.blocks :: Distinct(block))
    && forall stub | stub in c.stubs :: StubWorks(stub, c.functions, b)
  }

  predicate StubWorks(stub: Stub, functions: seq<Function>, b: Build) {
    && StubCompiles(stub, FunctionNames(functions), b.asserts)
    && CallsSelect(stub.body, functions, b.converts)
  }

  function Names(params: seq<Param>): seq<string> {
    seq(|params|, i requires 0 <= i < |params| => params[i].name)
  }

  // ---------- running ----------

  /** One statement; None where it does not fit or the library throws. */
  ghost function Exec(st: Stmt, s: State, w: World): Option<State> {
    var vars := s.vars;
    if !Fits(st, vars.Keys, w.asserts) then None
    else
      match st
      case Message(n, member) => Some(s.(vars := vars[n := Msg(member, [])]))
      case OpenWriter(n, m) =>
        if !HasMessage(vars, m) then None else Some(s.(vars := vars[n := WriterOf(m)]))
      case OpenReader(n, m) =>
        if !HasMessage(vars, m) then None else Some(s.(vars := vars[n := ReaderAt(vars[m].body)]))
      case Insert(it, x) =>
        if !(it in vars && vars[it].WriterOf? && HasMessage(vars, vars[it].message)) || !Has(vars, x) then None
        else
          var m := vars[it].message;
          if !HasType(vars[x].v, vars[x].t) then None
          else Some(s.(vars := vars[m := vars[m].(body := vars[m].body + [ToTree(vars[x].t, vars[x].v)])]))
      case Extract(it, x) =>
        if !(it in vars && vars[it].ReaderAt?) || !Has(vars, x) || vars[it].rest == [] then None
        else (match ReadTree(vars[x].t, vars[x].v, vars[it].rest[0])
              case None => None
              case Some(v) => Some(s.(vars := vars[it := ReaderAt(vars[it].rest[1..])][x := Data(vars[x].t, v)])))
      case SetMember(m, member) =>
        if !HasMessage(vars, m) then None else Some(s.(vars := vars[m := vars[m].(member := member)]))
      case Invoke(n, fn, m) =>
        if !HasMessage(vars, m) then None
        else (match w.remote(vars[m].member, vars[m].body)
              case None => None
              case Some(reply) => Some(s.(vars := vars[n := Msg("", reply)],
                                          sent := s.sent + [Sent(vars[m].member, vars[m].body, true)])))
      case InvokeNoReply(fn, m) =>
        if !HasMessage(vars, m) then None
        else if !w.asserts then Some(s)
        else Some(s.(sent := s.sent + [Sent(vars[m].member, vars[m].body, false)]))
      case Declare(text, n) =>
        if TypeNamed(text).None? then None
        else Some(s.(vars := vars[n := Data(TypeNamed(text).value, FRESH)]))
      case Call(fn, args) =>
        if |args| < w.ins || !HasAll(vars, args) then None
        else
          var ins, outs := args[..w.ins], args[w.ins..];
          var vs := ValuesOf(vars, ins);
          if |w.serve(fn, vs)| != |outs| then None
          else Some(s.(vars := With(vars, outs, DataOf(TypesOf(vars, outs), w.serve(fn, vs))),
                       heard := s.heard + [Heard(fn, vs)]))
      case DeclareCall(text, n, fn, args) =>
        if TypeNamed(text).None? || |args| != w.ins || !HasAll(vars, args) then None
        else
          var vs := ValuesOf(vars, args);
          if |w.serve(fn, vs)| != 1 then None
          else Some(s.(vars := vars[n := Data(TypeNamed(text).value, w.serve(fn, vs)[0])],
                       heard := s.heard + [Heard(fn, vs)]))
      case Emit(fn, m) =>
        if !HasMessage(vars, m) then None
        else Some(s.(sent := s.sent + [Sent(vars[m].member, vars[m].body, false)]))
      case Return(n) =>
        if n !in vars then None else Some(s.(result := Some(vars[n])))
  }

  ghost function ExecAll(stmts: seq<Stmt>, s: State, w: World): Option<State> {
    if stmts == [] then Some(s)
    else
      match Exec(stmts[0], s, w)
      case None => None
      case Some(next) => ExecAll(stmts[1..], next, w)
  }

  /** The variables on entry; None if the values do not match the parameters. */
  ghost function Bind(params: seq<Param>, vs: seq<Value>): Option<Vars> {
    if |params| != |vs| || !(forall i | 0 <= i < |params| :: TypeNamed(params[i].text).Some?) then None
    else
      var es := seq(|params|, i requires 0 <= i < |params| => Data(TypeNamed(params[i].text).value, vs[i]));
      Some(With(map[], Names(params), es))
  }

  // ---------- sequences of statements ----------

  lemma {:induction false} ExecConcat(a: seq<Stmt>, b: seq<Stmt>, s: State, w: World)
    ensures ExecAll(a, s, w) == None ==> ExecAll(a + b, s, w) == None
    ensures ExecAll(a, s, w).Some? ==> ExecAll(a + b, s, w) == ExecAll(b, ExecAll(a, s, w).value, w)
    decreases |a|
  {
    hide Exec;
    if a == [] {
      assert a + b == b;
    } else {
      assert (a + b)[0] == a[0] && (a + b)[1..] == a[1..] + b;
      if Exec(a[0], s, w).Some? {
        ExecConcat(a[1..], b, Exec(a[0], s, w).value, w);
      }
    }
  }

  lemma ExecOne(st: Stmt, s: State, w: World)
    ensures ExecAll([st], s, w) == Exec(st, s, w)
  {
    assert [st][1..] == [];
  }

  lemma {:induction false} WithLooksUp(vars: Vars, names: seq<string>, es: seq<Entity>)
    requires |names| == |es| && Distinct(names)
    ensures forall i | 0 <= i < |names| :: names[i] in With(vars, names, es) && With(vars, names, es)[names[i]] == es[i]
    ensures forall x | x !in names :: (x in With(vars, names, es) <==> x in vars)
    ensures forall x | x !in names && x in vars :: With(vars, names, es)[x] == vars[x]
    decreases |names|
  {
    if names != [] {
      var first := vars[names[0] := es[0]];
      assert forall x | x in names[1..] :: x != names[0];
      WithLooksUp(first, names[1..], es[1..]);
      forall i | 0 <= i < |names|
        ensures names[i] in With(vars, names, es) && With(vars, names, es)[names[i]] == es[i]
      {
        if i > 0 {
          assert names[i] == names[1..][i - 1];
        }
      }
    }
  }

  // ---------- the loops of the stubs ----------

  function Inserts(it: string, names: seq<string>): seq<Stmt> {
    seq(|names|, i requires 0 <= i < |names| => Insert(it, names[i]))
  }

  function Extracts(it: string, names: seq<string>): seq<Stmt> {
    seq(|names|, i requires 0 <= i < |names| => Extract(it, names[i]))
  }

  function Declarations(texts: seq<string>, names: seq<string>): seq<Stmt>
    requires |texts| == |names|
  {
    seq(|names|, i requires 0 <= i < |names| => Declare(texts[i], names[i]))
  }

  /** T x; ri >> x; and so on for every variable. */
  function DeclareExtracts(it: string, texts: seq<string>, names: seq<string>): seq<Stmt>
    requires |texts| == |names|
  {
    if names == [] then []
    else [Declare(texts[0], names[0]), Extract(it, names[0])] + DeclareExtracts(it, texts[1..], names[1..])
  }

  ghost predicate AllTyped(ts: seq<Type>, vs: seq<Value>) {
    |ts| == |vs| && AllValid(ts) && forall i | 0 <= i < |ts| :: HasType(vs[i], ts[i])
  }

  /** Every variable in turn is appended to the message. */
  lemma {:induction false} InsertsRun(it: string, names: seq<string>, ts: seq<Type>, vs: seq<Value>,
                                      s: State, w: World, m: string)
    requires |names| == |ts| && AllTyped(ts, vs)
    requires it in s.vars && s.vars[it] == WriterOf(m) && HasMessage(s.vars, m)
    requires forall i | 0 <= i < |names| :: names[i] in s.vars && s.vars[names[i]] == Data(ts[i], vs[i])
    ensures ExecAll(Inserts(it, names), s, w)
         == Some(s.(vars := s.vars[m := s.vars[m].(body := s.vars[m].body + ToFields(ts, vs))]))
    decreases |names|
  {
    hide HasType, ToTree, ReadTree, TypeNamed, Valid;
    if names == [] {
      assert s.vars[m].body + ToFields(ts, vs) == s.vars[m].body;
      assert s.vars[m := s.vars[m]] == s.vars;
    } else {
      var stmts := Inserts(it, names);
      assert stmts[1..] == Inserts(it, names[1..]);
      var body := s.vars[m].body + [ToTree(ts[0], vs[0])];
      var next := s.(vars := s.vars[m := s.vars[m].(body := body)]);
      assert Exec(stmts[0], s, w) == Some(next);
      hide Exec;
      InsertsRun(it, names[1..], ts[1..], vs[1..], next, w, m);
      assert ToFields(ts, vs) == [ToTree(ts[0], vs[0])] + ToFields(ts[1..], vs[1..]);
      assert body + ToFields(ts[1..], vs[1..]) == s.vars[m].body + ToFields(ts, vs);
      var last := s.vars[m].(body := s.vars[m].body + ToFields(ts, vs));
      assert next.vars[m := last] == s.vars[m := last];
    }
  }

  /** What extraction leaves in the variables. */
  function ReadAll(ts: seq<Type>, ds: seq<Value>, ws: seq<Tree>): (r: Option<seq<Value>>)
    requires |ts| == |ds| == |ws|
    ensures r.Some? ==> |r.value| == |ts|
  {
    if ts == [] then Some([])
    else
      match (ReadTree(ts[0], ds[0], ws[0]), ReadAll(ts[1..], ds[1..], ws[1..]))
      case (Some(v), Some(vs)) => Some([v] + vs)
      case _ => None
  }

  lemma {:induction false} ExtractsRun(it: string, names: seq<string>, ts: seq<Type>, ds: seq<Value>, ws: seq<Tree>,
                                       s: State, w: World)
    requires |names| == |ts| == |ds| == |ws| && Distinct(names) && ReadAll(ts, ds, ws).Some?
    requires it in s.vars && s.vars[it] == ReaderAt(ws)
    requires forall i | 0 <= i < |names| :: names[i] in s.vars && s.vars[names[i]] == Data(ts[i], ds[i])
    ensures ExecAll(Extracts(it, names), s, w)
         == Some(s.(vars := With(s.vars[it := ReaderAt([])], names, DataOf(ts, ReadAll(ts, ds, ws).value))))
    decreases |names|
  {
    hide HasType, ToTree, ReadTree, TypeNamed;
    if names == [] {
      assert s.vars[it := ReaderAt([])] == s.vars;
    } else {
      var stmts, vs := Extracts(it, names), ReadAll(ts, ds, ws).value;
      assert stmts[1..] == Extracts(it, names[1..]);
      assert forall x | x in names[1..] :: x != names[0];
      ReadFirst(ts, ds, ws);
      var next := s.(vars := s.vars[it := ReaderAt(ws[1..])][names[0] := Data(ts[0], vs[0])]);
      assert Exec(stmts[0], s, w) == Some(next);
      hide Exec, ReadAll, With, DataOf, Extracts;
      ExtractsRun(it, names[1..], ts[1..], ds[1..], ws[1..], next, w);
      WithFirst(s.vars[it := ReaderAt([])], names, ts, vs);
      assert next.vars[it := ReaderAt([])] == s.vars[it := ReaderAt([])][names[0] := Data(ts[0], vs[0])];
    }
  }

  lemma ReadFirst(ts: seq<Type>, ds: seq<Value>, ws: seq<Tree>)
    requires |ts| == |ds| == |ws| && ts != [] && ReadAll(ts, ds, ws).Some?
    ensures var vs := ReadAll(ts, ds, ws).value;
            ReadTree(ts[0], ds[0], ws[0]) == Some(vs[0]) && ReadAll(ts[1..], ds[1..], ws[1..]) == Some(vs[1..])
  {
    hide ReadTree;
  }

  lemma WithFirst(vars: Vars, names: seq<string>, ts: seq<Type>, vs: seq<Value>)
    requires names != [] && |names| == |ts| == |vs|
    ensures With(vars, names, DataOf(ts, vs))
         == With(vars[names[0] := Data(ts[0], vs[0])], names[1..], DataOf(ts[1..], vs[1..]))
  {
    assert DataOf(ts, vs)[1..] == DataOf(ts[1..], vs[1..]);
  }

  function Freshes(n: nat): seq<Value> {
    seq(n, _ => FRESH)
  }

  ghost predicate Named(texts: seq<string>, ts: seq<Type>) {
    |texts| == |ts| && forall i | 0 <= i < |ts| :: TypeNamed(texts[i]) == Some(ts[i])
  }

  predicate Unused(vars: Vars, names: seq<string>) {
    Distinct(names) && forall x | x in names :: x !in vars
  }

  lemma {:induction false} DeclarationsRun(texts: seq<string>, names: seq<string>, ts: seq<Type>, s: State, w: World)
    requires |names| == |ts| && Named(texts, ts) && Unused(s.vars, names)
    ensures ExecAll(Declarations(texts, names), s, w)
         == Some(s.(vars := With(s.vars, names, DataOf(ts, Freshes(|ts|)))))
    decreases |names|
  {
    hide HasType, ToTree, ReadTree, TypeNamed;
    if names != [] {
      var stmts := Declarations(texts, names);
      assert stmts[1..] == Declarations(texts[1..], names[1..]);
      assert names[0] in names && forall x | x in names[1..] :: x != names[0] && x in names;
      var next := s.(vars := s.vars[names[0] := Data(ts[0], FRESH)]);
      assert Exec(stmts[0], s, w) == Some(next);
      hide Exec;
      DeclarationsRun(texts[1..], names[1..], ts[1..], next, w);
      assert DataOf(ts, Freshes(|ts|))[1..] == DataOf(ts[1..], Freshes(|ts| - 1));
    }
  }

  lemma {:induction false} DeclareExtractsRun(it: string, texts: seq<string>, names: seq<string>, ts: seq<Type>,
                                              ws: seq<Tree>, more: seq<Tree>, s: State, w: World)
    requires |names| == |ts| == |ws| && Named(texts, ts) && Unused(s.vars, names)
    requires it in s.vars && s.vars[it] == ReaderAt(ws + more) && ReadAll(ts, Freshes(|ts|), ws).Some?
    ensures ExecAll(DeclareExtracts(it, texts, names), s, w)
         == Some(s.(vars := With(s.vars[it := ReaderAt(more)], names,
                                 DataOf(ts, ReadAll(ts, Freshes(|ts|), ws).value))))
    decreases |names|
  {
    hide HasType, ToTree, ReadTree, TypeNamed;
    if names == [] {
      assert ws + more == more && s.vars[it := ReaderAt(more)] == s.vars;
    } else {
      var vs := ReadAll(ts, Freshes(|ts|), ws).value;
      assert names[0] in names && forall x | x in names[1..] :: x != names[0] && x in names;
      assert Freshes(|ts|)[1..] == Freshes(|ts| - 1) && Freshes(|ts|)[0] == FRESH;
      assert (ws + more)[0] == ws[0] && (ws + more)[1..] == ws[1..] + more;
      ReadFirst(ts, Freshes(|ts|), ws);
      DeclareExtractStep(it, texts[0], names[0], ts[0], ws + more, s, w);
      var next := s.(vars := s.vars[it := ReaderAt(ws[1..] + more)][names[0] := Data(ts[0], vs[0])]);
      hide Exec, ExecAll, ReadAll, With, DataOf, Freshes;
      ExecConcat([Declare(texts[0], names[0]), Extract(it, names[0])],
                 DeclareExtracts(it, texts[1..], names[1..]), s, w);
      DeclareExtractsRun(it, texts[1..], names[1..], ts[1..], ws[1..], more, next, w);
      WithFirst(s.vars[it := ReaderAt(more)], names, ts, vs);
      assert next.vars[it := ReaderAt(more)] == s.vars[it := ReaderAt(more)][names[0] := Data(ts[0], vs[0])];
    }
  }

  /** The values at the front of a message can be read as these types. */
  predicate Front(ts: seq<Type>, body: seq<Tree>) {
    |body| >= |ts| && ReadAll(ts, Freshes(|ts|), body[..|ts|]).Some?
  }

  lemma FrontFirst(ts: seq<Type>, body: seq<Tree>)
    requires ts != []
    ensures Front(ts, body)
       <==> body != [] && ReadTree(ts[0], FRESH, body[0]).Some? && Front(ts[1..], body[1..])
  {
    hide ReadTree;
    if |body| >= |ts| {
      assert Freshes(|ts|)[0] == FRESH && Freshes(|ts|)[1..] == Freshes(|ts| - 1);
      assert body[..|ts|][0] == body[0] && body[..|ts|][1..] == body[1..][..|ts| - 1];
    }
  }

  /** Otherwise the extraction that meets the first wrong value throws. */
  lemma {:induction false} DeclareExtractsThrow(it: string, texts: seq<string>, names: seq<string>, ts: seq<Type>,
                                                body: seq<Tree>, s: State, w: World)
    requires |names| == |ts| && Named(texts, ts) && Unused(s.vars, names)
    requires it in s.vars && s.vars[it] == ReaderAt(body) && !Front(ts, body)
    ensures ExecAll(DeclareExtracts(it, texts, names), s, w) == None
    decreases |names|
  {
    hide HasType, ToTree, ReadTree, TypeNamed;
    assert body[..0] == [];
    assert ts != [];
    FrontFirst(ts, body);
    assert names[0] in names && forall x | x in names[1..] :: x != names[0] && x in names;
    var first := [Declare(texts[0], names[0]), Extract(it, names[0])];
    var rest := DeclareExtracts(it, texts[1..], names[1..]);
    if body != [] && ReadTree(ts[0], FRESH, body[0]).Some? {
      DeclareExtractStep(it, texts[0], names[0], ts[0], body, s, w);
      var v := ReadTree(ts[0], FRESH, body[0]).value;
      var next := s.(vars := s.vars[it := ReaderAt(body[1..])][names[0] := Data(ts[0], v)]);
      hide Exec, ExecAll, Front;
      ExecConcat(first, rest, s, w);
      DeclareExtractsThrow(it, texts[1..], names[1..], ts[1..], body[1..], next, w);
    } else {
      ExtractThrows(it, texts[0], names[0], ts[0], body, s, w);
      hide Exec, ExecAll, Front;
      ExecConcat(first, rest, s, w);
    }
  }

  lemma ExtractThrows(it: string, text: string, name: string, t: Type, body: seq<Tree>, s: State, w: World)
    requires TypeNamed(text) == Some(t) && name !in s.vars && it in s.vars && s.vars[it] == ReaderAt(body)
    requires body == [] || ReadTree(t, FRESH, body[0]) == None
    ensures ExecAll([Declare(text, name), Extract(it, name)], s, w) == None
  {
    hide ReadTree, TypeNamed;
    var declared := s.(vars := s.vars[name := Data(t, FRESH)]);
    assert Exec(Declare(text, name), s, w) == Some(declared);
    assert Exec(Extract(it, name), declared, w) == None;
    hide Exec;
    assert [Declare(text, name)] + [Extract(it, name)] == [Declare(text, name), Extract(it, name)];
    ExecOne(Declare(text, name), s, w);
    ExecOne(Extract(it, name), declared, w);
    ExecConcat([Declare(text, name)], [Extract(it, name)], s, w);
  }

  lemma DeclareExtractStep(it: string, text: string, name: string, t: Type, ws: seq<Tree>, s: State, w: World)
    requires TypeNamed(text) == Some(t) && name !in s.vars && ws != [] && ReadTree(t, FRESH, ws[0]).Some?
    requires it in s.vars && s.vars[it] == ReaderAt(ws)
    ensures ExecAll([Declare(text, name), Extract(it, name)], s, w)
         == Some(s.(vars := s.vars[it := ReaderAt(ws[1..])][name := Data(t, ReadTree(t, FRESH, ws[0]).value)]))
  {
    hide HasType, ToTree, ReadTree, TypeNamed;
    var declared := s.(vars := s.vars[name := Data(t, FRESH)]);
    assert Exec(Declare(text, name), s, w) == Some(declared);
    var v := ReadTree(t, FRESH, ws[0]).value;
    assert declared.vars[it := ReaderAt(ws[1..])][name := Data(t, v)]
        == s.vars[it := ReaderAt(ws[1..])][name := Data(t, v)];
    ExecConcat([Declare(text, name)], [Extract(it, name)], s, w);
    assert [Declare(text, name)] + [Extract(it, name)] == [Declare(text, name), Extract(it, name)];
    ExecOne(Declare(text, name), s, w);
    ExecOne(Extract(it, name), declared, w);
  }

  // ---------- values on their way ----------

  /** What a value becomes in a destination on the other side. */
  ghost function Received(t: Type, dest: Value, v: Value): Value
    requires Valid(t) && HasType(v, t)
  {
    ToTreeTyped(t, v);
    ReadSucceeds(t, dest, ToTree(t, v));
    ReadTree(t, dest, ToTree(t, v)).value
  }

  ghost function ReceivedAll(ts: seq<Type>, ds: seq<Value>, vs: seq<Value>): (r: seq<Value>)
    requires |ds| == |ts| && AllTyped(ts, vs)
    ensures |r| == |ts|
  {
    seq(|ts|, i requires 0 <= i < |ts| => Received(ts[i], ds[i], vs[i]))
  }

  /** Values in new variables on the other side have their types there too. */
  lemma ReceivedTyped(ts: seq<Type>, vs: seq<Value>)
    requires AllTyped(ts, vs)
    ensures AllTyped(ts, ReceivedAll(ts, Freshes(|ts|), vs))
  {
    hide HasType, ToTree, ReadTree, Valid, Typed;
    forall i | 0 <= i < |ts|
      ensures HasType(Received(ts[i], FRESH, vs[i]), ts[i])
    {
      ToTreeTyped(ts[i], vs[i]);
      ReadTyped(ts[i], FRESH, ToTree(ts[i], vs[i]));
    }
  }

  lemma {:induction false} ReadAllReceives(ts: seq<Type>, ds: seq<Value>, vs: seq<Value>)
    requires |ds| == |ts| && AllTyped(ts, vs)
    ensures ReadAll(ts, ds, ToFields(ts, vs)) == Some(ReceivedAll(ts, ds, vs))
    decreases |ts|
  {
    hide HasType, ToTree, ReadTree, Valid;
    if ts != [] {
      var ws := ToFields(ts, vs);
      ToTreeTyped(ts[0], vs[0]);
      ReadSucceeds(ts[0], ds[0], ToTree(ts[0], vs[0]));
      assert ws[0] == ToTree(ts[0], vs[0]) && ws[1..] == ToFields(ts[1..], vs[1..]);
      assert ReceivedAll(ts, ds, vs) == [Received(ts[0], ds[0], vs[0])] + ReceivedAll(ts[1..], ds[1..], vs[1..]);
      assert ReadTree(ts[0], ds[0], ws[0]) == Some(Received(ts[0], ds[0], vs[0]));
      hide ToFields, Received, ReceivedAll;
      ReadAllReceives(ts[1..], ds[1..], vs[1..]);
    }
  }

  /** Values arrive unchanged exactly when each survives; `Marshal.SurvivesIff` says when that is. */
  lemma ReceivedUnchangedIff(ts: seq<Type>, ds: seq<Value>, vs: seq<Value>)
    requires |ds| == |ts| && AllTyped(ts, vs)
    ensures ReceivedAll(ts, ds, vs) == vs <==> forall i | 0 <= i < |ts| :: Survives(ts[i], ds[i], vs[i])
  {
    hide ToTree, ReadTree, HasType, Survives, Valid;
    forall i | 0 <= i < |ts|
      ensures Received(ts[i], ds[i], vs[i]) == vs[i] <==> Survives(ts[i], ds[i], vs[i])
    {
      ToTreeTyped(ts[i], vs[i]);
      ReadSucceeds(ts[i], ds[i], ToTree(ts[i], vs[i]));
      SurvivesIff(ts[i], ds[i], vs[i]);
    }
    if ReceivedAll(ts, ds, vs) == vs {
      forall i | 0 <= i < |ts| ensures Survives(ts[i], ds[i], vs[i]) {
        assert ReceivedAll(ts, ds, vs)[i] == Received(ts[i], ds[i], vs[i]);
      }
    }
  }

  /** Into new variables, only NUL is in the way. */
  lemma FreshUnchangedIff(ts: seq<Type>, vs: seq<Value>)
    requires AllTyped(ts, vs)
    ensures ReceivedAll(ts, Freshes(|ts|), vs) == vs <==> forall i | 0 <= i < |ts| :: Clean(vs[i])
  {
    hide ToTree, ReadTree, HasType, Receptive, Survives, Valid, Clean;
    forall i | 0 <= i < |ts| ensures Survives(ts[i], FRESH, vs[i]) <==> Clean(vs[i]) {
      SurvivesIff(ts[i], FRESH, vs[i]);
      FreshSurvivesIff(ts[i], vs[i]);
    }
    ReceivedUnchangedIff(ts, Freshes(|ts|), vs);
  }
}
