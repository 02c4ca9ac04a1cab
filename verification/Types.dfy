/**
 The C++ types that the library marshals, the D-Bus signature that type<T>::sig() gives each of
 them, and the text with which the code generators name them.  Both notations are prefix codes,
 so a signature, or a type text, determines the type it stands for.
 */
module Types {

  /** A marshallable C++ type; `Basic` carries the D-Bus type code. */
  datatype Type =
    | Basic(code: char)
    | Variant
    | Vector(elem: Type)
    | Map(key: Type, val: Type)
    | Struct(fields: seq<Type>)

  predicate BasicCode(c: char) {
    c in "ybnqiuxtdsog"
  }

  /** A type for which the library has a type<T> specialization and D-Bus a signature. */
  predicate Valid(t: Type) {
    match t
    case Basic(c) => BasicCode(c)
    case Variant => true
    case Vector(e) => Valid(e)
    case Map(k, v) => k.Basic? && Valid(k) && Valid(v)
    case Struct(fs) => fs != [] && forall f | f in fs :: Valid(f)
  }

  ghost predicate AllValid(ts: seq<Type>) {
    forall t | t in ts :: Valid(t)
  }

  // ---------- type<T>::sig() ----------

  function Sig(t: Type): string {
    match t
    case Basic(c) => [c]
    case Variant => "v"
    case Vector(e) => "a" + Sig(e)
    case Map(k, v) => "a{" + Sig(k) + Sig(v) + "}"
    case Struct(fs) => "(" + SigAll(fs) + ")"
  }

  function SigAll(ts: seq<Type>): string {
    if ts == [] then "" else Sig(ts[0]) + SigAll(ts[1..])
  }

  // ---------- the generators' type text ----------

  /** The table of atomic type names; a code that is not in it has the empty name. */
  function AtomName(c: char): string {
    match c
    case 'y' => "uint8_t"
    case 'b' => "bool"
    case 'n' => "int16_t"
    case 'q' => "uint16_t"
    case 'i' => "int32_t"
    case 'u' => "uint32_t"
    case 'x' => "int64_t"
    case 't' => "uint64_t"
    case 'd' => "double"
    case 's' => "std::string"
    case 'o' => "::DBus::Path"
    case 'g' => "::DBus::Signature"
    case 'v' => "::DBus::Variant"
    case _ => ""
  }

  /** The specializations of type<T> for the types without parts, by the name of T. */
  function SigNamed(name: string): string {
    match name
    case "uint8_t" => "y"
    case "bool" => "b"
    case "int16_t" => "n"
    case "uint16_t" => "q"
    case "int32_t" => "i"
    case "uint32_t" => "u"
    case "int64_t" => "x"
    case "uint64_t" => "t"
    case "double" => "d"
    case "std::string" => "s"
    case "::DBus::Path" => "o"
    case "::DBus::Signature" => "g"
    case "::DBus::Variant" => "v"
    case _ => ""
  }

  /** The generators' table and the library's specializations are each other's inverse. */
  lemma AtomsAgree(c: char)
    ensures BasicCode(c) || c == 'v' <==> SigNamed(AtomName(c)) == [c]
    ensures BasicCode(c) || c == 'v' <==> AtomName(c) != ""
  {}

  const VECTOR := "std::vector< "
  const MAP := "std::map< "
  const STRUCT := "::DBus::Struct< "
  const CLOSE := " >"
  const COMMA := ", "

  function Text(t: Type): string {
    match t
    case Basic(c) => AtomName(c)
    case Variant => AtomName('v')
    case Vector(e) => VECTOR + Text(e) + CLOSE
    case Map(k, v) => MAP + (Text(k) + COMMA + Text(v)) + CLOSE
    case Struct(fs) => STRUCT + TextAll(fs) + CLOSE
  }

  /** The comma-separated list of type texts. */
  function TextAll(ts: seq<Type>): string {
    if ts == [] then ""
    else if |ts| == 1 then Text(ts[0])
    else Text(ts[0]) + COMMA + TextAll(ts[1..])
  }

  // ---------- both notations are prefix codes ----------

  lemma Regroup(a: string, b: string, c: string)
    ensures (a + b) + c == a + (b + c)
  {}

  /** No valid signature is a proper prefix of another, and equal signatures have equal types. */
  lemma {:induction false} SigPrefixCode(t1: Type, t2: Type, r1: string, r2: string)
    requires Valid(t1) && Valid(t2)
    requires Sig(t1) + r1 == Sig(t2) + r2
    ensures t1 == t2 && r1 == r2
    decreases t1
  {
    SigHead(t1, r1);
    SigHead(t2, r2);
    SigOpens(t1, r1);
    SigOpens(t2, r2);
    DropPrefix(SigOpening(t1), SigInner(t1) + r1, SigInner(t2) + r2);
    assert "" + r1 == r1 && "" + r2 == r2;
    match t1
    case Basic(c) =>
    case Variant =>
    case Vector(e) =>
      SigPrefixCode(e, t2.elem, r1, r2);
    case Map(k, v) =>
      Regroup(Sig(k), Sig(v) + "}", r1);
      Regroup(Sig(t2.key), Sig(t2.val) + "}", r2);
      SigPrefixCode(k, t2.key, (Sig(v) + "}") + r1, (Sig(t2.val) + "}") + r2);
      Regroup(Sig(v), "}", r1);
      Regroup(Sig(t2.val), "}", r2);
      SigPrefixCode(v, t2.val, "}" + r1, "}" + r2);
      DropPrefix("}", r1, r2);
    case Struct(fs) =>
      Regroup(SigAll(fs), ")", r1);
      Regroup(SigAll(t2.fields), ")", r2);
      SigAllPrefixCode(fs, t2.fields, ")" + r1, ")" + r2);
      DropPrefix(")", r1, r2);
  }

  function SigOpening(t: Type): string {
    match t
    case Basic(c) => [c]
    case Variant => "v"
    case Vector(_) => "a"
    case Map(_, _) => "a{"
    case Struct(_) => "("
  }

  function SigInner(t: Type): string {
    match t
    case Basic(_) => ""
    case Variant => ""
    case Vector(e) => Sig(e)
    case Map(k, v) => Sig(k) + (Sig(v) + "}")
    case Struct(fs) => SigAll(fs) + ")"
  }

  lemma SigOpens(t: Type, r: string)
    ensures Sig(t) == SigOpening(t) + SigInner(t)
    ensures Sig(t) + r == SigOpening(t) + (SigInner(t) + r)
  {
    match t {
      case Basic(_) =>
      case Variant =>
      case Vector(_) =>
      case Map(k, v) =>
        Regroup("a{" + Sig(k), Sig(v), "}");
        Regroup("a{", Sig(k), Sig(v) + "}");
      case Struct(fs) =>
        Regroup("(", SigAll(fs), ")");
    }
    Regroup(SigOpening(t), SigInner(t), r);
  }

  /** What the first two characters of a signature say about the type. */
  lemma {:induction false} SigHead(t: Type, r: string)
    requires Valid(t)
    ensures var s := Sig(t) + r;
            && |s| > 0
            && s[0] != ')' && s[0] != '}' && s[0] != '{'
            && (t.Basic? ==> s[0] == t.code && s[0] != 'a' && s[0] != 'v' && s[0] != '(')
            && (t.Variant? ==> s[0] == 'v')
            && (t.Struct? ==> s[0] == '(')
            && (t.Vector? ==> s[0] == 'a' && |s| > 1 && s[1] != '{')
            && (t.Map? ==> s[0] == 'a' && |s| > 1 && s[1] == '{')
  {
    SigOpens(t, r);
    match t {
      case Basic(c) =>
      case Variant =>
      case Vector(e) => SigHead(e, r);
      case Map(k, v) =>
      case Struct(fs) =>
    }
  }

  lemma {:induction false} SigAllHead(ts: seq<Type>, r: string)
    requires AllValid(ts)
    ensures ts == [] ==> SigAll(ts) + r == r
    ensures ts != [] ==> SigAll(ts) + r == Sig(ts[0]) + (SigAll(ts[1..]) + r)
    ensures ts != [] ==> SigAll(ts) + r != "" && (SigAll(ts) + r)[0] != ')'
  {
    hide Sig;
    if ts == [] {
      assert "" + r == r;
    } else {
      SigHead(ts[0], SigAll(ts[1..]) + r);
      Regroup(Sig(ts[0]), SigAll(ts[1..]), r);
    }
  }

  lemma {:induction false} SigAllPrefixCode(ts1: seq<Type>, ts2: seq<Type>, r1: string, r2: string)
    requires AllValid(ts1) && AllValid(ts2)
    requires r1 != "" && r1[0] == ')' && r2 != "" && r2[0] == ')'
    requires SigAll(ts1) + r1 == SigAll(ts2) + r2
    ensures ts1 == ts2 && r1 == r2
    decreases ts1
  {
    SigAllHead(ts1, r1);
    SigAllHead(ts2, r2);
    if ts1 != [] {
      SigPrefixCode(ts1[0], ts2[0], SigAll(ts1[1..]) + r1, SigAll(ts2[1..]) + r2);
      SigAllPrefixCode(ts1[1..], ts2[1..], r1, r2);
      assert ts1 == [ts1[0]] + ts1[1..] && ts2 == [ts2[0]] + ts2[1..];
    }
  }

  /** Reads the outermost constructor off the front of a type text. */
  function HeadOf(s: string): char {
    if |s| < 4 then ' '
    else match s[0]
      case 'b' => 'b'
      case 'd' => 'd'
      case 'i' => if s[3] == '1' then 'n' else if s[3] == '3' then 'i' else 'x'
      case 'u' =>
        if |s| < 5 then ' '
        else if s[4] == '8' then 'y' else if s[4] == '1' then 'q' else if s[4] == '3' then 'u' else 't'
      case 's' => if |s| < 6 then ' ' else if s[5] == 's' then 's' else if s[5] == 'v' then 'a' else '{'
      case _ =>
        if |s| < 10 then ' '
        else if s[8] == 'P' then 'o' else if s[8] == 'V' then 'v' else if s[9] == 'i' then 'g' else '('
  }

  function HeadCode(t: Type): char {
    match t
    case Basic(c) => c
    case Variant => 'v'
    case Vector(_) => 'a'
    case Map(_, _) => '{'
    case Struct(_) => '('
  }

  /** The opening words of a type's text, and what is left of the text after them. */
  function Opening(t: Type): string {
    match t
    case Basic(c) => AtomName(c)
    case Variant => AtomName('v')
    case Vector(_) => VECTOR
    case Map(_, _) => MAP
    case Struct(_) => STRUCT
  }

  function Inner(t: Type): string {
    match t
    case Basic(_) => ""
    case Variant => ""
    case Vector(e) => Text(e) + CLOSE
    case Map(k, v) => Text(k) + COMMA + Text(v) + CLOSE
    case Struct(fs) => TextAll(fs) + CLOSE
  }

  lemma TextOpens(t: Type, r: string)
    ensures Text(t) + r == Opening(t) + (Inner(t) + r)
  {
    match t {
      case Basic(_) =>
      case Variant =>
      case Vector(e) => Regroup(VECTOR, Text(e), CLOSE);
      case Map(k, v) =>
        Regroup(MAP, Text(k) + COMMA + Text(v), CLOSE);
      case Struct(fs) => Regroup(STRUCT, TextAll(fs), CLOSE);
    }
    assert Text(t) == Opening(t) + Inner(t);
    Regroup(Opening(t), Inner(t), r);
  }

  lemma NumberHead(c: char, r: string)
    requires c in "ybnqiu"
    ensures HeadOf(AtomName(c) + r) == c
  {
    match c
    case 'y' => assert |AtomName(c) + r| >= 4;
    case 'b' => assert |AtomName(c) + r| >= 4;
    case 'n' => assert |AtomName(c) + r| >= 4;
    case 'q' => assert |AtomName(c) + r| >= 4;
    case 'i' => assert |AtomName(c) + r| >= 4;
    case 'u' => assert |AtomName(c) + r| >= 4;
  }

  lemma OtherHead(c: char, r: string)
    requires c in "xtdsogv"
    ensures HeadOf(AtomName(c) + r) == c
  {
    match c
    case 'x' => assert |AtomName(c) + r| >= 4;
    case 't' => assert |AtomName(c) + r| >= 4;
    case 'd' => assert |AtomName(c) + r| >= 4;
    case 's' => assert |AtomName(c) + r| >= 4;
    case 'o' => assert |AtomName(c) + r| >= 4;
    case 'g' => assert |AtomName(c) + r| >= 4;
    case 'v' => assert |AtomName(c) + r| >= 4;
  }

  lemma AtomHead(c: char, r: string)
    requires BasicCode(c) || c == 'v'
    ensures HeadOf(AtomName(c) + r) == c
  {
    hide AtomName, HeadOf;
    assert c in "ybnqiu" || c in "xtdsogv";
    if c in "ybnqiu" {
      NumberHead(c, r);
    } else {
      OtherHead(c, r);
    }
  }

  lemma ContainerHeads(r: string)
    ensures HeadOf(VECTOR + r) == 'a'
    ensures HeadOf(MAP + r) == '{'
    ensures HeadOf(STRUCT + r) == '('
  {}

  lemma TextHead(t: Type, r: string)
    requires Valid(t)
    ensures HeadOf(Text(t) + r) == HeadCode(t)
  {
    hide AtomName, Text, Inner, HeadOf;
    TextOpens(t, r);
    ContainerHeads(Inner(t) + r);
    match t
    case Basic(c) => AtomHead(c, Inner(t) + r);
    case Variant => AtomHead('v', Inner(t) + r);
    case Vector(_) =>
    case Map(_, _) =>
    case Struct(_) =>
  }

  lemma DropPrefix(p: string, a: string, b: string)
    requires p + a == p + b
    ensures a == b
  {
    assert (p + a)[|p|..] == a && (p + b)[|p|..] == b;
  }

  lemma SameOpening(t1: Type, t2: Type, r1: string, r2: string)
    requires Valid(t1) && Valid(t2)
    requires Text(t1) + r1 == Text(t2) + r2
    ensures HeadCode(t1) == HeadCode(t2)
    ensures Inner(t1) + r1 == Inner(t2) + r2
  {
    hide AtomName, Text, HeadOf, Inner;
    TextHead(t1, r1);
    TextHead(t2, r2);
    TextOpens(t1, r1);
    TextOpens(t2, r2);
    assert Opening(t1) == Opening(t2);
    DropPrefix(Opening(t1), Inner(t1) + r1, Inner(t2) + r2);
  }

  lemma MapInner(k: Type, v: Type, r: string)
    ensures Inner(Map(k, v)) + r == Text(k) + (COMMA + (Text(v) + (CLOSE + r)))
  {
    Regroup(Text(k) + COMMA + Text(v), CLOSE, r);
    Regroup(Text(k) + COMMA, Text(v), CLOSE + r);
    Regroup(Text(k), COMMA, Text(v) + (CLOSE + r));
  }

  /** Two valid types never have the same text, nor is one text a prefix of the other. */
  lemma {:induction false} TextPrefixCode(t1: Type, t2: Type, r1: string, r2: string)
    requires Valid(t1) && Valid(t2)
    requires Text(t1) + r1 == Text(t2) + r2
    ensures t1 == t2 && r1 == r2
    decreases t1
  {
    hide AtomName, Text;
    SameOpening(t1, t2, r1, r2);
    assert "" + r1 == r1 && "" + r2 == r2;
    match t1
    case Basic(_) =>
    case Variant =>
    case Vector(e) =>
      Regroup(Text(e), CLOSE, r1);
      Regroup(Text(t2.elem), CLOSE, r2);
      TextPrefixCode(e, t2.elem, CLOSE + r1, CLOSE + r2);
      DropPrefix(CLOSE, r1, r2);
    case Map(k, v) =>
      var v1, v2 := Text(v) + (CLOSE + r1), Text(t2.val) + (CLOSE + r2);
      MapInner(k, v, r1);
      MapInner(t2.key, t2.val, r2);
      TextPrefixCode(k, t2.key, COMMA + v1, COMMA + v2);
      DropPrefix(COMMA, v1, v2);
      TextPrefixCode(v, t2.val, CLOSE + r1, CLOSE + r2);
      DropPrefix(CLOSE, r1, r2);
    case Struct(fs) =>
      Regroup(TextAll(fs), CLOSE, r1);
      Regroup(TextAll(t2.fields), CLOSE, r2);
      TextAllPrefixCode(fs, t2.fields, CLOSE + r1, CLOSE + r2);
      DropPrefix(CLOSE, r1, r2);
  }

  /** What follows the first text of a list. */
  function AfterFirst(ts: seq<Type>, r: string): string
    requires ts != []
  {
    if |ts| == 1 then r else COMMA + (TextAll(ts[1..]) + r)
  }

  lemma TextAllSplit(ts: seq<Type>, r: string)
    requires ts != []
    ensures TextAll(ts) + r == Text(ts[0]) + AfterFirst(ts, r)
  {
    hide Text;
    if |ts| > 1 {
      Regroup(Text(ts[0]) + COMMA, TextAll(ts[1..]), r);
      Regroup(Text(ts[0]), COMMA, TextAll(ts[1..]) + r);
    }
  }

  lemma AfterFirstTail(ts1: seq<Type>, ts2: seq<Type>, r1: string, r2: string)
    requires |ts1| > 1 && |ts2| > 1
    requires AfterFirst(ts1, r1) == AfterFirst(ts2, r2)
    ensures TextAll(ts1[1..]) + r1 == TextAll(ts2[1..]) + r2
  {
    hide TextAll;
    DropPrefix(COMMA, TextAll(ts1[1..]) + r1, TextAll(ts2[1..]) + r2);
  }

  lemma CommaFollows(ts: seq<Type>, r: string)
    requires ts != [] && (r == "" || r[0] != ',')
    ensures |ts| > 1 <==> AfterFirst(ts, r) != "" && AfterFirst(ts, r)[0] == ','
    ensures |ts| == 1 ==> AfterFirst(ts, r) == r
  {
    hide TextAll;
  }

  /** The list form: what follows a list may be anything but a further comma. */
  lemma {:induction false} TextAllPrefixCode(ts1: seq<Type>, ts2: seq<Type>, r1: string, r2: string)
    requires AllValid(ts1) && AllValid(ts2) && ts1 != [] && ts2 != []
    requires r1 == "" || r1[0] != ','
    requires r2 == "" || r2[0] != ','
    requires TextAll(ts1) + r1 == TextAll(ts2) + r2
    ensures ts1 == ts2 && r1 == r2
    decreases ts1
  {
    hide AtomName, Text, TextAll, AfterFirst;
    TextAllSplit(ts1, r1);
    TextAllSplit(ts2, r2);
    TextPrefixCode(ts1[0], ts2[0], AfterFirst(ts1, r1), AfterFirst(ts2, r2));
    CommaFollows(ts1, r1);
    CommaFollows(ts2, r2);
    if |ts1| > 1 {
      AfterFirstTail(ts1, ts2, r1, r2);
      TextAllPrefixCode(ts1[1..], ts2[1..], r1, r2);
      assert ts1 == [ts1[0]] + ts1[1..] && ts2 == [ts2[0]] + ts2[1..];
    }
  }
}
