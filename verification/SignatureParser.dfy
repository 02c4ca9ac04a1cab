/**
 The code generators' compiler from D-Bus signatures to C++ type texts: a recursive descent whose
 position is passed by reference, so that what a nested call leaves behind matters to its caller.
 */
module SignatureParser {
  import opened Types

  /** Indexing a constant string: the terminator is readable, nothing beyond it is. */
  function At(s: string, i: nat): char
    requires i <= |s|
  {
    if i < |s| then s[i] else '\0'
  }

  predicate Closing(c: char) {
    c == ')' || c == '}'
  }

  /** What one pass of the loop at position `i` emits, and where it leaves the position. */
  function One(s: string, i: nat): (r: (string, nat))
    requires i < |s|
    ensures r.1 >= i
    decreases |s| - i, 0
  {
    if s[i] == 'a' then
      var c := At(s, i + 1);
      if c == '{' then
        var (e, j) := Parse(s, i + 2, false);
        (MAP + e + CLOSE, j)
      else if c == '(' then
        var (e, j) := Parse(s, i + 2, false);
        (VECTOR + (STRUCT + e + CLOSE) + CLOSE, j)
      else
        var (e, j) := Parse(s, i + 1, true);
        (VECTOR + e + CLOSE, j)
    else if s[i] == '(' then
      var (e, j) := Parse(s, i + 1, false);
      (STRUCT + e + CLOSE, j)
    else
      (AtomName(s[i]), i)
  }

  predicate MoreFollows(s: string, j: nat) {
    j + 1 < |s| && !Closing(s[j + 1])
  }

  /** The text that a call entered at `i` appends, and the position it leaves. */
  function Parse(s: string, i: nat, onlyOnce: bool): (r: (string, nat))
    ensures r.1 >= i
    decreases if i < |s| then |s| - i else 0, 1
  {
    if i >= |s| || Closing(s[i]) then ("", i)
    else
      var (e, j) := One(s, i);
      if onlyOnce then (e, j)
      else
        var (rest, k) := Parse(s, j + 1, false);
        (e + (if MoreFollows(s, j) then COMMA else "") + rest, k)
  }

  /** The cases of one pass, each under the condition that selects it. */
  lemma OneCases(s: string, i: nat)
    requires i < |s| && !Closing(s[i])
    ensures s[i] == 'a' && At(s, i + 1) == '{' ==>
              One(s, i) == (MAP + Parse(s, i + 2, false).0 + CLOSE, Parse(s, i + 2, false).1)
    ensures s[i] == 'a' && At(s, i + 1) == '(' ==>
              One(s, i) == (VECTOR + (STRUCT + Parse(s, i + 2, false).0 + CLOSE) + CLOSE, Parse(s, i + 2, false).1)
    ensures s[i] == 'a' && At(s, i + 1) != '{' && At(s, i + 1) != '(' ==>
              One(s, i) == (VECTOR + Parse(s, i + 1, true).0 + CLOSE, Parse(s, i + 1, true).1)
    ensures s[i] == '(' ==>
              One(s, i) == (STRUCT + Parse(s, i + 1, false).0 + CLOSE, Parse(s, i + 1, false).1)
    ensures s[i] != 'a' && s[i] != '(' ==> One(s, i) == (AtomName(s[i]), i)
  {
    hide AtomName;
  }

  lemma ParseCases(s: string, i: nat, onlyOnce: bool)
    ensures i >= |s| || Closing(s[i]) ==> Parse(s, i, onlyOnce) == ("", i)
    ensures i < |s| && !Closing(s[i]) && onlyOnce ==> Parse(s, i, onlyOnce) == One(s, i)
    ensures i < |s| && !Closing(s[i]) && !onlyOnce ==>
              var (e, j) := One(s, i);
              var comma := if MoreFollows(s, j) then COMMA else "";
              Parse(s, i, onlyOnce) == (e + comma + Parse(s, j + 1, false).0, Parse(s, j + 1, false).1)
  {
    hide One;
  }

  lemma Bracket(text: string, opening: string, e: string)
    ensures text + opening + e + CLOSE == text + (opening + e + CLOSE)
  {
    Regroup(text, opening, e);
    Regroup(text, opening + e, CLOSE);
  }

  /**
   The loop itself.  `text` and `i` stand for the two reference parameters.  Every read of the
   signature is in bounds (at most the terminator) and every call terminates, on every string.
   */
  method ParseSignature(signature: string, text0: string, i0: nat, onlyOnce: bool)
    returns (text: string, i: nat)
    ensures text == text0 + Parse(signature, i0, onlyOnce).0
    ensures i == Parse(signature, i0, onlyOnce).1
    decreases if i0 < |signature| then |signature| - i0 else 0, 1
  {
    hide AtomName, One, Parse;
    text, i := text0, i0;
    ghost var whole := Parse(signature, i0, onlyOnce);
    while i < |signature|
      invariant i0 <= i
      invariant text + Parse(signature, i, onlyOnce).0 == text0 + whole.0
      invariant Parse(signature, i, onlyOnce).1 == whole.1
    {
      ParseCases(signature, i, onlyOnce);
      if signature[i] == ')' || signature[i] == '}' {
        return;
      }
      ghost var before, e := text, One(signature, i).0;
      text, i := ParseCharacter(signature, text, i);
      if onlyOnce {
        return;
      }
      ghost var comma := if MoreFollows(signature, i) then COMMA else "";
      Regroup(before, e, comma);
      Regroup(before, e + comma, Parse(signature, i + 1, false).0);
      if i + 1 < |signature| && signature[i + 1] != ')' && signature[i + 1] != '}' {
        text := text + COMMA;
      }
      i := i + 1;
    }
    ParseCases(signature, i, onlyOnce);
  }

  /** The cases of the loop's switch that do not return. */
  method ParseCharacter(signature: string, text0: string, i0: nat) returns (text: string, i: nat)
    requires i0 < |signature| && !Closing(signature[i0])
    ensures text == text0 + One(signature, i0).0
    ensures i == One(signature, i0).1
    decreases |signature| - i0, 0
  {
    hide AtomName, One, Parse;
    OneCases(signature, i0);
    text, i := text0, i0;
    match signature[i] {
      case 'a' =>
        i := i + 1;
        match At(signature, i) {
          case '{' =>
            text := text + MAP;
            i := i + 1;
            text, i := ParseSignature(signature, text, i, false);
            text := text + CLOSE;
            Bracket(text0, MAP, Parse(signature, i0 + 2, false).0);
          case '(' =>
            text := text + VECTOR + STRUCT;
            i := i + 1;
            text, i := ParseSignature(signature, text, i, false);
            text := text + CLOSE + CLOSE;
            Bracket(text0 + VECTOR, STRUCT, Parse(signature, i0 + 2, false).0);
            Bracket(text0, VECTOR, STRUCT + Parse(signature, i0 + 2, false).0 + CLOSE);
          case _ =>
            text := text + VECTOR;
            text, i := ParseSignature(signature, text, i, true);
            text := text + CLOSE;
            Bracket(text0, VECTOR, Parse(signature, i0 + 1, true).0);
        }
      case '(' =>
        text := text + STRUCT;
        i := i + 1;
        text, i := ParseSignature(signature, text, i, false);
        text := text + CLOSE;
        Bracket(text0, STRUCT, Parse(signature, i0 + 1, false).0);
      case _ =>
        text := text + AtomName(signature[i]);
    }
  }

  function Compiled(signature: string): string {
    Parse(signature, 0, false).0
  }

  method SignatureToType(signature: string) returns (text: string)
    ensures text == Compiled(signature)
  {
    var i;
    text, i := ParseSignature(signature, "", 0, false);
  }

  // ---------- on valid signatures: the inverse of type<T>::sig() ----------

  /** The signature `sig` stands in `s` at position `i`. */
  ghost predicate Stands(s: string, i: nat, sig: string) {
    i + |sig| <= |s| && s[i..i + |sig|] == sig
  }

  lemma StandsSplit(s: string, i: nat, a: string, b: string)
    requires Stands(s, i, a + b)
    ensures Stands(s, i, a) && Stands(s, i + |a|, b)
  {
    assert s[i..i + |a|] == (a + b)[..|a|] == a;
    assert s[i + |a|..i + |a| + |b|] == (a + b)[|a|..] == b;
  }

  /** One pass over a complete type emits its text and stops on the type's last character. */
  lemma {:induction false} OneType(s: string, i: nat, t: Type)
    requires Valid(t) && Stands(s, i, Sig(t))
    ensures i < |s| && !Closing(s[i])
    ensures One(s, i) == (Text(t), i + |Sig(t)| - 1)
    decreases |Sig(t)|, 3
  {
    hide AtomName, Text, One;
    SigHead(t, "");
    assert Sig(t) + "" == Sig(t);
    assert s[i] == Sig(t)[0];
    match t {
      case Basic(c) => OneAtom(s, i, t);
      case Variant => OneAtom(s, i, t);
      case Vector(e) => OneVector(s, i, e);
      case Map(k, v) => OneMap(s, i, k, v);
      case Struct(fs) =>
        OneStruct(s, i, fs);
        assert One(s, i) == (Text(t), i + |Sig(t)| - 1) by { StructText(s, i, fs); }
    }
  }

  lemma OneAtom(s: string, i: nat, t: Type)
    requires t.Basic? || t.Variant?
    requires Valid(t) && i < |s| && s[i] == Sig(t)[0]
    ensures One(s, i) == (Text(t), i)
  {
    hide AtomName;
  }

  lemma StructText(s: string, i: nat, fs: seq<Type>)
    requires i < |s| && s[i] == '('
    requires Parse(s, i + 1, false) == (TextAll(fs), i + |Sig(Struct(fs))| - 1)
    ensures One(s, i) == (Text(Struct(fs)), i + |Sig(Struct(fs))| - 1)
  {
    hide AtomName, Parse, TextAll;
  }

  lemma {:induction false} OneVector(s: string, i: nat, e: Type)
    requires Valid(e) && Stands(s, i, Sig(Vector(e)))
    ensures One(s, i) == (Text(Vector(e)), i + |Sig(Vector(e))| - 1)
    decreases |Sig(e)| + 1, 2
  {
    hide AtomName, TextAll, Text, One, Parse;
    StandsSplit(s, i, "a", Sig(e));
    SigHead(e, "");
    assert Sig(e) + "" == Sig(e) && s[i + 1] == Sig(e)[0];
    OneCases(s, i);
    if e.Struct? {
      OneStruct(s, i + 1, e.fields);
    } else {
      OneType(s, i + 1, e);
      ParseCases(s, i + 1, true);
    }
    VectorText(e);
  }

  lemma VectorText(e: Type)
    ensures Text(Vector(e)) == VECTOR + Text(e) + CLOSE
    ensures e.Struct? ==> Text(e) == STRUCT + TextAll(e.fields) + CLOSE
  {
    hide AtomName, TextAll;
  }

  lemma {:induction false} OneMap(s: string, i: nat, k: Type, v: Type)
    requires Valid(Map(k, v)) && Stands(s, i, Sig(Map(k, v)))
    ensures One(s, i) == (Text(Map(k, v)), i + |Sig(Map(k, v))| - 1)
    decreases |Sig(k)| + |Sig(v)| + 3, 2
  {
    hide AtomName, Text, One, Parse;
    var kv := [k, v];
    PairLists(k, v);
    Regroup("a{", SigAll(kv), "}");
    assert Sig(Map(k, v)) == "a{" + SigAll(kv) + "}" by { Regroup("a{", Sig(k), Sig(v)); }
    hide Sig, SigAll, TextAll;
    StandsSplit(s, i, "a{", SigAll(kv) + "}");
    StandsSplit(s, i + 2, SigAll(kv), "}");
    assert s[i] == "a{"[0] && s[i + 1] == "a{"[1];
    TypeList(s, i + 2, kv);
    MapText(s, i, k, v);
  }

  lemma PairLists(k: Type, v: Type)
    ensures SigAll([k, v]) == Sig(k) + Sig(v)
    ensures TextAll([k, v]) == Text(k) + COMMA + Text(v)
  {
    hide Sig, Text;
    assert [k, v][1..] == [v] && [v][1..] == [];
    assert SigAll([v]) == Sig(v) + SigAll([]) == Sig(v);
  }

  lemma MapText(s: string, i: nat, k: Type, v: Type)
    requires i + 1 < |s| && s[i] == 'a' && s[i + 1] == '{'
    ensures One(s, i).0 == MAP + Parse(s, i + 2, false).0 + CLOSE
    ensures One(s, i).1 == Parse(s, i + 2, false).1
    ensures Text(Map(k, v)) == MAP + (Text(k) + COMMA + Text(v)) + CLOSE
  {
    hide AtomName, Parse, TextAll;
  }

  /** The fields between the parentheses of a structure. */
  lemma {:induction false} OneStruct(s: string, i: nat, fs: seq<Type>)
    requires fs != [] && AllValid(fs) && Stands(s, i, Sig(Struct(fs)))
    ensures s[i] == '('
    ensures Parse(s, i + 1, false) == (TextAll(fs), i + |Sig(Struct(fs))| - 1)
    decreases |SigAll(fs)| + 2, 2
  {
    hide AtomName;
    hide SigAll, TextAll, Parse;
    Regroup("(", SigAll(fs), ")");
    StandsSplit(s, i, "(", SigAll(fs) + ")");
    StandsSplit(s, i + 1, SigAll(fs), ")");
    TypeList(s, i + 1, fs);
  }

  /** A list of types up to a closing bracket or the end of the string. */
  lemma {:induction false} TypeList(s: string, i: nat, ts: seq<Type>)
    requires ts != [] && AllValid(ts) && Stands(s, i, SigAll(ts))
    requires i + |SigAll(ts)| < |s| ==> Closing(s[i + |SigAll(ts)|])
    ensures Parse(s, i, false) == (TextAll(ts), i + |SigAll(ts)|)
    decreases |SigAll(ts)|, 4
  {
    hide AtomName, One, Text, Parse, Sig, SigAll, TextAll;
    ListParts(ts);
    StandsSplit(s, i, Sig(ts[0]), SigAll(ts[1..]));
    SigHead(ts[0], "");
    assert Sig(ts[0]) + "" == Sig(ts[0]);
    OneType(s, i, ts[0]);
    var next := i + |Sig(ts[0])|;
    ParseCases(s, i, false);
    ParseCases(s, next, false);
    if |ts| == 1 {
      assert Text(ts[0]) + "" + "" == Text(ts[0]);
    } else {
      NextHead(ts[1..]);
      assert s[next] == SigAll(ts[1..])[0];
      TypeList(s, next, ts[1..]);
    }
  }

  lemma ListParts(ts: seq<Type>)
    requires ts != []
    ensures SigAll(ts) == Sig(ts[0]) + SigAll(ts[1..])
    ensures |ts| == 1 ==> SigAll(ts[1..]) == "" && TextAll(ts) == Text(ts[0])
    ensures |ts| > 1 ==> TextAll(ts) == Text(ts[0]) + COMMA + TextAll(ts[1..])
  {
    hide Sig, Text;
  }

  lemma NextHead(ts: seq<Type>)
    requires ts != [] && AllValid(ts)
    ensures SigAll(ts) != "" && !Closing(SigAll(ts)[0])
  {
    SigHead(ts[0], "");
    assert Sig(ts[0]) + "" == Sig(ts[0]);
  }

  /** The parser inverts the printer: the signature of `t` compiles to exactly the text of `t`. */
  lemma CompilesToText(t: Type)
    requires Valid(t)
    ensures Compiled(Sig(t)) == Text(t)
  {
    assert Stands(Sig(t), 0, Sig(t));
    assert SigAll([t]) == Sig(t) by { assert [t][1..] == []; }
    TypeList(Sig(t), 0, [t]);
  }

  /** Message signatures, a list of complete types, compile to the comma-separated texts. */
  lemma CompilesToTexts(ts: seq<Type>)
    requires AllValid(ts) && ts != []
    ensures Compiled(SigAll(ts)) == TextAll(ts)
  {
    assert Stands(SigAll(ts), 0, SigAll(ts));
    TypeList(SigAll(ts), 0, ts);
  }

  /**
   Whatever type the generated text denotes, its type<T>::sig() is the signature that the text was
   compiled from.
   */
  lemma GeneratedTypeHasSignature(t: Type, generated: Type)
    requires Valid(t) && Valid(generated)
    ensures Compiled(Sig(t)) == Text(generated) <==> Sig(generated) == Sig(t)
    ensures Compiled(Sig(t)) == Text(generated) <==> generated == t
  {
    CompilesToText(t);
    assert Text(t) + "" == Text(t) && Text(generated) + "" == Text(generated);
    if Text(t) == Text(generated) {
      TextPrefixCode(t, generated, "", "");
    }
    assert Sig(t) + "" == Sig(t) && Sig(generated) + "" == Sig(generated);
    if Sig(t) == Sig(generated) {
      SigPrefixCode(t, generated, "", "");
    }
  }

  ghost predicate ValidSignature(s: string) {
    exists ts: seq<Type> :: ts != [] && AllValid(ts) && s == SigAll(ts)
  }

  /** Different valid signatures never compile to the same C++ text. */
  lemma CompiledInjective(s1: string, s2: string)
    requires ValidSignature(s1) && ValidSignature(s2)
    requires Compiled(s1) == Compiled(s2)
    ensures s1 == s2
  {
    var ts1: seq<Type> :| ts1 != [] && AllValid(ts1) && s1 == SigAll(ts1);
    var ts2: seq<Type> :| ts2 != [] && AllValid(ts2) && s2 == SigAll(ts2);
    CompilesToTexts(ts1);
    CompilesToTexts(ts2);
    assert TextAll(ts1) + "" == TextAll(ts1) && TextAll(ts2) + "" == TextAll(ts2);
    TextAllPrefixCode(ts1, ts2, "", "");
  }

  // ---------- on every string: balanced brackets ----------

  /** The depth of angle brackets after `s`, starting at depth `d`; negative once one is unmatched. */
  function Nesting(s: string, d: int): int {
    if d < 0 then -1
    else if s == "" then d
    else Nesting(s[1..], if s[0] == '<' then d + 1 else if s[0] == '>' then d - 1 else d)
  }

  ghost predicate Balanced(s: string) {
    forall d: nat :: Nesting(s, d) == d
  }

  lemma {:induction false} NestingConcat(a: string, b: string, d: int)
    ensures d >= 0 ==> Nesting(a + b, d) == Nesting(b, Nesting(a, d))
    decreases |a|
  {
    if d >= 0 {
      if a == "" {
        assert a + b == b;
      } else {
        assert (a + b)[1..] == a[1..] + b;
        NestingConcat(a[1..], b, if a[0] == '<' then d + 1 else if a[0] == '>' then d - 1 else d);
      }
    }
  }

  lemma {:induction false} NestingPlain(s: string, d: nat)
    requires '<' !in s && '>' !in s
    ensures Nesting(s, d) == d
    decreases |s|
  {
    if s != "" {
      NestingPlain(s[1..], d);
    }
  }

  lemma AtomPlain(c: char)
    ensures '<' !in AtomName(c) && '>' !in AtomName(c)
  {
    match c
    case 'y' => assert '<' !in AtomName(c);
    case 'b' => assert '<' !in AtomName(c);
    case 'n' => assert '<' !in AtomName(c);
    case 'q' => assert '<' !in AtomName(c);
    case 'i' => assert '<' !in AtomName(c);
    case 'u' => assert '<' !in AtomName(c);
    case 'x' => assert '<' !in AtomName(c);
    case 't' => assert '<' !in AtomName(c);
    case 'd' => assert '<' !in AtomName(c);
    case 's' => assert '<' !in AtomName(c);
    case 'o' => assert '<' !in AtomName(c);
    case 'g' => assert '<' !in AtomName(c);
    case 'v' => assert '<' !in AtomName(c);
    case _ =>
  }

  lemma AtomBalanced(c: char)
    ensures Balanced(AtomName(c))
  {
    AtomPlain(c);
    hide AtomName;
    forall d: nat ensures Nesting(AtomName(c), d) == d {
      NestingPlain(AtomName(c), d);
    }
  }

  /** An opening word raises the depth by one, and " >" lowers it. */
  lemma Brackets(word: string, d: nat)
    requires '<' !in word && '>' !in word
    ensures Nesting(word + "< ", d) == d + 1
    ensures Nesting(CLOSE, d + 1) == d
  {
    NestingConcat(word, "< ", d);
    NestingPlain(word, d);
    assert "< "[1..] == " ";
    NestingPlain(" ", d + 1);
    assert Nesting("< ", d) == Nesting(" ", d + 1);
    assert " >" == " " + ">" && ">"[1..] == "";
    NestingConcat(" ", ">", d + 1);
  }

  lemma Enclosed(word: string, e: string)
    requires '<' !in word && '>' !in word && Balanced(e)
    ensures Balanced((word + "< ") + e + CLOSE)
  {
    forall d: nat ensures Nesting((word + "< ") + e + CLOSE, d) == d {
      Brackets(word, d);
      NestingConcat(word + "< ", e, d);
      NestingConcat((word + "< ") + e, CLOSE, d);
    }
  }

  lemma BalancedConcat(a: string, b: string)
    requires Balanced(a) && Balanced(b)
    ensures Balanced(a + b)
  {
    forall d: nat ensures Nesting(a + b, d) == d {
      NestingConcat(a, b, d);
    }
  }

  /** On every string, well-formed or not, the emitted text has balanced angle brackets. */
  lemma {:induction false} ParseBalanced(s: string, i: nat, onlyOnce: bool)
    ensures Balanced(Parse(s, i, onlyOnce).0)
    decreases if i < |s| then |s| - i else 0
  {
    forall d: nat ensures Nesting("", d) == d && Nesting(COMMA, d) == d {
      NestingPlain("", d);
      NestingPlain(COMMA, d);
    }
    assert Balanced("") && Balanced(COMMA);
    if i < |s| && !Closing(s[i]) {
      OneBalanced(s, i);
      var (e, j) := One(s, i);
      if !onlyOnce {
        ParseBalanced(s, j + 1, false);
        var comma := if MoreFollows(s, j) then COMMA else "";
        BalancedConcat(e, comma);
        BalancedConcat(e + comma, Parse(s, j + 1, false).0);
      }
    }
  }

  lemma {:induction false} OneBalanced(s: string, i: nat)
    requires i < |s|
    ensures Balanced(One(s, i).0)
    decreases |s| - i, 0
  {
    assert VECTOR == "std::vector" + "< " && MAP == "std::map" + "< " && STRUCT == "::DBus::Struct" + "< ";
    AtomBalanced(s[i]);
    if s[i] == 'a' && At(s, i + 1) == '{' {
      ParseBalanced(s, i + 2, false);
      Enclosed("std::map", Parse(s, i + 2, false).0);
    } else if s[i] == 'a' && At(s, i + 1) == '(' {
      ParseBalanced(s, i + 2, false);
      var e := Parse(s, i + 2, false).0;
      Enclosed("::DBus::Struct", e);
      Enclosed("std::vector", STRUCT + e + CLOSE);
    } else if s[i] == 'a' {
      ParseBalanced(s, i + 1, true);
      Enclosed("std::vector", Parse(s, i + 1, true).0);
    } else if s[i] == '(' {
      ParseBalanced(s, i + 1, false);
      Enclosed("::DBus::Struct", Parse(s, i + 1, false).0);
    }
  }

  lemma CompiledBalanced(signature: string)
    ensures Balanced(Compiled(signature))
  {
    ParseBalanced(signature, 0, false);
  }

  /** Invalid signatures are not reported: an unknown code has no text, and a closing bracket ends the text. */
  lemma StrayCodes()
    ensures Compiled("") == "" && Compiled("z") == ""
    ensures Compiled(")i") == "" && Compiled("i)s") == "int32_t" && Compiled("i}s") == "int32_t"
  {
    ParseCases("i)s", 1, false);
    ParseCases("i}s", 1, false);
  }

  lemma LastOne(s: string, i: nat)
    requires |s| == i + 1 && !Closing(s[i]) && s[i] != 'a' && s[i] != '('
    ensures Parse(s, i, false) == (AtomName(s[i]), i + 1)
  {
    hide AtomName;
    ParseCases(s, i, false);
    ParseCases(s, i + 1, false);
    assert AtomName(s[i]) + "" + "" == AtomName(s[i]);
  }

  /** The end of the signature closes what is open, and an entry may lack its value. */
  lemma MissingBracket(c: char)
    requires BasicCode(c)
    ensures Compiled(['(', c]) == Text(Struct([Basic(c)]))
    ensures Compiled(['a', '{', c]) == MAP + AtomName(c) + CLOSE
  {
    var struct, entry := ['(', c], ['a', '{', c];
    hide AtomName, One, Parse;
    assert TextAll([Basic(c)]) == Text(Basic(c)) == AtomName(c);
    LastOne(struct, 1);
    LastOne(entry, 2);
    OneCases(struct, 0);
    OneCases(entry, 0);
    Ends(struct, 0, 2);
    Ends(entry, 0, 3);
  }

  lemma Ends(s: string, i: nat, j: nat)
    requires i < |s| == j && !Closing(s[i]) && One(s, i).1 == j
    ensures Parse(s, i, false).0 == One(s, i).0
  {
    hide One;
    ParseCases(s, i, false);
    ParseCases(s, j + 1, false);
    assert One(s, i).0 + "" + "" == One(s, i).0;
  }
}
