/**
 A reader of C++ type texts: the words of the templates for which the library has type<T>, each with the
 signature of its specialization.  It gives back the signature from which a text was generated.
 */
module TypeNames {
  import opened Types
  import opened SignatureParser
  import opened Wrappers

  /** Everything up to the next space or comma. */
  function Word(s: string): (w: string)
    ensures w <= s
  {
    if s == "" || s[0] == ' ' || s[0] == ',' then "" else [s[0]] + Word(s[1..])
  }

  /** What is left after an expected word; None if it is not there. */
  function After(s: string, word: string): (r: Option<string>)
    ensures r.Some? ==> s == word + r.value
  {
    if word <= s then Some(s[|word|..]) else None
  }

  /** The signature of the type at the front of the text, and what follows the type. */
  function ReadName(s: string): (r: Option<(string, string)>)
    ensures r.Some? ==> |r.value.1| < |s|
    decreases |s|, 0
  {
    if After(s, "std::vector< ").Some? then
      match ReadName(After(s, "std::vector< ").value)
      case None => None
      case Some((elem, rest)) =>
        if After(rest, " >").Some? then Some(("a" + elem, After(rest, " >").value)) else None
    else if After(s, "std::map< ").Some? then
      match ReadName(After(s, "std::map< ").value)
      case None => None
      case Some((key, rest)) =>
        if After(rest, ", ").None? then None
        else
          match ReadName(After(rest, ", ").value)
          case None => None
          case Some((val, tail)) =>
            if After(tail, " >").Some? then Some(("a{" + key + val + "}", After(tail, " >").value)) else None
    else if After(s, "::DBus::Struct< ").Some? then
      match ReadNames(After(s, "::DBus::Struct< ").value)
      case None => None
      case Some((members, rest)) => Some(("(" + members + ")", rest))
    else if SigNamed(Word(s)) != "" then
      assert Word(s) != "";
      Some((SigNamed(Word(s)), s[|Word(s)|..]))
    else None
  }

  /** Members separated by commas, up to the closing bracket. */
  function ReadNames(s: string): (r: Option<(string, string)>)
    ensures r.Some? ==> |r.value.1| < |s|
    decreases |s|, 1
  {
    match ReadName(s)
    case None => None
    case Some((first, rest)) =>
      if After(rest, " >").Some? then Some((first, After(rest, " >").value))
      else if After(rest, ", ").None? then None
      else
        match ReadNames(After(rest, ", ").value)
        case None => None
        case Some((others, tail)) => Some((first + others, tail))
  }

  /** A type text ends at the end, at a comma or at a space. */
  predicate Ends(r: string) {
    r == "" || r[0] == ' ' || r[0] == ','
  }

  lemma {:induction false} WordOf(w: string, r: string)
    requires ' ' !in w && ',' !in w && Ends(r)
    ensures Word(w + r) == w
    decreases |w|
  {
    if w == "" {
      assert w + r == r;
    } else {
      assert (w + r)[0] == w[0] && (w + r)[1..] == w[1..] + r && w[0] in w;
      WordOf(w[1..], r);
    }
  }

  lemma AfterWord(word: string, r: string)
    ensures After(word + r, word) == Some(r)
  {
  }

  lemma OneWord(c: char)
    requires BasicCode(c) || c == 'v'
    ensures ' ' !in AtomName(c) && ',' !in AtomName(c) && SigNamed(AtomName(c)) == [c]
  {
    AtomsAgree(c);
    assert c in "ybnqiu" || c in "xtdsogv";
    if c in "ybnqiu" {
      ShortWord(c);
    } else {
      LongWord(c);
    }
  }

  lemma ShortWord(c: char)
    requires c in "ybnqiu"
    ensures ' ' !in AtomName(c) && ',' !in AtomName(c)
  {
    match c
    case 'y' => assert ' ' !in AtomName(c);
    case 'b' => assert ' ' !in AtomName(c);
    case 'n' => assert ' ' !in AtomName(c);
    case 'q' => assert ' ' !in AtomName(c);
    case 'i' => assert ' ' !in AtomName(c);
    case 'u' => assert ' ' !in AtomName(c);
  }

  lemma LongWord(c: char)
    requires c in "xtdsogv"
    ensures ' ' !in AtomName(c) && ',' !in AtomName(c)
  {
    match c
    case 'x' => assert ' ' !in AtomName(c);
    case 't' => assert ' ' !in AtomName(c);
    case 'd' => assert ' ' !in AtomName(c);
    case 's' => assert ' ' !in AtomName(c);
    case 'o' => assert ' ' !in AtomName(c);
    case 'g' => assert ' ' !in AtomName(c);
    case 'v' => assert ' ' !in AtomName(c);
  }

  /** The first word tells which template it is. */
  lemma Templates(s: string)
    ensures After(s, "std::vector< ").Some? ==> Word(s) == "std::vector<"
    ensures After(s, "std::map< ").Some? ==> Word(s) == "std::map<"
    ensures After(s, "::DBus::Struct< ").Some? ==> Word(s) == "::DBus::Struct<"
  {
    hide Word;
    if After(s, "std::vector< ").Some? {
      TemplateWord(s, "std::vector<", After(s, "std::vector< ").value);
    }
    if After(s, "std::map< ").Some? {
      TemplateWord(s, "std::map<", After(s, "std::map< ").value);
    }
    if After(s, "::DBus::Struct< ").Some? {
      TemplateWord(s, "::DBus::Struct<", After(s, "::DBus::Struct< ").value);
    }
  }

  lemma TemplateWord(s: string, w: string, rest: string)
    requires s == (w + " ") + rest && ' ' !in w && ',' !in w
    ensures Word(s) == w
  {
    assert s == w + (" " + rest);
    WordOf(w, " " + rest);
  }

  lemma TemplatesUnnamed()
    ensures SigNamed("std::vector<") == "" && SigNamed("std::map<") == "" && SigNamed("::DBus::Struct<") == ""
  {
  }

  lemma WordRead(s: string, sig: string)
    requires SigNamed(Word(s)) == sig && sig != ""
    ensures ReadName(s) == Some((sig, s[|Word(s)|..]))
  {
    hide SigNamed, Word, After;
    Templates(s);
    TemplatesUnnamed();
  }

  lemma AtomRead(c: char, r: string)
    requires (BasicCode(c) || c == 'v') && Ends(r)
    ensures ReadName(AtomName(c) + r) == Some(([c], r))
  {
    hide AtomName, Word, After, SigNamed, ReadName;
    OneWord(c);
    WordOf(AtomName(c), r);
    WordRead(AtomName(c) + r, [c]);
    assert (AtomName(c) + r)[|AtomName(c)|..] == r;
  }

  lemma VectorRead(elem: string, sig: string, r: string)
    requires ReadName(elem + (" >" + r)) == Some((sig, " >" + r))
    ensures ReadName("std::vector< " + (elem + (" >" + r))) == Some(("a" + sig, r))
  {
    AfterWord("std::vector< ", elem + (" >" + r));
    AfterWord(" >", r);
    hide After, Word;
  }

  lemma MapUnfolds(s: string, inner: string, keySig: string, rest: string, mid: string, valSig: string, tail: string,
                   end: string)
    requires After(s, "std::vector< ") == None && After(s, "std::map< ") == Some(inner)
    requires ReadName(inner) == Some((keySig, rest)) && After(rest, ", ") == Some(mid)
    requires ReadName(mid) == Some((valSig, tail)) && After(tail, " >") == Some(end)
    ensures ReadName(s) == Some(("a{" + keySig + valSig + "}", end))
  {
    hide After, Word, SigNamed;
  }

  lemma MapRead(key: string, val: string, keySig: string, valSig: string, r: string)
    requires ReadName(key + (", " + (val + (" >" + r)))) == Some((keySig, ", " + (val + (" >" + r))))
    requires ReadName(val + (" >" + r)) == Some((valSig, " >" + r))
    ensures ReadName("std::map< " + (key + (", " + (val + (" >" + r))))) == Some(("a{" + keySig + valSig + "}", r))
  {
    hide ReadName, Word;
    var inner := key + (", " + (val + (" >" + r)));
    AfterWord("std::map< ", inner);
    AfterWord(", ", val + (" >" + r));
    AfterWord(" >", r);
    Templates("std::map< " + inner);
    assert "std::map<"[5] != "std::vector<"[5];
    hide After;
    MapUnfolds("std::map< " + inner, inner, keySig, ", " + (val + (" >" + r)), val + (" >" + r), valSig, " >" + r, r);
  }

  lemma StructRead(members: string, sigs: string, r: string)
    requires ReadNames(members + (" >" + r)) == Some((sigs, r))
    ensures ReadName("::DBus::Struct< " + (members + (" >" + r))) == Some(("(" + sigs + ")", r))
  {
    var inner := members + (" >" + r);
    AfterWord("::DBus::Struct< ", inner);
    Templates("::DBus::Struct< " + inner);
    assert "::DBus::Struct<"[0] != "std::vector<"[0] && "::DBus::Struct<"[0] != "std::map<"[0];
    hide After, Word, ReadNames;
  }

  /** From the text of a type its signature is read back, and nothing more is taken. */
  lemma {:induction false} NameRead(t: Type, r: string)
    requires Valid(t) && Ends(r)
    ensures ReadName(Text(t) + r) == Some((Sig(t), r))
    decreases t
  {
    hide ReadName, ReadNames, AtomName;
    match t
    case Basic(c) => AtomRead(c, r);
    case Variant => AtomRead('v', r);
    case Vector(e) =>
      NameRead(e, " >" + r);
      VectorRead(Text(e), Sig(e), r);
      TextOfVector(e, r);
    case Map(k, v) =>
      NameRead(k, ", " + (Text(v) + (" >" + r)));
      NameRead(v, " >" + r);
      MapRead(Text(k), Text(v), Sig(k), Sig(v), r);
      TextOfMap(k, v, r);
    case Struct(fs) =>
      NamesRead(fs, r);
      StructRead(TextAll(fs), SigAll(fs), r);
      TextOfStruct(fs, r);
  }

  lemma TextOfVector(e: Type, r: string)
    ensures Text(Vector(e)) + r == "std::vector< " + (Text(e) + (" >" + r))
  {
    hide AtomName;
    assert Text(Vector(e)) == "std::vector< " + Text(e) + " >";
    hide Text;
    assert ("std::vector< " + Text(e) + " >") + r == "std::vector< " + (Text(e) + (" >" + r));
  }

  lemma TextOfMap(k: Type, v: Type, r: string)
    ensures Text(Map(k, v)) + r == "std::map< " + (Text(k) + (", " + (Text(v) + (" >" + r))))
  {
    hide AtomName;
    assert Text(Map(k, v)) == "std::map< " + (Text(k) + ", " + Text(v)) + " >";
    hide Text;
    assert ("std::map< " + (Text(k) + ", " + Text(v)) + " >") + r
        == "std::map< " + (Text(k) + (", " + (Text(v) + (" >" + r))));
  }

  lemma TextOfStruct(fs: seq<Type>, r: string)
    ensures Text(Struct(fs)) + r == "::DBus::Struct< " + (TextAll(fs) + (" >" + r))
  {
    hide AtomName;
    assert Text(Struct(fs)) == "::DBus::Struct< " + TextAll(fs) + " >";
    hide Text, TextAll;
    assert ("::DBus::Struct< " + TextAll(fs) + " >") + r == "::DBus::Struct< " + (TextAll(fs) + (" >" + r));
  }

  lemma LastName(first: string, sig: string, r: string)
    requires ReadName(first + (" >" + r)) == Some((sig, " >" + r))
    ensures ReadNames(first + (" >" + r)) == Some((sig, r))
  {
    AfterWord(" >", r);
    hide After, ReadName;
  }

  lemma NextName(first: string, sig: string, others: string, sigs: string, r: string)
    requires ReadName(first + (", " + others)) == Some((sig, ", " + others)) && ReadNames(others) == Some((sigs, r))
    ensures ReadNames(first + (", " + others)) == Some((sig + sigs, r))
  {
    AfterWord(", ", others);
    assert (", " + others)[0] != " >"[0];
    assert After(", " + others, " >") == None;
    hide After, ReadName;
  }

  lemma {:induction false} NamesRead(fs: seq<Type>, r: string)
    requires AllValid(fs) && fs != []
    ensures ReadNames(TextAll(fs) + (" >" + r)) == Some((SigAll(fs), r))
    decreases fs
  {
    hide ReadName, ReadNames;
    ListTexts(fs, " >" + r);
    if |fs| == 1 {
      NameRead(fs[0], " >" + r);
      hide Text, Sig, TextAll, SigAll;
      LastName(Text(fs[0]), Sig(fs[0]), r);
    } else {
      var others := TextAll(fs[1..]) + (" >" + r);
      NamesRead(fs[1..], r);
      NameRead(fs[0], ", " + others);
      hide Text, Sig, TextAll, SigAll;
      NextName(Text(fs[0]), Sig(fs[0]), others, SigAll(fs[1..]), r);
    }
  }

  lemma ListTexts(fs: seq<Type>, tail: string)
    requires fs != []
    ensures |fs| == 1 ==> TextAll(fs) == Text(fs[0]) && SigAll(fs) == Sig(fs[0])
    ensures |fs| > 1 ==> TextAll(fs) + tail == Text(fs[0]) + (", " + (TextAll(fs[1..]) + tail))
    ensures |fs| > 1 ==> SigAll(fs) == Sig(fs[0]) + SigAll(fs[1..])
  {
    ListParts(fs);
    hide Text, Sig, TextAll, SigAll;
    assert Sig(fs[0]) + "" == Sig(fs[0]);
    Regroup(Text(fs[0]) + ", ", TextAll(fs[1..]), tail);
    Regroup(Text(fs[0]), ", ", TextAll(fs[1..]) + tail);
  }

  /** The text that the generators write for a signature is read as that very signature. */
  lemma CompiledRead(t: Type)
    requires Valid(t)
    ensures ReadName(Compiled(Sig(t))) == Some((Sig(t), ""))
  {
    CompilesToText(t);
    NameRead(t, "");
    assert Text(t) + "" == Text(t);
    hide ReadName;
  }
}
