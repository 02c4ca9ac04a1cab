/**
 What a value looks like in a message, part by part: which texts, which elements, which entries in which
 order; and what reading a container makes of its parts.
 */
module WireForm {
  import opened Types
  import opened Wire
  import opened Ordering
  import opened Marshal

  // ---------- basic values ----------

  /** Of a text everything before its first NUL is passed on. */
  lemma {:induction false} CutAtNul(s: string)
    ensures UpToNul(s) <= s && '\0' !in UpToNul(s)
    ensures UpToNul(s) != s ==> s[|UpToNul(s)|] == '\0'
    decreases |s|
  {
    if s != "" && s[0] != '\0' {
      CutAtNul(s[1..]);
      assert s == [s[0]] + s[1..] && UpToNul(s) == [s[0]] + UpToNul(s[1..]);
    }
  }

  /** How many bits an integer of the type has, and whether one of them is the sign. */
  function Width(code: char): (nat, bool) {
    match code
    case 'y' => (8, false)
    case 'b' => (1, false)
    case 'n' => (16, true)
    case 'q' => (16, false)
    case 'i' => (32, true)
    case 'u' => (32, false)
    case 'x' => (64, true)
    case 't' => (64, false)
    case _ => (0, false)
  }

  function Pow2(n: nat): nat {
    if n == 0 then 1 else 2 * Pow2(n - 1)
  }

  lemma Powers()
    ensures Pow2(1) == 2 && Pow2(7) == 0x80 && Pow2(8) == 0x100
    ensures Pow2(15) == 0x8000 && Pow2(16) == 0x1_0000
    ensures Pow2(31) == 0x8000_0000 && Pow2(32) == 0x1_0000_0000
    ensures Pow2(63) == 0x8000_0000_0000_0000 && Pow2(64) == 0x1_0000_0000_0000_0000
  {
    assert Pow2(1) == 2 && Pow2(7) == 0x80;
    hide Pow2;
    PowerTwice(1, 7, 8);
    PowerTwice(8, 7, 15);
    PowerTwice(8, 8, 16);
    PowerTwice(16, 15, 31);
    PowerTwice(16, 16, 32);
    PowerTwice(32, 31, 63);
    PowerTwice(32, 32, 64);
  }

  lemma {:induction false} PowerTwice(a: nat, b: nat, c: nat)
    requires c == a + b
    ensures Pow2(c) == Pow2(a) * Pow2(b)
    decreases a
  {
    if a > 0 {
      PowerTwice(a - 1, b, c - 1);
      Doubled(Pow2(a - 1), Pow2(b));
    }
  }

  lemma Doubled(m: nat, n: nat)
    ensures (2 * m) * n == 2 * (m * n)
  {
  }

  /** The integers of a type are those that fit its bits. */
  lemma Widths(n: int, code: char)
    requires Width(code).0 > 0
    ensures var (bits, signed) := Width(code);
            InRange(n, code) <==> 0 <= (if signed then n + Pow2(bits - 1) else n) < Pow2(bits)
  {
    Powers();
    hide Pow2;
  }

  // ---------- the keys of a map ----------

  /** A smaller key, as the key's own C++ type compares. */
  ghost predicate Smaller(a: Atom, b: Atom) {
    || (a.Num? && b.Num? && a.n < b.n)
    || (a.Float? && b.Float? && a.r < b.r)
    || (a.Str? && b.Str? && (a.s < b.s || exists k: nat :: DiffersAt(a.s, b.s, k)))
  }

  lemma SmallerIff(a: Atom, b: Atom, code: char)
    requires Holds(code, a) && Holds(code, b)
    ensures AtomLess(a, b) <==> Smaller(a, b)
  {
    if a.Str? && b.Str? {
      StringLessIff(a.s, b.s);
    }
    hide StringLess, DiffersAt;
  }

  /** The keys of a map come in ascending order, each once. */
  lemma KeysAscend(k: Type, e: Type, v: Value)
    requires Valid(Map(k, e)) && HasType(v, Map(k, e))
    ensures var keys := KeysOf(v);
            && |keys| == |v.entries| && (forall key :: key in keys <==> key in v.entries)
            && forall i, j :: 0 <= i < j < |keys| ==> Smaller(keys[i], keys[j]) && keys[i] != keys[j]
  {
    AtomLessStrictTotal();
    InOrderVisits(AtomLess, v.entries.Keys);
    var keys := KeysOf(v);
    assert |v.entries.Keys| == |v.entries|;
    hide StrictTotal, AtomLess, Smaller, InOrder;
    forall i, j | 0 <= i < j < |keys| ensures Smaller(keys[i], keys[j]) && keys[i] != keys[j] {
      assert HasType(Scalar(keys[i]), k) && HasType(Scalar(keys[j]), k);
      SmallerIff(keys[i], keys[j], k.code);
    }
  }

  // ---------- what is appended ----------

  lemma {:induction false} ElemAt(e: Type, vs: seq<Value>, i: nat)
    requires i < |vs| && forall x | x in vs :: HasType(x, e)
    ensures ToTrees(e, vs)[i] == ToTree(e, vs[i])
    decreases i
  {
    if i > 0 {
      ElemAt(e, vs[1..], i - 1);
    }
  }

  lemma {:induction false} FieldAt(fs: seq<Type>, vs: seq<Value>, i: nat)
    requires i < |fs| == |vs| && forall j | 0 <= j < |fs| :: HasType(vs[j], fs[j])
    ensures ToFields(fs, vs)[i] == ToTree(fs[i], vs[i])
    decreases i
  {
    if i > 0 {
      FieldAt(fs[1..], vs[1..], i - 1);
    }
  }

  lemma {:induction false} PairAt(k: Type, e: Type, m: map<Atom, Value>, keys: seq<Atom>, i: nat)
    requires forall key | key in keys :: key in m && HasType(Scalar(key), k) && HasType(m[key], e)
    requires i < |keys|
    ensures ToEntries(k, e, m, keys)[i]
         == Node(EntryKind, "", [ToTree(k, Scalar(keys[i])), ToTree(e, m[keys[i]])])
    decreases i
  {
    if i > 0 {
      PairAt(k, e, m, keys[1..], i - 1);
    }
  }

  /** Basic values and variants as they are, but for text, which is cut at its first NUL. */
  lemma AtomForm(c: char, v: Value)
    requires HasType(v, Basic(c))
    ensures ToTree(Basic(c), v).Leaf? && ToTree(Basic(c), v).code == c
    ensures !v.atom.Str? ==> ToTree(Basic(c), v).atom == v.atom
    ensures v.atom.Str? ==>
              var w := ToTree(Basic(c), v).atom;
              && w.Str? && w.s <= v.atom.s && '\0' !in w.s && (w.s != v.atom.s ==> v.atom.s[|w.s|] == '\0')
  {
    if v.atom.Str? {
      CutAtNul(v.atom.s);
    }
  }

  lemma VariantForm(v: Value)
    requires HasType(v, Variant)
    ensures ToTree(Variant, v) == Node(VariantKind, TreeSig(v.content[0]), [v.content[0]])
  {
    assert v.content == [v.content[0]];
  }

  /** The elements of a vector in their order, under the signature of their type. */
  lemma VectorForm(e: Type, v: Value)
    requires HasType(v, Vector(e))
    ensures var w := ToTree(Vector(e), v);
            && w.Node? && w.kind == ArrayKind && w.sig == Sig(e) && |w.children| == |v.elems|
            && forall i :: 0 <= i < |v.elems| ==> HasType(v.elems[i], e) && w.children[i] == ToTree(e, v.elems[i])
  {
    forall i | 0 <= i < |v.elems| ensures ToTrees(e, v.elems)[i] == ToTree(e, v.elems[i]) {
      ElemAt(e, v.elems, i);
    }
  }

  /** The members of a struct in their order. */
  lemma StructForm(fs: seq<Type>, v: Value)
    requires HasType(v, Struct(fs))
    ensures var w := ToTree(Struct(fs), v);
            && w.Node? && w.kind == StructKind && w.sig == "" && |w.children| == |fs|
            && forall i :: 0 <= i < |fs| ==> w.children[i] == ToTree(fs[i], v.fields[i])
  {
    forall i | 0 <= i < |fs| ensures ToFields(fs, v.fields)[i] == ToTree(fs[i], v.fields[i]) {
      FieldAt(fs, v.fields, i);
    }
  }

  /** The entries of a map, key and value, in ascending order of the keys. */
  lemma MapForm(k: Type, e: Type, v: Value) returns (keys: seq<Atom>)
    requires Valid(Map(k, e)) && HasType(v, Map(k, e))
    ensures |keys| == |v.entries| && forall key :: key in keys <==> key in v.entries
    ensures forall i, j :: 0 <= i < j < |keys| ==> Smaller(keys[i], keys[j])
    ensures var w := ToTree(Map(k, e), v);
            && w.Node? && w.kind == ArrayKind && w.sig == "{" + Sig(k) + Sig(e) + "}" && |w.children| == |keys|
            && forall i :: 0 <= i < |keys| ==>
                 && keys[i] in v.entries && HasType(Scalar(keys[i]), k) && HasType(v.entries[keys[i]], e)
                 && w.children[i]
                    == Node(EntryKind, "", [ToTree(k, Scalar(keys[i])), ToTree(e, v.entries[keys[i]])])
  {
    keys := KeysOf(v);
    KeysAscend(k, e, v);
    hide Smaller, Sig, KeysOf;
    forall i | 0 <= i < |keys|
      ensures ToEntries(k, e, v.entries, keys)[i]
           == Node(EntryKind, "", [ToTree(k, Scalar(keys[i])), ToTree(e, v.entries[keys[i]])])
    {
      PairAt(k, e, v.entries, keys, i);
    }
  }
}
