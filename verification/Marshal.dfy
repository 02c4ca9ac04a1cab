/**
 The templates that append a C++ value to a message and extract one from it.  Extraction goes into an
 existing destination: vectors are appended to and maps are merged into, never cleared.
 */
module Marshal {
  import opened Types
  import opened Wire
  import opened Ordering
  import opened Wrappers

  datatype Value =
    | Scalar(atom: Atom)
    | VectorV(elems: seq<Value>)
    | MapV(entries: map<Atom, Value>)
    | StructV(fields: seq<Value>)
    | VariantV(content: seq<Tree>)

  /** The C++ values of a type; a variant is one that holds something. */
  predicate HasType(v: Value, t: Type)
    decreases t
  {
    match t
    case Basic(c) => v.Scalar? && Holds(c, v.atom)
    case Variant => v.VariantV? && |v.content| == 1 && WellFormed(v.content[0])
    case Vector(e) => v.VectorV? && forall x | x in v.elems :: HasType(x, e)
    case Map(k, e) =>
      v.MapV? && forall key | key in v.entries :: HasType(Scalar(key), k) && HasType(v.entries[key], e)
    case Struct(fs) =>
      v.StructV? && |v.fields| == |fs| && forall i | 0 <= i < |fs| :: HasType(v.fields[i], fs[i])
  }

  /** No text anywhere in the value contains NUL. */
  predicate Clean(v: Value) {
    match v
    case Scalar(a) => NoNul(a)
    case VectorV(xs) => forall x | x in xs :: Clean(x)
    case MapV(m) => forall key | key in m :: NoNul(key) && Clean(m[key])
    case StructV(xs) => forall x | x in xs :: Clean(x)
    case VariantV(_) => true
  }

  // ---------- appending ----------

  function UpToNul(s: string): string {
    if s == "" || s[0] == '\0' then "" else [s[0]] + UpToNul(s[1..])
  }

  /** Text is handed over as a C string. */
  function Passed(a: Atom): Atom {
    match a
    case Str(s) => Str(UpToNul(s))
    case _ => a
  }

  predicate AtomLess(a: Atom, b: Atom) {
    match (a, b)
    case (Num(m), Num(n)) => m < n
    case (Num(_), _) => true
    case (Float(_), Num(_)) => false
    case (Float(r), Float(q)) => r < q
    case (Float(_), Str(_)) => true
    case (Str(s), Str(t)) => StringLess(s, t)
    case (Str(_), _) => false
  }

  lemma AtomLessTransitive(a: Atom, b: Atom, c: Atom)
    requires AtomLess(a, b) && AtomLess(b, c)
    ensures AtomLess(a, c)
  {
    if a.Str? && b.Str? && c.Str? {
      StringLessTransitive(a.s, b.s, c.s);
    }
  }

  lemma AtomLessComparable(a: Atom, b: Atom)
    ensures AtomLess(a, b) ==> !AtomLess(b, a)
    ensures a != b ==> AtomLess(a, b) || AtomLess(b, a)
  {
    if a.Str? && b.Str? {
      StringLessAsymmetric(a.s, b.s);
      if a != b {
        StringLessTotal(a.s, b.s);
      }
    }
  }

  lemma AtomLessStrictTotal()
    ensures StrictTotal(AtomLess)
  {
    forall a, b ensures AtomLess(a, b) ==> !AtomLess(b, a) { AtomLessComparable(a, b); }
    forall a, b, c | AtomLess(a, b) && AtomLess(b, c) ensures AtomLess(a, c) { AtomLessTransitive(a, b, c); }
    forall a: Atom, b: Atom | a != b ensures AtomLess(a, b) || AtomLess(b, a) { AtomLessComparable(a, b); }
    hide AtomLess;
  }

  ghost function KeysInOrder(m: map<Atom, Value>): seq<Atom> {
    AtomLessStrictTotal();
    InOrder(AtomLess, m.Keys)
  }

  function EntrySig(k: Type, e: Type): string {
    "{" + Sig(k) + Sig(e) + "}"
  }

  /** The tree that `iter << v` appends. */
  ghost function ToTree(t: Type, v: Value): Tree
    requires HasType(v, t)
    decreases t, 2, 0
  {
    match t
    case Basic(c) => Leaf(c, Passed(v.atom))
    case Variant => Node(VariantKind, TreeSig(v.content[0]), v.content)
    case Vector(e) => Node(ArrayKind, Sig(e), ToTrees(e, v.elems))
    case Map(k, e) => Node(ArrayKind, EntrySig(k, e), ToEntries(k, e, v.entries, KeysOf(v)))
    case Struct(fs) => Node(StructKind, "", ToFields(fs, v.fields))
  }

  ghost function KeysOf(v: Value): (keys: seq<Atom>)
    requires v.MapV?
    ensures forall key :: key in keys <==> key in v.entries
  {
    AtomLessStrictTotal();
    InOrderVisits(AtomLess, v.entries.Keys);
    KeysInOrder(v.entries)
  }

  ghost function ToTrees(e: Type, vs: seq<Value>): (ts: seq<Tree>)
    requires forall x | x in vs :: HasType(x, e)
    ensures |ts| == |vs|
    decreases e, 3, |vs|
  {
    if vs == [] then [] else [ToTree(e, vs[0])] + ToTrees(e, vs[1..])
  }

  ghost function ToEntries(k: Type, e: Type, m: map<Atom, Value>, keys: seq<Atom>): (ts: seq<Tree>)
    requires forall key | key in keys :: key in m && HasType(Scalar(key), k) && HasType(m[key], e)
    ensures |ts| == |keys|
    decreases Map(k, e), 1, |keys|
  {
    if keys == [] then []
    else [Node(EntryKind, "", [ToTree(k, Scalar(keys[0])), ToTree(e, m[keys[0]])])] + ToEntries(k, e, m, keys[1..])
  }

  ghost function ToFields(fs: seq<Type>, vs: seq<Value>): (ts: seq<Tree>)
    requires |fs| == |vs| && forall i | 0 <= i < |fs| :: HasType(vs[i], fs[i])
    ensures |ts| == |fs|
    decreases fs, 0, 0
  {
    if fs == [] then [] else [ToTree(fs[0], vs[0])] + ToFields(fs[1..], vs[1..])
  }

  // ---------- extracting ----------

  /** A default-constructed destination: nothing to append to, nothing to merge into. */
  const FRESH := StructV([])

  function Elems(v: Value): seq<Value> {
    if v.VectorV? then v.elems else []
  }

  function Entries(v: Value): map<Atom, Value> {
    if v.MapV? then v.entries else map[]
  }

  function Field(v: Value, i: nat): Value {
    if v.StructV? && i < |v.fields| then v.fields[i] else FRESH
  }

  predicate IsArray(w: Tree) {
    w.Node? && w.kind == ArrayKind
  }

  predicate IsDict(w: Tree) {
    IsArray(w) && w.sig != "" && w.sig[0] == '{'
  }

  /** What `iter >> dest` leaves in the destination when the iterator stands on `w`; None is a throw. */
  function ReadTree(t: Type, dest: Value, w: Tree): Option<Value>
    decreases t, 2, 0
  {
    match t
    case Basic(c) => if w.Leaf? && w.code == c then Some(Scalar(w.atom)) else None
    case Variant => if w.Node? && w.kind == VariantKind then Some(VariantV(w.children)) else None
    case Vector(e) =>
      if !IsArray(w) || (e == Basic('y') && w.sig != "y") then None
      else (match ReadElems(e, w.children)
            case None => None
            case Some(xs) => Some(VectorV(Elems(dest) + xs)))
    case Map(k, e) =>
      if !IsDict(w) then None
      else (match ReadEntries(k, e, w.children, Entries(dest))
            case None => None
            case Some(m) => Some(MapV(m)))
    case Struct(fs) =>
      if !w.Node? then None
      else (match ReadFields(fs, dest, 0, w.children)
            case None => None
            case Some(xs) => Some(StructV(xs)))
  }

  function ReadElems(e: Type, ws: seq<Tree>): (r: Option<seq<Value>>)
    ensures r.Some? ==> |r.value| == |ws|
    decreases e, 3, |ws|
  {
    if ws == [] then Some([])
    else
      match (ReadTree(e, FRESH, ws[0]), ReadElems(e, ws[1..]))
      case (Some(x), Some(xs)) => Some([x] + xs)
      case _ => None
  }

  /** Entry after entry, a later one replacing an earlier one of the same key. */
  function ReadEntries(k: Type, e: Type, ws: seq<Tree>, into: map<Atom, Value>): Option<map<Atom, Value>>
    decreases Map(k, e), 1, |ws|
  {
    if ws == [] then Some(into)
    else if !ws[0].Node? || |ws[0].children| < 2 then None
    else
      match (ReadTree(k, FRESH, ws[0].children[0]), ReadTree(e, FRESH, ws[0].children[1]))
      case (Some(Scalar(key)), Some(x)) => ReadEntries(k, e, ws[1..], into[key := x])
      case _ => None
  }

  function ReadFields(fs: seq<Type>, dest: Value, i: nat, ws: seq<Tree>): (r: Option<seq<Value>>)
    ensures r.Some? ==> |r.value| == |fs|
    decreases fs, 0, 0
  {
    if fs == [] then Some([])
    else if ws == [] then None
    else
      match (ReadTree(fs[0], Field(dest, i), ws[0]), ReadFields(fs[1..], dest, i + 1, ws[1..]))
      case (Some(x), Some(xs)) => Some([x] + xs)
      case _ => None
  }

  // ---------- messages of an expected signature ----------

  /** The tree has the shape that type `t` expects. */
  predicate Typed(w: Tree, t: Type)
    decreases t
  {
    match t
    case Basic(c) => w.Leaf? && w.code == c && Holds(c, w.atom) && NoNul(w.atom)
    case Variant => w.Node? && w.kind == VariantKind && WellFormed(w)
    case Vector(e) => IsArray(w) && w.sig == Sig(e) && forall x | x in w.children :: Typed(x, e)
    case Map(k, e) =>
      IsArray(w) && w.sig == EntrySig(k, e)
      && forall x | x in w.children ::
           x.Node? && x.kind == EntryKind && x.sig == "" && |x.children| == 2
           && Typed(x.children[0], k) && Typed(x.children[1], e)
    case Struct(fs) =>
      w.Node? && w.kind == StructKind && w.sig == "" && |w.children| == |fs|
      && forall i | 0 <= i < |fs| :: Typed(w.children[i], fs[i])
  }

  lemma {:induction false} TypedWellFormed(w: Tree, t: Type)
    requires Valid(t) && Typed(w, t)
    ensures WellFormed(w) && TreeSig(w) == Sig(t)
    decreases t
  {
    match t
    case Basic(_) =>
    case Variant =>
    case Vector(e) =>
      forall x | x in w.children ensures WellFormed(x) && TreeSig(x) == Sig(e) {
        TypedWellFormed(x, e);
      }
    case Map(k, e) =>
      forall x | x in w.children ensures WellFormed(x) && TreeSig(x) == EntrySig(k, e) {
        TypedWellFormed(x.children[0], k);
        TypedWellFormed(x.children[1], e);
        TwoSigs(x.children);
        Regroup("{", Sig(k), Sig(e));
      }
    case Struct(fs) =>
      forall i | 0 <= i < |fs| ensures WellFormed(w.children[i]) && TreeSig(w.children[i]) == Sig(fs[i]) {
        TypedWellFormed(w.children[i], fs[i]);
      }
      SigsMatch(w.children, fs);
  }

  lemma TwoSigs(ws: seq<Tree>)
    requires |ws| == 2
    ensures TreeSigs(ws) == TreeSig(ws[0]) + TreeSig(ws[1])
  {
    assert ws[1..] == [ws[1]] && ws[1..][1..] == [];
    assert TreeSigs(ws[1..]) == TreeSig(ws[1]) + "" == TreeSig(ws[1]);
  }

  lemma {:induction false} SigsMatch(ws: seq<Tree>, fs: seq<Type>)
    requires |ws| == |fs| && forall i | 0 <= i < |fs| :: TreeSig(ws[i]) == Sig(fs[i])
    ensures TreeSigs(ws) == SigAll(fs)
    decreases |ws|
  {
    if ws != [] {
      forall i | 0 <= i < |fs| - 1 ensures TreeSig(ws[1..][i]) == Sig(fs[1..][i]) {
        assert TreeSig(ws[i + 1]) == Sig(fs[i + 1]);
      }
      SigsMatch(ws[1..], fs[1..]);
    }
  }

  // ---------- what is appended is well-typed ----------

  lemma {:induction false} UpToNulClean(s: string)
    ensures '\0' !in UpToNul(s)
    ensures '\0' !in s ==> UpToNul(s) == s
    decreases |s|
  {
    if s != "" && s[0] != '\0' {
      UpToNulClean(s[1..]);
    }
  }

  /** The appended tree has exactly the shape, and the signature, of the value's type. */
  lemma {:induction false} ToTreeTyped(t: Type, v: Value)
    requires Valid(t) && HasType(v, t)
    ensures Typed(ToTree(t, v), t)
    ensures WellFormed(ToTree(t, v)) && TreeSig(ToTree(t, v)) == Sig(t)
    decreases t, 2, 0
  {
    match t {
      case Basic(_) =>
        if v.atom.Str? {
          UpToNulClean(v.atom.s);
        }
      case Variant =>
      case Vector(e) => ToTreesTyped(e, v.elems);
      case Map(k, e) => ToEntriesTyped(k, e, v.entries, KeysOf(v));
      case Struct(fs) => ToFieldsTyped(fs, v.fields);
    }
    TypedWellFormed(ToTree(t, v), t);
  }

  lemma {:induction false} ToTreesTyped(e: Type, vs: seq<Value>)
    requires Valid(e) && forall x | x in vs :: HasType(x, e)
    ensures forall w | w in ToTrees(e, vs) :: Typed(w, e)
    decreases e, 3, |vs|
  {
    if vs != [] {
      ToTreeTyped(e, vs[0]);
      ToTreesTyped(e, vs[1..]);
    }
  }

  lemma {:induction false} ToEntriesTyped(k: Type, e: Type, m: map<Atom, Value>, keys: seq<Atom>)
    requires Valid(k) && Valid(e)
    requires forall key | key in keys :: key in m && HasType(Scalar(key), k) && HasType(m[key], e)
    ensures forall x | x in ToEntries(k, e, m, keys) ::
              x.Node? && x.kind == EntryKind && x.sig == "" && |x.children| == 2
              && Typed(x.children[0], k) && Typed(x.children[1], e)
    decreases Map(k, e), 1, |keys|
  {
    if keys != [] {
      ToTreeTyped(k, Scalar(keys[0]));
      ToTreeTyped(e, m[keys[0]]);
      ToEntriesTyped(k, e, m, keys[1..]);
    }
  }

  lemma {:induction false} ToFieldsTyped(fs: seq<Type>, vs: seq<Value>)
    requires |fs| == |vs| && forall i | 0 <= i < |fs| :: HasType(vs[i], fs[i])
    requires AllValid(fs)
    ensures forall i | 0 <= i < |fs| :: Typed(ToFields(fs, vs)[i], fs[i])
    decreases fs, 0, 0
  {
    if fs != [] {
      ToTreeTyped(fs[0], vs[0]);
      ToFieldsTyped(fs[1..], vs[1..]);
      forall i | 0 <= i < |fs| ensures Typed(ToFields(fs, vs)[i], fs[i]) {
        if i > 0 {
          assert ToFields(fs, vs)[i] == ToFields(fs[1..], vs[1..])[i - 1];
        }
      }
    }
  }

  // ---------- a message of the expected signature is read without a throw ----------

  /** Reading never throws, and brings no NUL into the destination. */
  lemma {:induction false} ReadSucceeds(t: Type, dest: Value, w: Tree)
    requires Valid(t) && Typed(w, t)
    ensures ReadTree(t, dest, w).Some?
    ensures Clean(dest) ==> Clean(ReadTree(t, dest, w).value)
    decreases t, 2, 0
  {
    match t
    case Basic(_) =>
    case Variant =>
    case Vector(e) => ReadElemsSucceeds(e, w.children);
    case Map(k, e) => ReadEntriesSucceeds(k, e, w.children, Entries(dest));
    case Struct(fs) => ReadFieldsSucceeds(fs, dest, 0, w.children);
  }

  lemma {:induction false} ReadElemsSucceeds(e: Type, ws: seq<Tree>)
    requires Valid(e) && forall x | x in ws :: Typed(x, e)
    ensures ReadElems(e, ws).Some?
    ensures forall x | x in ReadElems(e, ws).value :: Clean(x)
    decreases e, 3, |ws|
  {
    if ws != [] {
      ReadSucceeds(e, FRESH, ws[0]);
      ReadElemsSucceeds(e, ws[1..]);
    }
  }

  ghost predicate CleanMap(m: map<Atom, Value>) {
    forall key | key in m :: NoNul(key) && Clean(m[key])
  }

  lemma {:induction false} ReadEntriesSucceeds(k: Type, e: Type, ws: seq<Tree>, into: map<Atom, Value>)
    requires Valid(Map(k, e))
    requires forall x | x in ws ::
               x.Node? && |x.children| == 2 && Typed(x.children[0], k) && Typed(x.children[1], e)
    ensures ReadEntries(k, e, ws, into).Some?
    ensures CleanMap(into) ==> CleanMap(ReadEntries(k, e, ws, into).value)
    decreases Map(k, e), 1, |ws|
  {
    if ws != [] {
      ReadSucceeds(k, FRESH, ws[0].children[0]);
      ReadSucceeds(e, FRESH, ws[0].children[1]);
      var key := ReadTree(k, FRESH, ws[0].children[0]).value.atom;
      var x := ReadTree(e, FRESH, ws[0].children[1]).value;
      ReadEntriesSucceeds(k, e, ws[1..], into[key := x]);
    }
  }

  lemma {:induction false} ReadFieldsSucceeds(fs: seq<Type>, dest: Value, i: nat, ws: seq<Tree>)
    requires AllValid(fs) && |ws| == |fs| && forall j | 0 <= j < |fs| :: Typed(ws[j], fs[j])
    ensures ReadFields(fs, dest, i, ws).Some?
    ensures Clean(dest) ==> forall x | x in ReadFields(fs, dest, i, ws).value :: Clean(x)
    decreases fs, 0, 0
  {
    if fs != [] {
      ReadSucceeds(fs[0], Field(dest, i), ws[0]);
      forall j | 0 <= j < |fs| - 1 ensures Typed(ws[1..][j], fs[1..][j]) {
        assert Typed(ws[j + 1], fs[j + 1]);
      }
      ReadFieldsSucceeds(fs[1..], dest, i + 1, ws[1..]);
    }
  }

  // ---------- what is read is a value of the type ----------

  predicate Destination(dest: Value, t: Type) {
    dest == FRESH || HasType(dest, t)
  }

  /** Whatever was in the destination, and whether or not the value was sent by this library. */
  lemma {:induction false} ReadTyped(t: Type, dest: Value, w: Tree)
    requires Valid(t) && Typed(w, t) && Destination(dest, t)
    ensures ReadTree(t, dest, w).Some? && HasType(ReadTree(t, dest, w).value, t)
    decreases t, 2, 0
  {
    ReadSucceeds(t, dest, w);
    match t
    case Basic(_) =>
    case Variant =>
    case Vector(e) => ReadElemsTyped(e, w.children);
    case Map(k, e) => ReadEntriesTyped(k, e, w.children, Entries(dest));
    case Struct(fs) => ReadFieldsTyped(fs, dest, 0, w.children);
  }

  lemma {:induction false} ReadElemsTyped(e: Type, ws: seq<Tree>)
    requires Valid(e) && forall x | x in ws :: Typed(x, e)
    ensures ReadElems(e, ws).Some? && forall x | x in ReadElems(e, ws).value :: HasType(x, e)
    decreases e, 3, |ws|
  {
    if ws != [] {
      ReadTyped(e, FRESH, ws[0]);
      ReadElemsTyped(e, ws[1..]);
    }
  }

  lemma {:induction false} ReadEntriesTyped(k: Type, e: Type, ws: seq<Tree>, into: map<Atom, Value>)
    requires Valid(Map(k, e)) && HasType(MapV(into), Map(k, e))
    requires forall x | x in ws ::
               x.Node? && |x.children| == 2 && Typed(x.children[0], k) && Typed(x.children[1], e)
    ensures ReadEntries(k, e, ws, into).Some? && HasType(MapV(ReadEntries(k, e, ws, into).value), Map(k, e))
    decreases Map(k, e), 1, |ws|
  {
    if ws != [] {
      ReadTyped(k, FRESH, ws[0].children[0]);
      ReadTyped(e, FRESH, ws[0].children[1]);
      var key := ReadTree(k, FRESH, ws[0].children[0]).value.atom;
      var x := ReadTree(e, FRESH, ws[0].children[1]).value;
      ReadEntriesTyped(k, e, ws[1..], into[key := x]);
    }
  }

  lemma {:induction false} ReadFieldsTyped(fs: seq<Type>, dest: Value, i: nat, ws: seq<Tree>)
    requires AllValid(fs) && |ws| == |fs| && forall j | 0 <= j < |fs| :: Typed(ws[j], fs[j])
    requires forall j | 0 <= j < |fs| :: Destination(Field(dest, i + j), fs[j])
    ensures ReadFields(fs, dest, i, ws).Some?
    ensures forall j | 0 <= j < |fs| :: HasType(ReadFields(fs, dest, i, ws).value[j], fs[j])
    decreases fs, 0, 0
  {
    if fs != [] {
      assert Destination(Field(dest, i + 0), fs[0]);
      ReadTyped(fs[0], Field(dest, i), ws[0]);
      forall j | 0 <= j < |fs| - 1
        ensures Typed(ws[1..][j], fs[1..][j]) && Destination(Field(dest, i + 1 + j), fs[1..][j])
      {
        assert Typed(ws[j + 1], fs[j + 1]) && Destination(Field(dest, i + (j + 1)), fs[j + 1]);
      }
      ReadFieldsTyped(fs[1..], dest, i + 1, ws[1..]);
    }
  }

  // ---------- into a destination ----------

  /** A destination after a value has been read into it. */
  function Absorb(t: Type, dest: Value, v: Value): Value
    requires HasType(v, t)
    decreases t
  {
    match t
    case Basic(_) => v
    case Variant => v
    case Vector(_) => VectorV(Elems(dest) + v.elems)
    case Map(_, _) => MapV(Entries(dest) + v.entries)
    case Struct(fs) => StructV(AbsorbAll(fs, dest, 0, v.fields))
  }

  function AbsorbAll(fs: seq<Type>, dest: Value, i: nat, vs: seq<Value>): (r: seq<Value>)
    requires |fs| == |vs| && forall j | 0 <= j < |fs| :: HasType(vs[j], fs[j])
    ensures |r| == |fs|
    decreases fs
  {
    if fs == [] then [] else [Absorb(fs[0], Field(dest, i), vs[0])] + AbsorbAll(fs[1..], dest, i + 1, vs[1..])
  }

  /** No vector in the destination has elements, and no map a key that the value has not. */
  predicate Receptive(t: Type, dest: Value, v: Value)
    requires HasType(v, t)
    decreases t
  {
    match t
    case Basic(_) => true
    case Variant => true
    case Vector(_) => Elems(dest) == []
    case Map(_, _) => Entries(dest).Keys <= v.entries.Keys
    case Struct(fs) => ReceptiveAll(fs, dest, 0, v.fields)
  }

  predicate ReceptiveAll(fs: seq<Type>, dest: Value, i: nat, vs: seq<Value>)
    requires |fs| == |vs| && forall j | 0 <= j < |fs| :: HasType(vs[j], fs[j])
    decreases fs
  {
    fs != [] ==> Receptive(fs[0], Field(dest, i), vs[0]) && ReceptiveAll(fs[1..], dest, i + 1, vs[1..])
  }

  /** The destination ends up equal to the value exactly when it was receptive. */
  lemma {:induction false} AbsorbIff(t: Type, dest: Value, v: Value)
    requires HasType(v, t)
    ensures Absorb(t, dest, v) == v <==> Receptive(t, dest, v)
    decreases t
  {
    match t
    case Basic(_) =>
    case Variant =>
    case Vector(_) =>
      var a := Elems(dest) + v.elems;
      if Elems(dest) == [] {
        assert a == v.elems;
      } else {
        assert |a| > |v.elems|;
      }
    case Map(_, _) =>
      var a := Entries(dest) + v.entries;
      assert a.Keys == Entries(dest).Keys + v.entries.Keys;
      if Entries(dest).Keys <= v.entries.Keys {
        assert a == v.entries;
      }
    case Struct(fs) =>
      AbsorbAllIff(fs, dest, 0, v.fields);
  }

  lemma {:induction false} AbsorbAllIff(fs: seq<Type>, dest: Value, i: nat, vs: seq<Value>)
    requires |fs| == |vs| && forall j | 0 <= j < |fs| :: HasType(vs[j], fs[j])
    ensures AbsorbAll(fs, dest, i, vs) == vs <==> ReceptiveAll(fs, dest, i, vs)
    decreases fs
  {
    if fs != [] {
      AbsorbIff(fs[0], Field(dest, i), vs[0]);
      AbsorbAllIff(fs[1..], dest, i + 1, vs[1..]);
      assert vs == [vs[0]] + vs[1..];
      var a := AbsorbAll(fs, dest, i, vs);
      assert a[1..] == AbsorbAll(fs[1..], dest, i + 1, vs[1..]);
    }
  }

  lemma {:induction false} FreshReceptive(t: Type, v: Value)
    requires HasType(v, t)
    ensures Receptive(t, FRESH, v)
    decreases t
  {
    if t.Struct? {
      FreshReceptiveAll(t.fields, 0, v.fields);
    }
  }

  lemma {:induction false} FreshReceptiveAll(fs: seq<Type>, i: nat, vs: seq<Value>)
    requires |fs| == |vs| && forall j | 0 <= j < |fs| :: HasType(vs[j], fs[j])
    ensures ReceptiveAll(fs, FRESH, i, vs)
    decreases fs
  {
    if fs != [] {
      FreshReceptive(fs[0], vs[0]);
      FreshReceptiveAll(fs[1..], i + 1, vs[1..]);
    }
  }

  // ---------- what arrives of a value ----------

  /** What comes into a new variable: texts are cut, and of keys cut to the same text the last one wins. */
  ghost function Arriving(t: Type, v: Value): Value
    requires HasType(v, t)
    decreases t, 2, 0
  {
    match t
    case Basic(_) => Scalar(Passed(v.atom))
    case Variant => v
    case Vector(e) => VectorV(ArrivingElems(e, v.elems))
    case Map(k, e) => MapV(ArrivingEntries(e, v.entries, KeysOf(v)))
    case Struct(fs) => StructV(ArrivingFields(fs, v.fields))
  }

  ghost function ArrivingElems(e: Type, vs: seq<Value>): seq<Value>
    requires forall x | x in vs :: HasType(x, e)
    decreases e, 3, |vs|
  {
    if vs == [] then [] else [Arriving(e, vs[0])] + ArrivingElems(e, vs[1..])
  }

  ghost function ArrivingEntries(e: Type, m: map<Atom, Value>, keys: seq<Atom>): map<Atom, Value>
    requires forall key | key in keys :: key in m && HasType(m[key], e)
    decreases e, 3, |keys|
  {
    if keys == [] then map[]
    else map[Passed(keys[0]) := Arriving(e, m[keys[0]])] + ArrivingEntries(e, m, keys[1..])
  }

  ghost function ArrivingFields(fs: seq<Type>, vs: seq<Value>): (r: seq<Value>)
    requires |fs| == |vs| && forall i | 0 <= i < |fs| :: HasType(vs[i], fs[i])
    ensures |r| == |fs|
    decreases fs, 0, 0
  {
    if fs == [] then [] else [Arriving(fs[0], vs[0])] + ArrivingFields(fs[1..], vs[1..])
  }

  /** What arrives is a value of the type. */
  lemma {:induction false} ArrivingTyped(t: Type, v: Value)
    requires Valid(t) && HasType(v, t)
    ensures HasType(Arriving(t, v), t)
    decreases t, 2, 0
  {
    match t {
      case Basic(_) =>
      case Variant =>
      case Vector(e) => ArrivingElemsTyped(e, v.elems);
      case Map(k, e) => ArrivingEntriesTyped(k, e, v.entries, KeysOf(v));
      case Struct(fs) => ArrivingFieldsTyped(fs, v.fields);
    }
  }

  lemma {:induction false} ArrivingElemsTyped(e: Type, vs: seq<Value>)
    requires Valid(e) && forall x | x in vs :: HasType(x, e)
    ensures forall x | x in ArrivingElems(e, vs) :: HasType(x, e)
    decreases e, 3, |vs|
  {
    if vs != [] {
      hide Arriving, HasType;
      ArrivingTyped(e, vs[0]);
      ArrivingElemsTyped(e, vs[1..]);
    }
  }

  lemma {:induction false} ArrivingEntriesTyped(k: Type, e: Type, m: map<Atom, Value>, keys: seq<Atom>)
    requires Valid(Map(k, e))
    requires forall key | key in keys :: key in m && HasType(Scalar(key), k) && HasType(m[key], e)
    ensures forall x | x in ArrivingEntries(e, m, keys) ::
              HasType(Scalar(x), k) && HasType(ArrivingEntries(e, m, keys)[x], e)
    decreases e, 3, |keys|
  {
    if keys != [] {
      assert HasType(Scalar(Passed(keys[0])), k) by { assert HasType(Scalar(keys[0]), k); }
      hide Arriving, HasType;
      ArrivingTyped(e, m[keys[0]]);
      ArrivingEntriesTyped(k, e, m, keys[1..]);
    }
  }

  lemma {:induction false} ArrivingFieldsTyped(fs: seq<Type>, vs: seq<Value>)
    requires |fs| == |vs| && AllValid(fs) && forall i | 0 <= i < |fs| :: HasType(vs[i], fs[i])
    ensures forall i | 0 <= i < |fs| :: HasType(ArrivingFields(fs, vs)[i], fs[i])
    decreases fs, 0, 0
  {
    if fs != [] {
      hide Arriving, HasType;
      ArrivingTyped(fs[0], vs[0]);
      ArrivingFieldsTyped(fs[1..], vs[1..]);
      forall i | 0 <= i < |fs| ensures HasType(ArrivingFields(fs, vs)[i], fs[i]) {
        if i > 0 {
          assert ArrivingFields(fs, vs)[i] == ArrivingFields(fs[1..], vs[1..])[i - 1];
        }
      }
    }
  }

  // ---------- round trip ----------

  /**
   For every value and every destination: reading back what was appended brings what arrives of the value
   into the destination, whatever was in it.
   */
  lemma {:induction false} RoundTrip(t: Type, dest: Value, v: Value)
    requires Valid(t) && HasType(v, t)
    ensures HasType(Arriving(t, v), t)
    ensures ReadTree(t, dest, ToTree(t, v)) == Some(Absorb(t, dest, Arriving(t, v)))
    decreases t, 2, 0
  {
    ArrivingTyped(t, v);
    match t
    case Basic(_) =>
    case Variant =>
    case Vector(e) => ElemsRoundTrip(e, v.elems);
    case Map(k, e) => MapRoundTrip(k, e, dest, v);
    case Struct(fs) => StructRoundTrip(fs, dest, v);
  }

  lemma {:induction false} MapRoundTrip(k: Type, e: Type, dest: Value, v: Value)
    requires Valid(Map(k, e)) && HasType(v, Map(k, e)) && HasType(Arriving(Map(k, e), v), Map(k, e))
    ensures ReadTree(Map(k, e), dest, ToTree(Map(k, e), v))
         == Some(Absorb(Map(k, e), dest, Arriving(Map(k, e), v)))
    decreases Map(k, e), 1, |KeysOf(v)| + 1
  {
    EntriesRoundTrip(k, e, v.entries, KeysOf(v), Entries(dest)) by { hide ReadEntries, ToEntries; }
    hide ReadEntries, ToEntries, ArrivingEntries, KeysOf, HasType, EntrySig, Sig, Entries;
    EntrySigHead(k, e);
  }

  lemma EntrySigHead(k: Type, e: Type)
    ensures EntrySig(k, e) != "" && EntrySig(k, e)[0] == '{'
  {
    hide Sig;
  }

  lemma {:induction false} StructRoundTrip(fs: seq<Type>, dest: Value, v: Value)
    requires Valid(Struct(fs)) && HasType(v, Struct(fs)) && HasType(Arriving(Struct(fs), v), Struct(fs))
    ensures ReadTree(Struct(fs), dest, ToTree(Struct(fs), v))
         == Some(Absorb(Struct(fs), dest, Arriving(Struct(fs), v)))
    decreases Struct(fs), 1, 0
  {
    FieldsRoundTrip(fs, dest, 0, v.fields);
    hide ReadFields, ToFields, AbsorbAll, ArrivingFields;
  }

  lemma {:induction false} FreshArrival(t: Type, v: Value)
    requires Valid(t) && HasType(v, t)
    ensures ReadTree(t, FRESH, ToTree(t, v)) == Some(Arriving(t, v))
    decreases t, 3, 0
  {
    RoundTrip(t, FRESH, v);
    FreshReceptive(t, Arriving(t, v));
    AbsorbIff(t, FRESH, Arriving(t, v));
  }

  lemma {:induction false} ElemsRoundTrip(e: Type, vs: seq<Value>)
    requires Valid(e) && forall x | x in vs :: HasType(x, e)
    ensures ReadElems(e, ToTrees(e, vs)) == Some(ArrivingElems(e, vs))
    decreases e, 4, |vs|
  {
    if vs != [] {
      hide ReadTree, ToTree, HasType, Arriving;
      FreshArrival(e, vs[0]);
      ElemsRoundTrip(e, vs[1..]);
      assert ToTrees(e, vs)[1..] == ToTrees(e, vs[1..]);
    }
  }

  lemma ReadEntriesStep(k: Type, e: Type, key: Atom, v: Value, w: Tree, ws: seq<Tree>, into: map<Atom, Value>)
    requires w.Node? && |w.children| == 2
    requires ReadTree(k, FRESH, w.children[0]) == Some(Scalar(key))
    requires ReadTree(e, FRESH, w.children[1]) == Some(v)
    ensures ReadEntries(k, e, [w] + ws, into) == ReadEntries(k, e, ws, into[key := v])
  {
    hide ReadTree;
    assert ([w] + ws)[1..] == ws;
  }

  lemma FirstOver(into: map<Atom, Value>, key: Atom, x: Value, rest: map<Atom, Value>)
    ensures into + (map[key := x] + rest) == into[key := x] + rest
  {
  }

  lemma {:induction false} EntriesRoundTrip(
      k: Type, e: Type, m: map<Atom, Value>, keys: seq<Atom>, into: map<Atom, Value>)
    requires Valid(Map(k, e))
    requires forall key | key in keys :: key in m && HasType(Scalar(key), k) && HasType(m[key], e)
    ensures ReadEntries(k, e, ToEntries(k, e, m, keys), into) == Some(into + ArrivingEntries(e, m, keys))
    decreases Map(k, e), 1, |keys|
  {
    if keys == [] {
      assert into + map[] == into;
    } else {
      var key := keys[0];
      assert ReadTree(k, FRESH, ToTree(k, Scalar(key))) == Some(Scalar(Passed(key)));
      hide ReadTree, ReadEntries, ToTree, HasType, Arriving, Passed;
      FreshArrival(e, m[key]);
      var w := Node(EntryKind, "", [ToTree(k, Scalar(key)), ToTree(e, m[key])]);
      assert ToEntries(k, e, m, keys) == [w] + ToEntries(k, e, m, keys[1..]);
      var x, rest := Arriving(e, m[key]), ArrivingEntries(e, m, keys[1..]);
      assert ArrivingEntries(e, m, keys) == map[Passed(key) := x] + rest;
      hide ToEntries, ArrivingEntries;
      FirstOver(into, Passed(key), x, rest);
      ReadEntriesStep(k, e, Passed(key), x, w, ToEntries(k, e, m, keys[1..]), into);
      EntriesRoundTrip(k, e, m, keys[1..], into[Passed(key) := x]);
    }
  }

  lemma ReadFieldsStep(fs: seq<Type>, dest: Value, i: nat, ws: seq<Tree>)
    requires fs != [] && ws != []
    requires ReadTree(fs[0], Field(dest, i), ws[0]).Some? && ReadFields(fs[1..], dest, i + 1, ws[1..]).Some?
    ensures ReadFields(fs, dest, i, ws) == Some([ReadTree(fs[0], Field(dest, i), ws[0]).value]
                                                + ReadFields(fs[1..], dest, i + 1, ws[1..]).value)
  {
    hide ReadTree, Field;
  }

  lemma ToFieldsStep(fs: seq<Type>, vs: seq<Value>)
    requires |fs| == |vs| && fs != [] && forall i | 0 <= i < |fs| :: HasType(vs[i], fs[i])
    ensures var ws := ToFields(fs, vs);
            ws != [] && ws[0] == ToTree(fs[0], vs[0]) && ws[1..] == ToFields(fs[1..], vs[1..])
  {
    hide ToTree, HasType;
  }

  lemma {:induction false} FieldsRoundTrip(fs: seq<Type>, dest: Value, i: nat, vs: seq<Value>)
    requires |fs| == |vs| && AllValid(fs) && forall j | 0 <= j < |fs| :: HasType(vs[j], fs[j])
    requires forall j | 0 <= j < |fs| :: HasType(ArrivingFields(fs, vs)[j], fs[j])
    ensures ReadFields(fs, dest, i, ToFields(fs, vs)) == Some(AbsorbAll(fs, dest, i, ArrivingFields(fs, vs)))
    decreases fs, 0, 0
  {
    if fs != [] {
      var ws, all, rest := ToFields(fs, vs), ArrivingFields(fs, vs), ArrivingFields(fs[1..], vs[1..]);
      assert all[0] == Arriving(fs[0], vs[0]) && all[1..] == rest;
      hide ReadTree, ToTree, HasType, Absorb, Field, ReadFields, ToFields, Valid, Arriving, ArrivingFields;
      forall j | 0 <= j < |fs| - 1 ensures HasType(rest[j], fs[1..][j]) {
        assert rest[j] == all[j + 1];
      }
      ToFieldsStep(fs, vs);
      RoundTrip(fs[0], Field(dest, i), vs[0]);
      FieldsRoundTrip(fs[1..], dest, i + 1, vs[1..]);
      ReadFieldsStep(fs, dest, i, ws);
    }
  }

  // ---------- when a value survives ----------

  lemma PassedWholeIff(a: Atom)
    ensures NoNul(Passed(a)) && (Passed(a) == a <==> NoNul(a))
  {
    if a.Str? {
      UpToNulClean(a.s);
    }
  }

  /** Of the keys that are cut to x, the one that is appended last. */
  function Last(keys: seq<Atom>, x: Atom): (r: Option<Atom>)
    ensures r.Some? ==> r.value in keys && Passed(r.value) == x
    ensures r == None ==> forall key | key in keys :: Passed(key) != x
  {
    if keys == [] then None
    else if Last(keys[1..], x).Some? then Last(keys[1..], x)
    else if Passed(keys[0]) == x then Some(keys[0])
    else None
  }

  /** The keys that arrive are the keys cut, each with what arrives of the last value under it. */
  lemma {:induction false} LastArrives(e: Type, m: map<Atom, Value>, keys: seq<Atom>)
    requires forall key | key in keys :: key in m && HasType(m[key], e)
    ensures var arriving := ArrivingEntries(e, m, keys);
            && (forall x :: x in arriving <==> Last(keys, x).Some?)
            && forall x | x in arriving :: arriving[x] == Arriving(e, m[Last(keys, x).value])
    decreases |keys|
  {
    if keys != [] {
      hide HasType, Arriving, Passed;
      LastArrives(e, m, keys[1..]);
    }
  }

  lemma LastClean(keys: seq<Atom>, x: Atom)
    ensures Last(keys, x).Some? ==> NoNul(x)
    ensures x in keys && NoNul(x) ==> Last(keys, x).Some?
    ensures Last(keys, x).Some? && (forall key | key in keys :: NoNul(key)) ==> Last(keys, x).value == x
  {
    if Last(keys, x).Some? {
      PassedWholeIff(Last(keys, x).value);
    }
    PassedWholeIff(x);
    hide Last;
  }

  /** A key with NUL arrives as another one. */
  lemma LastOther(keys: seq<Atom>, key: Atom)
    requires key in keys
    ensures Last(keys, Passed(key)).Some?
  {
    hide Last;
  }

  /** All of a value arrives exactly when no text in it has NUL. */
  lemma {:induction false} ArrivesWholeIff(t: Type, v: Value)
    requires HasType(v, t)
    ensures Arriving(t, v) == v <==> Clean(v)
    decreases t, 2, 0
  {
    match t {
      case Basic(_) => PassedWholeIff(v.atom);
      case Variant =>
      case Vector(e) => ElemsWholeIff(e, v.elems);
      case Map(_, e) => MapWholeIff(e, v.entries, KeysOf(v));
      case Struct(fs) => FieldsWholeIff(fs, v.fields);
    }
  }

  lemma CleanAll(vs: seq<Value>)
    requires vs != []
    ensures (forall x | x in vs :: Clean(x)) <==> Clean(vs[0]) && forall x | x in vs[1..] :: Clean(x)
  {
    hide Clean;
    assert vs == [vs[0]] + vs[1..];
  }

  lemma {:induction false} ElemsWholeIff(e: Type, vs: seq<Value>)
    requires forall x | x in vs :: HasType(x, e)
    ensures ArrivingElems(e, vs) == vs <==> forall x | x in vs :: Clean(x)
    decreases e, 3, |vs|
  {
    if vs != [] {
      assert ArrivingElems(e, vs) == [Arriving(e, vs[0])] + ArrivingElems(e, vs[1..]);
      hide HasType, Arriving, Clean, ArrivingElems;
      ArrivesWholeIff(e, vs[0]);
      ElemsWholeIff(e, vs[1..]);
      SameHead(Arriving(e, vs[0]), ArrivingElems(e, vs[1..]), vs);
      CleanAll(vs);
    }
  }

  lemma {:induction false} FieldsWholeIff(fs: seq<Type>, vs: seq<Value>)
    requires |fs| == |vs| && forall i | 0 <= i < |fs| :: HasType(vs[i], fs[i])
    ensures ArrivingFields(fs, vs) == vs <==> forall x | x in vs :: Clean(x)
    decreases fs, 0, 0
  {
    if fs != [] {
      assert ArrivingFields(fs, vs) == [Arriving(fs[0], vs[0])] + ArrivingFields(fs[1..], vs[1..]);
      hide HasType, Arriving, Clean, ArrivingFields;
      forall i | 0 <= i < |fs| - 1 ensures HasType(vs[1..][i], fs[1..][i]) {
        assert HasType(vs[i + 1], fs[i + 1]);
      }
      ArrivesWholeIff(fs[0], vs[0]);
      FieldsWholeIff(fs[1..], vs[1..]);
      SameHead(Arriving(fs[0], vs[0]), ArrivingFields(fs[1..], vs[1..]), vs);
      CleanAll(vs);
    }
  }

  lemma {:induction false} MapWholeIff(e: Type, m: map<Atom, Value>, keys: seq<Atom>)
    requires (forall key :: key in keys <==> key in m) && forall key | key in keys :: HasType(m[key], e)
    ensures ArrivingEntries(e, m, keys) == m <==> forall key | key in m :: NoNul(key) && Clean(m[key])
    decreases e, 4, 0
  {
    hide HasType, Arriving, Clean, ArrivingEntries, MapSurvives, NoNul;
    ValuesWholeIff(e, m, keys);
    MapSurvivesIff(e, map[], m, keys);
    NothingBefore(e, m, keys);
    NothingAdded(ArrivingEntries(e, m, keys));
  }

  lemma {:induction false} ValuesWholeIff(e: Type, m: map<Atom, Value>, keys: seq<Atom>)
    requires (forall key :: key in keys <==> key in m) && forall key | key in keys :: HasType(m[key], e)
    ensures forall key | key in m :: Arriving(e, m[key]) == m[key] <==> Clean(m[key])
    decreases e, 3, 0
  {
    hide HasType, Arriving, Clean;
    forall key | key in m ensures Arriving(e, m[key]) == m[key] <==> Clean(m[key]) {
      ArrivesWholeIff(e, m[key]);
    }
  }

  lemma NothingAdded(m: map<Atom, Value>)
    ensures map[] + m == m
  {
  }

  /** Nothing is supplied, so every key must be its own. */
  lemma NothingBefore(e: Type, m: map<Atom, Value>, keys: seq<Atom>)
    requires (forall key :: key in keys <==> key in m) && forall key | key in keys :: HasType(m[key], e)
    ensures MapSurvives(e, map[], m, keys) <==> forall key | key in m :: NoNul(key) && Arriving(e, m[key]) == m[key]
  {
    hide HasType, Arriving, Passed, NoNul, Last;
    if forall key | key in m :: NoNul(key) {
      forall key | key in m ensures Last(keys, key) == Some(key) && Passed(key) == key {
        LastClean(keys, key);
        PassedWholeIff(key);
      }
    }
    assert forall key | key in m :: KeySurvives(e, map[], m, keys, key) ==> NoNul(key);
  }

  /**
   One key of the value, when a map is read into another.  An entry whose key has NUL is lost, and must have
   been there before; one whose key has none must be what the last entry under the cut key carries.
   */
  ghost predicate KeySurvives(e: Type, into: map<Atom, Value>, m: map<Atom, Value>, keys: seq<Atom>, key: Atom)
    requires key in m && forall k | k in keys :: k in m && HasType(m[k], e)
    decreases e, 4, 0
  {
    if NoNul(key) then Last(keys, key).Some? && Arriving(e, m[Last(keys, key).value]) == m[key]
    else key in into && into[key] == m[key]
  }

  ghost predicate MapSurvives(e: Type, into: map<Atom, Value>, m: map<Atom, Value>, keys: seq<Atom>)
    requires forall key | key in keys :: key in m && HasType(m[key], e)
    decreases e, 5, 0
  {
    && into.Keys <= m.Keys
    && forall key | key in m :: Passed(key) in m && KeySurvives(e, into, m, keys, key)
  }

  /** When the destination ends up equal to the value sent. */
  ghost predicate Survives(t: Type, dest: Value, v: Value)
    requires HasType(v, t)
    decreases t
  {
    match t
    case Basic(_) => NoNul(v.atom)
    case Variant => true
    case Vector(_) => Elems(dest) == [] && Clean(v)
    case Map(_, e) => MapSurvives(e, Entries(dest), v.entries, KeysOf(v))
    case Struct(fs) => SurvivesAll(fs, dest, 0, v.fields)
  }

  ghost predicate SurvivesAll(fs: seq<Type>, dest: Value, i: nat, vs: seq<Value>)
    requires |fs| == |vs| && forall j | 0 <= j < |fs| :: HasType(vs[j], fs[j])
    decreases fs
  {
    fs != [] ==> Survives(fs[0], Field(dest, i), vs[0]) && SurvivesAll(fs[1..], dest, i + 1, vs[1..])
  }

  lemma MapSurvivesIff(e: Type, into: map<Atom, Value>, m: map<Atom, Value>, keys: seq<Atom>)
    requires (forall key :: key in keys <==> key in m) && forall key | key in keys :: HasType(m[key], e)
    ensures into + ArrivingEntries(e, m, keys) == m <==> MapSurvives(e, into, m, keys)
  {
    var arriving := ArrivingEntries(e, m, keys);
    forall key | key in m
      ensures KeySurvives(e, into, m, keys, key)
         <==> if key in arriving then arriving[key] == m[key] else key in into && into[key] == m[key]
    {
      KeyFares(e, into, m, keys, key);
    }
    ArrivingWithin(e, m, keys);
    hide HasType, ArrivingEntries, KeySurvives, Passed;
    MapsMerge(into, arriving, m);
  }

  lemma KeyFares(e: Type, into: map<Atom, Value>, m: map<Atom, Value>, keys: seq<Atom>, key: Atom)
    requires key in keys && forall k | k in keys :: k in m && HasType(m[k], e)
    ensures KeySurvives(e, into, m, keys, key)
       <==> if key in ArrivingEntries(e, m, keys) then ArrivingEntries(e, m, keys)[key] == m[key]
            else key in into && into[key] == m[key]
  {
    LastArrives(e, m, keys);
    LastClean(keys, key);
    hide HasType, ArrivingEntries, Arriving, NoNul, Last;
  }

  lemma ArrivingWithin(e: Type, m: map<Atom, Value>, keys: seq<Atom>)
    requires (forall key :: key in keys <==> key in m) && forall key | key in keys :: HasType(m[key], e)
    ensures ArrivingEntries(e, m, keys).Keys <= m.Keys <==> forall key | key in m :: Passed(key) in m
  {
    var arriving := ArrivingEntries(e, m, keys);
    LastArrives(e, m, keys);
    hide HasType, ArrivingEntries, Arriving, Passed, Last;
    if forall key | key in m :: Passed(key) in m {
      forall x | x in arriving ensures x in m {
        assert Last(keys, x).value in m;
      }
    }
    if arriving.Keys <= m.Keys {
      forall key | key in m ensures Passed(key) in m {
        LastOther(keys, key);
        assert Passed(key) in arriving;
      }
    }
  }

  lemma MapsMerge(into: map<Atom, Value>, arriving: map<Atom, Value>, m: map<Atom, Value>)
    ensures into + arriving == m
       <==> into.Keys <= m.Keys && arriving.Keys <= m.Keys
            && forall key | key in m ::
                 if key in arriving then arriving[key] == m[key] else key in into && into[key] == m[key]
  {
    var after := into + arriving;
    assert after.Keys == into.Keys + arriving.Keys;
    assert forall key | key in after :: after[key] == if key in arriving then arriving[key] else into[key];
    if into.Keys <= m.Keys && arriving.Keys <= m.Keys
       && forall key | key in m ::
            if key in arriving then arriving[key] == m[key] else key in into && into[key] == m[key] {
      assert after.Keys == m.Keys;
    }
  }

  lemma {:induction false} AbsorbsIff(t: Type, dest: Value, v: Value)
    requires HasType(v, t) && HasType(Arriving(t, v), t)
    ensures Absorb(t, dest, Arriving(t, v)) == v <==> Survives(t, dest, v)
    decreases t
  {
    match t
    case Basic(_) => PassedWholeIff(v.atom);
    case Variant =>
    case Vector(e) =>
      ArrivesWholeIff(t, v);
      SameLength(e, v.elems);
      var all := Elems(dest) + Arriving(t, v).elems;
      if Elems(dest) == [] {
        assert all == Arriving(t, v).elems;
      } else {
        assert |all| > |v.elems|;
      }
    case Map(_, e) => MapSurvivesIff(e, Entries(dest), v.entries, KeysOf(v));
    case Struct(fs) => AbsorbsAllIff(fs, dest, 0, v.fields);
  }

  lemma {:induction false} SameLength(e: Type, vs: seq<Value>)
    requires forall x | x in vs :: HasType(x, e)
    ensures |ArrivingElems(e, vs)| == |vs|
    decreases |vs|
  {
    if vs != [] {
      SameLength(e, vs[1..]);
    }
  }

  lemma {:induction false} AbsorbsAllIff(fs: seq<Type>, dest: Value, i: nat, vs: seq<Value>)
    requires |fs| == |vs| && forall j | 0 <= j < |fs| :: HasType(vs[j], fs[j])
    requires forall j | 0 <= j < |fs| :: HasType(ArrivingFields(fs, vs)[j], fs[j])
    ensures AbsorbAll(fs, dest, i, ArrivingFields(fs, vs)) == vs <==> SurvivesAll(fs, dest, i, vs)
    decreases fs
  {
    if fs != [] {
      var all, rest := ArrivingFields(fs, vs), ArrivingFields(fs[1..], vs[1..]);
      assert all[0] == Arriving(fs[0], vs[0]) && all[1..] == rest;
      hide HasType, Absorb, Arriving, ArrivingFields, Survives, Field;
      forall j | 0 <= j < |fs| - 1 ensures HasType(rest[j], fs[1..][j]) {
        assert rest[j] == all[j + 1];
      }
      AbsorbsIff(fs[0], Field(dest, i), vs[0]);
      AbsorbsAllIff(fs[1..], dest, i + 1, vs[1..]);
      var first, more := Absorb(fs[0], Field(dest, i), all[0]), AbsorbAll(fs[1..], dest, i + 1, rest);
      assert AbsorbAll(fs, dest, i, all) == [first] + more;
      hide AbsorbAll, SurvivesAll;
      SameHead(first, more, vs);
      assert SurvivesAll(fs, dest, i, vs)
        <==> Survives(fs[0], Field(dest, i), vs[0]) && SurvivesAll(fs[1..], dest, i + 1, vs[1..]) by {
        UnfoldSurvives(fs, dest, i, vs);
      }
    }
  }

  lemma UnfoldSurvives(fs: seq<Type>, dest: Value, i: nat, vs: seq<Value>)
    requires fs != [] && |fs| == |vs| && forall j | 0 <= j < |fs| :: HasType(vs[j], fs[j])
    ensures SurvivesAll(fs, dest, i, vs)
       <==> Survives(fs[0], Field(dest, i), vs[0]) && SurvivesAll(fs[1..], dest, i + 1, vs[1..])
  {
    hide Survives;
  }

  lemma SameHead(x: Value, xs: seq<Value>, vs: seq<Value>)
    requires vs != []
    ensures [x] + xs == vs <==> x == vs[0] && xs == vs[1..]
  {
    assert vs == [vs[0]] + vs[1..] && ([x] + xs)[1..] == xs;
  }

  /**
   Exactly when a value survives, for every value and every destination.  Unless both hold a text with NUL
   it must contain none, and the destination must have nothing that the value would be appended to or
   merged into; a destination with NUL of its own could supply what the value has lost.
   */
  lemma SurvivesIff(t: Type, dest: Value, v: Value)
    requires Valid(t) && HasType(v, t)
    ensures ReadTree(t, dest, ToTree(t, v)) == Some(v) <==> Survives(t, dest, v)
    ensures Clean(dest) ==> (Survives(t, dest, v) <==> Clean(v) && Receptive(t, dest, v))
    ensures Clean(v) ==> (Survives(t, dest, v) <==> Receptive(t, dest, v))
  {
    RoundTrip(t, dest, v);
    AbsorbsIff(t, dest, v);
    if Clean(v) {
      ArrivesWholeIff(t, v);
      AbsorbIff(t, dest, v);
    } else if Clean(dest) {
      ToTreeTyped(t, v);
      ReadSucceeds(t, dest, ToTree(t, v));
    }
  }

  /** Into an empty destination, as the generated stubs mostly read, only NUL can spoil a value. */
  lemma FreshSurvivesIff(t: Type, v: Value)
    requires Valid(t) && HasType(v, t)
    ensures ReadTree(t, FRESH, ToTree(t, v)) == Some(v) <==> Clean(v)
  {
    SurvivesIff(t, FRESH, v);
    FreshReceptive(t, v);
  }

  /** A vector that is not empty before extraction keeps its elements in front. */
  lemma AppendsToVector()
    ensures var t := Vector(Basic('i'));
            var one := VectorV([Scalar(Num(1))]);
            HasType(one, t)
            && ReadTree(t, one, ToTree(t, one)) == Some(VectorV([Scalar(Num(1)), Scalar(Num(1))]))
  {
    var t := Vector(Basic('i'));
    var one := VectorV([Scalar(Num(1))]);
    RoundTrip(t, one, one);
    ArrivesWholeIff(t, one);
    assert one.elems + one.elems == [Scalar(Num(1)), Scalar(Num(1))];
  }
}
