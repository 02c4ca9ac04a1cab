/** When reading a value throws, by the value in the message alone, and what reading a container makes of its parts. */
module Extraction {
  import opened Types
  import opened Wire
  import opened Marshal
  import opened Wrappers

  /** A value from which the type can be read. */
  predicate Readable(t: Type, w: Tree)
    decreases t
  {
    match t
    case Basic(c) => TypeCode(w) == c
    case Variant => TypeCode(w) == 'v'
    case Vector(e) =>
      && TypeCode(w) == 'a' && w.Node? && (e == Basic('y') ==> w.sig == "y")
      && forall x | x in w.children :: Readable(e, x)
    case Map(k, e) =>
      && TypeCode(w) == 'a' && w.Node? && w.sig != "" && w.sig[0] == '{'
      && forall x | x in w.children ::
           TypeCode(x) == 'e' && x.Node? && |x.children| == 2
           && Readable(k, x.children[0]) && Readable(e, x.children[1])
    case Struct(fs) =>
      && w.Node? && |w.children| >= |fs|
      && forall i | 0 <= i < |fs| :: Readable(fs[i], w.children[i])
  }

  predicate ReadableAll(ts: seq<Type>, ws: seq<Tree>) {
    |ws| >= |ts| && forall i | 0 <= i < |ts| :: Readable(ts[i], ws[i])
  }

  /** A basic value is read exactly by its own type; reading any other throws. */
  lemma ReadBasicIff(c: char, dest: Value, w: Tree)
    requires BasicCode(c) && WellFormed(w)
    ensures ReadTree(Basic(c), dest, w).Some? <==> TypeCode(w) == c
    ensures TypeCode(w) == c ==> w.Leaf? && ReadTree(Basic(c), dest, w) == Some(Scalar(w.atom))
  {
  }

  /** Reading throws exactly on values that are not of the form that the type asks for. */
  lemma {:induction false} ReadIff(t: Type, dest: Value, w: Tree)
    requires Valid(t) && WellFormed(w)
    ensures ReadTree(t, dest, w).Some? <==> Readable(t, w)
    decreases t, 2, 0
  {
    match t
    case Basic(c) => ReadBasicIff(c, dest, w);
    case Variant =>
    case Vector(e) =>
      if IsArray(w) {
        ReadElemsIff(e, w.children);
      }
    case Map(k, e) =>
      if IsDict(w) {
        EntriesFormed(w);
        ReadEntriesIff(k, e, w.children, Entries(dest));
      }
    case Struct(fs) =>
      if w.Node? {
        ReadFieldsIff(fs, dest, 0, w.children);
      }
  }

  lemma {:induction false} ReadElemsIff(e: Type, ws: seq<Tree>)
    requires Valid(e) && WellFormedAll(ws)
    ensures ReadElems(e, ws).Some? <==> forall x | x in ws :: Readable(e, x)
    decreases e, 3, |ws|
  {
    if ws != [] {
      hide ReadTree, Readable, WellFormed;
      ReadIff(e, FRESH, ws[0]);
      ReadElemsIff(e, ws[1..]);
      assert forall x | x in ws :: x == ws[0] || x in ws[1..];
    }
  }

  /** The elements of a dictionary are entries of two values. */
  lemma EntriesFormed(w: Tree)
    requires WellFormed(w) && IsDict(w)
    ensures forall x | x in w.children ::
              && TypeCode(x) == 'e' && x.Node? && |x.children| == 2
              && WellFormed(x.children[0]) && WellFormed(x.children[1])
  {
    forall x | x in w.children
      ensures TypeCode(x) == 'e' && x.Node? && |x.children| == 2
              && WellFormed(x.children[0]) && WellFormed(x.children[1])
    {
      assert TreeSig(x) == w.sig && WellFormed(x);
    }
  }

  lemma {:induction false} ReadEntriesIff(k: Type, e: Type, ws: seq<Tree>, into: map<Atom, Value>)
    requires Valid(Map(k, e))
    requires forall x | x in ws ::
               TypeCode(x) == 'e' && x.Node? && |x.children| == 2
               && WellFormed(x.children[0]) && WellFormed(x.children[1])
    ensures ReadEntries(k, e, ws, into).Some?
       <==> forall x | x in ws :: Readable(k, x.children[0]) && Readable(e, x.children[1])
    decreases Map(k, e), 1, |ws|
  {
    if ws != [] {
      var key, x := ws[0].children[0], ws[0].children[1];
      ReadBasicIff(k.code, FRESH, key);
      ReadIff(e, FRESH, x);
      assert forall y | y in ws :: y == ws[0] || y in ws[1..];
      assert Readable(k, key) <==> ReadTree(k, FRESH, key).Some?;
      if Readable(k, key) && Readable(e, x) {
        var after := into[key.atom := ReadTree(e, FRESH, x).value];
        assert ReadEntries(k, e, ws, into) == ReadEntries(k, e, ws[1..], after);
        hide ReadTree, Readable, WellFormed, ReadEntries;
        ReadEntriesIff(k, e, ws[1..], after);
      } else {
        assert ReadEntries(k, e, ws, into) == None;
      }
    }
  }

  lemma {:induction false} ReadFieldsIff(fs: seq<Type>, dest: Value, i: nat, ws: seq<Tree>)
    requires AllValid(fs) && WellFormedAll(ws)
    ensures ReadFields(fs, dest, i, ws).Some? <==> ReadableAll(fs, ws)
    decreases fs, 0, 0
  {
    if fs != [] && ws != [] {
      hide ReadTree, Readable, WellFormed, Valid, Field;
      ReadIff(fs[0], Field(dest, i), ws[0]);
      ReadFieldsIff(fs[1..], dest, i + 1, ws[1..]);
      ReadableFirst(fs, ws);
    }
  }

  lemma ReadableFirst(ts: seq<Type>, ws: seq<Tree>)
    requires ts != [] && ws != []
    ensures ReadableAll(ts, ws) <==> Readable(ts[0], ws[0]) && ReadableAll(ts[1..], ws[1..])
  {
    hide Readable;
    if Readable(ts[0], ws[0]) && ReadableAll(ts[1..], ws[1..]) {
      forall i | 0 <= i < |ts| ensures Readable(ts[i], ws[i]) {
        if i > 0 {
          assert Readable(ts[1..][i - 1], ws[1..][i - 1]);
        }
      }
    }
    if ReadableAll(ts, ws) {
      forall i | 0 <= i < |ts| - 1 ensures Readable(ts[1..][i], ws[1..][i]) {
        assert Readable(ts[i + 1], ws[i + 1]);
      }
    }
  }

  // ---------- whatever is read has the type ----------

  /** Whatever message a value is read from, it is a value of the type. */
  lemma {:induction false} ReadableTyped(t: Type, dest: Value, w: Tree)
    requires Valid(t) && WellFormed(w) && Destination(dest, t) && ReadTree(t, dest, w).Some?
    ensures HasType(ReadTree(t, dest, w).value, t)
    decreases t, 2, 0
  {
    match t
    case Basic(c) =>
    case Variant =>
    case Vector(e) => ElemsTyped(e, w.children);
    case Map(k, e) =>
      EntriesFormed(w);
      EntriesTyped(k, e, w.children, Entries(dest));
    case Struct(fs) => FieldsTyped(fs, dest, 0, w.children);
  }

  lemma {:induction false} ElemsTyped(e: Type, ws: seq<Tree>)
    requires Valid(e) && WellFormedAll(ws) && ReadElems(e, ws).Some?
    ensures forall x | x in ReadElems(e, ws).value :: HasType(x, e)
    decreases e, 3, |ws|
  {
    if ws != [] {
      hide ReadTree, WellFormed, HasType;
      ReadableTyped(e, FRESH, ws[0]);
      ElemsTyped(e, ws[1..]);
    }
  }

  lemma {:induction false} EntriesTyped(k: Type, e: Type, ws: seq<Tree>, into: map<Atom, Value>)
    requires Valid(Map(k, e)) && HasType(MapV(into), Map(k, e)) && ReadEntries(k, e, ws, into).Some?
    requires forall x | x in ws ::
               x.Node? && |x.children| == 2 && WellFormed(x.children[0]) && WellFormed(x.children[1])
    ensures HasType(MapV(ReadEntries(k, e, ws, into).value), Map(k, e))
    decreases Map(k, e), 1, |ws|
  {
    if ws != [] {
      ReadableTyped(k, FRESH, ws[0].children[0]);
      ReadableTyped(e, FRESH, ws[0].children[1]);
      var key := ReadTree(k, FRESH, ws[0].children[0]).value.atom;
      var x := ReadTree(e, FRESH, ws[0].children[1]).value;
      hide ReadTree, WellFormed;
      EntriesTyped(k, e, ws[1..], into[key := x]);
    }
  }

  lemma {:induction false} FieldsTyped(fs: seq<Type>, dest: Value, i: nat, ws: seq<Tree>)
    requires AllValid(fs) && WellFormedAll(ws) && ReadFields(fs, dest, i, ws).Some?
    requires forall j | 0 <= j < |fs| :: Destination(Field(dest, i + j), fs[j])
    ensures forall j | 0 <= j < |fs| :: HasType(ReadFields(fs, dest, i, ws).value[j], fs[j])
    decreases fs, 0, 0
  {
    if fs != [] {
      hide ReadTree, WellFormed, HasType, Valid;
      assert Destination(Field(dest, i + 0), fs[0]);
      ReadableTyped(fs[0], Field(dest, i), ws[0]);
      forall j | 0 <= j < |fs| - 1 ensures Destination(Field(dest, i + 1 + j), fs[1..][j]) {
        assert Destination(Field(dest, i + (j + 1)), fs[j + 1]);
      }
      FieldsTyped(fs[1..], dest, i + 1, ws[1..]);
    }
  }

  // ---------- the parts ----------

  lemma {:induction false} ElemRead(e: Type, ws: seq<Tree>, i: nat)
    requires i < |ws| && ReadElems(e, ws).Some?
    ensures ReadTree(e, FRESH, ws[i]) == Some(ReadElems(e, ws).value[i])
    decreases i
  {
    if i > 0 {
      ElemRead(e, ws[1..], i - 1);
    }
  }

  /** The destination's elements, and then what each element of the array is read as, in their order. */
  lemma VectorRead(e: Type, dest: Value, w: Tree)
    requires ReadTree(Vector(e), dest, w).Some?
    ensures var v, before := ReadTree(Vector(e), dest, w).value, if dest.VectorV? then dest.elems else [];
            && v.VectorV? && |v.elems| == |before| + |w.children| && before <= v.elems
            && forall i :: 0 <= i < |w.children| ==>
                 ReadTree(e, FRESH, w.children[i]) == Some(v.elems[|before| + i])
  {
    forall i | 0 <= i < |w.children|
      ensures ReadTree(e, FRESH, w.children[i]) == Some(ReadElems(e, w.children).value[i])
    {
      ElemRead(e, w.children, i);
    }
    hide ReadElems;
  }

  lemma {:induction false} FieldRead(fs: seq<Type>, dest: Value, from: nat, ws: seq<Tree>, i: nat)
    requires i < |fs| && ReadFields(fs, dest, from, ws).Some?
    ensures i < |ws| && ReadTree(fs[i], Field(dest, from + i), ws[i]) == Some(ReadFields(fs, dest, from, ws).value[i])
    decreases i
  {
    if i > 0 {
      FieldRead(fs[1..], dest, from + 1, ws[1..], i - 1);
    }
  }

  /** Each member is read into the destination's member of the same place. */
  lemma StructRead(fs: seq<Type>, dest: Value, w: Tree)
    requires ReadTree(Struct(fs), dest, w).Some?
    ensures var v := ReadTree(Struct(fs), dest, w).value;
            && v.StructV? && |v.fields| == |fs| && w.Node? && |w.children| >= |fs|
            && forall i :: 0 <= i < |fs| ==>
                 ReadTree(fs[i], if dest.StructV? && i < |dest.fields| then dest.fields[i] else FRESH, w.children[i])
                 == Some(v.fields[i])
  {
    forall i | 0 <= i < |fs|
      ensures i < |w.children|
              && ReadTree(fs[i], Field(dest, i), w.children[i]) == Some(ReadFields(fs, dest, 0, w.children).value[i])
    {
      FieldRead(fs, dest, 0, w.children, i);
    }
    if |fs| > 0 {
      FieldRead(fs, dest, 0, w.children, |fs| - 1);
    }
    hide ReadFields;
  }

  lemma {:induction false} EntryRead(k: Type, e: Type, ws: seq<Tree>, last: Tree, into: map<Atom, Value>)
    requires ReadEntries(k, e, ws + [last], into).Some?
    ensures ReadEntries(k, e, ws, into).Some? && last.Node? && |last.children| >= 2
    ensures ReadTree(k, FRESH, last.children[0]).Some? && ReadTree(k, FRESH, last.children[0]).value.Scalar?
    ensures ReadTree(e, FRESH, last.children[1]).Some?
    ensures ReadEntries(k, e, ws + [last], into).value
         == ReadEntries(k, e, ws, into).value
              [ReadTree(k, FRESH, last.children[0]).value.atom := ReadTree(e, FRESH, last.children[1]).value]
    decreases |ws|
  {
    var all := ws + [last];
    if ws == [] {
      assert all[1..] == [] && all[0] == last;
    } else {
      assert all[0] == ws[0] && all[1..] == ws[1..] + [last];
      hide ReadTree;
      var key, x := ReadTree(k, FRESH, ws[0].children[0]), ReadTree(e, FRESH, ws[0].children[1]);
      EntryRead(k, e, ws[1..], last, into[key.value.atom := x.value]);
    }
  }

  /** The entries are put over the destination's one after the other, the last one of a key last. */
  lemma MapRead(k: Type, e: Type, dest: Value, w: Tree, most: seq<Tree>, last: Tree)
    requires ReadTree(Map(k, e), dest, w).Some?
    ensures var before := if dest.MapV? then dest.entries else map[];
            && (w.children == [] ==> ReadTree(Map(k, e), dest, w) == Some(MapV(before)))
            && (w.children == most + [last] ==>
                  && w.Node? && last.Node? && |last.children| >= 2
                  && ReadTree(k, FRESH, last.children[0]).Some? && ReadTree(e, FRESH, last.children[1]).Some?
                  && ReadTree(k, FRESH, last.children[0]).value.Scalar?
                  && var shorter := ReadTree(Map(k, e), dest, w.(children := most));
                  && shorter.Some? && shorter.value.MapV?
                  && ReadTree(Map(k, e), dest, w)
                     == Some(MapV(shorter.value.entries
                                    [ReadTree(k, FRESH, last.children[0]).value.atom
                                     := ReadTree(e, FRESH, last.children[1]).value])))
  {
    if w.children == most + [last] {
      EntryRead(k, e, most, last, Entries(dest));
      hide ReadEntries;
    }
  }
}
