/**
 The stream operators as they run: loops over containers that append to, and advance, message
 iterators.  `t` is the template argument; a thrown ErrorInvalidArgs is the result None.
 */
module Operators {
  import opened Types
  import opened Wire
  import opened Ordering
  import opened Marshal
  import opened Wrappers

  // ---------- operator << ----------

  method Put(iter: Writer, t: Type, v: Value)
    requires HasType(v, t)
    modifies iter
    ensures iter.out == old(iter.out) + [ToTree(t, v)]
    decreases t, 2
  {
    match t {
      case Basic(c) => iter.AppendBasic(c, Passed(v.atom));
      case Variant => PutVariant(iter, v.content);
      case Vector(e) =>
        if e == Basic('y') {
          PutBytes(iter, v.elems);
        } else {
          PutVector(iter, e, v.elems);
        }
      case Map(k, e) => PutMap(iter, k, e, v);
      case Struct(fs) => PutStruct(iter, fs, v.fields);
    }
  }

  method PutVector(iter: Writer, e: Type, vs: seq<Value>)
    requires forall x | x in vs :: HasType(x, e)
    modifies iter
    ensures iter.out == old(iter.out) + [Node(ArrayKind, Sig(e), ToTrees(e, vs))]
    decreases e, 3
  {
    hide HasType, ToTree, Sig;
    var ait := iter.OpenContainer(ArrayKind, Sig(e));
    for i := 0 to |vs|
      invariant iter.out == old(iter.out)
      invariant ait.out + ToTrees(e, vs[i..]) == ToTrees(e, vs)
    {
      assert vs[i..][1..] == vs[i + 1..];
      Put(ait, e, vs[i]);
    }
    assert ait.out + [] == ait.out;
    iter.CloseContainer(ait);
  }

  /** The specialization for byte vectors: one call appends the whole array. */
  method PutBytes(iter: Writer, vs: seq<Value>)
    requires forall x | x in vs :: HasType(x, Basic('y'))
    modifies iter
    ensures iter.out == old(iter.out) + [Node(ArrayKind, "y", ToTrees(Basic('y'), vs))]
  {
    var ait := iter.OpenContainer(ArrayKind, "y");
    forall i | 0 <= i < |vs| ensures vs[i].Scalar? { assert vs[i] in vs; }
    ait.out := seq(|vs|, i requires 0 <= i < |vs| && vs[i].Scalar? => Leaf('y', vs[i].atom));
    BytesAppended(vs);
    assert ait.out == ToTrees(Basic('y'), vs);
    iter.CloseContainer(ait);
  }

  lemma {:induction false} BytesAppended(vs: seq<Value>)
    requires forall x | x in vs :: HasType(x, Basic('y'))
    ensures forall i | 0 <= i < |vs| :: vs[i].Scalar? && ToTrees(Basic('y'), vs)[i] == Leaf('y', vs[i].atom)
    decreases |vs|
  {
    if vs != [] {
      BytesAppended(vs[1..]);
      assert vs[0] in vs && vs[0].Scalar? && vs[0].atom.Num?;
      forall i | 0 <= i < |vs| ensures vs[i].Scalar? && ToTrees(Basic('y'), vs)[i] == Leaf('y', vs[i].atom) {
        if i > 0 {
          assert vs[i] == vs[1..][i - 1];
        }
      }
    }
  }

  method PutMap(iter: Writer, k: Type, e: Type, v: Value)
    requires HasType(v, Map(k, e))
    modifies iter
    ensures iter.out == old(iter.out) + [ToTree(Map(k, e), v)]
    decreases Map(k, e), 1
  {
    var ait := iter.OpenContainer(ArrayKind, EntrySig(k, e));
    PutEntries(ait, k, e, v);
    hide ToEntries, KeysOf, EntrySig;
    iter.CloseContainer(ait);
  }

  method PutEntries(ait: Writer, k: Type, e: Type, v: Value)
    requires HasType(v, Map(k, e)) && ait.out == []
    modifies ait
    ensures ait.out == ToEntries(k, e, v.entries, KeysOf(v))
    decreases Map(k, e), 0, 2
  {
    EntriesTyped(k, e, v);
    hide HasType, ToTree, ToEntries;
    var keys := Traverse(v);
    PutKeys(ait, k, e, v.entries, keys);
  }

  method PutKeys(ait: Writer, k: Type, e: Type, m: map<Atom, Value>, keys: seq<Atom>)
    requires forall key | key in keys :: key in m && HasType(Scalar(key), k) && HasType(m[key], e)
    requires ait.out == []
    modifies ait
    ensures ait.out == ToEntries(k, e, m, keys)
    decreases Map(k, e), 0, 1
  {
    ghost var whole := ToEntries(k, e, m, keys);
    hide HasType, ToTree, ToEntries;
    for i := 0 to |keys|
      invariant ait.out == whole[..i]
    {
      assert keys[i] in keys;
      EntryAt(k, e, m, keys, i);
      PutEntry(ait, k, e, keys[i], m[keys[i]]);
      assert whole[..i + 1] == whole[..i] + [whole[i]];
    }
  }

  /** The keys as the iterator of a std::map visits them. */
  method Traverse(v: Value) returns (keys: seq<Atom>)
    requires v.MapV?
    ensures keys == KeysOf(v)
  {
    AtomLessStrictTotal();
    keys := [];
    var left := v.entries.Keys;
    assert [] + InOrder(AtomLess, left) == KeysOf(v);
    assert InOrder(AtomLess, {}) == [];
    hide AtomLess, StrictTotal, InOrder, KeysOf;
    while left != {}
      invariant keys + InOrder(AtomLess, left) == KeysOf(v)
      decreases left
    {
      var key := FirstKey(left);
      NextKey(keys, key, InOrder(AtomLess, left - {key}));
      keys := keys + [key];
      left := left - {key};
    }
    assert keys + [] == keys;
  }

  lemma NextKey(keys: seq<Atom>, key: Atom, others: seq<Atom>)
    ensures keys + ([key] + others) == (keys + [key]) + others
  {}

  lemma EntriesTyped(k: Type, e: Type, v: Value)
    requires HasType(v, Map(k, e))
    ensures forall key | key in v.entries :: HasType(Scalar(key), k) && HasType(v.entries[key], e)
  {}

  method PutEntry(ait: Writer, k: Type, e: Type, key: Atom, v: Value)
    requires HasType(Scalar(key), k) && HasType(v, e)
    modifies ait
    ensures ait.out == old(ait.out) + [Node(EntryKind, "", [ToTree(k, Scalar(key)), ToTree(e, v)])]
    decreases Map(k, e), 0, 0
  {
    hide HasType, ToTree;
    var eit := ait.OpenContainer(EntryKind, "");
    Put(eit, k, Scalar(key));
    Put(eit, e, v);
    assert eit.out == [ToTree(k, Scalar(key)), ToTree(e, v)];
    ait.CloseContainer(eit);
  }

  lemma {:induction false} EntryAt(k: Type, e: Type, m: map<Atom, Value>, keys: seq<Atom>, i: nat)
    requires i < |keys|
    requires forall key | key in keys :: key in m && HasType(Scalar(key), k) && HasType(m[key], e)
    ensures keys[i] in keys
    ensures ToEntries(k, e, m, keys)[i]
         == Node(EntryKind, "", [ToTree(k, Scalar(keys[i])), ToTree(e, m[keys[i]])])
    decreases |keys|
  {
    hide HasType, ToTree;
    if i > 0 {
      EntryAt(k, e, m, keys[1..], i - 1);
    }
  }

  /** The iterator of a std::map goes to the least key left. */
  method FirstKey(left: set<Atom>) returns (key: Atom)
    requires StrictTotal(AtomLess) && left != {}
    ensures key in left
    ensures InOrder(AtomLess, left) == [key] + InOrder(AtomLess, left - {key})
  {
    LeastExists(AtomLess, left);
    key :| key in left && forall j | j in left :: j == key || AtomLess(key, j);
    assert Least(AtomLess, left, key);
    LeastUnique(AtomLess, left, key, InOrder(AtomLess, left)[0]);
  }

  method PutStruct(iter: Writer, fs: seq<Type>, vs: seq<Value>)
    requires |fs| == |vs| && forall i | 0 <= i < |fs| :: HasType(vs[i], fs[i])
    modifies iter
    ensures iter.out == old(iter.out) + [Node(StructKind, "", ToFields(fs, vs))]
    decreases fs, 0
  {
    hide HasType, ToTree;
    var sit := iter.OpenContainer(StructKind, "");
    for i := 0 to |fs|
      invariant iter.out == old(iter.out)
      invariant sit.out + ToFields(fs[i..], vs[i..]) == ToFields(fs, vs)
    {
      assert fs[i..][1..] == fs[i + 1..] && vs[i..][1..] == vs[i + 1..];
      Put(sit, fs[i], vs[i]);
    }
    assert sit.out + [] == sit.out;
    iter.CloseContainer(sit);
  }

  /** A variant is copied out of the message that stores it, under the signature that message reports. */
  method PutVariant(iter: Writer, content: seq<Tree>)
    requires |content| == 1 && WellFormed(content[0])
    modifies iter
    ensures iter.out == old(iter.out) + [Node(VariantKind, TreeSig(content[0]), content)]
  {
    var source := new Reader(content);
    var sig := source.Signature();
    var target := iter.OpenContainer(VariantKind, sig);
    source.CopyData(target);
    iter.CloseContainer(target);
    assert target.out == content;
  }

  // ---------- operator >> ----------

  method Get(iter: Reader, t: Type, dest: Value) returns (r: Option<Value>)
    requires Valid(t) && WellFormedAll(iter.rest)
    modifies iter
    ensures old(iter.rest) == [] ==> r == None
    ensures old(iter.rest) != [] ==> r == ReadTree(t, dest, old(iter.rest)[0])
    ensures iter.rest == if r.Some? then old(iter.rest)[1..] else old(iter.rest)
    decreases t, 2
  {
    if iter.AtEnd() {
      return None;
    }
    var w := iter.rest[0];
    assert WellFormed(w);
    match t {
      case Basic(c) =>
        if w.Leaf? && iter.Type() == c {
          r := Some(Scalar(w.atom));
        } else {
          r := None;
        }
      case Variant =>
        r := GetVariant(iter);
      case Vector(e) =>
        r := GetVector(iter, e, dest);
      case Map(k, e) =>
        r := GetMap(iter, k, e, dest);
      case Struct(fs) =>
        r := GetStruct(iter, fs, dest);
    }
    if r.Some? {
      iter.Next();
    }
  }

  method GetVariant(iter: Reader) returns (r: Option<Value>)
    requires iter.rest != [] && WellFormedAll(iter.rest)
    ensures r == ReadTree(Variant, FRESH, iter.rest[0])
  {
    var w := iter.rest[0];
    if !(w.Node? && w.kind == VariantKind) {
      return None;
    }
    assert WellFormed(w);
    var source := iter.Recurse();
    var storage := new Writer(StructKind, "");
    source.CopyData(storage);
    assert storage.out == w.children;
    r := Some(VariantV(storage.out));
  }

  method GetVector(iter: Reader, e: Type, dest: Value) returns (r: Option<Value>)
    requires iter.rest != [] && Valid(e) && WellFormedAll(iter.rest)
    ensures r == ReadTree(Vector(e), dest, iter.rest[0])
    decreases e, 4
  {
    var w := iter.rest[0];
    assert WellFormed(w);
    if !IsArray(w) {
      return None;
    }
    if e == Basic('y') {
      if w.sig != "y" {
        return None;
      }
      BytesRead(w.children);
      var bytes := seq(|w.children|, i requires 0 <= i < |w.children| && w.children[i].Leaf? =>
        Scalar(w.children[i].atom));
      assert bytes == ReadElems(e, w.children).value;
      return Some(VectorV(Elems(dest) + bytes));
    }
    var ait := iter.Recurse();
    var xs := GetElems(ait, e);
    if xs == None {
      return None;
    }
    r := Some(VectorV(Elems(dest) + xs.value));
  }

  method GetElems(ait: Reader, e: Type) returns (r: Option<seq<Value>>)
    requires Valid(e) && WellFormedAll(ait.rest)
    modifies ait
    ensures r == ReadElems(e, old(ait.rest))
    decreases e, 3
  {
    hide ReadTree, WellFormed, Valid;
    var xs := [];
    ghost var all := ReadElems(e, ait.rest);
    while !ait.AtEnd()
      invariant WellFormedAll(ait.rest)
      invariant all.Some? <==> ReadElems(e, ait.rest).Some?
      invariant all.Some? ==> all.value == xs + ReadElems(e, ait.rest).value
      decreases |ait.rest|
    {
      ghost var rest := ait.rest;
      var elem := Get(ait, e, FRESH);
      if elem == None {
        return None;
      }
      assert ait.rest == rest[1..];
      xs := xs + [elem.value];
    }
    assert xs + [] == xs;
    r := Some(xs);
  }

  lemma {:induction false} BytesRead(ws: seq<Tree>)
    requires forall w | w in ws :: WellFormed(w) && TreeSig(w) == "y"
    ensures forall i | 0 <= i < |ws| :: ws[i].Leaf?
    ensures ReadElems(Basic('y'), ws).Some?
    ensures forall i | 0 <= i < |ws| :: ReadElems(Basic('y'), ws).value[i] == Scalar(ws[i].atom)
    decreases |ws|
  {
    if ws != [] {
      assert ws[0] in ws;
      ByteLeaf(ws[0]);
      BytesRead(ws[1..]);
    }
  }

  lemma ByteLeaf(w: Tree)
    requires TreeSig(w) == "y"
    ensures w.Leaf? && w.code == 'y'
  {
    hide TreeSigs;
    assert TreeSig(w)[0] == 'y';
  }

  method GetMap(iter: Reader, k: Type, e: Type, dest: Value) returns (r: Option<Value>)
    requires iter.rest != [] && Valid(Map(k, e)) && WellFormedAll(iter.rest)
    ensures r == ReadTree(Map(k, e), dest, iter.rest[0])
    decreases Map(k, e), 1
  {
    var w := iter.rest[0];
    assert WellFormed(w);
    if !IsDict(w) {
      return None;
    }
    var entries := iter.Recurse();
    var m := Entries(dest);
    while !entries.AtEnd()
      invariant forall x | x in entries.rest :: WellFormed(x) && TreeSig(x) == w.sig
      invariant ReadEntries(k, e, w.children, Entries(dest)) == ReadEntries(k, e, entries.rest, m)
      decreases |entries.rest|
    {
      DictEntry(entries.rest[0], w.sig);
      var entry := entries.Recurse();
      ghost var pair := entry.rest;
      var key := Get(entry, k, FRESH);
      if key == None {
        return None;
      }
      assert entry.rest == pair[1..] && entry.rest[0] == pair[1];
      var value := Get(entry, e, FRESH);
      if value == None {
        return None;
      }
      m := m[key.value.atom := value.value];
      entries.Next();
    }
    r := Some(MapV(m));
  }

  /** Every element of a dictionary is an entry of two values. */
  lemma DictEntry(x: Tree, sig: string)
    requires WellFormed(x) && TreeSig(x) == sig && sig != "" && sig[0] == '{'
    ensures x.Node? && x.kind == EntryKind && |x.children| == 2 && WellFormedAll(x.children)
  {}

  method GetStruct(iter: Reader, fs: seq<Type>, dest: Value) returns (r: Option<Value>)
    requires iter.rest != [] && AllValid(fs) && WellFormedAll(iter.rest)
    ensures r == ReadTree(Struct(fs), dest, iter.rest[0])
    decreases fs, 1
  {
    var w := iter.rest[0];
    assert WellFormed(w);
    if !w.Node? {
      return None;
    }
    var sit := iter.Recurse();
    var xs := GetFields(sit, fs, dest);
    if xs == None {
      return None;
    }
    r := Some(StructV(xs.value));
  }

  method GetFields(sit: Reader, fs: seq<Type>, dest: Value) returns (r: Option<seq<Value>>)
    requires AllValid(fs) && WellFormedAll(sit.rest)
    modifies sit
    ensures r == ReadFields(fs, dest, 0, old(sit.rest))
    decreases fs, 0
  {
    hide ReadTree, WellFormed, Valid, Field;
    var xs := [];
    ghost var all := ReadFields(fs, dest, 0, sit.rest);
    for i := 0 to |fs|
      invariant WellFormedAll(sit.rest)
      invariant all.Some? <==> ReadFields(fs[i..], dest, i, sit.rest).Some?
      invariant all.Some? ==> all.value == xs + ReadFields(fs[i..], dest, i, sit.rest).value
    {
      assert fs[i..][1..] == fs[i + 1..];
      ghost var rest := sit.rest;
      var x := Get(sit, fs[i], Field(dest, i));
      if x == None {
        return None;
      }
      assert sit.rest == rest[1..];
      xs := xs + [x.value];
    }
    assert xs + [] == xs;
    r := Some(xs);
  }

  // ---------- the Variant class ----------

  /** The message in which a variant keeps its content. */
  class Storage {
    var body: Body

    constructor (body: Body)
      ensures this.body == body
    {
      this.body := body;
    }
  }

  /** Assignment makes variants share the message; reading and clearing give a variant a new one. */
  class VariantCell {
    var msg: Storage

    constructor ()
      ensures fresh(msg) && msg.body == []
    {
      msg := new Storage([]);
    }

    /** Built from the variant under an iterator, by a deep copy of its content. */
    constructor FromIter(it: Reader)
      requires it.rest != [] && it.rest[0].Node? && WellFormedAll(it.rest)
      ensures fresh(msg) && msg.body == it.rest[0].children
    {
      msg := new Storage([]);
      new;
      assert WellFormed(it.rest[0]);
      var source := it.Recurse();
      var target := new Writer(StructKind, "");
      source.CopyData(target);
      assert target.out == it.rest[0].children;
      msg.body := target.out;
    }

    /** Other variants with the message keep their content. */
    method Clear()
      modifies this
      ensures fresh(msg) && msg.body == []
    {
      msg := new Storage([]);
    }

    method Assign(v: VariantCell)
      modifies this
      ensures msg == old(v.msg)
    {
      if v != this {
        msg := v.msg;
      }
    }

    /** Appending a value by the variant's writer appends to every variant that shares the message. */
    method Append(t: Type, v: Value)
      requires Valid(t) && HasType(v, t)
      modifies msg
      ensures msg.body == old(msg.body) + [ToTree(t, v)]
    {
      ToTreeTyped(t, v);
      hide HasType, ToTree, Valid, Typed;
      var writer := new Writer(StructKind, "");
      Put(writer, t, v);
      assert writer.out == [ToTree(t, v)];
      msg.body := msg.body + writer.out;
    }

    /** The conversion operator: the content as a value of the wanted type; None is a throw. */
    method Cast(t: Type) returns (r: Option<Value>)
      requires Valid(t)
      ensures r == if msg.body == [] then None else ReadTree(t, FRESH, msg.body[0])
    {
      var ri := new Reader(msg.body);
      r := Get(ri, t, FRESH);
    }

    /** What is written into an empty variant comes out of the conversion, but for text with NUL. */
    method FillAndCast(t: Type, v: Value) returns (r: Option<Value>)
      requires msg.body == [] && Valid(t) && HasType(v, t)
      modifies msg
      ensures msg.body == [ToTree(t, v)]
      ensures r == Some(v) <==> Clean(v)
    {
      FreshSurvivesIff(t, v);
      hide HasType, ToTree, ReadTree, Clean, Valid, Typed;
      Append(t, v);
      assert msg.body == [ToTree(t, v)];
      r := Cast(t);
    }

    /** What is appended to the one shows in the other, until one of them is read into or cleared. */
    method AssignThenAppend(v: VariantCell, t: Type, x: Value)
      requires v != this && Valid(t) && HasType(x, t)
      modifies this, v.msg
      ensures msg == v.msg && v.msg.body == old(v.msg.body) + [ToTree(t, x)]
    {
      hide HasType, ToTree, Valid;
      Assign(v);
      Append(t, x);
    }

    /** Reading a variant and writing it back appends the very tree that was read. */
    method ReadAndWrite(it: Reader, to: Writer) returns (ok: bool)
      requires WellFormedAll(it.rest)
      modifies this, it, to
      ensures ok <==> old(it.rest) != [] && TypeCode(old(it.rest)[0]) == 'v'
      ensures ok ==> to.out == old(to.out) + [old(it.rest)[0]] && it.rest == old(it.rest)[1..]
      ensures ok ==> fresh(msg) && old(it.rest)[0].Node? && msg.body == old(it.rest)[0].children
      ensures !ok ==> to.out == old(to.out) && it.rest == old(it.rest) && msg == old(msg)
    {
      ghost var before := it.rest;
      if before != [] {
        assert WellFormed(before[0]);
      }
      var v := Get(it, Variant, VariantV(msg.body));
      ok := v.Some?;
      if ok {
        Clear();
        msg.body := v.value.content;
        PutVariant(to, msg.body);
      }
    }
  }
}
