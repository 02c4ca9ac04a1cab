/**
 The body of a D-Bus message as a list of typed value trees, the iterators that read and append
 them, and the deep copy from one iterator to another.
 */
module Wire {
  import opened Types

  datatype Atom = Num(n: int) | Float(r: real) | Str(s: string)

  datatype Kind = ArrayKind | StructKind | EntryKind | VariantKind

  /**
   A complete value.  `sig` is the element signature of an array, which an empty array has too, and
   the content signature of a variant; other containers are opened without one.
   */
  datatype Tree =
    | Leaf(code: char, atom: Atom)
    | Node(kind: Kind, sig: string, children: seq<Tree>)

  function TreeSig(t: Tree): string {
    match t
    case Leaf(c, _) => [c]
    case Node(ArrayKind, sig, _) => "a" + sig
    case Node(StructKind, _, cs) => "(" + TreeSigs(cs) + ")"
    case Node(EntryKind, _, cs) => "{" + TreeSigs(cs) + "}"
    case Node(VariantKind, _, _) => "v"
  }

  function TreeSigs(ts: seq<Tree>): string {
    if ts == [] then "" else TreeSig(ts[0]) + TreeSigs(ts[1..])
  }

  /** The type code that an iterator reports for the value it stands on. */
  function TypeCode(t: Tree): char {
    match t
    case Leaf(c, _) => c
    case Node(ArrayKind, _, _) => 'a'
    case Node(StructKind, _, _) => 'r'
    case Node(EntryKind, _, _) => 'e'
    case Node(VariantKind, _, _) => 'v'
  }

  predicate InRange(n: int, code: char) {
    match code
    case 'y' => 0 <= n < 0x100
    case 'b' => 0 <= n < 2
    case 'n' => -0x8000 <= n < 0x8000
    case 'q' => 0 <= n < 0x1_0000
    case 'i' => -0x8000_0000 <= n < 0x8000_0000
    case 'u' => 0 <= n < 0x1_0000_0000
    case 'x' => -0x8000_0000_0000_0000 <= n < 0x8000_0000_0000_0000
    case 't' => 0 <= n < 0x1_0000_0000_0000_0000
    case _ => false
  }

  predicate TextCode(code: char) {
    code == 's' || code == 'o' || code == 'g'
  }

  /** The C++ values that a basic type holds. */
  predicate Holds(code: char, a: Atom) {
    match a
    case Num(n) => InRange(n, code)
    case Float(_) => code == 'd'
    case Str(_) => TextCode(code)
  }

  /** A C string ends at its first NUL, so none of the text on the wire has one. */
  predicate NoNul(a: Atom) {
    a.Str? ==> '\0' !in a.s
  }

  /** What libdbus guarantees of every value it has read or appended. */
  predicate WellFormed(t: Tree) {
    match t
    case Leaf(c, a) => BasicCode(c) && Holds(c, a) && NoNul(a)
    case Node(kind, sig, cs) =>
      && (forall c | c in cs :: WellFormed(c))
      && match kind
         case ArrayKind => forall c | c in cs :: TreeSig(c) == sig
         case StructKind => sig == "" && cs != []
         case EntryKind => sig == "" && |cs| == 2 && cs[0].Leaf?
         case VariantKind => |cs| == 1 && sig == TreeSig(cs[0])
  }

  predicate WellFormedAll(ts: seq<Tree>) {
    forall t | t in ts :: WellFormed(t)
  }

  lemma PartsFormed(t: Tree)
    requires WellFormed(t) && t.Node?
    ensures WellFormedAll(t.children)
    ensures t.kind == StructKind || t.kind == EntryKind ==> t.sig == ""
    ensures t.kind == VariantKind ==> t.children != [] && t.sig == TreeSig(t.children[0])
  {
  }

  type Body = ts: seq<Tree> | WellFormedAll(ts)

  /** An appending MessageIter: what it has appended, and how its container was opened. */
  class Writer {
    const kind: Kind
    const sig: string
    var out: seq<Tree>

    constructor (kind: Kind, sig: string)
      ensures this.kind == kind && this.sig == sig && out == []
    {
      this.kind, this.sig, out := kind, sig, [];
    }

    method AppendBasic(code: char, atom: Atom)
      modifies this
      ensures out == old(out) + [Leaf(code, atom)]
    {
      out := out + [Leaf(code, atom)];
    }

    method OpenContainer(kind: Kind, sig: string) returns (sub: Writer)
      ensures fresh(sub) && sub.out == [] && sub.kind == kind && sub.sig == sig
    {
      sub := new Writer(kind, sig);
    }

    method CloseContainer(sub: Writer)
      requires sub != this
      modifies this
      ensures out == old(out) + [Node(sub.kind, sub.sig, sub.out)]
    {
      out := out + [Node(sub.kind, sub.sig, sub.out)];
    }
  }

  /** A reading MessageIter: what it has still to read; inside an array it knows the element type. */
  class Reader {
    const elem: string
    const inArray: bool
    var rest: seq<Tree>

    constructor (rest: seq<Tree>)
      ensures this.rest == rest && !inArray
    {
      this.rest, elem, inArray := rest, "", false;
    }

    constructor Into(container: Tree)
      requires container.Node?
      ensures rest == container.children
      ensures inArray == (container.kind == ArrayKind)
      ensures inArray ==> elem == container.sig
    {
      rest := container.children;
      inArray := container.kind == ArrayKind;
      elem := container.sig;
    }

    predicate AtEnd()
      reads this
    {
      rest == []
    }

    function Type(): char
      requires rest != []
      reads this
    {
      TypeCode(rest[0])
    }

    method Next()
      modifies this
      ensures rest == if old(rest) == [] then [] else old(rest)[1..]
    {
      rest := if rest == [] then [] else rest[1..];
    }

    method Recurse() returns (sub: Reader)
      requires rest != [] && rest[0].Node?
      ensures fresh(sub) && sub.rest == rest[0].children
      ensures sub.inArray == (rest[0].kind == ArrayKind)
      ensures sub.inArray ==> sub.elem == rest[0].sig
    {
      sub := new Reader.Into(rest[0]);
    }

    /** The type of the value under the iterator; inside an array it is there even when nothing is. */
    method Signature() returns (sig: string)
      ensures sig == if inArray then elem else if rest == [] then "" else TreeSig(rest[0])
    {
      sig := if inArray then elem else if rest == [] then "" else TreeSig(rest[0]);
    }

    /**
     The deep copy: afterwards the source is exhausted and the target has, after what it had, exactly
     the values the source still had, empty arrays with their element types.
     */
    method CopyData(to: Writer)
      requires WellFormedAll(rest)
      modifies this, to
      ensures rest == []
      ensures to.out == old(to.out) + old(rest)
      decreases rest
    {
      ghost var k := 0;
      while !AtEnd()
        invariant 0 <= k <= |old(rest)| && rest == old(rest)[k..]
        invariant to.out == old(to.out) + old(rest)[..k]
        decreases |rest|
      {
        assert rest[0] == old(rest)[k];
        if rest[0].Leaf? {
          to.AppendBasic(rest[0].code, rest[0].atom);
        } else {
          CopyContainer(to);
        }
        assert to.out == old(to.out) + old(rest)[..k] + [old(rest)[k]];
        assert old(rest)[..k + 1] == old(rest)[..k] + [old(rest)[k]];
        Next();
        k := k + 1;
      }
    }

    /** The case of containers: an iterator over the children, and a container of the same kind to fill. */
    method CopyContainer(to: Writer)
      requires rest != [] && rest[0].Node? && WellFormed(rest[0])
      modifies to
      ensures to.out == old(to.out) + [rest[0]]
      decreases rest[0]
    {
      hide WellFormed, TreeSig;
      PartsFormed(rest[0]);
      var source := Recurse();
      var sig := source.Signature();
      var bare := rest[0].kind != VariantKind && rest[0].kind != ArrayKind;
      var target := to.OpenContainer(rest[0].kind, if bare then "" else sig);
      source.CopyData(target);
      assert target.out == rest[0].children && target.sig == rest[0].sig;
      to.CloseContainer(target);
    }
  }
}
