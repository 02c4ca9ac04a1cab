/**
 The element tree of the introspection tool.  The printer writes the tags of a tree with a depth counter
 passed by reference; the handlers of the expat parser rebuild a tree from start and end events, keeping
 nothing but a depth counter and always going down through the last child.
 */
module Xml {
  import opened Ordering

  datatype Node = Node(name: string, attrs: map<string, string>, cdata: string, children: seq<Node>)

  type Attributes = seq<(string, string)>

  /** What the printer writes, unit by unit. */
  datatype Piece =
    | Indent(spaces: nat)
    | TagName(name: string)                       // <name
    | Attribute(key: string, value: string)       //  key="value"
    | TagEnd                                      // >
    | EmptyTagEnd                                 // />
    | Text(text: string)
    | NewLine
    | Closing(name: string)                       // </name>

  /** What expat reports. */
  datatype Event =
    | StartElement(name: string, attrs: Attributes)
    | EndElement(name: string)

  // The order of the attributes is that of the keys of a std::map.

  ghost function Listed(attrs: map<string, string>, keys: seq<string>): Attributes
    requires forall k :: k in keys ==> k in attrs
  {
    seq(|keys|, i requires 0 <= i < |keys| => (keys[i], attrs[keys[i]]))
  }

  ghost function SortedKeys(attrs: map<string, string>): (keys: seq<string>)
    ensures forall k :: k in keys <==> k in attrs
  {
    StringLessStrictTotal();
    InOrderVisits(StringLess, attrs.Keys);
    InOrder(StringLess, attrs.Keys)
  }

  ghost function AttributeList(attrs: map<string, string>): Attributes {
    Listed(attrs, SortedKeys(attrs))
  }

  /** Node's constructor: a later attribute of the same name wins. */
  function ToMap(list: Attributes): map<string, string> {
    if list == [] then map[]
    else ToMap(list[..|list| - 1])[list[|list| - 1].0 := list[|list| - 1].1]
  }

  /** Of several attributes of one name the last one counts. */
  lemma {:induction false} LastCounts(list: Attributes, k: string)
    ensures k in ToMap(list) <==> exists i :: 0 <= i < |list| && list[i].0 == k
    ensures k in ToMap(list) ==>
              exists i :: 0 <= i < |list| && list[i] == (k, ToMap(list)[k])
                          && forall j :: i < j < |list| ==> list[j].0 != k
    decreases |list|
  {
    if list != [] {
      var most := list[..|list| - 1];
      LastCounts(most, k);
      assert forall i :: 0 <= i < |most| ==> most[i] == list[i];
    }
  }

  lemma {:induction false} ToMapHas(attrs: map<string, string>, keys: seq<string>)
    requires forall k :: k in keys ==> k in attrs
    ensures forall k :: k in ToMap(Listed(attrs, keys)) <==> k in keys
    ensures forall k :: k in keys ==> ToMap(Listed(attrs, keys))[k] == attrs[k]
  {
    if keys != [] {
      var most := keys[..|keys| - 1];
      assert Listed(attrs, keys)[..|keys| - 1] == Listed(attrs, most);
      ToMapHas(attrs, most);
      assert keys == most + [keys[|keys| - 1]];
    }
  }

  /** The attributes survive being listed and put into a map again. */
  lemma AttributesRestored(attrs: map<string, string>)
    ensures ToMap(AttributeList(attrs)) == attrs
  {
    ToMapHas(attrs, SortedKeys(attrs));
  }

  // The printer.

  ghost function AttributePieces(list: Attributes): seq<Piece> {
    seq(|list|, i requires 0 <= i < |list| => Attribute(list[i].0, list[i].1))
  }

  ghost function Printed(n: Node, depth: nat): seq<Piece>
    decreases n, 1
  {
    [Indent(depth * 2), TagName(n.name)] + AttributePieces(AttributeList(n.attrs)) + Inside(n, depth)
  }

  ghost function Inside(n: Node, depth: nat): seq<Piece>
    decreases n, 0
  {
    if n.cdata == "" && n.children == [] then [EmptyTagEnd, NewLine]
    else
      [TagEnd]
      + (if n.cdata != "" then [Text(n.cdata)] else [])
      + (if n.children != []
         then [NewLine] + PrintedAll(n.children, depth + 1) + [Indent(depth * 2)]
         else [])
      + [Closing(n.name), NewLine]
  }

  ghost function PrintedAll(nodes: seq<Node>, depth: nat): seq<Piece>
    decreases nodes, 2
  {
    if nodes == [] then []
    else PrintedAll(nodes[..|nodes| - 1], depth) + Printed(nodes[|nodes| - 1], depth)
  }

  lemma Appended(a: seq<Piece>, b: seq<Piece>, c: seq<Piece>)
    ensures a + (b + c) == (a + b) + c
  {
  }

  /** Node::_raw_xml: the caller gets its depth back. */
  method RawXml(n: Node, xml: seq<Piece>, depth: nat) returns (out: seq<Piece>, depth': nat)
    ensures depth' == depth
    ensures out == xml + Printed(n, depth)
    decreases n, 2
  {
    ghost var list := AttributePieces(AttributeList(n.attrs));
    hide AttributePieces, AttributeList, Inside;
    out := xml + [Indent(depth * 2)] + [TagName(n.name)];
    assert out == xml + [Indent(depth * 2), TagName(n.name)];
    out := PrintAttributes(n.attrs, out);
    Appended(xml, [Indent(depth * 2), TagName(n.name)], list);
    Appended(xml, [Indent(depth * 2), TagName(n.name)] + list, Inside(n, depth));
    out, depth' := RawContent(n, out, depth);
  }

  /** The part of Node::_raw_xml after the attributes. */
  method RawContent(n: Node, xml: seq<Piece>, depth: nat) returns (out: seq<Piece>, depth': nat)
    ensures depth' == depth
    ensures out == xml + Inside(n, depth)
    decreases n, 1
  {
    hide PrintedAll;
    out, depth' := xml, depth;
    if |n.cdata| == 0 && |n.children| == 0 {
      out := out + [EmptyTagEnd, NewLine];
    } else {
      out := out + [TagEnd];
      if |n.cdata| != 0 {
        out := out + [Text(n.cdata)];
      }
      if |n.children| != 0 {
        out := out + [NewLine];
        depth' := depth' + 1;
        out, depth' := RawChildren(n, out, depth');
        depth' := depth' - 1;
        out := out + [Indent(depth' * 2)];
      }
      out := out + [Closing(n.name), NewLine];
    }
  }

  method RawChildren(n: Node, xml: seq<Piece>, depth: nat) returns (out: seq<Piece>, depth': nat)
    ensures depth' == depth
    ensures out == xml + PrintedAll(n.children, depth)
    decreases n, 0
  {
    hide Printed;
    out, depth' := xml, depth;
    for i := 0 to |n.children|
      invariant depth' == depth
      invariant out == xml + PrintedAll(n.children[..i], depth)
    {
      assert n.children[..i + 1][..i] == n.children[..i];
      Appended(xml, PrintedAll(n.children[..i], depth), Printed(n.children[i], depth));
      out, depth' := RawXml(n.children[i], out, depth');
    }
    assert n.children[..|n.children|] == n.children;
  }

  method FirstName(keys: set<string>) returns (key: string)
    requires keys != {}
    ensures key in keys
    ensures StrictTotal(StringLess) && InOrder(StringLess, keys) == [key] + InOrder(StringLess, keys - {key})
  {
    StringLessStrictTotal();
    hide StringLess, StrictTotal;
    LeastExists(StringLess, keys);
    key :| key in keys && forall j :: j in keys && j != key ==> StringLess(key, j);
    assert Least(StringLess, keys, key);
    ghost var order := InOrder(StringLess, keys);
    LeastUnique(StringLess, keys, key, order[0]);
  }

  method PrintAttributes(attrs: map<string, string>, xml: seq<Piece>) returns (out: seq<Piece>)
    ensures out == xml + AttributePieces(AttributeList(attrs))
  {
    StringLessStrictTotal();
    hide StringLess, StrictTotal, InOrder;
    out := xml;
    ghost var list, i := AttributeList(attrs), 0;
    var left := attrs.Keys;
    while left != {}
      invariant i <= |list| && left <= attrs.Keys
      invariant InOrder(StringLess, left) == SortedKeys(attrs)[i..]
      invariant out == xml + AttributePieces(list[..i])
      decreases left
    {
      var k := FirstName(left);
      assert list[i] == (k, attrs[k]);
      out := out + [Attribute(k, attrs[k])];
      assert AttributePieces(list[..i + 1]) == AttributePieces(list[..i]) + [Attribute(k, attrs[k])];
      left := left - {k};
      i := i + 1;
    }
    InOrderVisits(StringLess, left);
    assert list[..i] == list;
  }

  // What a parser finds in the printed text.

  ghost function EventsOf(n: Node): seq<Event>
    decreases n, 0
  {
    [StartElement(n.name, AttributeList(n.attrs))] + EventsOfAll(n.children) + [EndElement(n.name)]
  }

  ghost function EventsOfAll(nodes: seq<Node>): seq<Event>
    decreases nodes, 1
  {
    if nodes == [] then []
    else EventsOfAll(nodes[..|nodes| - 1]) + EventsOf(nodes[|nodes| - 1])
  }

  datatype Tag = NoTag | Tag(name: string, attrs: Attributes)

  datatype Scanner = Scanner(events: seq<Event>, tag: Tag)

  /** A start tag is reported when it ends, an empty one together with its end; text is skipped. */
  function Scan(p: Piece, s: Scanner): Scanner {
    match p
    case TagName(n) => s.(tag := Tag(n, []))
    case Attribute(k, v) => if s.tag.Tag? then s.(tag := s.tag.(attrs := s.tag.attrs + [(k, v)])) else s
    case TagEnd =>
      if s.tag.Tag? then Scanner(s.events + [StartElement(s.tag.name, s.tag.attrs)], NoTag) else s
    case EmptyTagEnd =>
      if s.tag.Tag?
      then Scanner(s.events + [StartElement(s.tag.name, s.tag.attrs), EndElement(s.tag.name)], NoTag)
      else s
    case Closing(n) => s.(events := s.events + [EndElement(n)])
    case _ => s
  }

  function ScanAll(pieces: seq<Piece>, s: Scanner): Scanner {
    if pieces == [] then s else ScanAll(pieces[1..], Scan(pieces[0], s))
  }

  lemma {:induction false} ScanConcat(a: seq<Piece>, b: seq<Piece>, s: Scanner)
    ensures ScanAll(a + b, s) == ScanAll(b, ScanAll(a, s))
    decreases |a|
  {
    if a == [] {
      assert a + b == b;
    } else {
      assert (a + b)[0] == a[0] && (a + b)[1..] == a[1..] + b;
      ScanConcat(a[1..], b, Scan(a[0], s));
    }
  }

  lemma {:induction false} AttributesScan(list: Attributes, s: Scanner)
    requires s.tag.Tag?
    ensures ScanAll(AttributePieces(list), s) == s.(tag := s.tag.(attrs := s.tag.attrs + list))
    decreases |list|
  {
    var pieces := AttributePieces(list);
    if list == [] {
      assert s.tag.attrs + list == s.tag.attrs;
    } else {
      assert pieces[1..] == AttributePieces(list[1..]);
      var next := Scan(pieces[0], s);
      assert next.tag.attrs == s.tag.attrs + [list[0]];
      AttributesScan(list[1..], next);
      assert next.tag.attrs + list[1..] == s.tag.attrs + list;
    }
  }

  /** The tags that the printer writes are the events of the tree, well nested, at any depth. */
  lemma {:induction false} PrintedTags(n: Node, depth: nat, events: seq<Event>)
    ensures ScanAll(Printed(n, depth), Scanner(events, NoTag)) == Scanner(events + EventsOf(n), NoTag)
    decreases n, 1
  {
    var s, list := Scanner(events, NoTag), AttributeList(n.attrs);
    var tag := [Indent(depth * 2), TagName(n.name)];
    hide AttributeList, AttributePieces, Inside, EventsOf;
    ScanConcat(tag + AttributePieces(list), Inside(n, depth), s);
    ScanConcat(tag, AttributePieces(list), s);
    ScanTwo(Indent(depth * 2), TagName(n.name), s);
    assert ScanAll(tag, s) == Scanner(events, Tag(n.name, []));
    AttributesScan(list, Scanner(events, Tag(n.name, [])));
    assert [] + list == list;
    InsideTags(n, depth, events);
  }

  lemma {:induction false} InsideTags(n: Node, depth: nat, events: seq<Event>)
    ensures ScanAll(Inside(n, depth), Scanner(events, Tag(n.name, AttributeList(n.attrs))))
         == Scanner(events + EventsOf(n), NoTag)
    decreases n, 0
  {
    hide AttributeList, PrintedAll, ScanAll;
    var start, end := StartElement(n.name, AttributeList(n.attrs)), EndElement(n.name);
    var s := Scanner(events, Tag(n.name, AttributeList(n.attrs)));
    var all := EventsOfAll(n.children);
    if n.cdata == "" && n.children == [] {
      ScanTwo(EmptyTagEnd, NewLine, s);
      assert EventsOf(n) == [start, end];
    } else {
      hide EventsOfAll;
      var begin := [TagEnd] + (if n.cdata != "" then [Text(n.cdata)] else []);
      var middle := if n.children != []
                    then [NewLine] + PrintedAll(n.children, depth + 1) + [Indent(depth * 2)] else [];
      BeginTags(n, s);
      MiddleTags(n, depth, events + [start]);
      ScanTwo(Closing(n.name), NewLine, Scanner(events + [start] + all, NoTag));
      ScanThree(begin, middle, [Closing(n.name), NewLine], s);
      Nested(events, start, all, end);
    }
  }

  lemma Nested(events: seq<Event>, start: Event, all: seq<Event>, end: Event)
    ensures events + ([start] + all + [end]) == events + [start] + all + [end]
  {
  }

  lemma ScanThree(a: seq<Piece>, b: seq<Piece>, c: seq<Piece>, s: Scanner)
    ensures ScanAll(a + b + c, s) == ScanAll(c, ScanAll(b, ScanAll(a, s)))
  {
    ScanConcat(a + b, c, s);
    ScanConcat(a, b, s);
  }

  lemma BeginTags(n: Node, s: Scanner)
    requires s.tag.Tag?
    ensures ScanAll([TagEnd] + (if n.cdata != "" then [Text(n.cdata)] else []), s)
         == Scanner(s.events + [StartElement(s.tag.name, s.tag.attrs)], NoTag)
  {
    if n.cdata != "" {
      ScanTwo(TagEnd, Text(n.cdata), s);
      assert [TagEnd] + [Text(n.cdata)] == [TagEnd, Text(n.cdata)];
    } else {
      ScanOne(TagEnd, s);
      assert [TagEnd] + [] == [TagEnd];
    }
  }

  lemma {:induction false} MiddleTags(n: Node, depth: nat, events: seq<Event>)
    ensures ScanAll(if n.children != []
                    then [NewLine] + PrintedAll(n.children, depth + 1) + [Indent(depth * 2)] else [],
                    Scanner(events, NoTag))
         == Scanner(events + EventsOfAll(n.children), NoTag)
    decreases n, 0, 0
  {
    var s := Scanner(events, NoTag);
    if n.children == [] {
      assert events + [] == events;
    } else {
      var all := PrintedAll(n.children, depth + 1);
      ScanConcat([NewLine] + all, [Indent(depth * 2)], s);
      ScanConcat([NewLine], all, s);
      ScanOne(NewLine, s);
      PrintedAllTags(n.children, depth + 1, events);
      ScanOne(Indent(depth * 2), Scanner(events + EventsOfAll(n.children), NoTag));
    }
  }

  lemma ScanOne(p: Piece, s: Scanner)
    ensures ScanAll([p], s) == Scan(p, s)
  {
    assert [p][1..] == [];
  }

  lemma ScanTwo(p: Piece, q: Piece, s: Scanner)
    ensures ScanAll([p, q], s) == Scan(q, Scan(p, s))
  {
    assert [p, q][1..] == [q];
    ScanOne(q, Scan(p, s));
  }

  lemma {:induction false} PrintedAllTags(nodes: seq<Node>, depth: nat, events: seq<Event>)
    ensures ScanAll(PrintedAll(nodes, depth), Scanner(events, NoTag)) == Scanner(events + EventsOfAll(nodes), NoTag)
    decreases nodes
  {
    if nodes == [] {
      assert events + [] == events;
    } else {
      hide Printed, EventsOf;
      var most, last := nodes[..|nodes| - 1], nodes[|nodes| - 1];
      ScanConcat(PrintedAll(most, depth), Printed(last, depth), Scanner(events, NoTag));
      PrintedAllTags(most, depth, events);
      PrintedTags(last, depth, events + EventsOfAll(most));
      assert events + EventsOfAll(most) + EventsOf(last) == events + (EventsOfAll(most) + EventsOf(last));
    }
  }

  // The handlers.

  /** The path through k last children exists. */
  predicate Reaches(n: Node, k: nat) {
    k == 0 || (n.children != [] && Reaches(n.children[|n.children| - 1], k - 1))
  }

  function At(n: Node, k: nat): Node
    requires Reaches(n, k)
  {
    if k == 0 then n else At(n.children[|n.children| - 1], k - 1)
  }

  /** Push nodes onto the children of the node reached through k last children. */
  function Push(n: Node, k: nat, nodes: seq<Node>): Node
    requires Reaches(n, k)
  {
    if k == 0 then n.(children := n.children + nodes)
    else
      var i := |n.children| - 1;
      n.(children := n.children[..i] + [Push(n.children[i], k - 1, nodes)])
  }

  datatype Doc = NoRoot(depth: int) | Doc(root: Node, depth: int)

  function Level(depth: int): nat {
    if depth > 1 then depth - 1 else 0
  }

  /** The handlers go down only through children that exist. */
  ghost predicate Sound(doc: Doc) {
    if doc.Doc? then Reaches(doc.root, Level(doc.depth)) else doc.depth <= 0
  }

  ghost function Handle(e: Event, doc: Doc): (after: Doc)
    requires Sound(doc)
    ensures Sound(after)
  {
    match e
    case StartElement(name, attrs) =>
      var node := Node(name, ToMap(attrs), "", []);
      if doc.NoRoot? then Doc(node, doc.depth + 1)
      else
        PushReaches(doc.root, Level(doc.depth), [node]);
        Doc(Push(doc.root, Level(doc.depth), [node]), doc.depth + 1)
    case EndElement(_) =>
      if doc.NoRoot? then NoRoot(doc.depth - 1)
      else
        ReachesLess(doc.root, Level(doc.depth), Level(doc.depth - 1));
        Doc(doc.root, doc.depth - 1)
  }

  lemma {:induction false} ReachesLess(n: Node, k: nat, j: nat)
    requires Reaches(n, k) && j <= k
    ensures Reaches(n, j)
    decreases k
  {
    if j > 0 {
      ReachesLess(n.children[|n.children| - 1], k - 1, j - 1);
    }
  }

  lemma {:induction false} PushReaches(n: Node, k: nat, nodes: seq<Node>)
    requires Reaches(n, k)
    ensures Reaches(Push(n, k, nodes), k) && (nodes != [] ==> Reaches(Push(n, k, nodes), k + 1))
    ensures At(Push(n, k, nodes), k) == At(n, k).(children := At(n, k).children + nodes)
    decreases k
  {
    if k > 0 {
      PushReaches(n.children[|n.children| - 1], k - 1, nodes);
    }
  }

  lemma {:induction false} PushTwice(n: Node, k: nat, a: seq<Node>, b: seq<Node>)
    requires Reaches(n, k) && Reaches(Push(n, k, a), k)
    ensures Push(Push(n, k, a), k, b) == Push(n, k, a + b)
    decreases k
  {
    if k > 0 {
      PushTwice(n.children[|n.children| - 1], k - 1, a, b);
    } else {
      assert n.children + a + b == n.children + (a + b);
    }
  }

  /** Pushing below a node just pushed is pushing the node with its children. */
  lemma {:induction false} PushBelow(n: Node, k: nat, node: Node, nodes: seq<Node>)
    requires Reaches(n, k) && Reaches(Push(n, k, [node]), k + 1)
    ensures Push(Push(n, k, [node]), k + 1, nodes) == Push(n, k, [node.(children := node.children + nodes)])
    decreases k
  {
    if k > 0 {
      PushBelow(n.children[|n.children| - 1], k - 1, node, nodes);
    }
  }

  ghost function HandleAll(events: seq<Event>, doc: Doc): (after: Doc)
    requires Sound(doc)
    ensures Sound(after)
  {
    if events == [] then doc else HandleAll(events[1..], Handle(events[0], doc))
  }

  lemma {:induction false} HandleConcat(a: seq<Event>, b: seq<Event>, doc: Doc)
    requires Sound(doc)
    ensures HandleAll(a + b, doc) == HandleAll(b, HandleAll(a, doc))
    decreases |a|
  {
    if a == [] {
      assert a + b == b;
    } else {
      assert (a + b)[0] == a[0] && (a + b)[1..] == a[1..] + b;
      HandleConcat(a[1..], b, Handle(a[0], doc));
    }
  }

  /** The tree without its character data. */
  function Bare(n: Node): Node
    decreases n, 0
  {
    Node(n.name, n.attrs, "", BareAll(n.children))
  }

  function BareAll(nodes: seq<Node>): seq<Node>
    decreases nodes, 1
  {
    if nodes == [] then [] else BareAll(nodes[..|nodes| - 1]) + [Bare(nodes[|nodes| - 1])]
  }

  /** Inside an open element, the events of a tree add the tree as its next child. */
  lemma {:induction false} Rebuilds(n: Node, root: Node, depth: int)
    requires depth >= 1 && Reaches(root, depth - 1)
    ensures HandleAll(EventsOf(n), Doc(root, depth)) == Doc(Push(root, depth - 1, [Bare(n)]), depth)
    decreases n, 0
  {
    hide Push, Reaches, AttributeList, EventsOfAll, BareAll;
    var doc, empty := Doc(root, depth), Node(n.name, n.attrs, "", []);
    var start, end := StartElement(n.name, AttributeList(n.attrs)), EndElement(n.name);
    AttributesRestored(n.attrs);
    PushReaches(root, depth - 1, [empty]);
    var begun := Doc(Push(root, depth - 1, [empty]), depth + 1);
    HandleOne(start, doc);
    RebuildsAll(n.children, begun.root, depth + 1);
    HandleConcat([start], EventsOfAll(n.children), doc);
    PushBelow(root, depth - 1, empty, BareAll(n.children));
    assert [] + BareAll(n.children) == BareAll(n.children);
    var filled := Doc(Push(root, depth - 1, [Bare(n)]), depth + 1);
    PushReaches(root, depth - 1, [Bare(n)]);
    HandleOne(end, filled);
    HandleConcat([start] + EventsOfAll(n.children), [end], doc);
  }

  lemma HandleOne(e: Event, doc: Doc)
    requires Sound(doc)
    ensures HandleAll([e], doc) == Handle(e, doc)
  {
    assert [e][1..] == [];
  }

  lemma {:induction false} RebuildsAll(nodes: seq<Node>, root: Node, depth: int)
    requires depth >= 1 && Reaches(root, depth - 1)
    ensures HandleAll(EventsOfAll(nodes), Doc(root, depth)) == Doc(Push(root, depth - 1, BareAll(nodes)), depth)
    decreases nodes
  {
    hide Push, Reaches, EventsOf, Bare;
    if nodes == [] {
      PushNone(root, depth - 1);
    } else {
      var most, last := nodes[..|nodes| - 1], nodes[|nodes| - 1];
      RebuildsAll(most, root, depth);
      PushReaches(root, depth - 1, BareAll(most));
      Rebuilds(last, Push(root, depth - 1, BareAll(most)), depth);
      HandleConcat(EventsOfAll(most), EventsOf(last), Doc(root, depth));
      PushTwice(root, depth - 1, BareAll(most), [Bare(last)]);
    }
  }

  lemma {:induction false} PushNone(n: Node, k: nat)
    requires Reaches(n, k)
    ensures Push(n, k, []) == n
    decreases k
  {
    if k > 0 {
      PushNone(n.children[|n.children| - 1], k - 1);
    }
  }

  /** From an empty document: the events of a tree rebuild it, and leave no element open. */
  lemma TreeRebuilt(n: Node)
    ensures HandleAll(EventsOf(n), NoRoot(0)) == Doc(Bare(n), 0)
  {
    assert Bare(n) == Node(n.name, n.attrs, "", [] + BareAll(n.children));
    hide AttributeList, EventsOfAll, BareAll, Bare;
    var empty := Node(n.name, n.attrs, "", []);
    var start, end := StartElement(n.name, AttributeList(n.attrs)), EndElement(n.name);
    AttributesRestored(n.attrs);
    HandleOne(start, NoRoot(0));
    RebuildsAll(n.children, empty, 1);
    HandleConcat([start], EventsOfAll(n.children), NoRoot(0));
    assert Bare(n) == Push(empty, 0, BareAll(n.children));
    HandleOne(end, Doc(Bare(n), 1));
    HandleConcat([start] + EventsOfAll(n.children), [end], NoRoot(0));
  }

  /** Printing and parsing again gives back the names, the attributes and the order of the children. */
  lemma PrintParse(n: Node)
    ensures var events := ScanAll(Printed(n, 0), Scanner([], NoTag)).events;
            HandleAll(events, NoRoot(0)) == Doc(Bare(n), 0)
  {
    hide AttributeList, Printed, EventsOf, Bare;
    PrintedTags(n, 0, []);
    assert [] + EventsOf(n) == EventsOf(n);
    TreeRebuilt(n);
  }

  class Document {
    var doc: Doc

    constructor ()
      ensures doc == NoRoot(0)
    {
      doc := NoRoot(0);
    }

    /** start_element_handler: down through the last children as often as the depth says. */
    method Start(name: string, attrs: Attributes)
      requires Sound(doc)
      modifies this
      ensures doc == Handle(StartElement(name, attrs), old(doc))
    {
      var map_ := ToMap(attrs);
      if doc.NoRoot? {
        doc := Doc(Node(name, map_, "", []), doc.depth);
      } else {
        var cld := doc.root;
        var i := 1;
        ghost var steps: nat := 0;
        while i < doc.depth
          invariant doc == old(doc) && 1 <= i && steps == i - 1 && steps <= Level(doc.depth)
          invariant Reaches(doc.root, steps) && cld == At(doc.root, steps)
          invariant Reaches(cld, Level(doc.depth) - steps)
        {
          AtNext(doc.root, steps);
          cld := cld.children[|cld.children| - 1];
          i := i + 1;
          steps := steps + 1;
        }
        doc := doc.(root := Push(doc.root, Level(doc.depth), [Node(name, map_, "", [])]));
      }
      doc := doc.(depth := doc.depth + 1);
    }

    method End(name: string)
      requires Sound(doc)
      modifies this
      ensures doc == Handle(EndElement(name), old(doc))
    {
      doc := doc.(depth := doc.depth - 1);
    }

    /**
     from_xml on a text in which the parser finds these events before it ends or, where `failed`, before an
     error. The error is thrown, and what was built so far stays.
     */
    method FromXml(events: seq<Event>, failed: bool) returns (thrown: bool)
      modifies this
      ensures doc == HandleAll(events, NoRoot(0)) && thrown == failed
    {
      doc := NoRoot(0);
      assert events[0..] == events;
      for i := 0 to |events|
        invariant Sound(doc) && HandleAll(events[i..], doc) == HandleAll(events, NoRoot(0))
      {
        assert events[i..][0] == events[i] && events[i..][1..] == events[i + 1..];
        match events[i] {
          case StartElement(name, attrs) => Start(name, attrs);
          case EndElement(name) => End(name);
        }
      }
      thrown := failed;
    }
  }

  lemma {:induction false} AtNext(n: Node, k: nat)
    requires Reaches(n, k) && Reaches(At(n, k), 1)
    ensures Reaches(n, k + 1)
    ensures At(n, k + 1) == At(n, k).children[|At(n, k).children| - 1]
    decreases k
  {
    if k > 0 {
      AtNext(n.children[|n.children| - 1], k - 1);
    }
  }
}
