/**
 The printed text of an element tree, read line by line: how deep each tag is indented, where the texts
 stand, and in which order the attributes of a tag come.
 */
module XmlLayout {
  import opened Ordering
  import opened Xml

  datatype Place = LineStart | Indented(spaces: nat) | InTag | InLine

  /** A reader of the lines: the number of open elements, the place in the line, the texts it has met. */
  datatype Page = Page(depth: int, place: Place, texts: seq<(int, string)>, ok: bool)

  /** A start tag opens a line, two spaces per open element; an end tag does too or closes its own line. */
  function Lay(p: Piece, g: Page): Page {
    match p
    case Indent(n) => g.(place := Indented(n), ok := g.ok && g.place == LineStart)
    case TagName(_) => g.(place := InTag, ok := g.ok && g.place.Indented? && g.place.spaces == 2 * g.depth)
    case Attribute(_, _) => g.(ok := g.ok && g.place == InTag)
    case TagEnd => g.(place := InLine, depth := g.depth + 1, ok := g.ok && g.place == InTag)
    case EmptyTagEnd => g.(place := InLine, ok := g.ok && g.place == InTag)
    case Text(t) => g.(texts := g.texts + [(g.depth, t)], ok := g.ok && g.place == InLine && t != "")
    case NewLine => g.(place := LineStart, ok := g.ok && g.place == InLine)
    case Closing(_) =>
      g.(place := InLine, depth := g.depth - 1,
         ok := g.ok && (g.place == InLine || g.place == Indented(if g.depth > 0 then 2 * (g.depth - 1) else 1)))
  }

  function LayAll(pieces: seq<Piece>, g: Page): Page {
    if pieces == [] then g else LayAll(pieces[1..], Lay(pieces[0], g))
  }

  lemma {:induction false} LayConcat(a: seq<Piece>, b: seq<Piece>, g: Page)
    ensures LayAll(a + b, g) == LayAll(b, LayAll(a, g))
    decreases |a|
  {
    if a == [] {
      assert a + b == b;
    } else {
      assert (a + b)[0] == a[0] && (a + b)[1..] == a[1..] + b;
      LayConcat(a[1..], b, Lay(a[0], g));
    }
  }

  lemma LayTwo(p: Piece, q: Piece, g: Page)
    ensures LayAll([p, q], g) == Lay(q, Lay(p, g))
  {
    assert [p, q][1..] == [q] && [q][1..] == [];
    assert LayAll([q], Lay(p, g)) == Lay(q, Lay(p, g));
  }

  lemma {:induction false} AttributesLay(list: Attributes, g: Page)
    requires g.place == InTag
    ensures LayAll(AttributePieces(list), g) == g
    decreases |list|
  {
    if list != [] {
      assert AttributePieces(list)[1..] == AttributePieces(list[1..]);
      AttributesLay(list[1..], g);
    }
  }

  /** The texts of a tree in document order, each with the number of elements around it. */
  function TextsOf(n: Node, depth: int): seq<(int, string)>
    decreases n, 0
  {
    (if n.cdata == "" then [] else [(depth + 1, n.cdata)]) + TextsOfAll(n.children, depth + 1)
  }

  function TextsOfAll(nodes: seq<Node>, depth: int): seq<(int, string)>
    decreases nodes, 1
  {
    if nodes == [] then [] else TextsOfAll(nodes[..|nodes| - 1], depth) + TextsOf(nodes[|nodes| - 1], depth)
  }

  /** A tree is printed on lines of its own, each tag indented by its depth, with all its texts in order. */
  lemma {:induction false} PrintedLines(n: Node, depth: nat, texts: seq<(int, string)>)
    ensures LayAll(Printed(n, depth), Page(depth, LineStart, texts, true))
         == Page(depth, LineStart, texts + TextsOf(n, depth), true)
    decreases n, 1
  {
    var g, list := Page(depth, LineStart, texts, true), AttributeList(n.attrs);
    var tag := [Indent(depth * 2), TagName(n.name)];
    hide AttributeList, AttributePieces, Inside, TextsOf;
    LayConcat(tag + AttributePieces(list), Inside(n, depth), g);
    LayConcat(tag, AttributePieces(list), g);
    LayTwo(Indent(depth * 2), TagName(n.name), g);
    AttributesLay(list, Page(depth, InTag, texts, true));
    InsideLines(n, depth, texts);
  }

  lemma {:induction false} InsideLines(n: Node, depth: nat, texts: seq<(int, string)>)
    ensures LayAll(Inside(n, depth), Page(depth, InTag, texts, true))
         == Page(depth, LineStart, texts + TextsOf(n, depth), true)
    decreases n, 0
  {
    hide PrintedAll, LayAll;
    var g := Page(depth, InTag, texts, true);
    if n.cdata == "" && n.children == [] {
      LayTwo(EmptyTagEnd, NewLine, g);
      assert TextsOf(n, depth) == [] && texts + [] == texts;
    } else {
      hide TextsOfAll;
      var own := if n.cdata != "" then [(depth + 1, n.cdata)] else [];
      var text := if n.cdata != "" then [Text(n.cdata)] else [];
      var middle := if n.children != []
                    then [NewLine] + PrintedAll(n.children, depth + 1) + [Indent(depth * 2)] else [];
      var all := TextsOfAll(n.children, depth + 1);
      var place := if n.children != [] then Indented(depth * 2) else InLine;
      BeginLines(n, g);
      MiddleLines(n, depth, texts + own);
      LayTwo(Closing(n.name), NewLine, Page(depth + 1, place, texts + own + all, true));
      LayConcat([TagEnd] + text + middle, [Closing(n.name), NewLine], g);
      LayConcat([TagEnd] + text, middle, g);
      assert texts + own + all == texts + TextsOf(n, depth);
    }
  }

  lemma BeginLines(n: Node, g: Page)
    requires g.place == InTag && g.ok
    ensures LayAll([TagEnd] + (if n.cdata != "" then [Text(n.cdata)] else []), g)
         == Page(g.depth + 1, InLine,
                 g.texts + (if n.cdata != "" then [(g.depth + 1, n.cdata)] else []), true)
  {
    if n.cdata != "" {
      LayTwo(TagEnd, Text(n.cdata), g);
      assert [TagEnd] + [Text(n.cdata)] == [TagEnd, Text(n.cdata)];
    } else {
      assert [TagEnd] + [] == [TagEnd] && [TagEnd][1..] == [] && g.texts + [] == g.texts;
    }
  }

  lemma {:induction false} MiddleLines(n: Node, depth: nat, texts: seq<(int, string)>)
    ensures LayAll(if n.children != []
                   then [NewLine] + PrintedAll(n.children, depth + 1) + [Indent(depth * 2)] else [],
                   Page(depth + 1, InLine, texts, true))
         == Page(depth + 1, if n.children != [] then Indented(depth * 2) else InLine,
                 texts + TextsOfAll(n.children, depth + 1), true)
    decreases n, 0, 0
  {
    var g := Page(depth + 1, InLine, texts, true);
    if n.children == [] {
      assert texts + [] == texts;
    } else {
      var all, after := PrintedAll(n.children, depth + 1), texts + TextsOfAll(n.children, depth + 1);
      LayConcat([NewLine] + all, [Indent(depth * 2)], g);
      LayConcat([NewLine], all, g);
      assert [NewLine][1..] == [] && [Indent(depth * 2)][1..] == [];
      PrintedAllLines(n.children, depth + 1, texts);
      assert LayAll([Indent(depth * 2)], Page(depth + 1, LineStart, after, true))
          == Page(depth + 1, Indented(depth * 2), after, true);
    }
  }

  lemma {:induction false} PrintedAllLines(nodes: seq<Node>, depth: nat, texts: seq<(int, string)>)
    ensures LayAll(PrintedAll(nodes, depth), Page(depth, LineStart, texts, true))
         == Page(depth, LineStart, texts + TextsOfAll(nodes, depth), true)
    decreases nodes
  {
    if nodes == [] {
      assert texts + [] == texts;
    } else {
      hide Printed, TextsOf;
      var most, last := nodes[..|nodes| - 1], nodes[|nodes| - 1];
      var before := TextsOfAll(most, depth);
      LayConcat(PrintedAll(most, depth), Printed(last, depth), Page(depth, LineStart, texts, true));
      PrintedAllLines(most, depth, texts);
      PrintedLines(last, depth, texts + before);
      assert texts + before + TextsOf(last, depth) == texts + (before + TextsOf(last, depth));
    }
  }

  /** The attributes of a tag come in the order of a dictionary, each once, with its value. */
  lemma AttributesAscend(attrs: map<string, string>)
    ensures var list := AttributeList(attrs);
            && |list| == |attrs|
            && (forall i :: 0 <= i < |list| ==> list[i].0 in attrs && list[i].1 == attrs[list[i].0])
            && forall i, j :: 0 <= i < j < |list| ==>
                 && list[i].0 != list[j].0
                 && (list[i].0 < list[j].0 || exists k: nat :: DiffersAt(list[i].0, list[j].0, k))
  {
    var list, keys := AttributeList(attrs), SortedKeys(attrs);
    StringLessStrictTotal();
    InOrderVisits(StringLess, attrs.Keys);
    assert |attrs.Keys| == |attrs|;
    hide StrictTotal, StringLess, InOrder, DiffersAt;
    forall i, j | 0 <= i < j < |list|
      ensures list[i].0 != list[j].0
      ensures list[i].0 < list[j].0 || exists k: nat :: DiffersAt(list[i].0, list[j].0, k)
    {
      StringLessIff(keys[i], keys[j]);
    }
  }
}
