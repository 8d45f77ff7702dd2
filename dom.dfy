/**
 * An abstract HTML tree standing in for the `select` crate's `Document` and
 * `Node`: text nodes and elements (name, classes, attributes, children),
 * `text()`, `children()`, `attr()`, `first_child()`, and `find(predicate)`
 * as a preorder filter.
 */
module Dom {
  import opened Wrappers
  import opened Strings

  datatype Attribute = Attribute(name: string, value: string)

  datatype Node =
    | Text(content: string)
    | Element(name: string, classes: seq<string>, attrs: seq<Attribute>, children: seq<Node>)

  /** A parsed page: its top-level nodes in document order. */
  datatype Document = Document(roots: seq<Node>)

  /** `Node::children`: a text node has none. */
  function Children(n: Node): seq<Node>
  {
    if n.Element? then n.children else []
  }

  /** `Node::first_child`. */
  function FirstChild(n: Node): Option<Node>
  {
    if Children(n) == [] then None else Some(Children(n)[0])
  }

  /** `Node::text`: the text of every descendant text node, in document order. */
  function TextOf(n: Node): string
  {
    match n
    case Text(s) => s
    case Element(_, _, _, cs) => TextOfAll(cs)
  }

  function TextOfAll(ns: seq<Node>): string
  {
    if ns == [] then [] else TextOf(ns[0]) + TextOfAll(ns[1..])
  }

  /** `Node::attr`: the value of the first attribute with that name. */
  function GetAttr(n: Node, name: string): (r: Option<string>)
    ensures r.Some? ==> n.Element? && Attribute(name, r.value) in n.attrs
  {
    if n.Text? then None else AttrIn(n.attrs, name)
  }

  function AttrIn(attrs: seq<Attribute>, name: string): (r: Option<string>)
    ensures r.Some? ==> Attribute(name, r.value) in attrs
  {
    if attrs == [] then None
    else if attrs[0].name == name then Some(attrs[0].value)
    else AttrIn(attrs[1..], name)
  }

  /** Every node of the forest `ns`, each followed by its descendants: document order. */
  function Preorder(ns: seq<Node>): seq<Node>
  {
    if ns == [] then []
    else match ns[0]
      case Text(_) => [ns[0]] + Preorder(ns[1..])
      case Element(_, _, _, cs) => [ns[0]] + Preorder(cs) + Preorder(ns[1..])
  }

  /** `Node::descendants`: the node's proper descendants in document order (not the node itself). */
  function Descendants(n: Node): seq<Node>
  {
    Preorder(Children(n))
  }

  /** The predicates of `select::predicate` that the scraper uses. */
  datatype Selector =
    | Class(className: string)              // Class("x")
    | BothClasses(first: string, second: string)  // And(Class("x"), Class("y"))
    | Name(tag: string)                     // Name("a")
    | AttrIs(attr: string, value: string)   // Attr("id", "x")
    | IsText                                // Text

  predicate Matches(sel: Selector, n: Node)
  {
    match sel
    case Class(c) => n.Element? && c in n.classes
    case BothClasses(c, d) => n.Element? && c in n.classes && d in n.classes
    case Name(tag) => n.Element? && n.name == tag
    case AttrIs(a, v) => GetAttr(n, a) == Some(v)
    case IsText => n.Text?
  }

  /** The nodes of `ns` that match `sel`, in their order. */
  function Filter(sel: Selector, ns: seq<Node>): (r: seq<Node>)
    ensures |r| <= |ns|
  {
    if ns == [] then []
    else if Matches(sel, ns[0]) then [ns[0]] + Filter(sel, ns[1..])
    else Filter(sel, ns[1..])
  }

  /** `Node::find`: matching proper descendants in document order. */
  function Find(n: Node, sel: Selector): seq<Node>
  {
    Filter(sel, Descendants(n))
  }

  /** `Document::find`: every matching node of the page in document order. */
  function FindInDocument(doc: Document, sel: Selector): seq<Node>
  {
    Filter(sel, Preorder(doc.roots))
  }

  /** `children().filter(|n| !n.is(Text))`. */
  function ElementChildren(n: Node): seq<Node>
  {
    ElementsOf(Children(n))
  }

  function ElementsOf(ns: seq<Node>): (r: seq<Node>)
    ensures |r| <= |ns|
  {
    if ns == [] then []
    else if ns[0].Element? then [ns[0]] + ElementsOf(ns[1..])
    else ElementsOf(ns[1..])
  }

  // ---- Laws of the tree model ----

  /** `Filter` keeps exactly the matching nodes. */
  lemma {:induction false} FilterMembers(sel: Selector, ns: seq<Node>)
    ensures forall x :: x in Filter(sel, ns) <==> x in ns && Matches(sel, x)
  {
    if ns != [] {
      FilterMembers(sel, ns[1..]);
      assert ns == [ns[0]] + ns[1..];
    }
  }

  /** The non-text children are exactly the element children. */
  lemma {:induction false} ElementsOfMembers(ns: seq<Node>)
    ensures forall x :: x in ElementsOf(ns) <==> x in ns && x.Element?
  {
    if ns != [] {
      ElementsOfMembers(ns[1..]);
      assert ns == [ns[0]] + ns[1..];
    }
  }

  /** `AttrIn` finds nothing exactly when no attribute has the name. */
  lemma {:induction false} AttrInAbsent(attrs: seq<Attribute>, name: string)
    ensures AttrIn(attrs, name).None? <==> forall a :: a in attrs ==> a.name != name
  {
    if attrs != [] {
      AttrInAbsent(attrs[1..], name);
      assert attrs == [attrs[0]] + attrs[1..];
    }
  }

  lemma {:induction false} TextOfAllAppend(a: seq<Node>, b: seq<Node>)
    ensures TextOfAll(a + b) == TextOfAll(a) + TextOfAll(b)
  {
    if a == [] {
      assert a + b == b;
    } else {
      assert (a + b)[0] == a[0] && (a + b)[1..] == a[1..] + b;
      TextOfAllAppend(a[1..], b);
    }
  }

  lemma {:induction false} FilterAppend(sel: Selector, a: seq<Node>, b: seq<Node>)
    ensures Filter(sel, a + b) == Filter(sel, a) + Filter(sel, b)
  {
    if a == [] {
      assert a + b == b;
    } else {
      assert (a + b)[0] == a[0] && (a + b)[1..] == a[1..] + b;
      FilterAppend(sel, a[1..], b);
    }
  }

  /**
   * The text of a forest is exactly the concatenation, in document order, of
   * its text nodes: what `find(Text)` visits loses and adds nothing.
   */
  lemma {:induction false} TextNodesSpellText(ns: seq<Node>)
    ensures TextOfAll(Filter(IsText, Preorder(ns))) == TextOfAll(ns)
  {
    if ns != [] {
      match ns[0]
      case Text(_) =>
        TextNodesSpellText(ns[1..]);
        assert Preorder(ns) == [ns[0]] + Preorder(ns[1..]);
        FilterAppend(IsText, [ns[0]], Preorder(ns[1..]));
        TextOfAllAppend([ns[0]], Filter(IsText, Preorder(ns[1..])));
      case Element(_, _, _, cs) =>
        TextNodesSpellText(cs);
        TextNodesSpellText(ns[1..]);
        assert Preorder(ns) == [ns[0]] + (Preorder(cs) + Preorder(ns[1..]));
        FilterAppend(IsText, [ns[0]], Preorder(cs) + Preorder(ns[1..]));
        FilterAppend(IsText, Preorder(cs), Preorder(ns[1..]));
        TextOfAllAppend(Filter(IsText, Preorder(cs)), Filter(IsText, Preorder(ns[1..])));
    }
  }

  /** For an element: its `text()` is the concatenation of the texts `find(Text)` yields. */
  lemma TextIsTextDescendants(n: Node)
    requires n.Element?
    ensures TextOfAll(Find(n, IsText)) == TextOf(n)
  {
    TextNodesSpellText(n.children);
  }
}
