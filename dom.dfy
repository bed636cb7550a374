/**
 * The part of the W3C DOM the Autoconf reader walks: elements with a name, attributes and
 * children, text nodes, and comments (which carry text but add nothing to an element's text).
 */
module Dom {

  datatype Node =
    | Element(name: string, attributes: map<string, string>, children: seq<Node>)
    | Text(data: string)
    | Comment(data: string)

  type ElementNode = n: Node | n.Element? witness Element("", map[], [])

  /** A parsed document: its root element. */
  datatype Document = Document(documentElement: ElementNode)

  /**
   * Node.getTextContent: for text and comment nodes their data; for an element the
   * concatenation of the text content of its children, comments left out.
   */
  function TextContent(n: Node): string
    decreases n, 1
  {
    match n
    case Element(_, _, children) => ChildrenText(children)
    case Text(data) => data
    case Comment(data) => data
  }

  function ChildrenText(cs: seq<Node>): string
    decreases cs, 0
  {
    if cs == [] then ""
    else (if cs[0].Comment? then "" else TextContent(cs[0])) + ChildrenText(cs[1..])
  }

  /** An element whose children are all text nodes has the concatenation of their data as text. */
  lemma {:induction false} TextOfTextChildren(cs: seq<Node>)
    requires forall i :: 0 <= i < |cs| ==> cs[i].Text?
    ensures ChildrenText(cs) == ConcatData(cs)
  {
    if cs != [] {
      TextOfTextChildren(cs[1..]);
    }
  }

  function ConcatData(cs: seq<Node>): string
    requires forall i :: 0 <= i < |cs| ==> cs[i].Text?
  {
    if cs == [] then "" else cs[0].data + ConcatData(cs[1..])
  }

  /** Comments add nothing to the text of an element. */
  lemma {:induction false} CommentsAddNoText(cs: seq<Node>, i: nat, c: string)
    requires i <= |cs|
    ensures ChildrenText(cs[..i] + [Comment(c)] + cs[i..]) == ChildrenText(cs)
  {
    var cs' := cs[..i] + [Comment(c)] + cs[i..];
    if i == 0 {
      assert cs'[1..] == cs;
    } else {
      assert cs'[0] == cs[0];
      assert cs'[1..] == cs[1..][..i - 1] + [Comment(c)] + cs[1..][i - 1..];
      CommentsAddNoText(cs[1..], i - 1, c);
    }
  }

  /**
   * getElementStreamOf(node.getChildNodes()): the element children, in document order, every
   * other kind of child skipped.
   */
  function ChildElements(cs: seq<Node>): (r: seq<ElementNode>)
    ensures |r| <= |cs|
    ensures forall e :: e in r <==> e in cs && e.Element?
  {
    if cs == [] then []
    else if cs[0].Element? then [cs[0]] + ChildElements(cs[1..])
    else ChildElements(cs[1..])
  }

  /** The element stream of two child lists one after the other is the two streams one after the other. */
  lemma {:induction false} ChildElementsOfAppend(a: seq<Node>, b: seq<Node>)
    ensures ChildElements(a + b) == ChildElements(a) + ChildElements(b)
  {
    if a == [] {
      assert a + b == b;
    } else {
      assert (a + b)[0] == a[0];
      assert (a + b)[1..] == a[1..] + b;
      ChildElementsOfAppend(a[1..], b);
    }
  }

  /** Element.hasAttribute */
  predicate HasAttribute(e: ElementNode, attribute: string)
  {
    attribute in e.attributes
  }

  /** Element.getAttribute: the value, or the empty string when the attribute is absent. */
  function GetAttribute(e: ElementNode, attribute: string): (r: string)
    ensures HasAttribute(e, attribute) ==> r == e.attributes[attribute]
    ensures !HasAttribute(e, attribute) ==> r == ""
  {
    if attribute in e.attributes then e.attributes[attribute] else ""
  }
}
