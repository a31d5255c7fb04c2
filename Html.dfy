/** The document tree that Go's `html.Parse` produces, reduced to what the
    crawler reads: the node kind, the tag name, the attribute list and the
    children in document order (the `FirstChild`/`NextSibling` chain). */
module Html {

  import opened Wrappers

  /** One attribute: its key and its value (`html.Attribute.Key`, `.Val`). */
  type Attribute = (string, string)

  datatype Node = Node(isElement: bool, tag: string, attrs: seq<Attribute>, children: seq<Node>)

  /** The position of the first `href` attribute, or `|attrs|` if there is none:
      the point where the attribute loop of `visitLinks` stops. */
  function HrefIndex(attrs: seq<Attribute>): (k: nat)
    ensures k <= |attrs|
    ensures forall j :: 0 <= j < k ==> attrs[j].0 != "href"
    ensures k < |attrs| ==> attrs[k].0 == "href"
  {
    if attrs == [] then 0
    else if attrs[0].0 == "href" then 0
    else 1 + HrefIndex(attrs[1..])
  }

  /** The link target an element offers: only `<a>` elements have one, and
      only the value of their first `href` attribute counts. */
  function Href(n: Node): (h: Option<string>)
    ensures h.Some? <==> n.isElement && n.tag == "a" && exists j :: 0 <= j < |n.attrs| && n.attrs[j].0 == "href"
    ensures h.Some? ==> exists j :: 0 <= j < |n.attrs| && n.attrs[j] == ("href", h.value)
                                 && forall i :: 0 <= i < j ==> n.attrs[i].0 != "href"
  {
    if n.isElement && n.tag == "a" && HrefIndex(n.attrs) < |n.attrs| then
      Some(n.attrs[HrefIndex(n.attrs)].1)
    else
      None
  }
}
