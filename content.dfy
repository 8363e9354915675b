/** The content-store records both the centre resolver and the canvas work
    on: element trees with relative offsets, and connections between ids. */
module Content {
  import opened Base

  /** The `_type` tag of an element. Tags outside the five known ones are kept
      as they are: the canvas gives them the lowest drawing priority and draws
      nothing for them. By convention a kind is read from its tag with
      `KindOf`, so `OtherKind` holds only tags outside the five known ones
      (`WellTagged`); the type itself does not enforce this. */
  datatype Kind =
    | TitleElement
    | ButtonElement
    | DescriptionElement
    | ImageElement
    | VideoElement
    | OtherKind(tag: string)

  /** The five `_type` values the canvas knows. */
  const KnownTags: seq<string> :=
    ["titleElement", "buttonElement", "descriptionElement", "imageElement", "videoElement"]

  /** The `_type` string of a kind. */
  function Tag(k: Kind): (tag: string)
    ensures k.OtherKind? ==> tag == k.tag
    ensures !k.OtherKind? ==> tag in KnownTags
  {
    match k
    case TitleElement => "titleElement"
    case ButtonElement => "buttonElement"
    case DescriptionElement => "descriptionElement"
    case ImageElement => "imageElement"
    case VideoElement => "videoElement"
    case OtherKind(t) => t
  }

  /** An unknown kind never carries a known tag. */
  predicate WellTagged(k: Kind)
  {
    k.OtherKind? ==> k.tag !in KnownTags
  }

  /** The kind of an element with this `_type`: a known tag gives its own
      kind, any other tag is kept as `OtherKind`. */
  function KindOf(tag: string): (k: Kind)
    ensures WellTagged(k) && Tag(k) == tag
    ensures k.OtherKind? <==> tag !in KnownTags
  {
    if tag == "titleElement" then TitleElement
    else if tag == "buttonElement" then ButtonElement
    else if tag == "descriptionElement" then DescriptionElement
    else if tag == "imageElement" then ImageElement
    else if tag == "videoElement" then VideoElement
    else OtherKind(tag)
  }

  /** Reading back the tag of a well-tagged kind gives that kind. */
  lemma TagRoundTrip(k: Kind)
    requires WellTagged(k)
    ensures KindOf(Tag(k)) == k
  {
  }

  type PositiveReal = r: real | r > 0.0 witness 1.0

  /** `src.metadata.dimensions` of an image asset: its natural pixel size. */
  datatype Dimensions = Dimensions(width: PositiveReal, height: real)

  /** The `src` asset of an element, with its optional metadata dimensions. */
  datatype Asset = Asset(dimensions: Option<Dimensions>)

  /** One content node. `x`, `y` are offsets from the parent (a centre or
      another element); `width`/`height` are `null` until known. */
  datatype Element = Element(
    id: string,
    kind: Kind,
    x: real,
    y: real,
    color: Option<string>,
    width: Option<real>,
    height: Option<real>,
    src: Option<Asset>,
    childElements: ChildList)

  /** The `childElements` field: absent (`null`/`undefined`) or a list. */
  datatype ChildList = Missing | Listed(items: seq<Element>)

  /** A declared link between element ids. */
  datatype Connection = Connection(ids: seq<string>)

  /** `el.childElements || []`. */
  function Children(el: Element): (cs: seq<Element>)
    ensures el.childElements.Listed? ==> cs == el.childElements.items
    ensures el.childElements.Missing? ==> cs == []
  {
    match el.childElements
    case Missing => []
    case Listed(cs) => cs
  }

  /** Number of nodes in the tree rooted at `el`. */
  function Size(el: Element): (n: nat)
    ensures n >= 1
  {
    match el.childElements
    case Missing => 1
    case Listed(cs) => 1 + ForestSize(cs)
  }

  /** Number of nodes in a sequence of trees. */
  function ForestSize(cs: seq<Element>): nat
  {
    if cs == [] then 0 else Size(cs[0]) + ForestSize(cs[1..])
  }
}
