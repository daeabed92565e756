/** The abstract document: an element is a record of its attributes (a string
    map), its classes (a set) and a few layout facts; a page is an array or a
    sequence of such records in document order. */
module Dom {

  datatype Option<+T> = None | Some(value: T)

  /** jQuery `el.attr(key)` read as a string: an absent attribute reads as the
      empty string, which every script then treats as false. */
  function Attr(attrs: map<string, string>, key: string): (v: string)
    ensures key !in attrs ==> v == ""
    ensures key in attrs ==> v == attrs[key]
  {
    if key in attrs then attrs[key] else ""
  }

  /** A generic element: tag name, attributes, classes and text content. */
  datatype Element = Element(tag: string, attrs: map<string, string>, classes: set<string>, text: string)

  function SetAttr(e: Element, key: string, value: string): (r: Element)
    ensures r.tag == e.tag && r.classes == e.classes && r.text == e.text
    ensures Attr(r.attrs, key) == value
    ensures forall k :: k != key ==> Attr(r.attrs, k) == Attr(e.attrs, k)
  {
    e.(attrs := e.attrs[key := value])
  }

  /** An `<img>` element. `galleryItem` is the position of the enclosing
      `.gallery-item` among all gallery items, if the image sits inside one;
      `offsetTop` is its vertical offset in pixels. */
  datatype Image = Image(attrs: map<string, string>, classes: set<string>, galleryItem: Option<nat>, offsetTop: int)

  const Loaded := "loaded"
  const ErrorHandled := "error-handled"
  /** The static image every variant falls back to. */
  const FallbackImage := "img/1.jpg"

  function Src(img: Image): string { Attr(img.attrs, "src") }
  function DataSrc(img: Image): string { Attr(img.attrs, "data-src") }

  /** `img[data-src]`: the attribute is present, possibly empty. */
  predicate HasDataSrcAttr(img: Image) { "data-src" in img.attrs }

  function WithAttr(img: Image, key: string, value: string): (r: Image)
    ensures r.classes == img.classes && r.galleryItem == img.galleryItem && r.offsetTop == img.offsetTop
    ensures Attr(r.attrs, key) == value && key in r.attrs
    ensures forall k :: k != key ==> (k in r.attrs <==> k in img.attrs) && Attr(r.attrs, k) == Attr(img.attrs, k)
  {
    img.(attrs := img.attrs[key := value])
  }

  function WithClass(img: Image, c: string): (r: Image)
    ensures r.attrs == img.attrs && r.galleryItem == img.galleryItem && r.offsetTop == img.offsetTop
    ensures r.classes == img.classes + {c}
  {
    img.(classes := img.classes + {c})
  }
}
