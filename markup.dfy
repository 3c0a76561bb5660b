// The parsed HTML both preprocessors walk: a tree of comments, text and
// elements. Of an element's attributes only those the preprocessors look
// at are kept: `class` (a list of names), `id` and `role` (plain strings)
// and `alt`. The parser library's lookups used by the preprocessors are
// defined here on that tree: `find_in`, `find`, `.string` and the alt
// text of math images.
module Markup {
  import opened Text

  /** The attributes the preprocessors read; None when the attribute is absent. */
  datatype Attrs = Attrs(classes: Option<seq<string>>, id: Option<string>, role: Option<string>, alt: Option<string>)

  datatype Node =
    | Comment(text: string)
    | TextNode(text: string)
    | Element(name: string, attrs: Attrs, children: seq<Node>)

  /** The children of a node; text and comments have none. */
  function Children(n: Node): seq<Node>
  {
    if n.Element? then n.children else []
  }

  /** The number of nodes in a tree, used to bound recursion over it. */
  function NodeSize(n: Node): (r: nat)
    ensures r >= 1
  {
    if n.Element? then 1 + ListSize(n.children) else 1
  }

  /** One more than the number of nodes in a forest. */
  function ListSize(cs: seq<Node>): (r: nat)
    ensures r >= 1
  {
    if cs == [] then 1 else NodeSize(cs[0]) + ListSize(cs[1..])
  }

  /** Every child is smaller than its parent. */
  lemma {:induction false} ChildSmaller(cs: seq<Node>, i: nat)
    requires i < |cs|
    ensures NodeSize(cs[i]) < ListSize(cs)
  {
    if i > 0 {
      ChildSmaller(cs[1..], i - 1);
      assert cs[1..][i - 1] == cs[i];
    }
  }

  /** The three comparisons of `find_in`. */
  datatype SearchKind = Matches | SubstringOf | StartsWithPrefix

  /** One attribute value compared with s. */
  predicate Hit(value: string, s: string, kind: SearchKind)
  {
    match kind
    case Matches => value == s
    case SubstringOf => Contains(value, s)
    case StartsWithPrefix => StartsWith(value, s)
  }

  /** `find_in`: scans the values in order and answers at the first hit. */
  function FindIn(values: seq<string>, s: string, kind: SearchKind): (r: bool)
  {
    if values == [] then false
    else if Hit(values[0], s, kind) then true
    else FindIn(values[1..], s, kind)
  }

  /** `find_in` is true exactly when some value hits. */
  lemma {:induction false} FindInIff(values: seq<string>, s: string, kind: SearchKind)
    ensures FindIn(values, s, kind) <==> exists i :: 0 <= i < |values| && Hit(values[i], s, kind)
  {
    if values != [] {
      FindInIff(values[1..], s, kind);
      if !Hit(values[0], s, kind) && exists i :: 0 <= i < |values| && Hit(values[i], s, kind) {
        var i :| 0 <= i < |values| && Hit(values[i], s, kind);
        assert values[1..][i - 1] == values[i];
      }
      if FindIn(values[1..], s, kind) {
        var i :| 0 <= i < |values[1..]| && Hit(values[1..][i], s, kind);
        assert values[i + 1] == values[1..][i];
      }
    }
  }

  /** `find_in` on the class list of a node; false when it has none. */
  predicate ClassHit(n: Node, s: string, kind: SearchKind)
  {
    n.Element? && n.attrs.classes.Some? && FindIn(n.attrs.classes.value, s, kind)
  }

  /** The elements of a forest in document order (each before its descendants). */
  function Elements(cs: seq<Node>): seq<Node>
    decreases ListSize(cs)
  {
    if cs == [] then []
    else
      ChildSmaller(cs, 0);
      var here := if cs[0].Element? then [cs[0]] + Elements(cs[0].children) else [];
      here + Elements(cs[1..])
  }

  /** The first node of ns that is an element named `name`. */
  function FirstNamed(ns: seq<Node>, name: string): (r: Option<Node>)
    ensures r.Some? ==> r.value in ns && r.value.Element? && r.value.name == name
    ensures r.None? ==> forall n :: n in ns ==> !(n.Element? && n.name == name)
  {
    if ns == [] then None
    else if ns[0].Element? && ns[0].name == name then Some(ns[0])
    else FirstNamed(ns[1..], name)
  }

  lemma {:induction false} FirstNamedAppend(a: seq<Node>, b: seq<Node>, name: string)
    ensures FirstNamed(a + b, name) == if FirstNamed(a, name).Some? then FirstNamed(a, name) else FirstNamed(b, name)
  {
    if a != [] {
      FirstNamedAppend(a[1..], b, name);
      assert (a + b)[1..] == a[1..] + b;
    } else {
      assert a + b == b;
    }
  }

  /** `c.find(name)` over the children cs of c: a depth-first search for the first element named `name`. */
  function Find(cs: seq<Node>, name: string): (r: Option<Node>)
    decreases ListSize(cs)
  {
    if cs == [] then None
    else if cs[0].Element? && cs[0].name == name then Some(cs[0])
    else
      ChildSmaller(cs, 0);
      var inner := if cs[0].Element? then Find(cs[0].children, name) else None;
      if inner.Some? then inner else Find(cs[1..], name)
  }

  /** `find` returns the first element named `name` in document order, or None when there is none. */
  lemma {:induction false} FindIsFirstInDocumentOrder(cs: seq<Node>, name: string)
    ensures Find(cs, name) == FirstNamed(Elements(cs), name)
    decreases ListSize(cs)
  {
    if cs != [] {
      ChildSmaller(cs, 0);
      var here := if cs[0].Element? then [cs[0]] + Elements(cs[0].children) else [];
      FirstNamedAppend(here, Elements(cs[1..]), name);
      FindIsFirstInDocumentOrder(cs[1..], name);
      if cs[0].Element? {
        FindIsFirstInDocumentOrder(cs[0].children, name);
        assert here[1..] == Elements(cs[0].children);
      }
    }
  }

  /** The class prefix of the fallback image of a math formula. */
  const MathFallbackClass := "mwe-math-fallback-image"

  /**
   * `get_img_alt_text`: the alt text of the image found, provided it has a
   * class starting with the math fallback prefix and an alt attribute, and
   * "" in every other case.
   */
  function ImgAltText(img: Option<Node>): (r: string)
    ensures r != "" ==> img.Some? && ClassHit(img.value, MathFallbackClass, StartsWithPrefix)
    ensures img.Some? && ClassHit(img.value, MathFallbackClass, StartsWithPrefix) && img.value.attrs.alt.Some?
      ==> r == img.value.attrs.alt.value
    ensures img.None? || !img.value.Element? || img.value.attrs.alt.None? ==> r == ""
  {
    if img.None? then ""
    else if ClassHit(img.value, MathFallbackClass, StartsWithPrefix) && img.value.attrs.alt.Some? then
      img.value.attrs.alt.value
    else ""
  }

  /**
   * The parser library's `.string`: the text of a text or comment node, and
   * for an element with exactly one child that child's `.string`; None
   * otherwise.
   */
  function StringOf(n: Node): (r: Option<string>)
    decreases NodeSize(n)
  {
    if !n.Element? then Some(n.text)
    else if |n.children| == 1 then
      ChildSmaller(n.children, 0);
      StringOf(n.children[0])
    else None
  }

  /** An element with other than one child has no `.string`; a single text leaf at the bottom of a chain of only children is the `.string`. */
  lemma StringOfFacts(name: string, attrs: Attrs, cs: seq<Node>, t: string)
    ensures |cs| != 1 ==> StringOf(Element(name, attrs, cs)) == None
    ensures StringOf(Element(name, attrs, [TextNode(t)])) == Some(t)
    ensures StringOf(Element(name, attrs, [Element(name, attrs, [TextNode(t)])])) == Some(t)
  {
    ChildSmaller([TextNode(t)], 0);
  }
}
