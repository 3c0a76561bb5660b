// The first generation of the preprocessor: a flat classifier over the
// top-level children of the article body. The heading is read with
// `parse_h1`, section headings with `parse_h`, everything else with the
// recursive `parse_html`; sections and the three miscellaneous buckets
// are kept in two ordered dicts and merged at the end.
module Legacy {
  import opened Text
  import opened Markup
  import opened OrderedDict
  import Extract

  /** The element names whose `.string` `parse_html` discards. */
  const Silenced: seq<string> := ["sup", "style", "caption"]

  /** The subheadings whose text is appended to the current section. */
  const Subheadings: seq<string> := ["h3", "h4", "h5", "h6"]

  /** The class of the span holding a section heading's text. */
  const HeadlineClass := "mw-headline"

  // ---------------------------------------------------------------------
  // Text of a tree
  // ---------------------------------------------------------------------

  /** All text and comment leaves of a tree, in document order. */
  ghost function LeafText(n: Node): string
    decreases NodeSize(n), 1
  {
    if n.Element? then LeafTextList(n.children) else n.text
  }

  ghost function LeafTextList(cs: seq<Node>): string
    decreases ListSize(cs), 0
  {
    if cs == [] then []
    else
      ChildSmaller(cs, 0);
      LeafText(cs[0]) + LeafTextList(cs[1..])
  }

  /** Whenever a node has a `.string`, it is all the text under the node. */
  lemma {:induction false} StringIsText(n: Node)
    requires StringOf(n).Some?
    ensures StringOf(n).value == LeafText(n)
    decreases NodeSize(n)
  {
    if n.Element? {
      ChildSmaller(n.children, 0);
      StringIsText(n.children[0]);
      assert n.children[1..] == [];
      assert LeafText(n) == LeafText(n.children[0]) + LeafTextList(n.children[1..]);
    }
  }

  // ---------------------------------------------------------------------
  // parse_h1
  // ---------------------------------------------------------------------

  /** `parse_h1`: the `.string` of each child that has one, concatenated in order. */
  function H1Text(cs: seq<Node>): string
    decreases |cs|
  {
    if cs == [] then []
    else (if StringOf(cs[0]).Some? then StringOf(cs[0]).value else []) + H1Text(cs[1..])
  }

  /** The title holds only characters of the heading's own text; nothing is added between the pieces. */
  lemma {:induction false} H1TextFromText(cs: seq<Node>)
    ensures forall ch :: ch in H1Text(cs) ==> ch in LeafTextList(cs)
    decreases |cs|
  {
    if cs != [] {
      H1TextFromText(cs[1..]);
      ChildSmaller(cs, 0);
      if StringOf(cs[0]).Some? {
        StringIsText(cs[0]);
      }
    }
  }

  /** When every child has a `.string` (text leaves, say), the title is the heading's whole text. */
  lemma {:induction false} H1TextAllStrings(cs: seq<Node>)
    requires forall i :: 0 <= i < |cs| ==> StringOf(cs[i]).Some?
    ensures H1Text(cs) == LeafTextList(cs)
    decreases |cs|
  {
    if cs != [] {
      ChildSmaller(cs, 0);
      StringIsText(cs[0]);
      H1TextAllStrings(cs[1..]);
    }
  }

  method ParseH1(h: Node) returns (hstr: string)
    requires h.Element?
    ensures hstr == H1Text(h.children)
  {
    var cs := h.children;
    hstr := [];
    var i := 0;
    while i < |cs|
      invariant 0 <= i <= |cs|
      invariant hstr + H1Text(cs[i..]) == H1Text(cs)
    {
      assert cs[i..][0] == cs[i] && cs[i..][1..] == cs[i + 1..];
      var s := StringOf(cs[i]);
      if s.Some? {
        hstr := hstr + s.value;
      }
      i := i + 1;
    }
    assert cs[i..] == [];
  }

  // ---------------------------------------------------------------------
  // parse_h
  // ---------------------------------------------------------------------

  /** The `.string` of the first of cs that has one. */
  function FirstString(cs: seq<Node>): (r: Option<string>)
    ensures r.Some? ==> exists i :: 0 <= i < |cs| && StringOf(cs[i]) == r
    ensures r.None? <==> forall i :: 0 <= i < |cs| ==> StringOf(cs[i]).None?
    decreases |cs|
  {
    if cs == [] then None
    else if StringOf(cs[0]).Some? then StringOf(cs[0])
    else
      var r := FirstString(cs[1..]);
      assert forall i :: 1 <= i < |cs| ==> cs[i] == cs[1..][i - 1];
      r
  }

  /**
   * What one child of a heading answers: for a headline span its own
   * `.string`, or failing that the first `.string` among its children;
   * None for any other child and for a span with neither.
   */
  function HeadlineOf(c: Node): Option<string>
  {
    if ClassHit(c, HeadlineClass, Matches) then
      if StringOf(c).Some? then StringOf(c) else FirstString(c.children)
    else None
  }

  /**
   * `parse_h` over a heading's children; None stands for the exception
   * raised when the attribute test reaches a text or comment child before
   * any headline has answered, Some("") for a heading without an answer.
   */
  function Headline(cs: seq<Node>): Option<string>
    decreases |cs|
  {
    if cs == [] then Some([])
    else if !cs[0].Element? then None
    else if HeadlineOf(cs[0]).Some? then HeadlineOf(cs[0])
    else Headline(cs[1..])
  }

  /**
   * The heading text is decided by the first child that is either not an
   * element (the exception) or a headline that answers (its answer).
   */
  lemma {:induction false} HeadlineIsFirstAnswer(cs: seq<Node>, i: nat)
    requires i < |cs|
    requires forall j :: 0 <= j < i ==> cs[j].Element? && HeadlineOf(cs[j]).None?
    ensures !cs[i].Element? ==> Headline(cs) == None
    ensures cs[i].Element? && HeadlineOf(cs[i]).Some? ==> Headline(cs) == HeadlineOf(cs[i])
  {
    if i > 0 {
      assert forall j :: 0 <= j < i - 1 ==> cs[1..][j] == cs[j + 1];
      HeadlineIsFirstAnswer(cs[1..], i - 1);
    }
  }

  /** A heading whose children are all elements and none answers has the empty text. */
  lemma {:induction false} HeadlineDefault(cs: seq<Node>)
    requires forall j :: 0 <= j < |cs| ==> cs[j].Element? && HeadlineOf(cs[j]).None?
    ensures Headline(cs) == Some([])
    decreases |cs|
  {
    if cs != [] {
      assert forall j :: 0 <= j < |cs| - 1 ==> cs[1..][j] == cs[j + 1];
      HeadlineDefault(cs[1..]);
    }
  }

  method ParseH(h: Node) returns (r: Option<string>)
    requires h.Element?
    ensures r == Headline(h.children)
  {
    var cs := h.children;
    var i := 0;
    while i < |cs|
      invariant 0 <= i <= |cs|
      invariant Headline(cs[i..]) == Headline(cs)
    {
      assert cs[i..][0] == cs[i] && cs[i..][1..] == cs[i + 1..];
      var c := cs[i];
      if !c.Element? {
        return None;
      }
      if ClassHit(c, HeadlineClass, Matches) {
        var s := StringOf(c);
        if s.Some? {
          return s;
        }
        var sub := c.children;
        var j := 0;
        while j < |sub|
          invariant 0 <= j <= |sub|
          invariant FirstString(sub[j..]) == FirstString(sub)
        {
          assert sub[j..][0] == sub[j] && sub[j..][1..] == sub[j + 1..];
          var t := StringOf(sub[j]);
          if t.Some? {
            return t;
          }
          j := j + 1;
        }
        assert sub[j..] == [];
      }
      i := i + 1;
    }
    assert cs[i..] == [];
    return Some([]);
  }

  // ---------------------------------------------------------------------
  // parse_html
  // ---------------------------------------------------------------------

  /**
   * `parse_html`: a node with a `.string` gives that string, or "" when it
   * is a sup, style or caption; a nameless node "" otherwise; an element
   * the concatenation of " " + the text of each child.
   */
  function Html(n: Node): string
    decreases NodeSize(n), 1
  {
    if StringOf(n).Some? then
      if n.Element? && n.name in Silenced then [] else StringOf(n).value
    else if !n.Element? then []
    else HtmlList(n.children)
  }

  function HtmlList(cs: seq<Node>): string
    decreases ListSize(cs), 0
  {
    if cs == [] then []
    else
      ChildSmaller(cs, 0);
      " " + Html(cs[0]) + HtmlList(cs[1..])
  }

  /** Reading a run of children is reading each part in turn. */
  lemma {:induction false} HtmlListAppend(a: seq<Node>, b: seq<Node>)
    ensures HtmlList(a + b) == HtmlList(a) + HtmlList(b)
    decreases |a|
  {
    if a == [] {
      assert a + b == b;
    } else {
      assert (a + b)[0] == a[0] && (a + b)[1..] == a[1..] + b;
      ChildSmaller(a, 0);
      ChildSmaller(a + b, 0);
      HtmlListAppend(a[1..], b);
    }
  }

  /** `parse_html` adds nothing but spaces to the text of the tree it reads. */
  lemma {:induction false} HtmlFromText(n: Node)
    ensures forall ch :: ch in Html(n) ==> ch == ' ' || ch in LeafText(n)
    decreases NodeSize(n), 1
  {
    if StringOf(n).Some? {
      StringIsText(n);
    } else if n.Element? {
      HtmlListFromText(n.children);
    }
  }

  lemma {:induction false} HtmlListFromText(cs: seq<Node>)
    ensures forall ch :: ch in HtmlList(cs) ==> ch == ' ' || ch in LeafTextList(cs)
    decreases ListSize(cs), 0
  {
    if cs != [] {
      ChildSmaller(cs, 0);
      HtmlFromText(cs[0]);
      HtmlListFromText(cs[1..]);
    }
  }

  method ParseHtml(n: Node) returns (s: string)
    ensures s == Html(n)
    decreases NodeSize(n)
  {
    var str := StringOf(n);
    if str.Some? {
      if n.Element? && n.name in Silenced {
        return [];
      }
      return str.value;
    }
    if !n.Element? {
      return [];
    }
    var cs := n.children;
    s := [];
    var i := 0;
    while i < |cs|
      invariant 0 <= i <= |cs|
      invariant s + HtmlList(cs[i..]) == HtmlList(cs)
    {
      assert cs[i..][0] == cs[i] && cs[i..][1..] == cs[i + 1..];
      ChildSmaller(cs, i);
      ChildSmaller(cs[i..], 0);
      var part := ParseHtml(cs[i]);
      s := s + " " + part;
      i := i + 1;
    }
    assert cs[i..] == [];
  }

  // ---------------------------------------------------------------------
  // The classification loop of parse_article
  // ---------------------------------------------------------------------

  /** What the loop does with one top-level child. */
  datatype Route =
    | Ignore
    | OpenSection
    | AppendHeading
    | AppendHtml
    | Bucket(key: string, join: string)

  /**
   * The routing of one top-level child, in the order of the source's tests:
   * nameless nodes are skipped, h2 opens a section, h3-h6 append their
   * text; an element with an id is skipped when the id is `toc` and read
   * otherwise, without any class test; an element with classes is skipped
   * for hatnote or navbox, bucketed for infobox, skipped as a table with a
   * class starting with `box`, bucketed as a thumb or quotebox division and
   * read otherwise.
   */
  function RouteOf(c: Node): Route
  {
    if !c.Element? then Ignore
    else if c.name == "h2" then OpenSection
    else if c.name in Subheadings then AppendHeading
    else if c.attrs.id.Some? then
      if c.attrs.id.value == "toc" then Ignore else AppendHtml
    else if c.attrs.classes.Some? then
      if ClassHit(c, "hatnote", Matches) then Ignore
      else if ClassHit(c, "navbox", Matches) then Ignore
      else if ClassHit(c, "infobox", Matches) then Bucket(Extract.InfoboxKey, [])
      else if c.name == "table" && ClassHit(c, "box", StartsWithPrefix) then Ignore
      else if c.name == "div" && ClassHit(c, "thumb", Matches) then Bucket(Extract.MultimediaKey, "\n")
      else if c.name == "div" && ClassHit(c, "quotebox", Matches) then Bucket(Extract.QuotesKey, "\n")
      else AppendHtml
    else AppendHtml
  }

  /** The loop's variables: the sections, the buckets and the current heading. */
  datatype Sections = Sections(plainText: Dict, misc: Dict, currHeading: string)

  /** `plain_text[curr_heading] += s`; None for the KeyError of a missing heading. */
  function AppendTo(st: Sections, s: string): Option<Sections>
  {
    if st.currHeading in st.plainText.vals then
      Some(st.(plainText := Set(st.plainText, st.currHeading, st.plainText.vals[st.currHeading] + s)))
    else None
  }

  /** One iteration of the loop; None when it raises. */
  function Step(st: Sections, c: Node): Option<Sections>
  {
    match RouteOf(c)
    case Ignore => Some(st)
    case OpenSection =>
      (match Headline(Children(c))
       case None => None
       case Some(h) => Some(Sections(Set(st.plainText, h, []), st.misc, h)))
    case AppendHeading =>
      (match Headline(Children(c))
       case None => None
       case Some(h) => AppendTo(st, h))
    case AppendHtml => AppendTo(st, Html(c))
    case Bucket(key, join) => Some(st.(misc := Extract.AddToMisc(st.misc, key, Html(c), join)))
  }

  /** The loop over the children cs. */
  function Walk(st: Sections, cs: seq<Node>): Option<Sections>
    decreases |cs|
  {
    if cs == [] then Some(st)
    else
      match Step(st, cs[0])
      case None => None
      case Some(next) => Walk(next, cs[1..])
  }

  /** The only children that make the loop raise: section headings whose text cannot be read. */
  predicate Raises(c: Node)
  {
    (RouteOf(c).OpenSection? || RouteOf(c).AppendHeading?) && Headline(Children(c)).None?
  }

  /** Both dicts are valid and the current heading is a section. */
  ghost predicate Tidy(st: Sections)
  {
    Valid(st.plainText) && Valid(st.misc) && st.currHeading in st.plainText.vals
  }

  /**
   * One step raises exactly on an unreadable heading; otherwise it keeps the
   * state tidy and the section keys it had as a prefix.
   */
  lemma StepFacts(st: Sections, c: Node)
    requires Tidy(st)
    ensures Step(st, c).None? <==> Raises(c)
    ensures Step(st, c).Some? ==> Tidy(Step(st, c).value) && st.plainText.keys <= Step(st, c).value.plainText.keys
  {
    match RouteOf(c)
    case Ignore =>
    case OpenSection =>
      if Headline(Children(c)).Some? {
        SetFacts(st.plainText, Headline(Children(c)).value, []);
      }
    case AppendHeading =>
      if Headline(Children(c)).Some? {
        SetFacts(st.plainText, st.currHeading, st.plainText.vals[st.currHeading] + Headline(Children(c)).value);
      }
    case AppendHtml =>
      SetFacts(st.plainText, st.currHeading, st.plainText.vals[st.currHeading] + Html(c));
    case Bucket(key, join) =>
      Extract.AddToMiscFacts(st.misc, key, Html(c), join);
  }

  /**
   * The loop raises exactly when some child is an unreadable heading, and
   * otherwise ends tidy with the section keys it started with as a prefix.
   */
  lemma {:induction false} WalkFacts(st: Sections, cs: seq<Node>)
    requires Tidy(st)
    ensures Walk(st, cs).None? <==> exists i :: 0 <= i < |cs| && Raises(cs[i])
    ensures Walk(st, cs).Some? ==> Tidy(Walk(st, cs).value) && st.plainText.keys <= Walk(st, cs).value.plainText.keys
    decreases |cs|
  {
    if cs != [] {
      StepFacts(st, cs[0]);
      assert forall i :: 1 <= i < |cs| ==> cs[i] == cs[1..][i - 1];
      if Step(st, cs[0]).Some? {
        WalkFacts(Step(st, cs[0]).value, cs[1..]);
      }
    }
  }

  /** An element with an id is routed by its id and name alone: its classes are never looked at. */
  lemma IdBypassesClasses(c: Node, classes: Option<seq<string>>)
    requires c.Element? && c.attrs.id.Some?
    ensures RouteOf(c) == RouteOf(c.(attrs := c.attrs.(classes := classes)))
  {
  }

  /**
   * Only three buckets are ever filled: the infobox, joined by "", from any
   * element with that class, and the multimedia and quote buckets, joined
   * by a newline, from thumb and quotebox divisions; never from an element
   * with an id or a hatnote or navbox class.
   */
  lemma BucketRouting(c: Node)
    requires RouteOf(c).Bucket?
    ensures c.Element? && c.attrs.id.None? && c.attrs.classes.Some?
    ensures var cls, k, j := c.attrs.classes.value, RouteOf(c).key, RouteOf(c).join;
      && "hatnote" !in cls && "navbox" !in cls
      && ((k == Extract.InfoboxKey && j == [] && "infobox" in cls)
          || (k == Extract.MultimediaKey && j == "\n" && c.name == "div" && "thumb" in cls && "infobox" !in cls)
          || (k == Extract.QuotesKey && j == "\n" && c.name == "div" && "quotebox" in cls && "infobox" !in cls))
  {
    var cls := c.attrs.classes.value;
    FindInIff(cls, "hatnote", Matches);
    FindInIff(cls, "navbox", Matches);
    FindInIff(cls, "infobox", Matches);
    FindInIff(cls, "thumb", Matches);
    FindInIff(cls, "quotebox", Matches);
  }

  /** A table without an id whose classes include one starting with `box` leaves no trace, unless it is an infobox. */
  lemma BoxTableSkipped(st: Sections, c: Node)
    requires c.Element? && c.name == "table" && c.attrs.id.None? && c.attrs.classes.Some?
    requires exists k :: 0 <= k < |c.attrs.classes.value| && StartsWith(c.attrs.classes.value[k], "box")
    requires "infobox" !in c.attrs.classes.value
    ensures Step(st, c) == Some(st)
  {
    var cls := c.attrs.classes.value;
    FindInIff(cls, "box", StartsWithPrefix);
    FindInIff(cls, "infobox", Matches);
  }

  /**
   * An h2 makes its text the current heading and empties that section: a
   * repeated heading loses the text gathered under it before, but keeps
   * its place.
   */
  lemma RepeatedHeadingResets(st: Sections, c: Node, h: string)
    requires Tidy(st) && c.Element? && c.name == "h2" && Headline(c.children) == Some(h)
    ensures var s := Step(st, c).value;
      && s.currHeading == h && h in s.plainText.vals && s.plainText.vals[h] == []
      && s.misc == st.misc
      && (h in st.plainText.vals ==> s.plainText.keys == st.plainText.keys)
      && (h !in st.plainText.vals ==> s.plainText.keys == st.plainText.keys + [h])
  {
    SetFacts(st.plainText, h, []);
  }

  /** A subheading's text, or any other read element's text, goes to the end of the current section. */
  lemma AppendedToCurrent(st: Sections, c: Node)
    requires Tidy(st) && (RouteOf(c).AppendHeading? || RouteOf(c).AppendHtml?) && !Raises(c)
    ensures var s := Step(st, c).value;
      var added := if RouteOf(c).AppendHeading? then Headline(c.children).value else Html(c);
      && s.currHeading == st.currHeading && s.misc == st.misc
      && s.plainText.vals[st.currHeading] == st.plainText.vals[st.currHeading] + added
      && s.plainText.keys == st.plainText.keys
  {
    var added := if RouteOf(c).AppendHeading? then Headline(c.children).value else Html(c);
    SetFacts(st.plainText, st.currHeading, st.plainText.vals[st.currHeading] + added);
  }

  /** The first text in a bucket is stored bare, a later one after the bucket's joiner. */
  lemma BucketAppends(st: Sections, c: Node)
    requires Tidy(st) && RouteOf(c).Bucket?
    ensures var s, k, j := Step(st, c).value, RouteOf(c).key, RouteOf(c).join;
      && k in s.misc.vals && s.plainText == st.plainText
      && (k !in st.misc.vals ==> s.misc.vals[k] == Html(c))
      && (k in st.misc.vals ==> s.misc.vals[k] == st.misc.vals[k] + j + Html(c))
  {
    Extract.AddToMiscFacts(st.misc, RouteOf(c).key, Html(c), RouteOf(c).join);
  }

  // ---------------------------------------------------------------------
  // parse_article
  // ---------------------------------------------------------------------

  /** The loop's start: the title is the only section and the current heading. */
  function Start(title: string): (st: Sections)
    ensures Tidy(st) && st.plainText.keys == [title]
  {
    SetFacts(Empty(), title, []);
    Sections(Set(Empty(), title, []), Empty(), title)
  }

  /**
   * `parse_article` from the heading element and the first child of the
   * content division (None when either is missing); None for the empty
   * dict returned when anything raises.
   */
  function Parse(heading: Option<Node>, content: Option<Node>): Option<Dict>
  {
    if heading.None? || !heading.value.Element? then None
    else
      var title := H1Text(heading.value.children);
      if content.None? || !content.value.Element? then None
      else
        var w := Walk(Start(title), content.value.children);
        if w.None? then None
        else
          WalkFacts(Start(title), content.value.children);
          Some(Merge(w.value.plainText, w.value.misc))
  }

  /**
   * A parsed article has the title as its first key, then the other
   * sections in the order they were opened, then the buckets that do not
   * share a name with a section.
   */
  lemma ArticleShape(heading: Option<Node>, content: Option<Node>)
    requires Parse(heading, content).Some?
    ensures heading.Some? && heading.value.Element? && content.Some? && content.value.Element?
    ensures var d, title := Parse(heading, content).value, H1Text(heading.value.children);
      var w := Walk(Start(title), content.value.children).value;
      && Valid(d)
      && d.keys == w.plainText.keys + Missing(w.misc.keys, w.plainText.vals)
      && |d.keys| >= 1 && d.keys[0] == title
  {
    var title := H1Text(heading.value.children);
    var cs := content.value.children;
    WalkFacts(Start(title), cs);
    var w := Walk(Start(title), cs).value;
    MergeFacts(w.plainText, w.misc);
  }

  /** Parsing fails exactly when the heading or content is missing or some top-level heading cannot be read. */
  lemma ArticleFails(heading: Option<Node>, content: Option<Node>)
    ensures Parse(heading, content).None? <==>
      || heading.None? || !heading.value.Element?
      || content.None? || !content.value.Element?
      || exists i :: 0 <= i < |content.value.children| && Raises(content.value.children[i])
  {
    if heading.Some? && heading.value.Element? && content.Some? && content.value.Element? {
      WalkFacts(Start(H1Text(heading.value.children)), content.value.children);
    }
  }

  method ParseArticle(heading: Option<Node>, content: Option<Node>) returns (result: Option<Dict>)
    ensures result == Parse(heading, content)
  {
    if heading.None? || !heading.value.Element? {
      return None;
    }
    var title := ParseH1(heading.value);
    if content.None? || !content.value.Element? {
      return None;
    }
    var plainText := Set(Empty(), title, []);
    var misc := Empty();
    var currHeading := title;
    var cs := content.value.children;
    ghost var start := Start(title);
    var i := 0;
    while i < |cs|
      invariant 0 <= i <= |cs|
      invariant Tidy(Sections(plainText, misc, currHeading))
      invariant Walk(Sections(plainText, misc, currHeading), cs[i..]) == Walk(start, cs)
    {
      assert cs[i..][0] == cs[i] && cs[i..][1..] == cs[i + 1..];
      ghost var st := Sections(plainText, misc, currHeading);
      StepFacts(st, cs[i]);
      var c := cs[i];
      match RouteOf(c) {
        case Ignore =>
        case OpenSection =>
          var h := ParseH(c);
          if h.None? {
            return None;
          }
          currHeading := h.value;
          plainText := Set(plainText, currHeading, []);
        case AppendHeading =>
          var before := plainText.vals[currHeading];
          var h := ParseH(c);
          if h.None? {
            return None;
          }
          plainText := Set(plainText, currHeading, before + h.value);
        case AppendHtml =>
          var s := ParseHtml(c);
          plainText := Set(plainText, currHeading, plainText.vals[currHeading] + s);
        case Bucket(key, join) =>
          var s := ParseHtml(c);
          misc := Extract.AddToMisc(misc, key, s, join);
      }
      assert Step(st, c) == Some(Sections(plainText, misc, currHeading));
      i := i + 1;
    }
    assert cs[i..] == [];
    result := Some(Merge(plainText, misc));
  }
}
