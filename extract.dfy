// The tree-walking classifier of preprocess.py. `parse_child` turns one
// node into text and, on the way, updates the module state: the ordered
// sections (`plain_text`), the miscellaneous buckets (`misc`), the current
// heading and whether the summary is still being read. The state and the
// text a call returns are specified by the functions Child, Inner and
// ChildList below; the class Extractor holds the state in fields and its
// methods are proved to do what those functions say. A Python exception
// raised inside the walk (a missing section key) is the flag `raised`.
module Extract {
  import opened Text
  import opened Markup
  import opened OrderedDict
  import Summary

  /** The module state `parse_child` reads and writes. */
  datatype State = State(plainText: Dict, misc: Dict, currHeading: string, readSummary: bool, title: string)

  /** What a call returns and the state after it; `raised` when an exception propagates. */
  datatype Step = Step(out: string, st: State, raised: bool)

  const SummaryKey := "__summary__"
  const QuotesKey := "__quotes__"
  const MultimediaKey := "__multimedia__"
  const InfoboxKey := "__infobox__"

  /** `add_to_misc`: a new bucket holds the string bare, an existing one gets the joiner and the string appended. */
  function AddToMisc(misc: Dict, key: string, s: string, join: string): Dict
  {
    if key in misc.vals then Set(misc, key, misc.vals[key] + join + s) else Set(misc, key, s)
  }

  /** The first value of a bucket is stored without a joiner, a later one after it; other buckets are untouched. */
  lemma AddToMiscFacts(misc: Dict, key: string, s: string, join: string)
    requires Valid(misc)
    ensures var r := AddToMisc(misc, key, s, join);
      && Valid(r) && key in r.vals
      && (key !in misc.vals ==> r.vals[key] == s && r.keys == misc.keys + [key])
      && (key in misc.vals ==> r.vals[key] == misc.vals[key] + join + s && r.keys == misc.keys)
      && (forall k :: k != key ==> (k in r.vals <==> k in misc.vals) && (k in misc.vals ==> r.vals[k] == misc.vals[k]))
  {
    if key in misc.vals {
      SetFacts(misc, key, misc.vals[key] + join + s);
    } else {
      SetFacts(misc, key, s);
    }
  }

  /** The roles whose elements are skipped; `in` on the role string is a substring test. */
  predicate IgnoredRole(role: string)
  {
    Contains(role, "note") || Contains(role, "presentation") || Contains(role, "navigation")
  }

  /** The classes whose elements are skipped. */
  predicate IgnoredClass(c: Node)
    requires c.Element?
  {
    || ClassHit(c, "navbox", SubstringOf)
    || ClassHit(c, "noprint", Matches)
    || ClassHit(c, "haudio", Matches)
    || ClassHit(c, "mw-editsection", Matches)
    || ClassHit(c, "mw-cite-backlink", Matches)
    || (c.name == "div" && ClassHit(c, "toc", Matches))
  }

  /** The elements `parse_child` skips without looking inside. */
  predicate Ignored(c: Node, ignoreHrefs: bool)
    requires c.Element?
  {
    || c.name == "style" || c.name == "script" || c.name == "caption"
    || (c.name == "a" && ignoreHrefs)
    || (c.name == "span" && c.attrs.id.Some? && FindIn([c.attrs.id.value], "coordinates", Matches))
    || (c.attrs.role.Some? && IgnoredRole(c.attrs.role.value))
    || IgnoredClass(c)
  }

  predicate IsSubheading(name: string)
  {
    name == "h3" || name == "h4" || name == "h5" || name == "h6"
  }

  /** `plain_text[curr_heading] += s`, then return `out`; a missing key raises. */
  function AppendToSection(st: State, s: string, out: string): Step
  {
    if st.currHeading in st.plainText.vals then
      Step(out, st.(plainText := Set(st.plainText, st.currHeading, st.plainText.vals[st.currHeading] + s)), false)
    else Step("", st, true)
  }

  /** What an element's branch of `parse_child` does with the text of its children. */
  datatype Post =
    | Plain                    // returned as it is
    | OpenSection              // h2: becomes the current heading, a fresh section
    | AppendSection            // h3-h6: appended to the current section and returned
    | SummaryParagraph         // a top-level p while reading the summary: added to the summary and returned
    | Quote                    // blockquote: added to the quotes and to the current section, "" returned
    | RowOneLine               // tr: newlines become spaces
    | Padded                   // th inside an infobox: a space on each side
    | Bucket(key: string)      // added to a misc bucket on a new line, "" returned
    | Caret                    // sup: "^" in front when not empty
    | Underscore               // sub: "_" in front

  /** How `parse_child` handles an element. */
  datatype Action =
    | Skip                                                  // "" and nothing changes
    | MathAlt                                               // the alt text of the formula image
    | Descend(post: Post, ignoreHrefs: bool, inInfobox: bool) // parse the children with these flags, then `post`

  /**
   * The routing of `parse_child` for an element, in the order of its tests:
   * skipped elements first, then the text-bearing elements by name, then by
   * class; anything else is descended into.
   */
  function Classify(c: Node, level: nat, readSummary: bool, ignoreHrefs: bool, inInfobox: bool): Action
    requires c.Element?
  {
    if Ignored(c, ignoreHrefs) then Skip
    else if c.name == "h2" then Descend(OpenSection, ignoreHrefs, inInfobox)
    else if IsSubheading(c.name) then Descend(AppendSection, ignoreHrefs, inInfobox)
    else if c.name == "p" && level == 0 && readSummary then Descend(SummaryParagraph, ignoreHrefs, inInfobox)
    else if c.name == "blockquote" then Descend(Quote, ignoreHrefs, inInfobox)
    else if c.name == "tr" then Descend(RowOneLine, ignoreHrefs, inInfobox)
    else if c.name == "th" && inInfobox then Descend(Padded, ignoreHrefs, true)
    else if c.name == "div" && ClassHit(c, "quotebox", Matches) then Descend(Bucket(QuotesKey), ignoreHrefs, inInfobox)
    else if ClassHit(c, "thumbcaption", Matches) || ClassHit(c, "gallerytext", Matches) then
      Descend(Bucket(MultimediaKey), ignoreHrefs, inInfobox)
    else if ClassHit(c, "infobox", Matches) then Descend(Bucket(InfoboxKey), ignoreHrefs, true)
    else if ClassHit(c, "mwe-math-element", Matches) then MathAlt
    else if c.name == "sup" then
      if ClassHit(c, "reference", Matches) || ClassHit(c, "plainlinks", Matches) then Skip
      else Descend(Caret, true, inInfobox)
    else if c.name == "sub" then Descend(Underscore, ignoreHrefs, inInfobox)
    else if c.name == "table" && ClassHit(c, "clade", Matches) then Skip
    else Descend(Plain, ignoreHrefs, inInfobox)
  }

  /** The rest of an element's branch once its children gave r. */
  function After(r: Step, post: Post): Step
  {
    if r.raised then r
    else match post
      case Plain => r
      case OpenSection =>
        Step("", r.st.(currHeading := r.out, plainText := Set(r.st.plainText, r.out, ""),
                       readSummary := if r.out != r.st.title then false else r.st.readSummary), false)
      case AppendSection => AppendToSection(r.st, r.out, r.out)
      case SummaryParagraph => Step(r.out, r.st.(misc := AddToMisc(r.st.misc, SummaryKey, r.out, " ")), false)
      case Quote => AppendToSection(r.st.(misc := AddToMisc(r.st.misc, QuotesKey, r.out, "\n")), r.out, "")
      case RowOneLine => Step(ReplaceAll(r.out, "\n", " "), r.st, false)
      case Padded => Step(" " + r.out + " ", r.st, false)
      case Bucket(key) => Step("", r.st.(misc := AddToMisc(r.st.misc, key, r.out, "\n")), false)
      case Caret => if r.out == "" then r else Step("^" + r.out, r.st, false)
      case Underscore => Step("_" + r.out, r.st, false)
  }

  /** `parse_child(c, level, ignore_hrefs, in_infobox)`: comments give "", text gives itself, elements go by Classify. */
  function Child(st: State, c: Node, level: nat, ignoreHrefs: bool, inInfobox: bool): Step
    decreases NodeSize(c), 1
  {
    if c.Comment? then Step("", st, false)
    else if c.TextNode? then Step(c.text, st, false)
    else match Classify(c, level, st.readSummary, ignoreHrefs, inInfobox)
      case Skip => Step("", st, false)
      case MathAlt => Step(ImgAltText(Find(c.children, "img")), st, false)
      case Descend(post, ih, ib) => After(Inner(st, c, level, ih, ib), post)
  }

  /** `parse_childrenof(c, level, ...)`: the children one level down, in order. */
  function Inner(st: State, c: Node, level: nat, ignoreHrefs: bool, inInfobox: bool): Step
    decreases NodeSize(c), 0
  {
    if c.Element? then ChildList(st, c.children, level + 1, ignoreHrefs, inInfobox) else Step("", st, false)
  }

  /** The outputs of the nodes cs concatenated, the state threaded through them. */
  function ChildList(st: State, cs: seq<Node>, level: nat, ignoreHrefs: bool, inInfobox: bool): Step
    decreases ListSize(cs), 0
  {
    if cs == [] then Step("", st, false)
    else
      ChildSmaller(cs, 0);
      var r := Child(st, cs[0], level, ignoreHrefs, inInfobox);
      if r.raised then r
      else
        var rest := ChildList(r.st, cs[1..], level, ignoreHrefs, inInfobox);
        if rest.raised then rest else Step(r.out + rest.out, rest.st, false)
  }

  /** Both dicts are valid. */
  ghost predicate Tidy(st: State)
  {
    Valid(st.plainText) && Valid(st.misc)
  }

  /** Both dicts are valid and the current heading names a section. */
  ghost predicate Open(st: State)
  {
    Tidy(st) && st.currHeading in st.plainText.vals
  }

  /** st2 is still open, has the same title, and keeps the sections and buckets of st in their order. */
  ghost predicate Grows(st: State, st2: State)
  {
    Open(st2) && st2.title == st.title && st.plainText.keys <= st2.plainText.keys && st.misc.keys <= st2.misc.keys
  }

  lemma GrowsTransitive(a: State, b: State, c: State)
    requires Grows(a, b) && Grows(b, c)
    ensures Grows(a, c)
  {
    assert c.plainText.keys[..|a.plainText.keys|] == b.plainText.keys[..|a.plainText.keys|];
    assert c.misc.keys[..|a.misc.keys|] == b.misc.keys[..|a.misc.keys|];
  }

  /**
   * Every post-step keeps both dicts valid and the title alone; from an
   * open state it cannot raise and only adds sections and buckets.
   */
  lemma AfterOpen(r: Step, post: Post)
    requires Tidy(r.st)
    ensures var s := After(r, post); Tidy(s.st) && s.st.title == r.st.title
    ensures !r.raised && Open(r.st) ==> var s := After(r, post); !s.raised && Grows(r.st, s.st)
  {
    if !r.raised {
      match post {
        case OpenSection => SetFacts(r.st.plainText, r.out, "");
        case AppendSection =>
          if r.st.currHeading in r.st.plainText.vals {
            SetFacts(r.st.plainText, r.st.currHeading, r.st.plainText.vals[r.st.currHeading] + r.out);
          }
        case SummaryParagraph => AddToMiscFacts(r.st.misc, SummaryKey, r.out, " ");
        case Quote =>
          AddToMiscFacts(r.st.misc, QuotesKey, r.out, "\n");
          if r.st.currHeading in r.st.plainText.vals {
            SetFacts(r.st.plainText, r.st.currHeading, r.st.plainText.vals[r.st.currHeading] + r.out);
          }
        case Bucket(key) => AddToMiscFacts(r.st.misc, key, r.out, "\n");
        case _ =>
      }
    }
  }

  /**
   * Every call keeps both dicts valid and the title alone. While a section
   * is open no exception can be raised: every call returns normally, leaves
   * a section open, and only adds sections and buckets after the existing
   * ones.
   */
  lemma {:induction false} ChildOpen(st: State, c: Node, level: nat, ignoreHrefs: bool, inInfobox: bool)
    requires Tidy(st)
    ensures var r := Child(st, c, level, ignoreHrefs, inInfobox); Tidy(r.st) && r.st.title == st.title
    ensures Open(st) ==> var r := Child(st, c, level, ignoreHrefs, inInfobox); !r.raised && Grows(st, r.st)
    decreases NodeSize(c), 1
  {
    if c.Element? {
      match Classify(c, level, st.readSummary, ignoreHrefs, inInfobox) {
        case Descend(post, ih, ib) =>
          InnerOpen(st, c, level, ih, ib);
          var r := Inner(st, c, level, ih, ib);
          AfterOpen(r, post);
          if Open(st) {
            GrowsTransitive(st, r.st, After(r, post).st);
          }
        case _ =>
      }
    }
  }

  lemma {:induction false} InnerOpen(st: State, c: Node, level: nat, ignoreHrefs: bool, inInfobox: bool)
    requires Tidy(st)
    ensures var r := Inner(st, c, level, ignoreHrefs, inInfobox); Tidy(r.st) && r.st.title == st.title
    ensures Open(st) ==> var r := Inner(st, c, level, ignoreHrefs, inInfobox); !r.raised && Grows(st, r.st)
    decreases NodeSize(c), 0
  {
    if c.Element? {
      ChildListOpen(st, c.children, level + 1, ignoreHrefs, inInfobox);
    }
  }

  lemma {:induction false} ChildListOpen(st: State, cs: seq<Node>, level: nat, ignoreHrefs: bool, inInfobox: bool)
    requires Tidy(st)
    ensures var r := ChildList(st, cs, level, ignoreHrefs, inInfobox); Tidy(r.st) && r.st.title == st.title
    ensures Open(st) ==> var r := ChildList(st, cs, level, ignoreHrefs, inInfobox); !r.raised && Grows(st, r.st)
    decreases ListSize(cs), 0
  {
    if cs != [] {
      ChildSmaller(cs, 0);
      ChildOpen(st, cs[0], level, ignoreHrefs, inInfobox);
      var r := Child(st, cs[0], level, ignoreHrefs, inInfobox);
      if !r.raised {
        ChildListOpen(r.st, cs[1..], level, ignoreHrefs, inInfobox);
        if Open(st) {
          GrowsTransitive(st, r.st, ChildList(r.st, cs[1..], level, ignoreHrefs, inInfobox).st);
        }
      }
    }
  }

  /** The branches of `parse_child` chosen by element name before any class test. */
  predicate NamedBranch(c: Node, level: nat, readSummary: bool, inInfobox: bool)
    requires c.Element?
  {
    || c.name == "h2" || IsSubheading(c.name) || (c.name == "p" && level == 0 && readSummary)
    || c.name == "blockquote" || c.name == "tr" || (c.name == "th" && inInfobox)
  }

  /** The class tests that come before the sup, sub and table tests. */
  predicate EarlierClass(c: Node)
    requires c.Element?
  {
    || (c.name == "div" && ClassHit(c, "quotebox", Matches))
    || ClassHit(c, "thumbcaption", Matches) || ClassHit(c, "gallerytext", Matches)
    || ClassHit(c, "infobox", Matches) || ClassHit(c, "mwe-math-element", Matches)
  }

  /**
   * Comments, the skipped elements, reference and plain-link superscripts
   * and cladogram tables give "" and leave the state exactly as it was.
   */
  lemma SkippedLeaveNoTrace(st: State, c: Node, level: nat, ignoreHrefs: bool, inInfobox: bool)
    requires || c.Comment?
             || (c.Element? && Ignored(c, ignoreHrefs))
             || (c.Element? && c.name == "sup" && !EarlierClass(c)
                 && (ClassHit(c, "reference", Matches) || ClassHit(c, "plainlinks", Matches)))
             || (c.Element? && c.name == "table" && !EarlierClass(c) && ClassHit(c, "clade", Matches))
    ensures Child(st, c, level, ignoreHrefs, inInfobox) == Step("", st, false)
  {
  }

  /**
   * An h2 becomes the current heading and opens an empty section under its
   * text; reading the summary stops unless that text is the title; "" is
   * returned and the buckets are those left by its children.
   */
  lemma HeadingOpensSection(st: State, c: Node, level: nat, ignoreHrefs: bool, inInfobox: bool)
    requires Tidy(st)
    requires c.Element? && c.name == "h2" && !Ignored(c, ignoreHrefs)
    ensures var r := Inner(st, c, level, ignoreHrefs, inInfobox);
      var s := Child(st, c, level, ignoreHrefs, inInfobox);
      !r.raised ==>
        && !s.raised && s.out == ""
        && s.st.currHeading == r.out
        && r.out in s.st.plainText.vals && s.st.plainText.vals[r.out] == ""
        && (s.st.readSummary <==> r.st.readSummary && r.out == st.title)
        && s.st.misc == r.st.misc
  {
    InnerOpen(st, c, level, ignoreHrefs, inInfobox);
  }

  /** An h3 to h6 appends its text to the current section and returns it. */
  lemma SubheadingAppended(st: State, c: Node, level: nat, ignoreHrefs: bool, inInfobox: bool)
    requires Open(st)
    requires c.Element? && IsSubheading(c.name) && !Ignored(c, ignoreHrefs)
    ensures var r := Inner(st, c, level, ignoreHrefs, inInfobox);
      var s := Child(st, c, level, ignoreHrefs, inInfobox);
      && !s.raised && s.out == r.out && s.st.currHeading == r.st.currHeading
      && r.st.currHeading in s.st.plainText.vals && r.st.currHeading in r.st.plainText.vals
      && s.st.plainText.vals[r.st.currHeading] == r.st.plainText.vals[r.st.currHeading] + r.out
  {
    InnerOpen(st, c, level, ignoreHrefs, inInfobox);
  }

  /** A top-level paragraph read for the summary is both added to the summary bucket (joined by a space) and returned. */
  lemma SummaryParagraphTwice(st: State, c: Node, ignoreHrefs: bool, inInfobox: bool)
    requires Tidy(st) && st.readSummary
    requires c.Element? && c.name == "p" && !Ignored(c, ignoreHrefs)
    ensures var r := Inner(st, c, 0, ignoreHrefs, inInfobox);
      var s := Child(st, c, 0, ignoreHrefs, inInfobox);
      !r.raised ==>
        && !s.raised && s.out == r.out && SummaryKey in s.st.misc.vals
        && s.st.misc.vals[SummaryKey]
           == (if SummaryKey in r.st.misc.vals then r.st.misc.vals[SummaryKey] + " " + r.out else r.out)
        && s.st.plainText == r.st.plainText
  {
    InnerOpen(st, c, 0, ignoreHrefs, inInfobox);
    AddToMiscFacts(Inner(st, c, 0, ignoreHrefs, inInfobox).st.misc, SummaryKey, Inner(st, c, 0, ignoreHrefs, inInfobox).out, " ");
  }

  /** The misc bucket an element's classes send it to, if any, in the order `parse_child` tests them. */
  function BucketOf(c: Node): Option<string>
    requires c.Element?
  {
    if c.name == "div" && ClassHit(c, "quotebox", Matches) then Some(QuotesKey)
    else if ClassHit(c, "thumbcaption", Matches) || ClassHit(c, "gallerytext", Matches) then Some(MultimediaKey)
    else if ClassHit(c, "infobox", Matches) then Some(InfoboxKey)
    else None
  }

  /**
   * Quote boxes, thumbnail and gallery captions and infoboxes that no
   * earlier test catches go to their bucket; an infobox's contents are
   * parsed as infobox contents.
   */
  lemma BucketRouting(c: Node, level: nat, readSummary: bool, ignoreHrefs: bool, inInfobox: bool)
    requires c.Element? && !Ignored(c, ignoreHrefs) && !NamedBranch(c, level, readSummary, inInfobox)
    requires BucketOf(c).Some?
    ensures Classify(c, level, readSummary, ignoreHrefs, inInfobox)
      == Descend(Bucket(BucketOf(c).value), ignoreHrefs, BucketOf(c).value == InfoboxKey || inInfobox)
  {
  }

  /**
   * A bucketed element returns "": its text is stored bare in a new bucket
   * and after a newline in an existing one, and the sections are left as
   * its children left them.
   */
  lemma BucketStores(r: Step, key: string)
    requires Valid(r.st.misc) && !r.raised
    ensures var s := After(r, Bucket(key));
      && !s.raised && s.out == "" && s.st.plainText == r.st.plainText && s.st.currHeading == r.st.currHeading
      && key in s.st.misc.vals
      && s.st.misc.vals[key] == (if key in r.st.misc.vals then r.st.misc.vals[key] + "\n" + r.out else r.out)
  {
    AddToMiscFacts(r.st.misc, key, r.out, "\n");
  }

  /**
   * A blockquote, at any level, returns "": its text is added to the quotes
   * bucket, bare when the bucket is new and after "\n" otherwise, and is
   * appended to the current section; other buckets keep their text. With
   * no current section the store fails (a KeyError). From an open state the
   * children never fail and the section exists.
   */
  lemma QuoteStored(st: State, c: Node, level: nat, ignoreHrefs: bool, inInfobox: bool)
    requires Tidy(st)
    requires c.Element? && c.name == "blockquote" && !Ignored(c, ignoreHrefs)
    ensures var r := Inner(st, c, level, ignoreHrefs, inInfobox);
      var s := Child(st, c, level, ignoreHrefs, inInfobox);
      !r.raised && r.st.currHeading in r.st.plainText.vals ==>
        && !s.raised && s.out == "" && s.st.currHeading == r.st.currHeading
        && QuotesKey in s.st.misc.vals
        && s.st.misc.vals[QuotesKey]
           == (if QuotesKey in r.st.misc.vals then r.st.misc.vals[QuotesKey] + "\n" + r.out else r.out)
        && (forall k :: k != QuotesKey && k in r.st.misc.vals ==> k in s.st.misc.vals && s.st.misc.vals[k] == r.st.misc.vals[k])
        && r.st.currHeading in s.st.plainText.vals
        && s.st.plainText.vals[r.st.currHeading] == r.st.plainText.vals[r.st.currHeading] + r.out
    ensures var r := Inner(st, c, level, ignoreHrefs, inInfobox);
      !r.raised && r.st.currHeading !in r.st.plainText.vals ==> Child(st, c, level, ignoreHrefs, inInfobox).raised
    ensures Open(st) ==> var r := Inner(st, c, level, ignoreHrefs, inInfobox);
      !r.raised && r.st.currHeading in r.st.plainText.vals
  {
    InnerOpen(st, c, level, ignoreHrefs, inInfobox);
    var r := Inner(st, c, level, ignoreHrefs, inInfobox);
    AddToMiscFacts(r.st.misc, QuotesKey, r.out, "\n");
  }

  /** A table row is put on one line: its text has no newline. */
  lemma RowOnOneLine(st: State, c: Node, level: nat, ignoreHrefs: bool, inInfobox: bool)
    requires c.Element? && c.name == "tr" && !Ignored(c, ignoreHrefs)
    ensures var s := Child(st, c, level, ignoreHrefs, inInfobox); !s.raised ==> '\n' !in s.out
  {
    Summary.ReplaceKeepsNewlineOut(Inner(st, c, level, ignoreHrefs, inInfobox).out);
  }

  /** A header cell inside an infobox gets a space on each side. */
  lemma InfoboxHeaderPadded(st: State, c: Node, level: nat, ignoreHrefs: bool)
    requires c.Element? && c.name == "th" && !Ignored(c, ignoreHrefs)
    ensures var r := Inner(st, c, level, ignoreHrefs, true);
      var s := Child(st, c, level, ignoreHrefs, true);
      !r.raised ==> s == Step(" " + r.out + " ", r.st, false)
  {
  }

  /**
   * A superscript other than a reference gets "^" in front exactly when its
   * text (parsed with links ignored) is not empty; a subscript always gets "_".
   */
  lemma ScriptsMarked(st: State, c: Node, level: nat, ignoreHrefs: bool, inInfobox: bool)
    requires c.Element? && !Ignored(c, ignoreHrefs) && !EarlierClass(c)
    requires c.name == "sup" || c.name == "sub"
    ensures c.name == "sup" && !ClassHit(c, "reference", Matches) && !ClassHit(c, "plainlinks", Matches) ==>
      var r := Inner(st, c, level, true, inInfobox);
      var s := Child(st, c, level, ignoreHrefs, inInfobox);
      !r.raised ==> s.st == r.st && (if r.out == "" then s.out == "" else s.out == "^" + r.out)
    ensures c.name == "sub" ==>
      var r := Inner(st, c, level, ignoreHrefs, inInfobox);
      var s := Child(st, c, level, ignoreHrefs, inInfobox);
      !r.raised ==> s.st == r.st && s.out == "_" + r.out
  {
  }

  /** A math formula yields the alt text of its first fallback image and changes nothing. */
  lemma MathFormulaAltText(st: State, c: Node, level: nat, ignoreHrefs: bool, inInfobox: bool)
    requires c.Element? && !Ignored(c, ignoreHrefs) && !NamedBranch(c, level, st.readSummary, inInfobox)
    requires !(c.name == "div" && ClassHit(c, "quotebox", Matches))
    requires !ClassHit(c, "thumbcaption", Matches) && !ClassHit(c, "gallerytext", Matches) && !ClassHit(c, "infobox", Matches)
    requires ClassHit(c, "mwe-math-element", Matches)
    ensures Child(st, c, level, ignoreHrefs, inInfobox) == Step(ImgAltText(Find(c.children, "img")), st, false)
  {
  }

  /**
   * The loop of `parse_article` over the top-level children:
   * `plain_text[curr_heading] += parse_child(c, level=0)`. The key and its
   * old value are read before the call, so the store writes "old value +
   * returned text" under the heading that was current before the call.
   */
  function Top(st: State, cs: seq<Node>): Step
    decreases |cs|
  {
    if cs == [] then Step("", st, false)
    else
      var key := st.currHeading;
      if key !in st.plainText.vals then Step("", st, true)
      else
        var before := st.plainText.vals[key];
        var r := Child(st, cs[0], 0, false, false);
        if r.raised then r
        else Top(r.st.(plainText := Set(r.st.plainText, key, before + r.out)), cs[1..])
  }

  /** The top-level loop from an open state never raises and only adds sections and buckets. */
  lemma {:induction false} TopOpen(st: State, cs: seq<Node>)
    requires Open(st)
    ensures var r := Top(st, cs); !r.raised && Grows(st, r.st)
    decreases |cs|
  {
    if cs != [] {
      var key := st.currHeading;
      var r := Child(st, cs[0], 0, false, false);
      ChildOpen(st, cs[0], 0, false, false);
      var st' := r.st.(plainText := Set(r.st.plainText, key, st.plainText.vals[key] + r.out));
      SetFacts(r.st.plainText, key, st.plainText.vals[key] + r.out);
      assert Grows(r.st, st');
      GrowsTransitive(st, r.st, st');
      TopOpen(st', cs[1..]);
      GrowsTransitive(st, st', Top(st', cs[1..]).st);
    }
  }

  /**
   * The store after a top-level child overwrites whatever the call appended
   * to that section itself: the section ends as its old value followed by
   * the text the call returned.
   */
  lemma TopStoreWins(st: State, c: Node, rest: seq<Node>)
    requires Open(st)
    ensures var r := Child(st, c, 0, false, false);
      var st' := r.st.(plainText := Set(r.st.plainText, st.currHeading, st.plainText.vals[st.currHeading] + r.out));
      Top(st, [c] + rest) == Top(st', rest)
      && st'.plainText.vals[st.currHeading] == st.plainText.vals[st.currHeading] + r.out
  {
    assert ([c] + rest)[0] == c && ([c] + rest)[1..] == rest;
    ChildOpen(st, c, 0, false, false);
  }

  /**
   * A top-level blockquote reaches the quotes bucket, but its text is lost
   * from the section: the call appends it, and the store then puts back the
   * old value followed by the "" the call returned.
   */
  lemma TopLevelBlockquoteLost(st: State, c: Node)
    requires Open(st)
    requires c.Element? && c.name == "blockquote" && !Ignored(c, false)
    ensures var r := Top(st, [c]);
      var inner := Inner(st, c, 0, false, false);
      && st.currHeading in r.st.plainText.vals && QuotesKey in r.st.misc.vals
      && r.st.plainText.vals[st.currHeading] == st.plainText.vals[st.currHeading]
      && r.st.misc.vals[QuotesKey] == AddToMisc(inner.st.misc, QuotesKey, inner.out, "\n").vals[QuotesKey]
  {
    TopStoreWins(st, c, []);
    InnerOpen(st, c, 0, false, false);
    var inner := Inner(st, c, 0, false, false);
    AddToMiscFacts(inner.st.misc, QuotesKey, inner.out, "\n");
    assert [c][1..] == [];
  }

  /** The state `parse_article` starts from: empty sections and buckets, summary being read. */
  function Fresh(st: State): (r: State)
    ensures Tidy(r)
  {
    st.(plainText := Empty(), misc := Empty(), readSummary := true)
  }

  /** The summary bucket, defaulted to NoDescription when no paragraph was read for it. */
  function WithSummary(misc: Dict): Dict
  {
    if SummaryKey in misc.vals then misc else AddToMisc(misc, SummaryKey, Summary.NoDescription, "")
  }

  /** The end of `parse_article`: default the summary, then `plain_text = dict(plain_text, **misc)`. */
  function Finish(w: State): (Dict, State)
    requires Tidy(w)
  {
    AddToMiscFacts(w.misc, SummaryKey, Summary.NoDescription, "");
    var misc := WithSummary(w.misc);
    var d := Merge(w.plainText, misc);
    (d, w.(misc := misc, plainText := d))
  }

  /**
   * The result lists the sections in their order, then the buckets they do
   * not already name; it always has a summary, taken from the summary
   * bucket when one was filled and NoDescription otherwise.
   */
  lemma FinishShape(w: State)
    requires Tidy(w)
    ensures var (d, _) := Finish(w);
      && Valid(d)
      && d.keys == w.plainText.keys + Missing(WithSummary(w.misc).keys, w.plainText.vals)
      && SummaryKey in d.vals
      && (SummaryKey in w.misc.vals ==> d.vals[SummaryKey] == w.misc.vals[SummaryKey])
      && (SummaryKey !in w.misc.vals ==> d.vals[SummaryKey] == Summary.NoDescription)
  {
    AddToMiscFacts(w.misc, SummaryKey, Summary.NoDescription, "");
    MergeFacts(w.plainText, WithSummary(w.misc));
  }

  /** The title: the text of the heading's children, parsed from the fresh state. */
  function TitleStep(st: State, heading: Node): Step
  {
    Inner(Fresh(st), heading, 0, false, false)
  }

  /** The state after the title is stored and its section opened. */
  function Opened(t: Step): (r: State)
    requires Tidy(t.st)
    ensures Open(r)
  {
    SetFacts(t.st.plainText, t.out, "");
    t.st.(title := t.out, currHeading := t.out, plainText := Set(t.st.plainText, t.out, ""))
  }

  /**
   * `parse_article` once the page has been read: the heading node and the
   * first child of the content division are inputs (None when the lookup
   * fails). Returns the sections followed by the misc buckets, or None when
   * the article cannot be parsed, and the module state left behind.
   */
  function Article(st: State, heading: Option<Node>, content: Option<Node>): (Option<Dict>, State)
  {
    if heading.None? then (None, Fresh(st))
    else
      var t := TitleStep(st, heading.value);
      if t.raised then (None, t.st)
      else if content.None? || !content.value.Element? then (None, t.st.(title := t.out))
      else
        InnerOpen(Fresh(st), heading.value, 0, false, false);
        var w := Top(Opened(t), content.value.children);
        if w.raised then (None, w.st)
        else
          TopOpen(Opened(t), content.value.children);
          var (d, st') := Finish(w.st);
          (Some(d), st')
  }

  /** Once the title parses and the content is an element, the article is the finished top-level walk. */
  lemma ArticleIsFinish(st: State, heading: Node, content: Node)
    requires content.Element?
    requires !TitleStep(st, heading).raised
    ensures Tidy(TitleStep(st, heading).st)
    ensures var w := Top(Opened(TitleStep(st, heading)), content.children);
      && !w.raised && Grows(Opened(TitleStep(st, heading)), w.st)
      && Article(st, Some(heading), Some(content)) == (Some(Finish(w.st).0), Finish(w.st).1)
  {
    InnerOpen(Fresh(st), heading, 0, false, false);
    TopOpen(Opened(TitleStep(st, heading)), content.children);
  }

  /**
   * A parsed article never fails once the heading and the content are
   * found and the title parses; its first key is the title when parsing the
   * title opened no section, and the sections come before the buckets.
   */
  lemma ArticleShape(st: State, heading: Node, content: Node)
    requires content.Element?
    requires !TitleStep(st, heading).raised
    ensures var (d, st') := Article(st, Some(heading), Some(content));
      var t := TitleStep(st, heading);
      && d.Some? && Valid(d.value) && SummaryKey in d.value.vals && t.out in d.value.vals
      && (t.st.plainText.keys == [] ==> d.value.keys[0] == t.out && st'.title == t.out)
  {
    var t := TitleStep(st, heading);
    ArticleIsFinish(st, heading, content);
    var st3 := Opened(t);
    var w := Top(st3, content.children);
    FinishShape(w.st);
    if t.st.plainText.keys == [] {
      assert st3.plainText.keys == [t.out];
      assert w.st.plainText.keys[0] == t.out;
    }
  }

  /** The whole walk equals the text gathered so far followed by the walk of the remaining nodes. */
  ghost predicate Resumes(whole: Step, acc: string, rest: Step)
  {
    whole == if rest.raised then rest else Step(acc + rest.out, rest.st, false)
  }

  /** Taking one node's text into the gathered text keeps the walk resumable. */
  lemma ResumeStep(whole: Step, acc: string, st: State, cs: seq<Node>, i: nat, level: nat, ignoreHrefs: bool, inInfobox: bool)
    requires i < |cs|
    requires Resumes(whole, acc, ChildList(st, cs[i..], level, ignoreHrefs, inInfobox))
    requires !Child(st, cs[i], level, ignoreHrefs, inInfobox).raised
    ensures var r := Child(st, cs[i], level, ignoreHrefs, inInfobox);
      Resumes(whole, acc + r.out, ChildList(r.st, cs[i + 1..], level, ignoreHrefs, inInfobox))
  {
    assert cs[i..][0] == cs[i] && cs[i..][1..] == cs[i + 1..];
    var r := Child(st, cs[i], level, ignoreHrefs, inInfobox);
    var rest := ChildList(r.st, cs[i + 1..], level, ignoreHrefs, inInfobox);
    if !rest.raised {
      assert acc + (r.out + rest.out) == (acc + r.out) + rest.out;
    }
  }

  /** A node that raises ends the walk with its own step. */
  lemma ResumeRaised(whole: Step, acc: string, st: State, cs: seq<Node>, i: nat, level: nat, ignoreHrefs: bool, inInfobox: bool)
    requires i < |cs|
    requires Resumes(whole, acc, ChildList(st, cs[i..], level, ignoreHrefs, inInfobox))
    requires Child(st, cs[i], level, ignoreHrefs, inInfobox).raised
    ensures whole == Child(st, cs[i], level, ignoreHrefs, inInfobox)
  {
    assert cs[i..][0] == cs[i];
  }

  /** The module globals of the classifier, updated in place while an article is walked. */
  class Extractor {
    var plainText: Dict
    var misc: Dict
    var currHeading: string
    var readSummary: bool
    var title: string
    /** An exception is propagating out of the walk. */
    var raised: bool

    function Snapshot(): State
      reads this
    {
      State(plainText, misc, currHeading, readSummary, title)
    }

    constructor ()
      ensures Snapshot() == State(Empty(), Empty(), "", true, "") && !raised
    {
      plainText := Empty();
      misc := Empty();
      currHeading := "";
      readSummary := true;
      title := "";
      raised := false;
    }

    /** `add_to_misc` on the misc field. */
    method AddToMiscField(key: string, s: string, join: string)
      modifies this
      ensures misc == AddToMisc(old(misc), key, s, join)
      ensures plainText == old(plainText) && currHeading == old(currHeading)
      ensures readSummary == old(readSummary) && title == old(title) && raised == old(raised)
    {
      if key in misc.vals {
        misc := Set(misc, key, misc.vals[key] + join + s);
      } else {
        misc := Set(misc, key, s);
      }
    }

    /** `plain_text[curr_heading] += s`, raising when the key is missing. */
    method AppendToCurrentSection(s: string)
      requires !raised
      modifies this
      ensures raised == AppendToSection(old(Snapshot()), s, "").raised
      ensures Snapshot() == AppendToSection(old(Snapshot()), s, "").st
    {
      if currHeading !in plainText.vals {
        raised := true;
        return;
      }
      plainText := Set(plainText, currHeading, plainText.vals[currHeading] + s);
    }

    /** The rest of an element's branch of `parse_child`, once its children returned `out`. */
    method Finish(out: string, post: Post) returns (s: string)
      requires !raised
      modifies this
      ensures var r := After(Step(out, old(Snapshot()), false), post);
        raised == r.raised && Snapshot() == r.st && (!raised ==> s == r.out)
    {
      match post {
        case Plain =>
          s := out;
        case OpenSection =>
          currHeading := out;
          plainText := Set(plainText, currHeading, "");
          if currHeading != title {
            readSummary := false;
          }
          s := "";
        case AppendSection =>
          AppendToCurrentSection(out);
          s := out;
        case SummaryParagraph =>
          AddToMiscField(SummaryKey, out, " ");
          s := out;
        case Quote =>
          AddToMiscField(QuotesKey, out, "\n");
          AppendToCurrentSection(out);
          s := "";
        case RowOneLine =>
          s := ReplaceAll(out, "\n", " ");
        case Padded =>
          s := " " + out + " ";
        case Bucket(key) =>
          AddToMiscField(key, out, "\n");
          s := "";
        case Caret =>
          s := if out != "" then "^" + out else out;
        case Underscore =>
          s := "_" + out;
      }
    }

    /** `parse_child`. */
    method ParseChild(c: Node, level: nat, ignoreHrefs: bool, inInfobox: bool) returns (s: string)
      requires !raised
      modifies this
      ensures var r := Child(old(Snapshot()), c, level, ignoreHrefs, inInfobox);
        raised == r.raised && Snapshot() == r.st && (!raised ==> s == r.out)
      decreases NodeSize(c), 1
    {
      if c.Comment? {
        return "";
      }
      if c.TextNode? {
        return c.text;
      }
      var action := Classify(c, level, readSummary, ignoreHrefs, inInfobox);
      if action.Skip? {
        return "";
      }
      if action.MathAlt? {
        return ImgAltText(Find(c.children, "img"));
      }
      var inner := ParseChildrenOf(c, level, action.ignoreHrefs, action.inInfobox);
      if raised {
        return "";
      }
      s := Finish(inner, action.post);
    }

    /** `parse_childrenof`: the children in order, one level down, their texts concatenated. */
    method ParseChildrenOf(c: Node, level: nat, ignoreHrefs: bool, inInfobox: bool) returns (s: string)
      requires !raised
      modifies this
      ensures var r := Inner(old(Snapshot()), c, level, ignoreHrefs, inInfobox);
        raised == r.raised && Snapshot() == r.st && (!raised ==> s == r.out)
      decreases NodeSize(c), 0
    {
      s := "";
      if !c.Element? {
        return;
      }
      var cs := c.children;
      var i := 0;
      while i < |cs|
        invariant 0 <= i <= |cs| && !raised
        invariant Resumes(ChildList(old(Snapshot()), cs, level + 1, ignoreHrefs, inInfobox), s,
                          ChildList(Snapshot(), cs[i..], level + 1, ignoreHrefs, inInfobox))
      {
        ChildSmaller(cs, i);
        ghost var st := Snapshot();
        ghost var before := s;
        var part := ParseChild(cs[i], level + 1, ignoreHrefs, inInfobox);
        if raised {
          ResumeRaised(ChildList(old(Snapshot()), cs, level + 1, ignoreHrefs, inInfobox), before, st, cs, i, level + 1, ignoreHrefs, inInfobox);
          return "";
        }
        ResumeStep(ChildList(old(Snapshot()), cs, level + 1, ignoreHrefs, inInfobox), before, st, cs, i, level + 1, ignoreHrefs, inInfobox);
        s := s + part;
        i := i + 1;
      }
      assert s + "" == s;
    }
  
    /**
     * `parse_article` from the heading node and the first child of the
     * content division: the title is parsed first, its section opened, the
     * top-level children walked with the store after each call, the summary
     * defaulted and the buckets merged after the sections. An exception
     * anywhere gives None.
     */
    method ParseArticle(heading: Option<Node>, content: Option<Node>) returns (result: Option<Dict>)
      requires !raised
      modifies this
      ensures (result, Snapshot()) == Article(old(Snapshot()), heading, content) && !raised
    {
      plainText := Empty();
      misc := Empty();
      readSummary := true;
      if heading.None? {
        return None;
      }
      var t := ParseChildrenOf(heading.value, 0, false, false);
      if raised {
        raised := false;
        return None;
      }
      title := t;
      if content.None? || !content.value.Element? {
        return None;
      }
      InnerOpen(Fresh(old(Snapshot())), heading.value, 0, false, false);
      currHeading := title;
      plainText := Set(plainText, currHeading, "");
      ghost var start := Snapshot();
      assert start == Opened(TitleStep(old(Snapshot()), heading.value));
      var cs := content.value.children;
      var i := 0;
      while i < |cs|
        invariant 0 <= i <= |cs| && !raised
        invariant Top(Snapshot(), cs[i..]) == Top(start, cs)
      {
        assert cs[i..][0] == cs[i] && cs[i..][1..] == cs[i + 1..];
        var key := currHeading;
        if key !in plainText.vals {
          raised := true;
          break;
        }
        var before := plainText.vals[key];
        var part := ParseChild(cs[i], 0, false, false);
        if raised {
          break;
        }
        plainText := Set(plainText, key, before + part);
        i := i + 1;
      }
      if raised {
        raised := false;
        return None;
      }
      assert Snapshot() == Top(start, cs).st;
      TopOpen(start, cs);
      AddToMiscFacts(misc, SummaryKey, Summary.NoDescription, "");
      if SummaryKey !in misc.vals {
        AddToMiscField(SummaryKey, Summary.NoDescription, "");
      }
      plainText := Merge(plainText, misc);
      result := Some(plainText);
    }
  }
}
