// The two output formats of the preprocessor: the "virtual XML" document
// of preprocess.py (one tag per line, used as field separators) and the
// plain-text file of both preprocessor generations (the url, then each
// section's heading and cleaned text separated by blank lines). The file
// writes are modelled as appending to the returned string; each writer is
// proved equal to a list of output lines, and the lemmas say how the
// written text splits back into those lines.
module Serialize {
  import opened Text
  import opened OrderedDict
  import Cleanup
  import Summary
  import Extract

  /** The blank line written after the url and after the first heading. */
  const FieldSeparator := "\n\n"

  // ---------------------------------------------------------------------
  // Lines
  // ---------------------------------------------------------------------

  /** The text of a list of lines, each followed by a newline. */
  function Lines(ls: seq<string>): string
  {
    if ls == [] then [] else ls[0] + "\n" + Lines(ls[1..])
  }

  lemma {:induction false} LinesAppend(a: seq<string>, b: seq<string>)
    ensures Lines(a + b) == Lines(a) + Lines(b)
    decreases |a|
  {
    if a == [] {
      assert a + b == b;
    } else {
      assert (a + b)[0] == a[0] && (a + b)[1..] == a[1..] + b;
      LinesAppend(a[1..], b);
    }
  }

  lemma LinesOne(x: string)
    ensures Lines([x]) == x + "\n"
  {
    assert [x][1..] == [];
  }

  lemma LinesThree(x: string, y: string, z: string)
    ensures Lines([x, y, z]) == x + "\n" + y + "\n" + z + "\n"
  {
    assert [x, y, z] == [x] + [y] + [z];
    LinesAppend([x] + [y], [z]);
    LinesAppend([x], [y]);
    LinesOne(x);
    LinesOne(y);
    LinesOne(z);
  }

  /** `s.split('\n')` over each line, concatenated. */
  function SplitEach(ls: seq<string>): seq<string>
  {
    if ls == [] then [] else Split(ls[0], '\n') + SplitEach(ls[1..])
  }

  /** Splitting at a separator splits the two sides independently. */
  lemma {:induction false} SplitAppend(x: string, y: string, sep: char)
    ensures Split(x + [sep] + y, sep) == Split(x, sep) + Split(y, sep)
    decreases |x|
  {
    if x == [] {
      assert x + [sep] + y == [sep] + y;
      SplitCons(sep, y, sep);
    } else {
      SplitAppend(x[1..], y, sep);
      SplitAppendStep(x[0], x[1..], y, sep);
      assert x == [x[0]] + x[1..];
      assert x + [sep] + y == [x[0]] + (x[1..] + [sep] + y);
    }
  }

  /** The step of SplitAppend: a character put in front of both sides. */
  lemma SplitAppendStep(c: char, t: string, y: string, sep: char)
    requires Split(t + [sep] + y, sep) == Split(t, sep) + Split(y, sep)
    ensures Split([c] + (t + [sep] + y), sep) == Split([c] + t, sep) + Split(y, sep)
  {
    var a, b := Split(t, sep), Split(y, sep);
    calc {
      Split([c] + (t + [sep] + y), sep);
      { SplitCons(c, t + [sep] + y, sep); }
      if c == sep then [""] + (a + b) else [[c] + (a + b)[0]] + (a + b)[1..];
      { if c != sep { ExtendFirst([c], a, b); } }
      (if c == sep then [""] + a else [[c] + a[0]] + a[1..]) + b;
      { SplitCons(c, t, sep); }
      Split([c] + t, sep) + b;
    }
  }

  /** Prefixing the first field of a split and appending more fields commute. */
  lemma ExtendFirst(w: string, a: seq<string>, b: seq<string>)
    requires |a| >= 1
    ensures [w + (a + b)[0]] + (a + b)[1..] == [w + a[0]] + a[1..] + b
  {
    assert (a + b)[1..] == a[1..] + b;
  }

  /** Splitting a string that starts with c: a new empty field when c is the separator, else c joins the first field. */
  lemma SplitCons(c: char, t: string, sep: char)
    ensures Split([c] + t, sep)
      == if c == sep then [""] + Split(t, sep) else [[c] + Split(t, sep)[0]] + Split(t, sep)[1..]
  {
    assert ([c] + t)[0] == c && ([c] + t)[1..] == t;
  }

  /** A string without the separator is a single field. */
  lemma {:induction false} SplitNoSep(x: string, sep: char)
    requires sep !in x
    ensures Split(x, sep) == [x]
    decreases |x|
  {
    if x != [] {
      SplitNoSep(x[1..], sep);
      assert [x[0]] + x[1..] == x;
    }
  }

  /**
   * A written list of lines reads back, split at newlines, as those lines
   * (each line holding newlines of its own splitting into its pieces),
   * followed by the empty field after the final newline.
   */
  lemma {:induction false} SplitLines(ls: seq<string>)
    ensures Split(Lines(ls), '\n') == SplitEach(ls) + [""]
    decreases |ls|
  {
    if ls != [] {
      SplitAppend(ls[0], Lines(ls[1..]), '\n');
      SplitLines(ls[1..]);
    }
  }

  /** Lines without newlines read back unchanged. */
  lemma {:induction false} SplitEachPlain(ls: seq<string>)
    requires forall i :: 0 <= i < |ls| ==> '\n' !in ls[i]
    ensures SplitEach(ls) == ls
    decreases |ls|
  {
    if ls != [] {
      SplitNoSep(ls[0], '\n');
      SplitEachPlain(ls[1..]);
    }
  }

  /** A string that neither starts nor ends with the separator and never repeats it has no empty field. */
  lemma {:induction false} SplitNoEmptyField(s: string, sep: char)
    requires s != [] && s[0] != sep && s[|s| - 1] != sep && !HasPair(s, sep, sep)
    ensures forall k :: 0 <= k < |Split(s, sep)| ==> Split(s, sep)[k] != []
    decreases |s|
  {
    var t := s[1..];
    if t != [] {
      Cleanup.SliceNoPair(s, 1, |s|, sep, sep);
      if t[0] == sep {
        var u := t[1..];
        assert |s| >= 3 && s[1] == sep && s[2] != sep;
        Cleanup.SliceNoPair(s, 2, |s|, sep, sep);
        assert u == s[2..];
        SplitNoEmptyField(u, sep);
        assert Split(t, sep) == [""] + Split(u, sep);
      } else {
        SplitNoEmptyField(t, sep);
      }
    }
  }

  // ---------------------------------------------------------------------
  // Section text
  // ---------------------------------------------------------------------

  /**
   * The text written for a section: the cleaned text, and for the summary
   * section the stripped summary of the cleaned text. The first preprocessor
   * generation (`legacy`) writes its own cleanup without a summary.
   */
  function Body(key: string, value: string, legacy: bool): string
  {
    if legacy then Cleanup.CleanupSectionOld(value)
    else
      var clean := Cleanup.CleanupSection(value);
      if key == Extract.SummaryKey then Strip(Summary.GetSummary(clean)) else clean
  }

  /** The summary section is always a single line. */
  lemma SummaryOneLine(value: string)
    ensures '\n' !in Body(Extract.SummaryKey, value, false)
  {
    var s := Summary.GetSummary(Cleanup.CleanupSection(value));
    Summary.GetSummaryShape(Cleanup.CleanupSection(value));
    Cleanup.StripKeeps(s, '\n');
  }

  /**
   * No section text holds a blank line: a non-empty body splits into
   * non-empty lines, so the blank lines of a written file are those of the
   * format and of empty sections.
   */
  lemma BodyHasNoBlankLine(key: string, value: string, legacy: bool)
    ensures var b := Body(key, value, legacy);
      b != [] ==> forall k :: 0 <= k < |Split(b, '\n')| ==> Split(b, '\n')[k] != []
  {
    var b := Body(key, value, legacy);
    if b != [] {
      if !legacy && key == Extract.SummaryKey {
        SummaryOneLine(value);
        SplitNoSep(b, '\n');
      } else {
        if legacy {
          Cleanup.CleanupSectionOldClean(value);
        } else {
          Cleanup.CleanupSectionClean(value);
        }
        SplitNoEmptyField(b, '\n');
      }
    }
  }

  method WriteBody(key: string, value: string, legacy: bool) returns (b: string)
    ensures b == Body(key, value, legacy)
  {
    b := Cleanup.Cleanup(value, !legacy);
    if !legacy && key == Extract.SummaryKey {
      var s := Summary.Summarize(b);
      b := Strip(s);
    }
  }

  /** `dictionary[key]` for a key being iterated over; the "" for an absent key is never reached. */
  function ValueOf(vals: map<string, string>, key: string): string
  {
    if key in vals then vals[key] else []
  }

  // ---------------------------------------------------------------------
  // write_virtual_xml
  // ---------------------------------------------------------------------

  /** A tag, its text and the closing tag, each on a line of its own. */
  function Tagged(open: string, text: string, close: string): seq<string>
  {
    [open, text, close]
  }

  /** The opening of the document: the url, then the published and updated dates when known. */
  function XmlHeader(url: string, modified: string, published: string): seq<string>
  {
    ["<document>"] + Tagged("<url>", url, "</url>")
    + (if published != [] then Tagged("<published>", published, "</published>") else [])
    + (if modified != [] then Tagged("<updated>", modified, "</updated>") else [])
  }

  /** One section: its heading and its text. */
  function XmlSection(key: string, body: string): seq<string>
  {
    ["<section>"] + Tagged("<heading>", key, "</heading>") + Tagged("<content>", body, "</content>") + ["</section>"]
  }

  function XmlSections(ks: seq<string>, vals: map<string, string>): seq<string>
    decreases |ks|
  {
    if ks == [] then [] else XmlSection(ks[0], Body(ks[0], ValueOf(vals, ks[0]), false)) + XmlSections(ks[1..], vals)
  }

  /**
   * The lines of the document: the header, the first key as the title,
   * one section per key in the dict's order, and the closing tag.
   */
  function XmlLines(d: Dict, url: string, modified: string, published: string): seq<string>
  {
    XmlHeader(url, modified, published)
    + (if d.keys == [] then [] else Tagged("<title>", d.keys[0], "</title>"))
    + XmlSections(d.keys, d.vals)
    + ["</document>"]
  }

  lemma XmlSectionText(key: string, body: string)
    ensures Lines(XmlSection(key, body))
      == "<section>\n" + "<heading>\n" + key + "\n</heading>\n" + "<content>\n" + body + "\n</content>\n" + "</section>\n"
  {
    var h, c := Tagged("<heading>", key, "</heading>"), Tagged("<content>", body, "</content>");
    assert Lines(XmlSection(key, body)) == Lines(["<section>"]) + Lines(h) + Lines(c) + Lines(["</section>"]) by {
      LinesAppend(["<section>"] + h + c, ["</section>"]);
      LinesAppend(["<section>"] + h, c);
      LinesAppend(["<section>"], h);
    }
    LinesOne("<section>");
    LinesOne("</section>");
    TaggedLines("<heading>", key, "</heading>");
    TaggedLines("<content>", body, "</content>");
    SectionLiterals();
    RegroupSection("<section>\n", "<heading>\n", key, "\n</heading>\n", "<content>\n", body, "\n</content>\n", "</section>\n");
  }

  /** A tag, its text and its closing tag as written: the tag and a newline, the text, a newline, the closing tag and a newline. */
  lemma TaggedLines(open: string, text: string, close: string)
    ensures Lines(Tagged(open, text, close)) == (open + "\n") + text + ("\n" + close + "\n")
  {
    LinesThree(open, text, close);
  }

  /** The literals of one section, as the source writes them. */
  lemma SectionLiterals()
    ensures "<section>" + "\n" == "<section>\n" && "</section>" + "\n" == "</section>\n"
    ensures "<heading>" + "\n" == "<heading>\n" && "\n" + "</heading>" + "\n" == "\n</heading>\n"
    ensures "<content>" + "\n" == "<content>\n" && "\n" + "</content>" + "\n" == "\n</content>\n"
  {
  }

  lemma RegroupSection(o: string, h1: string, k: string, h2: string, c1: string, b: string, c2: string, e: string)
    ensures o + (h1 + k + h2) + (c1 + b + c2) + e == o + h1 + k + h2 + c1 + b + c2 + e
  {
  }

  lemma {:induction false} XmlSectionsSnoc(ks: seq<string>, k: string, vals: map<string, string>)
    ensures XmlSections(ks + [k], vals) == XmlSections(ks, vals) + XmlSection(k, Body(k, ValueOf(vals, k), false))
    decreases |ks|
  {
    if ks == [] {
      assert ks + [k] == [k];
      assert [k][1..] == [];
    } else {
      assert (ks + [k])[0] == ks[0] && (ks + [k])[1..] == ks[1..] + [k];
      XmlSectionsSnoc(ks[1..], k, vals);
    }
  }

  /**
   * The document holds every tag on a line of its own: read back at
   * newlines it gives the tags in order, with the url, dates, headings and
   * section texts between them (a text that holds newlines over several
   * lines), and the summary text on exactly one line.
   */
  lemma XmlReadsBack(d: Dict, url: string, modified: string, published: string)
    requires Valid(d)
    ensures Split(Lines(XmlLines(d, url, modified, published)), '\n') == SplitEach(XmlLines(d, url, modified, published)) + [""]
    ensures Extract.SummaryKey in d.vals ==> '\n' !in Body(Extract.SummaryKey, d.vals[Extract.SummaryKey], false)
  {
    SplitLines(XmlLines(d, url, modified, published));
    if Extract.SummaryKey in d.vals {
      SummaryOneLine(d.vals[Extract.SummaryKey]);
    }
  }

  /** The tag lines as the source writes them. */
  lemma TagLiterals()
    ensures "<url>" + "\n" == "<url>\n" && "\n" + "</url>" + "\n" == "\n</url>\n"
    ensures "<published>" + "\n" == "<published>\n" && "\n" + "</published>" + "\n" == "\n</published>\n"
    ensures "<updated>" + "\n" == "<updated>\n" && "\n" + "</updated>" + "\n" == "\n</updated>\n"
    ensures "<title>" + "\n" == "<title>\n" && "\n" + "</title>" + "\n" == "\n</title>\n"
  {
  }

  /** Writing a tag line, the text and the closing tag line after `before`. */
  lemma TaggedAfter(before: string, open: string, text: string, close: string)
    ensures before + (open + "\n") + text + ("\n" + close + "\n") == before + Lines(Tagged(open, text, close))
  {
    LinesThree(open, text, close);
  }

  /** Writing one section after `before`, in the source's eight writes. */
  lemma SectionAfter(before: string, key: string, body: string)
    ensures before + "<section>\n" + "<heading>\n" + key + "\n</heading>\n" + "<content>\n" + body + "\n</content>\n" + "</section>\n"
      == before + Lines(XmlSection(key, body))
  {
    var h := "<section>\n" + "<heading>\n" + key + "\n</heading>\n";
    var c := "<content>\n" + body + "\n</content>\n" + "</section>\n";
    XmlSectionText(key, body);
    assert "<section>\n" + "<heading>\n" + key + "\n</heading>\n" + "<content>\n" + body + "\n</content>\n" + "</section>\n" == h + c;
    assert before + "<section>\n" + "<heading>\n" + key + "\n</heading>\n" == before + h;
    assert before + h + "<content>\n" + body + "\n</content>\n" + "</section>\n" == before + h + c;
  }

  /** The lines written once the i-th key is reached: the header, the title once a key was written, and i sections. */
  function XmlPrefix(head: seq<string>, d: Dict, i: nat): seq<string>
    requires i <= |d.keys|
  {
    head + (if i == 0 then [] else Tagged("<title>", d.keys[0], "</title>")) + XmlSections(d.keys[..i], d.vals)
  }

  /** The title lines written before the i-th section: only before the first. */
  function TitleBefore(d: Dict, i: nat): seq<string>
    requires i < |d.keys|
  {
    if i == 0 then Tagged("<title>", d.keys[0], "</title>") else []
  }

  lemma XmlPrefixStep(head: seq<string>, d: Dict, i: nat)
    requires i < |d.keys|
    ensures Lines(XmlPrefix(head, d, i + 1))
      == Lines(XmlPrefix(head, d, i)) + Lines(TitleBefore(d, i))
         + Lines(XmlSection(d.keys[i], Body(d.keys[i], ValueOf(d.vals, d.keys[i]), false)))
  {
    var p := XmlPrefix(head, d, i);
    var t := TitleBefore(d, i);
    var s := XmlSection(d.keys[i], Body(d.keys[i], ValueOf(d.vals, d.keys[i]), false));
    XmlPrefixSnoc(head, d, i);
    LinesAppend(p + t, s);
    LinesAppend(p, t);
  }

  /** The lines up to the (i + 1)-th key are those up to the i-th, the title before the first section, and section i. */
  lemma XmlPrefixSnoc(head: seq<string>, d: Dict, i: nat)
    requires i < |d.keys|
    ensures XmlPrefix(head, d, i + 1)
      == XmlPrefix(head, d, i) + TitleBefore(d, i) + XmlSection(d.keys[i], Body(d.keys[i], ValueOf(d.vals, d.keys[i]), false))
  {
    var k := d.keys[i];
    assert d.keys[..i + 1] == d.keys[..i] + [k];
    XmlSectionsSnoc(d.keys[..i], k, d.vals);
    if i == 0 {
      assert d.keys[..0] == [];
    }
  }


  lemma XmlPrefixEnds(d: Dict, url: string, modified: string, published: string)
    ensures Lines(XmlLines(d, url, modified, published))
      == Lines(XmlPrefix(XmlHeader(url, modified, published), d, |d.keys|)) + "</document>\n"
  {
    assert d.keys[..|d.keys|] == d.keys;
    LinesOne("</document>");
    LinesAppend(XmlPrefix(XmlHeader(url, modified, published), d, |d.keys|), ["</document>"]);
  }

  /** The writes of the document header: the opening tag, the url and the known dates. */
  method WriteXmlHeader(url: string, modified: string, published: string) returns (out: string)
    ensures out == Lines(XmlHeader(url, modified, published))
  {
    out := "<document>\n";
    out := out + "<url>\n";
    out := out + url;
    out := out + "\n</url>\n";
    ghost var lines := ["<document>"] + Tagged("<url>", url, "</url>");
    assert out == Lines(lines) by {
      LinesOne("<document>");
      TaggedAfter("<document>\n", "<url>", url, "</url>");
      TagLiterals();
      LinesAppend(["<document>"], Tagged("<url>", url, "</url>"));
    }
    if published != [] {
      ghost var before := out;
      out := out + "<published>\n";
      out := out + published;
      out := out + "\n</published>\n";
      assert out == Lines(lines + Tagged("<published>", published, "</published>")) by {
        TaggedAfter(before, "<published>", published, "</published>");
        TagLiterals();
        LinesAppend(lines, Tagged("<published>", published, "</published>"));
      }
      lines := lines + Tagged("<published>", published, "</published>");
    }
    if modified != [] {
      ghost var before := out;
      out := out + "<updated>\n";
      out := out + modified;
      out := out + "\n</updated>\n";
      assert out == Lines(lines + Tagged("<updated>", modified, "</updated>")) by {
        TaggedAfter(before, "<updated>", modified, "</updated>");
        TagLiterals();
        LinesAppend(lines, Tagged("<updated>", modified, "</updated>"));
      }
      lines := lines + Tagged("<updated>", modified, "</updated>");
    }
    assert lines == XmlHeader(url, modified, published);
  }

  /**
   * One pass of the loop of `write_virtual_xml`: the title for the first
   * key only, then the section with the heading and the cleaned text.
   */
  method WriteXmlSection(out: string, key: string, value: string, firstKey: bool) returns (r: string)
    ensures r == out + (if firstKey then Lines(Tagged("<title>", key, "</title>")) else "")
                 + Lines(XmlSection(key, Body(key, value, false)))
  {
    r := out;
    if firstKey {
      r := r + "<title>\n";
      r := r + key;
      r := r + "\n</title>\n";
      assert r == out + Lines(Tagged("<title>", key, "</title>")) by {
        TaggedAfter(out, "<title>", key, "</title>");
        TagLiterals();
      }
    }
    ghost var mid := r;
    r := r + "<section>\n";
    r := r + "<heading>\n";
    r := r + key;
    r := r + "\n</heading>\n";
    r := r + "<content>\n";
    var body := WriteBody(key, value, false);
    r := r + body;
    r := r + "\n</content>\n";
    r := r + "</section>\n";
    SectionAfter(mid, key, body);
  }

  /** Writing the title (first key only) and section i after the first i keys gives the first i + 1 keys. */
  lemma XmlStep(head: seq<string>, d: Dict, i: nat, before: string, after: string)
    requires Valid(d) && i < |d.keys|
    requires before == Lines(XmlPrefix(head, d, i))
    requires after == before + (if i == 0 then Lines(Tagged("<title>", d.keys[i], "</title>")) else "")
                      + Lines(XmlSection(d.keys[i], Body(d.keys[i], d.vals[d.keys[i]], false)))
    ensures after == Lines(XmlPrefix(head, d, i + 1))
  {
    XmlPrefixStep(head, d, i);
    if i != 0 {
      assert Lines(TitleBefore(d, i)) == "";
    }
  }

  /** `write_virtual_xml`: the header, then per key the title (first key only) and a section, then the closing tag. */
  method WriteVirtualXml(d: Dict, url: string, modified: string, published: string) returns (out: string)
    requires Valid(d)
    ensures out == Lines(XmlLines(d, url, modified, published))
  {
    out := WriteXmlHeader(url, modified, published);
    ghost var lines := XmlHeader(url, modified, published);
    assert out == Lines(XmlPrefix(lines, d, 0)) by {
      assert d.keys[..0] == [];
      assert XmlPrefix(lines, d, 0) == lines;
    }
    var firstKey := true;
    var i := 0;
    while i < |d.keys|
      invariant 0 <= i <= |d.keys| && firstKey == (i == 0)
      invariant out == Lines(XmlPrefix(lines, d, i))
    {
      var key := d.keys[i];
      ghost var before := out;
      out := WriteXmlSection(out, key, d.vals[key], firstKey);
      firstKey := false;
      XmlStep(lines, d, i, before, out);
      i := i + 1;
    }
    out := out + "</document>\n";
    XmlPrefixEnds(d, url, modified, published);
  }

  // ---------------------------------------------------------------------
  // write_plain_text
  // ---------------------------------------------------------------------

  /**
   * The lines of one key: a blank line and the heading, two more blank
   * lines after the first heading only, then the section text.
   */
  function PlainBlock(key: string, body: string, first: bool): seq<string>
  {
    if first then ["", key, "", "", body] else ["", key, body]
  }

  /** The lines written once the first i keys are done. */
  function PlainPrefix(head: seq<string>, d: Dict, legacy: bool, i: nat): seq<string>
    requires i <= |d.keys|
  {
    if i == 0 then head
    else
      var k := d.keys[i - 1];
      PlainPrefix(head, d, legacy, i - 1) + PlainBlock(k, Body(k, ValueOf(d.vals, k), legacy), i == 1)
  }

  /** The lines of the plain-text file: the url and a blank line, then the block of each key in the dict's order. */
  function PlainLines(d: Dict, url: string, legacy: bool): seq<string>
  {
    PlainPrefix([url, ""], d, legacy, |d.keys|)
  }

  /** Writing one key's block after `before`, as the source's writes do. */
  lemma PlainBlockAfter(before: string, key: string, body: string, first: bool)
    ensures first ==> before + ("\n" + key + "\n") + FieldSeparator + (body + "\n") == before + Lines(PlainBlock(key, body, true))
    ensures !first ==> before + ("\n" + key + "\n") + (body + "\n") == before + Lines(PlainBlock(key, body, false))
  {
    if first {
      LinesAppend(["", key], ["", "", body]);
      LinesAppend([""], [key]);
      LinesThree("", "", body);
      LinesOne("");
      LinesOne(key);
      assert ["", key] + ["", "", body] == ["", key, "", "", body];
    } else {
      LinesThree("", key, body);
    }
  }

  /** The url and the field separator are the url and a blank line. */
  lemma PlainHead(url: string)
    ensures url + FieldSeparator == Lines([url, ""])
  {
    LinesAppend([url], [""]);
    LinesOne(url);
    LinesOne("");
  }

  /** Writing block i after the first i blocks gives the first i + 1 blocks. */
  lemma PlainStep(d: Dict, url: string, legacy: bool, i: nat, before: string, after: string)
    requires i < |d.keys|
    requires before == Lines(PlainPrefix([url, ""], d, legacy, i))
    requires after == before + Lines(PlainBlock(d.keys[i], Body(d.keys[i], ValueOf(d.vals, d.keys[i]), legacy), i == 0))
    ensures after == Lines(PlainPrefix([url, ""], d, legacy, i + 1))
  {
    var key := d.keys[i];
    LinesAppend(PlainPrefix([url, ""], d, legacy, i), PlainBlock(key, Body(key, ValueOf(d.vals, key), legacy), i == 0));
  }

  /** Once a key is written, the file begins with the url, two blank lines, the first heading and a blank line. */
  lemma {:induction false} PlainPrefixStart(head: seq<string>, d: Dict, legacy: bool, i: nat)
    requires 1 <= i <= |d.keys|
    ensures |PlainPrefix(head, d, legacy, i)| >= |head| + 4
    ensures PlainPrefix(head, d, legacy, i)[..|head| + 4] == head + ["", d.keys[0], "", ""]
  {
    if i > 1 {
      PlainPrefixStart(head, d, legacy, i - 1);
      var p := PlainPrefix(head, d, legacy, i - 1);
      var k := d.keys[i - 1];
      var b := PlainBlock(k, Body(k, ValueOf(d.vals, k), legacy), false);
      assert PlainPrefix(head, d, legacy, i) == p + b;
      assert (p + b)[..|head| + 4] == p[..|head| + 4];
    } else {
      var k := d.keys[0];
      assert PlainPrefix(head, d, legacy, 0) == head;
      var b := PlainBlock(k, Body(k, ValueOf(d.vals, k), legacy), true);
      assert PlainPrefix(head, d, legacy, 1) == head + b;
      assert (head + b)[..|head| + 4] == head + b[..4];
    }
  }

  /**
   * The plain-text file reads back at newlines as its lines; when the url
   * and the first heading hold no newline, it begins with the url, two
   * blank lines, the title heading and a blank line.
   */
  lemma PlainReadsBack(d: Dict, url: string, legacy: bool)
    ensures Split(Lines(PlainLines(d, url, legacy)), '\n') == SplitEach(PlainLines(d, url, legacy)) + [""]
    ensures '\n' !in url && d.keys != [] && '\n' !in d.keys[0] ==>
      |Split(Lines(PlainLines(d, url, legacy)), '\n')| >= 6
      && Split(Lines(PlainLines(d, url, legacy)), '\n')[..6] == [url, "", "", d.keys[0], "", ""]
  {
    var ls := PlainLines(d, url, legacy);
    SplitLines(ls);
    if '\n' !in url && d.keys != [] && '\n' !in d.keys[0] {
      PlainPrefixStart([url, ""], d, legacy, |d.keys|);
      ReadsBackStart(ls, [url, "", "", d.keys[0], "", ""]);
    }
  }

  /** Lines that begin with lines free of newlines read back beginning with them. */
  lemma ReadsBackStart(ls: seq<string>, start: seq<string>)
    requires |start| <= |ls| && ls[..|start|] == start
    requires forall j :: 0 <= j < |start| ==> '\n' !in start[j]
    ensures |Split(Lines(ls), '\n')| >= |start| && Split(Lines(ls), '\n')[..|start|] == start
  {
    var rest := ls[|start|..];
    assert ls == start + rest;
    SplitLines(ls);
    SplitEachAppend(start, rest);
    SplitEachPlain(start);
    assert (start + SplitEach(rest) + [""])[..|start|] == start;
  }

  lemma {:induction false} SplitEachAppend(a: seq<string>, b: seq<string>)
    ensures SplitEach(a + b) == SplitEach(a) + SplitEach(b)
    decreases |a|
  {
    if a == [] {
      assert a + b == b;
    } else {
      assert (a + b)[0] == a[0] && (a + b)[1..] == a[1..] + b;
      SplitEachAppend(a[1..], b);
    }
  }

  /**
   * One pass of the loop of `write_plain_text`: the heading between
   * newlines, the field separator after the first heading only, then the
   * cleaned section text and a newline.
   */
  method WriteSection(out: string, key: string, value: string, legacy: bool, firstKey: bool) returns (r: string)
    ensures r == out + Lines(PlainBlock(key, Body(key, value, legacy), firstKey))
  {
    r := out + ("\n" + key + "\n");
    if firstKey {
      r := r + FieldSeparator;
    }
    var body := WriteBody(key, value, legacy);
    r := r + (body + "\n");
    PlainBlockAfter(out, key, body, firstKey);
  }

  /**
   * `write_plain_text` of either generation: the url and the field
   * separator, then per key the heading between newlines, the separator
   * after the first heading only, and the section text with a newline.
   */
  method WritePlainText(d: Dict, url: string, legacy: bool) returns (out: string)
    ensures out == Lines(PlainLines(d, url, legacy))
  {
    PlainHead(url);
    out := url + FieldSeparator;
    var firstKey := true;
    var i := 0;
    while i < |d.keys|
      invariant 0 <= i <= |d.keys| && firstKey == (i == 0)
      invariant out == Lines(PlainPrefix([url, ""], d, legacy, i))
    {
      var key := d.keys[i];
      ghost var before := out;
      out := WriteSection(out, key, ValueOf(d.vals, key), legacy, firstKey);
      firstKey := false;
      PlainStep(d, url, legacy, i, before, out);
      i := i + 1;
    }
  }
}
