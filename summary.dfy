// The summary line of preprocess.py: `remove_matching_parentheses` drops
// parenthesised text with a depth stack, and `get_summary` fits the
// remaining text into one line of at most MaxSummaryLength characters,
// cutting at a sentence boundary or marking the cut with "...".
module Summary {
  import opened Text

  const MaxSummaryLength: nat := 170
  const MinSentenceLength: nat := 25
  const NoDescription: string := "No description is available"

  /**
   * The characters `remove_matching_parentheses` keeps from s, starting at
   * nesting depth `depth`: a '(' opens a level, a character is kept only at
   * depth 0 after its own '(' is counted, and a ')' closes a level when one
   * is open (an unmatched ')' is kept).
   */
  function DropParens(s: string, depth: nat): (r: string)
    ensures |r| <= |s|
    ensures '(' !in r
  {
    if s == [] then []
    else
      var c := s[0];
      var d1 := if c == '(' then depth + 1 else depth;
      var d2 := if c == ')' && d1 > 0 then d1 - 1 else d1;
      (if d1 == 0 then [c] else []) + DropParens(s[1..], d2)
  }

  /** The depth after reading s from depth `depth`. */
  function DepthAfter(s: string, depth: nat): nat
  {
    if s == [] then depth
    else
      var c := s[0];
      var d1 := if c == '(' then depth + 1 else depth;
      DepthAfter(s[1..], if c == ')' && d1 > 0 then d1 - 1 else d1)
  }

  /** `remove_matching_parentheses`: the kept characters, then one pass of replace('  ', ' '). */
  function RemoveMatchingParentheses(s: string): string
  {
    ReplaceAll(DropParens(s, 0), "  ", " ")
  }

  /** The result never contains '('. */
  lemma RemoveParensNoOpen(s: string)
    ensures '(' !in RemoveMatchingParentheses(s)
  {
    ReplaceKeepsOut(DropParens(s, 0), "  ", " ", '(');
  }

  /** Reading x then y is reading x + y. */
  lemma {:induction false} DropParensAppend(x: string, y: string, d: nat)
    ensures DropParens(x + y, d) == DropParens(x, d) + DropParens(y, DepthAfter(x, d))
    ensures DepthAfter(x + y, d) == DepthAfter(y, DepthAfter(x, d))
  {
    if x != [] {
      assert (x + y)[1..] == x[1..] + y;
      var c := x[0];
      var d1 := if c == '(' then d + 1 else d;
      DropParensAppend(x[1..], y, if c == ')' && d1 > 0 then d1 - 1 else d1);
    } else {
      assert x + y == y;
    }
  }

  /** Text without parentheses is kept unchanged at depth 0 and dropped inside a pair. */
  lemma {:induction false} PlainText(b: string, d: nat)
    requires '(' !in b && ')' !in b
    ensures DropParens(b, d) == (if d == 0 then b else [])
    ensures DepthAfter(b, d) == d
  {
    if b != [] {
      PlainText(b[1..], d);
    }
  }

  /** Reading a '(' opens one level. */
  lemma OpenStep(x: string, d: nat)
    ensures DropParens("(" + x, d) == DropParens(x, d + 1)
    ensures DepthAfter("(" + x, d) == DepthAfter(x, d + 1)
  {
    assert ("(" + x)[1..] == x;
  }

  /** Reading a ')' inside an open level closes it without keeping the ')'. */
  lemma CloseStep(x: string, d: nat)
    ensures DropParens(")" + x, d + 1) == DropParens(x, d)
    ensures DepthAfter(")" + x, d + 1) == DepthAfter(x, d)
  {
    assert (")" + x)[1..] == x;
  }

  /**
   * A group '(' + b + ')' is dropped together with everything inside it
   * when b is balanced: read from depth 1, b never closes that level and
   * ends at it.
   */
  lemma MatchedPairDropped(a: string, b: string, c: string)
    requires StaysOpen(b, 1) && DepthAfter(b, 1) == 1
    ensures DropParens(a + "(" + b + ")" + c, 0) == DropParens(a, 0) + DropParens(c, DepthAfter(a, 0))
  {
    var d := DepthAfter(a, 0);
    assert a + "(" + b + ")" + c == a + ("(" + (b + (")" + c)));
    DropParensAppend(a, "(" + (b + (")" + c)), 0);
    OpenStep(b + (")" + c), d);
    DropParensAppend(b, ")" + c, d + 1);
    DepthShift(b, 1, d);
    UnclosedDropsRest(b, d + 1);
    CloseStep(c, d);
  }

  /** Reading s from depth d, the depth before each of its characters is at least 1. */
  predicate StaysOpen(s: string, d: nat)
  {
    forall k :: 0 <= k < |s| ==> DepthAfter(s[..k], d) > 0
  }

  /** s stays open from d exactly when d is open and the rest of s stays open from the next depth. */
  lemma StaysOpenStep(s: string, d: nat)
    requires s != []
    ensures var c := s[0];
      var d1 := if c == '(' then d + 1 else d;
      var d2 := if c == ')' && d1 > 0 then d1 - 1 else d1;
      StaysOpen(s, d) <==> d > 0 && StaysOpen(s[1..], d2)
  {
    var c := s[0];
    var d1 := if c == '(' then d + 1 else d;
    var d2 := if c == ')' && d1 > 0 then d1 - 1 else d1;
    assert s[..0] == [];
    forall k | 0 <= k < |s| - 1
      ensures DepthAfter(s[..k + 1], d) == DepthAfter(s[1..][..k], d2)
    {
      assert s[..k + 1][1..] == s[1..][..k];
    }
    if d > 0 && StaysOpen(s[1..], d2) {
      forall k | 0 <= k < |s|
        ensures DepthAfter(s[..k], d) > 0
      {
        if k > 0 {
          assert DepthAfter(s[..(k - 1) + 1], d) == DepthAfter(s[1..][..k - 1], d2);
        }
      }
    }
    if StaysOpen(s, d) {
      assert DepthAfter(s[..0], d) > 0;
      forall k | 0 <= k < |s| - 1
        ensures DepthAfter(s[1..][..k], d2) > 0
      {
        assert DepthAfter(s[..k + 1], d) > 0;
      }
    }
  }

  /** Text that stays open moves every starting depth alike: e more levels below stay e more levels. */
  lemma {:induction false} DepthShift(s: string, d: nat, e: nat)
    requires StaysOpen(s, d)
    ensures DepthAfter(s, d + e) == DepthAfter(s, d) + e
    ensures StaysOpen(s, d + e)
  {
    if s != [] {
      StaysOpenStep(s, d);
      StaysOpenStep(s, d + e);
      var c := s[0];
      var d1 := if c == '(' then d + 1 else d;
      var d2 := if c == ')' && d1 > 0 then d1 - 1 else d1;
      DepthShift(s[1..], d2, e);
    }
  }

  /** An unmatched ')' at depth 0 is kept. */
  lemma UnmatchedCloseKept(t: string)
    ensures DropParens(")" + t, 0) == ")" + DropParens(t, 0)
  {
    assert (")" + t)[1..] == t;
  }

  /** While the depth never comes back to 0, nothing is kept: text after an unmatched '(' is lost. */
  lemma {:induction false} UnclosedDropsRest(s: string, d: nat)
    requires StaysOpen(s, d)
    ensures DropParens(s, d) == []
  {
    if s != [] {
      StaysOpenStep(s, d);
      var c := s[0];
      var d1 := if c == '(' then d + 1 else d;
      UnclosedDropsRest(s[1..], if c == ')' && d1 > 0 then d1 - 1 else d1);
    }
  }

  /** One step of the reading: the character at i is kept at depth 0 and moves the depth from d to d2. */
  lemma DropStep(s: string, i: nat, d: nat, d1: nat, d2: nat)
    requires i < |s|
    requires d1 == if s[i] == '(' then d + 1 else d
    requires d2 == if s[i] == ')' && d1 > 0 then d1 - 1 else d1
    ensures DropParens(s[i..], d) == (if d1 == 0 then [s[i]] else []) + DropParens(s[i + 1..], d2)
  {
    assert s[i..][1..] == s[i + 1..];
  }

  lemma Regroup(a: string, b: string, c: string)
    ensures (a + b) + c == a + (b + c)
  {
  }

  /** `remove_matching_parentheses` with its explicit stack of open parentheses. */
  method RemoveParens(s: string) returns (r: string)
    ensures r == RemoveMatchingParentheses(s)
  {
    var stack: seq<char> := [];
    var newStr := "";
    var i := 0;
    while i < |s|
      invariant 0 <= i <= |s|
      invariant newStr + DropParens(s[i..], |stack|) == DropParens(s, 0)
    {
      ghost var d := |stack|;
      ghost var prev := newStr;
      var c := s[i];
      if c == '(' {
        stack := stack + [c];
      }
      ghost var d1 := |stack|;
      ghost var kept: string := if d1 == 0 then [c] else [];
      if |stack| == 0 {
        newStr := newStr + [c];
      }
      if c == ')' && |stack| > 0 {
        stack := stack[..|stack| - 1];
      }
      DropStep(s, i, d, d1, |stack|);
      assert newStr == prev + kept;
      Regroup(prev, kept, DropParens(s[i + 1..], |stack|));
      i := i + 1;
    }
    assert s[i..] == [];
    assert DropParens(s[i..], |stack|) == [];
    assert newStr == DropParens(s, 0);
    r := ReplaceAll(newStr, "  ", " ");
  }

  /** The word loop of `get_summary`: add " " + word while the length stays within the maximum. */
  function Accumulate(words: seq<string>, acc: string): (r: string)
  {
    if words == [] || |acc| + |words[0]| > MaxSummaryLength then acc
    else Accumulate(words[1..], acc + " " + words[0])
  }

  /** The accumulated string grows by " " + word steps and never passes MaxSummaryLength + 1. */
  lemma {:induction false} AccumulateBound(words: seq<string>, acc: string)
    requires |acc| <= MaxSummaryLength + 1
    requires acc != [] ==> acc[0] == ' '
    requires forall w :: w in words ==> '\n' !in w
    requires '\n' !in acc
    ensures var r := Accumulate(words, acc);
      |r| <= MaxSummaryLength + 1 && (r != [] ==> r[0] == ' ') && '\n' !in r
  {
    if words != [] && |acc| + |words[0]| <= MaxSummaryLength {
      AccumulateBound(words[1..], acc + " " + words[0]);
    }
  }

  /** The summary once the one-line text is longer than the maximum: its words accumulated, then cut. */
  function Shorten(oneLine: string): string
  {
    Truncate(Accumulate(Split(oneLine, ' '), ""))
  }

  /** How `get_summary` ends the accumulated words s. */
  function Truncate(s: string): string
  {
    if |Strip(s)| == 0 then NoDescription
    else
      var lastLength := |LastField(s, '.')|;
      LastFieldSuffix(s, '.');
      if |Split(s, '.')| > 1 && lastLength < MinSentenceLength then s[..|s| - lastLength]
      else if s[..|s| - 1] != "." then s + "..."
      else s
  }

  /** `get_summary` on a section that has already been cleaned up. */
  function GetSummary(sectionText: string): string
  {
    var summary := RemoveMatchingParentheses(sectionText);
    if |summary| == 0 then NoDescription
    else
      var oneLine := ReplaceAll(summary, "\n", " ");
      if |oneLine| <= MaxSummaryLength then oneLine else Shorten(oneLine)
  }

  lemma {:induction false} ReplaceKeepsNewlineOut(s: string)
    ensures '\n' !in ReplaceAll(s, "\n", " ")
    decreases |s|
  {
    if |s| >= 1 {
      ReplaceKeepsNewlineOut(s[1..]);
    }
  }

  /** The fields of a split contain no character the string lacks. */
  lemma {:induction false} SplitFieldsNoChar(s: string, sep: char, c: char)
    requires c !in s
    ensures forall w :: w in Split(s, sep) ==> c !in w
    decreases |s|
  {
    if s != [] {
      SplitFieldsNoChar(s[1..], sep, c);
    }
  }

  /** Cutting the last sentence off leaves a string ending in '.'. */
  lemma CutEndsWithDot(s: string)
    requires |Split(s, '.')| > 1
    ensures |LastField(s, '.')| < |s|
    ensures var r := s[..|s| - |LastField(s, '.')|];
      r != [] && r[|r| - 1] == '.'
  {
    LastFieldSuffix(s, '.');
  }

  /** A string starting with a space is never "." once its last character is dropped. */
  lemma NeverSingleDot(s: string)
    requires s != [] && s[0] == ' '
    ensures s[..|s| - 1] != "."
  {
    if |s| == 2 {
      assert s[..1][0] == ' ';
    }
  }

  /** The accumulated words of a one-line text form one line of at most MaxSummaryLength + 1 characters starting with ' '. */
  lemma AccumulatedLine(oneLine: string)
    requires '\n' !in oneLine
    ensures var s := Accumulate(Split(oneLine, ' '), "");
      |s| <= MaxSummaryLength + 1 && (s != [] ==> s[0] == ' ') && '\n' !in s
  {
    SplitFieldsNoChar(oneLine, ' ', '\n');
    AccumulateBound(Split(oneLine, ' '), "");
  }

  /**
   * The truncation branch: the accumulated string starts with ' ', so its
   * `[:-1]` is never "." and "..." is always appended when the last
   * sentence is kept; a short last sentence is cut right after a '.'.
   */
  lemma ShortenShape(oneLine: string)
    requires '\n' !in oneLine
    ensures var r := Shorten(oneLine);
      && '\n' !in r && |r| <= MaxSummaryLength + 4
      && (r == NoDescription
          || (r != [] && r[|r| - 1] == '.')
          || (|r| >= 3 && r[|r| - 3..] == "..."))
  {
    AccumulatedLine(oneLine);
    var s := Accumulate(Split(oneLine, ' '), "");
    if |Strip(s)| != 0 {
      LastFieldSuffix(s, '.');
      if |Split(s, '.')| > 1 && |LastField(s, '.')| < MinSentenceLength {
        CutEndsWithDot(s);
      } else {
        NeverSingleDot(s);
        assert (s + "...")[|s| + 3 - 3..] == "...";
      }
    }
  }

  /**
   * The three outcomes of shortening, case by case: NoDescription when the
   * accumulated words are blank; when they hold a '.' followed by fewer
   * than MinSentenceLength characters, those words cut just after their
   * last '.'; otherwise those words followed by "...".
   */
  lemma ShortenCases(oneLine: string)
    requires '\n' !in oneLine
    ensures var s := Accumulate(Split(oneLine, ' '), "");
      |Strip(s)| == 0 ==> Shorten(oneLine) == NoDescription
    ensures var s := Accumulate(Split(oneLine, ' '), ""); var r := Shorten(oneLine);
      |Strip(s)| != 0 && '.' in s && |LastField(s, '.')| < MinSentenceLength ==>
        && 0 < |r| <= |s| && r == s[..|r|] && r[|r| - 1] == '.'
        && '.' !in s[|r|..] && |s| - |r| < MinSentenceLength
    ensures var s := Accumulate(Split(oneLine, ' '), "");
      |Strip(s)| != 0 && ('.' !in s || |LastField(s, '.')| >= MinSentenceLength) ==> Shorten(oneLine) == s + "..."
  {
    var s := Accumulate(Split(oneLine, ' '), "");
    AccumulatedLine(oneLine);
    TruncateCases(s);
    assert Shorten(oneLine) == Truncate(s);
  }

  /** The cases of Truncate on words accumulated from the empty string, which start with ' '. */
  lemma TruncateCases(s: string)
    requires s != [] ==> s[0] == ' '
    ensures |Strip(s)| == 0 ==> Truncate(s) == NoDescription
    ensures var r := Truncate(s);
      |Strip(s)| != 0 && '.' in s && |LastField(s, '.')| < MinSentenceLength ==>
        && 0 < |r| <= |s| && r == s[..|r|] && r[|r| - 1] == '.'
        && '.' !in s[|r|..] && |s| - |r| < MinSentenceLength
    ensures |Strip(s)| != 0 && ('.' !in s || |LastField(s, '.')| >= MinSentenceLength) ==> Truncate(s) == s + "..."
  {
    if |Strip(s)| != 0 {
      LastSentence(s);
      if '.' in s && |LastField(s, '.')| < MinSentenceLength {
        var r := s[..|s| - |LastField(s, '.')|];
        assert s[|r|..] == LastField(s, '.');
      } else {
        NeverSingleDot(s);
      }
    }
  }

  /** The text after the last '.' of s is a suffix without '.', preceded by a '.' when s has one. */
  lemma LastSentence(s: string)
    ensures var l := LastField(s, '.');
      && |l| <= |s| && l == s[|s| - |l|..] && '.' !in l
      && (|Split(s, '.')| > 1 <==> '.' in s)
      && ('.' in s ==> |l| < |s| && s[|s| - |l| - 1] == '.')
  {
    LastFieldSuffix(s, '.');
    SplitFields(s, '.');
    var fs := Split(s, '.');
    assert LastField(s, '.') == fs[|fs| - 1];
    if |fs| > 1 {
      assert s[|s| - |LastField(s, '.')| - 1] == '.';
    }
  }

  /**
   * The summary is one line of at most MaxSummaryLength + 4 characters:
   * NoDescription when nothing is left, the text itself when it fits, and
   * otherwise a word-aligned prefix either cut just after a '.' or ended by "...".
   */
  lemma GetSummaryShape(sectionText: string)
    ensures var r := GetSummary(sectionText);
      '\n' !in r && |r| <= MaxSummaryLength + 4
    ensures |RemoveMatchingParentheses(sectionText)| == 0 ==> GetSummary(sectionText) == NoDescription
    ensures var oneLine := ReplaceAll(RemoveMatchingParentheses(sectionText), "\n", " ");
      0 < |oneLine| <= MaxSummaryLength ==> GetSummary(sectionText) == oneLine
  {
    var summary := RemoveMatchingParentheses(sectionText);
    if |summary| != 0 {
      var oneLine := ReplaceAll(summary, "\n", " ");
      ReplaceKeepsNewlineOut(summary);
      if |oneLine| > MaxSummaryLength {
        ShortenShape(oneLine);
      }
    }
  }

  /** The word-accumulation loop of `get_summary`. */
  method AccumulateWords(words: seq<string>) returns (s: string)
    ensures s == Accumulate(words, "")
  {
    s := "";
    var i := 0;
    while i < |words|
      invariant 0 <= i <= |words|
      invariant Accumulate(words[i..], s) == Accumulate(words, "")
    {
      assert words[i..][1..] == words[i + 1..];
      if |s| + |words[i]| > MaxSummaryLength {
        break;
      }
      s := s + " " + words[i];
      i := i + 1;
    }
  }

  /** The shortening part of `get_summary`. */
  method ShortenLine(oneLine: string) returns (r: string)
    ensures r == Shorten(oneLine)
  {
    var s := AccumulateWords(Split(oneLine, ' '));
    if |Strip(s)| == 0 {
      return NoDescription;
    }
    LastFieldSuffix(s, '.');
    var sentences := Split(s, '.');
    var numSentences := |sentences|;
    if numSentences > 1 {
      var lastLength := |sentences[numSentences - 1]|;
      if lastLength < MinSentenceLength {
        return s[..|s| - lastLength];
      }
    }
    r := s;
    if s[..|s| - 1] != "." {
      r := s + "...";
    }
  }

  /** `get_summary`. */
  method Summarize(sectionText: string) returns (r: string)
    ensures r == GetSummary(sectionText)
  {
    var summary := RemoveParens(sectionText);
    if |summary| == 0 {
      return NoDescription;
    }
    var oneLine := ReplaceAll(summary, "\n", " ");
    if |oneLine| <= MaxSummaryLength {
      return oneLine;
    }
    r := ShortenLine(oneLine);
  }
}
