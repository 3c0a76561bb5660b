// `cleanup_section` of preprocess.py and data/preprocess.py: whitespace
// normalisation of a section's text by replace-until-absent loops, one per
// pattern, then strip(). The newer version first turns tabs into spaces.
module Cleanup {
  import opened Text

  /**
   * `while p in s: s = s.replace(p, q)` for a replacement shorter than the
   * pattern: the string that remains once p no longer occurs.
   */
  function ReplaceUntilGone(s: string, p: string, q: string): (r: string)
    requires |q| < |p|
    ensures !Contains(r, p)
    ensures |r| <= |s|
    decreases |s|
  {
    if Contains(s, p) then
      ReplaceShrinks(s, p, q);
      ReplaceUntilGone(ReplaceAll(s, p, q), p, q)
    else s
  }

  /** The six patterns, each with the character the loop keeps. */
  function Normalize(s: string): string
  {
    var s1 := ReplaceUntilGone(s, "  ", " ");
    var s2 := ReplaceUntilGone(s1, " \n", "\n");
    var s3 := ReplaceUntilGone(s2, "\n ", "\n");
    var s4 := ReplaceUntilGone(s3, "\n\n", "\n");
    var s5 := ReplaceUntilGone(s4, " ,", ",");
    ReplaceUntilGone(s5, " .", ".")
  }

  /** `cleanup_section` of preprocess.py. */
  function CleanupSection(s: string): string
  {
    Strip(Normalize(ReplaceAll(s, "\t", " ")))
  }

  /** `cleanup_section` of data/preprocess.py: no tab replacement. */
  function CleanupSectionOld(s: string): string
  {
    Strip(Normalize(s))
  }

  /** None of the six two-character patterns occurs. */
  predicate Clean(s: string)
  {
    && !HasPair(s, ' ', ' ') && !HasPair(s, ' ', '\n') && !HasPair(s, '\n', ' ')
    && !HasPair(s, '\n', '\n') && !HasPair(s, ' ', ',') && !HasPair(s, ' ', '.')
  }

  /** No whitespace at either end, as strip() leaves it. */
  predicate Trimmed(s: string)
  {
    s != [] ==> !IsSpace(s[0]) && !IsSpace(s[|s| - 1])
  }

  /** The result of preprocess.py's cleanup: no pattern, no tab, no whitespace at either end. */
  lemma CleanupSectionClean(s: string)
    ensures Clean(CleanupSection(s)) && '\t' !in CleanupSection(s) && Trimmed(CleanupSection(s))
  {
    var t := ReplaceAll(s, "\t", " ");
    ReplaceTabs(s);
    NormalizeClean(t);
    NormalizeKeepsOut(t, '\t');
    StripKeeps(Normalize(t), '\t');
  }

  /** data/preprocess.py: no pattern and stripped ends; tabs are left in place. */
  lemma CleanupSectionOldClean(s: string)
    ensures Clean(CleanupSectionOld(s)) && Trimmed(CleanupSectionOld(s))
  {
    NormalizeClean(s);
    StripKeeps(Normalize(s), '\t');
  }

  /** Applying the cleanup twice is applying it once. */
  lemma CleanupSectionIdempotent(s: string)
    ensures CleanupSection(CleanupSection(s)) == CleanupSection(s)
  {
    var r := CleanupSection(s);
    CleanupSectionClean(s);
    ContainsChar(r, '\t');
    ReplaceAbsent(r, "\t", " ");
    CleanFixed(r);
  }

  lemma CleanupSectionOldIdempotent(s: string)
    ensures CleanupSectionOld(CleanupSectionOld(s)) == CleanupSectionOld(s)
  {
    CleanupSectionOldClean(s);
    CleanFixed(CleanupSectionOld(s));
  }

  /** A tab survives the older cleanup. */
  lemma OldKeepsTabs()
    ensures CleanupSectionOld("a\tb") == "a\tb"
  {
    var s := "a\tb";
    assert !HasPair(s, ' ', ' ') && !HasPair(s, ' ', '\n') && !HasPair(s, '\n', ' ');
    assert !HasPair(s, '\n', '\n') && !HasPair(s, ' ', ',') && !HasPair(s, ' ', '.');
    CleanFixed(s);
  }

  /** A clean, trimmed string is left unchanged by the six loops and strip(). */
  lemma CleanFixed(s: string)
    requires Clean(s) && Trimmed(s)
    ensures CleanupSectionOld(s) == s
  {
    ContainsPair(s, ' ', ' ');
    ContainsPair(s, ' ', '\n');
    ContainsPair(s, '\n', ' ');
    ContainsPair(s, '\n', '\n');
    ContainsPair(s, ' ', ',');
    ContainsPair(s, ' ', '.');
    assert Normalize(s) == s;
    StripTrimmed(s);
  }

  lemma NormalizeClean(s: string)
    ensures Clean(Normalize(s))
  {
    var s1 := ReplaceUntilGone(s, "  ", " ");
    var s2 := ReplaceUntilGone(s1, " \n", "\n");
    var s3 := ReplaceUntilGone(s2, "\n ", "\n");
    var s4 := ReplaceUntilGone(s3, "\n\n", "\n");
    var s5 := ReplaceUntilGone(s4, " ,", ",");
    var s6 := ReplaceUntilGone(s5, " .", ".");
    ContainsPair(s1, ' ', ' ');
    GoneDropFirst(s1, ' ', '\n', ' ', ' ');
    ContainsPair(s2, ' ', '\n');
    GoneDropSecond(s2, '\n', ' ', ' ', ' ');
    GoneDropSecond(s2, '\n', ' ', ' ', '\n');
    ContainsPair(s3, '\n', ' ');
    GoneDropSecond(s3, '\n', '\n', ' ', ' ');
    GoneDropSecond(s3, '\n', '\n', ' ', '\n');
    GoneDropSecond(s3, '\n', '\n', '\n', ' ');
    ContainsPair(s4, '\n', '\n');
    GoneDropFirst(s4, ' ', ',', ' ', ' ');
    GoneDropFirst(s4, ' ', ',', ' ', '\n');
    GoneDropFirst(s4, ' ', ',', '\n', ' ');
    GoneDropFirst(s4, ' ', ',', '\n', '\n');
    ContainsPair(s5, ' ', ',');
    GoneDropFirst(s5, ' ', '.', ' ', ' ');
    GoneDropFirst(s5, ' ', '.', ' ', '\n');
    GoneDropFirst(s5, ' ', '.', '\n', ' ');
    GoneDropFirst(s5, ' ', '.', '\n', '\n');
    GoneDropFirst(s5, ' ', '.', ' ', ',');
    ContainsPair(s6, ' ', '.');
  }

  /** The loops only delete spaces and newlines and write back ',', '.', ' ' or '\n'. */
  lemma NormalizeKeepsOut(s: string, c: char)
    requires c !in s && c != ' ' && c != '\n' && c != ',' && c != '.'
    ensures c !in Normalize(s)
  {
    var s1 := ReplaceUntilGone(s, "  ", " ");
    var s2 := ReplaceUntilGone(s1, " \n", "\n");
    var s3 := ReplaceUntilGone(s2, "\n ", "\n");
    var s4 := ReplaceUntilGone(s3, "\n\n", "\n");
    var s5 := ReplaceUntilGone(s4, " ,", ",");
    GoneKeepsOut(s, "  ", " ", c);
    GoneKeepsOut(s1, " \n", "\n", c);
    GoneKeepsOut(s2, "\n ", "\n", c);
    GoneKeepsOut(s3, "\n\n", "\n", c);
    GoneKeepsOut(s4, " ,", ",", c);
    GoneKeepsOut(s5, " .", ".", c);
  }

  lemma ReplaceTabs(s: string)
    ensures '\t' !in ReplaceAll(s, "\t", " ")
    decreases |s|
  {
    if |s| >= 1 {
      ReplaceTabs(s[1..]);
    }
  }

  lemma {:induction false} ContainsChar(s: string, c: char)
    ensures Contains(s, [c]) <==> c in s
  {
    if s != [] {
      ContainsChar(s[1..], c);
      assert s == [s[0]] + s[1..];
      if StartsWith(s, [c]) {
        assert s[0] == s[..1][0];
      }
    }
  }

  /** strip() keeps a clean string clean and a missing character missing. */
  lemma StripKeeps(s: string, c: char)
    ensures Clean(s) ==> Clean(Strip(s))
    ensures c !in s ==> c !in Strip(s)
    ensures Trimmed(Strip(s))
  {
    StripIsTrimmed(s);
    var i, j :| 0 <= i <= j <= |s| && Strip(s) == s[i..j];
    if Clean(s) {
      SliceNoPair(s, i, j, ' ', ' ');
      SliceNoPair(s, i, j, ' ', '\n');
      SliceNoPair(s, i, j, '\n', ' ');
      SliceNoPair(s, i, j, '\n', '\n');
      SliceNoPair(s, i, j, ' ', ',');
      SliceNoPair(s, i, j, ' ', '.');
    }
  }

  lemma SliceNoPair(s: string, i: nat, j: nat, a: char, b: char)
    requires i <= j <= |s| && !HasPair(s, a, b)
    ensures !HasPair(s[i..j], a, b)
  {
  }

  /** A pair in [c] + t is the new pair at the front or a pair of t. */
  lemma HasPairCons(c: char, t: string, a: char, b: char)
    ensures HasPair([c] + t, a, b) <==> (t != [] && c == a && t[0] == b) || HasPair(t, a, b)
  {
    var s := [c] + t;
    if HasPair(s, a, b) && !(t != [] && c == a && t[0] == b) {
      var k :| 0 <= k < |s| - 1 && s[k] == a && s[k + 1] == b;
      assert k > 0;
      assert t[k - 1] == a && t[k] == b;
    }
    if HasPair(t, a, b) {
      var k :| 0 <= k < |t| - 1 && t[k] == a && t[k + 1] == b;
      assert s[k + 1] == a && s[k + 2] == b;
    }
    if t != [] && c == a && t[0] == b {
      assert s[0] == a && s[1] == b;
    }
  }

  /** The first character after one pass of `s.replace(x + y, y)`. */
  lemma DropFirstHead(t: string, x: char, y: char)
    requires t != []
    ensures ReplaceAll(t, [x, y], [y]) != []
    ensures ReplaceAll(t, [x, y], [y])[0] == if |t| >= 2 && t[0] == x && t[1] == y then y else t[0]
  {
    if |t| >= 2 && t[..2] == [x, y] {
      assert t[0] == x && t[1] == y;
    }
  }

  /**
   * One pass of `s.replace(x + y, y)` deletes an x in front of each y it
   * matches, so the only new pairs are (c, y) where (c, x) was a pair.
   */
  lemma {:induction false} DropFirstPair(s: string, x: char, y: char, a: char, b: char)
    requires !HasPair(s, a, b) && (b != y || !HasPair(s, a, x))
    ensures !HasPair(ReplaceAll(s, [x, y], [y]), a, b)
    decreases |s|
  {
    if |s| >= 2 {
      assert s == [s[0]] + s[1..];
      HasPairCons(s[0], s[1..], a, b);
      HasPairCons(s[0], s[1..], a, x);
      if s[..2] == [x, y] {
        var t := s[2..];
        assert s[1..] == [s[1]] + t;
        HasPairCons(s[1], t, a, b);
        HasPairCons(s[1], t, a, x);
        DropFirstPair(t, x, y, a, b);
        HasPairCons(y, ReplaceAll(t, [x, y], [y]), a, b);
        if t != [] {
          DropFirstHead(t, x, y);
        }
      } else {
        var t := s[1..];
        DropFirstPair(t, x, y, a, b);
        HasPairCons(s[0], ReplaceAll(t, [x, y], [y]), a, b);
        DropFirstHead(t, x, y);
      }
    }
  }

  /** The first character after one pass of `s.replace(x + y, x)` is unchanged. */
  lemma DropSecondHead(t: string, x: char, y: char)
    requires t != []
    ensures ReplaceAll(t, [x, y], [x]) != [] && ReplaceAll(t, [x, y], [x])[0] == t[0]
  {
    if |t| >= 2 && t[..2] == [x, y] {
      assert t[0] == x;
    }
  }

  /**
   * One pass of `s.replace(x + y, x)` deletes the y after each x it
   * matches, so the only new pairs are (x, c) where (y, c) was a pair.
   */
  lemma {:induction false} DropSecondPair(s: string, x: char, y: char, a: char, b: char)
    requires !HasPair(s, a, b) && (a != x || !HasPair(s, y, b))
    ensures !HasPair(ReplaceAll(s, [x, y], [x]), a, b)
    decreases |s|
  {
    if |s| >= 2 {
      assert s == [s[0]] + s[1..];
      HasPairCons(s[0], s[1..], a, b);
      if s[..2] == [x, y] {
        var t := s[2..];
        assert s[0] == x && s[1] == y;
        assert s[1..] == [s[1]] + t;
        HasPairCons(s[1], t, a, b);
        HasPairCons(s[1], t, y, b);
        DropSecondPair(t, x, y, a, b);
        HasPairCons(x, ReplaceAll(t, [x, y], [x]), a, b);
        if t != [] {
          DropSecondHead(t, x, y);
        }
      } else {
        var t := s[1..];
        HasPairCons(s[0], t, y, b);
        DropSecondPair(t, x, y, a, b);
        HasPairCons(s[0], ReplaceAll(t, [x, y], [x]), a, b);
        DropSecondHead(t, x, y);
      }
    }
  }

  /** The loop for x + y -> y keeps out every pair (a, b) with b != y. */
  lemma {:induction false} GoneDropFirst(s: string, x: char, y: char, a: char, b: char)
    requires !HasPair(s, a, b) && b != y
    ensures !HasPair(ReplaceUntilGone(s, [x, y], [y]), a, b)
    decreases |s|
  {
    if Contains(s, [x, y]) {
      ReplaceShrinks(s, [x, y], [y]);
      DropFirstPair(s, x, y, a, b);
      GoneDropFirst(ReplaceAll(s, [x, y], [y]), x, y, a, b);
    }
  }

  /** The loop for x + y -> x keeps out every pair (a, b) with a != x, or a == x == y. */
  lemma {:induction false} GoneDropSecond(s: string, x: char, y: char, a: char, b: char)
    requires !HasPair(s, a, b) && (a != x || a == y)
    ensures !HasPair(ReplaceUntilGone(s, [x, y], [x]), a, b)
    decreases |s|
  {
    if Contains(s, [x, y]) {
      ReplaceShrinks(s, [x, y], [x]);
      DropSecondPair(s, x, y, a, b);
      GoneDropSecond(ReplaceAll(s, [x, y], [x]), x, y, a, b);
    }
  }

  lemma {:induction false} GoneKeepsOut(s: string, p: string, q: string, c: char)
    requires |q| < |p| && c !in s && c !in q
    ensures c !in ReplaceUntilGone(s, p, q)
    decreases |s|
  {
    if Contains(s, p) {
      ReplaceShrinks(s, p, q);
      ReplaceKeepsOut(s, p, q, c);
      GoneKeepsOut(ReplaceAll(s, p, q), p, q, c);
    }
  }

  /** One `while p in s: s = s.replace(p, q)` loop. */
  method ReplaceWhilePresent(s: string, p: string, q: string) returns (r: string)
    requires |q| < |p|
    ensures r == ReplaceUntilGone(s, p, q)
  {
    r := s;
    while Contains(r, p)
      invariant ReplaceUntilGone(r, p, q) == ReplaceUntilGone(s, p, q)
      decreases |r|
    {
      ReplaceShrinks(r, p, q);
      r := ReplaceAll(r, p, q);
    }
  }

  /** `cleanup_section`; `replaceTabs` selects the preprocess.py version. */
  method Cleanup(s: string, replaceTabs: bool) returns (r: string)
    ensures r == if replaceTabs then CleanupSection(s) else CleanupSectionOld(s)
  {
    r := s;
    if replaceTabs {
      r := ReplaceAll(r, "\t", " ");
    }
    r := ReplaceWhilePresent(r, "  ", " ");
    r := ReplaceWhilePresent(r, " \n", "\n");
    r := ReplaceWhilePresent(r, "\n ", "\n");
    r := ReplaceWhilePresent(r, "\n\n", "\n");
    r := ReplaceWhilePresent(r, " ,", ",");
    r := ReplaceWhilePresent(r, " .", ".");
    r := Strip(r);
  }
}
