// Python string operations the crawler and the preprocessor rely on,
// stated on seq<char>: prefix and substring tests, str.split with a
// one-character separator, str.strip (with and without an argument) and
// str.replace (every non-overlapping occurrence, left to right).
module Text {

  datatype Option<T> = None | Some(value: T)

  predicate StartsWith(s: string, p: string)
  {
    |p| <= |s| && s[..|p|] == p
  }

  /** Python's `p in s`: p occurs somewhere in s. */
  predicate Contains(s: string, p: string)
  {
    StartsWith(s, p) || (s != [] && Contains(s[1..], p))
  }

  /** `a + b` occurs in s as two adjacent characters. */
  predicate HasPair(s: string, a: char, b: char)
  {
    exists i :: 0 <= i < |s| - 1 && s[i] == a && s[i + 1] == b
  }

  lemma {:induction false} ContainsPair(s: string, a: char, b: char)
    ensures Contains(s, [a, b]) <==> HasPair(s, a, b)
  {
    if |s| >= 2 {
      ContainsPair(s[1..], a, b);
      if HasPair(s[1..], a, b) {
        var i :| 0 <= i < |s| - 2 && s[1..][i] == a && s[1..][i + 1] == b;
        assert s[i + 1] == a && s[i + 2] == b;
      }
      if HasPair(s, a, b) && !StartsWith(s, [a, b]) {
        var i :| 0 <= i < |s| - 1 && s[i] == a && s[i + 1] == b;
        assert i != 0;
        assert s[1..][i - 1] == a && s[1..][i] == b;
      }
    } else if s != [] {
      assert !Contains(s[1..], [a, b]);
    }
    if StartsWith(s, [a, b]) {
      assert s[0] == s[..2][0] && s[1] == s[..2][1];
    }
  }

  lemma {:induction false} ContainsLength(s: string, p: string)
    requires Contains(s, p)
    ensures |p| <= |s|
  {
    if !StartsWith(s, p) {
      ContainsLength(s[1..], p);
    }
  }

  /** Number of occurrences of character c in s. */
  function Count(s: string, c: char): nat
  {
    if s == [] then 0 else (if s[0] == c then 1 else 0) + Count(s[1..], c)
  }

  /** Python's `s.split(sep)` for a one-character separator: empty fields are kept. */
  function Split(s: string, sep: char): (r: seq<string>)
    ensures |r| >= 1
  {
    if s == [] then [""]
    else if s[0] == sep then [""] + Split(s[1..], sep)
    else
      var rest := Split(s[1..], sep);
      [[s[0]] + rest[0]] + rest[1..]
  }

  /** split produces one more field than there are separators. */
  lemma {:induction false} SplitLength(s: string, sep: char)
    ensures |Split(s, sep)| == Count(s, sep) + 1
  {
    if s != [] {
      SplitLength(s[1..], sep);
    }
  }

  /** No field of a split contains the separator, and joining the fields back gives s. */
  lemma {:induction false} SplitFields(s: string, sep: char)
    ensures forall k :: 0 <= k < |Split(s, sep)| ==> sep !in Split(s, sep)[k]
    ensures Join(Split(s, sep), [sep]) == s
  {
    if s != [] {
      SplitFields(s[1..], sep);
      var rest := Split(s[1..], sep);
      if s[0] == sep {
        assert Split(s, sep) == [""] + rest;
      } else {
        assert Split(s, sep) == [[s[0]] + rest[0]] + rest[1..];
        JoinHead([s[0]] + rest[0], rest[1..], [sep]);
        JoinHead(rest[0], rest[1..], [sep]);
        assert rest == [rest[0]] + rest[1..];
      }
    }
  }

  /** The last field of `s.split(sep)`, i.e. `s.split(sep)[-1]`. */
  function LastField(s: string, sep: char): (r: string)
  {
    var fs := Split(s, sep); fs[|fs| - 1]
  }

  /** A character counted zero times does not occur. */
  lemma {:induction false} CountNone(s: string, c: char)
    requires Count(s, c) == 0
    ensures c !in s
  {
    if s != [] {
      CountNone(s[1..], c);
    }
  }

  /**
   * The last field is a suffix of s, preceded by the separator when there
   * is more than one field, and all of s when there is only one.
   */
  lemma {:induction false} LastFieldSuffix(s: string, sep: char)
    ensures |LastField(s, sep)| <= |s| && LastField(s, sep) == s[|s| - |LastField(s, sep)|..]
    ensures |Split(s, sep)| > 1 ==> |LastField(s, sep)| < |s| && s[|s| - |LastField(s, sep)| - 1] == sep
    ensures |Split(s, sep)| == 1 ==> LastField(s, sep) == s
  {
    if s != [] {
      var l := LastField(s[1..], sep);
      LastFieldSuffix(s[1..], sep);
      LastFieldStep(s, sep);
      if s[0] == sep || |Split(s[1..], sep)| > 1 {
        assert LastField(s, sep) == l == s[|s| - |l|..] by {
          assert s[1..][|s| - 1 - |l|..] == s[|s| - |l|..];
        }
        if |Split(s[1..], sep)| > 1 {
          assert s[1..][|s| - 1 - |l| - 1] == s[|s| - |l| - 1];
        }
      } else {
        assert LastField(s, sep) == s == s[0..] by {
          assert [s[0]] + s[1..] == s;
        }
      }
    }
  }

  /** How the fields of s follow from those of s[1..]. */
  lemma LastFieldStep(s: string, sep: char)
    requires s != []
    ensures |Split(s, sep)| > 1 <==> s[0] == sep || |Split(s[1..], sep)| > 1
    ensures s[0] == sep || |Split(s[1..], sep)| > 1 ==> LastField(s, sep) == LastField(s[1..], sep)
    ensures s[0] != sep && |Split(s[1..], sep)| == 1 ==> LastField(s, sep) == [s[0]] + LastField(s[1..], sep)
  {
    var rest := Split(s[1..], sep);
    if s[0] == sep {
      assert Split(s, sep) == [""] + rest;
    } else {
      assert Split(s, sep) == [[s[0]] + rest[0]] + rest[1..];
    }
  }

  /** `sep.join(fs)` */
  function Join(fs: seq<string>, sep: string): string
  {
    if fs == [] then ""
    else if |fs| == 1 then fs[0]
    else fs[0] + sep + Join(fs[1..], sep)
  }

  lemma JoinHead(f: string, fs: seq<string>, sep: string)
    ensures Join([f] + fs, sep) == if fs == [] then f else f + sep + Join(fs, sep)
  {
    assert ([f] + fs)[1..] == fs;
  }

  /** `s.lstrip(c)` and `s.rstrip(c)` for a single character. */
  function TrimLeft(s: string, c: char): (r: string)
    ensures |r| <= |s|
    ensures r == s[|s| - |r|..]
    ensures r != [] ==> r[0] != c
  {
    if s != [] && s[0] == c then TrimLeft(s[1..], c) else s
  }

  function TrimRight(s: string, c: char): (r: string)
    ensures |r| <= |s|
    ensures r == s[..|r|]
    ensures r != [] ==> r[|r| - 1] != c
  {
    if s != [] && s[|s| - 1] == c then TrimRight(s[..|s| - 1], c) else s
  }

  /** `s.strip(c)` */
  function StripChar(s: string, c: char): string
  {
    TrimRight(TrimLeft(s, c), c)
  }

  /** The characters Python's str.isspace() accepts. */
  predicate IsSpace(c: char)
  {
    var n := c as int;
    (9 <= n <= 13) || (28 <= n <= 32) || n == 0x85 || n == 0xA0 || n == 0x1680
    || (0x2000 <= n <= 0x200A) || n == 0x2028 || n == 0x2029 || n == 0x202F
    || n == 0x205F || n == 0x3000
  }

  function LStrip(s: string): string
  {
    if s != [] && IsSpace(s[0]) then LStrip(s[1..]) else s
  }

  /** lstrip() leaves a suffix of its input that does not start with whitespace. */
  lemma {:induction false} LStripSuffix(s: string)
    ensures |LStrip(s)| <= |s| && LStrip(s) == s[|s| - |LStrip(s)|..]
    ensures LStrip(s) != [] ==> !IsSpace(LStrip(s)[0])
  {
    if s != [] && IsSpace(s[0]) {
      LStripSuffix(s[1..]);
    }
  }

  function RStrip(s: string): string
  {
    if s != [] && IsSpace(s[|s| - 1]) then RStrip(s[..|s| - 1]) else s
  }

  /** rstrip() leaves a prefix of its input that does not end with whitespace. */
  lemma {:induction false} RStripPrefix(s: string)
    ensures |RStrip(s)| <= |s| && RStrip(s) == s[..|RStrip(s)|]
    ensures RStrip(s) != [] ==> !IsSpace(RStrip(s)[|RStrip(s)| - 1])
  {
    if s != [] && IsSpace(s[|s| - 1]) {
      RStripPrefix(s[..|s| - 1]);
    }
  }

  /** Python's `s.strip()` with no argument. */
  function Strip(s: string): string
  {
    RStrip(LStrip(s))
  }

  /** The result of strip() is a contiguous piece of its input with no whitespace at either end. */
  lemma StripIsTrimmed(s: string)
    ensures exists i, j :: 0 <= i <= j <= |s| && Strip(s) == s[i..j]
    ensures Strip(s) != [] ==> !IsSpace(Strip(s)[0]) && !IsSpace(Strip(s)[|Strip(s)| - 1])
  {
    var l := LStrip(s);
    var r := RStrip(l);
    LStripSuffix(s);
    RStripPrefix(l);
    var i := |s| - |l|;
    assert r == s[i..i + |r|];
    if r != [] {
      assert r[0] == l[0];
    }
  }

  /** strip() leaves an already trimmed string unchanged. */
  lemma StripTrimmed(s: string)
    requires s != [] ==> !IsSpace(s[0]) && !IsSpace(s[|s| - 1])
    ensures Strip(s) == s
  {
  }

  /**
   * Python's `s.replace(p, q)`: every non-overlapping occurrence of p,
   * scanning left to right, is replaced by q.
   */
  function ReplaceAll(s: string, p: string, q: string): (r: string)
    requires p != []
    decreases |s|
  {
    if |s| < |p| then s
    else if s[..|p|] == p then q + ReplaceAll(s[|p|..], p, q)
    else [s[0]] + ReplaceAll(s[1..], p, q)
  }

  /** Replacing a pattern that does not occur changes nothing. */
  lemma {:induction false} ReplaceAbsent(s: string, p: string, q: string)
    requires p != [] && !Contains(s, p)
    ensures ReplaceAll(s, p, q) == s
    decreases |s|
  {
    if |s| >= |p| {
      ReplaceAbsent(s[1..], p, q);
      assert s == [s[0]] + s[1..];
    }
  }

  /** Replacing a pattern by a shorter string that occurs strictly shortens. */
  lemma {:induction false} ReplaceShrinks(s: string, p: string, q: string)
    requires p != [] && |q| < |p| && Contains(s, p)
    ensures |ReplaceAll(s, p, q)| < |s|
    decreases |s|
  {
    ContainsLength(s, p);
    if s[..|p|] == p {
      ReplaceNotLonger(s[|p|..], p, q);
    } else {
      ReplaceShrinks(s[1..], p, q);
    }
  }

  lemma {:induction false} ReplaceNotLonger(s: string, p: string, q: string)
    requires p != [] && |q| <= |p|
    ensures |ReplaceAll(s, p, q)| <= |s|
    decreases |s|
  {
    if |s| >= |p| {
      if s[..|p|] == p {
        ReplaceNotLonger(s[|p|..], p, q);
      } else {
        ReplaceNotLonger(s[1..], p, q);
      }
    }
  }

  /** A character in neither s nor q does not appear after replacing. */
  lemma {:induction false} ReplaceKeepsOut(s: string, p: string, q: string, c: char)
    requires p != [] && c !in s && c !in q
    ensures c !in ReplaceAll(s, p, q)
    decreases |s|
  {
    if |s| >= |p| {
      if s[..|p|] == p {
        ReplaceKeepsOut(s[|p|..], p, q, c);
      } else {
        ReplaceKeepsOut(s[1..], p, q, c);
      }
    }
  }
}
