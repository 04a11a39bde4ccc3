/**
 * The Python string operations that extract_transcript relies on:
 * `str.strip()`, `" ".join(...)`, `str.split(" ")` (used only to state the
 * round trip) and the substring test `needle in haystack`.
 */
module PyStr {

  /** Python's `str.isspace` for one character: the characters that
      `str.strip()` with no argument removes. */
  predicate IsWhitespace(c: char)
  {
    var n := c as int;
    || 0x09 <= n <= 0x0D
    || 0x1C <= n <= 0x20
    || n == 0x85 || n == 0xA0 || n == 0x1680
    || 0x2000 <= n <= 0x200A
    || n == 0x2028 || n == 0x2029 || n == 0x202F || n == 0x205F || n == 0x3000
  }

  ghost predicate AllWhitespace(s: string)
  {
    forall k :: 0 <= k < |s| ==> IsWhitespace(s[k])
  }

  /** Neither the first nor the last character is whitespace. */
  ghost predicate Trimmed(s: string)
  {
    s == [] || (!IsWhitespace(s[0]) && !IsWhitespace(s[|s| - 1]))
  }

  /** `s` with its leading whitespace removed. */
  function TrimStart(s: string): string
    decreases |s|
  {
    if s != [] && IsWhitespace(s[0]) then TrimStart(s[1..]) else s
  }

  /** `s` with its trailing whitespace removed. */
  function TrimEnd(s: string): string
    decreases |s|
  {
    if s != [] && IsWhitespace(s[|s| - 1]) then TrimEnd(s[..|s| - 1]) else s
  }

  /** TrimStart cuts off a whitespace prefix and stops at the first
      non-whitespace character. */
  lemma {:induction false} TrimStartSpec(s: string)
    ensures |TrimStart(s)| <= |s| && TrimStart(s) == s[|s| - |TrimStart(s)|..]
    ensures AllWhitespace(s[..|s| - |TrimStart(s)|])
    ensures TrimStart(s) == [] || !IsWhitespace(TrimStart(s)[0])
    decreases |s|
  {
    if s != [] && IsWhitespace(s[0]) {
      TrimStartSpec(s[1..]);
      var r := TrimStart(s[1..]);
      assert s[..|s| - |r|] == [s[0]] + s[1..][..|s| - 1 - |r|];
    }
  }

  /** TrimEnd cuts off a whitespace suffix and stops at the last
      non-whitespace character. */
  lemma {:induction false} TrimEndSpec(s: string)
    ensures |TrimEnd(s)| <= |s| && TrimEnd(s) == s[..|TrimEnd(s)|]
    ensures AllWhitespace(s[|TrimEnd(s)|..])
    ensures TrimEnd(s) == [] || !IsWhitespace(TrimEnd(s)[|TrimEnd(s)| - 1])
    decreases |s|
  {
    if s != [] && IsWhitespace(s[|s| - 1]) {
      TrimEndSpec(s[..|s| - 1]);
      var r := TrimEnd(s[..|s| - 1]);
      assert s[|r|..] == s[..|s| - 1][|r|..] + [s[|s| - 1]];
    }
  }

  /** `r` is what is left of `s` once all leading and trailing whitespace
      is cut away. */
  ghost predicate IsStripOf(r: string, s: string)
  {
    exists i, j :: StripAt(r, s, i, j)
  }

  /** `r` is `s[i..j]`, with only whitespace before `i` and from `j` on. */
  ghost predicate StripAt(r: string, s: string, i: int, j: int)
  {
    0 <= i <= j <= |s| && r == s[i..j]
      && AllWhitespace(s[..i]) && AllWhitespace(s[j..]) && Trimmed(r)
  }

  /** Python's `s.strip()`. */
  function Strip(s: string): (r: string)
    ensures Trimmed(r)
  {
    var t := TrimStart(s);
    TrimStartSpec(s);
    TrimEndSpec(t);
    assert TrimEnd(t) != [] ==> TrimEnd(t)[0] == t[0];
    TrimEnd(t)
  }

  /** The result of `strip()` is what is left of the input once all leading
      and trailing whitespace is cut away. */
  lemma StripIsStripOf(s: string)
    ensures IsStripOf(Strip(s), s)
  {
    TrimBothIsStrip(s);
  }

  lemma TrimBothIsStrip(s: string)
    ensures StripAt(Strip(s), s, |s| - |TrimStart(s)|, |s| - |TrimStart(s)| + |Strip(s)|)
  {
    var t := TrimStart(s);
    var r := Strip(s);
    var i := |s| - |t|;
    var j := i + |r|;
    TrimStartSpec(s);
    TrimEndSpec(t);
    assert r == TrimEnd(t);
    assert t == s[i..];
    assert r == s[i..j] by {
      assert r == t[..|r|];
    }
    assert AllWhitespace(s[j..]) by {
      assert s[j..] == t[|r|..];
    }
  }

  /** Stripping removes whitespace only: it determines its result. */
  lemma StripOfUnique(r1: string, r2: string, s: string)
    requires IsStripOf(r1, s) && IsStripOf(r2, s)
    ensures r1 == r2
  {
    var i1, j1 :| StripAt(r1, s, i1, j1);
    var i2, j2 :| StripAt(r2, s, i2, j2);
    if r1 == [] {
      EmptyStripAllWhitespace(s, i1, j1);
      WhitespaceSlice(s, i2, j2);
    } else if r2 == [] {
      EmptyStripAllWhitespace(s, i2, j2);
      WhitespaceSlice(s, i1, j1);
    } else {
      StripAtBounds(r1, s, i1, j1);
      StripAtBounds(r2, s, i2, j2);
    }
  }

  /** A non-empty strip sits exactly between the leading and the trailing whitespace. */
  lemma StripAtBounds(r: string, s: string, i: int, j: int)
    requires StripAt(r, s, i, j) && r != []
    ensures i == LeadingWhitespace(s) && j == TrailingWhitespaceStart(s)
  {
    assert s[i] == r[0];
    assert s[j - 1] == r[|r| - 1];
    LeadingWhitespaceIs(s, i);
    TrailingWhitespaceFrom(s, j);
  }

  /** Number of whitespace characters at the start of `s`. */
  function LeadingWhitespace(s: string): (n: nat)
    ensures n <= |s|
    decreases |s|
  {
    if s != [] && IsWhitespace(s[0]) then 1 + LeadingWhitespace(s[1..]) else 0
  }

  /** Position just after the last non-whitespace character of `s`. */
  function TrailingWhitespaceStart(s: string): (n: nat)
    ensures n <= |s|
    decreases |s|
  {
    if s != [] && IsWhitespace(s[|s| - 1]) then TrailingWhitespaceStart(s[..|s| - 1]) else |s|
  }

  /** A whitespace run that stops at a non-whitespace character (or at the
      end) is the whole leading whitespace. */
  lemma {:induction false} LeadingWhitespaceIs(s: string, i: nat)
    requires i <= |s| && AllWhitespace(s[..i])
    requires i < |s| ==> !IsWhitespace(s[i])
    ensures LeadingWhitespace(s) == i
    decreases |s|
  {
    if i > 0 {
      assert s[..i][0] == s[0];
      assert s[1..][..i - 1] == s[..i][1..];
      assert i - 1 < |s| - 1 ==> s[1..][i - 1] == s[i];
      LeadingWhitespaceIs(s[1..], i - 1);
    }
  }

  /** Symmetric to LeadingWhitespaceIs, at the end of `s`. */
  lemma {:induction false} TrailingWhitespaceFrom(s: string, j: nat)
    requires j <= |s| && AllWhitespace(s[j..])
    requires 0 < j ==> !IsWhitespace(s[j - 1])
    ensures TrailingWhitespaceStart(s) == j
    decreases |s|
  {
    if j < |s| {
      var t := s[..|s| - 1];
      assert s[j..][|s| - 1 - j] == s[|s| - 1];
      assert t[j..] == s[j..][..|s| - 1 - j];
      assert 0 < j ==> t[j - 1] == s[j - 1];
      TrailingWhitespaceFrom(t, j);
    }
  }

  /** A strip that is empty leaves nothing but whitespace on either side. */
  lemma EmptyStripAllWhitespace(s: string, i: int, j: int)
    requires 0 <= i == j <= |s| && AllWhitespace(s[..i]) && AllWhitespace(s[j..])
    ensures AllWhitespace(s)
  {
    forall k | 0 <= k < |s| ensures IsWhitespace(s[k]) {
      if k < i {
        assert s[..i][k] == s[k];
      } else {
        assert s[j..][k - j] == s[k];
      }
    }
  }

  /** Every slice of an all-whitespace string is all whitespace. */
  lemma WhitespaceSlice(s: string, i: int, j: int)
    requires AllWhitespace(s) && 0 <= i <= j <= |s|
    ensures AllWhitespace(s[i..j])
  {
    forall k | 0 <= k < j - i ensures IsWhitespace(s[i..j][k]) {
      assert s[i..j][k] == s[i + k];
    }
  }

  /** `s.strip() == ""` holds exactly for the strings made only of whitespace. */
  lemma StripEmptyIff(s: string)
    ensures Strip(s) == [] <==> AllWhitespace(s)
  {
    StripIsStripOf(s);
    if Strip(s) == [] {
      var i, j :| StripAt(Strip(s), s, i, j);
      EmptyStripAllWhitespace(s, i, j);
    }
    if AllWhitespace(s) {
      assert StripAt([], s, 0, 0) by {
        assert s[..0] == [] && s[0..] == s;
      }
      StripOfUnique(Strip(s), [], s);
    }
  }

  /** A string that is already trimmed is left unchanged by `strip()`. */
  lemma StripTrimmed(s: string)
    requires Trimmed(s)
    ensures Strip(s) == s
  {
    StripIsStripOf(s);
    assert StripAt(s, s, 0, |s|) by {
      assert s[0..|s|] == s && s[..0] == [] && s[|s|..] == [];
    }
    StripOfUnique(Strip(s), s, s);
  }

  /** Python's `sep.join(xs)`. */
  function Join(sep: string, xs: seq<string>): (r: string)
    decreases |xs|
  {
    if |xs| == 0 then ""
    else if |xs| == 1 then xs[0]
    else xs[0] + sep + Join(sep, xs[1..])
  }

  /** A join starts with its first piece and ends with its last piece. */
  lemma {:induction false} JoinEnds(sep: string, xs: seq<string>)
    requires |xs| > 0
    ensures xs[0] <= Join(sep, xs)
    ensures |xs[|xs| - 1]| <= |Join(sep, xs)|
    ensures Join(sep, xs)[|Join(sep, xs)| - |xs[|xs| - 1]|..] == xs[|xs| - 1]
    decreases |xs|
  {
    if |xs| > 1 {
      JoinEnds(sep, xs[1..]);
      var j := Join(sep, xs[1..]);
      var last := xs[|xs| - 1];
      assert xs[1..][|xs| - 2] == last;
      assert (xs[0] + sep + j)[|xs[0] + sep + j| - |last|..] == j[|j| - |last|..];
    }
  }

  /** Index of the first occurrence of `c` in `s`. */
  function IndexOf(s: string, c: char): (i: nat)
    requires c in s
    ensures i < |s| && s[i] == c && c !in s[..i]
  {
    if s[0] == c then 0 else 1 + IndexOf(s[1..], c)
  }

  /** Python's `s.split(sep)` for a one-character separator: the pieces
      between successive separators, including empty ones. */
  function Split(s: string, sep: char): (r: seq<string>)
    ensures |r| >= 1
    decreases |s|
  {
    if sep in s then
      var i := IndexOf(s, sep);
      [s[..i]] + Split(s[i + 1..], sep)
    else [s]
  }

  /** Splitting at the first separator peels off the piece before it. */
  lemma SplitCons(a: string, sep: char, b: string)
    requires sep !in a
    ensures Split(a + [sep] + b, sep) == [a] + Split(b, sep)
  {
    var s := a + [sep] + b;
    assert s[|a|] == sep;
    var i := IndexOf(s, sep);
    assert s[..i] == a && s[i + 1..] == b;
  }

  /** `sep.join` and `split(sep)` are inverse when no piece holds the
      separator: the pieces come back, in order. */
  lemma {:induction false} SplitJoin(xs: seq<string>, sep: char)
    requires |xs| >= 1
    requires forall k :: 0 <= k < |xs| ==> sep !in xs[k]
    ensures Split(Join([sep], xs), sep) == xs
    decreases |xs|
  {
    if |xs| == 1 {
      assert Join([sep], xs) == xs[0];
    } else {
      SplitJoin(xs[1..], sep);
      SplitCons(xs[0], sep, Join([sep], xs[1..]));
      assert [xs[0]] + xs[1..] == xs;
    }
  }

  /** Python's `needle in haystack` on two strings, scanning left to right. */
  predicate HasSubstring(haystack: string, needle: string)
    decreases |haystack|
  {
    |needle| <= |haystack|
    && (needle <= haystack || HasSubstring(haystack[1..], needle))
  }

  /** The scan finds `needle` exactly when it starts at some position. */
  lemma {:induction false} HasSubstringIff(haystack: string, needle: string)
    ensures HasSubstring(haystack, needle)
      <==> exists i :: 0 <= i <= |haystack| && needle <= haystack[i..]
    decreases |haystack|
  {
    if |needle| <= |haystack| && haystack != [] {
      HasSubstringIff(haystack[1..], needle);
      if exists i :: 0 <= i <= |haystack| && needle <= haystack[i..] {
        var i :| 0 <= i <= |haystack| && needle <= haystack[i..];
        if i > 0 {
          assert haystack[1..][i - 1..] == haystack[i..];
        }
      }
      if HasSubstring(haystack[1..], needle) {
        var i :| 0 <= i <= |haystack| - 1 && needle <= haystack[1..][i..];
        assert haystack[1..][i..] == haystack[i + 1..];
      } else if needle <= haystack {
        assert needle <= haystack[0..];
      }
    } else if |needle| <= |haystack| {
      assert needle <= haystack[0..];
    }
  }
}
