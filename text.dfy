/** String operations the formatter takes from Python's built-in `str` type:
    `strip`, `join`, `ljust`, `replace`, plus the whitespace and word
    character classes used by its regular expressions. */
module Text {

  /** Python's `str.isspace()` (and the `\s` class of `re` on `str`):
      the ASCII separators, the ASCII information separators and the
      Unicode space characters. */
  predicate IsSpace(c: char) {
    if c <= ' ' then ('\t' <= c <= '\r') || ('\U{1C}' <= c <= '\U{1F}') || c == ' '
    else '\U{85}' <= c && IsUnicodeSpace(c)
  }

  /** The space characters of `str.isspace()` beyond ASCII. */
  predicate IsUnicodeSpace(c: char) {
    c == '\U{85}' || c == '\U{A0}' || c == '\U{1680}' ||
    ('\U{2000}' <= c <= '\U{200A}') || c == '\U{2028}' || c == '\U{2029}' ||
    c == '\U{202F}' || c == '\U{205F}' || c == '\U{3000}'
  }

  /** The `\w` class restricted to ASCII: letters, digits and underscore. */
  predicate IsWord(c: char) {
    ('a' <= c <= 'z') || ('A' <= c <= 'Z') || ('0' <= c <= '9') || c == '_'
  }

  predicate AllSpace(s: string) {
    forall k :: 0 <= k < |s| ==> IsSpace(s[k])
  }

  /** A string with no whitespace at either end. */
  predicate IsStripped(s: string) {
    s == [] || (!IsSpace(s[0]) && !IsSpace(s[|s| - 1]))
  }

  /** `r` is `s` with only whitespace removed from its two ends. */
  ghost predicate TrimmedFrom(s: string, r: string) {
    exists w1, w2 :: AllSpace(w1) && AllSpace(w2) && s == w1 + r + w2
  }

  /** Index of the first non-whitespace character (|s| if there is none). */
  function LeadingEnd(s: string): (i: nat)
    ensures i <= |s| && AllSpace(s[..i])
    ensures i < |s| ==> !IsSpace(s[i])
  {
    if s == [] || !IsSpace(s[0]) then 0
    else
      var j := LeadingEnd(s[1..]);
      assert s[..j + 1] == [s[0]] + s[1..][..j];
      j + 1
  }

  /** One past the last non-whitespace character (0 if there is none). */
  function TrailingStart(s: string): (j: nat)
    ensures j <= |s| && AllSpace(s[j..])
    ensures j > 0 ==> !IsSpace(s[j - 1])
  {
    if s == [] || !IsSpace(s[|s| - 1]) then |s|
    else
      var j := TrailingStart(s[..|s| - 1]);
      assert s[j..] == s[..|s| - 1][j..] + [s[|s| - 1]];
      j
  }

  /** Python's `str.strip()` with no argument. */
  function Strip(s: string): (r: string)
    ensures IsStripped(r)
    ensures r == [] <==> AllSpace(s)
  {
    var i := LeadingEnd(s);
    if i == |s| then
      assert s[..|s|] == s;
      []
    else
      var j := TrailingStart(s);
      assert i < j by { assert !IsSpace(s[i]); }
      assert !IsSpace(s[i]);
      s[i..j]
  }

  /** Stripping removes whitespace from the two ends and nothing else. */
  lemma StripTrims(s: string)
    ensures TrimmedFrom(s, Strip(s))
  {
    var i := LeadingEnd(s);
    var r := Strip(s);
    if i == |s| {
      var none: string := [];
      assert s[..i] == s;
      assert r == none;
      assert s == s + r + none;
      assert AllSpace(none);
    } else {
      var j := TrailingStart(s);
      assert r == s[i..j];
      ThreeSlices(s, i, j);
      assert AllSpace(s[..i]) && AllSpace(s[j..]);
    }
  }

  lemma {:induction false} LeadingEndAfterSpaces(w: string, y: string)
    requires AllSpace(w)
    ensures LeadingEnd(w + y) == |w| + LeadingEnd(y)
    decreases |w|
  {
    if w != [] {
      assert (w + y)[0] == w[0];
      assert (w + y)[1..] == w[1..] + y;
      LeadingEndAfterSpaces(w[1..], y);
    } else {
      assert w + y == y;
    }
  }

  lemma {:induction false} TrailingStartBeforeSpaces(y: string, w: string)
    requires AllSpace(w)
    ensures TrailingStart(y + w) == TrailingStart(y)
    decreases |w|
  {
    if w != [] {
      var s := y + w;
      assert s[|s| - 1] == w[|w| - 1];
      assert s[..|s| - 1] == y + w[..|w| - 1];
      TrailingStartBeforeSpaces(y, w[..|w| - 1]);
    } else {
      assert y + w == y;
    }
  }

  /** Stripping removes exactly the whitespace around a stripped,
      non-empty text. */
  lemma StripPadded(w: string, x: string, w2: string)
    requires AllSpace(w) && AllSpace(w2) && x != [] && IsStripped(x)
    ensures Strip(w + x + w2) == x
  {
    var s := w + x + w2;
    assert s == w + (x + w2);
    LeadingEndAfterSpaces(w, x + w2);
    assert LeadingEnd(x + w2) == 0 by { assert (x + w2)[0] == x[0]; }
    TrailingStartBeforeSpaces(w + x, w2);
    assert TrailingStart(w + x) == |w| + |x| by { assert (w + x)[|w| + |x| - 1] == x[|x| - 1]; }
    assert s[|w|..|w| + |x|] == x;
  }

  /** Stripping a slice that starts with whitespace running up to a
      non-whitespace character, and ends with one, drops exactly that
      whitespace. */
  lemma StripSlice(t: string, i: nat, a: nat, e: nat)
    requires i <= a < e <= |t|
    requires forall k :: i <= k < a ==> IsSpace(t[k])
    requires !IsSpace(t[a]) && !IsSpace(t[e - 1])
    ensures Strip(t[i..e]) == t[a..e]
  {
    var w := t[i..a];
    var x := t[a..e];
    assert AllSpace(w) by {
      forall k | 0 <= k < |w| ensures IsSpace(w[k]) {
        assert w[k] == t[i + k];
      }
    }
    assert x[0] == t[a] && x[|x| - 1] == t[e - 1];
    assert t[i..e] == w + x + [];
    StripPadded(w, x, []);
  }

  /** A prefix one character longer. */
  lemma PrefixSnoc(s: string, i: nat)
    requires i < |s|
    ensures s[..i + 1] == s[..i] + [s[i]]
  {
  }

  /** A non-empty sequence is its front followed by its last element. */
  lemma FrontLast<T>(s: seq<T>)
    requires s != []
    ensures s[..|s| - 1] + [s[|s| - 1]] == s
  {
  }

  /** A sequence is its three slices around two cut points. */
  lemma ThreeSlices<T>(s: seq<T>, i: nat, j: nat)
    requires i <= j <= |s|
    ensures s == s[..i] + s[i..j] + s[j..]
  {
    assert s[..j] == s[..i] + s[i..j];
  }

  /** Python's `sep.join(xs)`: the strings in order with `sep` between
      neighbours; with an empty separator it is their concatenation. */
  function Join(xs: seq<string>, sep: string): (r: string)
    ensures sep == [] ==> r == Concat(xs)
    decreases |xs|
  {
    if |xs| == 0 then []
    else if |xs| == 1 then xs[0]
    else Join(xs[..|xs| - 1], sep) + sep + xs[|xs| - 1]
  }

  /** The length of `sep.join(xs)`: that of the strings plus one `sep` per
      gap between neighbours. */
  lemma {:induction false} JoinLength(xs: seq<string>, sep: string)
    requires |xs| > 0
    ensures |Join(xs, sep)| == TotalLength(xs) + (|xs| - 1) * |sep|
    decreases |xs|
  {
    if |xs| > 1 {
      JoinLength(xs[..|xs| - 1], sep);
      assert (|xs| - 1) * |sep| == (|xs| - 2) * |sep| + |sep|;
    }
  }

  /** `"".join(xs)`. */
  function Concat(xs: seq<string>): string
    decreases |xs|
  {
    if |xs| == 0 then [] else Concat(xs[..|xs| - 1]) + xs[|xs| - 1]
  }

  /** Total length of a list of strings. */
  function TotalLength(xs: seq<string>): nat
    decreases |xs|
  {
    if |xs| == 0 then 0 else TotalLength(xs[..|xs| - 1]) + |xs[|xs| - 1]|
  }

  lemma {:induction false} ConcatLength(xs: seq<string>)
    ensures |Concat(xs)| == TotalLength(xs)
    decreases |xs|
  {
    if |xs| > 0 {
      ConcatLength(xs[..|xs| - 1]);
    }
  }

  /** Concatenating a prefix of the list gives a prefix of the whole
      concatenation. */
  lemma {:induction false} ConcatPrefix(xs: seq<string>, n: nat)
    requires n <= |xs|
    ensures Concat(xs) == Concat(xs[..n]) + Concat(xs[n..])
    decreases |xs|
  {
    if n == |xs| {
      assert xs[..n] == xs;
      assert xs[n..] == [];
    } else {
      var init := xs[..|xs| - 1];
      ConcatPrefix(init, n);
      assert init[..n] == xs[..n];
      var tail := xs[n..];
      assert init[n..] == tail[..|tail| - 1];
      assert tail[|tail| - 1] == xs[|xs| - 1];
      calc {
        Concat(xs);
        Concat(init) + xs[|xs| - 1];
        Concat(xs[..n]) + Concat(init[n..]) + xs[|xs| - 1];
        Concat(xs[..n]) + (Concat(tail[..|tail| - 1]) + tail[|tail| - 1]);
        Concat(xs[..n]) + Concat(tail);
      }
    }
  }

  /** `n` blanks. */
  function Spaces(n: nat): (r: string)
    ensures |r| == n && AllSpace(r)
    ensures forall k :: 0 <= k < n ==> r[k] == ' '
  {
    seq(n, _ => ' ')
  }

  /** Python's `s.ljust(w)`: pads `s` on the right with spaces up to width
      `w`, never truncating. */
  function LJust(s: string, w: int): (r: string)
    ensures |r| == if |s| < w then w else |s|
    ensures r[..|s|] == s
    ensures forall k :: |s| <= k < |r| ==> r[k] == ' '
  {
    if |s| < w then s + Spaces(w - |s|) else s
  }

  /** `s` begins with `p`. */
  predicate StartsWith(s: string, p: string)
    decreases |p|
  {
    |p| <= |s| && (p == [] || (s[0] == p[0] && StartsWith(s[1..], p[1..])))
  }

  lemma {:induction false} StartsWithPrefix(s: string, p: string)
    ensures StartsWith(s, p) <==> |p| <= |s| && s[..|p|] == p
    decreases |p|
  {
    if p != [] && |p| <= |s| {
      StartsWithPrefix(s[1..], p[1..]);
      assert s[..|p|] == [s[0]] + s[1..][..|p| - 1];
      assert p == [p[0]] + p[1..];
    }
  }

  /** `pat` occurs in `s` starting at index `j`. */
  predicate OccursAt(s: string, pat: string, j: int) {
    0 <= j && j + |pat| <= |s| && s[j..j + |pat|] == pat
  }

  /** Python's `s.replace(pat, rep)` for a non-empty `pat`: occurrences are
      replaced from left to right and never overlap. */
  function Replace(s: string, pat: string, rep: string): (r: string)
    requires pat != []
    ensures |rep| == |pat| ==> |r| == |s|
    ensures rep == pat ==> r == s
    decreases |s|
  {
    if |s| < |pat| then s
    else if s[..|pat|] == pat then rep + Replace(s[|pat|..], pat, rep)
    else [s[0]] + Replace(s[1..], pat, rep)
  }

  lemma OccursShift(s: string, pat: string, j: int)
    requires s != [] && 0 <= j
    ensures OccursAt(s[1..], pat, j) <==> OccursAt(s, pat, j + 1)
  {
    if j + |pat| <= |s| - 1 {
      assert s[1..][j..j + |pat|] == s[j + 1..j + 1 + |pat|];
    }
  }

  /** Nothing changes where the pattern does not occur. */
  lemma {:induction false} ReplaceAbsent(s: string, pat: string, rep: string)
    requires pat != []
    requires forall j :: !OccursAt(s, pat, j)
    ensures Replace(s, pat, rep) == s
    decreases |s|
  {
    if |s| >= |pat| {
      assert !OccursAt(s, pat, 0);
      forall j | 0 <= j ensures !OccursAt(s[1..], pat, j) {
        OccursShift(s, pat, j);
      }
      ReplaceAbsent(s[1..], pat, rep);
      assert [s[0]] + s[1..] == s;
    }
  }

  /** The leftmost occurrence is the one replaced, and the text before it is
      kept as it is. */
  lemma {:induction false} ReplaceLeftmost(a: string, pat: string, b: string, rep: string)
    requires pat != []
    requires forall j :: 0 <= j < |a| ==> !OccursAt(a + pat + b, pat, j)
    ensures Replace(a + pat + b, pat, rep) == a + rep + Replace(b, pat, rep)
    decreases |a|
  {
    var s := a + pat + b;
    if a == [] {
      assert s == pat + b;
      assert s[..|pat|] == pat;
      assert s[|pat|..] == b;
    } else {
      assert !OccursAt(s, pat, 0);
      var s' := a[1..] + pat + b;
      assert s[1..] == s';
      forall j | 0 <= j < |a[1..]| ensures !OccursAt(s', pat, j) {
        OccursShift(s, pat, j);
      }
      ReplaceLeftmost(a[1..], pat, b, rep);
      assert Replace(s, pat, rep) == [s[0]] + Replace(s', pat, rep);
      assert [a[0]] + a[1..] == a;
    }
  }

  /** Index of the first occurrence of `pat` in `s` at or after `from`, or
      -1 when there is none. */
  function IndexOf(s: string, pat: string, from: nat): (r: int)
    ensures r == -1 || (from <= r && r + |pat| <= |s|)
    decreases |s| + 1 - from
  {
    if from + |pat| > |s| then -1
    else if s[from..from + |pat|] == pat then from
    else IndexOf(s, pat, from + 1)
  }

  /** The index found is an occurrence, and the leftmost one; -1 means there
      is no occurrence at all. */
  lemma {:induction false} IndexOfFirst(s: string, pat: string, from: nat)
    ensures var r := IndexOf(s, pat, from);
            (r != -1 ==> OccursAt(s, pat, r)) &&
            forall j :: from <= j && (r == -1 || j < r) ==> !OccursAt(s, pat, j)
    decreases |s| + 1 - from
  {
    if from + |pat| <= |s| && s[from..from + |pat|] != pat {
      IndexOfFirst(s, pat, from + 1);
    }
  }
}
