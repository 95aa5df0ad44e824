// The layout-header search of `find_and_format_layouts`: the regular
// expression `(\s*/\*.*?\*/\s*)?(\s*\[_\w+\]\s*=\s*LAYOUT\()` searched with
// DOTALL, written out as the backtracking engine resolves it. The match
// starts at the leftmost position where either alternative of the optional
// comment group succeeds; the comment group is tried first, and its lazy
// `.*?` stops at the first comment close after which the header matches.
module Header {
  import opened Text

  datatype Option<T> = None | Some(value: T)

  /** The literal that ends a header; its `(` opens the layout body. */
  const LayoutCall := "LAYOUT("

  /** `t[i..j]` is all whitespace. */
  predicate SpacesBetween(t: string, i: nat, j: nat)
    requires j <= |t|
  {
    forall k :: i <= k < j ==> IsSpace(t[k])
  }

  /** `t[i..j]` is all word characters. */
  predicate WordBetween(t: string, i: nat, j: nat)
    requires j <= |t|
  {
    forall k :: i <= k < j ==> IsWord(t[k])
  }

  /** `\s*` at `i`: the end of the whitespace run starting there. */
  function SkipSpaces(t: string, i: nat): (j: nat)
    requires i <= |t|
    ensures i <= j <= |t|
    decreases |t| - i
  {
    if i < |t| && IsSpace(t[i]) then SkipSpaces(t, i + 1) else i
  }

  /** `\s*` is greedy: it takes only whitespace and stops at the first
      character that is not. */
  lemma {:induction false} SkipSpacesStops(t: string, i: nat)
    requires i <= |t|
    ensures SpacesBetween(t, i, SkipSpaces(t, i))
    ensures SkipSpaces(t, i) < |t| ==> !IsSpace(t[SkipSpaces(t, i)])
    decreases |t| - i
  {
    if i < |t| && IsSpace(t[i]) {
      SkipSpacesStops(t, i + 1);
    }
  }

  /** Where `\s*` stops is fixed by the text: the end of the whitespace
      run. */
  lemma SkipSpacesAt(t: string, i: nat, j: nat)
    requires i <= j <= |t| && SpacesBetween(t, i, j) && (j < |t| ==> !IsSpace(t[j]))
    ensures SkipSpaces(t, i) == j
  {
    SkipSpacesStops(t, i);
  }

  /** `\w*` at `i`. */
  function SkipWord(t: string, i: nat): (j: nat)
    requires i <= |t|
    ensures i <= j <= |t|
    decreases |t| - i
  {
    if i < |t| && IsWord(t[i]) then SkipWord(t, i + 1) else i
  }

  lemma {:induction false} SkipWordStops(t: string, i: nat)
    requires i <= |t|
    ensures WordBetween(t, i, SkipWord(t, i))
    ensures SkipWord(t, i) < |t| ==> !IsWord(t[SkipWord(t, i)])
    decreases |t| - i
  {
    if i < |t| && IsWord(t[i]) {
      SkipWordStops(t, i + 1);
    }
  }

  lemma SkipWordAt(t: string, i: nat, j: nat)
    requires i <= j <= |t| && WordBetween(t, i, j) && (j < |t| ==> !IsWord(t[j]))
    ensures SkipWord(t, i) == j
  {
    SkipWordStops(t, i);
  }

  /** `LAYOUT(` stands at `d`. */
  predicate LayoutCallAt(t: string, d: nat) {
    d + |LayoutCall| <= |t| && t[d] == 'L' && t[d + 1] == 'A' && t[d + 2] == 'Y' && t[d + 3] == 'O' &&
    t[d + 4] == 'U' && t[d + 5] == 'T' && t[d + 6] == '('
  }

  /** Where the header alternative stands while it reads the text: before
      the `[`, before the `_`, before the first name character, inside the
      name, between `]` and `=`, and between `=` and `LAYOUT(`. */
  datatype Stage = Lead | Underscore | NameStart | Name | BeforeEquals | AfterEquals

  /** The header alternative `\s*\[_\w+\]\s*=\s*LAYOUT\(` read one character
      at a time from stage `s` at `i`. The expression is deterministic (no
      whitespace or word character can also be the literal that ends its
      run), so backtracking never finds a second way and this automaton
      matches exactly what the engine matches. The result is the index just
      past the `(`. */
  function Run(t: string, i: nat, s: Stage): (r: Option<nat>)
    requires i <= |t|
    ensures r.Some? ==> i < r.value <= |t|
    decreases |t| - i
  {
    if i == |t| then None
    else
      var ch := t[i];
      match s
      case Lead =>
        if IsSpace(ch) then Run(t, i + 1, Lead) else if ch == '[' then Run(t, i + 1, Underscore) else None
      case Underscore =>
        if ch == '_' then Run(t, i + 1, NameStart) else None
      case NameStart =>
        if IsWord(ch) then Run(t, i + 1, Name) else None
      case Name =>
        if IsWord(ch) then Run(t, i + 1, Name) else if ch == ']' then Run(t, i + 1, BeforeEquals) else None
      case BeforeEquals =>
        if IsSpace(ch) then Run(t, i + 1, BeforeEquals) else if ch == '=' then Run(t, i + 1, AfterEquals) else None
      case AfterEquals =>
        if IsSpace(ch) then Run(t, i + 1, AfterEquals) else if LayoutCallAt(t, i) then Some(i + |LayoutCall|) else None
  }

  /** The header alternative tried at `i`. */
  function HeaderEnd(t: string, i: nat): (r: Option<nat>)
    requires i <= |t|
    ensures r.Some? ==> i < r.value <= |t|
  {
    Run(t, i, Lead)
  }

  /** The stages that sit in a `\s*` skip whitespace unchanged. */
  lemma {:induction false} RunSpaces(t: string, i: nat, j: nat, s: Stage)
    requires i <= j <= |t| && SpacesBetween(t, i, j)
    requires s == Lead || s == BeforeEquals || s == AfterEquals
    ensures Run(t, i, s) == Run(t, j, s)
    decreases j - i
  {
    if i < j {
      RunSpaces(t, i + 1, j, s);
    }
  }

  /** Inside the name, word characters are skipped unchanged. */
  lemma {:induction false} RunWord(t: string, i: nat, j: nat)
    requires i <= j <= |t| && WordBetween(t, i, j)
    ensures Run(t, i, Name) == Run(t, j, Name)
    decreases j - i
  {
    if i < j {
      RunWord(t, i + 1, j);
    }
  }

  /** The grammar of a header, position by position: whitespace from `i`,
      `[_` at `a`, a non-empty name of word characters up to the `]` at `b`,
      whitespace, `=` at `c`, whitespace and `LAYOUT(` at `d`. */
  predicate HeaderShape(t: string, i: nat, a: nat, b: nat, c: nat, d: nat) {
    i <= a && a + 2 < b < c < d && d + |LayoutCall| <= |t| &&
    SpacesBetween(t, i, a) && t[a] == '[' && t[a + 1] == '_' && WordBetween(t, a + 2, b) && t[b] == ']' &&
    SpacesBetween(t, b + 1, c) && t[c] == '=' && SpacesBetween(t, c + 1, d) && LayoutCallAt(t, d)
  }

  /** Every header of the grammar is matched, and the match ends right after
      its `LAYOUT(`, whatever text follows. */
  lemma HeaderEndComplete(t: string, i: nat, a: nat, b: nat, c: nat, d: nat)
    requires HeaderShape(t, i, a, b, c, d)
    ensures HeaderEnd(t, i) == Some(d + |LayoutCall|)
  {
    RunSpaces(t, i, a, Lead);
    assert Run(t, a, Lead) == Run(t, a + 1, Underscore) == Run(t, a + 2, NameStart) == Run(t, a + 3, Name);
    RunWord(t, a + 3, b);
    assert Run(t, b, Name) == Run(t, b + 1, BeforeEquals);
    RunSpaces(t, b + 1, c, BeforeEquals);
    assert Run(t, c, BeforeEquals) == Run(t, c + 1, AfterEquals);
    RunSpaces(t, c + 1, d, AfterEquals);
    assert Run(t, d, AfterEquals) == Some(d + |LayoutCall|);
  }

  /** In a stage that sits in a `\s*`, a successful run goes on from the
      end of the whitespace run. */
  lemma RunPastSpaces(t: string, j: nat, s: Stage)
    requires j <= |t| && Run(t, j, s).Some?
    requires s == Lead || s == BeforeEquals || s == AfterEquals
    ensures var x := SkipSpaces(t, j);
            SpacesBetween(t, j, x) && x < |t| && !IsSpace(t[x]) && Run(t, j, s) == Run(t, x, s)
  {
    SkipSpacesStops(t, j);
    RunSpaces(t, j, SkipSpaces(t, j), s);
  }

  /** A successful run from `Lead` reads whitespace and `[_`. */
  lemma LeadSound(t: string, i: nat)
    requires i <= |t| && Run(t, i, Lead).Some?
    ensures var a := SkipSpaces(t, i);
            SpacesBetween(t, i, a) && a + 2 < |t| && t[a] == '[' && t[a + 1] == '_' &&
            Run(t, i, Lead) == Run(t, a + 2, NameStart)
  {
    RunPastSpaces(t, i, Lead);
    var a := SkipSpaces(t, i);
    assert Run(t, a, Lead) == Run(t, a + 1, Underscore);
  }

  /** A successful run from `NameStart` reads a non-empty name and `]`. */
  lemma NameSound(t: string, j: nat)
    requires j <= |t| && Run(t, j, NameStart).Some?
    ensures var b := SkipWord(t, j);
            j < b < |t| && WordBetween(t, j, b) && t[b] == ']' &&
            Run(t, j, NameStart) == Run(t, b + 1, BeforeEquals)
  {
    assert j < |t| && IsWord(t[j]);
    var b := SkipWord(t, j);
    assert b == SkipWord(t, j + 1);
    SkipWordStops(t, j);
    RunWord(t, j + 1, b);
    assert Run(t, b, Name) == Run(t, b + 1, BeforeEquals);
  }

  /** A successful run from `BeforeEquals` reads whitespace and `=`. */
  lemma EqualsSound(t: string, j: nat)
    requires j <= |t| && Run(t, j, BeforeEquals).Some?
    ensures var c := SkipSpaces(t, j);
            SpacesBetween(t, j, c) && c < |t| && t[c] == '=' &&
            Run(t, j, BeforeEquals) == Run(t, c + 1, AfterEquals)
  {
    RunPastSpaces(t, j, BeforeEquals);
  }

  /** A successful run from `AfterEquals` reads whitespace and `LAYOUT(`
      and ends right after it. */
  lemma CallSound(t: string, j: nat)
    requires j <= |t| && Run(t, j, AfterEquals).Some?
    ensures var d := SkipSpaces(t, j);
            SpacesBetween(t, j, d) && LayoutCallAt(t, d) && Run(t, j, AfterEquals) == Some(d + |LayoutCall|)
  {
    RunPastSpaces(t, j, AfterEquals);
  }

  /** Whatever is matched is a header of the grammar, found where the
      header's `\s*` and `\w+` stop. */
  lemma HeaderEndSound(t: string, i: nat)
    requires i <= |t| && HeaderEnd(t, i).Some?
    ensures var a := SkipSpaces(t, i);
            a + 2 <= |t| && var b := SkipWord(t, a + 2);
            b < |t| && var c := SkipSpaces(t, b + 1);
            c < |t| && var d := SkipSpaces(t, c + 1);
            HeaderShape(t, i, a, b, c, d) && HeaderEnd(t, i) == Some(d + |LayoutCall|)
  {
    LeadSound(t, i);
    var a := SkipSpaces(t, i);
    NameSound(t, a + 2);
    var b := SkipWord(t, a + 2);
    EqualsSound(t, b + 1);
    var c := SkipSpaces(t, b + 1);
    CallSound(t, c + 1);
  }

  /** A comment opener (slash, star) at `a`. */
  predicate CommentOpenAt(t: string, a: nat) {
    a + 2 <= |t| && t[a] == '/' && t[a + 1] == '*'
  }

  /** A comment close at `e` after which, past whitespace, a header
      matches. */
  predicate CloseBeforeHeader(t: string, e: nat) {
    e + 2 <= |t| && t[e] == '*' && t[e + 1] == '/' && HeaderEnd(t, SkipSpaces(t, e + 2)).Some?
  }

  /** No comment close in `[from, e)` lets a header follow. */
  predicate NoEarlierClose(t: string, from: nat, e: nat) {
    forall e' :: from <= e' < e ==> !CloseBeforeHeader(t, e')
  }

  /** The lazy `.*?` of the comment group: the first comment close at or
      after `from` that lets the rest of the expression match. */
  function CommentClose(t: string, from: nat): (r: Option<nat>)
    requires from <= |t|
    ensures r.Some? ==> from <= r.value && CloseBeforeHeader(t, r.value)
    decreases |t| - from
  {
    if CloseBeforeHeader(t, from) then Some(from)
    else if from == |t| then None
    else CommentClose(t, from + 1)
  }

  /** The lazy `.*?` takes the first suitable comment close: none before
      the one found, and none at all when none is found. */
  lemma {:induction false} CommentCloseFirst(t: string, from: nat)
    requires from <= |t|
    ensures CommentClose(t, from).Some? ==> NoEarlierClose(t, from, CommentClose(t, from).value)
    ensures CommentClose(t, from).None? ==> forall e :: from <= e ==> !CloseBeforeHeader(t, e)
    decreases |t| - from
  {
    if !CloseBeforeHeader(t, from) && from < |t| {
      CommentCloseFirst(t, from + 1);
    }
  }

  /** A match of the whole expression: `t[start..declStart]` is the comment
      group (empty when it did not take part) and `t[declStart..end]` the
      header group. */
  datatype HeaderMatch = HeaderMatch(start: nat, declStart: nat, end: nat)

  /** The comment alternative tried at `p`: where its header group starts,
      if it matches. */
  function CommentPath(t: string, p: nat): (r: Option<nat>)
    requires p <= |t|
    ensures r.Some? ==> p < r.value <= |t| && HeaderEnd(t, r.value).Some?
  {
    var a := SkipSpaces(t, p);
    if !CommentOpenAt(t, a) then None
    else
      match CommentClose(t, a + 2)
      case None => None
      case Some(e) => Some(SkipSpaces(t, e + 2))
  }

  /** The expression tried at `p`, the comment alternative first. */
  function MatchAt(t: string, p: nat): (r: Option<HeaderMatch>)
    requires p <= |t|
    ensures r.Some? ==> r.value.start == p <= r.value.declStart < r.value.end <= |t|
    ensures r.Some? ==> HeaderEnd(t, r.value.declStart) == Some(r.value.end)
    ensures HeaderEnd(t, p).Some? ==> r.Some?
  {
    match CommentPath(t, p)
    case Some(c) => Some(HeaderMatch(p, c, HeaderEnd(t, c).value))
    case None =>
      match HeaderEnd(t, p)
      case None => None
      case Some(e) => Some(HeaderMatch(p, p, e))
  }

  /** `t[p..c]` is a comment group whose opener is at `a` and whose lazy
      body ends at the comment close at `e`. */
  predicate CommentGroup(t: string, p: nat, a: nat, e: nat, c: nat) {
    p <= a && a + 2 <= e && e + 2 <= c <= |t| &&
    SpacesBetween(t, p, a) && CommentOpenAt(t, a) && CloseBeforeHeader(t, e) &&
    SpacesBetween(t, e + 2, c) && NoEarlierClose(t, a + 2, e)
  }

  /** What the comment alternative matches is whitespace, a comment opener,
      anything, the first comment close that lets a header follow, and
      whitespace. */
  lemma CommentPathGroup(t: string, p: nat)
    requires p <= |t| && CommentPath(t, p).Some?
    ensures exists e :: CommentGroup(t, p, SkipSpaces(t, p), e, CommentPath(t, p).value)
  {
    var a := SkipSpaces(t, p);
    SkipSpacesStops(t, p);
    var e := CommentClose(t, a + 2).value;
    var c := SkipSpaces(t, e + 2);
    assert CommentPath(t, p) == Some(c);
    SkipSpacesStops(t, e + 2);
    CommentCloseFirst(t, a + 2);
    assert CommentGroup(t, p, a, e, c);
  }

  /** A non-empty comment group is a match of the comment alternative. */
  lemma MatchComment(t: string, p: nat)
    requires p <= |t| && MatchAt(t, p).Some? && MatchAt(t, p).value.declStart != p
    ensures exists e :: CommentGroup(t, p, SkipSpaces(t, p), e, MatchAt(t, p).value.declStart)
  {
    CommentPathGroup(t, p);
  }

  /** An empty comment group means the comment alternative could not match
      at `p`: the header alternative is tried only then. */
  lemma MatchNoComment(t: string, p: nat)
    requires p <= |t| && MatchAt(t, p).Some? && MatchAt(t, p).value.declStart == p
    ensures !CommentOpenAt(t, SkipSpaces(t, p)) ||
            forall e :: SkipSpaces(t, p) + 2 <= e ==> !CloseBeforeHeader(t, e)
  {
    assert CommentPath(t, p).None?;
    if CommentOpenAt(t, SkipSpaces(t, p)) {
      NoCommentClose(t, p);
    }
  }

  /** An opener with no comment path after it: no comment close lets a
      header follow. */
  lemma NoCommentClose(t: string, p: nat)
    requires p <= |t| && CommentPath(t, p).None? && CommentOpenAt(t, SkipSpaces(t, p))
    ensures forall e :: SkipSpaces(t, p) + 2 <= e ==> !CloseBeforeHeader(t, e)
  {
    var a := SkipSpaces(t, p);
    assert CommentClose(t, a + 2).None?;
    CommentCloseFirst(t, a + 2);
  }

  /** `re.search`: the match at the leftmost position from `from` on where
      the expression matches (see `FindHeaderLeftmost`). */
  function FindHeader(t: string, from: nat): (r: Option<HeaderMatch>)
    requires from <= |t|
    ensures r.Some? ==> from <= r.value.start <= r.value.declStart < r.value.end <= |t|
    decreases |t| - from
  {
    if MatchAt(t, from).Some? then MatchAt(t, from)
    else if from == |t| then None
    else FindHeader(t, from + 1)
  }

  /** The search finds a match of the expression, and there is none at any
      earlier position; it finds nothing only when nothing matches. */
  lemma {:induction false} FindHeaderLeftmost(t: string, from: nat)
    requires from <= |t|
    ensures var r := FindHeader(t, from);
            (r.Some? ==> MatchAt(t, r.value.start) == r) &&
            forall q :: from <= q <= |t| && (r.None? || q < r.value.start) ==> MatchAt(t, q).None?
    decreases |t| - from
  {
    if MatchAt(t, from).None? && from < |t| {
      FindHeaderLeftmost(t, from + 1);
    }
  }
}
