/** `find_and_format_layouts` and `format_single_layout`: the body of the
    keymaps array is cut into the text between layouts and the layouts
    themselves (header, body up to the matching parenthesis, optional
    comma), and each layout is rewritten with its keycodes laid out. */
module Layouts {
  import opened Text
  import opened Tokenizer
  import opened Grid
  import opened Header

  // ---------------------------------------------------------------------
  // The parenthesis matcher
  // ---------------------------------------------------------------------

  /** What the matcher keeps while it reads: the parenthesis counter and
      whether it is inside a string literal. */
  datatype ScanState = ScanState(depth: int, inString: bool)

  /** A double quote at `i` that is not preceded by a backslash toggles the
      string flag. */
  predicate QuoteAt(text: string, i: nat)
    requires i < |text|
  {
    text[i] == '"' && (i == 0 || text[i - 1] != '\\')
  }

  /** How the character at `i` moves the matcher's state: the string flag
      flips exactly at an unescaped double quote, and outside strings the
      counter moves as the tokenizer's does, one up at `(`, one down at
      `)`. */
  function Step(text: string, i: nat, st: ScanState): (next: ScanState)
    requires i < |text|
    ensures next.inString == (st.inString != QuoteAt(text, i))
    ensures next.depth == st.depth + (if st.inString || QuoteAt(text, i) then 0 else DepthStep(text[i]))
  {
    if QuoteAt(text, i) then ScanState(st.depth, !st.inString)
    else if !st.inString && text[i] == '(' then ScanState(st.depth + 1, false)
    else if !st.inString && text[i] == ')' then ScanState(st.depth - 1, false)
    else st
  }

  /** The matcher's state when it reaches `j`, having started at `start`
      with one parenthesis open (the one of `LAYOUT(`). */
  function StateAt(text: string, start: nat, j: nat): (st: ScanState)
    requires start <= j <= |text|
    ensures 1 - (j - start) <= st.depth <= 1 + (j - start)
    decreases j - start
  {
    if j == start then ScanState(1, false) else Step(text, j - 1, StateAt(text, start, j - 1))
  }

  /** The `)` at `i` closes the `LAYOUT(` opened just before `start`: it is
      read outside a string with only that parenthesis open. */
  predicate ClosesAt(text: string, start: nat, i: nat) {
    start <= i < |text| && text[i] == ')' &&
    !StateAt(text, start, i).inString && StateAt(text, start, i).depth == 1
  }

  /** Reading the `)` that closes the body brings the counter to zero,
      outside any string: the condition on which the matcher loop stops. */
  lemma CloseBringsZero(text: string, start: nat, i: nat)
    requires ClosesAt(text, start, i)
    ensures StateAt(text, start, i + 1) == ScanState(0, false)
  {
  }

  /** The first closing position at or after `i`, or `start` when there is
      none. */
  function FirstClose(text: string, start: nat, i: nat): (r: nat)
    requires start <= i <= |text|
    ensures start <= r <= |text|
    decreases |text| - i
  {
    if i == |text| then start
    else if ClosesAt(text, start, i) then i
    else FirstClose(text, start, i + 1)
  }

  /** Where the layout body that starts at `start` ends: at the matching
      `)`, or at `start` itself when there is none. */
  function ContentEnd(text: string, start: nat): (r: nat)
    requires start <= |text|
    ensures start <= r <= |text|
  {
    FirstClose(text, start, start)
  }

  lemma {:induction false} FirstCloseFirst(text: string, start: nat, i: nat)
    requires start <= i <= |text|
    ensures var r := FirstClose(text, start, i);
            (i <= r && ClosesAt(text, start, r) && forall k :: i <= k < r ==> !ClosesAt(text, start, k)) ||
            (r == start && forall k :: i <= k < |text| ==> !ClosesAt(text, start, k))
    decreases |text| - i
  {
    if i < |text| && !ClosesAt(text, start, i) {
      FirstCloseFirst(text, start, i + 1);
    }
  }

  /** The body ends at the first `)` that closes `LAYOUT(`; when no `)`
      does, the end is the start and the body is empty. */
  lemma ContentEndFirst(text: string, start: nat)
    requires start <= |text|
    ensures var r := ContentEnd(text, start);
            (ClosesAt(text, start, r) && forall k :: start <= k < r ==> !ClosesAt(text, start, k)) ||
            (r == start && forall k :: start <= k < |text| ==> !ClosesAt(text, start, k))
  {
    FirstCloseFirst(text, start, start);
  }

  /** The matcher loop: reads from `parenStart` with one parenthesis open,
      toggling the string flag at unescaped double quotes and counting
      parentheses outside strings, and stops at the `)` that brings the
      counter to zero. */
  method MatchClose(text: string, parenStart: nat) returns (contentEnd: nat)
    requires parenStart <= |text|
    ensures contentEnd == ContentEnd(text, parenStart)
  {
    var parenCount := 1;
    contentEnd := parenStart;
    var inString := false;
    var i := parenStart;
    while i < |text| && parenCount > 0
      invariant parenStart <= i <= |text| && parenCount >= 1
      invariant StateAt(text, parenStart, i) == ScanState(parenCount, inString)
      invariant FirstClose(text, parenStart, i) == ContentEnd(text, parenStart)
      invariant contentEnd == parenStart
      decreases |text| - i
    {
      var ch := text[i];
      if ch == '"' && (i == 0 || text[i - 1] != '\\') {
        inString := !inString;
      } else if !inString {
        if ch == '(' {
          parenCount := parenCount + 1;
        } else if ch == ')' {
          parenCount := parenCount - 1;
          if parenCount == 0 {
            assert ClosesAt(text, parenStart, i);
            contentEnd := i;
            break;
          }
        }
      }
      i := i + 1;
    }
  }

  /** Without double quotes the string flag never rises, and the counter is
      one plus the tokenizer's parenthesis balance of what was read. */
  lemma {:induction false} QuoteFreeState(text: string, start: nat, j: nat)
    requires start <= j <= |text|
    requires forall k :: start <= k < j ==> text[k] != '"'
    ensures StateAt(text, start, j) == ScanState(1 + Depth(text[start..j]), false)
    decreases j - start
  {
    if j > start {
      QuoteFreeState(text, start, j - 1);
      assert text[start..j] == text[start..j - 1] + [text[j - 1]];
      DepthSnoc(text[start..j - 1], text[j - 1]);
    } else {
      assert text[start..j] == [];
    }
  }

  /** Before the closing `)`, the counter never drops to zero. */
  lemma {:induction false} OpenBeforeClose(text: string, start: nat, j: nat)
    requires start <= j <= |text|
    requires forall k :: start <= k < j ==> !ClosesAt(text, start, k)
    ensures StateAt(text, start, j).depth >= 1
    decreases j - start
  {
    if j > start {
      OpenBeforeClose(text, start, j - 1);
      assert !ClosesAt(text, start, j - 1);
    }
  }

  /** A closed body without string literals is balanced: no prefix of it
      closes more parentheses than it opens, and the whole closes as many as
      it opens, so the tokenizer reads it with its counter never below
      zero and back at zero at the end. */
  lemma ClosedBodyBalanced(text: string, start: nat)
    requires start <= |text|
    requires ClosesAt(text, start, ContentEnd(text, start))
    requires forall k :: start <= k < ContentEnd(text, start) ==> text[k] != '"'
    ensures var body := text[start..ContentEnd(text, start)];
            Depth(body) == 0 && forall n :: 0 <= n <= |body| ==> Depth(body[..n]) >= 0
  {
    var e := ContentEnd(text, start);
    var body := text[start..e];
    ContentEndFirst(text, start);
    QuoteFreeState(text, start, e);
    forall n | 0 <= n <= |body| ensures Depth(body[..n]) >= 0 {
      OpenBeforeClose(text, start, start + n);
      QuoteFreeState(text, start, start + n);
      assert body[..n] == text[start..start + n];
    }
  }

  // ---------------------------------------------------------------------
  // Formatting one layout
  // ---------------------------------------------------------------------

  /** The declaration as `format_single_layout` cleans it: stripped, then
      the momentary-layer keycodes `MO(1)`, `MO(2)` and `MO(3)` renamed to
      the layer names. */
  function CleanDeclaration(declaration: string): string {
    var stripped := Strip(declaration);
    var lower := Replace(stripped, "MO(1)", "MO(_LOWER)");
    var raise := Replace(lower, "MO(2)", "MO(_RAISE)");
    Replace(raise, "MO(3)", "MO(_ADJUST)")
  }

  /** `s` holds no `)`. */
  predicate NoCloser(s: string) {
    forall k :: 0 <= k < |s| ==> s[k] != ')'
  }

  /** A declaration without `)` holds none of `MO(1)`, `MO(2)`, `MO(3)`, so
      cleaning it only strips it. */
  lemma CleanWithoutCloser(declaration: string)
    requires NoCloser(declaration)
    ensures CleanDeclaration(declaration) == Strip(declaration)
  {
    var stripped := Strip(declaration);
    StripNoCloser(declaration);
    RenameInert(stripped, "MO(1)", "MO(_LOWER)");
    RenameInert(stripped, "MO(2)", "MO(_RAISE)");
    RenameInert(stripped, "MO(3)", "MO(_ADJUST)");
  }

  /** The text `format_single_layout` returns. With no keycodes the layout
      is written back with only its declaration cleaned; otherwise the
      keycode lines follow the declaration on their own lines, then a `)`
      on its own line and the comma. The comment group is written only
      when it holds more than whitespace, as it does whenever it took part
      in the match; when it is missing, the stripped declaration comes
      first, so the whitespace that led the declaration group (the line
      break and indent before `[`) is lost. */
  function SingleLayout(comment: string, declaration: string, content: string, comma: string): string {
    var clean := CleanDeclaration(declaration);
    var keycodes := Keycodes(content);
    if keycodes == [] then comment + clean + content + ")" + comma
    else if Strip(comment) != [] then comment + clean + "\n" + Join(FullLayout(keycodes), "\n") + "\n)" + comma
    else clean + "\n" + Join(FullLayout(keycodes), "\n") + "\n)" + comma
  }

  /** `format_single_layout`. */
  method FormatSingleLayout(comment: string, declaration: string, content: string, comma: string)
    returns (formatted: string)
    ensures formatted == SingleLayout(comment, declaration, content, comma)
  {
    var cleanDeclaration := Strip(declaration);
    cleanDeclaration := Replace(cleanDeclaration, "MO(1)", "MO(_LOWER)");
    cleanDeclaration := Replace(cleanDeclaration, "MO(2)", "MO(_RAISE)");
    cleanDeclaration := Replace(cleanDeclaration, "MO(3)", "MO(_ADJUST)");
    var keycodes := Tokenize(content);
    if |keycodes| == 0 {
      return comment + cleanDeclaration + content + ")" + comma;
    }
    var formattedLines;
    if |keycodes| >= FullKeys {
      formattedLines := FormatFullLayout(keycodes);
    } else {
      formattedLines := ["  " + Join(keycodes, ", ")];
    }
    if Strip(comment) != [] {
      formatted := comment + cleanDeclaration + "\n" + Join(formattedLines, "\n") + "\n)" + comma;
    } else {
      formatted := cleanDeclaration + "\n" + Join(formattedLines, "\n") + "\n)" + comma;
    }
  }

  /** A layout of fewer than 58 keycodes is written on one line, and reading
      that line again gives back exactly its keycodes, in order. */
  lemma ShortLayoutKeepsKeycodes(content: string)
    requires 0 < |Keycodes(content)| < FullKeys
    ensures FullLayout(Keycodes(content)) == ["  " + Join(Keycodes(content), ", ")]
    ensures Keycodes(FullLayout(Keycodes(content))[0]) == Keycodes(content)
  {
    var keycodes := Keycodes(content);
    assert FullLayout(keycodes)[0] == "  " + Join(keycodes, ", ");
    KeycodesJoinRoundTrip("  ", content);
  }

  /** A body holding only whitespace and separating commas has no keycode:
      it is kept verbatim, comment included, behind the cleaned
      declaration. */
  lemma EmptyLayoutVerbatim(comment: string, declaration: string, content: string, comma: string)
    requires Blank(content)
    ensures SingleLayout(comment, declaration, content, comma) ==
            comment + CleanDeclaration(declaration) + content + ")" + comma
  {
    KeycodesEmpty(content);
  }

  /** A header never holds a `)`: the characters it may contain are
      whitespace, `[`, `_`, word characters, `]`, `=` and `LAYOUT(`. */
  lemma HeaderHasNoCloser(t: string, i: nat)
    requires i <= |t| && HeaderEnd(t, i).Some?
    ensures forall k :: i <= k < HeaderEnd(t, i).value ==> t[k] != ')'
  {
    HeaderEndSound(t, i);
  }

  /** A text without `)` does not contain `MO(n)`, so renaming leaves it as
      it is. */
  lemma RenameInert(s: string, pat: string, rep: string)
    requires |pat| == 5 && pat[4] == ')'
    requires NoCloser(s)
    ensures Replace(s, pat, rep) == s
  {
    forall j | OccursAt(s, pat, j) ensures s[j + 4] == pat[4] {
      assert s[j..j + |pat|][4] == s[j + 4];
    }
    ReplaceAbsent(s, pat, rep);
  }

  /** Stripping takes a slice, so a text without `)` strips to one without. */
  lemma StripNoCloser(s: string)
    requires NoCloser(s)
    ensures NoCloser(Strip(s))
  {
    StripTrims(s);
    var w1, w2 :| AllSpace(w1) && AllSpace(w2) && s == w1 + Strip(s) + w2;
    NoCloserInside(w1, Strip(s), w2);
  }

  lemma NoCloserInside(w1: string, r: string, w2: string)
    requires forall k :: 0 <= k < |w1 + r + w2| ==> (w1 + r + w2)[k] != ')'
    ensures forall k :: 0 <= k < |r| ==> r[k] != ')'
  {
    forall k | 0 <= k < |r| ensures r[k] != ')' {
      assert r[k] == (w1 + r + w2)[|w1| + k];
    }
  }

  /** The renaming of `MO(1)`, `MO(2)` and `MO(3)` never changes a
      declaration the header search captures: cleaning it only strips it. */
  lemma DeclarationRenameInert(t: string, i: nat)
    requires i <= |t| && HeaderEnd(t, i).Some?
    ensures CleanDeclaration(t[i..HeaderEnd(t, i).value]) == Strip(t[i..HeaderEnd(t, i).value])
  {
    var d := t[i..HeaderEnd(t, i).value];
    HeaderHasNoCloser(t, i);
    forall k | 0 <= k < |d| ensures d[k] != ')' {
      assert d[k] == t[i + k];
    }
    CleanWithoutCloser(d);
  }

  /** Stripping a captured declaration drops the whitespace the search
      took in front of the `[` and nothing else. */
  lemma HeaderStrip(t: string, i: nat)
    requires i <= |t| && HeaderEnd(t, i).Some?
    ensures SkipSpaces(t, i) < HeaderEnd(t, i).value
    ensures Strip(t[i..HeaderEnd(t, i).value]) == t[SkipSpaces(t, i)..HeaderEnd(t, i).value]
  {
    var e := HeaderEnd(t, i).value;
    var a := SkipSpaces(t, i);
    HeaderEndSound(t, i);
    SkipSpacesStops(t, i);
    StripSlice(t, i, a, e);
  }

  /** The declaration a header search captures is cleaned to its text from
      `[` to `(`: the whitespace the search took in front of it is
      dropped, and nothing else changes. */
  lemma HeaderDeclarationClean(t: string, i: nat)
    requires i <= |t| && HeaderEnd(t, i).Some?
    ensures SkipSpaces(t, i) < HeaderEnd(t, i).value
    ensures CleanDeclaration(t[i..HeaderEnd(t, i).value]) == t[SkipSpaces(t, i)..HeaderEnd(t, i).value]
  {
    HeaderStrip(t, i);
    DeclarationRenameInert(t, i);
  }

  // ---------------------------------------------------------------------
  // Cutting the block into layouts
  // ---------------------------------------------------------------------

  /** Python's `text[pos:]`, which is empty when `pos` is past the end; it
      is built one character at a time (see `TailSlice`). */
  function Tail(text: string, pos: nat): (r: string)
    ensures |r| == if pos <= |text| then |text| - pos else 0
    decreases |text| - pos
  {
    if pos < |text| then [text[pos]] + Tail(text, pos + 1) else []
  }

  lemma {:induction false} TailSlice(text: string, pos: nat)
    requires pos <= |text|
    ensures Tail(text, pos) == text[pos..]
    decreases |text| - pos
  {
    if pos < |text| {
      TailSlice(text, pos + 1);
      assert text[pos..] == [text[pos]] + text[pos + 1..];
    }
  }

  /** The layout's comma: `","` when the character one past `contentEnd`
      is a comma, empty otherwise. */
  function CommaAfter(text: string, contentEnd: nat): (r: string)
    ensures r == "," <==> contentEnd + 1 < |text| && text[contentEnd + 1] == ','
    ensures r == [] || r == ","
  {
    if contentEnd + 1 < |text| && text[contentEnd + 1] == ',' then "," else ""
  }

  /** What `find_and_format_layouts` builds from `pos` on: the text before
      the next header, then that layout and everything after it; when no
      header is left, the rest as it is. */
  function FormatFrom(text: string, pos: nat): string
    requires pos <= |text| + 1
    decreases |text| + 1 - pos, 1
  {
    var rest := Tail(text, pos);
    match FindHeader(rest, 0)
    case None => rest
    case Some(m) => rest[..m.start] + LayoutOnwards(text, pos, m)
  }

  /** The layout whose header the search matched at `m` in `text[pos:]`,
      formatted: its comment group, its declaration group, its body up to
      where the parenthesis matcher stopped, and the comma after it. */
  function LayoutText(text: string, pos: nat, m: HeaderMatch): string
    requires pos <= |text| + 1 && FindHeader(Tail(text, pos), 0) == Some(m)
  {
    SingleLayout(CommentGroup(text, pos, m), DeclarationGroup(text, pos, m), Body(text, pos, m), BodyComma(text, pos, m))
  }

  /** The comment group of the layout matched at `m` in `text[pos:]`. */
  function CommentGroup(text: string, pos: nat, m: HeaderMatch): string
    requires pos <= |text| + 1 && FindHeader(Tail(text, pos), 0) == Some(m)
  {
    Tail(text, pos)[m.start..m.declStart]
  }

  /** Its declaration group. */
  function DeclarationGroup(text: string, pos: nat, m: HeaderMatch): string
    requires pos <= |text| + 1 && FindHeader(Tail(text, pos), 0) == Some(m)
  {
    Tail(text, pos)[m.declStart..m.end]
  }

  /** Its body: from after `LAYOUT(` to where the parenthesis matcher stopped. */
  function Body(text: string, pos: nat, m: HeaderMatch): string
    requires pos <= |text| + 1 && FindHeader(Tail(text, pos), 0) == Some(m)
  {
    text[pos + m.end..ContentEnd(text, pos + m.end)]
  }

  /** The comma after its body, if any. */
  function BodyComma(text: string, pos: nat, m: HeaderMatch): string
    requires pos <= |text| + 1 && FindHeader(Tail(text, pos), 0) == Some(m)
  {
    CommaAfter(text, ContentEnd(text, pos + m.end))
  }

  /** Where the loop goes on after that layout: one past the end of the
      body, two when a comma follows. */
  function ResumeAt(text: string, pos: nat, m: HeaderMatch): (r: nat)
    requires pos <= |text| + 1 && FindHeader(Tail(text, pos), 0) == Some(m)
    ensures pos < r <= |text| + 1
  {
    var contentEnd := ContentEnd(text, pos + m.end);
    contentEnd + 1 + |CommaAfter(text, contentEnd)|
  }

  /** That layout formatted, followed by the text after it formatted the
      same way. */
  function LayoutOnwards(text: string, pos: nat, m: HeaderMatch): string
    requires pos <= |text| + 1 && FindHeader(Tail(text, pos), 0) == Some(m)
    decreases |text| + 1 - pos, 0
  {
    LayoutText(text, pos, m) + FormatFrom(text, ResumeAt(text, pos, m))
  }

  /** What `find_and_format_layouts` returns for `text`; with no header in
      it, the text itself. */
  function FormatLayouts(text: string): (formatted: string)
    ensures FindHeader(text, 0).None? ==> formatted == text
  {
    TailSlice(text, 0);
    FormatFrom(text, 0)
  }

  /** One pass of the loop once a header was found at `m` in `text[pos:]`:
      take the comment and declaration groups, find the body's end, take the
      comma, and format the layout. The text from `pos` comes out as the
      text before the header, this layout formatted, and the text from
      `next` formatted. */
  method FormatFoundLayout(text: string, pos: nat, m: HeaderMatch) returns (formatted: string, next: nat)
    requires pos <= |text| + 1 && FindHeader(Tail(text, pos), 0) == Some(m)
    ensures pos < next <= |text| + 1
    ensures FormatFrom(text, pos) == Tail(text, pos)[..m.start] + formatted + FormatFrom(text, next)
  {
    var rest := Tail(text, pos);
    var comment := rest[m.start..m.declStart];
    var declaration := rest[m.declStart..m.end];
    var parenStart := pos + m.end;
    var contentEnd := MatchClose(text, parenStart);
    var layoutContent := text[parenStart..contentEnd];
    var comma := CommaAfter(text, contentEnd);
    next := contentEnd + 1 + |comma|;
    assert next == ResumeAt(text, pos, m);
    LayoutOnwardsStep(text, pos, m);
    assert comment == CommentGroup(text, pos, m) && declaration == DeclarationGroup(text, pos, m);
    assert layoutContent == Body(text, pos, m) && comma == BodyComma(text, pos, m);
    formatted := FormatSingleLayout(comment, declaration, layoutContent, comma);
    AppendAssoc3(rest[..m.start], formatted, FormatFrom(text, next));
  }

  lemma {:induction false} LayoutOnwardsStep(text: string, pos: nat, m: HeaderMatch)
    requires pos <= |text| + 1 && FindHeader(Tail(text, pos), 0) == Some(m)
    ensures LayoutOnwards(text, pos, m) == LayoutText(text, pos, m) + FormatFrom(text, ResumeAt(text, pos, m))
  {
  }

  /** No `)` closes the `LAYOUT(` opened just before `start`. */
  ghost predicate Unclosed(text: string, start: nat) {
    forall k :: !ClosesAt(text, start, k)
  }

  /** A `LAYOUT(` that no `)` closes: the body is taken to be empty and the
      layout is written as its comment, its cleaned declaration and `)`.
      The character right after the `(` is skipped; when the one after it
      is a comma, that comma becomes the layout's comma and is skipped too;
      formatting goes on after them. */
  lemma UnclosedLayout(text: string, pos: nat, m: HeaderMatch)
    requires pos <= |text| + 1 && FindHeader(Tail(text, pos), 0) == Some(m)
    requires Unclosed(text, pos + m.end)
    ensures pos + m.end <= |text|
    ensures var rest := Tail(text, pos);
            LayoutText(text, pos, m) ==
              rest[m.start..m.declStart] + CleanDeclaration(rest[m.declStart..m.end]) + ")" + CommaAfter(text, pos + m.end)
    ensures ResumeAt(text, pos, m) == pos + m.end + 1 + |CommaAfter(text, pos + m.end)|
  {
    var rest := Tail(text, pos);
    ResumeAtIs(text, pos, m);
    UnclosedEnd(text, pos + m.end);
    EmptyBodyText(text, pos, m);
    EmptyBody(LayoutText(text, pos, m), rest[m.start..m.declStart], rest[m.declStart..m.end], CommaAfter(text, pos + m.end));
  }

  /** A layout whose body ends where it starts is formatted as one with an
      empty body. */
  lemma EmptyBodyText(text: string, pos: nat, m: HeaderMatch)
    requires pos <= |text| + 1 && FindHeader(Tail(text, pos), 0) == Some(m)
    requires ContentEnd(text, pos + m.end) == pos + m.end
    ensures var rest := Tail(text, pos);
            LayoutText(text, pos, m) ==
              SingleLayout(rest[m.start..m.declStart], rest[m.declStart..m.end], [], CommaAfter(text, pos + m.end))
  {
    assert Body(text, pos, m) == [];
    assert BodyComma(text, pos, m) == CommaAfter(text, pos + m.end);
  }

  /** A layout with an empty body: its comment, its cleaned declaration,
      `)` and its comma. */
  lemma EmptyBody(formatted: string, comment: string, declaration: string, comma: string)
    requires formatted == SingleLayout(comment, declaration, [], comma)
    ensures formatted == comment + CleanDeclaration(declaration) + ")" + comma
  {
    EmptyLayoutVerbatim(comment, declaration, [], comma);
    assert comment + CleanDeclaration(declaration) + [] == comment + CleanDeclaration(declaration);
  }

  lemma ResumeAtIs(text: string, pos: nat, m: HeaderMatch)
    requires pos <= |text| + 1 && FindHeader(Tail(text, pos), 0) == Some(m)
    ensures pos + m.end <= |text|
    ensures ResumeAt(text, pos, m) == ContentEnd(text, pos + m.end) + 1 + |CommaAfter(text, ContentEnd(text, pos + m.end))|
  {
  }

  lemma UnclosedEnd(text: string, start: nat)
    requires start <= |text| && Unclosed(text, start)
    ensures ContentEnd(text, start) == start
  {
    ContentEndFirst(text, start);
  }

  lemma AppendAssoc3(a: string, b: string, c: string)
    ensures a + b + c == a + (b + c)
  {
  }

  lemma AppendAssoc(r: string, a: string, b: string, c: string)
    ensures r + a + b + c == r + (a + b + c)
  {
  }

  /** The loop of `find_and_format_layouts`: search for the next header in
      the text after `pos`, copy the text before it, format the layout and
      go on after it; when no header is left, copy the rest. */
  method FindAndFormatLayouts(text: string) returns (result: string)
    ensures result == FormatLayouts(text)
  {
    result := "";
    var pos := 0;
    while true
      invariant pos <= |text| + 1
      invariant result + FormatFrom(text, pos) == FormatLayouts(text)
      decreases |text| + 1 - pos
    {
      var rest := Tail(text, pos);
      var layoutStart := FindHeader(rest, 0);
      if layoutStart.None? {
        result := result + rest;
        break;
      }
      var m := layoutStart.value;
      var formattedLayout, next := FormatFoundLayout(text, pos, m);
      AppendAssoc(result, rest[..m.start], formattedLayout, FormatFrom(text, next));
      result := result + rest[..m.start] + formattedLayout;
      pos := next;
    }
  }

  /** The text before the first header comes through unchanged, and it
      holds no match of the header pattern. */
  lemma TextBeforeHeaderKept(text: string)
    requires FindHeader(text, 0).Some?
    ensures var m := FindHeader(text, 0).value;
            |text[..m.start]| <= |FormatLayouts(text)| &&
            FormatLayouts(text)[..m.start] == text[..m.start] &&
            forall j :: 0 <= j < m.start ==> MatchAt(text, j).None?
  {
    TailSlice(text, 0);
    FindHeaderLeftmost(text, 0);
  }
}
