/** The keycode tokenizer of `format_single_layout`: the body of a
    `LAYOUT(...)` call is cut at the commas that are not nested inside
    parentheses, each piece is whitespace-stripped and empty pieces are
    dropped. */
module Tokenizer {
  import opened Text

  /** How one character moves the parenthesis counter. */
  function DepthStep(c: char): int {
    if c == '(' then 1 else if c == ')' then -1 else 0
  }

  /** The tokenizer's parenthesis counter after reading `s`: opening minus
      closing parentheses. It is not clamped, so a stray `)` makes it
      negative, and a comma read while it is negative does not separate. */
  function Depth(s: string): int
    decreases |s|
  {
    if s == [] then 0 else Depth(s[..|s| - 1]) + DepthStep(s[|s| - 1])
  }

  lemma DepthSnoc(s: string, c: char)
    ensures Depth(s + [c]) == Depth(s) + DepthStep(c)
  {
    assert (s + [c])[..|s|] == s;
  }

  lemma {:induction false} DepthAppend(a: string, b: string)
    ensures Depth(a + b) == Depth(a) + Depth(b)
    decreases |b|
  {
    if b == [] {
      assert a + b == a;
    } else {
      var b' := b[..|b| - 1];
      var c := b[|b| - 1];
      assert a + b == (a + b') + [c];
      assert b == b' + [c];
      DepthSnoc(a + b', c);
      DepthSnoc(b', c);
      DepthAppend(a, b');
    }
  }

  /** Position `i` of `s` holds a separating comma: a comma read while the
      counter is zero. */
  predicate IsSeparator(s: string, i: int) {
    0 <= i < |s| && s[i] == ',' && Depth(s[..i]) == 0
  }

  /** The raw pieces of `s` between separating commas, in order, before any
      stripping; there is always at least one (possibly empty) piece. */
  function Split(s: string): (pieces: seq<string>)
    ensures |pieces| >= 1
    decreases |s|
  {
    if s == [] then [[]]
    else
      var init := Split(s[..|s| - 1]);
      var c := s[|s| - 1];
      if c == ',' && Depth(s[..|s| - 1]) == 0 then init + [[]]
      else init[..|init| - 1] + [init[|init| - 1] + [c]]
  }

  /** Appends `c` to the last piece of `pieces`. */
  function ExtendLast(pieces: seq<string>, c: char): seq<string>
    requires |pieces| >= 1
  {
    pieces[..|pieces| - 1] + [pieces[|pieces| - 1] + [c]]
  }

  /** One more character either closes the current piece (a separating
      comma) or extends it. */
  lemma SplitSnoc(s: string, c: char)
    ensures Split(s + [c]) ==
      if c == ',' && Depth(s) == 0 then Split(s) + [[]] else ExtendLast(Split(s), c)
  {
    assert (s + [c])[..|s|] == s;
  }

  lemma ExtendLastAppend(xs: seq<string>, ys: seq<string>, c: char)
    requires |ys| >= 1
    ensures ExtendLast(xs + ys, c) == xs + ExtendLast(ys, c)
  {
    assert (xs + ys)[..|xs + ys| - 1] == xs + ys[..|ys| - 1];
  }

  lemma ExtendLastSnoc(pieces: seq<string>, current: string, c: char)
    ensures ExtendLast(pieces + [current], c) == pieces + [current + [c]]
  {
    assert (pieces + [current])[..|pieces|] == pieces;
  }

  /** Round trip: joining the pieces back with the separator gives the input
      back, so no character of the layout body is lost or reordered. */
  lemma {:induction false} JoinSplit(s: string)
    ensures Join(Split(s), ",") == s
    decreases |s|
  {
    if s != [] {
      var p := s[..|s| - 1];
      var c := s[|s| - 1];
      assert s == p + [c];
      var init := Split(p);
      SplitSnoc(p, c);
      JoinSplit(p);
      if c == ',' && Depth(p) == 0 {
        var ps := init + [[]];
        assert ps[..|ps| - 1] == init;
        assert Join(ps, ",") == Join(init, ",") + "," + [];
        assert Join(ps, ",") == p + [c];
      } else {
        var n := |init|;
        var ps := init[..n - 1] + [init[n - 1] + [c]];
        assert ps[..|ps| - 1] == init[..n - 1];
        if n > 1 {
          var front := Join(init[..n - 1], ",");
          assert Join(ps, ",") == front + "," + (init[n - 1] + [c]);
          assert Join(init, ",") == front + "," + init[n - 1];
          assert front + "," + (init[n - 1] + [c]) == front + "," + init[n - 1] + [c];
        }
        assert Join(ps, ",") == p + [c];
      }
    }
  }

  /** A comma read at depth zero cuts the body in two, and each side is split
      on its own. */
  lemma {:induction false} SplitAtSeparator(a: string, b: string)
    requires Depth(a) == 0
    ensures Split(a + [','] + b) == Split(a) + Split(b)
    decreases |b|
  {
    if b == [] {
      assert a + [','] + b == a + [','];
      SplitSnoc(a, ',');
    } else {
      var b' := b[..|b| - 1];
      var c := b[|b| - 1];
      var s' := a + [','] + b';
      assert a + [','] + b == s' + [c];
      assert b == b' + [c];
      SplitAtSeparator(a, b');
      DepthAppend(a + [','], b');
      DepthSnoc(a, ',');
      SplitSnoc(s', c);
      SplitSnoc(b', c);
      if !(c == ',' && Depth(b') == 0) {
        ExtendLastAppend(Split(a), Split(b'), c);
      }
    }
  }

  /** Text with no separating comma is one piece, whatever commas it holds
      inside parentheses: `MO(1)` or `LT(1, KC_A)` is never cut. */
  lemma {:induction false} SplitWhole(s: string)
    requires forall i :: !IsSeparator(s, i)
    ensures Split(s) == [s]
    decreases |s|
  {
    if s != [] {
      var p := s[..|s| - 1];
      var c := s[|s| - 1];
      assert s == p + [c];
      forall i | IsSeparator(p, i) ensures IsSeparator(s, i) {
        assert p[..i] == s[..i];
      }
      SplitWhole(p);
      assert !IsSeparator(s, |s| - 1);
      SplitSnoc(p, c);
    }
  }

  /** Stripping each piece and dropping those that strip to nothing. */
  function Clean(pieces: seq<string>): (keycodes: seq<string>)
    ensures |keycodes| <= |pieces|
    ensures forall k :: 0 <= k < |keycodes| ==> keycodes[k] != [] && IsStripped(keycodes[k])
    decreases |pieces|
  {
    if |pieces| == 0 then []
    else
      var t := Strip(pieces[|pieces| - 1]);
      Clean(pieces[..|pieces| - 1]) + (if t == [] then [] else [t])
  }

  lemma CleanSnoc(ps: seq<string>, p: string)
    ensures Clean(ps + [p]) == Clean(ps) + (if Strip(p) == [] then [] else [Strip(p)])
  {
    assert (ps + [p])[..|ps|] == ps;
  }

  lemma {:induction false} CleanAppend(p: seq<string>, q: seq<string>)
    ensures Clean(p + q) == Clean(p) + Clean(q)
    decreases |q|
  {
    if q == [] {
      assert p + q == p;
    } else {
      var q' := q[..|q| - 1];
      assert p + q == (p + q') + [q[|q| - 1]];
      assert q == q' + [q[|q| - 1]];
      CleanSnoc(p + q', q[|q| - 1]);
      CleanSnoc(q', q[|q| - 1]);
      CleanAppend(p, q');
    }
  }

  /** The keycodes of a layout body, in order: the stripped non-empty pieces.
      None is empty or carries surrounding whitespace, and there are no more
      of them than pieces. */
  function Keycodes(content: string): (keycodes: seq<string>)
  {
    Clean(Split(content))
  }

  /** Order is kept across a separating comma: the keycodes of the whole are
      those of the left part followed by those of the right part. */
  lemma KeycodesAtSeparator(a: string, b: string)
    requires Depth(a) == 0
    ensures Keycodes(a + [','] + b) == Keycodes(a) + Keycodes(b)
  {
    SplitAtSeparator(a, b);
    CleanAppend(Split(a), Split(b));
  }

  /** A body without separating commas yields at most one keycode: its
      stripped text, or nothing when it is all whitespace. */
  lemma KeycodesWhole(s: string)
    requires forall i :: !IsSeparator(s, i)
    ensures Keycodes(s) == if AllSpace(s) then [] else [Strip(s)]
  {
    SplitWhole(s);
    assert [s][..0] == [];
  }

  /** Every character of `s` is whitespace or a separating comma. */
  predicate Blank(s: string) {
    forall i :: 0 <= i < |s| ==> IsSpace(s[i]) || IsSeparator(s, i)
  }

  /** Every piece is whitespace only. */
  predicate AllPiecesSpace(pieces: seq<string>) {
    forall k :: 0 <= k < |pieces| ==> AllSpace(pieces[k])
  }

  lemma AllPiecesSnoc(pieces: seq<string>, p: string)
    ensures AllPiecesSpace(pieces + [p]) <==> AllPiecesSpace(pieces) && AllSpace(p)
  {
    var ps := pieces + [p];
    assert ps[|pieces|] == p;
    forall k | 0 <= k < |pieces| ensures ps[k] == pieces[k] {}
  }

  lemma AllSpaceSnoc(s: string, c: char)
    ensures AllSpace(s + [c]) <==> AllSpace(s) && IsSpace(c)
  {
    var t := s + [c];
    assert t[|s|] == c;
    forall k | 0 <= k < |s| ensures t[k] == s[k] {}
  }

  lemma AllPiecesExtendLast(pieces: seq<string>, c: char)
    requires |pieces| >= 1
    ensures AllPiecesSpace(ExtendLast(pieces, c)) <==> AllPiecesSpace(pieces) && IsSpace(c)
  {
    var n := |pieces|;
    var front := pieces[..n - 1];
    assert pieces == front + [pieces[n - 1]];
    AllPiecesSnoc(front, pieces[n - 1]);
    AllPiecesSnoc(front, pieces[n - 1] + [c]);
    AllSpaceSnoc(pieces[n - 1], c);
  }

  /** Cleaning drops everything exactly when every piece is whitespace. */
  lemma {:induction false} CleanEmpty(pieces: seq<string>)
    ensures Clean(pieces) == [] <==> AllPiecesSpace(pieces)
    decreases |pieces|
  {
    if pieces != [] {
      var front := pieces[..|pieces| - 1];
      var last := pieces[|pieces| - 1];
      assert pieces == front + [last];
      CleanEmpty(front);
      CleanSnoc(front, last);
      AllPiecesSnoc(front, last);
    }
  }

  lemma SeparatorSnoc(s: string, c: char, i: int)
    requires 0 <= i < |s|
    ensures IsSeparator(s + [c], i) == IsSeparator(s, i)
  {
    assert (s + [c])[..i] == s[..i];
  }

  lemma BlankSnoc(s: string, c: char)
    ensures Blank(s + [c]) <==> Blank(s) && (IsSpace(c) || (c == ',' && Depth(s) == 0))
  {
    var t := s + [c];
    assert t[..|s|] == s;
    forall i | 0 <= i < |s| ensures IsSpace(t[i]) || IsSeparator(t, i) <==> IsSpace(s[i]) || IsSeparator(s, i) {
      SeparatorSnoc(s, c, i);
    }
    if Blank(t) {
      assert IsSpace(t[|s|]) || IsSeparator(t, |s|);
    }
  }

  /** The pieces are all whitespace exactly when the text is: every
      character of it is whitespace or a separating comma. */
  lemma {:induction false} SplitBlank(s: string)
    ensures AllPiecesSpace(Split(s)) <==> Blank(s)
    decreases |s|
  {
    if s != [] {
      var p := s[..|s| - 1];
      var c := s[|s| - 1];
      assert s == p + [c];
      SplitBlank(p);
      SplitSnoc(p, c);
      BlankSnoc(p, c);
      if c == ',' && Depth(p) == 0 {
        AllPiecesSnoc(Split(p), []);
      } else {
        AllPiecesExtendLast(Split(p), c);
      }
    }
  }

  /** A body yields no keycode exactly when it holds nothing but whitespace
      and separating commas. */
  lemma KeycodesEmpty(content: string)
    ensures Keycodes(content) == [] <==> Blank(content)
  {
    CleanEmpty(Split(content));
    SplitBlank(content);
  }

  /** The tokenizer loop: reads the body one character at a time, keeping
      the parenthesis counter and the current token, and emits a stripped
      token at each separating comma and at the end. */
  method Tokenize(content: string) returns (keycodes: seq<string>)
    ensures keycodes == Keycodes(content)
    ensures forall k :: 0 <= k < |keycodes| ==> keycodes[k] != [] && IsStripped(keycodes[k])
  {
    keycodes := [];
    var current := "";
    var parenCount := 0;
    ghost var pieces: seq<string> := [];
    for i := 0 to |content|
      invariant parenCount == Depth(content[..i])
      invariant Split(content[..i]) == pieces + [current]
      invariant keycodes == Clean(pieces)
    {
      var c := content[i];
      if c == '(' {
        ExtendStep(content, i, pieces, current);
        parenCount := parenCount + 1;
        current := current + [c];
      } else if c == ')' {
        ExtendStep(content, i, pieces, current);
        parenCount := parenCount - 1;
        current := current + [c];
      } else if c == ',' && parenCount == 0 {
        SeparatorStep(content, i, pieces, current);
        var t := Strip(current);
        if t != [] {
          keycodes := keycodes + [t];
        }
        pieces := pieces + [current];
        current := "";
      } else {
        ExtendStep(content, i, pieces, current);
        current := current + [c];
      }
    }
    TokenizeEnd(content, pieces, current);
    var t := Strip(current);
    if t != [] {
      keycodes := keycodes + [t];
    }
    KeycodesStripped(content, keycodes);
  }

  lemma KeycodesStripped(content: string, keycodes: seq<string>)
    requires keycodes == Keycodes(content)
    ensures forall k :: 0 <= k < |keycodes| ==> keycodes[k] != [] && IsStripped(keycodes[k])
  {
  }

  /** At the end of the body the last token is emitted like the others. */
  lemma TokenizeEnd(content: string, pieces: seq<string>, current: string)
    requires Split(content[..|content|]) == pieces + [current]
    ensures Keycodes(content) == Clean(pieces) + (if Strip(current) == [] then [] else [Strip(current)])
  {
    assert content[..|content|] == content;
    CleanSnoc(pieces, current);
  }

  /** Reading a character other than a separating comma: the counter
      moves by it and it extends the current piece. */
  lemma ExtendStep(content: string, i: nat, pieces: seq<string>, current: string)
    requires i < |content| && Split(content[..i]) == pieces + [current]
    requires !(content[i] == ',' && Depth(content[..i]) == 0)
    ensures Depth(content[..i + 1]) == Depth(content[..i]) + DepthStep(content[i])
    ensures Split(content[..i + 1]) == pieces + [current + [content[i]]]
  {
    var c := content[i];
    PrefixSnoc(content, i);
    DepthSnoc(content[..i], c);
    SplitSnoc(content[..i], c);
    ExtendLastSnoc(pieces, current, c);
  }

  /** Reading a separating comma: the counter stays at zero, the current
      piece is closed, and its stripped text, if any, is the next token. */
  lemma SeparatorStep(content: string, i: nat, pieces: seq<string>, current: string)
    requires i < |content| && Split(content[..i]) == pieces + [current]
    requires content[i] == ',' && Depth(content[..i]) == 0
    ensures Depth(content[..i + 1]) == 0
    ensures Split(content[..i + 1]) == (pieces + [current]) + [[]]
    ensures Clean(pieces + [current]) == Clean(pieces) + (if Strip(current) == [] then [] else [Strip(current)])
  {
    PrefixSnoc(content, i);
    DepthSnoc(content[..i], ',');
    SplitSnoc(content[..i], ',');
    CleanSnoc(pieces, current);
  }

  // ---------------------------------------------------------------------
  // Joining keycodes back together
  // ---------------------------------------------------------------------

  /** `s` holds no separating comma. */
  predicate NoSeparator(s: string) {
    forall i :: 0 <= i < |s| ==> !IsSeparator(s, i)
  }

  /** Keycodes that `", ".join` can put back together without the tokenizer
      cutting them differently: each is non-empty, stripped and free of
      separating commas, and every one but the last is balanced. */
  predicate Rejoinable(keycodes: seq<string>) {
    (forall k :: 0 <= k < |keycodes| ==> keycodes[k] != [] && IsStripped(keycodes[k]) && NoSeparator(keycodes[k])) &&
    (forall k :: 0 <= k < |keycodes| - 1 ==> Depth(keycodes[k]) == 0)
  }

  lemma {:induction false} DepthAllSpace(w: string)
    requires AllSpace(w)
    ensures Depth(w) == 0
    decreases |w|
  {
    if w != [] {
      DepthAllSpace(w[..|w| - 1]);
    }
  }

  /** No piece holds a separating comma, every piece but the last is
      balanced, and the last has balance `depth`. */
  predicate PiecesShape(ps: seq<string>, depth: int) {
    |ps| >= 1 &&
    (forall k :: 0 <= k < |ps| ==> NoSeparator(ps[k])) &&
    (forall k :: 0 <= k < |ps| - 1 ==> Depth(ps[k]) == 0) &&
    Depth(ps[|ps| - 1]) == depth
  }

  /** The pieces of a split: none holds a separating comma, every piece but
      the last is balanced, and the last carries the balance of the whole. */
  lemma {:induction false} SplitShape(s: string)
    ensures PiecesShape(Split(s), Depth(s))
    decreases |s|
  {
    if s == [] {
      assert Split(s) == [[]];
    } else {
      var p := s[..|s| - 1];
      var c := s[|s| - 1];
      assert s == p + [c];
      SplitShape(p);
      SplitSnoc(p, c);
      DepthSnoc(p, c);
      if c == ',' && Depth(p) == 0 {
        ShapeAfterSeparator(Split(p));
      } else {
        ShapeAfterChar(Split(p), Depth(p), c);
      }
    }
  }

  /** A separating comma closes a balanced last piece and opens an empty one. */
  lemma ShapeAfterSeparator(ps: seq<string>)
    requires PiecesShape(ps, 0)
    ensures PiecesShape(ps + [[]], 0)
  {
    var qs := ps + [[]];
    assert qs[|ps|] == [];
    forall k | 0 <= k < |ps| ensures qs[k] == ps[k] {}
  }

  /** Any other character extends the last piece. */
  lemma ShapeAfterChar(ps: seq<string>, depth: int, c: char)
    requires PiecesShape(ps, depth) && !(c == ',' && depth == 0)
    ensures PiecesShape(ExtendLast(ps, c), depth + DepthStep(c))
  {
    var n := |ps|;
    var qs := ExtendLast(ps, c);
    var last := ps[n - 1];
    DepthSnoc(last, c);
    NoSeparatorSnoc(last, c);
    assert qs[n - 1] == last + [c];
    forall k | 0 <= k < n - 1 ensures qs[k] == ps[k] {}
  }

  /** A character that is not a separating comma adds no separator. */
  lemma NoSeparatorSnoc(last: string, c: char)
    requires NoSeparator(last) && !(c == ',' && Depth(last) == 0)
    ensures NoSeparator(last + [c])
  {
    forall i | 0 <= i < |last| + 1 ensures !IsSeparator(last + [c], i) {
      if i < |last| {
        assert (last + [c])[..i] == last[..i];
        assert !IsSeparator(last, i);
      } else {
        assert (last + [c])[..i] == last;
      }
    }
  }

  /** A separating comma of a part that starts at depth zero is one of the
      whole. */
  lemma SeparatorInside(w: string, r: string, rest: string, k: nat)
    requires Depth(w) == 0 && IsSeparator(r, k)
    ensures IsSeparator(w + r + rest, |w| + k)
  {
    var p := w + r + rest;
    assert p[..|w| + k] == w + r[..k];
    assert p[|w| + k] == r[k];
    DepthAppend(w, r[..k]);
  }

  /** Stripping keeps the balance and adds no separating comma. */
  lemma StripKeepsShape(p: string)
    ensures Depth(Strip(p)) == Depth(p)
    ensures NoSeparator(p) ==> NoSeparator(Strip(p))
  {
    StripTrims(p);
    var w1, w2 :| AllSpace(w1) && AllSpace(w2) && p == w1 + Strip(p) + w2;
    PaddedShape(w1, Strip(p), w2);
  }

  /** Whitespace around a text changes neither its balance nor its
      separating commas. */
  lemma PaddedShape(w1: string, r: string, w2: string)
    requires AllSpace(w1) && AllSpace(w2)
    ensures Depth(w1 + r + w2) == Depth(r)
    ensures NoSeparator(w1 + r + w2) ==> NoSeparator(r)
  {
    DepthAllSpace(w1);
    DepthAllSpace(w2);
    DepthAppend(w1 + r, w2);
    DepthAppend(w1, r);
    if NoSeparator(w1 + r + w2) {
      forall k | 0 <= k < |r| ensures !IsSeparator(r, k) {
        if IsSeparator(r, k) {
          SeparatorInside(w1, r, w2, k);
        }
      }
    }
  }

  /** Cleaning balanced pieces without separating commas gives balanced
      keycodes without separating commas. */
  lemma {:induction false} CleanBalanced(ps: seq<string>)
    requires forall k :: 0 <= k < |ps| ==> NoSeparator(ps[k]) && Depth(ps[k]) == 0
    ensures forall k :: 0 <= k < |Clean(ps)| ==> NoSeparator(Clean(ps)[k]) && Depth(Clean(ps)[k]) == 0
    decreases |ps|
  {
    if ps != [] {
      CleanBalanced(ps[..|ps| - 1]);
      StripKeepsShape(ps[|ps| - 1]);
    }
  }

  /** Whatever the body, its keycodes can be joined back together. */
  lemma KeycodesRejoinable(content: string)
    ensures Rejoinable(Keycodes(content))
  {
    var ps := Split(content);
    SplitShape(content);
    var init := ps[..|ps| - 1];
    CleanBalanced(init);
    StripKeepsShape(ps[|ps| - 1]);
    assert ps == init + [ps[|ps| - 1]];
    CleanSnoc(init, ps[|ps| - 1]);
    var t := Strip(ps[|ps| - 1]);
    RejoinableSnoc(Clean(init), if t == [] then [] else [t]);
  }

  /** Balanced keycodes followed by at most one more keycode, balanced or
      not, can be joined and read back. */
  lemma RejoinableSnoc(xs: seq<string>, ys: seq<string>)
    requires forall k :: 0 <= k < |xs| ==> xs[k] != [] && IsStripped(xs[k]) && NoSeparator(xs[k]) && Depth(xs[k]) == 0
    requires |ys| <= 1 && forall k :: 0 <= k < |ys| ==> ys[k] != [] && IsStripped(ys[k]) && NoSeparator(ys[k])
    ensures Rejoinable(xs + ys)
  {
    forall k | 0 <= k < |xs + ys|
      ensures (xs + ys)[k] != [] && IsStripped((xs + ys)[k]) && NoSeparator((xs + ys)[k])
    {
      if k < |xs| { assert (xs + ys)[k] == xs[k]; } else { assert (xs + ys)[k] == ys[k - |xs|]; }
    }
    forall k | 0 <= k < |xs + ys| - 1 ensures Depth((xs + ys)[k]) == 0 {
      assert (xs + ys)[k] == xs[k];
    }
  }

  /** Depth of keycodes joined with `", "`: the sum of theirs, so zero when
      each is balanced. */
  lemma {:induction false} DepthJoinBalanced(xs: seq<string>)
    requires forall k :: 0 <= k < |xs| ==> Depth(xs[k]) == 0
    ensures Depth(Join(xs, ", ")) == 0
    decreases |xs|
  {
    if |xs| > 1 {
      DepthJoinBalanced(xs[..|xs| - 1]);
      DepthAppend(Join(xs[..|xs| - 1], ", ") + ", ", xs[|xs| - 1]);
      DepthAppend(Join(xs[..|xs| - 1], ", "), ", ");
      assert Depth(", ") == 0 by { assert ", "[..1] == ","; assert ","[..0] == []; }
    }
  }

  /** Whitespace followed by one keycode is read back as that keycode. */
  lemma KeycodesPadded(pad: string, x: string)
    requires AllSpace(pad) && x != [] && IsStripped(x) && NoSeparator(x)
    ensures Keycodes(pad + x) == [x]
  {
    var s := pad + x;
    DepthAllSpace(pad);
    forall i | 0 <= i < |s| ensures !IsSeparator(s, i) {
      if i >= |pad| {
        assert s[..i] == pad + x[..i - |pad|];
        DepthAppend(pad, x[..i - |pad|]);
        assert !IsSeparator(x, i - |pad|);
      } else {
        assert s[i] == pad[i];
      }
    }
    KeycodesWhole(s);
    assert s[|pad|] == x[0];
    StripPadded(pad, x, []);
    assert s + [] == s;
  }

  /** Whitespace followed by balanced keycodes joined with `", "` is
      balanced. */
  lemma DepthPaddedJoin(pad: string, xs: seq<string>)
    requires AllSpace(pad)
    requires forall k :: 0 <= k < |xs| ==> Depth(xs[k]) == 0
    ensures Depth(pad + Join(xs, ", ")) == 0
  {
    DepthAllSpace(pad);
    DepthJoinBalanced(xs);
    DepthAppend(pad, Join(xs, ", "));
  }

  /** Joining one more keycode adds a separating comma and the keycode
      after a space. */
  lemma JoinSnocSplit(pad: string, keycodes: seq<string>)
    requires |keycodes| >= 2
    ensures pad + Join(keycodes, ", ") ==
            (pad + Join(keycodes[..|keycodes| - 1], ", ")) + [','] + (" " + keycodes[|keycodes| - 1])
  {
  }

  /** The tokenizer reads keycodes joined with `", "` (after any leading
      whitespace) back as the same keycodes. */
  lemma {:induction false} KeycodesOfJoin(pad: string, keycodes: seq<string>)
    requires AllSpace(pad) && Rejoinable(keycodes)
    ensures Keycodes(pad + Join(keycodes, ", ")) == keycodes
    decreases |keycodes|
  {
    var n := |keycodes|;
    if n == 0 {
      assert pad + Join(keycodes, ", ") == pad;
      assert NoSeparator(pad) by {
        forall i | 0 <= i < |pad| ensures !IsSeparator(pad, i) {
          assert pad[i] != ',';
        }
      }
      KeycodesWhole(pad);
    } else if n == 1 {
      KeycodesPadded(pad, keycodes[0]);
    } else {
      KeycodesOfJoin(pad, keycodes[..n - 1]);
      KeycodesOfJoinSnoc(pad, keycodes);
    }
  }

  /** The inductive step of `KeycodesOfJoin`: one more keycode after a
      separating comma. */
  lemma KeycodesOfJoinSnoc(pad: string, keycodes: seq<string>)
    requires AllSpace(pad) && Rejoinable(keycodes) && |keycodes| >= 2
    ensures Keycodes(pad + Join(keycodes[..|keycodes| - 1], ", ")) == keycodes[..|keycodes| - 1] ==>
            Keycodes(pad + Join(keycodes, ", ")) == keycodes
  {
    var n := |keycodes|;
    var init := keycodes[..n - 1];
    var a := pad + Join(init, ", ");
    var b := " " + keycodes[n - 1];
    JoinSnocSplit(pad, keycodes);
    DepthPaddedJoin(pad, init);
    KeycodesAtSeparator(a, b);
    KeycodesPadded(" ", keycodes[n - 1]);
    FrontLast(keycodes);
  }

  /** Round trip of the tokenizer: joining the keycodes of any body with
      `", "` and reading the result again gives the same keycodes. */
  lemma KeycodesJoinRoundTrip(pad: string, content: string)
    requires AllSpace(pad)
    ensures Keycodes(pad + Join(Keycodes(content), ", ")) == Keycodes(content)
  {
    KeycodesRejoinable(content);
    KeycodesOfJoin(pad, Keycodes(content));
  }
}
