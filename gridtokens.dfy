/** Reading a full layout back: the five lines `format_full_layout` builds,
    joined with newlines as `format_single_layout` writes them, are read by
    the tokenizer as the 58 keycodes they were built from, in order. Every
    padded cell is a keycode, a comma and blanks; the thumb row is the
    keycodes joined with `", "`. */
module GridTokens {
  import opened Text
  import opened Tokenizer
  import opened Grid

  /** A keycode the tokenizer reads back as itself wherever whitespace and
      separating commas surround it: non-empty, stripped, balanced and
      without a separating comma. */
  predicate SoundKey(k: string) {
    k != [] && IsStripped(k) && NoSeparator(k) && Depth(k) == 0
  }

  /** `cell` is `key`, a comma, then blanks only: the shape of every padded
      cell of the grid. */
  predicate KeyCell(cell: string, key: string) {
    |key| < |cell| && cell[..|key| + 1] == key + [','] && AllSpace(cell[|key| + 1..])
  }

  lemma AllSpaceAppend(a: string, b: string)
    requires AllSpace(a) && AllSpace(b)
    ensures AllSpace(a + b)
  {
    forall k | 0 <= k < |a + b| ensures IsSpace((a + b)[k]) {
      if k < |a| { assert (a + b)[k] == a[k]; } else { assert (a + b)[k] == b[k - |a|]; }
    }
  }

  /** A key padded with `ljust` behind a comma and blanks is a key cell. */
  lemma PaddedCell(key: string, sep: string, w: int)
    requires |sep| >= 1 && sep[0] == ',' && AllSpace(sep[1..])
    ensures KeyCell(LJust(key + sep, w), key)
  {
    var c := LJust(key + sep, w);
    var s := key + sep;
    assert c[..|s|] == s;
    assert c[..|key| + 1] == s[..|key| + 1] == key + [','];
    var trail := c[|key| + 1..];
    forall k | 0 <= k < |trail| ensures IsSpace(trail[k]) {
      assert trail[k] == c[|key| + 1 + k];
      if |key| + 1 + k < |s| {
        assert c[|key| + 1 + k] == s[|key| + 1 + k] == sep[1..][k];
      }
    }
  }

  /** A key after blanks, then a separating comma: the key is read, and
      reading goes on after the comma. */
  lemma KeycodesCons(lead: string, k: string, more: string)
    requires AllSpace(lead) && SoundKey(k)
    ensures Keycodes(lead + k + [','] + more) == [k] + Keycodes(more)
  {
    DepthAllSpace(lead);
    DepthAppend(lead, k);
    KeycodesAtSeparator(lead + k, more);
    KeycodesPadded(lead, k);
  }

  lemma Regroup(lead: string, c: string, k: string, trail: string, others: string, rest: string)
    requires c == k + [','] + trail
    ensures lead + (c + others) + rest == lead + k + [','] + (trail + others + rest)
  {
  }

  /** The first cell of a list splits into its key, its comma and its
      blanks. */
  lemma SplitCell(c: string, k: string)
    requires KeyCell(c, k)
    ensures c == k + [','] + c[|k| + 1..] && AllSpace(c[|k| + 1..])
  {
    assert c == c[..|k| + 1] + c[|k| + 1..];
  }

  lemma ListAssoc(a: seq<string>, b: seq<string>, c: seq<string>)
    ensures a + (b + c) == a + b + c
  {
  }

  /** `cells` are cells of `keys`, in order, and every key is sound. */
  predicate CellsOf(cells: seq<string>, keys: seq<string>) {
    |cells| == |keys| && forall j :: 0 <= j < |cells| ==> KeyCell(cells[j], keys[j]) && SoundKey(keys[j])
  }

  lemma CellsOfAppend(a: seq<string>, ka: seq<string>, b: seq<string>, kb: seq<string>)
    requires CellsOf(a, ka) && CellsOf(b, kb)
    ensures CellsOf(a + b, ka + kb)
  {
    forall j | 0 <= j < |a + b| ensures KeyCell((a + b)[j], (ka + kb)[j]) && SoundKey((ka + kb)[j]) {
      if j < |a| {
        assert (a + b)[j] == a[j] && (ka + kb)[j] == ka[j];
      } else {
        assert (a + b)[j] == b[j - |a|] && (ka + kb)[j] == kb[j - |a|];
      }
    }
  }

  lemma CellsOfTail(cells: seq<string>, keys: seq<string>)
    requires CellsOf(cells, keys) && cells != []
    ensures CellsOf(cells[1..], keys[1..])
  {
    assert forall j :: 0 <= j < |cells| - 1 ==> cells[1..][j] == cells[j + 1] && keys[1..][j] == keys[j + 1];
  }

  lemma HeadTail(keys: seq<string>)
    requires keys != []
    ensures keys == [keys[0]] + keys[1..]
  {
  }

  /** The first cell of a list, after blanks: its key is read, and reading
      goes on in its blanks. */
  lemma FirstCell(lead: string, cells: seq<string>, keys: seq<string>, rest: string)
    requires AllSpace(lead) && CellsOf(cells, keys) && cells != []
    ensures |keys[0]| + 1 <= |cells[0]| && AllSpace(cells[0][|keys[0]| + 1..])
    ensures Keycodes(lead + Concat(cells) + rest) ==
            [keys[0]] + Keycodes(cells[0][|keys[0]| + 1..] + Concat(cells[1..]) + rest)
  {
    var c, k := cells[0], keys[0];
    SplitCell(c, k);
    var trail := c[|k| + 1..];
    var others := Concat(cells[1..]);
    ConcatCons(cells);
    Regroup(lead, c, k, trail, others, rest);
    KeycodesCons(lead, k, trail + others + rest);
  }

  /** Cells of keys, after leading blanks: each key is read back in turn,
      and reading goes on in the blanks after the last cell. */
  lemma {:induction false} KeycodesOfCells(lead: string, cells: seq<string>, keys: seq<string>, rest: string)
    returns (w: string)
    requires AllSpace(lead) && CellsOf(cells, keys)
    ensures AllSpace(w)
    ensures Keycodes(lead + Concat(cells) + rest) == keys + Keycodes(w + rest)
    decreases |cells|
  {
    if cells == [] {
      w := lead;
      assert lead + Concat(cells) + rest == lead + rest;
      assert keys + Keycodes(w + rest) == Keycodes(w + rest);
    } else {
      FirstCell(lead, cells, keys, rest);
      var trail := cells[0][|keys[0]| + 1..];
      var cs, ks := cells[1..], keys[1..];
      CellsOfTail(cells, keys);
      w := KeycodesOfCells(trail, cs, ks, rest);
      HeadTail(keys);
      ListAssoc([keys[0]], ks, Keycodes(w + rest));
    }
  }

  lemma Regroup2(lead: string, pre: string, left: string, mid: string, right: string, rest: string)
    ensures lead + (pre + left + (mid + right)) + rest == (lead + pre) + left + (mid + right + rest)
  {
  }

  /** Two groups of cells, each after blanks: the keys of the first, then
      those of the second, are read back. */
  lemma TwoGroups(lead: string, pre: string, left: seq<string>, leftKeys: seq<string>,
                  mid: string, right: seq<string>, rightKeys: seq<string>, rest: string)
    returns (w: string)
    requires AllSpace(lead) && AllSpace(pre) && AllSpace(mid)
    requires CellsOf(left, leftKeys) && CellsOf(right, rightKeys)
    ensures AllSpace(w)
    ensures Keycodes(lead + (pre + Concat(left) + (mid + Concat(right))) + rest) ==
            leftKeys + rightKeys + Keycodes(w + rest)
  {
    var cl, cr := Concat(left), Concat(right);
    Regroup2(lead, pre, cl, mid, cr, rest);
    AllSpaceAppend(lead, pre);
    var w1 := KeycodesOfCells(lead + pre, left, leftKeys, mid + cr + rest);
    Regroup3(w1, mid, cr, rest);
    AllSpaceAppend(w1, mid);
    w := KeycodesOfCells(w1 + mid, right, rightKeys, rest);
    calc {
      Keycodes(lead + (pre + cl + (mid + cr)) + rest);
      Keycodes((lead + pre) + cl + (mid + cr + rest));
      leftKeys + Keycodes(w1 + (mid + cr + rest));
      leftKeys + Keycodes((w1 + mid) + cr + rest);
      leftKeys + (rightKeys + Keycodes(w + rest));
      { ListAssoc(leftKeys, rightKeys, Keycodes(w + rest)); }
      leftKeys + rightKeys + Keycodes(w + rest);
    }
  }

  lemma Regroup3(w: string, mid: string, cr: string, rest: string)
    ensures w + (mid + cr + rest) == (w + mid) + cr + rest
  {
  }

  lemma LeftCellsOf(row: seq<string>, lw: seq<nat>)
    requires |row| >= 6 && |lw| == 6 && forall j :: 0 <= j < |row| ==> SoundKey(row[j])
    ensures CellsOf(LeftCells(row, lw, 6), row[..6])
  {
    LeftKeyCells(row, lw);
  }

  lemma Row4LeftCellsOf(row: seq<string>, lw: seq<nat>)
    requires |row| >= 6 && |lw| == 6 && forall j :: 0 <= j < |row| ==> SoundKey(row[j])
    ensures CellsOf(Row4LeftCells(row, lw, 6), row[..6])
  {
    Row4LeftKeyCells(row, lw);
  }

  lemma RightCellsOf(half: seq<string>, rw: seq<nat>)
    requires |half| == 6 && |rw| == 6 && forall j :: 0 <= j < |half| ==> SoundKey(half[j])
    ensures CellsOf(RightCells(half, rw, 6), half)
  {
    RightKeyCells(half, rw);
  }

  lemma MiddleCellsOf(row: seq<string>)
    requires |row| >= 8 && SoundKey(row[6]) && SoundKey(row[7])
    ensures CellsOf(MiddleCells(row[6], row[7]), row[6..8])
  {
    MiddleKeyCells(row[6], row[7]);
  }

  lemma LeftKeyCells(row: seq<string>, lw: seq<nat>)
    requires |row| >= 6 && |lw| == 6
    ensures forall j :: 0 <= j < 6 ==> KeyCell(LeftCells(row, lw, 6)[j], row[j])
  {
    forall j | 0 <= j < 6 ensures KeyCell(LeftCells(row, lw, 6)[j], row[j]) {
      LeftCellsAt(row, lw, 6, j);
      if j < 5 { PaddedCell(row[j], ",   ", lw[j] + 4); } else { PaddedCell(row[j], ",", lw[j] + 1); }
    }
  }

  lemma Row4LeftKeyCells(row: seq<string>, lw: seq<nat>)
    requires |row| >= 6 && |lw| == 6
    ensures forall j :: 0 <= j < 6 ==> KeyCell(Row4LeftCells(row, lw, 6)[j], row[j])
  {
    forall j | 0 <= j < 6 ensures KeyCell(Row4LeftCells(row, lw, 6)[j], row[j]) {
      Row4LeftCellsAt(row, lw, 6, j);
      if j < 5 { PaddedCell(row[j], ",  ", lw[j] + 4); } else { PaddedCell(row[j], ",  ", lw[j] + 2); }
    }
  }

  lemma RightKeyCells(half: seq<string>, rw: seq<nat>)
    requires |half| >= 6 && |rw| == 6
    ensures forall j :: 0 <= j < 6 ==> KeyCell(RightCells(half, rw, 6)[j], half[j])
  {
    forall j | 0 <= j < 6 ensures KeyCell(RightCells(half, rw, 6)[j], half[j]) {
      RightCellsAt(half, rw, 6, j);
      if j < 5 { PaddedCell(half[j], ",   ", rw[j] + 4); } else { PaddedCell(half[j], ",", 0); }
    }
  }

  lemma MiddleKeyCells(m0: string, m1: string)
    ensures KeyCell(MiddleCells(m0, m1)[0], m0) && KeyCell(MiddleCells(m0, m1)[1], m1)
  {
    var mw := if |m0| < |m1| then |m1| else |m0|;
    PaddedCell(m0, ", ", mw + 2);
    PaddedCell(m1, ",  ", mw + 2);
  }

  /** One of rows 1 to 3, after blanks: its twelve keys are read back, and
      reading goes on in the blanks after its last cell. */
  lemma StandardLineKeycodes(lead: string, row: seq<string>, lw: seq<nat>, rw: seq<nat>, rest: string)
    returns (w: string)
    requires AllSpace(lead) && |row| == 12 && |lw| == 6 && |rw| == 6
    requires forall j :: 0 <= j < 12 ==> SoundKey(row[j])
    ensures AllSpace(w)
    ensures Keycodes(lead + StandardLine(row, lw, rw) + rest) == row + Keycodes(w + rest)
  {
    var left, right := LeftCells(row, lw, 6), RightCells(row[6..], rw, 6);
    assert CellsOf(left, row[..6]) && CellsOf(right, row[6..]) by {
      LeftCellsOf(row, lw);
      RightCellsOf(row[6..], rw);
    }
    assert row[..6] + row[6..] == row;
    w := TwoGroups(lead, "  ", left, row[..6], Spaces(HalfGap), right, row[6..], rest);
  }

  /** Row 4, after blanks: its fourteen keys are read back, left half,
      middle keys and right half in order. */
  lemma Row4LineKeycodes(lead: string, row: seq<string>, lw: seq<nat>, rw: seq<nat>, rest: string)
    returns (w: string)
    requires AllSpace(lead) && |row| == 14 && |lw| == 6 && |rw| == 6
    requires forall j :: 0 <= j < 14 ==> SoundKey(row[j])
    ensures AllSpace(w)
    ensures Keycodes(lead + Row4Line(row, lw, rw) + rest) == row + Keycodes(w + rest)
  {
    var left, middle, right := Row4LeftCells(row, lw, 6), MiddleCells(row[6], row[7]), RightCells(row[8..], rw, 6);
    assert CellsOf(left, row[..6]) && CellsOf(middle + right, row[6..8] + row[8..]) by {
      Row4LeftCellsOf(row, lw);
      MiddleCellsOf(row);
      RightCellsOf(row[8..], rw);
      CellsOfAppend(middle, row[6..8], right, row[8..]);
    }
    assert Row4Line(row, lw, rw) == "  " + Concat(left) + ([] + Concat(middle + right)) by {
      Row4LineGroups(row, lw, rw);
    }
    assert row[..6] + (row[6..8] + row[8..]) == row by {
      Pieces(row, 6, 8);
    }
    w := TwoGroups(lead, "  ", left, row[..6], [], middle + right, row[6..8] + row[8..], rest);
  }

  /** Row 4 as two groups: the left cells, then the middle and right cells together. */
  lemma Row4LineGroups(row: seq<string>, lw: seq<nat>, rw: seq<nat>)
    requires |row| == 14 && |lw| == 6 && |rw| == 6
    ensures var middle, right := MiddleCells(row[6], row[7]), RightCells(row[8..], rw, 6);
            Row4Line(row, lw, rw) == "  " + Concat(Row4LeftCells(row, lw, 6)) + ([] + Concat(middle + right))
  {
    var middle, right := MiddleCells(row[6], row[7]), RightCells(row[8..], rw, 6);
    ConcatPrefix(middle + right, 2);
    assert (middle + right)[..2] == middle && (middle + right)[2..] == right;
    assert [] + Concat(middle + right) == Concat(middle) + Concat(right);
  }

  lemma Pieces(xs: seq<string>, i: nat, j: nat)
    requires i <= j <= |xs|
    ensures xs[..i] + (xs[i..j] + xs[j..]) == xs
  {
    assert xs[i..j] + xs[j..] == xs[i..];
    assert xs[..i] + xs[i..] == xs;
  }

  lemma Assoc(a: string, b: string, c: string)
    ensures a + b + c == a + (b + c)
  {
  }

  lemma Shift(a: string, b: string, c: string, d: string)
    ensures a + b + c + d == a + (b + c + d)
  {
  }

  lemma JoinLast(xs: seq<string>, sep: string)
    requires |xs| >= 2
    ensures Join(xs, sep) == Join(xs[..|xs| - 1], sep) + sep + xs[|xs| - 1]
  {
  }

  lemma JoinFive(xs: seq<string>, sep: string)
    requires |xs| == 5
    ensures Join(xs, sep) == xs[0] + (sep + xs[1] + (sep + xs[2] + (sep + xs[3] + (sep + xs[4]))))
  {
    var t4 := sep + xs[4];
    var t3 := sep + xs[3] + t4;
    var t2 := sep + xs[2] + t3;
    var j1, j2, j3, j4 := Join(xs[..1], sep), Join(xs[..2], sep), Join(xs[..3], sep), Join(xs[..4], sep);
    JoinLast(xs, sep);
    JoinLast(xs[..4], sep);
    JoinLast(xs[..3], sep);
    JoinLast(xs[..2], sep);
    assert xs[..4][..3] == xs[..3] && xs[..3][..2] == xs[..2] && xs[..2][..1] == xs[..1];
    assert j1 == xs[0];
    Assoc(j4, sep, xs[4]);
    Shift(j3, sep, xs[3], t4);
    Shift(j2, sep, xs[2], t3);
    Shift(xs[0], sep, xs[1], t2);
    calc {
      Join(xs, sep);
      j4 + sep + xs[4];
      j4 + t4;
      j3 + sep + xs[3] + t4;
      j3 + t3;
      j2 + sep + xs[2] + t3;
      j2 + t2;
      xs[0] + sep + xs[1] + t2;
      xs[0] + (sep + xs[1] + t2);
    }
  }

  /** After blanks, a newline and the next line: reading goes on with the
      blanks and the newline in front of that line. */
  lemma NewlineLead(w: string)
    requires AllSpace(w)
    ensures AllSpace(w + "\n")
  {
    AllSpaceAppend(w, "\n");
  }

  /** The five lines of the grid, joined with newlines, read back as the
      keys of the rows in order. */
  lemma LinesKeycodes(l0: string, l1: string, l2: string, l3: string, l4: string,
                      r0: seq<string>, r1: seq<string>, r2: seq<string>, r3: seq<string>, r5: seq<string>,
                      lw: seq<nat>, rw: seq<nat>)
    requires |r0| == 12 && |r1| == 12 && |r2| == 12 && |r3| == 14 && |lw| == 6 && |rw| == 6
    requires forall j :: 0 <= j < 12 ==> SoundKey(r0[j]) && SoundKey(r1[j]) && SoundKey(r2[j])
    requires forall j :: 0 <= j < 14 ==> SoundKey(r3[j])
    requires Rejoinable(r5)
    requires l0 == StandardLine(r0, lw, rw) && l1 == StandardLine(r1, lw, rw) && l2 == StandardLine(r2, lw, rw)
    requires l3 == Row4Line(r3, lw, rw) && l4 == Spaces(ThumbIndent) + Join(r5, ", ")
    ensures Keycodes(l0 + ("\n" + l1 + ("\n" + l2 + ("\n" + l3 + ("\n" + l4))))) == r0 + r1 + r2 + r3 + r5
  {
    var t4 := "\n" + l4;
    var t3 := "\n" + l3 + t4;
    var t2 := "\n" + l2 + t3;
    var t1 := "\n" + l1 + t2;
    assert l0 + t1 == [] + l0 + t1;
    var w0 := StandardLineKeycodes([], r0, lw, rw, t1);
    Shift(w0, "\n", l1, t2);
    NewlineLead(w0);
    var w1 := StandardLineKeycodes(w0 + "\n", r1, lw, rw, t2);
    Shift(w1, "\n", l2, t3);
    NewlineLead(w1);
    var w2 := StandardLineKeycodes(w1 + "\n", r2, lw, rw, t3);
    Shift(w2, "\n", l3, t4);
    NewlineLead(w2);
    var w3 := Row4LineKeycodes(w2 + "\n", r3, lw, rw, t4);
    var pad := w3 + "\n" + Spaces(ThumbIndent);
    Shift(w3, "\n", Spaces(ThumbIndent), Join(r5, ", "));
    Assoc("\n", Spaces(ThumbIndent), Join(r5, ", "));
    assert w3 + t4 == pad + Join(r5, ", ");
    NewlineLead(w3);
    AllSpaceAppend(w3 + "\n", Spaces(ThumbIndent));
    KeycodesOfJoin(pad, r5);
    ListAssoc(r0, r1, Keycodes(w1 + t2));
    ListAssoc(r0 + r1, r2, Keycodes(w2 + t3));
    ListAssoc(r0 + r1 + r2, r3, Keycodes(w3 + t4));
    calc {
      Keycodes(l0 + t1);
      r0 + Keycodes(w0 + t1);
      r0 + Keycodes((w0 + "\n") + l1 + t2);
      r0 + (r1 + Keycodes(w1 + t2));
      r0 + r1 + Keycodes((w1 + "\n") + l2 + t3);
      r0 + r1 + (r2 + Keycodes(w2 + t3));
      r0 + r1 + r2 + Keycodes((w2 + "\n") + l3 + t4);
      r0 + r1 + r2 + (r3 + Keycodes(w3 + t4));
      r0 + r1 + r2 + r3 + Keycodes(pad + Join(r5, ", "));
      r0 + r1 + r2 + r3 + r5;
    }
  }

  /** Every keycode of a rejoinable list but the last is sound. */
  lemma SoundSlice(xs: seq<string>, i: nat, j: nat)
    requires Rejoinable(xs) && i <= j < |xs|
    ensures forall k :: 0 <= k < j - i ==> SoundKey(xs[i..j][k])
  {
    forall k | 0 <= k < j - i ensures SoundKey(xs[i..j][k]) {
      assert xs[i..j][k] == xs[i + k];
    }
  }

  lemma RejoinableTail(xs: seq<string>, i: nat)
    requires Rejoinable(xs) && i <= |xs|
    ensures Rejoinable(xs[i..])
  {
    forall k | 0 <= k < |xs| - i ensures xs[i..][k] == xs[i + k] {}
  }

  /** The first 58 keycodes are the rows of the grid, in order. */
  lemma RowsInOrder(kc: seq<string>)
    requires |kc| >= FullKeys
    ensures kc[..FullKeys] == GridRow(kc, 0) + GridRow(kc, 1) + GridRow(kc, 2) + GridRow(kc, 3) + kc[50..58]
  {
  }

  /** Round trip of the grid: the lines `format_full_layout` builds for 58
      or more keycodes, joined with newlines, are read back by the tokenizer
      as the first 58 keycodes, each at its place. */
  lemma FullLayoutKeepsKeycodes(kc: seq<string>)
    requires |kc| >= FullKeys && Rejoinable(kc[..FullKeys])
    ensures Keycodes(Join(FullLayout(kc), "\n")) == kc[..FullKeys]
  {
    var lines := FullLayout(kc);
    var lw, rw := LeftWidths(kc), RightWidths(kc);
    var r0, r1, r2, r3, r5 := GridRow(kc, 0), GridRow(kc, 1), GridRow(kc, 2), GridRow(kc, 3), kc[50..58];
    StandardLineOf(kc, 0);
    StandardLineOf(kc, 1);
    StandardLineOf(kc, 2);
    Row4LineOf(kc);
    ThumbLineOf(kc);
    RowsInOrder(kc);
    var first := kc[..FullKeys];
    SoundSlice(first, 0, 12);
    SoundSlice(first, 12, 24);
    SoundSlice(first, 24, 36);
    SoundSlice(first, 36, 50);
    RejoinableTail(first, 50);
    assert r0 == first[0..12] && r1 == first[12..24] && r2 == first[24..36];
    assert r3 == first[36..50] && r5 == first[50..];
    JoinFive(lines, "\n");
    LinesKeycodes(lines[0], lines[1], lines[2], lines[3], lines[4], r0, r1, r2, r3, r5, lw, rw);
  }

  lemma RejoinablePrefix(xs: seq<string>, n: nat)
    requires Rejoinable(xs) && n <= |xs|
    ensures Rejoinable(xs[..n])
  {
    forall k | 0 <= k < n ensures xs[..n][k] == xs[k] {}
  }

  /** A layout of 58 keycodes or more is written as the grid, and reading
      the grid again gives back its first 58 keycodes, in order; the rest
      are not written. */
  lemma LongLayoutKeepsKeycodes(content: string)
    requires |Keycodes(content)| >= FullKeys
    ensures Keycodes(Join(FullLayout(Keycodes(content)), "\n")) == Keycodes(content)[..FullKeys]
  {
    var keycodes := Keycodes(content);
    KeycodesRejoinable(content);
    RejoinablePrefix(keycodes, FullKeys);
    FullLayoutKeepsKeycodes(keycodes);
  }
}
