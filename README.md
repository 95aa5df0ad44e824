# Keymap formatter, modelled in Dafny

This project models `format.py`, the pretty-printer of a Lily58 keyboard
keymap. It reads the C source of `keymap.c` and finds the
`const uint16_t PROGMEM keymaps[][MATRIX_ROWS][MATRIX_COLS] = {` … `};`
block. Inside that block it finds every layer's `[_NAME] = LAYOUT(` header,
cuts out the layout body up to the matching `)`, and splits the body into
keycodes. It then lays the keycodes out again: the Lily58 grid when there are
58 or more of them, one line otherwise.

The modules follow the functions of the script:

- `Text`: the Python string operations the script uses: `strip`, `join`,
  `ljust`, `replace`, the search for a literal, and the `\s`/`\w` classes.
- `Tokenizer`: the keycode tokenizer of `format_single_layout`. It has a
  specification (`Split`, `Clean`, `Keycodes`) and the character loop
  `Tokenize`, proved equal to it.
- `Grid`: `format_full_layout`. Its loops are methods proved against
  `FullLayout`. The lemmas state what the layout promises: the line count,
  column widths that are maxima, and columns that line up.
- `Header`: the layer-header regular expression. It is written out as the
  backtracking engine resolves it: a leftmost match, the optional comment
  group tried first, and a lazy `.*?` that stops at the first comment close
  after which a header follows.
- `Layouts`: `find_and_format_layouts`, the parenthesis matcher and
  `format_single_layout`. The loops are methods proved against the functions
  `FormatLayouts`, `ContentEnd` and `SingleLayout`.
- `Keymap`: `format_keymap_file_content`. The `re.sub` scan over the source is
  a loop proved against `FormatKeymapFile`.
- `GridTokens`: the round trip of the grid. The lines `format_full_layout`
  writes are read back by the tokenizer as the keycodes they were built from.

Two behaviours of the code come out of the proofs:

- The `MO(1)`/`MO(2)`/`MO(3)` renaming in `format_single_layout` never changes
  a declaration the header search captures (`Layouts.DeclarationRenameInert`).
  A header can hold no `)`, so it can hold no `MO(n)`.
- When a `LAYOUT(` has no matching `)`, the body is taken as empty and `)` is
  written after the header (`Layouts.UnclosedLayout`). The character right
  after the `(` is skipped and does not reach the output. If the character
  after that one is a `,`, it becomes the layout's comma and is skipped too.
  If `LAYOUT(` ends the text, there is nothing to skip.
- When the comment group is missing, the declaration is written stripped, so
  the line break and indent before `[` are lost: `"),\n  [_B] = LAYOUT(a)"`
  becomes `"),[_B] = LAYOUT(\n  a\n)"` (format.py:144-145,
  `Layouts.HeaderStrip`).

## Model

| member | source | states |
|---|---|---|
| Text.Strip | format.py:97 | `str.strip()`: the result has no whitespace at either end, and it is empty exactly when the input is all whitespace |
| Text.StripTrims | format.py:97 | stripping removes only whitespace, and only from the two ends: the input is whitespace, the result, whitespace |
| Text.StripPadded | format.py:116-117 | a stripped non-empty text surrounded by whitespace strips back to itself |
| Text.StripSlice | format.py:97 | stripping a slice that starts with a whitespace run drops exactly that run |
| Text.LJust | format.py:199 | `ljust(w)` has length `max(w, len)`, keeps the text as its prefix, and pads with spaces only |
| Text.Join | format.py:134 | `sep.join(xs)` with an empty separator is the parts end to end |
| Text.JoinLength | format.py:134 | the length of `sep.join(xs)` is the lengths of the parts plus one separator between each two |
| Text.ReplaceAbsent | format.py:98-100 | `replace` changes nothing where the pattern does not occur |
| Text.ReplaceLeftmost | format.py:98-100 | `replace` rewrites the leftmost occurrence, keeps the text before it, and goes on after it |
| Text.Replace | format.py:98-100 | `replace` keeps the length when the replacement is as long as the pattern, and replacing a pattern by itself changes nothing |
| Text.IndexOf | format.py:10-13 | the search for a literal returns -1 or an index from which the literal fits |
| Text.IndexOfFirst | format.py:10-13 | the index found holds the literal and no earlier index does; -1 means the literal occurs nowhere |
| Tokenizer.DepthAppend | format.py:105-113 | the parenthesis counter over two texts is the sum of the counts of each |
| Tokenizer.Split | format.py:107-120 | the body cut at separating commas has at least one piece |
| Tokenizer.JoinSplit | format.py:107-120 | joining the pieces back with `,` gives the body: no character is lost or reordered |
| Tokenizer.SplitAtSeparator | format.py:114-118 | a comma read at depth zero cuts the body in two, and each side is split on its own |
| Tokenizer.SplitWhole | format.py:108-113 | text without a separating comma is one piece, even with commas inside parentheses |
| Tokenizer.SplitShape | format.py:105-120 | no piece holds a separating comma, every piece but the last is balanced, and the last carries the balance of the whole |
| Tokenizer.Clean | format.py:116-124 | each kept token is non-empty and stripped, and there are no more tokens than pieces |
| Tokenizer.CleanAppend | format.py:116-124 | cleaning is done piece by piece, in order |
| Tokenizer.CleanEmpty | format.py:116-124 | no token is kept exactly when every piece is whitespace |
| Tokenizer.SplitBlank | format.py:107-120 | every piece is whitespace exactly when every character is whitespace or a separating comma |
| Tokenizer.KeycodesEmpty | format.py:103-127 | a body yields no keycode exactly when it holds only whitespace and separating commas |
| Tokenizer.KeycodesAtSeparator | format.py:114-118 | the keycodes around a separating comma are those of the left part, then those of the right part |
| Tokenizer.KeycodesWhole | format.py:122-124 | a body without a separating comma gives its stripped text, or nothing when it is all whitespace |
| Tokenizer.Tokenize | format.py:103-124 | the character loop returns exactly `Keycodes(content)`, each token non-empty and stripped |
| Tokenizer.StripKeepsShape | format.py:116-117 | stripping a token keeps its balance and adds no separating comma |
| Tokenizer.CleanBalanced | format.py:116-124 | cleaning balanced pieces without separators gives balanced keycodes without separators |
| Tokenizer.KeycodesRejoinable | format.py:103-124 | every body's keycodes are non-empty, stripped and free of separators, and all but the last are balanced |
| Tokenizer.KeycodesPadded | format.py:134 | whitespace followed by one keycode reads back as that keycode |
| Tokenizer.KeycodesOfJoin | format.py:134 | keycodes joined with `", "` after leading whitespace read back as the same keycodes |
| Tokenizer.KeycodesJoinRoundTrip | format.py:134 | round trip: the one-line fallback of any body tokenizes back to the body's keycodes |
| Grid.LeftColumns | format.py:164 | four rows of six left keys |
| Grid.RightColumns | format.py:165 | four rows of six right keys; row 4's right half skips its two middle keys |
| Grid.ColumnWidthIsMax | format.py:171-172 | a column width bounds every key of the column and equals the length of one of them |
| Grid.Widths | format.py:167-174 | after `n` rounds there are `n` widths |
| Grid.WidthsAt | format.py:173-174 | width `j` is the maximum over column `j` |
| Grid.ColumnWidth | format.py:171-172 | the width of a column is at least the length of each of its keys |
| Grid.ComputeWidths | format.py:167-174 | the widths loop computes the six left and the six right column widths |
| Grid.FormatStandardRow | format.py:177-220 | one of rows 1 to 3: the padded left cells, the 21-space gap, the padded right cells |
| Grid.FormatRow4 | format.py:222-266 | row 4: the padded left cells, the two middle keys padded to the wider of them plus two, the right cells |
| Grid.MiddleCells | format.py:246-250 | the two middle cells are as wide as the longer middle key plus two; the second is one wider when the second key is at least as long, from its `",  "` suffix |
| Grid.StandardRowsAt | format.py:157-159 | the rows of the `for row in [row1, row2, row3]` loop are keys 0-11, 12-23 and 24-35 |
| Grid.GridRow | format.py:157-160 | rows 1 to 3 hold 12 keys and row 4 holds 14 |
| Grid.GridLines | format.py:150-270 | after `n` rows there are `n` lines |
| Grid.FormatFullLayout | format.py:148-272 | `format_full_layout` returns exactly `FullLayout(keycodes)` |
| Grid.LineCount | format.py:150-154 | one line for fewer than 58 keycodes, five lines otherwise |
| Grid.StandardLineOf | format.py:157-220 | lines 1 to 3 of the grid are rows 1 to 3, padded to the column widths |
| Grid.Row4LineOf | format.py:160-266 | line 4 of the grid is row 4: left cells, the two middle cells, right cells |
| Grid.ThumbLineOf | format.py:161-270 | line 5 is keys 50 to 57 joined with `", "` after 23 spaces |
| Grid.LeftWidthIsMax | format.py:164-174 | `left_widths[i]` is the longest key of left column `i` over rows 1 to 4 |
| Grid.RightWidthIsMax | format.py:165-174 | `right_widths[i]` is the longest key of right column `i` over rows 1 to 4 |
| Grid.LeftColumnsAligned | format.py:194-202 | in rows 1 to 4, left key `i` starts at the same position, two spaces plus the earlier widths plus four each, and is followed by its comma |
| Grid.RightColumnsAligned | format.py:204-219 | in rows 1 to 3, right key `i` starts at the same position, after the left half and the gap |
| Grid.HalvesSeparated | format.py:214-219 | in rows 1 to 3 the halves are separated by 21 spaces that end where the right half starts |
| Grid.ExtraKeysIgnored | format.py:157-161 | keycodes past the 58th do not reach the output |
| Grid.RowsIndented | format.py:214-216 | rows 1 to 4 start with two spaces |
| Header.SkipSpaces | format.py:29-30 | `\s*` ends within the text, at or after where it starts |
| Header.SkipSpacesStops | format.py:29-30 | `\s*` is greedy: it takes only whitespace and stops at the first other character |
| Header.SkipSpacesAt | format.py:29-30 | where `\s*` stops is fixed by the text |
| Header.SkipWordStops | format.py:29-30 | `\w+` takes only word characters and stops at the first other one |
| Header.Run | format.py:29-30 | a successful header run ends past its start, within the text |
| Header.HeaderEnd | format.py:29-30 | a successful header match ends past its start, within the text |
| Header.HeaderEndComplete | format.py:29-30 | every text of the form `\s*[_\w+]\s*=\s*LAYOUT(` is matched, and the match ends right after the `(` |
| Header.HeaderEndSound | format.py:29-30 | every match is a text of that form, found where its whitespace and name runs stop |
| Header.CommentClose | format.py:29-30 | the lazy `.*?` stops at a comment close after which a header follows |
| Header.CommentCloseFirst | format.py:29-30 | the lazy `.*?` stops at the first such close, and finds none only when there is none |
| Header.CommentPath | format.py:29-30 | the comment alternative, when it matches, is followed by a header |
| Header.MatchAt | format.py:29-30 | a match at `p` starts at `p` and holds a header group, and a header at `p` always gives a match |
| Header.CommentPathGroup | format.py:29-30 | what the comment alternative takes is whitespace, an opener, the first suitable close, whitespace |
| Header.MatchComment | format.py:42 | a non-empty comment group is such a comment |
| Header.MatchNoComment | format.py:42 | an empty comment group means the comment alternative could not match |
| Header.NoCommentClose | format.py:29-30 | after an opener with no comment path, no close lets a header follow |
| Header.FindHeader | format.py:28-32 | `re.search` finds a match whose groups lie in order within the text |
| Header.FindHeaderLeftmost | format.py:28-32 | the match found is a match at its start, no earlier position matches, and nothing is found only when nothing matches |
| Layouts.FirstClose | format.py:53-66 | the matcher stops within the text, at or after the body start |
| Layouts.Step | format.py:53-67 | one character of the matcher: the string flag flips exactly at a `"` not after a backslash, and outside strings the counter moves one up at `(` and one down at `)` |
| Layouts.StateAt | format.py:47-67 | after `n` characters from one open parenthesis the counter is within `1 - n` and `1 + n` |
| Layouts.CloseBringsZero | format.py:62-66 | reading the closing `)` brings the counter to zero outside any string, where the loop stops |
| Layouts.ContentEnd | format.py:46-67 | the body ends within the text, at or after the `(` |
| Layouts.FirstCloseFirst | format.py:53-66 | the matcher stops at the first `)` that closes the body, or finds none |
| Layouts.ContentEndFirst | format.py:49-67 | the body ends at the first closing `)`; with none, the end is the start and the body is empty |
| Layouts.MatchClose | format.py:46-67 | the matcher loop returns exactly `ContentEnd(text, parenStart)` |
| Layouts.QuoteFreeState | format.py:53-67 | without `"`, the string flag stays down and the counter is one plus the tokenizer's balance of what was read |
| Layouts.OpenBeforeClose | format.py:53-67 | before the closing `)` the counter never drops to zero |
| Layouts.ClosedBodyBalanced | format.py:46-70 | a closed body without strings is balanced: no prefix closes more than it opens, and the whole is at zero |
| Layouts.FormatSingleLayout | format.py:94-145 | `format_single_layout` returns exactly `SingleLayout(comment, declaration, content, comma)` |
| Layouts.CleanWithoutCloser | format.py:97-100 | a declaration without `)` is cleaned to its stripped text |
| Layouts.ShortLayoutKeepsKeycodes | format.py:130-134 | a short layout is one indented line that tokenizes back to the same keycodes |
| Layouts.EmptyLayoutVerbatim | format.py:126-127 | a body with only whitespace and separating commas is written back verbatim after the cleaned declaration, comment kept |
| Layouts.HeaderHasNoCloser | format.py:29-30 | a captured header holds no `)` |
| Layouts.RenameInert | format.py:98-100 | renaming `MO(n)` changes nothing in a text without `)` |
| Layouts.StripNoCloser | format.py:97 | stripping a text without `)` gives a text without `)` |
| Layouts.DeclarationRenameInert | format.py:97-100 | cleaning a captured declaration only strips it; the `MO(n)` renaming never applies |
| Layouts.HeaderStrip | format.py:97 | stripping a captured declaration drops the whitespace in front of `[` and nothing else |
| Layouts.HeaderDeclarationClean | format.py:97-100 | a captured declaration is cleaned to its text from `[` to `(` |
| Layouts.Tail | format.py:30 | `text[pos:]` has `len - pos` characters, or none past the end |
| Layouts.TailSlice | format.py:30 | `Tail(text, pos)` is the slice `text[pos..]` |
| Layouts.CommaAfter | format.py:73-78 | the comma is `","` exactly when a `,` follows the closing `)` |
| Layouts.ResumeAt | format.py:73-78 | the scan resumes strictly after where it was, at most one past the end |
| Layouts.UnclosedLayout | format.py:45-84 | a `LAYOUT(` with no closing `)` is written as its comment, its cleaned declaration and `)`, taking the `,` two characters after the `(` as its comma, and the scan resumes past them |
| Layouts.EmptyBodyText | format.py:70-83 | a body that ends where it starts is formatted as an empty body |
| Layouts.EmptyBody | format.py:126-127 | a layout with an empty body is its comment, its cleaned declaration, `)` and its comma |
| Layouts.FormatFoundLayout | format.py:39-84 | one pass after a match: text before the header, the formatted layout, then the text from `next` formatted |
| Layouts.FindAndFormatLayouts | format.py:22-86 | the layout loop returns exactly `FormatLayouts(text)` |
| Layouts.FormatLayouts | format.py:33-36 | a block with no layout header comes back unchanged |
| Layouts.TextBeforeHeaderKept | format.py:39 | the text before the first header comes through unchanged and holds no match |
| Keymap.NextBlock | format.py:10-13 | a block found has its declaration from `pos` on and a `};` after it, within the source |
| Keymap.NextBlockLeftmost | format.py:10-13 | the block found is the leftmost with the shortest body; none is found only when no declaration has a `};` after it |
| Keymap.FormatKeymapsBlock | format.py:15-89 | `format_keymaps_block` returns the declaration, the body with its layouts formatted, and `};` |
| Keymap.FormatNextBlock | format.py:15-89 | one block of the scan: text before it, the block formatted, then the rest formatted |
| Keymap.FormatKeymapFileContent | format.py:5-91 | the `re.sub` scan returns exactly `FormatKeymapFile(code)` |
| Keymap.FormatKeymapFile | format.py:91 | a source without a complete keymaps block is left unchanged |
| Keymap.TextBeforeBlockKept | format.py:91 | the source before the first block comes through unchanged |
| Keymap.BlockWithoutLayoutsKept | format.py:85-89 | a block without a layout header is written back as it was |
| GridTokens.KeycodesOfCells | format.py:194-219 | padded cells after blanks are read back as their keys, in order, and reading goes on in blanks |
| GridTokens.TwoGroups | format.py:214-219 | a left and a right group of padded cells with blanks around them are read back as the left keys, then the right keys |
| GridTokens.StandardLineKeycodes | format.py:177-220 | one of rows 1 to 3 is read back as its twelve keys in order |
| GridTokens.Row4LineKeycodes | format.py:222-266 | row 4 is read back as its fourteen keys in order: left half, middle keys, right half |
| GridTokens.LinesKeycodes | format.py:177-270 | the five grid lines joined with newlines are read back as rows 1 to 4 and the thumb row, in order |
| GridTokens.FullLayoutKeepsKeycodes | format.py:148-272 | round trip of the grid: the lines of 58 or more sound keycodes, joined with newlines, are read back as the first 58 keycodes |
| GridTokens.LongLayoutKeepsKeycodes | format.py:128-145 | the grid written for a body with 58 or more keycodes is read back as the body's first 58 keycodes |

## Left out

- The `__main__` part (format.py:275-296) reads `keymap.c` and writes it back. It is file I/O and is not modelled. `keymap.c` is not part of this model.
- Python's `re` engine is not modelled in general. The two patterns of the script are written out as the engine resolves them: `Header` for the layout header and `Keymap.NextBlock` for the keymaps block.
- `\w` is modelled as ASCII letters, digits and `_`. Python's `\w` on `str` also takes Unicode letters and digits.
- `\s` is modelled as the set of characters for which `str.isspace()` holds, listed by code point. It is not checked against the Unicode database.
- `Text.IndexOf`: gives the leftmost occurrence of a literal. The model uses it to find the keymaps declaration and its `};`; `re` finds them with its own scan.
- `Layouts.Tail`: builds `text[pos:]` one character at a time instead of slicing. `TailSlice` proves the two equal.
- `Layouts.FormatFoundLayout`: holds the body of the `while True` loop after a match. The loop itself is `FindAndFormatLayouts`.
- `Keymap.FormatKeymapFileContent`: models `re.sub` as a loop over blocks. Each block goes through `FormatKeymapsBlock`, as the callback passed to `re.sub`.
