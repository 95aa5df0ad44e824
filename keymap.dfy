/** `format_keymap_file_content`: every keymaps array declaration of a C
    source, up to the first `};` after it, is replaced by the declaration,
    its body with every layout formatted, and the `};`. Everything outside
    such blocks is copied unchanged. */
module Keymap {
  import opened Text
  import opened Header
  import opened Layouts

  /** The literal opening of the keymaps array that the block pattern looks
      for (group 1 of the pattern). */
  const Declaration: string := "const uint16_t PROGMEM keymaps[][MATRIX_ROWS][MATRIX_COLS] = {"

  /** The closing of the block (group 3 of the pattern). */
  const Closing: string := "};"

  /** `format_keymaps_block` on a block whose body (group 2) is `content`. */
  function KeymapsBlock(content: string): string {
    Declaration + FormatLayouts(content) + Closing
  }

  /** Where the next block starting at or after `pos` opens, and where its
      body ends: the first declaration, and the first `};` after it (the
      body is matched lazily). None when there is no complete block: if the
      first declaration has no `};` after it, neither has any later one. */
  function NextBlock(code: string, pos: nat): (r: Option<(nat, nat)>)
    requires pos <= |code|
    ensures r.Some? ==> pos <= r.value.0 && r.value.0 + |Declaration| <= r.value.1 && r.value.1 + |Closing| <= |code|
  {
    var d := IndexOf(code, Declaration, pos);
    if d == -1 then None
    else
      var q := IndexOf(code, Closing, d + |Declaration|);
      if q == -1 then None else Some((d, q))
  }

  /** `re.sub` from `pos` on: the text before each block is kept, each
      block is replaced by its formatted form, and the search resumes after
      the block's `};`. */
  function SubKeymaps(code: string, pos: nat): string
    requires pos <= |code|
    decreases |code| - pos, 1
  {
    match NextBlock(code, pos)
    case None => code[pos..]
    case Some((d, q)) => code[pos..d] + BlockOnwards(code, d, q)
  }

  /** The formatted block whose declaration is at `d` and whose `};` is at
      `q`, and everything after it. */
  function BlockOnwards(code: string, d: nat, q: nat): string
    requires d + |Declaration| <= q && q + |Closing| <= |code|
    decreases |code| - d, 0
  {
    KeymapsBlock(code[d + |Declaration|..q]) + SubKeymaps(code, q + |Closing|)
  }

  /** The whole file content, formatted; a source without a complete
      keymaps block is left unchanged. */
  function FormatKeymapFile(code: string): (formatted: string)
    ensures (forall d, q :: !BlockAt(code, 0, d, q)) ==> formatted == code
  {
    NextBlockLeftmost(code, 0);
    SubKeymaps(code, 0)
  }

  /** `format_keymaps_block`. */
  method FormatKeymapsBlock(content: string) returns (block: string)
    ensures block == KeymapsBlock(content)
  {
    var formattedContent := FindAndFormatLayouts(content);
    block := Declaration + formattedContent + Closing;
  }

  /** `format_keymap_file_content`: the scan of `re.sub` over the source,
      one block at a time. */
  method FormatKeymapFileContent(code: string) returns (result: string)
    ensures result == FormatKeymapFile(code)
  {
    result := "";
    var pos := 0;
    while true
      invariant pos <= |code|
      invariant result + SubKeymaps(code, pos) == FormatKeymapFile(code)
      decreases |code| - pos
    {
      var block := NextBlock(code, pos);
      if block.None? {
        result := result + code[pos..];
        break;
      }
      var (d, q) := block.value;
      var formatted, next := FormatNextBlock(code, pos, d, q);
      AppendAssoc(result, code[pos..d], formatted, SubKeymaps(code, next));
      result := result + code[pos..d] + formatted;
      pos := next;
    }
  }

  /** One block of the scan: its formatted form, and where the scan goes on. */
  method FormatNextBlock(code: string, pos: nat, d: nat, q: nat) returns (formatted: string, next: nat)
    requires pos <= |code| && NextBlock(code, pos) == Some((d, q))
    ensures pos < next <= |code|
    ensures SubKeymaps(code, pos) == code[pos..d] + formatted + SubKeymaps(code, next)
  {
    formatted := FormatKeymapsBlock(code[d + |Declaration|..q]);
    next := q + |Closing|;
    SubKeymapsStep(code, pos, d, q, formatted);
  }

  /** `SubKeymaps` over one block whose formatted form is `block`. */
  lemma SubKeymapsStep(code: string, pos: nat, d: nat, q: nat, block: string)
    requires pos <= |code| && NextBlock(code, pos) == Some((d, q))
    requires block == KeymapsBlock(code[d + |Declaration|..q])
    ensures q + |Closing| <= |code|
    ensures SubKeymaps(code, pos) == code[pos..d] + block + SubKeymaps(code, q + |Closing|)
  {
    var rest := SubKeymaps(code, q + |Closing|);
    assert SubKeymaps(code, pos) == code[pos..d] + BlockOnwards(code, d, q);
    assert BlockOnwards(code, d, q) == block + rest;
    AppendAssoc3(code[pos..d], block, rest);
  }

  /** `pos <= d`, `d + |Declaration| <= q`, with a declaration at `d` and a
      `};` at `q`: the pattern can match from `d` with its body ending at `q`. */
  predicate BlockAt(code: string, pos: nat, d: int, q: int) {
    pos <= d && d + |Declaration| <= q &&
    OccursAt(code, Declaration, d) && OccursAt(code, Closing, q)
  }

  /** The block found is the leftmost one, with the shortest body; none is
      found only when no declaration from `pos` on has a `};` after it. */
  lemma NextBlockLeftmost(code: string, pos: nat)
    requires pos <= |code|
    ensures NextBlock(code, pos).Some? ==>
              var (d, q) := NextBlock(code, pos).value;
              BlockAt(code, pos, d, q) &&
              (forall j :: pos <= j < d ==> !OccursAt(code, Declaration, j)) &&
              (forall j :: d + |Declaration| <= j < q ==> !OccursAt(code, Closing, j))
    ensures NextBlock(code, pos).None? ==> forall d, q :: !BlockAt(code, pos, d, q)
  {
    var d := IndexOf(code, Declaration, pos);
    IndexOfFirst(code, Declaration, pos);
    if d != -1 {
      IndexOfFirst(code, Closing, d + |Declaration|);
    }
  }

  /** The source before the first block comes through unchanged. */
  lemma TextBeforeBlockKept(code: string, d: nat, q: nat)
    requires NextBlock(code, 0) == Some((d, q))
    ensures d <= |FormatKeymapFile(code)| && FormatKeymapFile(code)[..d] == code[..d]
  {
  }

  /** A block without any layout header is written back as it was. */
  lemma BlockWithoutLayoutsKept(content: string)
    requires FindHeader(content, 0).None?
    ensures KeymapsBlock(content) == Declaration + content + Closing
  {
  }
}
