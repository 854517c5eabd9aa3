/**
 * The block-level tokens the markdown tokenizer hands to the extractor, and
 * `extract_text`, which flattens a heading token's inline children.
 * The tokenizer itself is outside the model: a token sequence is an input.
 */
module Tokens {
  import opened Wrappers
  import opened Text

  /** One inline child of a heading: a bare string, a mapping that may carry "raw" and "text", or anything else. */
  datatype Inline =
    | Str(s: string)
    | Fields(raw: Option<string>, text: Option<string>)
    | OtherInline

  /** A heading's "children" value: a string, or a list of inline children (an absent key reads as the empty list). */
  datatype InlineChildren =
    | Plain(s: string)
    | Parts(parts: seq<Inline>)

  /**
   * A block-level token. `level` and `info` come from the token's "attrs"
   * mapping; `ordered` is the token's own top-level "ordered" key, which is
   * where the extractor reads it; `itemCount` is the length of its "children".
   * A token that is not a mapping, or has any other "type", is OtherToken.
   */
  datatype Token =
    | HeadingToken(level: Option<int>, children: InlineChildren)
    | BlockCodeToken(info: Option<string>)
    | ListToken(ordered: Option<bool>, itemCount: nat)
    | OtherToken

  /** What one inline child contributes: the string itself, else "raw", else "text", else nothing. */
  function PartText(p: Inline): string {
    match p
    case Str(s) => s
    case Fields(raw, text) => raw.GetOr(text.GetOr(""))
    case OtherInline => ""
  }

  /** `"".join(parts)` over the contributions of the children, in order. */
  function JoinParts(ps: seq<Inline>): (r: string)
    ensures ps == [] ==> r == ""
  {
    if ps == [] then "" else JoinParts(ps[..|ps| - 1]) + PartText(ps[|ps| - 1])
  }

  /**
   * `extract_text`: an empty value gives "", a string is returned as it is
   * (not stripped), and a list gives the concatenation of its children's
   * contributions with surrounding whitespace removed.
   */
  function ExtractText(children: InlineChildren): (r: string)
    ensures children == Plain("") || children == Parts([]) ==> r == ""
    ensures children.Plain? ==> r == children.s
    ensures children.Parts? ==> IsStripOf(JoinParts(children.parts), r)
  {
    match children
    case Plain(s) => if s == "" then "" else s
    case Parts(ps) =>
      if ps == [] then
        assert IsStripOf("", "") by { assert ""[0..0] == "" && ""[..0] == "" && ""[0..] == ""; }
        ""
      else
        StripRemovesOnlyWhitespace(JoinParts(ps));
        Strip(JoinParts(ps))
  }
}
