/** Code points as the tokenizer sees them: a character of the input, or the
    end-of-input sentinel (the source recognises it with `code !== code`). */
module Codes {

  datatype Code = Char(value: int) | EOF

  const Tab: int := 9
  const Lf: int := 10
  const Space: int := 32
  const GraveAccent: int := 96
  const Tilde: int := 126

  /** Minimum length of a fence sequence. */
  const MinFenceSize: nat := 3
  /** Width given to a tab in prefixes, and the indentation at which a closing fence is refused. */
  const TabSize: nat := 4

  /** The code point at offset `i`; every offset past the text reads as end of input. */
  function At(text: seq<int>, i: nat): (c: Code)
    ensures c == EOF <==> i >= |text|
    ensures i < |text| ==> c == Char(text[i])
  {
    if i < |text| then Char(text[i]) else EOF
  }

  predicate IsEol(c: Code) {
    c == EOF || c == Char(Lf)
  }

  predicate IsSpaceOrTab(c: Code) {
    c == Char(Tab) || c == Char(Space)
  }

  /** Columns a prefix character adds: a space counts one, a tab a flat four. */
  function Width(c: Code): nat {
    if c == Char(Space) then 1 else TabSize
  }
}
