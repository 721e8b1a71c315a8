/** A line-by-line description of what the fenced-code construct recognises
    and which events it emits, as pure functions of the input. The state
    machines in module FencedCode are proved to produce exactly this. */
module FenceSpec {
  import opened Codes
  import opened Events

  function En(kind: TokenType, at: nat): Shape { Shape(Phase.Enter, kind, at) }
  function Ex(kind: TokenType, at: nat): Shape { Shape(Phase.Exit, kind, at) }

  /** A whitespace token over [i, j), when that stretch is not empty. */
  function Whitespace(i: nat, j: nat): seq<Shape> {
    if j > i then [En(FencedCodeFenceWhitespace, i), Ex(FencedCodeFenceWhitespace, j)] else []
  }

  /** A linePrefix token over [i, j), when that stretch is not empty. */
  function Prefix(i: nat, j: nat): seq<Shape> {
    if j > i then [En(LinePrefix, i), Ex(LinePrefix, j)] else []
  }

  // ---------------------------------------------------------------- scanning

  /** The end of the run of `c` that starts at `i`. */
  function RunEnd(text: seq<int>, i: nat, c: Code): (j: nat)
    requires i <= |text|
    ensures i <= j <= |text|
    ensures forall k :: i <= k < j ==> At(text, k) == c
    ensures j < |text| ==> At(text, j) != c
    decreases |text| - i
  {
    if i < |text| && At(text, i) == c then RunEnd(text, i + 1, c) else i
  }

  /** The end of the run of spaces and tabs that starts at `i`. */
  function SpaceEnd(text: seq<int>, i: nat): (j: nat)
    requires i <= |text|
    ensures i <= j <= |text|
    ensures forall k :: i <= k < j ==> IsSpaceOrTab(At(text, k))
    ensures !IsSpaceOrTab(At(text, j))
    decreases |text| - i
  {
    if i < |text| && IsSpaceOrTab(At(text, i)) then SpaceEnd(text, i + 1) else i
  }

  /** The offset of the first line feed or end of input at or after `i`. */
  function LineEnd(text: seq<int>, i: nat): (j: nat)
    requires i <= |text|
    ensures i <= j <= |text|
    ensures forall k :: i <= k < j ==> !IsEol(At(text, k))
    ensures IsEol(At(text, j))
    decreases |text| - i
  {
    if i < |text| && !IsEol(At(text, i)) then LineEnd(text, i + 1) else i
  }

  /** The end of a word of the info string: the first space, tab, line feed or end of input. */
  function WordEnd(text: seq<int>, i: nat): (j: nat)
    requires i <= |text|
    ensures i <= j <= |text|
    ensures forall k :: i <= k < j ==> !IsSpaceOrTab(At(text, k)) && !IsEol(At(text, k))
    ensures IsSpaceOrTab(At(text, j)) || IsEol(At(text, j))
    decreases |text| - i
  {
    if i < |text| && !IsSpaceOrTab(At(text, i)) && !IsEol(At(text, i)) then WordEnd(text, i + 1) else i
  }

  /** No code point in [i, j) is `c`. */
  predicate Avoids(text: seq<int>, i: nat, j: nat, c: Code) {
    forall k :: i <= k < j ==> At(text, k) != c
  }

  /** Where the prefix of a content line ends: spaces and tabs are taken
      while the width so far, `size`, is below `limit`. */
  function PrefixEnd(text: seq<int>, i: nat, size: int, limit: int): (j: nat)
    requires i <= |text|
    ensures i <= j <= |text|
    ensures forall k :: i <= k < j ==> IsSpaceOrTab(At(text, k))
    decreases |text| - i
  {
    if size < limit && i < |text| && IsSpaceOrTab(At(text, i))
    then PrefixEnd(text, i + 1, size + Width(At(text, i)), limit)
    else i
  }

  /** Where the prefix of a closing fence ends, or None once its width reaches a tab stop. */
  function ClosingPrefixEnd(text: seq<int>, i: nat, size: nat): (r: Option<nat>)
    requires i <= |text|
    ensures r.Some? ==> i <= r.value <= |text| && !IsSpaceOrTab(At(text, r.value))
    ensures r.Some? ==> forall k :: i <= k < r.value ==> IsSpaceOrTab(At(text, k))
    decreases |text| - i
  {
    if i < |text| && IsSpaceOrTab(At(text, i)) then
      var size' := size + Width(At(text, i));
      if size' >= TabSize then None else ClosingPrefixEnd(text, i + 1, size')
    else Some(i)
  }

  // ---------------------------------------------------------- the opening line

  /** An opening fence: its marker, the length of its sequence, its events
      (from the enter of fencedCode to the exit of fencedCodeFenceStart) and
      the offset of the line ending that follows it. */
  datatype Fence = Fence(marker: int, size: nat, marks: seq<Shape>, lineEnd: nat)

  /** The opening fence at `s`, or None when the construct does not match there. */
  function OpeningFence(text: seq<int>, s: nat): Option<Fence>
    requires s <= |text|
  {
    var c := At(text, s);
    if c != Char(GraveAccent) && c != Char(Tilde) then None
    else
      var r := RunEnd(text, s, c);
      if r - s < MinFenceSize then None
      else
        match SequenceOpenAfter(text, r, c)
        case None => None
        case Some(rest) =>
          var e := LineEnd(text, r);
          Some(Fence(c.value, r - s, OpeningHead(s, r) + rest + [Ex(FencedCodeFenceStart, e)], e))
  }

  /** The events of an opening fence up to the end of a sequence from `s` to `r`. */
  function OpeningHead(s: nat, r: nat): seq<Shape> {
    [En(FencedCode, s), En(FencedCodeFenceStart, s), En(FencedCodeFenceSequence, s), Ex(FencedCodeFenceSequence, r)]
  }

  /** The tokens of the opening line after the sequence ends at `r`:
      optional whitespace, then an info string if the line goes on. */
  function SequenceOpenAfter(text: seq<int>, r: nat, marker: Code): Option<seq<Shape>>
    requires r <= |text|
  {
    var w := SpaceEnd(text, r);
    if IsEol(At(text, w)) then Some(Whitespace(r, w))
    else
      match SequenceOpenInfo(text, w, marker)
      case None => None
      case Some(rest) => Some(Whitespace(r, w) + rest)
  }

  /** The info string starting at `w`, then the meta part if the line goes
      on. A backtick in the info of a backtick fence rejects the fence. */
  function SequenceOpenInfo(text: seq<int>, w: nat, marker: Code): Option<seq<Shape>>
    requires w <= |text|
  {
    var i := WordEnd(text, w);
    if marker == Char(GraveAccent) && !Avoids(text, w, i, marker) then None
    else
      var info := [En(FencedCodeFenceInfo, w), Ex(FencedCodeFenceInfo, i)];
      if IsEol(At(text, i)) then Some(info)
      else
        match SequenceOpenInfoAfter(text, i, marker)
        case None => None
        case Some(rest) => Some(info + rest)
  }

  /** The whitespace after the info string, starting at `i`, and the meta
      string that follows it, if anything does. A backtick in the meta of a
      backtick fence rejects the fence. */
  function SequenceOpenInfoAfter(text: seq<int>, i: nat, marker: Code): Option<seq<Shape>>
    requires i <= |text|
  {
    var w := SpaceEnd(text, i);
    var ws := Whitespace(i, w);
    if IsEol(At(text, w)) then Some(ws)
    else
      var e := LineEnd(text, w);
      if marker == Char(GraveAccent) && !Avoids(text, w, e, marker) then None
      else Some(ws + [En(FencedCodeFenceMeta, w), Ex(FencedCodeFenceMeta, e)])
  }

  /** Skipping code points that are no line ending does not change where the line ends. */
  lemma {:induction false} LineEndSkip(text: seq<int>, i: nat, j: nat)
    requires i <= j <= |text|
    requires forall k :: i <= k < j ==> !IsEol(At(text, k))
    ensures LineEnd(text, i) == LineEnd(text, j)
    decreases j - i
  {
    if i < j {
      LineEndSkip(text, i + 1, j);
    }
  }

  // ---------------------------------------------------------- a closing fence

  /** A closing fence: its events and the offset of the line ending after it. */
  datatype Closing = Closing(marks: seq<Shape>, lineEnd: nat)

  /** The closing fence for a fence of `marker` and length `size` on the line at `l`, if that line is one. */
  function ClosingFence(text: seq<int>, l: nat, marker: int, size: nat): Option<Closing>
    requires l <= |text|
  {
    match ClosingPrefixEnd(text, l, 0)
    case None => None
    case Some(q) =>
      match ClosingSequence(text, q, marker, size)
      case None => None
      case Some(c) =>
        Some(Closing(Prefix(l, q) + c.marks, c.lineEnd))
  }

  /** The part of a closing fence after its prefix, starting at `q`: the
      sequence, optional whitespace, and the line ending. */
  function ClosingSequence(text: seq<int>, q: nat, marker: int, size: nat): Option<Closing>
    requires q <= |text|
  {
    if At(text, q) != Char(marker) then None
    else
      var t := RunEnd(text, q, Char(marker));
      if t - q < size then None
      else
        var u := SpaceEnd(text, t);
        if !IsEol(At(text, u)) then None
        else
          Some(Closing([En(FencedCodeFenceEnd, q), En(FencedCodeFenceSequence, q)] + ClosingTail(t, u), u))
  }

  /** The events of a closing fence after its sequence ends at `t`, for a line ending at `u`. */
  function ClosingTail(t: nat, u: nat): seq<Shape> {
    [Ex(FencedCodeFenceSequence, t)] + Whitespace(t, u) + [Ex(FencedCodeFenceEnd, u)]
  }

  // ---------------------------------------------------------- a content line

  /** The events of the content line at `l` (not counting its line ending),
      for an opening fence indented by `indent` columns. */
  function ContentLine(text: seq<int>, l: nat, indent: int): seq<Shape>
    requires l <= |text|
  {
    var e := LineEnd(text, l);
    if e == l then []
    else if indent != 0 && IsSpaceOrTab(At(text, l)) then
      var p := PrefixEnd(text, l, 0, indent);
      [En(LinePrefix, l), Ex(LinePrefix, p)] + (if p == e then [] else [En(CodeLineData, p), Ex(CodeLineData, e)])
    else [En(CodeLineData, l), Ex(CodeLineData, e)]
  }

  // ---------------------------------------------------------- the whole block

  /** The events of the lines of a block from the line at `l` on, ending with
      a closing fence or at end of input, and the offset where the block ends. */
  datatype Block = Block(marks: seq<Shape>, end: nat)

  function Body(text: seq<int>, l: nat, marker: int, size: nat, indent: int): (b: Block)
    requires l <= |text|
    ensures l <= b.end <= |text|
    decreases |text| - l
  {
    match ClosingFence(text, l, marker, size)
    case Some(c) => Block(c.marks, c.lineEnd)
    case None =>
      var e := LineEnd(text, l);
      var line := ContentLine(text, l, indent);
      if e == |text| then Block(line, e)
      else
        var rest := Body(text, e + 1, marker, size, indent);
        Block(line + [En(CodeLineFeed, e), Ex(CodeLineFeed, e + 1)] + rest.marks, rest.end)
  }

  /** The indentation of the opening fence: the column width of a preceding
      linePrefix token, and 0 when the previous token is anything else. */
  function InitialPrefixSize(previous: Option<Token>): int {
    if previous.Some? && previous.value.kind == LinePrefix then
      previous.value.end.column - previous.value.start.column
    else 0
  }

  /** The events of the fenced code block at `s` and where it ends, or None when the construct does not match. */
  function FencedCodeBlock(text: seq<int>, s: nat, indent: int): Option<Block>
    requires s <= |text|
  {
    match OpeningFence(text, s)
    case None => None
    case Some(f) =>
      var a := AfterOpening(text, f.lineEnd, f.marker, f.size, indent);
      Some(Block(f.marks + a.marks, a.end))
  }

  /** What follows an opening line that ends at `e`: the exit of fencedCode
      at end of input, or a lineFeed token, the body and the exit of fencedCode. */
  function AfterOpening(text: seq<int>, e: nat, marker: int, size: nat, indent: int): (a: Block)
    requires e <= |text|
    ensures e <= a.end <= |text|
  {
    if e == |text| then Block([Ex(FencedCode, e)], e)
    else
      var b := Body(text, e + 1, marker, size, indent);
      Block([En(LineFeed, e), Ex(LineFeed, e + 1)] + b.marks + [Ex(FencedCode, b.end)], b.end)
  }
}
