/** Where the lines of a fenced code block end: at the first closing
    fence, proved about the reference in module FenceSpec. */
module BlockEnd {
  import opened Codes
  import opened Events
  import opened FenceSpec

  /** Offset `k` follows a line feed. */
  predicate AfterLineFeed(text: seq<int>, k: nat)
    requires k <= |text|
  {
    0 < k && text[k - 1] == Lf
  }

  /** Offset `k` starts one of the lines read from the line at `l` on. */
  predicate LineStartFrom(text: seq<int>, l: nat, k: nat)
    requires k <= |text|
  {
    k == l || (l < k && AfterLineFeed(text, k))
  }

  /** No line from the line at `l` on is a closing fence. */
  predicate NoClosing(text: seq<int>, l: nat, marker: int, size: nat)
    requires l <= |text|
  {
    forall k :: l <= k <= |text| && LineStartFrom(text, l, k) ==> ClosingFence(text, k, marker, size).None?
  }

  /** The line at `k` is the first closing fence among the lines from `l` on. */
  predicate FirstClosing(text: seq<int>, l: nat, k: nat, marker: int, size: nat)
    requires l <= k <= |text|
  {
    LineStartFrom(text, l, k) && ClosingFence(text, k, marker, size).Some? &&
    forall j :: l <= j < k && LineStartFrom(text, l, j) ==> ClosingFence(text, j, marker, size).None?
  }

  /** `end` is where lines read from the line at `l` end when they stop at
      the first closing fence: at its line ending, and at end of input
      when none of them is one. */
  predicate EndsAtFirstClosing(text: seq<int>, l: nat, marker: int, size: nat, end: nat)
    requires l <= |text|
  {
    (NoClosing(text, l, marker, size) ==> end == |text|) &&
    (forall k :: l <= k <= |text| && FirstClosing(text, l, k, marker, size) ==>
       end == ClosingFence(text, k, marker, size).value.lineEnd)
  }

  /** Which offsets start a line that is a closing fence of `marker` and
      at least `size` markers: entry `k` holds for the line at `k`. */
  function Closings(text: seq<int>, marker: int, size: nat): (cs: seq<bool>)
    ensures |cs| == |text| + 1
  {
    seq(|text| + 1, k requires 0 <= k <= |text| => ClosingFence(text, k, marker, size).Some?)
  }

  /** The first offset from `k` on that starts a line read from `l` on and
      is marked in `cs`, found by looking at every offset in turn rather
      than line by line. */
  function FirstMarked(text: seq<int>, cs: seq<bool>, l: nat, k: nat): (r: Option<nat>)
    requires |cs| == |text| + 1 && l <= k <= |text|
    ensures r.Some? ==> k <= r.value <= |text| && LineStartFrom(text, l, r.value) && cs[r.value]
    decreases |text| - k
  {
    if LineStartFrom(text, l, k) && cs[k] then Some(k)
    else if k == |text| then None
    else FirstMarked(text, cs, l, k + 1)
  }

  /** Where the lines read from `l` on end when they stop at the first
      closing fence: its line ending, or the end of input. */
  function LinesEnd(text: seq<int>, l: nat, marker: int, size: nat): nat
    requires l <= |text|
  {
    match FirstMarked(text, Closings(text, marker, size), l, l)
    case None => |text|
    case Some(k) => ClosingFence(text, k, marker, size).value.lineEnd
  }

  /** The scan passes no marked line start before the one it returns, and
      none at all when it returns nothing. */
  lemma {:induction false} FirstMarkedIsFirst(text: seq<int>, cs: seq<bool>, l: nat, k: nat)
    requires |cs| == |text| + 1 && l <= k <= |text|
    ensures var r := FirstMarked(text, cs, l, k);
      (r.None? ==> forall j :: k <= j <= |text| && LineStartFrom(text, l, j) ==> !cs[j]) &&
      (r.Some? ==> forall j :: k <= j < r.value && LineStartFrom(text, l, j) ==> !cs[j])
    decreases |text| - k
  {
    if !(LineStartFrom(text, l, k) && cs[k]) && k < |text| {
      FirstMarkedIsFirst(text, cs, l, k + 1);
    }
  }

  /** `LinesEnd` is the line ending of the first closing fence among the
      lines from `l` on, and the end of input when there is none. */
  lemma LinesEndFirst(text: seq<int>, l: nat, marker: int, size: nat)
    requires l <= |text|
    ensures EndsAtFirstClosing(text, l, marker, size, LinesEnd(text, l, marker, size))
  {
    var cs := Closings(text, marker, size);
    FirstMarkedIsFirst(text, cs, l, l);
    var r := FirstMarked(text, cs, l, l);
    if r.Some? {
      assert !NoClosing(text, l, marker, size);
      forall k | l <= k <= |text| && FirstClosing(text, l, k, marker, size)
        ensures k == r.value
      {
      }
    }
  }

  /** Inside the line at `l` no line starts: from any offset of it the scan
      resumes at the next line, or finds nothing when it is the last line. */
  lemma {:induction false} ScanSkipsLine(text: seq<int>, cs: seq<bool>, l: nat, k: nat)
    requires |cs| == |text| + 1 && l <= |text| && l < k <= LineEnd(text, l)
    ensures var e := LineEnd(text, l);
      FirstMarked(text, cs, l, k) == if e == |text| then None else FirstMarked(text, cs, l, e + 1)
    decreases |text| - k
  {
    assert !IsEol(At(text, k - 1));
    if k < LineEnd(text, l) {
      ScanSkipsLine(text, cs, l, k + 1);
    }
  }

  /** From a later line start `m` on, lines read from `l` and lines read
      from `m` start at the same offsets, so the scans agree. */
  lemma {:induction false} ScanRebase(text: seq<int>, cs: seq<bool>, l: nat, m: nat, k: nat)
    requires |cs| == |text| + 1 && l < m <= k <= |text| && AfterLineFeed(text, m)
    ensures FirstMarked(text, cs, l, k) == FirstMarked(text, cs, m, k)
    decreases |text| - k
  {
    assert LineStartFrom(text, l, k) <==> LineStartFrom(text, m, k);
    if k < |text| {
      ScanRebase(text, cs, l, m, k + 1);
    }
  }

  /** One line of the scan: it stops at a marked line, finds nothing past
      the last line, and otherwise goes on as a scan from the next line. */
  lemma ScanLine(text: seq<int>, cs: seq<bool>, l: nat)
    requires |cs| == |text| + 1 && l <= |text|
    ensures var e := LineEnd(text, l);
      var r := FirstMarked(text, cs, l, l);
      (cs[l] ==> r == Some(l)) &&
      (!cs[l] && e == |text| ==> r == None) &&
      (!cs[l] && e < |text| ==> r == FirstMarked(text, cs, e + 1, e + 1))
  {
    if !cs[l] {
      var e := LineEnd(text, l);
      if l < e {
        ScanSkipsLine(text, cs, l, l + 1);
      }
      if e < |text| {
        assert AfterLineFeed(text, e + 1);
        ScanRebase(text, cs, l, e + 1, e + 1);
      }
    }
  }

  /** One line of `Body`: a closing fence ends the lines, the last content
      line ends them at end of input, and any other line is followed by the
      rest. */
  lemma BodyStep(text: seq<int>, l: nat, marker: int, size: nat, indent: int)
    requires l <= |text|
    ensures var c := ClosingFence(text, l, marker, size);
      var e := LineEnd(text, l);
      var end := Body(text, l, marker, size, indent).end;
      (c.Some? ==> end == c.value.lineEnd) &&
      (c.None? && e == |text| ==> end == |text|) &&
      (c.None? && e < |text| ==> end == Body(text, e + 1, marker, size, indent).end)
  {
  }

  /** One line of `LinesEnd`, with the same three cases as `BodyStep`. */
  lemma LinesEndStep(text: seq<int>, l: nat, marker: int, size: nat)
    requires l <= |text|
    ensures var c := ClosingFence(text, l, marker, size);
      var e := LineEnd(text, l);
      var end := LinesEnd(text, l, marker, size);
      (c.Some? ==> end == c.value.lineEnd) &&
      (c.None? && e == |text| ==> end == |text|) &&
      (c.None? && e < |text| ==> end == LinesEnd(text, e + 1, marker, size))
  {
    if ClosingFence(text, l, marker, size).None? && LineEnd(text, l) < |text| {
      LinesEndPastLine(text, l, marker, size);
    } else {
      LinesEndAtLine(text, l, marker, size);
    }
  }

  /** Past a line that is neither a closing fence nor the last line, the
      lines end where the lines after it end. */
  lemma LinesEndPastLine(text: seq<int>, l: nat, marker: int, size: nat)
    requires l <= |text| && ClosingFence(text, l, marker, size).None? && LineEnd(text, l) < |text|
    ensures LinesEnd(text, l, marker, size) == LinesEnd(text, LineEnd(text, l) + 1, marker, size)
  {
    ScanLine(text, Closings(text, marker, size), l);
    LinesEndAgree(text, l, LineEnd(text, l) + 1, marker, size);
  }

  /** At a closing fence the lines end at its line ending; on a last line
      that is not one, at the end of input. */
  lemma LinesEndAtLine(text: seq<int>, l: nat, marker: int, size: nat)
    requires l <= |text| && (ClosingFence(text, l, marker, size).Some? || LineEnd(text, l) == |text|)
    ensures var c := ClosingFence(text, l, marker, size);
      (c.Some? ==> LinesEnd(text, l, marker, size) == c.value.lineEnd) &&
      (c.None? ==> LinesEnd(text, l, marker, size) == |text|)
  {
    ScanLine(text, Closings(text, marker, size), l);
  }

  /** Scans that find the same fence give the same end. */
  lemma LinesEndAgree(text: seq<int>, l: nat, m: nat, marker: int, size: nat)
    requires l <= |text| && m <= |text|
    requires var cs := Closings(text, marker, size); FirstMarked(text, cs, l, l) == FirstMarked(text, cs, m, m)
    ensures LinesEnd(text, l, marker, size) == LinesEnd(text, m, marker, size)
  {
  }

  /** The lines of a block, read line by line from the line at `l`, end
      where the scan for the first closing fence says: every line before it
      is content. */
  lemma {:induction false} BodyEnd(text: seq<int>, l: nat, marker: int, size: nat, indent: int)
    requires l <= |text|
    ensures Body(text, l, marker, size, indent).end == LinesEnd(text, l, marker, size)
    decreases |text| - l, 1
  {
    if ClosingFence(text, l, marker, size).None? && LineEnd(text, l) < |text| {
      BodyEndPastLine(text, l, marker, size, indent);
    } else {
      EndsAtLine(text, l, marker, size, indent);
    }
  }

  /** `BodyEnd` past a content line that is not the last, from `BodyEnd` of
      the lines after it. */
  lemma {:induction false} BodyEndPastLine(text: seq<int>, l: nat, marker: int, size: nat, indent: int)
    requires l <= |text| && ClosingFence(text, l, marker, size).None? && LineEnd(text, l) < |text|
    ensures Body(text, l, marker, size, indent).end == LinesEnd(text, l, marker, size)
    decreases |text| - l, 0
  {
    BodyEnd(text, LineEnd(text, l) + 1, marker, size, indent);
    EndsPastLine(text, l, marker, size, indent);
  }

  /** Past a content line that is not the last, the ends agree when they
      agree for the lines after it. */
  lemma EndsPastLine(text: seq<int>, l: nat, marker: int, size: nat, indent: int)
    requires l <= |text| && ClosingFence(text, l, marker, size).None? && LineEnd(text, l) < |text|
    requires Body(text, LineEnd(text, l) + 1, marker, size, indent).end == LinesEnd(text, LineEnd(text, l) + 1, marker, size)
    ensures Body(text, l, marker, size, indent).end == LinesEnd(text, l, marker, size)
  {
    BodyStep(text, l, marker, size, indent);
    LinesEndStep(text, l, marker, size);
  }

  /** At a closing fence, or on the last line, both ends agree. */
  lemma EndsAtLine(text: seq<int>, l: nat, marker: int, size: nat, indent: int)
    requires l <= |text| && (ClosingFence(text, l, marker, size).Some? || LineEnd(text, l) == |text|)
    ensures Body(text, l, marker, size, indent).end == LinesEnd(text, l, marker, size)
  {
    BodyStep(text, l, marker, size, indent);
    LinesEndStep(text, l, marker, size);
  }

  /** Hence the lines of a block end at the line ending of the first of
      them that is a closing fence, and at the end of input when none is. */
  lemma BodyEndsAtFirstClosing(text: seq<int>, l: nat, marker: int, size: nat, indent: int)
    requires l <= |text|
    ensures EndsAtFirstClosing(text, l, marker, size, Body(text, l, marker, size, indent).end)
  {
    BodyEnd(text, l, marker, size, indent);
    LinesEndFirst(text, l, marker, size);
  }

  /** What follows the opening line ends where the lines after it end. */
  lemma AfterOpeningEnd(text: seq<int>, e: nat, marker: int, size: nat, indent: int)
    requires e <= |text|
    ensures var a := AfterOpening(text, e, marker, size, indent);
      (e == |text| ==> a.end == |text|) &&
      (e < |text| ==> a.end == LinesEnd(text, e + 1, marker, size))
  {
    if e < |text| {
      AfterOpeningLines(text, e, marker, size, indent);
    }
  }

  /** After an opening line that has a successor, the block ends where the
      lines after it end. */
  lemma AfterOpeningLines(text: seq<int>, e: nat, marker: int, size: nat, indent: int)
    requires e < |text|
    ensures AfterOpening(text, e, marker, size, indent).end == LinesEnd(text, e + 1, marker, size)
  {
    BodyEnd(text, e + 1, marker, size, indent);
    AfterOpeningBody(text, e, marker, size, indent);
  }

  lemma AfterOpeningBody(text: seq<int>, e: nat, marker: int, size: nat, indent: int)
    requires e < |text|
    requires Body(text, e + 1, marker, size, indent).end == LinesEnd(text, e + 1, marker, size)
    ensures AfterOpening(text, e, marker, size, indent).end == LinesEnd(text, e + 1, marker, size)
  {
  }

  /** A fenced code block whose opening line has a successor ends at the
      line ending of the first later line that is a closing fence, or at
      end of input when there is none (`LinesEndFirst`); without one it
      ends at end of input. */
  lemma FencedCodeEnd(text: seq<int>, s: nat, indent: int)
    requires s <= |text| && FencedCodeBlock(text, s, indent).Some?
    ensures var f := OpeningFence(text, s).value;
      var b := FencedCodeBlock(text, s, indent).value;
      (f.lineEnd == |text| ==> b.end == |text|) &&
      (f.lineEnd < |text| ==> b.end == LinesEnd(text, f.lineEnd + 1, f.marker, f.size))
  {
    var f := OpeningFence(text, s).value;
    BlockEndIsAfterOpeningEnd(text, s, indent);
    AfterOpeningEndAt(text, f.lineEnd, f.marker, f.size, indent, FencedCodeBlock(text, s, indent).value.end);
  }

  /** `AfterOpeningEnd`, for an offset known to be where what follows the
      opening line ends. */
  lemma AfterOpeningEndAt(text: seq<int>, e: nat, marker: int, size: nat, indent: int, end: nat)
    requires e <= |text| && end == AfterOpening(text, e, marker, size, indent).end
    ensures (e == |text| ==> end == |text|) && (e < |text| ==> end == LinesEnd(text, e + 1, marker, size))
  {
    AfterOpeningEnd(text, e, marker, size, indent);
  }

  /** Hence a block whose opening line has a successor ends at the line
      ending of the first later line that is a closing fence, and at the
      end of input when none is. */
  lemma FencedCodeEndsAtFirstClosing(text: seq<int>, s: nat, indent: int, f: Fence, b: Block)
    requires s <= |text| && OpeningFence(text, s) == Some(f) && FencedCodeBlock(text, s, indent) == Some(b)
    ensures f.lineEnd < |text| ==> EndsAtFirstClosing(text, f.lineEnd + 1, f.marker, f.size, b.end)
  {
    FencedCodeEnd(text, s, indent);
    EndsAtLinesEnd(text, f.lineEnd, f.marker, f.size, b.end);
  }

  /** `LinesEndFirst` for the lines after the line ending at `e`, for an
      offset known to be their `LinesEnd`. */
  lemma EndsAtLinesEnd(text: seq<int>, e: nat, marker: int, size: nat, end: nat)
    requires e <= |text| && (e < |text| ==> end == LinesEnd(text, e + 1, marker, size))
    ensures e < |text| ==> EndsAtFirstClosing(text, e + 1, marker, size, end)
  {
    if e < |text| {
      LinesEndFirst(text, e + 1, marker, size);
    }
  }

  lemma BlockEndIsAfterOpeningEnd(text: seq<int>, s: nat, indent: int)
    requires s <= |text| && FencedCodeBlock(text, s, indent).Some?
    ensures var f := OpeningFence(text, s).value;
      FencedCodeBlock(text, s, indent).value.end == AfterOpening(text, f.lineEnd, f.marker, f.size, indent).end
  {
  }
}
