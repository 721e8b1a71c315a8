/** What the fenced-code construct accepts and what its events look like,
    proved about the reference in module FenceSpec. */
module FenceProperties {
  import opened Codes
  import opened Events
  import opened FenceSpec

  // ------------------------------------------------------------- acceptance

  /** The opening condition: a backtick or tilde, a run of at least three of
      it, and, for backticks only, no backtick in the rest of the line. */
  predicate OpensFence(text: seq<int>, s: nat)
    requires s <= |text|
  {
    var c := At(text, s);
    var r := RunEnd(text, s, c);
    (c == Char(GraveAccent) || c == Char(Tilde)) && r - s >= MinFenceSize &&
    (c == Char(GraveAccent) ==> Avoids(text, r, LineEnd(text, r), c))
  }

  lemma AvoidsJoin(text: seq<int>, a: nat, b: nat, d: nat, c: Code)
    requires a <= b <= d
    ensures Avoids(text, a, d, c) <==> Avoids(text, a, b, c) && Avoids(text, b, d, c)
  {
  }

  /** The whitespace after the info string never rejects; the meta string
      rejects exactly when it holds a backtick and the fence is made of backticks. */
  lemma InfoAfterAccepts(text: seq<int>, i: nat, c: Code)
    requires i <= |text|
    ensures SequenceOpenInfoAfter(text, i, c).Some? <==> (c == Char(GraveAccent) ==> Avoids(text, i, LineEnd(text, i), c))
  {
    var w := SpaceEnd(text, i);
    LineEndSkip(text, i, w);
    assert c == Char(GraveAccent) ==> Avoids(text, i, w, c);
    AvoidsJoin(text, i, w, LineEnd(text, i), c);
  }

  lemma InfoAccepts(text: seq<int>, w: nat, c: Code)
    requires w <= |text|
    ensures SequenceOpenInfo(text, w, c).Some? <==> (c == Char(GraveAccent) ==> Avoids(text, w, LineEnd(text, w), c))
  {
    var i := WordEnd(text, w);
    LineEndSkip(text, w, i);
    AvoidsJoin(text, w, i, LineEnd(text, w), c);
    if !IsEol(At(text, i)) {
      InfoAfterAccepts(text, i, c);
    }
  }

  lemma SequenceOpenAfterAccepts(text: seq<int>, r: nat, c: Code)
    requires r <= |text|
    ensures SequenceOpenAfter(text, r, c).Some? <==> (c == Char(GraveAccent) ==> Avoids(text, r, LineEnd(text, r), c))
  {
    var w := SpaceEnd(text, r);
    LineEndSkip(text, r, w);
    assert c == Char(GraveAccent) ==> Avoids(text, r, w, c);
    AvoidsJoin(text, r, w, LineEnd(text, r), c);
    if !IsEol(At(text, w)) {
      InfoAccepts(text, w, c);
    }
  }

  /** The construct matches exactly when the opening condition holds: it
      needs no closing fence. The fence's marker is the first code point and
      its size the length of the run. */
  lemma FencedCodeBlockAccepts(text: seq<int>, s: nat, indent: int)
    requires s <= |text|
    ensures FencedCodeBlock(text, s, indent).Some? <==> OpensFence(text, s)
    ensures OpeningFence(text, s).Some? <==> OpensFence(text, s)
    ensures OpeningFence(text, s).Some? ==>
      var f := OpeningFence(text, s).value;
      f.marker == text[s] && f.size == RunEnd(text, s, At(text, s)) - s && f.lineEnd == LineEnd(text, s)
  {
    var c := At(text, s);
    if c == Char(GraveAccent) || c == Char(Tilde) {
      var r := RunEnd(text, s, c);
      SequenceOpenAfterAccepts(text, r, c);
      LineEndSkip(text, s, r);
    }
  }

  // ------------------------------------------------------- info and meta

  /** Some event of `ss` is of type `kind`. */
  predicate HasKind(ss: seq<Shape>, kind: TokenType) {
    exists k :: 0 <= k < |ss| && ss[k].kind == kind
  }

  lemma HasKindConcat(a: seq<Shape>, b: seq<Shape>, kind: TokenType)
    ensures HasKind(a + b, kind) <==> HasKind(a, kind) || HasKind(b, kind)
  {
    if HasKind(a + b, kind) {
      var k :| 0 <= k < |a + b| && (a + b)[k].kind == kind;
      if k < |a| {
        assert a[k].kind == kind;
      } else {
        assert b[k - |a|].kind == kind;
      }
    }
    if HasKind(a, kind) {
      var k :| 0 <= k < |a| && a[k].kind == kind;
      assert (a + b)[k].kind == kind;
    }
    if HasKind(b, kind) {
      var k :| 0 <= k < |b| && b[k].kind == kind;
      assert (a + b)[|a| + k].kind == kind;
    }
  }

  lemma HasKindPair(x: Shape, y: Shape, kind: TokenType)
    ensures HasKind([x, y], kind) <==> x.kind == kind || y.kind == kind
  {
    if x.kind == kind {
      assert [x, y][0].kind == kind;
    } else if y.kind == kind {
      assert [x, y][1].kind == kind;
    }
  }

  lemma HasKindWhitespace(i: nat, j: nat, kind: TokenType)
    requires kind != FencedCodeFenceWhitespace
    ensures !HasKind(Whitespace(i, j), kind)
  {
    if j > i {
      HasKindPair(En(FencedCodeFenceWhitespace, i), Ex(FencedCodeFenceWhitespace, j), kind);
    }
  }

  /** After the info string a meta token appears exactly when the line goes on
      past the whitespace, and then it runs from there to the line ending. */
  lemma InfoAfterMeta(text: seq<int>, i: nat, c: Code)
    requires i <= |text| && SequenceOpenInfoAfter(text, i, c).Some?
    ensures var v := SequenceOpenInfoAfter(text, i, c).value;
      var m := SpaceEnd(text, i);
      !HasKind(v, FencedCodeFenceInfo) &&
      (HasKind(v, FencedCodeFenceMeta) <==> !IsEol(At(text, m))) &&
      (HasKind(v, FencedCodeFenceMeta) ==> En(FencedCodeFenceMeta, m) in v && Ex(FencedCodeFenceMeta, LineEnd(text, i)) in v)
  {
    var m := SpaceEnd(text, i);
    LineEndSkip(text, i, m);
    HasKindWhitespace(i, m, FencedCodeFenceInfo);
    HasKindWhitespace(i, m, FencedCodeFenceMeta);
    if !IsEol(At(text, m)) {
      var e := LineEnd(text, m);
      HasKindConcat(Whitespace(i, m), [En(FencedCodeFenceMeta, m), Ex(FencedCodeFenceMeta, e)], FencedCodeFenceInfo);
      HasKindConcat(Whitespace(i, m), [En(FencedCodeFenceMeta, m), Ex(FencedCodeFenceMeta, e)], FencedCodeFenceMeta);
      HasKindPair(En(FencedCodeFenceMeta, m), Ex(FencedCodeFenceMeta, e), FencedCodeFenceInfo);
      HasKindPair(En(FencedCodeFenceMeta, m), Ex(FencedCodeFenceMeta, e), FencedCodeFenceMeta);
    }
  }

  /** The info token spans the first word; the meta token follows the rules above. */
  lemma InfoMeta(text: seq<int>, w: nat, c: Code)
    requires w <= |text| && SequenceOpenInfo(text, w, c).Some?
    ensures var v := SequenceOpenInfo(text, w, c).value;
      var i := WordEnd(text, w);
      var m := SpaceEnd(text, i);
      HasKind(v, FencedCodeFenceInfo) &&
      En(FencedCodeFenceInfo, w) in v && Ex(FencedCodeFenceInfo, i) in v &&
      (HasKind(v, FencedCodeFenceMeta) <==> !IsEol(At(text, i)) && !IsEol(At(text, m))) &&
      (HasKind(v, FencedCodeFenceMeta) ==> En(FencedCodeFenceMeta, m) in v && Ex(FencedCodeFenceMeta, LineEnd(text, w)) in v)
  {
    var i := WordEnd(text, w);
    var info := [En(FencedCodeFenceInfo, w), Ex(FencedCodeFenceInfo, i)];
    LineEndSkip(text, w, i);
    HasKindPair(En(FencedCodeFenceInfo, w), Ex(FencedCodeFenceInfo, i), FencedCodeFenceInfo);
    HasKindPair(En(FencedCodeFenceInfo, w), Ex(FencedCodeFenceInfo, i), FencedCodeFenceMeta);
    if !IsEol(At(text, i)) {
      InfoAfterMeta(text, i, c);
      var rest := SequenceOpenInfoAfter(text, i, c).value;
      HasKindConcat(info, rest, FencedCodeFenceInfo);
      HasKindConcat(info, rest, FencedCodeFenceMeta);
    }
  }

  /** On an opening line, an info token appears exactly when something other
      than whitespace follows the sequence, and a meta token exactly when,
      after the info word, whitespace is followed by something other than a
      line ending; trailing whitespace after the info gives no meta. The
      meta token runs to the end of the line and may hold spaces. */
  lemma OpeningInfoMeta(text: seq<int>, s: nat)
    requires s <= |text| && OpeningFence(text, s).Some?
    ensures var f := OpeningFence(text, s).value;
      var r := RunEnd(text, s, At(text, s));
      var w := SpaceEnd(text, r);
      var i := WordEnd(text, w);
      var m := SpaceEnd(text, i);
      (HasKind(f.marks, FencedCodeFenceInfo) <==> !IsEol(At(text, w))) &&
      (HasKind(f.marks, FencedCodeFenceInfo) ==> En(FencedCodeFenceInfo, w) in f.marks && Ex(FencedCodeFenceInfo, i) in f.marks) &&
      (HasKind(f.marks, FencedCodeFenceMeta) <==> !IsEol(At(text, w)) && !IsEol(At(text, i)) && !IsEol(At(text, m))) &&
      (HasKind(f.marks, FencedCodeFenceMeta) ==> En(FencedCodeFenceMeta, m) in f.marks && Ex(FencedCodeFenceMeta, f.lineEnd) in f.marks)
  {
    var c := At(text, s);
    var f := OpeningFence(text, s).value;
    var r := RunEnd(text, s, c);
    var w := SpaceEnd(text, r);
    var head := OpeningHead(s, r);
    var rest := SequenceOpenAfter(text, r, c).value;
    var tail := [Ex(FencedCodeFenceStart, LineEnd(text, r))];
    LineEndSkip(text, r, w);
    forall kind | kind == FencedCodeFenceInfo || kind == FencedCodeFenceMeta
      ensures HasKind(f.marks, kind) <==> HasKind(rest, kind)
    {
      HasKindConcat(head + rest, tail, kind);
      HasKindConcat(head, rest, kind);
    }
    HasKindWhitespace(r, w, FencedCodeFenceInfo);
    HasKindWhitespace(r, w, FencedCodeFenceMeta);
    if !IsEol(At(text, w)) {
      InfoMeta(text, w, c);
      var v := SequenceOpenInfo(text, w, c).value;
      HasKindConcat(Whitespace(r, w), v, FencedCodeFenceInfo);
      HasKindConcat(Whitespace(r, w), v, FencedCodeFenceMeta);
    }
  }

  // ------------------------------------------------------------ indentation

  /** The column width of the spaces and tabs in [i, j): a space counts one, a tab four. */
  function WidthSum(text: seq<int>, i: nat, j: nat): nat
    decreases j - i
  {
    if i >= j then 0 else Width(At(text, i)) + WidthSum(text, i + 1, j)
  }

  /** linePrefix takes a space or tab exactly while the width taken so far is
      below the limit: every code point it takes was reached with a smaller
      width, and it stops at a space or tab only once the limit is reached. */
  lemma {:induction false} PrefixEndStops(text: seq<int>, i: nat, size: int, limit: int)
    requires i <= |text|
    ensures var p := PrefixEnd(text, i, size, limit);
      (forall k :: i <= k < p ==> size + WidthSum(text, i, k) < limit) &&
      (IsSpaceOrTab(At(text, p)) ==> size + WidthSum(text, i, p) >= limit)
    decreases |text| - i
  {
    var p := PrefixEnd(text, i, size, limit);
    if size < limit && i < |text| && IsSpaceOrTab(At(text, i)) {
      var size' := size + Width(At(text, i));
      PrefixEndStops(text, i + 1, size', limit);
      forall k | i < k <= p
        ensures WidthSum(text, i, k) == Width(At(text, i)) + WidthSum(text, i + 1, k)
      {
      }
    }
  }

  /** The content line's prefix: when the opening fence was indented and the
      line starts with a space or tab, a linePrefix token takes spaces and
      tabs while the width before each one is below the indentation (so a
      last tab may take it past), and codeLineData covers the rest of the
      line, if there is any. */
  lemma ContentLinePrefix(text: seq<int>, l: nat, indent: int)
    requires l <= |text| && indent != 0 && IsSpaceOrTab(At(text, l))
    ensures var p := PrefixEnd(text, l, 0, indent);
      var e := LineEnd(text, l);
      p <= e &&
      (forall k :: l <= k < p ==> IsSpaceOrTab(At(text, k)) && WidthSum(text, l, k) < indent) &&
      (IsSpaceOrTab(At(text, p)) ==> WidthSum(text, l, p) >= indent) &&
      ContentLine(text, l, indent) == [En(LinePrefix, l), Ex(LinePrefix, p)] + (if p < e then [En(CodeLineData, p), Ex(CodeLineData, e)] else [])
  {
    var p := PrefixEnd(text, l, 0, indent);
    PrefixEndStops(text, l, 0, indent);
    LineEndSkip(text, l, p);
  }

  /** Without indentation, or when the line does not start with a space or
      tab, the whole non-empty line is codeLineData. */
  lemma ContentLineData(text: seq<int>, l: nat, indent: int)
    requires l <= |text| && (indent == 0 || !IsSpaceOrTab(At(text, l)))
    ensures ContentLine(text, l, indent) ==
      if IsEol(At(text, l)) then [] else [En(CodeLineData, l), Ex(CodeLineData, LineEnd(text, l))]
  {
  }

  // --------------------------------------------------------- closing fence

  /** The closing prefix succeeds exactly when the total width of the leading
      spaces and tabs stays below a tab stop, and then ends where they end. */
  lemma {:induction false} ClosingPrefixWidth(text: seq<int>, i: nat, size: nat)
    requires i <= |text| && size < TabSize
    ensures ClosingPrefixEnd(text, i, size) ==
      if size + WidthSum(text, i, SpaceEnd(text, i)) < TabSize then Some(SpaceEnd(text, i)) else None
    decreases |text| - i
  {
    if i < |text| && IsSpaceOrTab(At(text, i)) {
      var size' := size + Width(At(text, i));
      if size' < TabSize {
        ClosingPrefixWidth(text, i + 1, size');
      }
    }
  }

  /** A line closes the block exactly when its leading spaces and tabs are
      less than a tab stop wide, then comes a run of the opening marker at
      least as long as the opening sequence, then only spaces and tabs up to
      the line ending. The block then ends at that line ending. */
  lemma ClosingFenceAccepts(text: seq<int>, l: nat, marker: int, size: nat)
    requires l <= |text| && (marker == GraveAccent || marker == Tilde)
    ensures var q := SpaceEnd(text, l);
      var t := RunEnd(text, q, Char(marker));
      var u := SpaceEnd(text, t);
      (ClosingFence(text, l, marker, size).Some? <==>
        WidthSum(text, l, q) < TabSize && At(text, q) == Char(marker) && t - q >= size && IsEol(At(text, u))) &&
      (ClosingFence(text, l, marker, size).Some? ==> ClosingFence(text, l, marker, size).value.lineEnd == u == LineEnd(text, l))
  {
    var q := SpaceEnd(text, l);
    ClosingPrefixWidth(text, l, 0);
    var t := RunEnd(text, q, Char(marker));
    var u := SpaceEnd(text, t);
    if ClosingFence(text, l, marker, size).Some? {
      LineEndSkip(text, l, q);
      LineEndSkip(text, q, t);
      LineEndSkip(text, t, u);
    }
  }

  // ------------------------------------------------------ nesting and order

  lemma WhitespaceNested(i: nat, j: nat)
    requires i <= j
    ensures Nested(Whitespace(i, j), i, j)
  {
    if j > i {
      NestedPair(En(FencedCodeFenceWhitespace, i), Ex(FencedCodeFenceWhitespace, j));
    }
  }

  lemma PrefixNested(i: nat, j: nat)
    requires i <= j
    ensures Nested(Prefix(i, j), i, j)
  {
    if j > i {
      NestedPair(En(LinePrefix, i), Ex(LinePrefix, j));
    }
  }

  /** The kinds fencedCodeFenceStart may enclose. */
  predicate StartPart(kind: TokenType) {
    kind == FencedCodeFenceSequence || kind == FencedCodeFenceWhitespace ||
    kind == FencedCodeFenceInfo || kind == FencedCodeFenceMeta
  }

  predicate AllStartParts(ss: seq<Shape>) {
    forall k :: 0 <= k < |ss| ==> StartPart(ss[k].kind)
  }

  lemma InfoAfterNested(text: seq<int>, i: nat, c: Code)
    requires i <= |text| && SequenceOpenInfoAfter(text, i, c).Some?
    ensures var v := SequenceOpenInfoAfter(text, i, c).value;
      Nested(v, i, LineEnd(text, i)) && AllStartParts(v)
  {
    var w := SpaceEnd(text, i);
    LineEndSkip(text, i, w);
    WhitespaceNested(i, w);
    if !IsEol(At(text, w)) {
      var e := LineEnd(text, w);
      NestedPair(En(FencedCodeFenceMeta, w), Ex(FencedCodeFenceMeta, e));
      NestedConcat(Whitespace(i, w), [En(FencedCodeFenceMeta, w), Ex(FencedCodeFenceMeta, e)], i, w, e);
    } else {
      NestedWiden(Whitespace(i, w), i, w, i, LineEnd(text, i));
    }
  }

  lemma InfoNested(text: seq<int>, w: nat, c: Code)
    requires w <= |text| && SequenceOpenInfo(text, w, c).Some?
    ensures var v := SequenceOpenInfo(text, w, c).value;
      Nested(v, w, LineEnd(text, w)) && AllStartParts(v)
  {
    var i := WordEnd(text, w);
    var info := [En(FencedCodeFenceInfo, w), Ex(FencedCodeFenceInfo, i)];
    LineEndSkip(text, w, i);
    NestedPair(En(FencedCodeFenceInfo, w), Ex(FencedCodeFenceInfo, i));
    if !IsEol(At(text, i)) {
      InfoAfterNested(text, i, c);
      NestedConcat(info, SequenceOpenInfoAfter(text, i, c).value, w, i, LineEnd(text, i));
    } else {
      NestedWiden(info, w, i, w, LineEnd(text, w));
    }
  }

  lemma SequenceOpenAfterNested(text: seq<int>, r: nat, c: Code)
    requires r <= |text| && SequenceOpenAfter(text, r, c).Some?
    ensures var v := SequenceOpenAfter(text, r, c).value;
      Nested(v, r, LineEnd(text, r)) && AllStartParts(v)
  {
    var w := SpaceEnd(text, r);
    LineEndSkip(text, r, w);
    WhitespaceNested(r, w);
    if !IsEol(At(text, w)) {
      InfoNested(text, w, c);
      NestedConcat(Whitespace(r, w), SequenceOpenInfo(text, w, c).value, r, w, LineEnd(text, w));
    } else {
      NestedWiden(Whitespace(r, w), r, w, r, LineEnd(text, r));
    }
  }

  /** fencedCodeFenceStart opens right after fencedCode and closes the
      opening fence's events at the end of the opening line; what it encloses
      is well nested and made only of the sequence, whitespace, info and meta
      tokens. */
  lemma OpeningFenceNested(text: seq<int>, s: nat)
    requires s <= |text| && OpeningFence(text, s).Some?
    ensures var f := OpeningFence(text, s).value;
      |f.marks| >= 5 && s <= f.lineEnd && f.marks[0] == En(FencedCode, s) &&
      f.marks[1] == En(FencedCodeFenceStart, s) && f.marks[|f.marks| - 1] == Ex(FencedCodeFenceStart, f.lineEnd) &&
      Nested(f.marks[1..], s, f.lineEnd) && AllStartParts(f.marks[2..|f.marks| - 1])
  {
    var c := At(text, s);
    var f := OpeningFence(text, s).value;
    var r := RunEnd(text, s, c);
    var e := LineEnd(text, r);
    var rest := SequenceOpenAfter(text, r, c).value;
    SequenceOpenAfterNested(text, r, c);
    var sq := [En(FencedCodeFenceSequence, s), Ex(FencedCodeFenceSequence, r)];
    NestedPair(En(FencedCodeFenceSequence, s), Ex(FencedCodeFenceSequence, r));
    NestedConcat(sq, rest, s, r, e);
    NestedWrap(En(FencedCodeFenceStart, s), sq + rest, Ex(FencedCodeFenceStart, e), s, e);
    assert f.marks == [En(FencedCode, s)] + ([En(FencedCodeFenceStart, s)] + (sq + rest) + [Ex(FencedCodeFenceStart, e)]);
    assert f.marks[1..] == [En(FencedCodeFenceStart, s)] + (sq + rest) + [Ex(FencedCodeFenceStart, e)];
    assert f.marks[2..|f.marks| - 1] == sq + rest;
  }

  lemma ClosingFenceNested(text: seq<int>, l: nat, marker: int, size: nat)
    requires l <= |text| && ClosingFence(text, l, marker, size).Some?
    ensures var c := ClosingFence(text, l, marker, size).value;
      l <= c.lineEnd && Nested(c.marks, l, c.lineEnd)
  {
    var q := ClosingPrefixEnd(text, l, 0).value;
    var t := RunEnd(text, q, Char(marker));
    var u := SpaceEnd(text, t);
    PrefixNested(l, q);
    WhitespaceNested(t, u);
    var sq := [En(FencedCodeFenceSequence, q), Ex(FencedCodeFenceSequence, t)];
    NestedPair(En(FencedCodeFenceSequence, q), Ex(FencedCodeFenceSequence, t));
    NestedConcat(sq, Whitespace(t, u), q, t, u);
    NestedWrap(En(FencedCodeFenceEnd, q), sq + Whitespace(t, u), Ex(FencedCodeFenceEnd, u), q, u);
    assert [En(FencedCodeFenceEnd, q), En(FencedCodeFenceSequence, q)] + ClosingTail(t, u)
        == [En(FencedCodeFenceEnd, q)] + (sq + Whitespace(t, u)) + [Ex(FencedCodeFenceEnd, u)];
    NestedConcat(Prefix(l, q), [En(FencedCodeFenceEnd, q)] + (sq + Whitespace(t, u)) + [Ex(FencedCodeFenceEnd, u)], l, q, u);
  }

  lemma ContentLineNested(text: seq<int>, l: nat, indent: int)
    requires l <= |text|
    ensures Nested(ContentLine(text, l, indent), l, LineEnd(text, l))
  {
    var e := LineEnd(text, l);
    if e == l {
      NestedEmpty(l, e);
    } else if indent != 0 && IsSpaceOrTab(At(text, l)) {
      var p := PrefixEnd(text, l, 0, indent);
      LineEndSkip(text, l, p);
      NestedPair(En(LinePrefix, l), Ex(LinePrefix, p));
      if p == e {
        NestedEmpty(p, e);
      } else {
        NestedPair(En(CodeLineData, p), Ex(CodeLineData, e));
      }
      NestedConcat([En(LinePrefix, l), Ex(LinePrefix, p)], if p == e then [] else [En(CodeLineData, p), Ex(CodeLineData, e)], l, p, e);
    } else {
      NestedPair(En(CodeLineData, l), Ex(CodeLineData, e));
    }
  }

  lemma {:induction false} BodyNested(text: seq<int>, l: nat, marker: int, size: nat, indent: int)
    requires l <= |text|
    ensures var b := Body(text, l, marker, size, indent); Nested(b.marks, l, b.end)
    decreases |text| - l
  {
    match ClosingFence(text, l, marker, size)
    case Some(c) =>
      ClosingFenceNested(text, l, marker, size);
    case None =>
      var e := LineEnd(text, l);
      var line := ContentLine(text, l, indent);
      ContentLineNested(text, l, indent);
      if e < |text| {
        var rest := Body(text, e + 1, marker, size, indent);
        BodyNested(text, e + 1, marker, size, indent);
        var feed := [En(CodeLineFeed, e), Ex(CodeLineFeed, e + 1)];
        NestedPair(En(CodeLineFeed, e), Ex(CodeLineFeed, e + 1));
        NestedConcat(line, feed, l, e, e + 1);
        NestedConcat(line + feed, rest.marks, l, e + 1, rest.end);
      }
  }

  /** What follows the opening line is well nested up to the final exit of fencedCode. */
  lemma AfterOpeningNested(text: seq<int>, e: nat, marker: int, size: nat, indent: int)
    requires e <= |text|
    ensures var a := AfterOpening(text, e, marker, size, indent);
      |a.marks| >= 1 && a.marks[|a.marks| - 1] == Ex(FencedCode, a.end) && Nested(a.marks[..|a.marks| - 1], e, a.end)
  {
    var a := AfterOpening(text, e, marker, size, indent);
    if e == |text| {
      assert a.marks[..|a.marks| - 1] == [];
      NestedEmpty(e, e);
    } else {
      var body := Body(text, e + 1, marker, size, indent);
      BodyNested(text, e + 1, marker, size, indent);
      var feed := [En(LineFeed, e), Ex(LineFeed, e + 1)];
      NestedPair(En(LineFeed, e), Ex(LineFeed, e + 1));
      NestedConcat(feed, body.marks, e, e + 1, body.end);
      assert a.marks[..|a.marks| - 1] == feed + body.marks;
    }
  }

  /** An opening fence's events followed by what comes after the opening line. */
  lemma NestedBlock(s: nat, fm: seq<Shape>, am: seq<Shape>, lineEnd: nat, end: nat)
    requires s <= lineEnd <= end && |fm| >= 1 && |am| >= 1
    requires fm[0] == En(FencedCode, s) && Nested(fm[1..], s, lineEnd)
    requires am[|am| - 1] == Ex(FencedCode, end) && Nested(am[..|am| - 1], lineEnd, end)
    ensures (fm + am)[0] == En(FencedCode, s) && (fm + am)[|fm + am| - 1] == Ex(FencedCode, end)
    ensures Nested(fm + am, s, end)
  {
    var start := fm[1..];
    var inner := am[..|am| - 1];
    NestedConcat(start, inner, s, lineEnd, end);
    NestedWrap(En(FencedCode, s), start + inner, Ex(FencedCode, end), s, end);
    assert fm + am == [En(FencedCode, s)] + (start + inner) + [Ex(FencedCode, end)];
  }

  /** The events of a fenced code block are balanced and properly nested,
      with fencedCode around everything, and their offsets never decrease,
      from where the block starts to where it ends. */
  lemma FencedCodeNested(text: seq<int>, s: nat, indent: int)
    requires s <= |text| && FencedCodeBlock(text, s, indent).Some?
    ensures var b := FencedCodeBlock(text, s, indent).value;
      b.marks[0] == En(FencedCode, s) && b.marks[|b.marks| - 1] == Ex(FencedCode, b.end) &&
      Nested(b.marks, s, b.end) && Balanced(b.marks) && Ordered(b.marks)
  {
    var f := OpeningFence(text, s).value;
    var a := AfterOpening(text, f.lineEnd, f.marker, f.size, indent);
    OpeningFenceNested(text, s);
    AfterOpeningNested(text, f.lineEnd, f.marker, f.size, indent);
    NestedBlock(s, f.marks, a.marks, f.lineEnd, a.end);
  }
}
