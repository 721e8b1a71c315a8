/** The fenced-code construct's state machines, run over an Effects object.
    Each state examines the code point under the cursor and either consumes
    it and stays, or moves to another state without consuming it, or ends
    the machine with ok or nok. */
module FencedCode {
  import opened Codes
  import opened Events
  import opened Engine
  import opened FenceSpec

  // ------------------------------------------------- states that consume a run

  /** The self-loop of sequenceOpen and closingSequence: consumes the run of
      `marker` under the cursor and counts it. */
  method ConsumeSequence(e: Effects, marker: int) returns (size: nat)
    requires e.Valid()
    modifies e
    ensures e.Valid() && e.log == old(e.log) && e.stack == old(e.stack)
    ensures e.pos == RunEnd(e.text, old(e.pos), Char(marker)) && size == e.pos - old(e.pos)
  {
    size := 0;
    while e.Current() == Char(marker)
      invariant e.Valid() && e.log == old(e.log) && e.stack == old(e.stack)
      invariant old(e.pos) <= e.pos && size == e.pos - old(e.pos)
      invariant RunEnd(e.text, e.pos, Char(marker)) == RunEnd(e.text, old(e.pos), Char(marker))
      decreases |e.text| - e.pos
    {
      size := size + 1;
      e.Consume(e.Current());
    }
  }

  /** The self-loop of the whitespace states (sequenceOpenAfter,
      sequenceOpenInfoAfter, closingSequenceAfter): consumes spaces and tabs. */
  method ConsumeWhitespace(e: Effects)
    requires e.Valid()
    modifies e
    ensures e.Valid() && e.log == old(e.log) && e.stack == old(e.stack)
    ensures e.pos == SpaceEnd(e.text, old(e.pos))
  {
    while IsSpaceOrTab(e.Current())
      invariant e.Valid() && e.log == old(e.log) && e.stack == old(e.stack)
      invariant old(e.pos) <= e.pos && SpaceEnd(e.text, e.pos) == SpaceEnd(e.text, old(e.pos))
      decreases |e.text| - e.pos
    {
      e.Consume(e.Current());
    }
  }

  /** The self-loop of closingPrefix: consumes spaces and tabs, failing as
      soon as their width reaches a tab stop. */
  method ConsumeClosingPrefix(e: Effects) returns (ok: bool)
    requires e.Valid()
    modifies e
    ensures e.Valid() && e.log == old(e.log) && e.stack == old(e.stack)
    ensures var r := ClosingPrefixEnd(e.text, old(e.pos), 0); (ok <==> r.Some?) && (ok ==> e.pos == r.value)
  {
    var prefixSize: nat := 0;
    while IsSpaceOrTab(e.Current())
      invariant e.Valid() && e.log == old(e.log) && e.stack == old(e.stack)
      invariant old(e.pos) <= e.pos && prefixSize < TabSize
      invariant ClosingPrefixEnd(e.text, e.pos, prefixSize) == ClosingPrefixEnd(e.text, old(e.pos), 0)
      decreases |e.text| - e.pos
    {
      var code := e.Current();
      prefixSize := prefixSize + Width(code);
      if prefixSize >= TabSize {
        // A closing fence cannot be indented by a tab stop or more.
        return false;
      }
      e.Consume(code);
    }
    return true;
  }

  /** A whitespace token over the spaces and tabs under the cursor, if there are any. */
  method FenceWhitespace(e: Effects)
    requires e.Valid()
    modifies e
    ensures e.Valid() && e.stack == old(e.stack)
    ensures e.pos == SpaceEnd(e.text, old(e.pos))
    ensures Shapes(e.log) == Shapes(old(e.log)) + Whitespace(old(e.pos), e.pos)
    ensures |old(e.log)| <= |e.log| && e.log[..|old(e.log)|] == old(e.log)
  {
    if IsSpaceOrTab(e.Current()) {
      e.Enter(FencedCodeFenceWhitespace);
      ConsumeWhitespace(e);
      e.Exit(FencedCodeFenceWhitespace);
    }
  }

  // ------------------------------------------------------------ closing fence

  /** The closing-fence sub-construct, tried at a line start. On ok the
      cursor is at the line ending after the fence and the events are those
      of the reference; on nok the caller discards what was done. */
  method TokenizeClosingFence(e: Effects, marker: int, sizeOpen: nat) returns (ok: bool)
    requires e.Valid()
    modifies e
    ensures e.Valid()
    ensures var c := ClosingFence(e.text, old(e.pos), marker, sizeOpen);
      (ok <==> c.Some?) &&
      (ok ==> e.pos == c.value.lineEnd && e.stack == old(e.stack) && Shapes(e.log) == Shapes(old(e.log)) + c.value.marks)
    ensures |old(e.log)| <= |e.log| && e.log[..|old(e.log)|] == old(e.log)
  {
    ghost var l := e.pos;
    ghost var sh0 := Shapes(e.log);
    ok := ClosingStart(e);
    if !ok {
      return;
    }
    ghost var q := e.pos;
    ghost var log1 := e.log;
    ok := ClosingPrefixAfter(e, marker, sizeOpen);
    if ok {
      ghost var c := ClosingSequence(e.text, q, marker, sizeOpen).value;
      assert Shapes(e.log) == sh0 + (Prefix(l, q) + c.marks);
    }
    assert e.log[..|log1|] == log1;
  }

  /** closingStart and closingPrefix: the leading whitespace of a closing
      fence, as a linePrefix token. */
  method ClosingStart(e: Effects) returns (ok: bool)
    requires e.Valid()
    modifies e
    ensures e.Valid()
    ensures var r := ClosingPrefixEnd(e.text, old(e.pos), 0);
      (ok <==> r.Some?) &&
      (ok ==> e.pos == r.value && e.stack == old(e.stack) && Shapes(e.log) == Shapes(old(e.log)) + Prefix(old(e.pos), e.pos))
    ensures |old(e.log)| <= |e.log| && e.log[..|old(e.log)|] == old(e.log)
  {
    if !IsSpaceOrTab(e.Current()) {
      return true;
    }
    e.Enter(LinePrefix);
    ok := ConsumeClosingPrefix(e);
    if ok {
      e.Exit(LinePrefix);
    }
  }

  /** closingPrefixAfter to closingSequenceEnd: a run of at least `sizeOpen`
      markers, optional whitespace, then the line ending. */
  method ClosingPrefixAfter(e: Effects, marker: int, sizeOpen: nat) returns (ok: bool)
    requires e.Valid()
    modifies e
    ensures e.Valid()
    ensures var c := ClosingSequence(e.text, old(e.pos), marker, sizeOpen);
      (ok <==> c.Some?) &&
      (ok ==> e.pos == c.value.lineEnd && e.stack == old(e.stack) && Shapes(e.log) == Shapes(old(e.log)) + c.value.marks)
    ensures |old(e.log)| <= |e.log| && e.log[..|old(e.log)|] == old(e.log)
  {
    ghost var q := e.pos;
    ghost var log0 := e.log;
    ghost var sh0 := Shapes(e.log);
    if e.Current() != Char(marker) {
      return false;
    }
    e.Enter(FencedCodeFenceEnd);
    e.Enter(FencedCodeFenceSequence);
    var size := ConsumeSequence(e, marker);
    if size < sizeOpen {
      return false;
    }
    ok := ClosingSequenceAfter(e);
  }

  /** From the end of a closing sequence: closingSequenceAfter and
      closingSequenceEnd, with the sequence and fence tokens still open. */
  method ClosingSequenceAfter(e: Effects) returns (ok: bool)
    requires e.Valid() && |e.stack| >= 2
    requires e.stack[|e.stack| - 2].kind == FencedCodeFenceEnd && e.stack[|e.stack| - 1].kind == FencedCodeFenceSequence
    modifies e
    ensures e.Valid()
    ensures var u := SpaceEnd(e.text, old(e.pos));
      (ok <==> IsEol(At(e.text, u))) &&
      (ok ==> e.pos == u && e.stack == old(e.stack)[..|old(e.stack)| - 2] &&
              Shapes(e.log) == Shapes(old(e.log)) + ClosingTail(old(e.pos), u))
    ensures var floor := old(e.stack[|e.stack| - 2].index);
      floor <= |e.log| && floor <= |old(e.log)| && e.log[..floor] == old(e.log)[..floor]
  {
    ghost var t := e.pos;
    ghost var sh0 := Shapes(e.log);
    ghost var floor := e.stack[|e.stack| - 2].index;
    assert OpenIn(e.log, e.stack[|e.stack| - 2]);
    assert e.stack[|e.stack| - 1].index > floor;
    e.Exit(FencedCodeFenceSequence);
    assert e.log[..floor] == old(e.log)[..floor];
    ghost var log1 := e.log;
    FenceWhitespace(e);
    assert e.log[..floor] == log1[..floor];
    ghost var u := e.pos;
    if !IsEol(e.Current()) {
      return false;
    }
    assert Shapes(e.log) == sh0 + [Ex(FencedCodeFenceSequence, t)] + Whitespace(t, u);
    e.Exit(FencedCodeFenceEnd);
    return true;
  }

  /** `attempt`: runs the closing-fence sub-construct and, when it fails,
      puts the log, the cursor and the open tokens back as they were. */
  method AttemptClosingFence(e: Effects, marker: int, sizeOpen: nat) returns (ok: bool)
    requires e.Valid()
    modifies e
    ensures e.Valid()
    ensures var c := ClosingFence(e.text, old(e.pos), marker, sizeOpen);
      (ok <==> c.Some?) &&
      (ok ==> e.pos == c.value.lineEnd && e.stack == old(e.stack) && Shapes(e.log) == Shapes(old(e.log)) + c.value.marks) &&
      (!ok ==> e.log == old(e.log) && e.pos == old(e.pos) && e.point == old(e.point) && e.stack == old(e.stack))
    ensures |old(e.log)| <= |e.log| && e.log[..|old(e.log)|] == old(e.log)
  {
    var snap := e.Save();
    ok := TokenizeClosingFence(e, marker, sizeOpen);
    if !ok {
      assert e.log[..snap.count] == old(e.log);
      e.Restore(snap);
    }
  }

  // ------------------------------------------------------------ opening fence

  /** The self-loop of sequenceOpenInfo: consumes the info string up to a
      space, tab or line ending, failing on a backtick when the fence is
      made of backticks. */
  method ConsumeInfo(e: Effects, marker: int) returns (ok: bool)
    requires e.Valid()
    modifies e
    ensures e.Valid() && e.log == old(e.log) && e.stack == old(e.stack)
    ensures var i := WordEnd(e.text, old(e.pos));
      (ok <==> marker != GraveAccent || Avoids(e.text, old(e.pos), i, Char(marker))) && (ok ==> e.pos == i)
  {
    while !IsSpaceOrTab(e.Current()) && !IsEol(e.Current())
      invariant e.Valid() && e.log == old(e.log) && e.stack == old(e.stack)
      invariant old(e.pos) <= e.pos && WordEnd(e.text, e.pos) == WordEnd(e.text, old(e.pos))
      invariant marker != GraveAccent || Avoids(e.text, old(e.pos), e.pos, Char(marker))
      decreases |e.text| - e.pos
    {
      if marker == GraveAccent && e.Current() == Char(marker) {
        return false;
      }
      e.Consume(e.Current());
    }
    return true;
  }

  /** The self-loop of sequenceOpenMeta: consumes the meta string up to
      the line ending, failing on a backtick when the fence is made of backticks. */
  method ConsumeMeta(e: Effects, marker: int) returns (ok: bool)
    requires e.Valid()
    modifies e
    ensures e.Valid() && e.log == old(e.log) && e.stack == old(e.stack)
    ensures var i := LineEnd(e.text, old(e.pos));
      (ok <==> marker != GraveAccent || Avoids(e.text, old(e.pos), i, Char(marker))) && (ok ==> e.pos == i)
  {
    while !IsEol(e.Current())
      invariant e.Valid() && e.log == old(e.log) && e.stack == old(e.stack)
      invariant old(e.pos) <= e.pos && LineEnd(e.text, e.pos) == LineEnd(e.text, old(e.pos))
      invariant marker != GraveAccent || Avoids(e.text, old(e.pos), e.pos, Char(marker))
      decreases |e.text| - e.pos
    {
      if marker == GraveAccent && e.Current() == Char(marker) {
        return false;
      }
      e.Consume(e.Current());
    }
    return true;
  }

  /** start: the marker check and the three enters; then sequenceOpen.
      On ok fencedCode is left open and the cursor is at the line ending of
      the opening line. */
  method TokenizeOpeningFence(e: Effects) returns (ok: bool, marker: int, sizeOpen: nat)
    requires e.Valid()
    modifies e
    ensures e.Valid()
    ensures var f := OpeningFence(e.text, old(e.pos));
      (ok <==> f.Some?) &&
      (ok ==> marker == f.value.marker && sizeOpen == f.value.size && e.pos == f.value.lineEnd &&
              e.stack == old(e.stack) + [Open(FencedCode, |old(e.log)|)] &&
              Shapes(e.log) == Shapes(old(e.log)) + f.value.marks)
    ensures |old(e.log)| <= |e.log| && e.log[..|old(e.log)|] == old(e.log)
  {
    ghost var s := e.pos;
    ghost var sh0 := Shapes(e.log);
    ghost var stack0 := e.stack;
    var code := e.Current();
    if code != Char(GraveAccent) && code != Char(Tilde) {
      assert e.log[..|old(e.log)|] == old(e.log);
      return false, 0, 0;
    }
    EnterFence(e);
    marker := code.value;
    ghost var stack1 := e.stack;
    ghost var log1 := e.log;
    ok, sizeOpen := RunSequenceOpen(e, marker);
    assert e.log[..|old(e.log)|] == log1[..|old(e.log)|] == old(e.log);
    ghost var r := RunEnd(e.text, s, code);
    ghost var rest := SequenceOpenAfter(e.text, r, code);
    if ok {
      ghost var tail := [Ex(FencedCodeFenceStart, LineEnd(e.text, r))];
      OpeningMarks(sh0, s, r, rest.value, tail);
      assert OpeningFence(e.text, s) == Some(Fence(marker, r - s, OpeningHead(s, r) + rest.value + tail, LineEnd(e.text, r)));
    } else {
      assert OpeningFence(e.text, s) == None;
    }
  }

  /** The events of start and sequenceOpen, split the way the methods emit them. */
  lemma OpeningMarks(sh0: seq<Shape>, s: nat, r: nat, rest: seq<Shape>, tail: seq<Shape>)
    ensures (sh0 + [En(FencedCode, s), En(FencedCodeFenceStart, s), En(FencedCodeFenceSequence, s)]) + ([Ex(FencedCodeFenceSequence, r)] + rest + tail)
            == sh0 + (OpeningHead(s, r) + rest + tail)
  {
  }

  /** The three enters of start: fencedCode, fencedCodeFenceStart and fencedCodeFenceSequence. */
  method EnterFence(e: Effects)
    requires e.Valid()
    modifies e
    ensures e.Valid() && e.pos == old(e.pos)
    ensures |e.stack| == |old(e.stack)| + 3 && e.stack[..|e.stack| - 2] == old(e.stack) + [Open(FencedCode, |old(e.log)|)]
    ensures e.stack[|e.stack| - 2].kind == FencedCodeFenceStart && e.stack[|e.stack| - 1].kind == FencedCodeFenceSequence
    ensures e.stack[|e.stack| - 2].index == |old(e.log)| + 1
    ensures |e.log| == |old(e.log)| + 3 && e.log[..|old(e.log)|] == old(e.log)
    ensures Shapes(e.log) == Shapes(old(e.log)) + [En(FencedCode, e.pos), En(FencedCodeFenceStart, e.pos), En(FencedCodeFenceSequence, e.pos)]
  {
    e.Enter(FencedCode);
    e.Enter(FencedCodeFenceStart);
    e.Enter(FencedCodeFenceSequence);
    assert e.log[..|old(e.log)|] == old(e.log);
  }

  /** sequenceOpen, entered with fencedCodeFenceStart and
      fencedCodeFenceSequence open: the run of markers, which must be at
      least three long, then the rest of the opening line, then openAfter's
      exit of fencedCodeFenceStart. */
  method RunSequenceOpen(e: Effects, marker: int) returns (ok: bool, sizeOpen: nat)
    requires e.Valid() && |e.stack| >= 2
    requires e.stack[|e.stack| - 2].kind == FencedCodeFenceStart && e.stack[|e.stack| - 1].kind == FencedCodeFenceSequence
    modifies e
    ensures e.Valid()
    ensures var r := RunEnd(e.text, old(e.pos), Char(marker));
      var rest := SequenceOpenAfter(e.text, r, Char(marker));
      (ok <==> r - old(e.pos) >= MinFenceSize && rest.Some?) &&
      (ok ==> sizeOpen == r - old(e.pos) && e.pos == LineEnd(e.text, r) && e.stack == old(e.stack)[..|old(e.stack)| - 2] &&
              Shapes(e.log) == Shapes(old(e.log)) + ([Ex(FencedCodeFenceSequence, r)] + rest.value + [Ex(FencedCodeFenceStart, e.pos)]))
    ensures var floor := old(e.stack[|e.stack| - 2].index);
      floor <= |e.log| && floor <= |old(e.log)| && e.log[..floor] == old(e.log)[..floor]
  {
    ghost var sh0 := Shapes(e.log);
    ghost var floor := e.stack[|e.stack| - 2].index;
    assert OpenIn(e.log, e.stack[|e.stack| - 2]);
    assert e.stack[|e.stack| - 1].index > floor;
    sizeOpen := ConsumeSequence(e, marker);
    ghost var r := e.pos;
    if sizeOpen < MinFenceSize {
      ok := false;
      return;
    }
    e.Exit(FencedCodeFenceSequence);
    assert e.log[..floor] == old(e.log)[..floor];
    ghost var log1 := e.log;
    ghost var stack1 := e.stack;
    ok := RunSequenceOpenAfter(e, marker);
    assert e.log[..floor] == log1[..floor];
    if ok {
      ghost var rest := SequenceOpenAfter(e.text, r, Char(marker)).value;
      ghost var log2 := e.log;
      ExitFenceStart(e);
      assert e.log[..floor] == log2[..floor];
      assert stack1[..|stack1| - 1] == old(e.stack)[..|old(e.stack)| - 2];
      AppendAssoc(sh0 + [Ex(FencedCodeFenceSequence, r)], rest, [Ex(FencedCodeFenceStart, e.pos)]);
      AppendAssoc(sh0, [Ex(FencedCodeFenceSequence, r)] + rest, [Ex(FencedCodeFenceStart, e.pos)]);
      AppendAssoc(sh0, [Ex(FencedCodeFenceSequence, r)], rest);
    }
  }

  /** openAfter's exit of fencedCodeFenceStart. */
  method ExitFenceStart(e: Effects)
    requires e.Valid() && e.stack != [] && e.stack[|e.stack| - 1].kind == FencedCodeFenceStart
    modifies e
    ensures e.Valid() && e.pos == old(e.pos)
    ensures e.stack == old(e.stack)[..|old(e.stack)| - 1]
    ensures Shapes(e.log) == Shapes(old(e.log)) + [Ex(FencedCodeFenceStart, e.pos)]
    ensures var floor := old(e.stack[|e.stack| - 1].index);
      floor < |old(e.log)| < |e.log| && e.log[..floor] == old(e.log)[..floor]
  {
    assert OpenIn(e.log, e.stack[|e.stack| - 1]);
    e.Exit(FencedCodeFenceStart);
  }

  /** sequenceOpenAfter: optional whitespace after the sequence, then an
      info string unless the line ends. */
  method RunSequenceOpenAfter(e: Effects, marker: int) returns (ok: bool)
    requires e.Valid()
    modifies e
    ensures e.Valid()
    ensures var rest := SequenceOpenAfter(e.text, old(e.pos), Char(marker));
      (ok <==> rest.Some?) &&
      (ok ==> e.pos == LineEnd(e.text, old(e.pos)) && e.stack == old(e.stack) && Shapes(e.log) == Shapes(old(e.log)) + rest.value)
    ensures |old(e.log)| <= |e.log| && e.log[..|old(e.log)|] == old(e.log)
  {
    ghost var r := e.pos;
    ghost var sh0 := Shapes(e.log);
    FenceWhitespace(e);
    ghost var w := e.pos;
    LineEndSkip(e.text, r, w);
    if IsEol(e.Current()) {
      return true;
    }
    ghost var log1 := e.log;
    ok := RunSequenceOpenInfo(e, marker);
    assert e.log[..|old(e.log)|] == log1[..|old(e.log)|];
    if ok {
      AppendAssoc(sh0, Whitespace(r, w), SequenceOpenInfo(e.text, w, Char(marker)).value);
    }
  }

  /** sequenceOpenInfo: the info string, then the meta part unless the line ends. */
  method RunSequenceOpenInfo(e: Effects, marker: int) returns (ok: bool)
    requires e.Valid()
    modifies e
    ensures e.Valid()
    ensures var rest := SequenceOpenInfo(e.text, old(e.pos), Char(marker));
      (ok <==> rest.Some?) &&
      (ok ==> e.pos == LineEnd(e.text, old(e.pos)) && e.stack == old(e.stack) && Shapes(e.log) == Shapes(old(e.log)) + rest.value)
    ensures |old(e.log)| <= |e.log| && e.log[..|old(e.log)|] == old(e.log)
  {
    ghost var w := e.pos;
    ghost var sh0 := Shapes(e.log);
    e.Enter(FencedCodeFenceInfo);
    ok := ConsumeInfo(e, marker);
    if !ok {
      assert e.log[..|old(e.log)|] == old(e.log);
      return;
    }
    e.Exit(FencedCodeFenceInfo);
    assert e.log[..|old(e.log)|] == old(e.log);
    ghost var i := e.pos;
    LineEndSkip(e.text, w, i);
    if IsEol(e.Current()) {
      AppendPair(sh0, En(FencedCodeFenceInfo, w), Ex(FencedCodeFenceInfo, i), []);
      return true;
    }
    ghost var log1 := e.log;
    ok := RunSequenceOpenInfoAfter(e, marker);
    assert e.log[..|old(e.log)|] == log1[..|old(e.log)|];
    if ok {
      AppendPair(sh0, En(FencedCodeFenceInfo, w), Ex(FencedCodeFenceInfo, i), SequenceOpenInfoAfter(e.text, i, Char(marker)).value);
    }
  }

  /** sequenceOpenInfoAfter: the whitespace after the info string, then
      the meta string unless the line ends. */
  method RunSequenceOpenInfoAfter(e: Effects, marker: int) returns (ok: bool)
    requires e.Valid()
    modifies e
    ensures e.Valid()
    ensures var rest := SequenceOpenInfoAfter(e.text, old(e.pos), Char(marker));
      (ok <==> rest.Some?) &&
      (ok ==> e.pos == LineEnd(e.text, old(e.pos)) && e.stack == old(e.stack) && Shapes(e.log) == Shapes(old(e.log)) + rest.value)
    ensures |old(e.log)| <= |e.log| && e.log[..|old(e.log)|] == old(e.log)
  {
    ghost var i := e.pos;
    ghost var sh0 := Shapes(e.log);
    FenceWhitespace(e);
    ghost var w := e.pos;
    LineEndSkip(e.text, i, w);
    if IsEol(e.Current()) {
      return true;
    }
    ghost var log1 := e.log;
    ok := RunSequenceOpenMeta(e, marker);
    assert e.log[..|old(e.log)|] == log1[..|old(e.log)|];
    if ok {
      AppendAssoc(sh0, Whitespace(i, w), [En(FencedCodeFenceMeta, w), Ex(FencedCodeFenceMeta, e.pos)]);
    }
  }

  /** sequenceOpenMeta: the meta string up to the line ending. */
  method RunSequenceOpenMeta(e: Effects, marker: int) returns (ok: bool)
    requires e.Valid()
    modifies e
    ensures e.Valid()
    ensures var m := LineEnd(e.text, old(e.pos));
      (ok <==> marker != GraveAccent || Avoids(e.text, old(e.pos), m, Char(marker))) &&
      (ok ==> e.pos == m && e.stack == old(e.stack) &&
              Shapes(e.log) == Shapes(old(e.log)) + [En(FencedCodeFenceMeta, old(e.pos)), Ex(FencedCodeFenceMeta, m)])
    ensures |old(e.log)| <= |e.log| && e.log[..|old(e.log)|] == old(e.log)
  {
    e.Enter(FencedCodeFenceMeta);
    ok := ConsumeMeta(e, marker);
    if ok {
      e.Exit(FencedCodeFenceMeta);
    }
    assert e.log[..|old(e.log)|] == old(e.log);
  }

  // ------------------------------------------------------------ content lines

  /** The self-loop of linePrefix: consumes spaces and tabs while the width
      taken so far is below the indentation of the opening fence. */
  method ConsumeLinePrefix(e: Effects, initialPrefixSize: int)
    requires e.Valid()
    modifies e
    ensures e.Valid() && e.log == old(e.log) && e.stack == old(e.stack)
    ensures e.pos == PrefixEnd(e.text, old(e.pos), 0, initialPrefixSize)
  {
    var prefixSize: int := 0;
    while prefixSize < initialPrefixSize && IsSpaceOrTab(e.Current())
      invariant e.Valid() && e.log == old(e.log) && e.stack == old(e.stack)
      invariant old(e.pos) <= e.pos
      invariant PrefixEnd(e.text, e.pos, prefixSize, initialPrefixSize) == PrefixEnd(e.text, old(e.pos), 0, initialPrefixSize)
      decreases |e.text| - e.pos
    {
      var code := e.Current();
      prefixSize := prefixSize + Width(code);
      e.Consume(code);
    }
  }

  /** The self-loop of lineData: consumes everything up to the line ending. */
  method ConsumeLineData(e: Effects)
    requires e.Valid()
    modifies e
    ensures e.Valid() && e.log == old(e.log) && e.stack == old(e.stack)
    ensures e.pos == LineEnd(e.text, old(e.pos))
  {
    while !IsEol(e.Current())
      invariant e.Valid() && e.log == old(e.log) && e.stack == old(e.stack)
      invariant old(e.pos) <= e.pos && LineEnd(e.text, e.pos) == LineEnd(e.text, old(e.pos))
      decreases |e.text| - e.pos
    {
      e.Consume(e.Current());
    }
  }

  /** lineData: a codeLineData token up to the line ending. */
  method LineData(e: Effects)
    requires e.Valid()
    modifies e
    ensures e.Valid() && e.stack == old(e.stack) && e.pos == LineEnd(e.text, old(e.pos))
    ensures Shapes(e.log) == Shapes(old(e.log)) + [En(CodeLineData, old(e.pos)), Ex(CodeLineData, e.pos)]
    ensures |old(e.log)| <= |e.log| && e.log[..|old(e.log)|] == old(e.log)
  {
    e.Enter(CodeLineData);
    ConsumeLineData(e);
    e.Exit(CodeLineData);
  }

  /** lineStart and linePrefix: a content line, with up to the opening
      fence's indentation stripped as a linePrefix token. */
  method TokenizeContentLine(e: Effects, initialPrefixSize: int)
    requires e.Valid()
    modifies e
    ensures e.Valid() && e.stack == old(e.stack) && e.pos == LineEnd(e.text, old(e.pos))
    ensures Shapes(e.log) == Shapes(old(e.log)) + ContentLine(e.text, old(e.pos), initialPrefixSize)
    ensures |old(e.log)| <= |e.log| && e.log[..|old(e.log)|] == old(e.log)
  {
    ghost var l := e.pos;
    ghost var sh0 := Shapes(e.log);
    if IsEol(e.Current()) {
      return;
    }
    if initialPrefixSize != 0 && IsSpaceOrTab(e.Current()) {
      e.Enter(LinePrefix);
      ConsumeLinePrefix(e, initialPrefixSize);
      e.Exit(LinePrefix);
      ghost var p := e.pos;
      LineEndSkip(e.text, l, p);
      if IsEol(e.Current()) {
        assert e.log[..|old(e.log)|] == old(e.log);
        return;
      }
      ghost var log1 := e.log;
      LineData(e);
      AppendPair(sh0, En(LinePrefix, l), Ex(LinePrefix, p), [En(CodeLineData, p), Ex(CodeLineData, e.pos)]);
      assert e.log[..|old(e.log)|] == log1[..|old(e.log)|];
      return;
    }
    LineData(e);
  }

  /** lineEnd: a codeLineFeed token over the line feed under the cursor. */
  method LineEndFeed(e: Effects)
    requires e.Valid() && e.Current() == Char(Lf)
    modifies e
    ensures e.Valid() && e.stack == old(e.stack) && e.pos == old(e.pos) + 1
    ensures Shapes(e.log) == Shapes(old(e.log)) + [En(CodeLineFeed, old(e.pos)), Ex(CodeLineFeed, e.pos)]
    ensures |old(e.log)| <= |e.log| && e.log[..|old(e.log)|] == old(e.log)
  {
    e.Enter(CodeLineFeed);
    e.Consume(Char(Lf));
    e.Exit(CodeLineFeed);
  }

  /** One round of next, lineStart to lineData and lineEnd: a closing
      fence, which ends the block, or a content line, which ends it at end
      of input and is otherwise followed by its line feed. `step` is what
      the round emits when the block goes on. */
  method TokenizeLine(e: Effects, marker: int, sizeOpen: nat, initialPrefixSize: int) returns (done: bool, ghost step: seq<Shape>)
    requires e.Valid()
    modifies e
    ensures e.Valid() && e.stack == old(e.stack)
    ensures var b := Body(e.text, old(e.pos), marker, sizeOpen, initialPrefixSize);
      (done ==> e.pos == b.end && Shapes(e.log) == Shapes(old(e.log)) + b.marks) &&
      (!done ==> old(e.pos) < e.pos && Shapes(e.log) == Shapes(old(e.log)) + step &&
                 b.marks == step + Body(e.text, e.pos, marker, sizeOpen, initialPrefixSize).marks &&
                 b.end == Body(e.text, e.pos, marker, sizeOpen, initialPrefixSize).end)
    ensures |old(e.log)| <= |e.log| && e.log[..|old(e.log)|] == old(e.log)
  {
    ghost var l := e.pos;
    ghost var sh0 := Shapes(e.log);
    step := [];
    done := AttemptClosingFence(e, marker, sizeOpen);
    if done {
      return;
    }
    ghost var log2 := e.log;
    TokenizeContentLine(e, initialPrefixSize);
    ghost var line := ContentLine(e.text, l, initialPrefixSize);
    if e.Current() == EOF {
      return true, step;
    }
    ghost var log3 := e.log;
    ghost var eol := e.pos;
    LineEndFeed(e);
    assert e.log[..|log2|] == log3[..|log2|];
    step := line + [En(CodeLineFeed, eol), Ex(CodeLineFeed, eol + 1)];
    AppendAssoc(sh0, line, [En(CodeLineFeed, eol), Ex(CodeLineFeed, eol + 1)]);
    return false, step;
  }

  /** next, lineStart to lineData and lineEnd, repeated: from the line at
      the cursor, content lines until a closing fence or the end of input. */
  method TokenizeLines(e: Effects, marker: int, sizeOpen: nat, initialPrefixSize: int)
    requires e.Valid()
    modifies e
    ensures e.Valid() && e.stack == old(e.stack)
    ensures var b := Body(e.text, old(e.pos), marker, sizeOpen, initialPrefixSize);
      e.pos == b.end && Shapes(e.log) == Shapes(old(e.log)) + b.marks
    ensures |old(e.log)| <= |e.log| && e.log[..|old(e.log)|] == old(e.log)
  {
    ghost var first := e.pos;
    ghost var log0 := e.log;
    ghost var sh0 := Shapes(e.log);
    ghost var acc: seq<Shape> := [];
    while true
      invariant e.Valid() && e.stack == old(e.stack)
      invariant |log0| <= |e.log| && e.log[..|log0|] == log0
      invariant Shapes(e.log) == sh0 + acc
      invariant Body(e.text, first, marker, sizeOpen, initialPrefixSize).end == Body(e.text, e.pos, marker, sizeOpen, initialPrefixSize).end
      invariant Body(e.text, first, marker, sizeOpen, initialPrefixSize).marks == acc + Body(e.text, e.pos, marker, sizeOpen, initialPrefixSize).marks
      decreases |e.text| - e.pos
    {
      ghost var l := e.pos;
      ghost var log1 := e.log;
      var done, step := TokenizeLine(e, marker, sizeOpen, initialPrefixSize);
      assert e.log[..|log0|] == log1[..|log0|];
      if done {
        AppendAssoc(sh0, acc, Body(e.text, l, marker, sizeOpen, initialPrefixSize).marks);
        return;
      }
      AppendAssoc(sh0, acc, step);
      AppendAssoc(acc, step, Body(e.text, e.pos, marker, sizeOpen, initialPrefixSize).marks);
      acc := acc + step;
    }
  }

  /** The fenced-code construct at the cursor. On ok the cursor is where
      the block ends (after the closing fence's last code point, or at end
      of input), the open tokens are as before and the events are those of
      the reference; on nok the caller discards what was done. */
  method TokenizeFencedCode(e: Effects, previous: Option<Token>) returns (ok: bool)
    requires e.Valid()
    modifies e
    ensures e.Valid()
    ensures var b := FencedCodeBlock(e.text, old(e.pos), InitialPrefixSize(previous));
      (ok <==> b.Some?) &&
      (ok ==> e.pos == b.value.end && e.stack == old(e.stack) && Shapes(e.log) == Shapes(old(e.log)) + b.value.marks)
    ensures |old(e.log)| <= |e.log| && e.log[..|old(e.log)|] == old(e.log)
  {
    ghost var s := e.pos;
    ghost var sh0 := Shapes(e.log);
    var marker, sizeOpen;
    ok, marker, sizeOpen := TokenizeOpeningFence(e);
    if !ok {
      return;
    }
    var initialPrefixSize := InitialPrefixSize(previous);
    ghost var f := OpeningFence(e.text, s).value;
    ghost var log1 := e.log;
    ghost var stack1 := e.stack;
    OpenAfter(e, marker, sizeOpen, initialPrefixSize);
    assert e.log[..|old(e.log)|] == log1[..|old(e.log)|];
    assert stack1[..|stack1| - 1] == old(e.stack);
    AppendAssoc(sh0, f.marks, AfterOpening(e.text, f.lineEnd, marker, sizeOpen, initialPrefixSize).marks);
  }

  /** openAfter, past the exit of fencedCodeFenceStart, and after: the line
      feed of the opening line and the lines of the block, then the exit of
      fencedCode. */
  method OpenAfter(e: Effects, marker: int, sizeOpen: nat, initialPrefixSize: int)
    requires e.Valid() && IsEol(e.Current())
    requires e.stack != [] && e.stack[|e.stack| - 1].kind == FencedCode
    modifies e
    ensures e.Valid()
    ensures var a := AfterOpening(e.text, old(e.pos), marker, sizeOpen, initialPrefixSize);
      e.pos == a.end && e.stack == old(e.stack)[..|old(e.stack)| - 1] && Shapes(e.log) == Shapes(old(e.log)) + a.marks
    ensures var floor := old(e.stack[|e.stack| - 1].index);
      floor <= |old(e.log)| && floor <= |e.log| && e.log[..floor] == old(e.log)[..floor]
  {
    ghost var sh0 := Shapes(e.log);
    ghost var l := e.pos;
    ghost var floor := e.stack[|e.stack| - 1].index;
    assert OpenIn(e.log, e.stack[|e.stack| - 1]);
    if e.Current() == Char(Lf) {
      OpenLineFeed(e);
      ghost var log2 := e.log;
      TokenizeLines(e, marker, sizeOpen, initialPrefixSize);
      assert e.log[..floor] == old(e.log)[..floor];
      ghost var b := Body(e.text, l + 1, marker, sizeOpen, initialPrefixSize);
      AppendAssoc(sh0, [En(LineFeed, l), Ex(LineFeed, l + 1)], b.marks);
      ghost var log3 := e.log;
      AfterFence(e);
      assert e.log[..floor] == log3[..floor];
      AppendAssoc(sh0, [En(LineFeed, l), Ex(LineFeed, l + 1)] + b.marks, [Ex(FencedCode, b.end)]);
    } else {
      AfterFence(e);
    }
  }
  /** openAfter: a lineFeed token over the line feed ending the opening line. */
  method OpenLineFeed(e: Effects)
    requires e.Valid() && e.Current() == Char(Lf)
    modifies e
    ensures e.Valid() && e.stack == old(e.stack) && e.pos == old(e.pos) + 1
    ensures Shapes(e.log) == Shapes(old(e.log)) + [En(LineFeed, old(e.pos)), Ex(LineFeed, e.pos)]
    ensures |old(e.log)| <= |e.log| && e.log[..|old(e.log)|] == old(e.log)
  {
    e.Enter(LineFeed);
    e.Consume(Char(Lf));
    e.Exit(LineFeed);
  }

  /** after: the exit of fencedCode. */
  method AfterFence(e: Effects)
    requires e.Valid() && e.stack != [] && e.stack[|e.stack| - 1].kind == FencedCode
    modifies e
    ensures e.Valid() && e.pos == old(e.pos)
    ensures e.stack == old(e.stack)[..|old(e.stack)| - 1]
    ensures Shapes(e.log) == Shapes(old(e.log)) + [Ex(FencedCode, e.pos)]
    ensures var floor := old(e.stack[|e.stack| - 1].index);
      floor < |old(e.log)| < |e.log| && e.log[..floor] == old(e.log)[..floor]
  {
    assert OpenIn(e.log, e.stack[|e.stack| - 1]);
    e.Exit(FencedCode);
  }
}
