/** The resolver of the fenced-code construct: a pass over the finished
    event list that hands the info and meta strings of the opening fence to
    the plain-text tokenizer and splices its events in after their enters. */
module Resolve {
  import opened Events

  /** The plain-text sub-tokenizer, started at a point and fed the code
      points of a span: the events of that span followed by those of the
      final end-of-input call that flushes it. */
  type PlainText = (Point, seq<int>) -> seq<Event>

  predicate IsEnterOf(ev: Event, kind: TokenType) {
    ev.phase == Enter && ev.token.kind == kind
  }

  predicate IsStartExit(ev: Event) {
    ev.phase == Exit && ev.token.kind == FencedCodeFenceStart
  }

  /** Where the scan stops: the index of the first exit of
      fencedCodeFenceStart, or the length of the list when there is none. */
  function ScanEnd(events: seq<Event>): (n: nat)
    ensures n <= |events|
    ensures forall k :: 0 <= k < n ==> !IsStartExit(events[k])
    ensures n < |events| ==> IsStartExit(events[n])
  {
    ScanEndFrom(events, 0)
  }

  function ScanEndFrom(events: seq<Event>, i: nat): (n: nat)
    requires i <= |events|
    requires forall k :: 0 <= k < i ==> !IsStartExit(events[k])
    ensures i <= n <= |events|
    ensures forall k :: 0 <= k < n ==> !IsStartExit(events[k])
    ensures n < |events| ==> IsStartExit(events[n])
    decreases |events| - i
  {
    if i == |events| || IsStartExit(events[i]) then i else ScanEndFrom(events, i + 1)
  }

  /** The index of the last enter of `kind` among the first `n` events. */
  function LastEnter(events: seq<Event>, n: nat, kind: TokenType): (r: Option<nat>)
    requires n <= |events|
    ensures r.Some? ==> r.value < n && IsEnterOf(events[r.value], kind)
    ensures r.Some? ==> forall k :: r.value < k < n ==> !IsEnterOf(events[k], kind)
    ensures r.None? ==> forall k :: 0 <= k < n ==> !IsEnterOf(events[k], kind)
  {
    if n == 0 then None
    else if IsEnterOf(events[n - 1], kind) then Some(n - 1)
    else LastEnter(events, n - 1, kind)
  }

  /** The code points a token covers: the input from its start offset to its end offset. */
  function Span(text: seq<int>, t: Token): (r: seq<int>)
    ensures t.start.offset <= t.end.offset <= |text| ==> r == text[t.start.offset..t.end.offset]
  {
    var a := if t.start.offset <= |text| then t.start.offset else |text|;
    var b := if t.end.offset <= |text| then t.end.offset else |text|;
    if a <= b then text[a..b] else []
  }

  /** `events[a..b]` with the semantics of an array slice: empty when `b`
      is not after `a`. */
  function Between(events: seq<Event>, a: nat, b: nat): (r: seq<Event>)
    requires b <= |events|
    ensures a <= b ==> r == events[a..b]
    ensures a > b ==> r == []
  {
    if a <= b then events[a..b] else []
  }

  /** The output of the plain-text tokenizer over the token whose enter is `events[i]`. */
  function Refined(events: seq<Event>, i: nat, text: seq<int>, plainText: PlainText): seq<Event>
    requires i < |events|
  {
    plainText(events[i].token.start, Span(text, events[i].token))
  }

  /** The list with the info span's (and the meta span's) plain-text events
      inserted right after their enter events. */
  function Splice(events: seq<Event>, info: Option<nat>, meta: Option<nat>, text: seq<int>, plainText: PlainText): seq<Event>
    requires info.Some? ==> info.value < |events|
    requires meta.Some? ==> meta.value < |events|
  {
    match info
    case None => events
    case Some(i) =>
      var head := events[..i + 1] + Refined(events, i, text, plainText);
      match meta
      case None => head + events[i + 1..]
      case Some(m) => head + Between(events, i + 1, m + 1) + Refined(events, m, text, plainText) + events[m + 1..]
  }

  /** The info and meta enters the resolver picks: the last of each before
      the first exit of fencedCodeFenceStart. */
  function InfoEnter(events: seq<Event>): Option<nat> {
    LastEnter(events, ScanEnd(events), FencedCodeFenceInfo)
  }

  function MetaEnter(events: seq<Event>): Option<nat> {
    LastEnter(events, ScanEnd(events), FencedCodeFenceMeta)
  }

  /** What the resolver returns for `events`. */
  function Resolved(events: seq<Event>, text: seq<int>, plainText: PlainText): seq<Event> {
    Splice(events, InfoEnter(events), MetaEnter(events), text, plainText)
  }

  /** resolveFencedCode: the scan of the event list for the info and meta
      enters, stopping at the first exit of fencedCodeFenceStart, then the splice. */
  method ResolveFencedCode(events: seq<Event>, text: seq<int>, plainText: PlainText) returns (result: seq<Event>)
    ensures result == Resolved(events, text, plainText)
  {
    var index := 0;
    var infoEnter: Option<nat> := None;
    var metaEnter: Option<nat> := None;
    while index < |events|
      invariant index <= |events|
      invariant forall k :: 0 <= k < index ==> !IsStartExit(events[k])
      invariant infoEnter == LastEnter(events, index, FencedCodeFenceInfo)
      invariant metaEnter == LastEnter(events, index, FencedCodeFenceMeta)
    {
      var event := events[index];
      if event.phase == Enter {
        if event.token.kind == FencedCodeFenceInfo {
          infoEnter := Some(index);
        } else if event.token.kind == FencedCodeFenceMeta {
          metaEnter := Some(index);
        }
      }
      if event.phase == Exit && event.token.kind == FencedCodeFenceStart {
        break;
      }
      index := index + 1;
    }
    assert index == ScanEnd(events);
    result := Splice(events, infoEnter, metaEnter, text, plainText);
  }

  // -------------------------------------------------------------- properties

  /** The splice keeps every original event in place and in order: the
      events up to and including the info enter, those after it up to and
      including the meta enter, and the rest; the only new events are the
      plain-text runs right after the two enters. When the meta enter comes
      before the info enter, nothing separates the two runs and the events
      after the meta enter, up to and including the info enter, are repeated. */
  lemma SplicePreserves(events: seq<Event>, info: Option<nat>, meta: Option<nat>, text: seq<int>, plainText: PlainText)
    requires info.Some? ==> info.value < |events|
    requires meta.Some? ==> meta.value < |events|
    ensures var r := Splice(events, info, meta, text, plainText);
      (info.None? ==> r == events) &&
      (info.Some? ==>
        var i := info.value;
        var pi := Refined(events, i, text, plainText);
        var j := i + 1 + |pi|;
        r[..i + 1] == events[..i + 1] && r[i + 1..j] == pi &&
        (meta.None? ==> r[j..] == events[i + 1..] && |r| == |events| + |pi|) &&
        (meta.Some? && i < meta.value ==>
          var m := meta.value;
          var pm := Refined(events, m, text, plainText);
          var k := j + (m - i);
          r[j..k] == events[i + 1..m + 1] && r[k..k + |pm|] == pm && r[k + |pm|..] == events[m + 1..] &&
          |r| == |events| + |pi| + |pm|) &&
        (meta.Some? && meta.value <= i ==>
          var m := meta.value;
          var pm := Refined(events, m, text, plainText);
          r[j..j + |pm|] == pm && r[j + |pm|..] == events[m + 1..] &&
          |r| == |events| + |pi| + |pm| + (i - m)))
  {
    if info.Some? {
      var i := info.value;
      var pi := Refined(events, i, text, plainText);
      if meta.Some? && i < meta.value {
        SplicedPieces(events, i, meta.value, pi, Refined(events, meta.value, text, plainText));
      } else if meta.Some? {
        SplicedBackward(events, i, meta.value, pi, Refined(events, meta.value, text, plainText));
      }
    }
  }

  /** Where the pieces of a list spliced at `i` and `m` lie. */
  lemma SplicedPieces(events: seq<Event>, i: nat, m: nat, pi: seq<Event>, pm: seq<Event>)
    requires i < m < |events|
    ensures var r := events[..i + 1] + pi + events[i + 1..m + 1] + pm + events[m + 1..];
      var j := i + 1 + |pi|;
      var k := j + (m - i);
      r[..i + 1] == events[..i + 1] && r[i + 1..j] == pi && r[j..k] == events[i + 1..m + 1] &&
      r[k..k + |pm|] == pm && r[k + |pm|..] == events[m + 1..] && |r| == |events| + |pi| + |pm|
  {
  }

  /** Where the pieces lie when the meta enter comes before the info enter:
      no events separate the two plain-text runs, and the events after the
      meta enter, up to and including the info enter, appear a second time. */
  lemma SplicedBackward(events: seq<Event>, i: nat, m: nat, pi: seq<Event>, pm: seq<Event>)
    requires m <= i < |events|
    ensures var r := events[..i + 1] + pi + Between(events, i + 1, m + 1) + pm + events[m + 1..];
      var j := i + 1 + |pi|;
      r[..i + 1] == events[..i + 1] && r[i + 1..j] == pi &&
      r[j..j + |pm|] == pm && r[j + |pm|..] == events[m + 1..] && |r| == |events| + |pi| + |pm| + (i - m)
  {
    assert Between(events, i + 1, m + 1) == [];
  }

  /** Without an info enter before the first exit of fencedCodeFenceStart the
      resolver gives the list back unchanged; otherwise it splices after an
      info enter and, when there is one, after a meta enter, as above. */
  lemma ResolvePreserves(events: seq<Event>, text: seq<int>, plainText: PlainText)
    ensures InfoEnter(events).None? ==> Resolved(events, text, plainText) == events
    ensures InfoEnter(events).Some? ==> IsEnterOf(events[InfoEnter(events).value], FencedCodeFenceInfo)
    ensures MetaEnter(events).Some? ==> IsEnterOf(events[MetaEnter(events).value], FencedCodeFenceMeta)
  {
    SplicePreserves(events, InfoEnter(events), MetaEnter(events), text, plainText);
  }

  lemma {:induction false} LastEnterPrefix(a: seq<Event>, b: seq<Event>, n: nat, kind: TokenType)
    requires n <= |a|
    ensures LastEnter(a + b, n, kind) == LastEnter(a, n, kind)
  {
    if n > 0 {
      assert (a + b)[n - 1] == a[n - 1];
      LastEnterPrefix(a, b, n - 1, kind);
    }
  }

  /** Events after the first exit of fencedCodeFenceStart are never looked
      at: appending anything after it leaves the chosen enters unchanged, so
      the spliced runs are the same ones. */
  lemma ScanIgnoresSuffix(a: seq<Event>, b: seq<Event>, text: seq<int>, plainText: PlainText)
    requires ScanEnd(a) < |a|
    ensures ScanEnd(a + b) == ScanEnd(a)
    ensures InfoEnter(a + b) == InfoEnter(a) && MetaEnter(a + b) == MetaEnter(a)
    ensures InfoEnter(a).Some? ==> Refined(a + b, InfoEnter(a).value, text, plainText) == Refined(a, InfoEnter(a).value, text, plainText)
    ensures MetaEnter(a).Some? ==> Refined(a + b, MetaEnter(a).value, text, plainText) == Refined(a, MetaEnter(a).value, text, plainText)
  {
    var n := ScanEnd(a);
    assert forall k :: 0 <= k <= n ==> (a + b)[k] == a[k];
    LastEnterPrefix(a, b, n, FencedCodeFenceInfo);
    LastEnterPrefix(a, b, n, FencedCodeFenceMeta);
  }

  /** The resolver only inserts: the list never gets shorter, and with an
      info enter it grows by at least the info span's plain-text events.
      Applied to a list the resolver already returned, this is a second
      insertion whenever that list still has an info enter with a non-empty
      plain-text run. */
  lemma ResolveGrows(events: seq<Event>, text: seq<int>, plainText: PlainText)
    ensures |Resolved(events, text, plainText)| >= |events|
    ensures InfoEnter(events).Some? ==>
      |Resolved(events, text, plainText)| >= |events| + |Refined(events, InfoEnter(events).value, text, plainText)|
  {
    SplicePreserves(events, InfoEnter(events), MetaEnter(events), text, plainText);
  }

  /** Running the resolver a second time is not a no-op: the info enter is
      still in place and gets a second copy of the plain-text events. */
  lemma ResolveTwiceInsertsAgain()
    ensures var p := Point(1, 4, 3);
      var q := Point(1, 7, 6);
      var events := [Event(Enter, Token(FencedCodeFenceInfo, p, q)), Event(Exit, Token(FencedCodeFenceInfo, p, q)),
                     Event(Exit, Token(FencedCodeFenceStart, Point(1, 1, 0), q))];
      var text := [96, 96, 96, 106, 115, 111];
      var plainText: PlainText := (at: Point, cs: seq<int>) => [Event(Enter, Token(Other("chunkString"), at, at))];
      var once := Resolved(events, text, plainText);
      |once| == 4 && |Resolved(once, text, plainText)| == 5
  {
    var p := Point(1, 4, 3);
    var q := Point(1, 7, 6);
    var events := [Event(Enter, Token(FencedCodeFenceInfo, p, q)), Event(Exit, Token(FencedCodeFenceInfo, p, q)),
                   Event(Exit, Token(FencedCodeFenceStart, Point(1, 1, 0), q))];
    var text := [96, 96, 96, 106, 115, 111];
    var plainText: PlainText := (at: Point, cs: seq<int>) => [Event(Enter, Token(Other("chunkString"), at, at))];
    assert !IsStartExit(events[0]) && !IsStartExit(events[1]) && IsStartExit(events[2]);
    assert ScanEnd(events) == 2;
    assert InfoEnter(events) == Some(0);
    var once := Resolved(events, text, plainText);
    assert once == [events[0], Event(Enter, Token(Other("chunkString"), p, p)), events[1], events[2]];
    assert !IsStartExit(once[0]) && !IsStartExit(once[1]) && !IsStartExit(once[2]) && IsStartExit(once[3]);
    assert ScanEnd(once) == 3;
    assert InfoEnter(once) == Some(0);
  }
}
