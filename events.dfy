/** Tokens, events and the stack discipline of an event list. */
module Events {

  datatype Option<T> = None | Some(value: T)

  /** The token types the fenced-code construct emits; `Other` stands for the
      types of every other construct (the parent's tokens, plain text). */
  datatype TokenType =
    | FencedCode
    | FencedCodeFenceStart
    | FencedCodeFenceSequence
    | FencedCodeFenceWhitespace
    | FencedCodeFenceInfo
    | FencedCodeFenceMeta
    | FencedCodeFenceEnd
    | LinePrefix
    | CodeLineData
    | CodeLineFeed
    | LineFeed
    | Other(name: string)

  datatype Point = Point(line: nat, column: nat, offset: nat)

  /** A token; `end` is meaningful once the token has been exited. */
  datatype Token = Token(kind: TokenType, start: Point, end: Point)

  datatype Phase = Enter | Exit

  datatype Event = Event(phase: Phase, token: Token)

  /** What an event says about the input: its phase, its type, and the offset
      at which it was recorded (the start for an enter, the end for an exit). */
  datatype Shape = Shape(phase: Phase, kind: TokenType, offset: nat)

  function ShapeOf(e: Event): Shape {
    Shape(e.phase, e.token.kind, if e.phase == Enter then e.token.start.offset else e.token.end.offset)
  }

  function Shapes(evs: seq<Event>): (r: seq<Shape>)
    ensures |r| == |evs|
    ensures forall k :: 0 <= k < |evs| ==> r[k] == ShapeOf(evs[k])
  {
    seq(|evs|, k requires 0 <= k < |evs| => ShapeOf(evs[k]))
  }

  lemma ShapesAppend(a: seq<Event>, b: seq<Event>)
    ensures Shapes(a + b) == Shapes(a) + Shapes(b)
  {
    assert forall k :: 0 <= k < |a + b| ==> Shapes(a + b)[k] == (Shapes(a) + Shapes(b))[k];
  }

  lemma AppendAssoc(a: seq<Shape>, b: seq<Shape>, c: seq<Shape>)
    ensures a + b + c == a + (b + c)
  {
  }

  lemma AppendPair(a: seq<Shape>, x: Shape, y: Shape, rest: seq<Shape>)
    ensures a + [x] + [y] + rest == a + ([x, y] + rest)
  {
  }

  /** One event applied to the stack of open token types: an enter pushes, an
      exit pops a token of its own type and fails on any other. */
  function Step(open: seq<TokenType>, s: Shape): (r: Option<seq<TokenType>>)
    ensures s.phase == Enter ==> r == Some(open + [s.kind])
    ensures s.phase == Exit ==> (r.Some? <==> open != [] && open[|open| - 1] == s.kind)
    ensures r.Some? && s.phase == Exit ==> r.value == open[..|open| - 1]
  {
    if s.phase == Enter then Some(open + [s.kind])
    else if open != [] && open[|open| - 1] == s.kind then Some(open[..|open| - 1])
    else None
  }

  /** The stack of open types after replaying `ss` from `open`, or None when an exit does not match. */
  function Replay(open: seq<TokenType>, ss: seq<Shape>): Option<seq<TokenType>>
    decreases |ss|
  {
    if ss == [] then Some(open)
    else match Replay(open, ss[..|ss| - 1])
      case None => None
      case Some(o) => Step(o, ss[|ss| - 1])
  }

  /** Every enter has a later matching exit of the same type, with no crossing. */
  predicate Balanced(ss: seq<Shape>) {
    Replay([], ss) == Some([])
  }

  lemma {:induction false} ReplayAppend(open: seq<TokenType>, a: seq<Shape>, b: seq<Shape>)
    ensures Replay(open, a + b) == (match Replay(open, a) case None => None case Some(o) => Replay(o, b))
    decreases |b|
  {
    if b == [] {
      assert a + b == a;
    } else {
      var b' := b[..|b| - 1];
      assert (a + b)[..|a + b| - 1] == a + b';
      assert (a + b)[|a + b| - 1] == b[|b| - 1];
      ReplayAppend(open, a, b');
    }
  }

  /** A balanced stretch leaves any stack as it found it. */
  lemma {:induction false} ReplayUnder(open: seq<TokenType>, base: seq<TokenType>, ss: seq<Shape>)
    requires Replay(open, ss).Some?
    ensures Replay(base + open, ss) == Some(base + Replay(open, ss).value)
    decreases |ss|
  {
    if ss != [] {
      var init := ss[..|ss| - 1];
      assert Replay(open, init).Some?;
      ReplayUnder(open, base, init);
      var o := Replay(open, init).value;
      var last := ss[|ss| - 1];
      assert Replay(base + open, ss) == Step(base + o, last);
      assert Replay(open, ss) == Step(o, last);
      if last.phase == Exit {
        assert o != [] && o[|o| - 1] == last.kind;
        assert (base + o)[..|base + o| - 1] == base + o[..|o| - 1];
      } else {
        assert (base + o) + [last.kind] == base + (o + [last.kind]);
      }
    }
  }

  /** Concatenating two balanced lists gives a balanced list. */
  lemma BalancedConcat(a: seq<Shape>, b: seq<Shape>)
    requires Balanced(a) && Balanced(b)
    ensures Balanced(a + b)
  {
    ReplayAppend([], a, b);
  }

  /** Wrapping a balanced list in an enter and exit of one type gives a balanced list. */
  lemma BalancedWrap(x: Shape, inner: seq<Shape>, y: Shape)
    requires x.phase == Enter && y.phase == Exit && x.kind == y.kind
    requires Balanced(inner)
    ensures Balanced([x] + inner + [y])
  {
    ReplayAppend([], [x], inner);
    assert [x][..0] == [];
    assert [] + [x.kind] == [x.kind];
    assert Replay([], [x]) == Step([], x) == Some([x.kind]);
    ReplayUnder([], [x.kind], inner);
    assert [x.kind] + [] == [x.kind];
    ReplayAppend([], [x] + inner, [y]);
    assert [y][..0] == [];
    assert Replay([x.kind], [y]) == Step([x.kind], y) == Some([]);
  }

  /** Offsets never decrease along the list. */
  predicate Ordered(ss: seq<Shape>) {
    forall i, j :: 0 <= i < j < |ss| ==> ss[i].offset <= ss[j].offset
  }

  /** Every offset in the list lies within [lo, hi]. */
  predicate Within(ss: seq<Shape>, lo: nat, hi: nat) {
    forall i :: 0 <= i < |ss| ==> lo <= ss[i].offset <= hi
  }

  lemma OrderedConcat(a: seq<Shape>, b: seq<Shape>, mid: nat)
    requires Ordered(a) && Ordered(b)
    requires forall i :: 0 <= i < |a| ==> a[i].offset <= mid
    requires forall i :: 0 <= i < |b| ==> mid <= b[i].offset
    ensures Ordered(a + b)
  {
    forall i, j | 0 <= i < j < |a + b| ensures (a + b)[i].offset <= (a + b)[j].offset {
      if j < |a| {
      } else if i >= |a| {
        assert (a + b)[i] == b[i - |a|] && (a + b)[j] == b[j - |a|];
      } else {
        assert (a + b)[j] == b[j - |a|];
      }
    }
  }

  /** A well-nested stretch over [lo, hi]: balanced, in input order, and within those offsets. */
  predicate Nested(ss: seq<Shape>, lo: nat, hi: nat) {
    Balanced(ss) && Ordered(ss) && Within(ss, lo, hi)
  }

  lemma NestedEmpty(lo: nat, hi: nat)
    ensures Nested([], lo, hi)
  {
  }

  lemma NestedConcat(a: seq<Shape>, b: seq<Shape>, lo: nat, mid: nat, hi: nat)
    requires lo <= mid <= hi && Nested(a, lo, mid) && Nested(b, mid, hi)
    ensures Nested(a + b, lo, hi)
  {
    BalancedConcat(a, b);
    OrderedConcat(a, b, mid);
    assert forall i :: 0 <= i < |a + b| ==> (a + b)[i] == if i < |a| then a[i] else b[i - |a|];
  }

  lemma NestedWrap(x: Shape, inner: seq<Shape>, y: Shape, lo: nat, hi: nat)
    requires x.phase == Enter && y.phase == Exit && x.kind == y.kind
    requires x.offset == lo && y.offset == hi && lo <= hi
    requires Nested(inner, lo, hi)
    ensures Nested([x] + inner + [y], lo, hi)
  {
    BalancedWrap(x, inner, y);
    OrderedConcat([x], inner, lo);
    assert forall i :: 0 <= i < |[x] + inner| ==> ([x] + inner)[i].offset <= hi;
    OrderedConcat([x] + inner, [y], hi);
  }

  /** An enter immediately followed by the matching exit. */
  lemma NestedPair(x: Shape, y: Shape)
    requires x.phase == Enter && y.phase == Exit && x.kind == y.kind && x.offset <= y.offset
    ensures Nested([x, y], x.offset, y.offset)
  {
    NestedEmpty(x.offset, y.offset);
    NestedWrap(x, [], y, x.offset, y.offset);
    assert [x] + [] + [y] == [x, y];
  }

  /** A stretch within [lo, hi] is within any wider range. */
  lemma NestedWiden(ss: seq<Shape>, lo: nat, hi: nat, lo': nat, hi': nat)
    requires Nested(ss, lo, hi) && lo' <= lo && hi <= hi'
    ensures Nested(ss, lo', hi')
  {
  }
}
