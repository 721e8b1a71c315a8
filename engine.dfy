/** The minimal effects interface the constructs run on: a cursor over the
    input, an event log, the stack of open tokens, and the snapshot/restore
    pair that makes an attempt transactional. `Enter` and `Exit` only append
    to the log's phase, type and offset view; `Exit` also sets the end point
    of its token's enter event, and `Restore` cuts the log back to the saved
    length. */
module Engine {
  import opened Codes
  import opened Events

  /** An open token: its type and the index of its enter event in the log. */
  datatype Open = Open(kind: TokenType, index: nat)

  /** What an attempt saves before it runs: the log length, the cursor and the open tokens. */
  datatype Snapshot = Snapshot(count: nat, pos: nat, point: Point, stack: seq<Open>)

  /** The open token `o` has its enter event in `log`. */
  predicate OpenIn(log: seq<Event>, o: Open) {
    o.index < |log| && log[o.index].phase == Phase.Enter && log[o.index].token.kind == o.kind
  }

  function Advance(p: Point, c: Code): (q: Point)
    ensures q.offset == p.offset + 1
  {
    if c == Char(Lf) then Point(p.line + 1, 1, p.offset + 1)
    else Point(p.line, p.column + 1, p.offset + 1)
  }

  class Effects {
    const text: seq<int>
    var pos: nat
    var point: Point
    var log: seq<Event>
    var stack: seq<Open>

    ghost predicate Valid()
      reads this
    {
      pos <= |text| && point.offset == pos &&
      (forall k :: 0 <= k < |stack| ==> OpenIn(log, stack[k])) &&
      forall i, j :: 0 <= i < j < |stack| ==> stack[i].index < stack[j].index
    }

    constructor (input: seq<int>)
      ensures Valid()
      ensures text == input && pos == 0 && point == Point(1, 1, 0) && log == [] && stack == []
    {
      text := input;
      pos := 0;
      point := Point(1, 1, 0);
      log := [];
      stack := [];
    }

    /** The code point under the cursor. */
    function Current(): (c: Code)
      reads this
    {
      At(text, pos)
    }

    /** Consumes the code point under the cursor, which must be `c` and not the end of input. */
    method Consume(c: Code)
      requires Valid() && c == Current() && c != EOF
      modifies this
      ensures Valid()
      ensures pos == old(pos) + 1 && point == Advance(old(point), c)
      ensures log == old(log) && stack == old(stack)
    {
      pos := pos + 1;
      point := Advance(point, c);
    }

    /** Opens a token of type `kind` at the cursor. */
    method Enter(kind: TokenType)
      requires Valid()
      modifies this
      ensures Valid()
      ensures log == old(log) + [Event(Phase.Enter, Token(kind, point, point))]
      ensures stack == old(stack) + [Open(kind, |old(log)|)]
      ensures pos == old(pos) && point == old(point)
      ensures Shapes(log) == Shapes(old(log)) + [Shape(Phase.Enter, kind, pos)]
    {
      var ev := Event(Phase.Enter, Token(kind, point, point));
      ShapesAppend(log, [ev]);
      log := log + [ev];
      stack := stack + [Open(kind, |log| - 1)];
    }

    /** Closes the innermost open token, which must be of type `kind`: its
        enter event receives the end point, and an exit event is appended. */
    method Exit(kind: TokenType)
      requires Valid() && stack != [] && stack[|stack| - 1].kind == kind
      modifies this
      ensures Valid()
      ensures var idx := old(stack[|stack| - 1].index);
        var start := old(log[idx].token.start);
        log == old(log)[idx := Event(Phase.Enter, Token(kind, start, point))] + [Event(Phase.Exit, Token(kind, start, point))]
      ensures stack == old(stack)[..|old(stack)| - 1]
      ensures pos == old(pos) && point == old(point)
      ensures Shapes(log) == Shapes(old(log)) + [Shape(Phase.Exit, kind, pos)]
    {
      var top := stack[|stack| - 1];
      assert OpenIn(log, top);
      var start := log[top.index].token.start;
      var patched := log[top.index := Event(Phase.Enter, Token(kind, start, point))];
      assert Shapes(patched) == Shapes(log);
      var ev := Event(Phase.Exit, Token(kind, start, point));
      ShapesAppend(patched, [ev]);
      log := patched + [ev];
      stack := stack[..|stack| - 1];
    }

    /** Records what an attempt needs to undo itself. */
    method Save() returns (snap: Snapshot)
      ensures snap == Snapshot(|log|, pos, point, stack)
    {
      snap := Snapshot(|log|, pos, point, stack);
    }

    /** Undoes an attempt: the log is cut back to the saved length and the
        cursor and the open tokens are put back as they were. */
    method Restore(snap: Snapshot)
      requires snap.count <= |log| && snap.pos <= |text| && snap.point.offset == snap.pos
      requires forall k :: 0 <= k < |snap.stack| ==> OpenIn(log[..snap.count], snap.stack[k])
      requires forall i, j :: 0 <= i < j < |snap.stack| ==> snap.stack[i].index < snap.stack[j].index
      modifies this
      ensures Valid()
      ensures log == old(log)[..snap.count] && pos == snap.pos && point == snap.point && stack == snap.stack
    {
      log := log[..snap.count];
      pos := snap.pos;
      point := snap.point;
      stack := snap.stack;
    }
  }
}
