# Fenced code in micromark, modelled in Dafny

This project models micromark's fenced-code construct, `lib/tokenize/flow/fenced-code.js`. A fence is a run of at least three backticks or tildes. It may be followed by an info string and a meta string. The block's content lines run until a closing fence made of the same marker and at least as long, or until the end of input. The model has three parts:

- **The tokenizer**, `tokenizeFencedCode` with its nested `tokenizeClosingFence`. It is state code that runs over an effects object, and it becomes imperative Dafny over a class `Engine.Effects`. The class has a cursor, an event log, a stack of open tokens, and `Save`/`Restore` for attempts. `Enter` and `Exit` only append to the log's phase, type and offset view. `Exit` also sets the end point of its token's enter event, and `Restore` cuts the log back to the saved length. Every source state is a method or part of one, and its self-loop is a `while` loop.
- **A reference model of the same construct as pure functions**, module `FenceSpec`. Each method is proved to emit exactly the events of this reference and to leave the cursor where the reference says. Events are compared by phase, token type and offset.
- **Properties proved about the reference**, modules `FenceProperties` and `BlockEnd`. They cover:
  - when a fence opens;
  - where the info and meta tokens lie;
  - how content-line indentation is stripped;
  - when a line closes the block;
  - where the block ends, at the first closing fence (`BlockEnd`);
  - that the events are well nested and in input order.

The resolver `resolveFencedCode` is modelled in module `Resolve`. It is a method with the source's scan loop, proved equal to a pure `Resolved` function. Lemmas describe what the splice preserves.

Modules:
- `Codes`: code points, the end-of-input sentinel and the constants.
- `Events`: tokens, events, and the stack discipline `Balanced`/`Nested`.
- `Engine`: the effects object.
- `FenceSpec`, `FencedCode`, `FenceProperties`, `BlockEnd`, `Resolve`: described above.

Two facts about the resolver:
- Resolving is not idempotent: a second run inserts the plain-text events again (`Resolve.ResolveTwiceInsertsAgain`).
- The plain-text events are inserted right after the info and meta enters, and the enter/exit pairs stay (`Resolve.SplicePreserves`). When the meta enter comes after the info enter, the events between the two enters stay between the two runs. In the other order, which the fenced-code tokenizer does not emit, the meta run follows the info run directly. All events after the meta enter come next, so those up to and including the info enter appear twice.

## Model

| member | source | states |
|---|---|---|
| FencedCode.TokenizeFencedCode | lib/tokenize/flow/fenced-code.js:67-274 | The whole construct at the cursor. It succeeds exactly when the reference block exists. On success the cursor is at the block's end, the open tokens are as before, and the appended events are the reference's. The events logged earlier are never altered. |
| FencedCode.TokenizeOpeningFence | lib/tokenize/flow/fenced-code.js:76-94 | `start` and the opening line. It succeeds exactly when the reference opening fence exists. It returns that fence's marker and sequence size. It leaves fencedCode open, stops at the opening line's ending, and emits the reference events. |
| FencedCode.EnterFence | lib/tokenize/flow/fenced-code.js:87-91 | The three enters of `start`, all at the cursor: fencedCode, fencedCodeFenceStart and fencedCodeFenceSequence. They are pushed on the open-token stack in that order. |
| FencedCode.RunSequenceOpen | lib/tokenize/flow/fenced-code.js:96-120 | `sequenceOpen`. It fails when the run of markers is shorter than three or the rest of the line is refused. Otherwise it closes the sequence and fence-start tokens and emits the sequence exit, the rest of the line's events and the fence-start exit. |
| FencedCode.ConsumeSequence | lib/tokenize/flow/fenced-code.js:97-101 | The marker run's self-loop: it stops at the end of the run, and the returned size is the run's length. |
| FencedCode.ExitFenceStart | lib/tokenize/flow/fenced-code.js:189 | `openAfter`'s exit of fencedCodeFenceStart, at the cursor. |
| FencedCode.RunSequenceOpenAfter | lib/tokenize/flow/fenced-code.js:122-136 | `sequenceOpenAfter`: optional whitespace, then the info string unless the line ends. It succeeds exactly when the reference does, stopping at the line ending. |
| FencedCode.FenceWhitespace | lib/tokenize/flow/fenced-code.js:113-128 | A fencedCodeFenceWhitespace token exactly over the spaces and tabs at the cursor, and none when there are none. |
| FencedCode.ConsumeWhitespace | lib/tokenize/flow/fenced-code.js:122-126 | The whitespace self-loop stops at the first code point that is not a space or tab. |
| FencedCode.RunSequenceOpenInfo | lib/tokenize/flow/fenced-code.js:138-156 | `sequenceOpenInfo`: an info token over one word, then the meta part unless the line ends. It succeeds exactly when the reference does. |
| FencedCode.ConsumeInfo | lib/tokenize/flow/fenced-code.js:138-155 | The info self-loop consumes up to the first space, tab or line ending. It fails exactly when a backtick fence meets a backtick in that word. |
| FencedCode.RunSequenceOpenInfoAfter | lib/tokenize/flow/fenced-code.js:158-172 | `sequenceOpenInfoAfter`: the whitespace after the info, then the meta string unless the line ends. It succeeds exactly when the reference does. |
| FencedCode.RunSequenceOpenMeta | lib/tokenize/flow/fenced-code.js:174-186 | `sequenceOpenMeta`: a meta token from the cursor to the line ending. It fails exactly when a backtick fence has a backtick in it. |
| FencedCode.ConsumeMeta | lib/tokenize/flow/fenced-code.js:174-185 | The meta self-loop consumes to the line ending and refuses a backtick under a backtick fence. |
| FencedCode.OpenAfter | lib/tokenize/flow/fenced-code.js:188-199 | `openAfter` and `after`. At a line feed: the lineFeed token, the block's lines, then the exit of fencedCode. At end of input: the exit alone. The new state is the reference `AfterOpening`. |
| FencedCode.OpenLineFeed | lib/tokenize/flow/fenced-code.js:191-195 | A lineFeed token over exactly the line feed that ends the opening line. |
| FencedCode.AfterFence | lib/tokenize/flow/fenced-code.js:271-274 | `after`: fencedCode is closed at the cursor. |
| FencedCode.TokenizeContentLine | lib/tokenize/flow/fenced-code.js:201-249 | `lineStart`, `linePrefix` and `lineData`. The line's events are the reference `ContentLine`, and the cursor ends at the line ending. |
| FencedCode.ConsumeLinePrefix | lib/tokenize/flow/fenced-code.js:219-229 | The prefix self-loop takes spaces and tabs while the width so far is below the opening indentation. It stops where the reference `PrefixEnd` does. |
| FencedCode.LineData | lib/tokenize/flow/fenced-code.js:241-249 | A codeLineData token from the cursor to the line ending. |
| FencedCode.ConsumeLineData | lib/tokenize/flow/fenced-code.js:241-248 | The data self-loop stops at the line feed or the end of input. |
| FencedCode.LineEndFeed | lib/tokenize/flow/fenced-code.js:251-265 | `lineEnd` at a line feed: a codeLineFeed token over it. |
| FencedCode.TokenizeLine | lib/tokenize/flow/fenced-code.js:251-269 | One round of `next`. Either a closing fence or end of input ends the block where the reference `Body` ends, or the round emits one line's events and the reference continues from the new cursor. |
| FencedCode.TokenizeLines | lib/tokenize/flow/fenced-code.js:201-269 | Lines until a closing fence or end of input. The block ends where the reference says, with exactly its events. |
| FencedCode.AttemptClosingFence | lib/tokenize/flow/fenced-code.js:267-269 | The attempt of the closing fence. On success it has the reference closing fence's events and end. On failure the log, cursor, point and stack are exactly as before the attempt. |
| FencedCode.TokenizeClosingFence | lib/tokenize/flow/fenced-code.js:276-360 | The closing-fence sub-construct. It succeeds exactly when the reference `ClosingFence` exists, ends at its line ending and emits its events. |
| FencedCode.ClosingStart | lib/tokenize/flow/fenced-code.js:281-309 | `closingStart` and `closingPrefix`. It fails exactly when the leading whitespace reaches a tab stop. Otherwise it emits a linePrefix token over that whitespace, or nothing when there is none. |
| FencedCode.ConsumeClosingPrefix | lib/tokenize/flow/fenced-code.js:291-304 | The closing prefix's self-loop. It fails exactly when the reference `ClosingPrefixEnd` does, and otherwise stops where it does. |
| FencedCode.ClosingPrefixAfter | lib/tokenize/flow/fenced-code.js:311-340 | `closingPrefixAfter` and `closingSequence`. The line must continue with a run of the marker at least as long as the opening one, then only whitespace to the line ending. It succeeds exactly when the reference `ClosingSequence` does. |
| FencedCode.ClosingSequenceAfter | lib/tokenize/flow/fenced-code.js:332-359 | The sequence exit, optional whitespace, then the exit of fencedCodeFenceEnd. It succeeds exactly when a line ending follows the whitespace. |
| FenceProperties.FencedCodeBlockAccepts | lib/tokenize/flow/fenced-code.js:76-186 | The construct matches exactly when the first code point is a backtick or tilde and the run of it has length three or more. For a backtick fence there must also be no backtick in the rest of the opening line. No closing fence is needed. The marker is the first code point, the size is the run's length, and the fence ends at the first line ending. |
| FenceProperties.SequenceOpenAfterAccepts | lib/tokenize/flow/fenced-code.js:122-186 | The rest of the opening line after the run is refused exactly when the fence is made of backticks and a backtick occurs before the line ending. |
| FenceProperties.OpeningInfoMeta | lib/tokenize/flow/fenced-code.js:113-186 | An info token exists exactly when something other than whitespace follows the run. It spans the first word. A meta token exists exactly when something other than whitespace follows that word. It runs from there to the line ending. |
| FenceProperties.PrefixEndStops | lib/tokenize/flow/fenced-code.js:219-229 | Every code point the prefix takes was reached with a width below the limit. It stops at a space or tab only once the width has reached the limit. |
| FenceProperties.ContentLinePrefix | lib/tokenize/flow/fenced-code.js:201-239 | When the opening fence was indented and the line starts with a space or tab, a linePrefix token takes spaces and tabs while the width before each one is below the indentation, so the last tab may take it past the indentation. codeLineData covers the rest of the line, if any. |
| FenceProperties.ContentLineData | lib/tokenize/flow/fenced-code.js:201-217 | With no indentation, or when the line does not start with whitespace, a non-empty line is one codeLineData token and an empty line emits nothing. |
| FenceProperties.ClosingPrefixWidth | lib/tokenize/flow/fenced-code.js:291-309 | The closing prefix succeeds exactly when the width of the leading spaces and tabs is below four, and it then ends where they end. |
| FenceProperties.ClosingFenceAccepts | lib/tokenize/flow/fenced-code.js:276-359 | A line closes the block exactly when its leading whitespace is narrower than four and is followed by a run of the opening marker at least as long as the opening sequence. Only whitespace may follow up to the line ending. The closing fence then ends at that line ending. |
| BlockEnd.FirstMarkedIsFirst | lib/tokenize/flow/fenced-code.js:251-269 | The scan for a closing line passes no marked line start before the one it returns, and none at all when it returns nothing. |
| BlockEnd.LinesEndFirst | lib/tokenize/flow/fenced-code.js:251-269 | `LinesEnd` is the line ending of the first line start (the start line or an offset after a line feed) whose line is a closing fence, with no closing line start before it. When no line start up to the end of input closes, it is the end of input. |
| BlockEnd.ScanSkipsLine | lib/tokenize/flow/fenced-code.js:241-265 | No line starts inside a line. The scan goes on at the next line, or finds nothing on the last line. |
| BlockEnd.ScanRebase | lib/tokenize/flow/fenced-code.js:251-269 | From a later line start on, the lines read from either start begin at the same offsets, so the scans agree. |
| BlockEnd.ScanLine | lib/tokenize/flow/fenced-code.js:251-269 | One line of the scan: it stops at a closing line, finds nothing after the last line, and otherwise goes on from the next line. |
| BlockEnd.LinesEndStep | lib/tokenize/flow/fenced-code.js:251-269 | `LinesEnd` takes the same three cases as `Body`, line by line. |
| BlockEnd.BodyEnd | lib/tokenize/flow/fenced-code.js:251-269 | The lines of a block, read one at a time, end where `LinesEnd` says. |
| BlockEnd.BodyEndsAtFirstClosing | lib/tokenize/flow/fenced-code.js:251-269 | The lines of a block end at the line ending of the first of their line starts that is a closing fence. Every line before it is content. When none closes, they run to the end of input. |
| BlockEnd.AfterOpeningEnd | lib/tokenize/flow/fenced-code.js:188-199 | After the opening line, the block ends at the end of input when that line is the last one. Otherwise it ends where the lines after it end. |
| BlockEnd.FencedCodeEnd | lib/tokenize/flow/fenced-code.js:188-199 | A block whose opening line is the last one ends at the end of input. Otherwise it ends at `LinesEnd` of the next line: the line ending of the first later line that is a closing fence, or the end of input. |
| BlockEnd.FencedCodeEndsAtFirstClosing | lib/tokenize/flow/fenced-code.js:188-269 | A block whose opening line is not the last ends at the line ending of the first later line start that is a closing fence, with every line before it content. When no later line closes, it ends at the end of input. |
| FenceProperties.OpeningFenceNested | lib/tokenize/flow/fenced-code.js:87-186 | The opening fence's events start with the enter of fencedCode, then fencedCodeFenceStart. They end with that token's exit at the line ending. In between, every token is balanced, in input order and within the line, and only the sequence, whitespace, info and meta types occur. |
| FenceProperties.ClosingFenceNested | lib/tokenize/flow/fenced-code.js:281-359 | A closing fence's events are balanced, in input order and within its line. |
| FenceProperties.ContentLineNested | lib/tokenize/flow/fenced-code.js:201-249 | A content line's events are balanced, in input order and within the line. |
| FenceProperties.BodyNested | lib/tokenize/flow/fenced-code.js:251-269 | The events of a block's lines are balanced, in input order and within the block. |
| FenceProperties.FencedCodeNested | lib/tokenize/flow/fenced-code.js:87-274 | A block's events begin with the enter of fencedCode at its start and end with the exit at its end. All of them together are balanced, in input order and within the block. |
| Resolve.ResolveFencedCode | lib/tokenize/flow/fenced-code.js:10-65 | The scan loop stops at the first exit of fencedCodeFenceStart, keeping the last info and meta enters before it. The result is the reference `Resolved`. |
| Resolve.ScanEnd | lib/tokenize/flow/fenced-code.js:22-37 | The scan stops at the first exit of fencedCodeFenceStart, or at the end of the list when there is none. |
| Resolve.LastEnter | lib/tokenize/flow/fenced-code.js:25-33 | The index chosen is an enter of the type, with no later enter of that type before the bound. None means there is no such enter at all. |
| Resolve.SplicePreserves | lib/tokenize/flow/fenced-code.js:39-62 | With no info enter the list comes back unchanged. Otherwise the plain-text events of the info span come right after the info enter. When the meta enter comes later, the events in between follow, then the meta span's events, then the rest. When it comes earlier, the meta run follows the info run directly, then every event after the meta enter, so those up to the info enter appear twice. The length grows by exactly what is inserted. |
| Resolve.ResolvePreserves | lib/tokenize/flow/fenced-code.js:22-40 | With no info enter before the first exit of fencedCodeFenceStart the events come back unchanged. The chosen indices are enters of fencedCodeFenceInfo and fencedCodeFenceMeta. |
| Resolve.ScanIgnoresSuffix | lib/tokenize/flow/fenced-code.js:22-37 | Events after the first exit of fencedCodeFenceStart are never looked at. Appending events leaves the chosen enters and their plain-text runs unchanged. |
| Resolve.ResolveGrows | lib/tokenize/flow/fenced-code.js:39-62 | The resolver never shortens the list. With an info enter it adds at least that span's plain-text events, including on a list it has already resolved. |
| Resolve.ResolveTwiceInsertsAgain | lib/tokenize/flow/fenced-code.js:10-65 | Resolving is not idempotent. On a three-event list with an info token, the first run gives four events and a second run gives five. |

## Left out

- The generic engine is not modelled. This covers the trampoline that feeds code points to states, the internals of `createConstructAttempt`, and the upkeep of `effects.previousToken`. `Engine.Effects` gives the construct the operations it calls. The previous token is a parameter of `FencedCode.TokenizeFencedCode`.
- `core.plainText` and `context.slice` (`lib/core`) are not part of this model. The plain-text tokenizer is a function parameter. It maps a start point and the code points of a span to the events of the span followed by those of the flush call. `Resolve.Span` takes a token's span from the input and clamps its offsets to the input.
- `lib/util/characters` is not part of this model. Its code points are written as constants in `Codes`.
- `next` is entered both after the opening line feed (`next(code)`) and after a content line's feed (`return next`). Both are modelled as one closing-fence attempt at the next line start followed by a content line.
- `FencedCode.LineEndFeed`: the `throw` of `lineEnd` (lines 257-258) is not modelled as an error. Every caller reaches `lineEnd` only at a line ending, and the precondition states that.
- The shared closure variable `prefixSize` is a local variable of each prefix loop. The source resets it before each use and clears it afterwards, so no value crosses states.
- Events are compared with the reference by phase, type and offset. Line and column are tracked by `Engine.Effects` but are not part of the reference.
- `FenceProperties.ClosingFenceAccepts` requires a backtick or tilde marker. That is the only marker an opening fence can have.
- The rendering of fenced code to HTML and the test fixtures (`test/io/flow/definition.js`) are outside the construct.
