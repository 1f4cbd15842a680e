/**
  The console session and its scroll-back view (`src/ui/console.rs`).

  A `Console` holds the output buffer (one string; its lines are what
  `str::lines` yields), the edit line, the prompt and the submitted history.
  A `BufferView` is the window onto the buffer: `start` is the first buffer line
  shown and `range` how many lines are shown. Rust's `usize` subtractions panic
  when they would go below zero in builds with overflow checks (the debug
  profile), so the view operations require their operands in order; release
  builds wrap instead, which `WrappedStartShowsNothing` describes.
 */
module Consoles {
  import opened Strings

  /** A console entity's id. */
  type ConsoleId = nat

  datatype Console = Console(buffer: string, input: string, prompt: string, history: seq<string>)

  /** The console entities that exist, by id; an id that is not a key does not resolve. */
  type World = map<ConsoleId, Console>

  /** `Console::default`. */
  function DefaultConsole(): Console {
    Console([], [], "> ", [])
  }

  function Min(a: nat, b: nat): nat {
    if a <= b then a else b
  }

  /** `usize::saturating_sub`. */
  function SaturatingSub(a: nat, b: nat): nat {
    if b <= a then a - b else 0
  }

  datatype BufferView = BufferView(consoleId: ConsoleId, start: nat, range: nat)

  /**
    `ConsoleBufferView::new`: nothing shown until the first layout sets `range`.
    Whatever the buffer holds, no line of it is visible, so the console's text
    is only the prompt line.
   */
  function NewView(id: ConsoleId): (v: BufferView)
    ensures v.consoleId == id && v.start == 0 && v.range == 0
    ensures forall ls :: VisibleLines(v, ls) == []
    ensures forall c :: Text(v, c) == "\n" + c.prompt + c.input
  {
    BufferView(id, 0, 0)
  }

  /** `jump_to_bottom`: the window slides so that its last line is the last of `lines` lines. */
  function JumpToBottom(v: BufferView, lines: nat): (r: BufferView)
    requires v.range <= lines
    ensures r.start + r.range == lines
    ensures r.range == v.range && r.consoleId == v.consoleId
  {
    v.(start := lines - v.range)
  }

  /**
    `resize`, given `rows`: the number of text rows the source computes from the
    container and line heights. The prompt's lines are taken off the rows, and
    the window is pinned to the bottom of the buffer.
   */
  function Resize(v: BufferView, rows: nat, lines: nat, promptLines: nat): (r: BufferView)
    requires promptLines <= rows
    requires rows - promptLines <= lines
    ensures r.range + promptLines == rows
    ensures r.start + r.range == lines
    ensures r.consoleId == v.consoleId
  {
    var range := rows - promptLines;
    BufferView(v.consoleId, lines - range, range)
  }

  /** Jumping to the bottom twice for the same line count is jumping once. */
  lemma JumpToBottomIdempotent(v: BufferView, lines: nat)
    requires v.range <= lines
    ensures JumpToBottom(JumpToBottom(v, lines), lines) == JumpToBottom(v, lines)
  {
  }

  /**
    A resized view is already at the bottom, and resizing again with the same
    inputs changes nothing: the result does not depend on the old window.
   */
  lemma ResizeIsPinned(v: BufferView, rows: nat, lines: nat, promptLines: nat)
    requires promptLines <= rows && rows - promptLines <= lines
    ensures JumpToBottom(Resize(v, rows, lines, promptLines), lines) == Resize(v, rows, lines, promptLines)
    ensures Resize(Resize(v, rows, lines, promptLines), rows, lines, promptLines) == Resize(v, rows, lines, promptLines)
  {
  }

  /** The buffer lines a view shows: `skip(start)` then `take(range)`. */
  function VisibleLines(v: BufferView, lines: seq<string>): (r: seq<string>)
    ensures v.start >= |lines| ==> r == []
    ensures v.start < |lines| ==> |r| == if v.start + v.range <= |lines| then v.range else |lines| - v.start
    ensures forall i :: 0 <= i < |r| ==> v.start + i < |lines| && r[i] == lines[v.start + i]
  {
    var skipped := if v.start <= |lines| then lines[v.start..] else [];
    if v.range <= |skipped| then skipped[..v.range] else skipped
  }

  /** The text under the window: the visible lines, then a line with the prompt and the input. */
  function Text(v: BufferView, c: Console): (t: string)
    ensures var tail := "\n" + c.prompt + c.input;
            && |tail| <= |t|
            && t[|t| - |tail|..] == tail
            && t[..|t| - |tail|] == Join(VisibleLines(v, Lines(c.buffer)), "\n")
    ensures v.start >= |Lines(c.buffer)| ==> t == "\n" + c.prompt + c.input
  {
    Join(VisibleLines(v, Lines(c.buffer)), "\n") + "\n" + c.prompt + c.input
  }

  /** No line ends in '\r'. */
  predicate NoTrailingCr(ls: seq<string>) {
    forall i :: 0 <= i < |ls| ==> StripCr(ls[i]) == ls[i]
  }

  /**
    Read back with `str::lines`, the text is the visible buffer lines (or one
    empty line when none is visible), then the lines of the prompt and input.
    A visible line that ends in '\r' would lose it, so those are excluded.
   */
  lemma TextLines(v: BufferView, c: Console)
    requires NoTrailingCr(VisibleLines(v, Lines(c.buffer)))
    ensures var vis := VisibleLines(v, Lines(c.buffer));
            Lines(Text(v, c)) == (if vis == [] then [""] else vis) + Lines(c.prompt + c.input)
  {
    var lines := Lines(c.buffer);
    var vis := VisibleLines(v, lines);
    var rest := c.prompt + c.input;
    assert Text(v, c) == Join(vis, "\n") + "\n" + rest;
    if vis == [] {
      LinesAfterNewline([], rest);
    } else {
      VisibleLinesArePlain(v, lines);
      LinesOfJoined(vis, rest);
    }
  }

  /** Visible lines come from `str::lines`, so none holds a '\n'; with no trailing '\r' they are plain. */
  lemma VisibleLinesArePlain(v: BufferView, lines: seq<string>)
    requires forall i :: 0 <= i < |lines| ==> '\n' !in lines[i]
    requires NoTrailingCr(VisibleLines(v, lines))
    ensures var vis := VisibleLines(v, lines);
            forall i :: 0 <= i < |vis| ==> PlainLine(vis[i])
  {
    var vis := VisibleLines(v, lines);
    forall i | 0 <= i < |vis|
      ensures PlainLine(vis[i])
    {
      assert vis[i] == lines[v.start + i];
    }
  }

  /** A new console under a new view shows nothing but the default prompt. */
  lemma DefaultConsoleText(id: ConsoleId)
    ensures Text(NewView(id), DefaultConsole()) == "\n> "
  {
  }

  // ---------------------------------------------------------------------------
  // Where `rows` comes from. The source divides the line height by the
  // container height; the number of text rows that fit is the other quotient.
  // Heights are taken as exact positive reals, not as `f32`.
  // ---------------------------------------------------------------------------

  /** The row count as `resize` computes it: `(line_height / container_height) as usize`. */
  function RowsAsWritten(containerHeight: real, lineHeight: real): nat
    requires containerHeight > 0.0 && lineHeight > 0.0
  {
    (lineHeight / containerHeight).Floor
  }

  /** As written, any container taller than one line yields no rows at all. */
  lemma RowsAsWrittenVanish(containerHeight: real, lineHeight: real)
    requires containerHeight > lineHeight > 0.0
    ensures RowsAsWritten(containerHeight, lineHeight) == 0
  {
    var q := lineHeight / containerHeight;
    assert q * containerHeight == lineHeight;
    if q >= 1.0 {
      ScaleMonotonic(1.0, q, containerHeight);
      assert false;
    }
    if q < 0.0 {
      ScaleMonotonic(q, 0.0, containerHeight);
      assert false;
    }
  }

  /**
    A 120-pixel container with 12-pixel lines: as written there are 0 rows,
    fewer than the one line of the default prompt, so `resize` underflows.
   */
  lemma RowsAsWrittenUnderflowExample()
    ensures RowsAsWritten(120.0, 12.0) == 0
    ensures |Lines(DefaultConsole().prompt)| == 1
    ensures !(|Lines(DefaultConsole().prompt)| <= RowsAsWritten(120.0, 12.0))
  {
    RowsAsWrittenVanish(120.0, 12.0);
    assert DefaultConsole().prompt == "> ";
    assert IndexOf("> ", '\n').None?;
  }

  /** The number of whole lines of height `lineHeight` that fit in `containerHeight`. */
  function RowsThatFit(containerHeight: real, lineHeight: real): (rows: nat)
    requires containerHeight >= 0.0 && lineHeight > 0.0
    ensures rows as real * lineHeight <= containerHeight
    ensures containerHeight < (rows + 1) as real * lineHeight
  {
    var q := containerHeight / lineHeight;
    assert q * lineHeight == containerHeight;
    var f := q.Floor;
    ScaleMonotonic(f as real, q, lineHeight);
    ScaleMonotonic(q, (f + 1) as real, lineHeight);
    assert q * lineHeight < (f + 1) as real * lineHeight;
    assert containerHeight < (f + 1) as real * lineHeight;
    f
  }

  /** Scaling by a positive factor keeps the order. */
  lemma ScaleMonotonic(a: real, b: real, k: real)
    requires a <= b && k > 0.0
    ensures a * k <= b * k
    ensures a < b ==> a * k < b * k
  {
  }

  // ---------------------------------------------------------------------------
  // The second subtraction, `lines - range` (in `resize` and in
  // `jump_to_bottom`), underflows whenever the buffer has fewer lines than the
  // window, as every new console's empty buffer has. The corrected window
  // starts at the top of such a buffer instead.
  // ---------------------------------------------------------------------------

  /**
    Line 94 as written. Any container taller than one line already fails at
    line 92, so the code reaches line 94 only with a container at most half a
    line tall: 6 pixels with 12-pixel lines give a quotient of 2, the one-line
    prompt leaves a 1-line window, and that line cannot be taken off a new
    console's empty buffer. `jump_to_bottom` with that window fails the same
    way at line 101. Once line 92 is corrected, every container with more
    rows than the prompt reaches this underflow too.
   */
  lemma ShortBufferUnderflowExample()
    ensures var lines := |Lines(DefaultConsole().buffer)|;
            var rows := RowsAsWritten(6.0, 12.0);
            var promptLines := |Lines(DefaultConsole().prompt)|;
            && lines == 0 && rows == 2 && promptLines == 1
            && promptLines <= rows
            && !(rows - promptLines <= lines)
            && !(BufferView(0, 0, rows - promptLines).range <= lines)
  {
    assert 12.0 / 6.0 == 2.0;
    assert IndexOf("> ", '\n').None?;
  }

  /** `usize::MAX + 1`: `usize` arithmetic in release builds is taken modulo this. */
  const UsizeModulus: nat := 0x1_0000_0000_0000_0000

  /** `lines - range` in a release build: it wraps around instead of panicking. */
  function WrappingSub(a: nat, b: nat): (r: nat)
    requires a < UsizeModulus && b < UsizeModulus
    ensures r < UsizeModulus
    ensures b <= a ==> r == a - b
    ensures a < b ==> r == a + UsizeModulus - b
  {
    (a - b) % UsizeModulus
  }

  /**
    In a release build the underflowing `lines - range` wraps to a start far
    past the end of the buffer, so the view silently shows no buffer line at
    all and the text is only the prompt line.
   */
  lemma WrappedStartShowsNothing(id: ConsoleId, ls: seq<string>, range: nat, c: Console)
    requires |ls| < range < UsizeModulus
    requires Lines(c.buffer) == ls
    ensures var v := BufferView(id, WrappingSub(|ls|, range), range);
            && v.start > |ls|
            && VisibleLines(v, ls) == []
            && Text(v, c) == "\n" + c.prompt + c.input
  {
  }

  /** `jump_to_bottom` for any buffer: the window ends at the last line, or starts at the first when the buffer is shorter. */
  function ClampedJumpToBottom(v: BufferView, lines: nat): (r: BufferView)
    ensures r.range == v.range && r.consoleId == v.consoleId
    ensures r.start <= lines <= r.start + r.range
    ensures v.range <= lines ==> r.start + r.range == lines
    ensures lines < v.range ==> r.start == 0
  {
    v.(start := lines - Min(v.range, lines))
  }

  /** Where the source does not underflow, the corrected version agrees with it. */
  lemma ClampedJumpToBottomAgrees(v: BufferView, lines: nat)
    requires v.range <= lines
    ensures ClampedJumpToBottom(v, lines) == JumpToBottom(v, lines)
  {
  }

  /** `resize` for any buffer and prompt: the window takes the rows the prompt leaves, and is then jumped to the bottom. */
  function ClampedResize(v: BufferView, rows: nat, lines: nat, promptLines: nat): (r: BufferView)
    ensures r.consoleId == v.consoleId
    ensures promptLines <= rows ==> r.range + promptLines == rows
    ensures rows < promptLines ==> r.range == 0
    ensures r.start <= lines <= r.start + r.range
    ensures r.range <= lines ==> r.start + r.range == lines
  {
    ClampedJumpToBottom(v.(range := SaturatingSub(rows, promptLines)), lines)
  }

  /** Where the source does not underflow, the corrected version agrees with it. */
  lemma ClampedResizeAgrees(v: BufferView, rows: nat, lines: nat, promptLines: nat)
    requires promptLines <= rows && rows - promptLines <= lines
    ensures ClampedResize(v, rows, lines, promptLines) == Resize(v, rows, lines, promptLines)
  {
  }

  /** The corrected view shows the last lines of the buffer: as many as the window holds, or all of them. */
  lemma ClampedResizeShowsTheEnd(v: BufferView, rows: nat, ls: seq<string>, promptLines: nat)
    ensures var r := ClampedResize(v, rows, |ls|, promptLines);
            VisibleLines(r, ls) == ls[|ls| - Min(r.range, |ls|)..]
  {
  }

  /**
    `resize` with the row count taken the right way up and the window clamped
    to the buffer: the lines shown and the prompt fit in the container, one
    more line would not, and the window reaches the last buffer line.
   */
  function ResizeToContainer(v: BufferView, containerHeight: real, lineHeight: real, lines: nat, promptLines: nat): (r: BufferView)
    requires containerHeight >= 0.0 && lineHeight > 0.0
    ensures promptLines <= RowsThatFit(containerHeight, lineHeight) ==>
              && (r.range + promptLines) as real * lineHeight <= containerHeight
              && containerHeight < (r.range + promptLines + 1) as real * lineHeight
    ensures r.start <= lines <= r.start + r.range && r.consoleId == v.consoleId
    ensures r.range <= lines ==> r.start + r.range == lines
  {
    ClampedResize(v, RowsThatFit(containerHeight, lineHeight), lines, promptLines)
  }

  /** The same 120-pixel container holds 10 rows; with a one-line prompt and 100 lines, lines 91 to 99 show. */
  lemma ResizeToContainerExample(v: BufferView)
    ensures RowsThatFit(120.0, 12.0) == 10
    ensures var r := ResizeToContainer(v, 120.0, 12.0, 100, 1);
            r.range == 9 && r.start == 91
  {
  }

  /** With an empty buffer the same window starts at line 0 instead of underflowing. */
  lemma ResizeToContainerEmptyBuffer(v: BufferView)
    ensures var r := ResizeToContainer(v, 120.0, 12.0, 0, 1);
            r.range == 9 && r.start == 0
  {
    assert RowsThatFit(120.0, 12.0) == 10;
  }
}
