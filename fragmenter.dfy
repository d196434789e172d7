/**
 * Splitting a tab's text into display windows of at most `linesPerWindow`
 * lines (teleprompter/src/glasses/fragmenter.ts).
 *
 * A window that does not reach the end of the text is cut greedily after
 * `linesPerWindow` lines, unless a blank line lies in the back part of that
 * greedy window, from `start + max(floor(0.6 * linesPerWindow), 1)` up to its
 * last line; then the window ends just after the highest such blank line.
 * `floor(0.6 * L)` is written `(3 * L) / 5`.
 */
module Fragmenter {
  import opened Text

  const DefaultLinesPerWindow := 18

  /** `line.trim() === ''`. */
  predicate IsBlank(line: string) {
    Trim(line) == ""
  }

  function Min(a: int, b: int): int { if a <= b then a else b }
  function Max(a: int, b: int): int { if a >= b then a else b }

  /** The lowest line the backward blank-line search examines for a window starting at `start`. */
  function SearchFrom(start: int, linesPerWindow: int): int {
    Max(start + (3 * linesPerWindow) / 5, start + 1)
  }

  /** The highest index in `[lo, hi)` holding a blank line, or -1 when there is none. */
  function LastBlankIn(lines: seq<string>, lo: int, hi: int): (r: int)
    requires 0 <= lo && hi <= |lines|
    ensures r == -1 || (lo <= r < hi && IsBlank(lines[r]))
    ensures forall i :: lo <= i < hi && r < i ==> !IsBlank(lines[i])
    decreases hi - lo
  {
    if hi <= lo then -1
    else if IsBlank(lines[hi - 1]) then hi - 1
    else LastBlankIn(lines, lo, hi - 1)
  }

  /** Where the window starting at line `start` ends (exclusive). */
  function WindowEnd(lines: seq<string>, start: nat, linesPerWindow: int): (end: nat)
    requires linesPerWindow >= 1 && start < |lines|
    ensures start < end <= |lines| && end - start <= linesPerWindow
    ensures end == |lines| <==> start + linesPerWindow >= |lines|
  {
    var greedy := Min(start + linesPerWindow, |lines|);
    if greedy < |lines| then
      var bestBreak := LastBlankIn(lines, SearchFrom(start, linesPerWindow), greedy);
      if bestBreak > start then bestBreak + 1 else greedy
    else greedy
  }

  /**
   * A window that is not the last ends just after the highest blank line of
   * its search range, or takes the full `linesPerWindow` lines when that range
   * holds no blank line.
   */
  lemma WindowEndBreaks(lines: seq<string>, start: nat, linesPerWindow: int)
    requires linesPerWindow >= 1 && start + linesPerWindow < |lines|
    ensures var end := WindowEnd(lines, start, linesPerWindow);
            && (end < start + linesPerWindow ==>
                  SearchFrom(start, linesPerWindow) <= end - 1 && IsBlank(lines[end - 1]))
            && (forall i :: SearchFrom(start, linesPerWindow) <= i < start + linesPerWindow && end - 1 < i ==>
                  !IsBlank(lines[i]))
            && ((forall i :: SearchFrom(start, linesPerWindow) <= i < start + linesPerWindow ==> !IsBlank(lines[i])) ==>
                  end == start + linesPerWindow)
  {
  }

  /** A window cut short of `linesPerWindow` lines ends just after a blank line of its search range. */
  lemma WindowEndCut(lines: seq<string>, start: nat, linesPerWindow: int)
    requires linesPerWindow >= 1 && start + linesPerWindow < |lines|
    requires WindowEnd(lines, start, linesPerWindow) < start + linesPerWindow
    ensures var end := WindowEnd(lines, start, linesPerWindow);
            SearchFrom(start, linesPerWindow) <= end - 1 && IsBlank(lines[end - 1])
  {
  }

  /** The windows of the text from line `start` on, each the newline-join of its lines. */
  function WindowsFrom(lines: seq<string>, start: nat, linesPerWindow: int): (windows: seq<string>)
    requires linesPerWindow >= 1 && start <= |lines|
    decreases |lines| - start
  {
    if start == |lines| then []
    else
      var end := WindowEnd(lines, start, linesPerWindow);
      [Join(lines[start..end], "\n")] + WindowsFrom(lines, end, linesPerWindow)
  }

  /** The windows `fragmentTabContent(content, linesPerWindow)` returns. */
  function Fragment(content: string, linesPerWindow: int): (windows: seq<string>)
    requires linesPerWindow >= 1
    ensures |windows| >= 1
  {
    var windows := WindowsFrom(Split(content), 0, linesPerWindow);
    if |windows| > 0 then windows else [""]
  }

  /** The backward `for` loop of `fragmentTabContent`: the highest blank line in `[searchFrom, end)`, else -1. */
  method FindBreak(lines: seq<string>, searchFrom: int, end: int) returns (bestBreak: int)
    requires 0 <= searchFrom <= end <= |lines|
    ensures bestBreak == LastBlankIn(lines, searchFrom, end)
  {
    bestBreak := -1;
    for i := end downto searchFrom
      invariant LastBlankIn(lines, searchFrom, end) == LastBlankIn(lines, searchFrom, i)
    {
      if IsBlank(lines[i]) {
        bestBreak := i;
        break;
      }
    }
  }

  /** `fragmentTabContent`: a while loop over window starts that pushes one window per round. */
  method FragmentTabContent(content: string, linesPerWindow: int) returns (windows: seq<string>)
    requires linesPerWindow >= 1
    ensures windows == Fragment(content, linesPerWindow)
  {
    var lines := Split(content);
    windows := [];
    var start := 0;
    while start < |lines|
      invariant 0 <= start <= |lines|
      invariant windows + WindowsFrom(lines, start, linesPerWindow) == WindowsFrom(lines, 0, linesPerWindow)
      decreases |lines| - start
    {
      var end := Min(start + linesPerWindow, |lines|);
      if end < |lines| {
        var searchFrom := SearchFrom(start, linesPerWindow);
        var bestBreak := FindBreak(lines, searchFrom, end);
        if bestBreak > start {
          end := bestBreak + 1;
        }
      }
      var window := Join(lines[start..end], "\n");
      assert end == WindowEnd(lines, start, linesPerWindow);
      ghost var rest := WindowsFrom(lines, end, linesPerWindow);
      assert WindowsFrom(lines, start, linesPerWindow) == [window] + rest;
      AppendAssoc(windows, [window], rest);
      windows := windows + [window];
      start := end;
    }
    assert WindowsFrom(lines, start, linesPerWindow) == [];
    assert windows == WindowsFrom(lines, 0, linesPerWindow);
    windows := if |windows| > 0 then windows else [""];
  }

  // ---------------------------------------------------------------------------
  // Properties of the windows

  /** A window followed by windows joining to the lines after it joins to all those lines. */
  lemma JoinWindowThen(lines: seq<string>, start: nat, end: nat, rest: seq<string>)
    requires start < end < |lines| && |rest| >= 1
    requires Join(rest, "\n") == Join(lines[end..], "\n")
    ensures Join([Join(lines[start..end], "\n")] + rest, "\n") == Join(lines[start..], "\n")
  {
    var own, after := lines[start..end], lines[end..];
    var head := Join(own, "\n");
    assert own + after == lines[start..];
    assert Join([head], "\n") == head;
    JoinAppend([head], rest, "\n");
    JoinAppend(own, after, "\n");
  }

  /** The windows from `start` on join back to the lines from `start` on. */
  lemma {:induction false} JoinWindowsFrom(lines: seq<string>, start: nat, linesPerWindow: int)
    requires linesPerWindow >= 1 && start < |lines|
    ensures |WindowsFrom(lines, start, linesPerWindow)| >= 1
    ensures Join(WindowsFrom(lines, start, linesPerWindow), "\n") == Join(lines[start..], "\n")
    decreases |lines| - start
  {
    var end := WindowEnd(lines, start, linesPerWindow);
    var head := Join(lines[start..end], "\n");
    var rest := WindowsFrom(lines, end, linesPerWindow);
    assert WindowsFrom(lines, start, linesPerWindow) == [head] + rest;
    if end < |lines| {
      JoinWindowsFrom(lines, end, linesPerWindow);
      JoinWindowThen(lines, start, end, rest);
    } else {
      assert [head] + rest == [head];
      assert lines[start..end] == lines[start..];
    }
  }

  /** Round trip: joining the windows with newlines reproduces the text exactly. */
  lemma FragmentRoundTrip(content: string, linesPerWindow: int)
    requires linesPerWindow >= 1
    ensures Join(Fragment(content, linesPerWindow), "\n") == content
  {
    var lines := Split(content);
    JoinWindowsFrom(lines, 0, linesPerWindow);
    assert lines[0..] == lines;
    JoinSplit(content);
  }

  /** A text of at most `linesPerWindow` lines is a single window, the text itself. */
  lemma FragmentShortText(content: string, linesPerWindow: int)
    requires linesPerWindow >= 1
    requires |Split(content)| <= linesPerWindow
    ensures Fragment(content, linesPerWindow) == [content]
  {
    var lines := Split(content);
    assert WindowEnd(lines, 0, linesPerWindow) == |lines|;
    assert lines[0..|lines|] == lines;
    assert WindowsFrom(lines, |lines|, linesPerWindow) == [];
    JoinSplit(content);
  }

  /** A text without a newline is exactly one window. */
  lemma FragmentSingleLine(content: string, linesPerWindow: int)
    requires linesPerWindow >= 1
    requires '\n' !in content
    ensures Fragment(content, linesPerWindow) == [content]
  {
    SplitNoNewline(content);
    FragmentShortText(content, linesPerWindow);
  }

  /** The line at which window `k` of the windows from `start` begins (|lines| once past the last). */
  function WindowStart(lines: seq<string>, start: nat, linesPerWindow: int, k: nat): (s: nat)
    requires linesPerWindow >= 1 && start <= |lines|
    ensures start <= s <= |lines|
    decreases k
  {
    if k == 0 || start == |lines| then start
    else WindowStart(lines, WindowEnd(lines, start, linesPerWindow), linesPerWindow, k - 1)
  }

  /** Window `k` is the join of the lines from its start to the `WindowEnd` of that start, and the next window starts there. */
  lemma {:induction false} WindowAt(lines: seq<string>, start: nat, linesPerWindow: int, k: nat)
    requires linesPerWindow >= 1 && start <= |lines|
    requires k < |WindowsFrom(lines, start, linesPerWindow)|
    ensures var s := WindowStart(lines, start, linesPerWindow, k);
            s < |lines| &&
            WindowsFrom(lines, start, linesPerWindow)[k] == Join(lines[s..WindowEnd(lines, s, linesPerWindow)], "\n") &&
            WindowStart(lines, start, linesPerWindow, k + 1) == WindowEnd(lines, s, linesPerWindow) &&
            (k + 1 == |WindowsFrom(lines, start, linesPerWindow)| <==> WindowEnd(lines, s, linesPerWindow) == |lines|)
    decreases k
  {
    var end := WindowEnd(lines, start, linesPerWindow);
    if k > 0 {
      WindowAt(lines, end, linesPerWindow, k - 1);
    } else if end < |lines| {
      JoinWindowsFrom(lines, end, linesPerWindow);
    }
  }

  /** The fallback to a single empty window never applies: the windows are exactly those of the lines. */
  lemma FragmentIsWindows(content: string, linesPerWindow: int)
    requires linesPerWindow >= 1
    ensures Fragment(content, linesPerWindow) == WindowsFrom(Split(content), 0, linesPerWindow)
  {
    JoinWindowsFrom(Split(content), 0, linesPerWindow);
  }

  /** A slice of newline-free lines is newline-free. */
  lemma {:induction false} SliceNoNewline(lines: seq<string>, s: nat, e: nat)
    requires s <= e <= |lines|
    requires forall j :: 0 <= j < |lines| ==> '\n' !in lines[j]
    ensures forall j :: 0 <= j < |lines[s..e]| ==> '\n' !in lines[s..e][j]
  {
  }

  /** Window `k`, split at newlines, is its own run of lines; it is not the last exactly when more lines follow the greedy cut. */
  lemma {:induction false} WindowLines(content: string, linesPerWindow: int, k: nat)
    requires linesPerWindow >= 1
    requires k < |Fragment(content, linesPerWindow)|
    ensures var lines := Split(content);
            var s := WindowStart(lines, 0, linesPerWindow, k);
            s < |lines| &&
            Split(Fragment(content, linesPerWindow)[k]) == lines[s..WindowEnd(lines, s, linesPerWindow)] &&
            (k + 1 < |Fragment(content, linesPerWindow)| <==> s + linesPerWindow < |lines|)
  {
    var lines := Split(content);
    FragmentIsWindows(content, linesPerWindow);
    WindowAt(lines, 0, linesPerWindow, k);
    var s := WindowStart(lines, 0, linesPerWindow, k);
    var own := lines[s..WindowEnd(lines, s, linesPerWindow)];
    SliceNoNewline(lines, s, WindowEnd(lines, s, linesPerWindow));
    SplitJoin(own);
  }

  /** A window starting at `start` that is not the last and is cut short ends in a blank line of its search range. */
  lemma {:induction false} InnerWindowShape(lines: seq<string>, start: nat, linesPerWindow: int, ws: seq<string>)
    requires linesPerWindow >= 1 && start + linesPerWindow < |lines|
    requires ws == lines[start..WindowEnd(lines, start, linesPerWindow)]
    ensures |ws| <= linesPerWindow
    ensures |ws| < linesPerWindow ==>
              SearchFrom(0, linesPerWindow) <= |ws| - 1 && IsBlank(ws[|ws| - 1])
  {
    var e := WindowEnd(lines, start, linesPerWindow);
    if e < start + linesPerWindow {
      WindowEndCut(lines, start, linesPerWindow);
      assert SearchFrom(start, linesPerWindow) == start + SearchFrom(0, linesPerWindow);
      assert ws[|ws| - 1] == lines[e - 1];
    }
  }

  /** Every window holds between 1 and `linesPerWindow` lines. */
  lemma FragmentWindowSize(content: string, linesPerWindow: int, k: nat)
    requires linesPerWindow >= 1
    requires k < |Fragment(content, linesPerWindow)|
    ensures 1 <= |Split(Fragment(content, linesPerWindow)[k])| <= linesPerWindow
  {
    WindowLines(content, linesPerWindow, k);
  }

  /**
   * A window that is not the last and is shorter than `linesPerWindow` lines
   * ends with a blank line at an offset in the search range; one with no blank
   * line in the search range holds exactly `linesPerWindow` lines.
   */
  lemma FragmentInnerWindow(content: string, linesPerWindow: int, k: nat, ws: seq<string>)
    requires linesPerWindow >= 1
    requires k + 1 < |Fragment(content, linesPerWindow)|
    requires ws == Split(Fragment(content, linesPerWindow)[k])
    ensures |ws| < linesPerWindow ==>
              SearchFrom(0, linesPerWindow) <= |ws| - 1 && IsBlank(ws[|ws| - 1])
    ensures (forall j :: SearchFrom(0, linesPerWindow) <= j < |ws| ==> !IsBlank(ws[j])) ==>
              |ws| == linesPerWindow
  {
    WindowLines(content, linesPerWindow, k);
    var lines := Split(content);
    var s := WindowStart(lines, 0, linesPerWindow, k);
    InnerWindowShape(lines, s, linesPerWindow, ws);
  }
}
