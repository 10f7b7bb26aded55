/** The source listing around the current line: `_format_plain_code`, and the
    line-range and highlight arithmetic of `_rich_code_panel`. */
module CodeView {
  import opened PyText

  /** `linecache.getline(filename, idx)` for a file whose lines, without their
      terminators, are `lines`: the line and its newline, or "" out of range. */
  function GetLine(lines: seq<string>, idx: int): (r: string)
    ensures r != "" <==> 1 <= idx <= |lines|
  {
    if 1 <= idx <= |lines| then lines[idx - 1] + "\n" else ""
  }

  /** The line numbers the listing loops keep, out of `range(start, stop)`:
      those for which `getline` returned a line. */
  function Shown(lines: seq<string>, start: int, stop: int): seq<int>
    decreases stop - start
  {
    if stop <= start then []
    else Shown(lines, start, stop - 1) + (if GetLine(lines, stop - 1) != "" then [stop - 1] else [])
  }

  function Min(a: int, b: int): int { if a <= b then a else b }
  function Max(a: int, b: int): int { if a >= b then a else b }

  /** The loops keep a gap-free run of line numbers: from `start` to the last
      line of the window that exists in the file. */
  lemma {:induction false} ShownIsRun(lines: seq<string>, start: int, stop: int)
    requires start >= 1
    ensures var last := Min(stop - 1, |lines|);
      |Shown(lines, start, stop)| == Max(0, last - start + 1)
      && forall k :: 0 <= k < |Shown(lines, start, stop)| ==> Shown(lines, start, stop)[k] == start + k
    decreases stop - start
  {
    if stop > start {
      ShownIsRun(lines, start, stop - 1);
    }
  }

  // ---------------------------------------------------------------------
  // _format_plain_code
  // ---------------------------------------------------------------------

  /** `"->"` on the current line, two spaces elsewhere. */
  function Marker(idx: int, lineno: int): string
  {
    if idx == lineno then "->" else "  "
  }

  /** `f"{marker} {idx:>4}: {raw_line.rstrip()}"`. */
  function ListingLine(lines: seq<string>, idx: int, lineno: int): string
  {
    Marker(idx, lineno) + " " + RJust(IntToString(idx), 4) + ": " + RStrip(GetLine(lines, idx))
  }

  /** A listing line that starts with the `->` marker. */
  predicate Marked(line: string)
  {
    |line| >= 2 && line[0] == '-' && line[1] == '>'
  }

  lemma ListingLineMarker(lines: seq<string>, idx: int, lineno: int)
    ensures Marked(ListingLine(lines, idx, lineno)) <==> idx == lineno
  {
    var m := Marker(idx, lineno);
    var rest := " " + RJust(IntToString(idx), 4) + ": " + RStrip(GetLine(lines, idx));
    assert ListingLine(lines, idx, lineno) == m + rest;
    assert (m + rest)[0] == m[0] && (m + rest)[1] == m[1];
  }

  /** The listing lines of `range(start, stop)`: one per line number for
      which `getline` returned a line. */
  function Listing(lines: seq<string>, start: int, stop: int, lineno: int): seq<string>
    decreases stop - start
  {
    if stop <= start then []
    else
      Listing(lines, start, stop - 1, lineno)
      + (if GetLine(lines, stop - 1) != "" then [ListingLine(lines, stop - 1, lineno)] else [])
  }

  /** One more turn of the listing loop: a line number `getline` finds adds
      its listing line, any other adds nothing. */
  lemma ListingNext(lines: seq<string>, start: int, idx: int, lineno: int, out: seq<string>, line: string)
    requires start <= idx && out == Listing(lines, start, idx, lineno)
    requires GetLine(lines, idx) != "" ==> line == ListingLine(lines, idx, lineno)
    ensures Listing(lines, start, idx + 1, lineno) == if GetLine(lines, idx) != "" then out + [line] else out
  {
    if GetLine(lines, idx) == "" {
      assert out + [] == out;
    }
  }

  /** The first line of the window, `max(1, lineno - context_lines)`. */
  function WindowStart(lineno: int, context: int): int
  {
    Max(1, lineno - context)
  }

  /** The lines `_format_plain_code` joins. */
  function PlainListing(lines: seq<string>, lineno: int, context: int): seq<string>
  {
    Listing(lines, WindowStart(lineno, context), lineno + context + 1, lineno)
  }

  /** `_format_plain_code`: the window of `context` lines around `lineno`,
      numbered, with the marker on the current line. */
  method FormatPlainCode(lines: seq<string>, lineno: int, context: int) returns (text: string)
    ensures text == Join("\n", PlainListing(lines, lineno, context))
  {
    var start := Max(1, lineno - context);
    var end := lineno + context;
    var out: seq<string> := [];
    var idx := start;
    while idx < end + 1
      invariant idx == start || start < idx <= end + 1
      invariant out == Listing(lines, start, idx, lineno)
      decreases end + 1 - idx
    {
      var rawLine := GetLine(lines, idx);
      if rawLine != "" {
        var marker := Marker(idx, lineno);
        var line := marker + " " + RJust(IntToString(idx), 4) + ": " + RStrip(rawLine);
        ListingNext(lines, start, idx, lineno, out, line);
        out := out + [line];
      } else {
        ListingNext(lines, start, idx, lineno, out, "");
      }
      idx := idx + 1;
    }
    text := Join("\n", out);
  }

  /** The listing of a window is every line of the file in it, in order and
      without gaps, each under its own number. */
  lemma {:induction false} ListingIsRun(lines: seq<string>, start: int, stop: int, lineno: int)
    requires start >= 1
    ensures var r := Listing(lines, start, stop, lineno);
      && |r| == Max(0, Min(stop - 1, |lines|) - start + 1)
      && forall k :: 0 <= k < |r| ==> r[k] == ListingLine(lines, start + k, lineno)
    decreases stop - start
  {
    if stop > start {
      ListingIsRun(lines, start, stop - 1, lineno);
      var before := Listing(lines, start, stop - 1, lineno);
      var r := Listing(lines, start, stop, lineno);
      if GetLine(lines, stop - 1) == "" {
        assert r == before + [];
        assert before + [] == before;
      } else {
        var last := ListingLine(lines, stop - 1, lineno);
        assert r == before + [last];
        assert |before| == stop - 1 - start;
        forall k | 0 <= k < |r| ensures r[k] == ListingLine(lines, start + k, lineno) {
          if k < |before| {
            assert r[k] == before[k];
          }
        }
      }
    }
  }

  /** The plain listing shows every line of the file between
      `lineno - context` and `lineno + context`, in order and without gaps,
      each under its own number (`ListingLineMarker` puts the marker on
      line `lineno` alone). */
  lemma PlainListingShape(lines: seq<string>, lineno: int, context: int)
    ensures var start := WindowStart(lineno, context);
      var r := PlainListing(lines, lineno, context);
      && |r| == Max(0, Min(lineno + context, |lines|) - start + 1)
      && forall k :: 0 <= k < |r| ==> r[k] == ListingLine(lines, start + k, lineno)
  {
    ListingIsRun(lines, WindowStart(lineno, context), lineno + context + 1, lineno);
  }

  // ---------------------------------------------------------------------
  // _rich_code_panel: line range and highlight
  // ---------------------------------------------------------------------

  const Unavailable: string := "<source unavailable>"

  /** What `_rich_code_panel` hands to the syntax view: the code lines, the
      numbered range `(first, last)` and the highlighted line numbers. */
  datatype CodeWindow = CodeWindow(code: seq<string>, first: int, last: int, highlight: set<int>)

  /** The window arithmetic of `_rich_code_panel`; `totalLines` is the line
      count `_prepare` took, 0 when the file could not be read. */
  function RichCodeWindow(lines: seq<string>, totalLines: int, lineno: int, context: int): CodeWindow
  {
    var start := Max(1, lineno - context);
    var maxLine := if totalLines != 0 then totalLines else lineno + context;
    var end := Min(maxLine, lineno + context);
    var found := RichLines(lines, Shown(lines, start, end + 1));
    var code := if found == [] then [Unavailable] else found;
    var highlight: set<int> := if code != [] && Unavailable !in code then {lineno} else {};
    CodeWindow(code, start, start + |code| - 1, highlight)
  }

  /** No line of the file carries its own terminator. */
  predicate Unterminated(lines: seq<string>)
  {
    forall i :: 0 <= i < |lines| ==> lines[i] == [] || lines[i][|lines[i]| - 1] != '\n'
  }

  /** The lines the rich panel collects: each shown line without its newline. */
  function RichLines(lines: seq<string>, idxs: seq<int>): seq<string>
  {
    seq(|idxs|, k requires 0 <= k < |idxs| => RStripChar(GetLine(lines, idxs[k]), '\n'))
  }

  lemma StripNewline(l: string)
    requires l == [] || l[|l| - 1] != '\n'
    ensures RStripChar(l + "\n", '\n') == l
  {
    assert (l + "\n")[..|l + "\n"| - 1] == l;
  }

  /** A line of a file whose lines carry no terminator comes back from
      `getline` and `rstrip("\n")` as it is. */
  lemma RichLineAt(lines: seq<string>, idx: int)
    requires Unterminated(lines) && 1 <= idx <= |lines|
    ensures RStripChar(GetLine(lines, idx), '\n') == lines[idx - 1]
  {
    StripNewline(lines[idx - 1]);
  }

  /** The shown lines of a gap-free run, without their newlines, are the
      file's own lines. */
  lemma RichLinesAreFileLines(lines: seq<string>, start: int, stop: int)
    requires Unterminated(lines) && start >= 1
    ensures var last := Min(stop - 1, |lines|);
      start <= last ==> RichLines(lines, Shown(lines, start, stop)) == lines[start - 1..last]
    ensures RichLines(lines, Shown(lines, start, stop)) == [] <==> start > Min(stop - 1, |lines|)
  {
    var idxs := Shown(lines, start, stop);
    ShownIsRun(lines, start, stop);
    var r := RichLines(lines, idxs);
    var last := Min(stop - 1, |lines|);
    assert |r| == |idxs|;
    if start <= last {
      var want := lines[start - 1..last];
      assert |want| == |r|;
      forall k | 0 <= k < |r| ensures r[k] == want[k] {
        assert idxs[k] == start + k;
        RichLineAt(lines, start + k);
      }
    }
  }

  /** The range handed to the syntax view numbers the code correctly: when the
      window holds lines of the file they are exactly lines `first..last`, in
      order; otherwise the placeholder stands alone and nothing is highlighted.
      The current line is highlighted unless some shown line reads exactly
      like the placeholder. */
  lemma RichWindowNumbering(lines: seq<string>, totalLines: int, lineno: int, context: int)
    requires Unterminated(lines)
    ensures var w := RichCodeWindow(lines, totalLines, lineno, context);
      var start := Max(1, lineno - context);
      var end := Min(if totalLines != 0 then totalLines else lineno + context, lineno + context);
      var last := Min(end, |lines|);
      && w.first == start
      && (start <= last ==>
            w.last == last && w.code == lines[start - 1..last]
            && w.highlight == if Unavailable in w.code then {} else {lineno})
      && (start > last ==> w.code == [Unavailable] && w.last == start && w.highlight == {})
  {
    var start := Max(1, lineno - context);
    var end := Min(if totalLines != 0 then totalLines else lineno + context, lineno + context);
    RichLinesAreFileLines(lines, start, end + 1);
    var found := RichLines(lines, Shown(lines, start, end + 1));
    var w := RichCodeWindow(lines, totalLines, lineno, context);
    assert w.code == if found == [] then [Unavailable] else found;
  }
}
