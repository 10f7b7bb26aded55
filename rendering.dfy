/** What one traced event puts on the screen: `_format_plain_locals`,
    `_render_plain`, and the data `_render_rich` hands to its panels. */
module Rendering {
  import opened Wrappers
  import opened PyText
  import opened Snapshot
  import opened CodeView

  // ---------------------------------------------------------------------
  // _format_plain_locals
  // ---------------------------------------------------------------------

  const WatchTitle: string := "* Watch vars"
  const LocalsTitle: string := "* Locals"

  /** One titled block of `    name = value` lines; an empty list adds no
      block at all, not even its title. */
  function Section(fmt: Formatter, cap: int, title: string, items: seq<(string, Value)>): Option<seq<string>>
  {
    if items == [] then Some([])
    else
      match Pairs(fmt, cap, "    ", " = ", items)
      case None => None
      case Some(entries) => Some([title] + entries)
  }

  /** The lines `_format_plain_locals` joins: the watch block, then the
      locals block. */
  function LocalsLines(fmt: Formatter, cap: int, watch: seq<(string, Value)>, locals: seq<(string, Value)>): Option<seq<string>>
  {
    match Section(fmt, cap, WatchTitle, watch)
    case None => None
    case Some(w) =>
      match Section(fmt, cap, LocalsTitle, locals)
      case None => None
      case Some(l) => Some(w + l)
  }

  function LocalsText(fmt: Formatter, cap: int, watch: seq<(string, Value)>, locals: seq<(string, Value)>): Option<string>
  {
    match LocalsLines(fmt, cap, watch, locals)
    case None => None
    case Some(ls) => Some(Join("\n", ls))
  }

  /** One block of `_format_plain_locals`: the title, then one
      `    name = value` line per item, behind `acc`; `None` when `_safe_repr`
      raises. */
  method AppendSection(fmt: Formatter, cap: int, acc: seq<string>, title: string, items: seq<(string, Value)>)
    returns (r: Option<seq<string>>)
    requires items != []
    ensures r.None? <==> Section(fmt, cap, title, items).None?
    ensures r.Some? ==> r.value == acc + Section(fmt, cap, title, items).value
  {
    var out := acc + [title];
    ghost var done: seq<string> := [];
    var i := 0;
    while i < |items|
      invariant 0 <= i <= |items|
      invariant out == acc + [title] + done
      invariant |done| == i
      invariant forall k :: 0 <= k < i ==>
        SafeRepr(fmt, cap, items[k].1).Some?
        && done[k] == "    " + items[k].0 + " = " + SafeRepr(fmt, cap, items[k].1).value
    {
      var (name, value) := items[i];
      var shown := SafeRepr(fmt, cap, value);
      if shown.None? {
        return None;
      }
      out := out + ["    " + name + " = " + shown.value];
      done := done + ["    " + name + " = " + shown.value];
      i := i + 1;
    }
    assert Pairs(fmt, cap, "    ", " = ", items).value == done;
    AppendAssoc(acc, [title], done);
    return Some(out);
  }

  /** `_format_plain_locals`; `None` when a value cannot be formatted. */
  method FormatPlainLocals(fmt: Formatter, cap: int, watch: seq<(string, Value)>, locals: seq<(string, Value)>)
    returns (text: Option<string>)
    ensures text == LocalsText(fmt, cap, watch, locals)
  {
    var items: seq<string> := [];
    if watch != [] {
      var more := AppendSection(fmt, cap, items, WatchTitle, watch);
      if more.None? {
        return None;
      }
      assert [] + Section(fmt, cap, WatchTitle, watch).value == Section(fmt, cap, WatchTitle, watch).value;
      items := more.value;
    }
    assert Section(fmt, cap, WatchTitle, watch) == Some(items);
    if locals != [] {
      var more := AppendSection(fmt, cap, items, LocalsTitle, locals);
      if more.None? {
        return None;
      }
      items := more.value;
    } else {
      assert items == items + [];
    }
    assert LocalsLines(fmt, cap, watch, locals) == Some(items);
    return Some(Join("\n", items));
  }

  /** A join is empty only when nothing, or only one empty part, is joined. */
  lemma JoinEmpty(sep: string, parts: seq<string>)
    requires parts != [] && parts[0] != ""
    ensures Join(sep, parts) != ""
  {
    if |parts| > 1 {
      assert Join(sep, parts) == parts[0] + sep + Join(sep, parts[1..]);
    }
  }

  /** The locals block fails exactly when a watched or local value cannot be
      formatted, and it is empty exactly when both lists are, which is when
      `_render_plain` leaves it out. */
  lemma LocalsBlock(fmt: Formatter, cap: int, watch: seq<(string, Value)>, locals: seq<(string, Value)>)
    ensures LocalsText(fmt, cap, watch, locals).None? <==>
      !AllFormat(fmt, cap, watch) || !AllFormat(fmt, cap, locals)
    ensures LocalsText(fmt, cap, watch, locals).Some? ==>
      (LocalsText(fmt, cap, watch, locals).value == "" <==> watch == [] && locals == [])
  {
    var ls := LocalsLines(fmt, cap, watch, locals);
    if ls.Some? && (watch != [] || locals != []) {
      assert ls.value[0] == if watch != [] then WatchTitle else LocalsTitle;
      JoinEmpty("\n", ls.value);
    }
  }

  /** A block is its title and one `    name = value` line per item, or
      nothing for no items. */
  lemma SectionLayout(fmt: Formatter, cap: int, title: string, items: seq<(string, Value)>)
    requires Section(fmt, cap, title, items).Some?
    ensures var s := Section(fmt, cap, title, items).value;
      && |s| == (if items == [] then 0 else |items| + 1)
      && (items != [] ==> s[0] == title)
      && forall i :: 0 <= i < |items| ==>
           s[1 + i] == "    " + items[i].0 + " = " + SafeRepr(fmt, cap, items[i].1).value
  {
  }

  // ---------------------------------------------------------------------
  // _render_plain and _render_rich
  // ---------------------------------------------------------------------

  /** Everything rendering reads besides the event: the value formatter, the
      settings, the output mode, the source file's lines as `linecache` serves
      them, and the line count `_prepare` took (0 when unreadable). */
  datatype View = View(fmt: Formatter, settings: Settings, useRich: bool, lines: seq<string>, totalLines: int)

  /** What one rendered event shows: the printed text in plain mode; in rich
      mode the header payload, the code window, and the watch and locals items
      the two tables list. */
  datatype Display =
    | Plain(text: string)
    | Rich(payload: Payload, window: CodeWindow, watch: seq<(string, Value)>, locals: seq<(string, Value)>)

  /** The text `_render_plain` prints: the header, the code listing and,
      when not empty, the locals block, on lines of their own; `None` when a
      value cannot be formatted. */
  function PlainText(v: View, e: Event): Option<string>
  {
    var cap := v.settings.maxValueRepr;
    match BuildEventPayload(v.fmt, cap, e)
    case None => None
    case Some(payload) =>
      var header := FormatPlainHeader(payload);
      var code := Join("\n", PlainListing(v.lines, e.frame.lineno, v.settings.contextLines));
      var g := GatherLocals(v.settings.watch, e.frame.locals);
      match LocalsText(v.fmt, cap, g.0, g.1)
      case None => None
      case Some(block) =>
        Some(header + "\n" + code + (if block != "" then "\n" + block else ""))
  }

  /** All the values a rich table shows can be formatted. */
  predicate TablesFormat(v: View, w: seq<(string, Value)>, l: seq<(string, Value)>)
  {
    AllFormat(v.fmt, v.settings.maxValueRepr, w) && AllFormat(v.fmt, v.settings.maxValueRepr, l)
  }

  /** `_render`: the plain text, or the panels' data in rich mode. */
  function Render(v: View, e: Event): Option<Display>
  {
    if v.useRich then
      match BuildEventPayload(v.fmt, v.settings.maxValueRepr, e)
      case None => None
      case Some(payload) =>
        var (w, l) := GatherLocals(v.settings.watch, e.frame.locals);
        if TablesFormat(v, w, l) then
          Some(Rich(payload, RichCodeWindow(v.lines, v.totalLines, e.frame.lineno, v.settings.contextLines), w, l))
        else
          None
    else
      match PlainText(v, e)
      case None => None
      case Some(t) => Some(Plain(t))
  }

  /** `_render_plain`: the header, the code listing and, when not empty, the
      locals block, one below the other. */
  method RenderPlain(v: View, e: Event) returns (text: Option<string>)
    ensures text == PlainText(v, e)
  {
    var cap := v.settings.maxValueRepr;
    var payload := BuildEventPayload(v.fmt, cap, e);
    if payload.None? {
      return None;
    }
    var header := FormatPlainHeader(payload.value);
    var code := FormatPlainCode(v.lines, e.frame.lineno, v.settings.contextLines);
    var g := GatherLocals(v.settings.watch, e.frame.locals);
    var block := FormatPlainLocals(v.fmt, cap, g.0, g.1);
    if block.None? {
      return None;
    }
    var segments := [header, code];
    if block.value != "" {
      segments := segments + [block.value];
    } else {
      assert segments == segments + [];
    }
    text := Some(Join("\n", segments));
    JoinSegments(header, code, block.value);
  }

  /** `_render`: the plain text, or the data of the rich panels. */
  method RenderEvent(v: View, e: Event) returns (d: Option<Display>)
    ensures d == Render(v, e)
  {
    if !v.useRich {
      var text := RenderPlain(v, e);
      return if text.None? then None else Some(Plain(text.value));
    }
    var payload := BuildEventPayload(v.fmt, v.settings.maxValueRepr, e);
    if payload.None? {
      return None;
    }
    var (w, l) := GatherLocals(v.settings.watch, e.frame.locals);
    if !TablesFormat(v, w, l) {
      return None;
    }
    var window := RichCodeWindow(v.lines, v.totalLines, e.frame.lineno, v.settings.contextLines);
    return Some(Rich(payload.value, window, w, l));
  }

  /** Rendering fails, in either mode, exactly when the event's own details
      or one of the shown locals cannot be formatted. */
  lemma RenderFails(v: View, e: Event)
    ensures var (w, l) := GatherLocals(v.settings.watch, e.frame.locals);
      Render(v, e).None? <==>
        BuildEventPayload(v.fmt, v.settings.maxValueRepr, e).None? || !TablesFormat(v, w, l)
  {
    var (w, l) := GatherLocals(v.settings.watch, e.frame.locals);
    LocalsBlock(v.fmt, v.settings.maxValueRepr, w, l);
  }

  /** Joining the two or three segments of `_render_plain`. */
  lemma JoinSegments(header: string, code: string, block: string)
    ensures Join("\n", [header, code] + (if block != "" then [block] else []))
      == header + "\n" + code + (if block != "" then "\n" + block else "")
  {
    if block != "" {
      var parts := [header, code] + [block];
      assert parts[1..] == [code, block] && [code, block][1..] == [block];
      assert Join("\n", [code, block]) == code + "\n" + block;
      assert Join("\n", parts) == header + "\n" + (code + "\n" + block);
    } else {
      assert [header, code][1..] == [code];
      assert [header, code] + [] == [header, code];
    }
  }
}
