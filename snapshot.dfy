/** What the visualizer sees of one execution event, and the pure helpers of
    visualizer/core.py that turn it into text: `_safe_repr`, `_gather_locals`,
    `_format_call_details`, `_build_event_payload` and `_format_plain_header`. */
module Snapshot {
  import opened Wrappers
  import opened PyText

  /** A runtime object of the traced program, known by its identity only; what
      it looks like is whatever the formatter makes of it. */
  datatype Value = Value(handle: nat)

  /** `pprint.pformat(v, width=80, compact=True)` and `repr(v)`, both opaque;
      `None` stands for a call that raised. */
  datatype Formatter = Formatter(pformat: Value -> Option<string>, repr: Value -> Option<string>)

  /** `RenderSettings`. */
  datatype Settings = Settings(
    contextLines: int,
    maxValueRepr: int,
    watch: seq<string>,
    useRich: bool,
    richTheme: string)

  const DefaultSettings: Settings := Settings(3, 120, [], true, "monokai")

  predicate DistinctNames(d: seq<(string, Value)>)
  {
    forall i, j :: 0 <= i < j < |d| ==> d[i].0 != d[j].0
  }

  /** A Python dict from names to values, in insertion order: no name twice. */
  type Dict = d: seq<(string, Value)> | DistinctNames(d) witness []

  /** The parts of a call frame the visualizer reads: its identity (for `is`),
      `f_code.co_filename`, `co_name`, `f_lineno`, `co_firstlineno`, the
      parameter names `inspect.getargvalues` reports, and `f_locals`. */
  datatype Frame = Frame(
    id: nat,
    filename: string,
    name: string,
    lineno: int,
    firstLineno: int,
    args: seq<string>,
    varargs: Option<string>,
    keywords: Option<string>,
    locals: Dict)

  /** The event name, with the trace function's `arg` where it carries one:
      the return value, or the exception's type name and value. */
  datatype Kind = Call | Line | Return(value: Value) | Exception(typeName: string, value: Value)

  datatype Event = Event(frame: Frame, kind: Kind)

  /** No later entry of a dict repeats the name of its first. */
  lemma HeadNameUnique(d: Dict)
    requires d != []
    ensures forall p :: p in d[1..] ==> p.0 != d[0].0
  {
    forall p | p in d[1..] ensures p.0 != d[0].0 {
      var j :| 0 <= j < |d[1..]| && d[1..][j] == p;
      assert d[j + 1] == p;
    }
  }

  // ---------------------------------------------------------------------
  // _safe_repr
  // ---------------------------------------------------------------------

  /** The text of a value before truncation: `pformat`, falling back to
      `repr` when `pformat` raises. The fallback is not guarded, so this can fail. */
  function Formatted(fmt: Formatter, v: Value): (r: Option<string>)
    ensures fmt.pformat(v).Some? ==> r == fmt.pformat(v)
    ensures fmt.pformat(v).None? ==> r == fmt.repr(v)
  {
    match fmt.pformat(v)
    case Some(s) => Some(s)
    case None => fmt.repr(v)
  }

  /** The cap applied by `_safe_repr`: a text longer than `cap` is cut with
      Python's `s[:cap - 3]` and marked with an ellipsis. */
  function Truncate(s: string, cap: int): string
  {
    if |s| > cap then SlicePrefix(s, cap - 3) + "..." else s
  }

  /** A text within the cap is kept; a longer one becomes a prefix of it
      followed by `...`, `cap` characters in all when `cap >= 3` (for a
      smaller cap Python's negative slice bound counts from the end). */
  lemma TruncateShape(s: string, cap: int)
    ensures var r := Truncate(s, cap);
      && (|s| <= cap ==> r == s)
      && (|s| > cap ==> 3 <= |r| <= |s| + 3 && r[|r| - 3..] == "...")
      && (|s| > cap ==> |r| - 3 <= |s| && r[..|r| - 3] == s[..|r| - 3])
      && (|s| > cap && cap >= 3 ==> |r| == cap)
      && (|s| > cap && cap < 3 ==> |r| == if |s| + cap >= 3 then |s| + cap else 3)
  {
    if |s| > cap {
      var p := SlicePrefix(s, cap - 3);
      assert Truncate(s, cap) == p + "...";
      assert (p + "...")[..|p|] == p;
    }
  }

  /** `_safe_repr`: the formatted text of a value, truncated to the cap. */
  function SafeRepr(fmt: Formatter, cap: int, v: Value): (r: Option<string>)
    ensures r.None? <==> fmt.pformat(v).None? && fmt.repr(v).None?
  {
    match Formatted(fmt, v)
    case Some(s) => Some(Truncate(s, cap))
    case None => None
  }

  /** The shown text of a value is its `pformat` text, or its `repr` when
      `pformat` raised, cut to the cap. */
  lemma SafeReprShape(fmt: Formatter, cap: int, v: Value)
    ensures var r := SafeRepr(fmt, cap, v);
      && (r.Some? && fmt.pformat(v).Some? ==> r.value == Truncate(fmt.pformat(v).value, cap))
      && (r.Some? && fmt.pformat(v).None? ==> r.value == Truncate(fmt.repr(v).value, cap))
      && (r.Some? && cap >= 3 ==> |r.value| <= cap)
  {
    var f := Formatted(fmt, v);
    if f.Some? {
      TruncateShape(f.value, cap);
    }
  }

  // ---------------------------------------------------------------------
  // Name order (Python's comparison of str)
  // ---------------------------------------------------------------------

  /** `a < b` on Python strings: lexicographic on code points. */
  predicate StrLt(a: string, b: string)
    decreases |a|
  {
    if a == [] then b != []
    else if b == [] then false
    else a[0] < b[0] || (a[0] == b[0] && StrLt(a[1..], b[1..]))
  }

  lemma StrLtIrreflexive(a: string)
    ensures !StrLt(a, a)
  {
  }

  lemma StrLtTransitive(a: string, b: string, c: string)
    requires StrLt(a, b) && StrLt(b, c)
    ensures StrLt(a, c)
  {
    if a != [] && b != [] && c != [] && a[0] == b[0] == c[0] {
      StrLtTransitive(a[1..], b[1..], c[1..]);
    }
  }

  lemma StrLtTotal(a: string, b: string)
    requires a != b
    ensures StrLt(a, b) || StrLt(b, a)
  {
    if a != [] && b != [] && a[0] == b[0] {
      assert a == [a[0]] + a[1..] && b == [b[0]] + b[1..];
      StrLtTotal(a[1..], b[1..]);
    }
  }

  /** Strictly ascending by name, as `sorted` leaves the items of a dict. */
  predicate SortedByName(s: seq<(string, Value)>)
  {
    forall i, j :: 0 <= i < j < |s| ==> StrLt(s[i].0, s[j].0)
  }

  /** An item below every item of a sorted list can be put in front of it. */
  lemma SortedCons(h: (string, Value), s: seq<(string, Value)>)
    requires SortedByName(s)
    requires forall p :: p in s ==> StrLt(h.0, p.0)
    ensures SortedByName([h] + s)
  {
    forall i, j | 0 <= i < j < |[h] + s| ensures StrLt(([h] + s)[i].0, ([h] + s)[j].0) {
      assert ([h] + s)[j] == s[j - 1];
      if i > 0 {
        assert ([h] + s)[i] == s[i - 1];
      }
    }
  }

  /** Every item after the first of a sorted list, and any item above the
      first, stays above the first. */
  lemma AboveHead(x: (string, Value), s: seq<(string, Value)>, rest: seq<(string, Value)>)
    requires SortedByName(s) && s != [] && StrLt(s[0].0, x.0)
    requires multiset(rest) == multiset(s[1..]) + multiset{x}
    ensures forall p :: p in rest ==> StrLt(s[0].0, p.0)
  {
    forall p | p in rest ensures StrLt(s[0].0, p.0) {
      assert p in multiset(rest);
      if p != x {
        assert p in multiset(s[1..]);
        var j :| 0 <= j < |s[1..]| && s[1..][j] == p;
        assert s[j + 1] == p;
      }
    }
  }

  function Insert(x: (string, Value), s: seq<(string, Value)>): (r: seq<(string, Value)>)
    requires SortedByName(s)
    requires forall p :: p in s ==> p.0 != x.0
    ensures SortedByName(r)
    ensures multiset(r) == multiset(s) + multiset{x}
  {
    if s == [] then [x]
    else if StrLt(x.0, s[0].0) then
      assert forall p :: p in s ==> StrLt(x.0, p.0) by {
        forall p | p in s ensures StrLt(x.0, p.0) {
          var j :| 0 <= j < |s| && s[j] == p;
          if j > 0 {
            StrLtTransitive(x.0, s[0].0, s[j].0);
          }
        }
      }
      SortedCons(x, s);
      [x] + s
    else
      StrLtTotal(x.0, s[0].0);
      var rest := Insert(x, s[1..]);
      assert s == [s[0]] + s[1..];
      AboveHead(x, s, rest);
      SortedCons(s[0], rest);
      [s[0]] + rest
  }

  /** `sorted(items)` for the items of a dict (names are unique, so only the
      names are compared). */
  function SortByName(d: Dict): (r: seq<(string, Value)>)
    ensures SortedByName(r)
    ensures multiset(r) == multiset(d)
  {
    if d == [] then []
    else
      var rest := SortByName(d[1..]);
      assert d == [d[0]] + d[1..];
      HeadNameUnique(d);
      assert forall p :: p in rest ==> p.0 != d[0].0 by {
        forall p | p in rest ensures p.0 != d[0].0 {
          assert p in multiset(d[1..]);
        }
      }
      Insert(d[0], rest)
  }

  // ---------------------------------------------------------------------
  // _gather_locals
  // ---------------------------------------------------------------------

  /** Names starting with a double underscore are never displayed. */
  predicate IsInternal(name: string)
  {
    StartsWith(name, "__")
  }

  /** `{k: v for k, v in f_locals.items() if not k.startswith("__")}`. */
  function Visible(d: Dict): (r: Dict)
    ensures forall p :: p in r <==> p in d && !IsInternal(p.0)
  {
    if d == [] then []
    else
      assert d == [d[0]] + d[1..];
      var rest := Visible(d[1..]);
      if IsInternal(d[0].0) then rest
      else
        HeadNameUnique(d);
        [d[0]] + rest
  }

  /** `d.get(name)`. */
  function Lookup(d: Dict, name: string): (r: Option<Value>)
    ensures r.Some? ==> (name, r.value) in d
    ensures r.None? ==> forall p :: p in d ==> p.0 != name
  {
    if d == [] then None
    else if d[0].0 == name then Some(d[0].1)
    else Lookup(d[1..], name)
  }

  /** The names of a list of items. */
  function Names(items: seq<(string, Value)>): (r: seq<string>)
    ensures |r| == |items|
    ensures forall i :: 0 <= i < |items| ==> r[i] == items[i].0
  {
    if items == [] then [] else [items[0].0] + Names(items[1..])
  }

  /** `a` can be obtained from `b` by deleting elements: it keeps `b`'s order. */
  predicate IsSubsequence(a: seq<string>, b: seq<string>)
    decreases |b|
  {
    if a == [] then true
    else if b == [] then false
    else (a[0] == b[0] && IsSubsequence(a[1..], b[1..])) || IsSubsequence(a, b[1..])
  }

  /** A name is found exactly when some item carries it. */
  lemma LookupBound(d: Dict, name: string)
    ensures Lookup(d, name).Some? <==> name in Names(d)
  {
    if Lookup(d, name).Some? {
      var i :| 0 <= i < |d| && d[i] == (name, Lookup(d, name).value);
      assert Names(d)[i] == name;
    }
  }

  /** The entries of `watch` bound in `view`, in watch-list order, a name
      kept as often as the watch list repeats it. */
  function BoundNames(watch: seq<string>, view: Dict): seq<string>
  {
    if watch == [] then []
    else (if watch[0] in Names(view) then [watch[0]] else []) + BoundNames(watch[1..], view)
  }

  /** The watch loop of `_gather_locals`: every watched name that is bound,
      with its value, in watch-list order. */
  function WatchItems(watch: seq<string>, view: Dict): (r: seq<(string, Value)>)
    ensures forall p :: p in r ==> p in view && p.0 in watch
    ensures forall p :: p in view && p.0 in watch ==> p in r
    ensures IsSubsequence(Names(r), watch)
    ensures Names(r) == BoundNames(watch, view)
  {
    if watch == [] then []
    else
      var rest := WatchItems(watch[1..], view);
      assert watch == [watch[0]] + watch[1..];
      LookupBound(view, watch[0]);
      match Lookup(view, watch[0])
      case Some(v) =>
        assert Names([(watch[0], v)] + rest) == [watch[0]] + Names(rest);
        forall p | p in view && p.0 in watch ensures p in [(watch[0], v)] + rest {
          if p.0 == watch[0] {
            var i :| 0 <= i < |view| && view[i] == p;
            var k :| 0 <= k < |view| && view[k] == (watch[0], v);
            assert i == k;
          }
        }
        [(watch[0], v)] + rest
      case None =>
        assert BoundNames(watch, view) == [] + BoundNames(watch[1..], view);
        assert IsSubsequence(Names(rest), watch) by {
          SubsequenceDropHead(Names(rest), watch);
        }
        rest
  }

  lemma SubsequenceDropHead(a: seq<string>, b: seq<string>)
    requires b != [] && IsSubsequence(a, b[1..])
    ensures IsSubsequence(a, b)
  {
  }

  /** The items not listed in the watch list, sorted by name. */
  function OtherItems(watch: seq<string>, view: Dict): (r: Dict)
    ensures forall p :: p in r <==> p in view && p.0 !in watch
  {
    if view == [] then []
    else
      assert view == [view[0]] + view[1..];
      var rest := OtherItems(watch, view[1..]);
      if view[0].0 in watch then rest
      else
        HeadNameUnique(view);
        [view[0]] + rest
  }

  /** `_gather_locals`: the watched items and the remaining locals. */
  function GatherLocals(watch: seq<string>, locals: Dict): (r: (seq<(string, Value)>, seq<(string, Value)>))
  {
    var view := Visible(locals);
    (WatchItems(watch, view), SortByName(OtherItems(watch, view)))
  }

  /** What `_gather_locals` promises: no internal name is shown; the watched
      items are exactly the bound watched names, in watch-list order and one
      per watch entry (a repeated name is listed again); the other
      items are every remaining bound name, ascending, and no watched name. */
  lemma GatherLocalsPartition(watch: seq<string>, locals: Dict)
    ensures var (w, o) := GatherLocals(watch, locals);
      && (forall p :: p in w <==> p in locals && !IsInternal(p.0) && p.0 in watch)
      && IsSubsequence(Names(w), watch)
      && Names(w) == BoundNames(watch, Visible(locals))
      && (forall p :: p in o <==> p in locals && !IsInternal(p.0) && p.0 !in watch)
      && SortedByName(o)
  {
    var view := Visible(locals);
    var o := SortByName(OtherItems(watch, view));
    forall p ensures p in o <==> p in OtherItems(watch, view) {
      assert p in o <==> p in multiset(o);
    }
  }

  // ---------------------------------------------------------------------
  // _format_call_details
  // ---------------------------------------------------------------------

  /** The parameters among `names` that are bound in the frame, with their
      values, in declaration order (`if name in frame.f_locals`). */
  function BoundArgs(names: seq<string>, locals: Dict): (r: seq<(string, Value)>)
    ensures forall i :: 0 <= i < |r| ==> Lookup(locals, r[i].0) == Some(r[i].1)
    ensures forall n :: n in names && Lookup(locals, n).Some? ==> n in Names(r)
    ensures IsSubsequence(Names(r), names)
  {
    if names == [] then []
    else
      var rest := BoundArgs(names[1..], locals);
      assert names == [names[0]] + names[1..];
      match Lookup(locals, names[0])
      case Some(v) =>
        assert Names([(names[0], v)] + rest) == [names[0]] + Names(rest);
        [(names[0], v)] + rest
      case None =>
        SubsequenceDropHead(Names(rest), names);
        rest
  }

  /** Every value among the items can be formatted. */
  predicate AllFormat(fmt: Formatter, cap: int, items: seq<(string, Value)>)
  {
    forall i :: 0 <= i < |items| ==> SafeRepr(fmt, cap, items[i].1).Some?
  }

  /** The values of two lists can all be formatted exactly when those of
      each can. */
  lemma AllFormatAppend(fmt: Formatter, cap: int, a: seq<(string, Value)>, b: seq<(string, Value)>)
    ensures AllFormat(fmt, cap, a + b) <==> AllFormat(fmt, cap, a) && AllFormat(fmt, cap, b)
  {
    if AllFormat(fmt, cap, a + b) {
      forall i | 0 <= i < |a| ensures SafeRepr(fmt, cap, a[i].1).Some? {
        assert (a + b)[i] == a[i];
      }
      forall i | 0 <= i < |b| ensures SafeRepr(fmt, cap, b[i].1).Some? {
        assert (a + b)[|a| + i] == b[i];
      }
    }
  }

  /** One `name<sep>value` text per item, the name behind `lead`; `None` as
      soon as a value fails to format. */
  function Pairs(fmt: Formatter, cap: int, lead: string, sep: string, items: seq<(string, Value)>): (r: Option<seq<string>>)
    ensures r.Some? <==> AllFormat(fmt, cap, items)
    ensures r.Some? ==> |r.value| == |items|
    ensures r.Some? ==> forall i :: 0 <= i < |items| ==>
      r.value[i] == lead + items[i].0 + sep + SafeRepr(fmt, cap, items[i].1).value
  {
    if items == [] then Some([])
    else
      match SafeRepr(fmt, cap, items[0].1)
      case None => None
      case Some(t) =>
        var rest := Pairs(fmt, cap, lead, sep, items[1..]);
        if rest.None? then
          None
        else
          Some([lead + items[0].0 + sep + t] + rest.value)
  }

  /** The `*args` or `**kwargs` parameter, when the frame has one and it is bound. */
  function StarArg(name: Option<string>, locals: Dict): (r: seq<(string, Value)>)
    ensures |r| <= 1
    ensures r != [] <==> name.Some? && name.value != "" && Lookup(locals, name.value).Some?
    ensures r != [] ==> r[0] == (name.value, Lookup(locals, name.value).value)
  {
    match name
    case Some(n) =>
      if n != "" && Lookup(locals, n).Some? then [(n, Lookup(locals, n).value)] else []
    case None => []
  }

  /** The texts `_format_call_details` joins: the bound positional parameters,
      then `*args`, then `**kwargs`. */
  function CallPairs(fmt: Formatter, cap: int, f: Frame): (r: Option<seq<string>>)
  {
    var positional := Pairs(fmt, cap, "", "=", BoundArgs(f.args, f.locals));
    var star := Pairs(fmt, cap, "*", "=", StarArg(f.varargs, f.locals));
    var doubleStar := Pairs(fmt, cap, "**", "=", StarArg(f.keywords, f.locals));
    if positional.None? || star.None? || doubleStar.None? then None
    else Some(positional.value + star.value + doubleStar.value)
  }

  /** `_format_call_details`: `(a=1, *rest=..., **kw=...)`. */
  function FormatCallDetails(fmt: Formatter, cap: int, f: Frame): (r: Option<string>)
    ensures r.Some? ==> |r.value| >= 2 && r.value[0] == '(' && r.value[|r.value| - 1] == ')'
    ensures r.Some? <==> CallPairs(fmt, cap, f).Some?
  {
    match CallPairs(fmt, cap, f)
    case Some(pairs) => Some("(" + Join(", ", pairs) + ")")
    case None => None
  }

  /** The bound parameters `_format_call_details` shows, in its order. */
  function CallArgs(f: Frame): seq<(string, Value)>
  {
    BoundArgs(f.args, f.locals) + StarArg(f.varargs, f.locals) + StarArg(f.keywords, f.locals)
  }

  /** The stars written before the `i`-th of them. */
  function StarsAt(f: Frame, i: int): string
  {
    var p := |BoundArgs(f.args, f.locals)|;
    if i < p then "" else if i < p + |StarArg(f.varargs, f.locals)| then "*" else "**"
  }

  /** The call details fail exactly when one of the shown values cannot be
      formatted. */
  lemma CallPairsFail(fmt: Formatter, cap: int, f: Frame)
    ensures CallPairs(fmt, cap, f).Some? <==> AllFormat(fmt, cap, CallArgs(f))
  {
    var p := BoundArgs(f.args, f.locals);
    var v := StarArg(f.varargs, f.locals);
    var k := StarArg(f.keywords, f.locals);
    AllFormatAppend(fmt, cap, p, v);
    AllFormatAppend(fmt, cap, p + v, k);
  }

  /** The call details list one `name=value` pair per bound parameter, in
      declaration order, then `*args` and `**kwargs` when bound. */
  lemma CallPairsText(fmt: Formatter, cap: int, f: Frame)
    requires CallPairs(fmt, cap, f).Some?
    ensures |CallPairs(fmt, cap, f).value| == |CallArgs(f)|
    ensures forall i :: 0 <= i < |CallArgs(f)| ==>
      CallPairs(fmt, cap, f).value[i]
      == StarsAt(f, i) + CallArgs(f)[i].0 + "=" + SafeRepr(fmt, cap, CallArgs(f)[i].1).value
  {
    var p := BoundArgs(f.args, f.locals);
    var v := StarArg(f.varargs, f.locals);
    var k := StarArg(f.keywords, f.locals);
    var all := CallArgs(f);
    var rp, rv, rk := Pairs(fmt, cap, "", "=", p).value, Pairs(fmt, cap, "*", "=", v).value, Pairs(fmt, cap, "**", "=", k).value;
    var r := CallPairs(fmt, cap, f).value;
    assert r == rp + rv + rk;
    forall i | 0 <= i < |all|
      ensures r[i] == StarsAt(f, i) + all[i].0 + "=" + SafeRepr(fmt, cap, all[i].1).value
    {
      if i < |p| {
        assert all[i] == p[i] && r[i] == rp[i];
      } else if i < |p| + |v| {
        assert all[i] == v[i - |p|] && r[i] == rv[i - |p|];
      } else {
        assert all[i] == k[i - |p| - |v|] && r[i] == rk[i - |p| - |v|];
      }
    }
  }

  // ---------------------------------------------------------------------
  // _build_event_payload and _format_plain_header
  // ---------------------------------------------------------------------

  /** The dictionary `_build_event_payload` returns. */
  datatype Payload = Payload(funcName: string, lineno: int, eventLabel: string, details: string, lineDisplay: int)

  /** `event.upper()`. */
  function Label(k: Kind): string
  {
    match k
    case Call => "CALL"
    case Line => "LINE"
    case Return(_) => "RETURN"
    case Exception(_, _) => "EXCEPTION"
  }

  /** `_build_event_payload`; `None` when a value cannot be formatted. */
  function BuildEventPayload(fmt: Formatter, cap: int, e: Event): Option<Payload>
  {
    var f := e.frame;
    var details: Option<string> :=
      match e.kind
      case Call => FormatCallDetails(fmt, cap, f)
      case Line => Some("")
      case Return(v) =>
        (match SafeRepr(fmt, cap, v)
         case Some(t) => Some("return value = " + t)
         case None => None)
      case Exception(name, v) =>
        (match SafeRepr(fmt, cap, v)
         case Some(t) => Some("exception " + name + ": " + t)
         case None => None);
    match details
    case None => None
    case Some(d) =>
      Some(Payload(f.name, f.lineno, Label(e.kind), d, if e.kind.Call? then f.firstLineno else f.lineno))
  }

  /** The payload names the frame's function and current line, labels the
      event, shows the definition line for a call, and carries the call's
      arguments, the returned value or the exception; it is missing exactly
      when one of those values cannot be formatted. */
  lemma PayloadFields(fmt: Formatter, cap: int, e: Event)
    ensures var r := BuildEventPayload(fmt, cap, e);
      && (r.Some? ==> r.value.funcName == e.frame.name && r.value.lineno == e.frame.lineno)
      && (r.Some? ==> r.value.eventLabel == Label(e.kind))
      && (r.Some? ==> r.value.lineDisplay == if e.kind.Call? then e.frame.firstLineno else e.frame.lineno)
      && (e.kind.Line? ==> r.Some? && r.value.details == "")
      && (e.kind.Call? ==> (r.Some? <==> FormatCallDetails(fmt, cap, e.frame).Some?))
      && (e.kind.Call? && r.Some? ==> r.value.details == FormatCallDetails(fmt, cap, e.frame).value)
      && (e.kind.Return? ==> (r.Some? <==> SafeRepr(fmt, cap, e.kind.value).Some?))
      && (e.kind.Exception? ==> (r.Some? <==> SafeRepr(fmt, cap, e.kind.value).Some?))
      && (r.Some? && e.kind.Return? ==>
            r.value.details == "return value = " + SafeRepr(fmt, cap, e.kind.value).value)
      && (r.Some? && e.kind.Exception? ==>
            r.value.details == "exception " + e.kind.typeName + ": " + SafeRepr(fmt, cap, e.kind.value).value)
  {
  }

  /** The header's fixed part: `[LABEL] name (line N)`. */
  function HeaderHead(p: Payload): string
  {
    "[" + p.eventLabel + "] " + p.funcName + " (line " + IntToString(p.lineDisplay) + ")"
  }

  /** `_format_plain_header`. */
  function FormatPlainHeader(p: Payload): string
  {
    var header := HeaderHead(p);
    RStrip(if p.details != "" then header + " " + p.details else header)
  }

  /** Stripping `head + " " + details` where `head` ends in a visible character. */
  lemma StripAfterHead(h: string, d: string)
    requires h != [] && !IsSpace(h[|h| - 1])
    ensures RStrip(h + " " + d) == h + (if RStrip(d) == "" then "" else " " + RStrip(d))
  {
    assert RStrip(h) == h;
    assert h + " " + d == h + (" " + d);
    RStripAppend(h, " " + d);
    RStripAppend(" ", d);
    assert RStrip(" ") == "" by {
      assert RStrip(" "[..0]) == "";
    }
  }

  /** The header is the fixed part followed, after one space, by the details
      without their trailing whitespace; details that are empty or blank add
      nothing, not even the space. */
  lemma {:induction false} HeaderShape(p: Payload)
    ensures FormatPlainHeader(p) ==
      HeaderHead(p) + (if RStrip(p.details) == "" then "" else " " + RStrip(p.details))
  {
    var h := HeaderHead(p);
    assert h != [] && h[|h| - 1] == ')';
    if p.details != "" {
      StripAfterHead(h, p.details);
    } else {
      assert RStrip(h) == h;
    }
  }
}
