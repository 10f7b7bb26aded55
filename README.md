# Step-through visualizer and its two example solvers, in Dafny

This project models the core of a small Python tool that steps through a
LeetCode-style function line by line, plus the two example solutions shipped
with it.

**The `Visualizer` (visualizer/core.py).** It is modelled as a Dafny class.
- Its fields are the ones `run`, `_trace` and `_prompt` update: the running
  flag, the target file, the root frame and the continue flag.
- The terminal is two more fields: the lines still to be typed (`input`) and
  everything written so far (`screen`).
- The interpreter's tracing hook becomes a sequence of events (`call`, `line`,
  `return`, `exception`), which `Run` hands to `Trace` one at a time.
- Each method is proved equal to a pure definition in `control.dfy`. The
  behaviour of the tool is then stated as lemmas about that definition:
  - which events are shown;
  - when the user is asked for a command;
  - what each command does;
  - how a session always ends cleared.

**The pure helpers.** These are functions with their own lemmas:
- `_safe_repr`, `_gather_locals`, `_build_event_payload`,
  `_format_plain_header` and `_format_call_details` (`snapshot.dfy`);
- the `_format_plain_code` listing and the line-range arithmetic of
  `_rich_code_panel` (`code_view.dfy`);
- `_format_plain_locals` and `_render_plain` (`rendering.dfy`);
- the Python string operations they use (`pytext.dfy`).

**The alphametic solver (examples/LC1307_word_arithmetic_problem.py).**
- It is the class `Alphametic.WordSum`. The letter map is a `map` field, and
  `used_digits` is a ten-cell `array<bool>` updated in place.
- The search is split into methods at the points where the source branches.
- Each method is proved to return `Search`, a pure definition of the
  backtracking search. Each method also leaves the map and the array as they
  were whenever it returns false.
- `Search` is proved sound and complete for the puzzle: it succeeds exactly
  when some injective letter-to-digit assignment with no leading zero makes
  the words add up to the result.

**The good-subsequence counter (examples/count_good_subsequences.py).**
- The mask loop and its inner loops are methods proved to compute
  `GoodCount`, a pure definition that keeps the source's order of summation
  and its reductions modulo 1 000 000 007.

## Model

| member | source | states |
|---|---|---|
| Wrappers.Option.GetOr | visualizer/core.py:42 | `settings or RenderSettings()`: the given value when there is one, else the default |
| PyText.RStripShape | visualizer/core.py:193 | `rstrip()` leaves a prefix of the string that ends in a non-space, and drops only whitespace |
| PyText.RStripCharShape | visualizer/core.py:246 | `rstrip("\n")` leaves a prefix that does not end in the character, and drops only that character |
| PyText.SlicePrefix | visualizer/core.py:373 | `s[:n]` is a prefix whose length follows Python's rules for non-negative and negative `n` |
| PyText.NatToStringDigits | visualizer/core.py:205 | a line number is written as a non-empty run of decimal digits |
| PyText.SpacesShape | visualizer/core.py:205 | the padding used for `:>4` is exactly `n` spaces |
| PyText.RJustShape | visualizer/core.py:205 | `{idx:>4}` has length max(4, len), ends with the number and is space-filled on the left |
| Snapshot.Formatted | visualizer/core.py:367-370 | the `pformat` text when it succeeds, otherwise whatever `repr` gives (which may itself fail) |
| Snapshot.TruncateShape | visualizer/core.py:372-374 | a string within the cap is unchanged; a longer one keeps its first `cap - 3` characters and ends in `...`, and has exactly `cap` characters when `cap >= 3` |
| Snapshot.SafeRepr | visualizer/core.py:366-374 | `_safe_repr` fails exactly when both `pformat` and `repr` fail |
| Snapshot.SafeReprShape | visualizer/core.py:366-374 | `_safe_repr` is the truncation of the `pformat` text, or of the `repr` text when `pformat` failed, and is within the cap when the cap is at least 3 |
| Snapshot.StrLtIrreflexive | visualizer/core.py:345 | the string order used by `sorted` is irreflexive |
| Snapshot.StrLtTransitive | visualizer/core.py:345 | the string order used by `sorted` is transitive |
| Snapshot.StrLtTotal | visualizer/core.py:345 | any two different names are ordered one way or the other |
| Snapshot.SortedCons | visualizer/core.py:345 | an item below every name of a sorted list can go in front of it |
| Snapshot.AboveHead | visualizer/core.py:345 | after an insertion into the tail, every item is still above the head of a sorted list |
| Snapshot.Insert | visualizer/core.py:345 | inserting into a sorted list keeps it sorted and adds exactly that item |
| Snapshot.SortByName | visualizer/core.py:345 | `sorted(locals_view.items())` is sorted by name and is a permutation of the items |
| Snapshot.Visible | visualizer/core.py:335-337 | the locals view holds exactly the locals whose names do not start with `__` |
| Snapshot.Lookup | visualizer/core.py:341-342 | a name's value when the name is bound, and absence exactly when it is not |
| Snapshot.LookupBound | visualizer/core.py:341 | `name in locals_view` holds exactly when some item carries the name |
| Snapshot.WatchItems | visualizer/core.py:338-342 | the watched items are exactly the bound watch names, in watch-list order, one item per watch entry (a repeated name is listed again) |
| Snapshot.SubsequenceDropHead | visualizer/core.py:340-342 | skipping a watch name keeps the kept names in watch-list order |
| Snapshot.OtherItems | visualizer/core.py:343-347 | the other items are exactly the visible locals whose names are not watched |
| Snapshot.GatherLocalsPartition | visualizer/core.py:332-348 | `_gather_locals` splits the visible locals into the watched ones and the rest, and drops `__` names from both. The watched names are exactly the bound watch entries, in watch order and with repeats. The rest is sorted |
| Snapshot.BoundArgs | visualizer/core.py:353-355 | the argument pairs are exactly the bound argument names, in declaration order, with their values |
| Snapshot.Pairs | visualizer/core.py:353-355 | a list of `name=repr` texts is produced exactly when every value formats, one text per item |
| Snapshot.StarArg | visualizer/core.py:356-363 | a `*args`/`**kwargs` entry appears exactly when the name is set, non-empty and bound |
| Snapshot.FormatCallDetails | visualizer/core.py:350-364 | the details are parenthesised, and exist exactly when every argument formats |
| Snapshot.CallPairsFail | visualizer/core.py:350-364 | the call details fail exactly when some argument value cannot be formatted |
| Snapshot.CallPairsText | visualizer/core.py:353-363 | each part is `name=repr`, prefixed with `*` or `**` for the star arguments |
| Snapshot.PayloadFields | visualizer/core.py:163-186 | name, line, label, display line and details of the payload for each event kind, and when formatting makes it fail |
| Snapshot.StripAfterHead | visualizer/core.py:191-193 | stripping after a head that ends in a non-space strips the details alone |
| Snapshot.HeaderShape | visualizer/core.py:188-193 | the header is `[LABEL] name (line n)`, followed by the stripped details only when they are not blank |
| CodeView.GetLine | visualizer/core.py:201 | `getline` returns a line exactly for the numbers 1 to the line count |
| CodeView.ShownIsRun | visualizer/core.py:200-203 | the listing loop keeps a gap-free run of line numbers from the window start to the last existing line |
| CodeView.ListingLineMarker | visualizer/core.py:204 | a listing line carries `->` exactly when it is the current line |
| CodeView.ListingNext | visualizer/core.py:200-205 | one loop turn adds the line's text when `getline` finds it, and nothing otherwise |
| CodeView.FormatPlainCode | visualizer/core.py:195-206 | `_format_plain_code` joins the listing of the window around `lineno` |
| CodeView.ListingIsRun | visualizer/core.py:200-205 | the listing is every existing line of the window, in order, each under its own number |
| CodeView.PlainListingShape | visualizer/core.py:195-206 | the plain listing covers lines `max(1, lineno - context)` up to `lineno + context` that exist, without gaps |
| CodeView.RichLineAt | visualizer/core.py:243-246 | a fetched line with its newline stripped is the file's own line |
| CodeView.RichLinesAreFileLines | visualizer/core.py:241-246 | the collected lines are exactly the file's lines in the window, and are empty exactly when the window holds none |
| CodeView.RichWindowNumbering | visualizer/core.py:238-251 | the range starts at the window start and ends at the last shown line; otherwise there is a placeholder alone with no highlight; the current line is highlighted unless the placeholder text appears |
| Rendering.AppendSection | visualizer/core.py:214-221 | appending a titled section fails exactly when some value fails to format, and otherwise adds that section |
| Rendering.FormatPlainLocals | visualizer/core.py:208-222 | `_format_plain_locals` produces the locals block text |
| Rendering.LocalsBlock | visualizer/core.py:208-222 | the block fails exactly when a watched or local value fails to format, and is empty exactly when both lists are |
| Rendering.SectionLayout | visualizer/core.py:214-221 | a non-empty section is its title followed by one `    name = repr` line per item |
| Rendering.RenderPlain | visualizer/core.py:138-149 | `_render_plain` produces the plain text of the event |
| Rendering.RenderEvent | visualizer/core.py:132-136 | `_render` produces the plain or rich display of the event |
| Rendering.RenderFails | visualizer/core.py:132-158 | rendering fails exactly when the payload or a table value cannot be formatted |
| Rendering.JoinSegments | visualizer/core.py:145-149 | the printed text is header, code and (only when not empty) the locals block, on separate lines |
| Control.ClassifyWords | visualizer/core.py:391-399 | after strip and lower-case, `""`, `s` and `n` step, `c` continues and `q` quits |
| Control.AskNext | visualizer/core.py:381-403 | one prompt round: end of input raises, step and continue set the flag and return, quit raises, anything else complains and asks again |
| Control.AskSkips | visualizer/core.py:400-403 | an unrecognised line writes the prompt and the complaint, then asks again |
| Control.AskStops | visualizer/core.py:392-399 | a recognised line ends the prompt after one round, with the flag and error it calls for |
| Control.AskReadsPrefix | visualizer/core.py:381-403 | `_prompt` consumes a prefix of the input, and every line it read before the last one was unrecognised |
| Control.AskWrites | visualizer/core.py:381-403 | it writes one prompt per line read, one complaint per rejected line, and one more prompt at end of input |
| Control.AskEndsNormally | visualizer/core.py:392-397 | it returns normally exactly when the last line read steps or continues; the flag is then set exactly by continue, and is unchanged on an error |
| Control.AskRunsOut | visualizer/core.py:391 | it fails for lack of input exactly when every line was read and none was recognised |
| Control.AskQuits | visualizer/core.py:398-399 | it is cancelled exactly when the last line read was `q` |
| Control.AskOutputs | visualizer/core.py:379-403 | the prompt writes nothing but prompts and complaints |
| Control.TraceStepShows | visualizer/core.py:100-127 | an event is shown exactly when it is in the target file, is a call (before the root is known) or a root-frame event (while continuing), and formats; tracing then goes on |
| Control.TraceStepPrompts | visualizer/core.py:115-116 | a shown event pauses exactly when the continue flag is clear or it is the root frame's return; otherwise nothing else changes |
| Control.TraceStepRoot | visualizer/core.py:107-108 | the root frame is set only by the first call in the target file, and is never changed afterwards |
| Control.ReplayNext | visualizer/core.py:68-70 | the callable's events go to `_trace` one at a time until one call of it raises |
| Control.InFile | visualizer/core.py:104-105 | exactly the events of the given file, in order |
| Control.ReplayIgnoresOtherFiles | visualizer/core.py:104-105 | events from other files change nothing: dropping them leaves the whole session unchanged |
| Control.ContinueSkipsOtherFrames | visualizer/core.py:124-125 | while continuing, events of frames other than the root show nothing, ask nothing and change nothing |
| Control.TraceStepShownEvent | visualizer/core.py:104-113 | the only event one step can show is its own event, and only when it is in the target file |
| Control.ReplayShowsOnlyTarget | visualizer/core.py:104-108 | a session shows only target-file events, never changes the target, and keeps a root once it is set |
| Control.FirstShownIsRootCall | visualizer/core.py:107-122 | the first event shown in a session is a `call` in the target file, and its frame is the root |
| Control.RunSessionResult | visualizer/core.py:66-96 | `run` returns the callable's own result only when it has a source that decodes. It fails with no output when there is no source, or when the file is not UTF-8. With no events in the target file, the callable's outcome passes through unchanged |
| Core.Visualizer.constructor | visualizer/core.py:41-57 | default settings, rich only when requested and available, a warning when it is missing, and all tracing state cleared |
| Core.Visualizer.Prompt | visualizer/core.py:379-403 | `_prompt` sets the continue flag, consumes input and writes output as `Ask` says, and touches no other field |
| Core.Visualizer.Trace | visualizer/core.py:100-118 | `_trace` changes the state, input and screen as `TraceStep` says, and returns whether tracing goes on |
| Core.Visualizer.Show | visualizer/core.py:113-118 | a rendered event is written out, then the prompt runs unless continuing past a non-return root event |
| Core.Visualizer.TraceEvents | visualizer/core.py:68-72 | the callable runs with `_trace` installed, as `Replay` says |
| Core.Visualizer.RunTraced | visualizer/core.py:65-98 | `_prepare` records the file and its line count, and raises when the file is not UTF-8; then the traced callable's result stands unless tracing raised |
| Core.Visualizer.Run | visualizer/core.py:59-80 | a second run fails with nothing changed; otherwise the session is `RunSession`, and on every exit the running flag, root, target and continue flag are cleared |
| Alphametic.MaxWordLen | examples/LC1307_word_arithmetic_problem.py:24 | the maximum word length bounds every word and is attained by one |
| Alphametic.MakePuzzle | examples/LC1307_word_arithmetic_problem.py:18-25 | the reversed words, the leading letters and `max_len` form a puzzle no word outgrows |
| Alphametic.ReadyWord | examples/LC1307_word_arithmetic_problem.py:68-75 | once the word's letter in this column is assigned, the search can move to the next word |
| Alphametic.ReadyColumn | examples/LC1307_word_arithmetic_problem.py:43-49 | once the result letter of the column is assigned, the search can move to the next column |
| Alphametic.SumTailsStep | examples/LC1307_word_arithmetic_problem.py:35-41 | the sum of the words' values from a column on is that column's digit sum plus ten times the rest |
| Alphametic.SumTailsPastEnd | examples/LC1307_word_arithmetic_problem.py:31-32 | past every word's length the remaining sum is 0 |
| Alphametic.DivModTen | examples/LC1307_word_arithmetic_problem.py:40-41 | `total % 10` and `total // 10` are the unique digit and carry with total = digit + 10 * carry |
| Alphametic.ColumnsAreSum | examples/LC1307_word_arithmetic_problem.py:30-66 | the column-by-column check holds exactly when the carry plus the words' remaining value equals the result's remaining value |
| Alphametic.GoodInsert | examples/LC1307_word_arithmetic_problem.py:51-57 | assigning an unused digit, never 0 to a leading letter, keeps the assignment injective and free of leading zeros |
| Alphametic.ColumnSumExtends | examples/LC1307_word_arithmetic_problem.py:35-38 | assigning more letters does not change a column whose letters are all assigned |
| Alphametic.ReadyAtEnd | examples/LC1307_word_arithmetic_problem.py:31-32 | when the last column is reached, every letter of the puzzle is assigned |
| Alphametic.SearchSound | examples/LC1307_word_arithmetic_problem.py:30-90 | when the search succeeds there is a full injective assignment, with no leading zero, extending the current one, under which the columns add up |
| Alphametic.TryDigitsSound | examples/LC1307_word_arithmetic_problem.py:77-90 | a digit loop that succeeds leads to such a full assignment |
| Alphametic.SearchComplete | examples/LC1307_word_arithmetic_problem.py:30-90 | whenever such a full assignment extends the current one, the search succeeds |
| Alphametic.TryDigitsComplete | examples/LC1307_word_arithmetic_problem.py:77-90 | the digit loop succeeds when it starts at or below the digit a solution gives the letter |
| Alphametic.TailReverse | examples/LC1307_word_arithmetic_problem.py:22-23 | read from column 0, a reversed word is the word's decimal value |
| Alphametic.TailShift | examples/LC1307_word_arithmetic_problem.py:22-23 | dropping the first reversed digit shifts the columns by one |
| Alphametic.SumTailsReverse | examples/LC1307_word_arithmetic_problem.py:22-23 | the column sums of the reversed words are the sum of the words' values |
| Alphametic.ImageSize | examples/LC1307_word_arithmetic_problem.py:14-16 | an injective assignment gives the letters as many digits as there are letters |
| Alphametic.LettersAssigned | examples/LC1307_word_arithmetic_problem.py:14 | spelling every word and the result assigns every letter they use |
| Alphametic.DigitsBound | examples/LC1307_word_arithmetic_problem.py:14-16 | injectively assigned letters are no more than the available digits |
| Alphametic.AtMostTenLetters | examples/LC1307_word_arithmetic_problem.py:14-16 | a puzzle with a solution uses at most ten letters |
| Alphametic.NoSolutionPastTen | examples/LC1307_word_arithmetic_problem.py:14-16 | more than ten distinct letters means no solution, so the early `False` is right |
| Alphametic.SpelledReverse | examples/LC1307_word_arithmetic_problem.py:22-23 | a reversed word uses the same letters |
| Alphametic.SolutionsAreColumns | examples/LC1307_word_arithmetic_problem.py:11-32 | a solution of the word sum is exactly a full, injective, leading-zero-free assignment whose columns add up |
| Alphametic.SearchMeansSolution | examples/LC1307_word_arithmetic_problem.py:27-92 | `solve(0, 0, 0)` from the empty assignment succeeds exactly when the puzzle has a solution |
| Alphametic.AssignKeeps | examples/LC1307_word_arithmetic_problem.py:51-57 | assigning a free digit keeps `used_digits` equal to the set of assigned digits, and keeps the assignment injective with no leading zero |
| Alphametic.UnassignRestores | examples/LC1307_word_arithmetic_problem.py:83-88 | undoing an assignment restores the map and the used-digit flags to what they were |
| Alphametic.UnassignKeeps | examples/LC1307_word_arithmetic_problem.py:61-63 | removing an assigned letter and clearing its digit keeps `used_digits` mirroring the assignment |
| Alphametic.WordSum.constructor | examples/LC1307_word_arithmetic_problem.py:27-28 | an empty assignment and ten unused digits |
| Alphametic.WordSum.Solve | examples/LC1307_word_arithmetic_problem.py:30-90 | `solve` returns the search result; it only adds letters, keeps digits injective and leading letters non-zero, and on `False` leaves the map and the used-digit array as on entry |
| Alphametic.WordSum.FinishColumn | examples/LC1307_word_arithmetic_problem.py:34-66 | the end of a column: check or assign the result letter to `total % 10` and move on with `total // 10`; past the result the digit must be 0; on `False` the state is restored |
| Alphametic.WordSum.ColumnTotal | examples/LC1307_word_arithmetic_problem.py:35-38 | the total is the carry plus the digits of every word that reaches this column |
| Alphametic.WordSum.AssignResult | examples/LC1307_word_arithmetic_problem.py:56-64 | assign the result letter, search on, and undo in the `finally`; the result is the search from the extended assignment |
| Alphametic.WordSum.TryLetter | examples/LC1307_word_arithmetic_problem.py:77-90 | the digit loop skips used digits and a leading zero, and succeeds exactly as the search over digits 0..9 does |
| Alphametic.WordSum.AssignLetter | examples/LC1307_word_arithmetic_problem.py:83-88 | assign a word letter, search on, and undo on failure |
| Alphametic.IsSolvable | examples/LC1307_word_arithmetic_problem.py:11-92 | `False` for more than ten letters. No answer (the `max()` error) exactly when the word list is empty and there are at most ten letters. Every answer is true exactly when the puzzle has a solution |
| GoodSubsequences.Pow2 | examples/count_good_subsequences.py:13 | `2 ** n` is at least 1 |
| GoodSubsequences.Pow2Grows | examples/count_good_subsequences.py:13 | `2 ** n` does not decrease as `n` grows |
| GoodSubsequences.Distinct | examples/count_good_subsequences.py:9-10 | `Counter(s).keys()` holds each letter of `s` exactly once |
| GoodSubsequences.ShiftIsDivision | examples/count_good_subsequences.py:18 | `current >> i` is `current // 2**i` |
| GoodSubsequences.HighBitClear | examples/count_good_subsequences.py:17-18 | a mask below `2**n` has no bit at `n` or above |
| GoodSubsequences.BitInRange | examples/count_good_subsequences.py:17-19 | every set bit of a mask indexes an existing letter |
| GoodSubsequences.Chosen | examples/count_good_subsequences.py:17-19 | the letters whose bit is set, in key order; each is one of the letters |
| GoodSubsequences.SameBits | examples/count_good_subsequences.py:17-18 | two masks below `2**n` whose bits below `n` agree are equal |
| GoodSubsequences.ChosenHas | examples/count_good_subsequences.py:17-19 | with no repeated letter, letter `j` is in `current_letter_set` exactly when bit `j` of the mask is set and was scanned |
| GoodSubsequences.ChosenDetermines | examples/count_good_subsequences.py:13-19 | two masks of the loop that pick the same letters are the same mask |
| GoodSubsequences.MaskFor | examples/count_good_subsequences.py:13 | the mask built for a set of letters lies in the range of the loop |
| GoodSubsequences.MaskForBits | examples/count_good_subsequences.py:17-18 | that mask has bit `j` set exactly when letter `j` is in the set |
| GoodSubsequences.EveryGroupChosen | examples/count_good_subsequences.py:13-19 | with at most 32 letters, every non-empty set of them is picked by some mask in `1 .. 2**m - 1` |
| GoodSubsequences.MasksVisitEachGroupOnce | examples/count_good_subsequences.py:13-19 | the loop visits each non-empty set of the distinct letters of `s` exactly once: one mask picks it, and every other mask picks a different set |
| GoodSubsequences.ChosenEmpty | examples/count_good_subsequences.py:17-19 | no letter is chosen exactly when no bit below the scan limit is set |
| GoodSubsequences.Smallest | examples/count_good_subsequences.py:16-20 | `smallest_freq` is the minimum count over the chosen letters, and infinity (none) exactly when none is chosen |
| GoodSubsequences.Contribution | examples/count_good_subsequences.py:21-30 | a subset's addition fails (`int(inf)`) exactly when no letter was chosen |
| GoodSubsequences.GoodCount | examples/count_good_subsequences.py:12-31 | the answer lies in [0, 10^9+7) |
| GoodSubsequences.CountGoodSubsequences | examples/count_good_subsequences.py:8-31 | the mask loop computes `GoodCount` |
| GoodSubsequences.SweepNext | examples/count_good_subsequences.py:13-30 | one more mask adds that subset's contribution to `ans` |
| GoodSubsequences.MaskContribution | examples/count_good_subsequences.py:14-30 | the body of the mask loop adds the contribution of the chosen letters |
| GoodSubsequences.PickLetters | examples/count_good_subsequences.py:17-20 | the bit scan yields the chosen letters and their smallest count |
| GoodSubsequences.WaysOfSize | examples/count_good_subsequences.py:25-29 | `result` for size `k` is the product over the chosen letters with count at least `k` of `C(count, k) % mod` |
| GoodSubsequences.SweepStops | examples/count_good_subsequences.py:13-30 | once an error is raised, the whole loop fails |
| GoodSubsequences.SweepGoesOn | examples/count_good_subsequences.py:13-30 | when every mask chooses some letter, the loop completes |
| GoodSubsequences.GoodCountFails | examples/count_good_subsequences.py:16-24 | the function fails exactly when `s` has more than 32 distinct letters |
| GoodSubsequences.WideMaskFails | examples/count_good_subsequences.py:17-24 | with more than 32 letters the mask `2**32` chooses nothing, so `int(inf)` raises |
| GoodSubsequences.SweepFailsAt | examples/count_good_subsequences.py:13-24 | one mask that chooses nothing makes the loop fail |
| GoodSubsequences.NarrowMasksSucceed | examples/count_good_subsequences.py:13-30 | with at most 32 letters every mask chooses a letter and the loop completes |
| GoodSubsequences.EmptyString | examples/count_good_subsequences.py:13-31 | the empty string gives 0 |
| GoodSubsequences.CombPastN | examples/count_good_subsequences.py:26-28 | `C(n, k)` is 0 for `k > n` |
| GoodSubsequences.RowSumPascal | examples/count_good_subsequences.py:28 | Pascal's rule summed over a row of binomial coefficients |
| GoodSubsequences.RowSumIsPower | examples/count_good_subsequences.py:21-22 | the binomial coefficients of `n` sum to `2**n` |
| GoodSubsequences.SingleSizeSum | examples/count_good_subsequences.py:23-30 | for one letter, the general per-size sum is `2**count - 1` modulo 10^9+7 |
| GoodSubsequences.SingletonAgrees | examples/count_good_subsequences.py:21-22 | the singleton shortcut gives the same value as the general formula |
| GoodSubsequences.OneLetter | examples/count_good_subsequences.py:8-31 | a string of `n >= 1` copies of one letter gives `(2**n - 1) % mod` |
| GoodSubsequences.SingleLetterCount | examples/count_good_subsequences.py:21-22 | any string with one distinct letter occurring `n` times gives `(2**n - 1) % mod` |
| GoodSubsequences.OnlyLetter | examples/count_good_subsequences.py:9-10 | `n` copies of a letter have that letter as their only key, with count `n` |
| GoodSubsequences.ChosenOne | examples/count_good_subsequences.py:17-19 | mask 1 chooses exactly the first letter |

## Left out

- Interpreter hooks and reflection are left out: `sys.settrace`, frame objects, `inspect.getsourcefile` and `inspect.getargvalues`. A callable is a record: its source file (if any), the lines of that file, the events it reports and its outcome. A frame is a record: id, file, line, first line, name, argument names and locals.
- An exception raised by the trace function ends the callable in the model. A callable that catches such an exception and carries on is not modelled.
- Console, file and clock I/O are left out. `input` and `print` are the `input` and `screen` fields. `linecache.getline` reads a given sequence of lines.
- `_prepare`'s own read of the file is a separate field of the callable: an `OSError` (count 0), a `UnicodeDecodeError` (which `run` lets out), or a line count. `str.splitlines` breaks lines at more characters than `linecache` does, so this count is not tied to the lines `linecache` serves. The characters themselves are not modelled.
- `pprint.pformat` and `repr` are opaque functions that may fail. The model does not assume the fallback `repr` succeeds.
- The Rich user interface is left out: `_setup_rich_ui`, `_build_layout`, `_teardown_rich_ui`, `_rich_header`, `_rich_footer`, and the drawing of panels, tables and syntax. The rich display keeps only what it shows: the payload, the code window (its line range and highlight) and the watch and locals items.
- `RenderSettings.rich_theme` is kept as a field but never interpreted.
- `visualize.py` and the `run_visualization` functions are left out. They are command-line and demo plumbing.
- Core.Visualizer.Run: a callable that calls `run` again on the same visualizer is not modelled, because a callable here is a record of events. Only the guard against it is modelled: a run started while `active` is set fails with `RuntimeError` and changes nothing.
- PyText.Lower: lower-cases ASCII letters only. The prompt compares the result only with `""`, `s`, `n`, `c` and `q`, and no other character lower-cases to one of those.
- Core.Visualizer.Prompt: the rich console's input and message calls are treated like plain `input` and `print`, because they differ only in styling.
- Alphametic.WordSum.Solve: on `True` the contract only says the assignment grew. The `finally` at examples/LC1307_word_arithmetic_problem.py:61-63 removes a result letter's assignment again even on success, so the map left behind is not a full solution. `SearchSound` supplies the solution instead.
- Alphametic.IsSolvable: `None` stands for the `ValueError` that `max()` raises on an empty word list. It is modelled rather than excluded by a precondition.
- GoodSubsequences.GoodCount: the source does not reject more than 32 distinct letters up front. There, the mask `2**32` selects no letter and `int(float("inf"))` raises `OverflowError`; the model returns `None` in that case (see `GoodCountFails`).
- GoodSubsequences.MaskContribution: the per-mask additions are collected in a local total before being added to `ans`. This gives the same sum as the source's direct `ans += ...`, because each term is an exact integer.
- GoodSubsequences.CountGoodSubsequences: the model does not prove that the formula counts the good subsequences of `s`. It does prove:
  - the mask loop visits each non-empty set of distinct letters exactly once;
  - the singleton shortcut agrees with the general formula;
  - the binomial row sum;
  - the one-letter case.
- `math.comb` is Pascal's rule. `Counter` is the list of distinct letters in first-occurrence order, together with a count function over the string.
