# Performance dashboard core, modelled in Dafny

The dashboard reads benchmark results from spreadsheets and plots them.

**Worksheet parser.** Each worksheet becomes one `Table`. A table holds two lists of measurements: `baselines` and `entries`. It also holds seven settings: `hide`, `axis`, `name`, `priority`, `keep_top`, `keep_last` and `lower_better`. The parser scans every row cell by cell:

- a date cell sets the row's timestamp;
- the first numeric cell sets the row's value and ends the scan;
- a text cell is one of these:
  - a settings directive `s:option[=value]`;
  - a baseline marker `b:`;
  - an ignore marker `i:`;
  - a fragment of the row's name.

A row with a value, a non-empty name and no ignore marker yields one measurement. A `b:` marker sends it to `baselines`; otherwise it goes to `entries`.

**Directory.** A directory spreadsheet lists further spreadsheets. Each row is a name followed by one or more sheet ids.

**Plotter.** For each table the plotter shows:

- the `keep_last` most recent entries;
- the `keep_top` best of the older ones;
- the baselines, as dashed lines spanning the shown entries' time range.

Tables that are not hidden and have something to show become tabs. They are ordered by priority and numbered `t-0`, `t-1`, ….

**Modules.** The project holds these modules:

- `Records`: the measurement record, the settings and their coercing applier, and the mutable `Table` class.
- `SheetParser`: the marker patterns, the parse of a worksheet as a function (`BuildTable`), and the loop the program runs (`ParseWorksheet`/`ParseRow`), proved equal to that function.
  - Lemmas state what the parse means in terms of the cells of each row: which entries are yielded, with which name, value and timestamp, into which list, and which settings result.
- `Discovery`: the directory rule, with the discovery loop as a method of the `RemoteDirectory` class.
- `Plot`: these pieces of the plotter.
  - the label truncation;
  - the entry selection;
  - the baseline span and figure data;
  - the tab builder, a method with a loop proved against a specification function.
- `NameStore`: the older dictionary-based record store, with the same-name replacement rule.
- `StableSort`: Python's stable `sorted(key=..., reverse=...)`.
- `PySemantics`: the pieces of Python the code relies on.
  - slice bounds;
  - the regular-expression classes `\w` and `.`;
  - `int()` on a string;
  - `'%d' %`.
- `Wrappers`: `Option` and `Result`.

**Modelling choices.**

- Timestamps are integers and values are reals.
- `now` stands for the clock reading; it is a parameter of every operation that needs it.
- A raised exception is a `Failure` value. There are three cases:
  - a `ValueError` from an integer setting whose text is not an integer;
  - the `TypeError` of a directive `s:self`: `setting(**{'self': v})` gives the method two values for its parameter `self`;
  - the `ZeroDivisionError` of `tid % 0` when no tab was built.

`keep_last = 0` shows every entry as the recent window and nothing as older, because `[:-0]` is empty and `[-0:]` is the whole list (`Plot.RecentWindow`, `Plot.KeepLastZeroShowsAll`).

## Model

| member | source | states |
|---|---|---|
| `Records.NewEntry` | dashboard/interface.py:14-17 | the name and value are stored as given; the timestamp is the one given or, when none is, the current time `now` |
| `Records.LookupOption` | dashboard/interface.py:20-34 | an attribute name is found exactly when it is one of the seven declared settings |
| `Records.Set` | dashboard/interface.py:59 | assigning an option changes that option to the new value and leaves every other option as it was |
| `Records.Coerce` | dashboard/interface.py:58-59 | `type(current)(v)` yields a value of the option's own type; it fails exactly for an integer option whose raw value is not an integer |
| `Records.ApplySetting` | dashboard/interface.py:53-59 | the keyword `self` raises `TypeError`; any other unknown name leaves the settings unchanged; for a known option the step fails exactly when int coercion fails, with that option and text in the error; otherwise the option gets the coerced value and the others keep theirs |
| `Records.BoolSettingValue` | dashboard/interface.py:58-59 | a bool option becomes true for a bare `s:x` and for non-empty text, false for empty text |
| `Records.StrSettingValue` | dashboard/interface.py:58-59 | a str option becomes `"True"` for a bare `s:x` and the text itself otherwise |
| `Records.IntSettingValue` | dashboard/interface.py:58-59 | an int option becomes 1 for a bare `s:x`; given text it succeeds exactly when `int()` accepts the text, and takes its value |
| `Records.IntSettingFromDigits` | dashboard/interface.py:58-59 | an int option given the decimal text of `n` (as in `s:keep_top=2`) becomes `n`, and the other options keep their values |
| `Records.ApplySettingsKeeps` | dashboard/interface.py:53-59 | an option that no keyword names keeps its value through a whole `setting` call |
| `Records.ApplySettingsAppend` | dashboard/interface.py:53-59 | applying two keyword lists one after the other is applying their concatenation one keyword at a time, stopping at the first error |
| `Records.Table.constructor` | dashboard/interface.py:42-45 | a new table has no baselines, no entries and the default settings |
| `Records.Table.Add` | dashboard/interface.py:47-48 | appends the entry at the end of `entries` and changes nothing else |
| `Records.Table.AddBaseline` | dashboard/interface.py:50-51 | appends the entry at the end of `baselines` and changes nothing else |
| `Records.Table.Setting` | dashboard/interface.py:53-59 | a keyword named `self` raises `TypeError` before any option is assigned; otherwise the keyword loop leaves the settings, and the error if one was raised part-way, that the applier gives for the keywords in order; the two lists are unchanged |
| `PySemantics.SliceIndex` | dashboard/plot.py:15-18 | a slice bound lands in `0..n`; a non-negative bound is clamped to `n`; a negative bound leaves `min(-i, n)` elements after it |
| `PySemantics.WordRunMeaning` | dashboard/interface.py:97 | greedy `(\w+)` captures a prefix made only of word characters and stops at the first character that is not one |
| `PySemantics.UpToNewlineMeaning` | dashboard/interface.py:97-99 | greedy `(.*)` captures a prefix with no newline and stops at the first newline |
| `PySemantics.NatToString` | dashboard/plot.py:45-46 | `'%d' % n` is a non-empty string of decimal digits with no leading zero |
| `PySemantics.StripLeading` | dashboard/interface.py:59 | what `int()` keeps after skipping leading whitespace is a suffix of the text that does not start with whitespace |
| `PySemantics.StripTrailing` | dashboard/interface.py:59 | what `int()` keeps before trailing whitespace is a prefix of the text that does not end with whitespace |
| `PySemantics.ParseIntOfNatToString` | dashboard/interface.py:59 | `int('%d' % n) == n`: integer coercion reads back a formatted number |
| `PySemantics.ParseIntOfNegated` | dashboard/interface.py:59 | `int('-%d' % n) == -n`: the minus sign is honoured |
| `PySemantics.ParseIntOnlyNumericText` | dashboard/interface.py:59 | integer coercion rejects any text holding a character that is not a digit, an underscore, a sign or whitespace |
| `PySemantics.NatToStringInjective` | dashboard/plot.py:45-46 | different counters are formatted differently |
| `StableSort.SortByCorrect` | dashboard/plot.py:14-17 | `sorted` returns a permutation of its input, ordered by the key in the chosen direction, in which elements with equal keys keep their input order |
| `SheetParser.MatchSettingMeaning` | dashboard/interface.py:97 | `s:(\w+)(=?)(.*)` matches exactly the texts that start with `s:` and a word character; group 1 is the whole word run after `s:`; group 2 is the `=` right after it if there is one, otherwise empty |
| `SheetParser.MatchSettingValue` | dashboard/interface.py:97 | group 3 is the slice of the text right after groups 1 and 2, up to the first newline |
| `SheetParser.MatchMarkerMeaning` | dashboard/interface.py:98-99 | `b:(.*)` and `i:(.*)` match exactly the texts that start with their marker; the group is the rest of the first line |
| `SheetParser.ClassifyTextMeaning` | dashboard/interface.py:120-134 | a text cell is classified as follows: <br>• it is a directive iff it starts with `s:` and a word character; <br>• it is a baseline marker iff it starts with `b:`; <br>• it is an ignore marker iff it starts with `i:`; <br>• a plain cell contributes the whole text; a baseline marker contributes a newline-free prefix of what follows `b:`; <br>• a baseline marker's fragment stops at the first newline; <br>• a directive's option is the word run after `s:`; it passes `True` exactly when no `=` follows that word, and otherwise the text after the `=` up to the first newline |
| `SheetParser.SelfDirectiveRaises` | dashboard/interface.py:120-127 | a cell `s:self` or `s:self=…` makes the row's step raise `TypeError`, which aborts the parse |
| `SheetParser.ParseWorksheet` | dashboard/interface.py:106-140 | the nested row and cell loops give the table `BuildTable` describes, or fail with the same error (`ValueError` of a bad integer or `TypeError` of `s:self`) |
| `SheetParser.ParseRow` | dashboard/interface.py:110-139 | the body of the row loop performs one step of the parse: it fails exactly when that step would fail, and otherwise leaves the table that step gives |
| `SheetParser.ReadCellsMeaning` | dashboard/interface.py:111-118 | the cells the scan reads are the prefix of the row before its first number |
| `SheetParser.ScanSettings` | dashboard/interface.py:120-127 | scanning a row applies exactly the directives before the row's first number, in column order, whatever markers it holds; the row fails exactly when one of them fails |
| `SheetParser.ScanRow` | dashboard/interface.py:110-134 | after a successful scan of a row: <br>• the name is the fragments of the cells read, concatenated in column order; <br>• the timestamp is the last date read; <br>• the value is the first number; <br>• each flag is set exactly when its marker was read |
| `SheetParser.EmitRow` | dashboard/interface.py:135-139 | a row's step appends the entry the row yields to the baselines when it is marked, otherwise to the entries, and appends nothing to the other list |
| `SheetParser.BuildRowsSettings` | dashboard/interface.py:109-134 | the settings after parsing the rows are the directives before each row's first number, applied in row and column order; the parse fails exactly when one of them fails |
| `SheetParser.BuildRowsEntries` | dashboard/interface.py:109-139 | a successful parse appends the marked rows' entries to the baselines and the other rows' entries to the entries, each in row order |
| `SheetParser.BuildTableMeaning` | dashboard/interface.py:106-140 | in one statement: <br>• the settings are the defaults after the title directive and then the directives before each row's first number; <br>• the parse of a worksheet fails exactly when one of those directives fails; <br>• the baselines and the entries are the yielded entries of the marked and unmarked rows, in row order |
| `SheetParser.TitleUnlessRenamed` | dashboard/interface.py:108 | the table is named after its worksheet unless some directive names the `name` option |
| `SheetParser.YieldedPartition` | dashboard/interface.py:135-139 | every yielded entry lands in exactly one of the two lists |
| `SheetParser.FirstNumberEndsScan` | dashboard/interface.py:115-118 | once the first numeric cell is reached, no later cell of any kind changes the scan's outcome, and that number is the row's value |
| `SheetParser.IgnoredRowYieldsNothing` | dashboard/interface.py:131-135 | an `i:` cell before the first number means the row yields no entry, while its directives before the first number still take effect |
| `Discovery.PresentMembers` | dashboard/interface.py:216 | the collected args are exactly the values of the non-empty cells |
| `Discovery.PresentAppend` | dashboard/interface.py:216 | collecting args keeps the column order |
| `Discovery.RowSource` | dashboard/interface.py:214-220 | a directory row describes a source iff it has at least two cells, a non-empty first cell and a non-empty cell after it; the source is named by the first cell and holds the non-empty trailing cells in column order; it is a single remote iff there is exactly one of them |
| `Discovery.RemoteDirectory.constructor` | dashboard/interface.py:75-76 | a new directory has no interfaces |
| `Discovery.RemoteDirectory.Discover` | dashboard/interface.py:208-220 | the loop leaves exactly the sources of the describing rows, in row order |
| `Discovery.DiscoveredFromRows` | dashboard/interface.py:213-220 | a source is discovered iff some row describes it |
| `Discovery.DiscoveredAppend` | dashboard/interface.py:213-220 | the rows of two pieces of directory are discovered one after the other, so row order is kept |
| `Discovery.SkippedRow` | dashboard/interface.py:214-220 | a row that is too short, unnamed or without ids contributes nothing |
| `Plot.Shorten` | dashboard/plot.py:6-9 | a label of at most `max_len - 3` characters is returned unchanged |
| `Plot.ShortenFits` | dashboard/plot.py:6-9 | for `max_len >= 3` the label fits in `max_len` characters; a longer label becomes its first `max_len - 3` characters followed by `...`, exactly `max_len` long |
| `Plot.ByTimeCorrect` | dashboard/plot.py:14 | the time sort is a stable permutation of the entries in non-decreasing timestamp order |
| `Plot.SplitPartition` | dashboard/plot.py:15-16 | the older part followed by the recent window is the sorted list, so the two parts partition the entries without duplication |
| `Plot.RecentWindow` | dashboard/plot.py:15-16 | the recent window depends on `keep_last`: <br>• for `keep_last >= 1` it is the last `min(keep_last, n)` sorted entries and the older part is the rest; <br>• for `keep_last = 0` the older part is empty and the window is every entry; <br>• for negative `keep_last` the older part is the first `min(-keep_last, n)` entries |
| `Plot.RecentIsLatest` | dashboard/plot.py:14-16 | every entry of the recent window is at least as late as every older entry |
| `Plot.RankedCorrect` | dashboard/plot.py:17 | the ranking is a stable permutation of the older entries, best first (highest value, or lowest when `lower_better`) |
| `Plot.KeptAreBest` | dashboard/plot.py:17-18 | no older entry left out of the top `keep_top` is strictly better than one kept, and the kept entries are a prefix of the ranking |
| `Plot.ShownBound` | dashboard/plot.py:14-18 | with `keep_top >= 0` and `keep_last >= 1` at most `keep_top + keep_last` entries are shown; every shown entry is a table entry, shown at most as often as it occurs |
| `Plot.KeepLastZeroShowsAll` | dashboard/plot.py:15-18 | with `keep_last = 0` every entry is shown, in time order |
| `Plot.MinStamp` | dashboard/plot.py:25 | the minimum is the timestamp of one of the entries, and no entry has an earlier one |
| `Plot.MaxStamp` | dashboard/plot.py:25 | the maximum is the timestamp of one of the entries, and no entry has a later one |
| `Plot.GraphOf` | dashboard/plot.py:22-36 | the figure data of a table once something is shown: <br>• it is titled by the table's name and labelled by its axis; <br>• it holds one dashed trace per baseline, in order, then one point per shown entry, in order; <br>• every baseline spans from the earliest to the latest shown timestamp, so it covers every shown entry |
| `Plot.PlotTable` | dashboard/plot.py:18-20 | a table has no plot exactly when no entry is shown; otherwise its plot is the figure of the shown entries |
| `Plot.VisibleMembers` | dashboard/plot.py:42 | the visible tables are exactly the tables without `hide` |
| `Plot.VisibleSingle` | dashboard/plot.py:42 | a single table is kept exactly when it is not hidden |
| `Plot.VisibleAppend` | dashboard/plot.py:42 | the filter distributes over concatenation, so it keeps the tables' order |
| `Plot.TabOrderCorrect` | dashboard/plot.py:42 | the tabs visit the tables without `hide`, as a stable permutation in non-increasing priority |
| `Plot.TabsOfMeaning` | dashboard/plot.py:41-45 | every table with a plot gives exactly one tab, in order, captioned by its name, holding its plot and valued `t-0`, `t-1`, … in turn |
| `Plot.PlotTables` | dashboard/plot.py:40-46 | the loop builds exactly the specified tabs; it fails exactly when there are none, and otherwise selects `t-(tid mod m)` |
| `Plot.SelectedTabUnique` | dashboard/plot.py:45-46 | the selected value names exactly one tab |
| `NameStore.NewEntry` | dashboard/interface/base.py:10-13 | the name and performance are stored as given; the timestamp is the one given or, when none is, `now` |
| `NameStore.TabularInterface.constructor` | dashboard/interface/base.py:26-28 | a new store has empty `entries` and `baselines` |
| `NameStore.TabularInterface.Add` | dashboard/interface/base.py:30-31 | `entries[e.name]` becomes `e` and the other keys are unchanged; `baselines` is untouched; the store stays the dictionary its history of additions gives |
| `NameStore.TabularInterface.AddBaseline` | dashboard/interface/base.py:33-34 | `baselines[e.name]` becomes `e` and the other keys are unchanged; `entries` is untouched; the store stays consistent with its history |
| `NameStore.KeyedKeys` | dashboard/interface/base.py:30-34 | the keys of a store are exactly the names added |
| `NameStore.KeyedLastWins` | dashboard/interface/base.py:30-34 | a name maps to the last entry added under it |
| `NameStore.KeyedSize` | dashboard/interface/base.py:30-34 | adding under a present name keeps the number of keys; adding under a new name adds one |

## Left out

Operations the model does not capture:

- Workbook loading and fetching (`openpyxl`, `urllib`, the `file()` context managers): these are I/O and foreign calls. The model starts from already-decoded cells.
  - An empty cell is `Empty`, a date cell is `Date`, a numeric cell is `Num` and a string cell is `Text`.
  - A directory cell is an optional string.
- `poll` (dashboard/interface.py:142-148, 194-200, 208-212, 221-222): the wholesale reset of `tables` and its refill, and the polling of the discovered interfaces. These are driven by I/O and by exceptions from external libraries.
- dashboard/interface/gsheets.py and dashboard/__main__.py: these are network fetches, the Dash layout, timers and callbacks. They are not part of this model.
- The Dash objects `dcc.Graph`, `dcc.Tab` and `dcc.Tabs`, and layout details such as margins. A plot is modelled as the data handed to them: title, axis label and traces.
- `logging.warning` for an unknown setting: modelled as a no-op.

Simplifications:

- The clock `datetime.datetime.now()` is the parameter `now`. A parse reads it once, where Python reads it once per entry.
- Timestamps are integers. Values are reals: no NaN and no IEEE behaviour. The `float(c.value)` conversion is not modelled.
- Python's bool cells count as numbers. Cell values of other types are not modelled.
- `\w` is modelled as the ASCII word characters. So `s:hideé` sets `hide` to true in the model, where Python reads the option name `hideé` and only warns; and `s:é` is a name fragment in the model, where Python reads it as a directive for an unknown option. `int()` accepts only ASCII decimal digits, not other Unicode digits.
- `hasattr` finds only the seven declared settings, not Python's dunder attributes of the settings object.
- The file name that `LocalSheetInterface` passes as the name is not modelled. Nor are `MultiInterface.__len__` and `MultiInterface.__getitem__`, which are plain list access.
- The comment-only `main()` at dashboard/interface.py:225-229 is dead code.
- `Discovery.Present`: this contract states only the length bound; membership and order are stated by `Discovery.PresentMembers` and `Discovery.PresentAppend`.
