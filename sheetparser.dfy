/** The worksheet parser of `BaseSheetInterface` (dashboard/interface.py):
    every row is scanned cell by cell; a date cell sets the row's timestamp,
    the first numeric cell sets its value and ends the scan, and a text cell
    is a settings directive `s:name[=value]`, a baseline marker `b:`, an
    ignore marker `i:` or a fragment of the row's name. A row with a value, a
    name and no ignore marker becomes an entry or, when marked, a baseline.

    `BuildTable` is the parse as a function; `ParseWorksheet` is the loop
    `_prase_worksheet` runs, proved equal to it; the lemmas say what `BuildTable` means in
    terms of the cells read, independent of the order the scan visits them. */
module SheetParser {
  import opened Wrappers
  import opened Records
  import opened PySemantics

  /** A decoded spreadsheet cell. */
  datatype Cell = Empty | Date(t: int) | Num(v: real) | Text(s: string)

  datatype Worksheet = Worksheet(title: string, rows: seq<seq<Cell>>)

  // ---------------------------------------------------------------------
  // The three marker patterns, applied with `re.match` (anchored at the
  // start of the cell, not at its end)

  /** The groups of `s:(\w+)(=?)(.*)`. */
  datatype SettingGroups = SettingGroups(option: string, eq: string, value: string)

  function MatchSetting(s: string): Option<SettingGroups> {
    if |s| > 2 && s[0] == 's' && s[1] == ':' && IsWordChar(s[2]) then
      var w := WordRun(s[2..]);
      Some(GroupsAfter(s, w, 2 + |w|))
    else None
  }

  /** Groups 2 and 3 once group 1, `w`, has ended at `k`. */
  function GroupsAfter(s: string, w: string, k: nat): SettingGroups
    requires k <= |s|
  {
    if k < |s| && s[k] == '=' then SettingGroups(w, "=", UpToNewline(s[k + 1..]))
    else SettingGroups(w, "", UpToNewline(s[k..]))
  }

  /** Group 1 of `b:(.*)` or of `i:(.*)`, for `marker` being `'b'` or `'i'`. */
  function MatchMarker(marker: char, s: string): Option<string> {
    if |s| >= 2 && s[0] == marker && s[1] == ':' then Some(UpToNewline(s[2..])) else None
  }

  /** The match, when there is one, with its groups laid out along `s`: the
      word run after `s:` ends at `k`, and the value starts after the `=`,
      if one is at `k`. */
  lemma MatchSettingParts(s: string)
    requires |s| > 2 && s[0] == 's' && s[1] == ':' && IsWordChar(s[2])
    ensures var w := WordRun(s[2..]);
            var k := 2 + |w|;
            var eq := if k < |s| && s[k] == '=' then "=" else "";
            && k + |eq| <= |s|
            && MatchSetting(s) == Some(SettingGroups(w, eq, UpToNewline(s[k + |eq|..])))
  {
  }

  /** Group 1 is the longest run of word characters after `s:`, and it is
      not empty. */
  lemma MatchSettingOption(s: string)
    requires |s| > 2 && s[0] == 's' && s[1] == ':' && IsWordChar(s[2])
    ensures var w := WordRun(s[2..]);
            var k := 2 + |w|;
            && 0 < |w| && k <= |s| && s[2..k] == w
            && (forall i :: 0 <= i < |w| ==> IsWordChar(w[i]))
            && (k < |s| ==> !IsWordChar(s[k]))
  {
    var t := s[2..];
    var w := WordRun(t);
    WordRunMeaning(t);
    assert |w| > 0 by { assert t[0] == s[2]; }
    assert t[..|w|] == s[2..2 + |w|];
    assert 2 + |w| < |s| ==> s[2 + |w|] == t[|w|];
  }

  /** Group 3 is the rest of the line after position `m`. */
  lemma RestOfLine(s: string, m: nat)
    requires m <= |s|
    ensures var v := UpToNewline(s[m..]);
            && m + |v| <= |s| && s[m..m + |v|] == v && '\n' !in v
            && (m + |v| < |s| ==> s[m + |v|] == '\n')
  {
    var after := s[m..];
    var v := UpToNewline(after);
    UpToNewlineMeaning(after);
    assert after[..|v|] == s[m..m + |v|];
    assert m + |v| < |s| ==> s[m + |v|] == after[|v|];
  }

  /** `SETTING_RE.match(s)` succeeds iff `s` starts with `s:` and a word
      character; then group 1 is the longest run of word characters after
      `s:`, and group 2 is the `=` that follows it, if one does. */
  lemma MatchSettingMeaning(s: string)
    ensures MatchSetting(s).Some? <==> |s| > 2 && s[0] == 's' && s[1] == ':' && IsWordChar(s[2])
    ensures MatchSetting(s).Some? ==>
              var g := MatchSetting(s).value;
              var k := 2 + |g.option|;
              && |g.option| > 0 && k + |g.eq| <= |s|
              && s[2..k] == g.option && s[k..k + |g.eq|] == g.eq
              && (forall i :: 0 <= i < |g.option| ==> IsWordChar(g.option[i]))
              && (k < |s| ==> !IsWordChar(s[k]))
              && (g.eq == "=" <==> k < |s| && s[k] == '=')
              && (g.eq == "" || g.eq == "=")
  {
    if |s| > 2 && s[0] == 's' && s[1] == ':' && IsWordChar(s[2]) {
      MatchSettingParts(s);
      MatchSettingOption(s);
      var k := 2 + |WordRun(s[2..])|;
      var eq := if k < |s| && s[k] == '=' then "=" else "";
      assert s[k..k + |eq|] == eq by {
        if eq == "=" { assert s[k..k + 1] == [s[k]]; }
      }
    }
  }

  /** Group 3 of `SETTING_RE.match(s)` is the rest of the line after groups
      1 and 2. */
  lemma MatchSettingValue(s: string)
    requires MatchSetting(s).Some?
    ensures var g := MatchSetting(s).value;
            var m := 2 + |g.option| + |g.eq|;
            && m + |g.value| <= |s| && s[m..m + |g.value|] == g.value
            && '\n' !in g.value
            && (m + |g.value| < |s| ==> s[m + |g.value|] == '\n')
  {
    var g := MatchSetting(s).value;
    var k := 2 + |g.option|;
    if k < |s| && s[k] == '=' {
      assert |g.eq| == 1 && g.value == UpToNewline(s[k + 1..]);
      RestOfLine(s, k + 1);
    } else {
      assert |g.eq| == 0 && g.value == UpToNewline(s[k..]);
      RestOfLine(s, k);
    }
  }

  /** `BASELINE_RE.match(s)` and `IGNORE_RE.match(s)` succeed iff `s` starts
      with the marker; the group is the rest of the first line. */
  lemma MatchMarkerMeaning(marker: char, s: string)
    ensures MatchMarker(marker, s).Some? <==> |s| >= 2 && s[0] == marker && s[1] == ':'
    ensures MatchMarker(marker, s).Some? ==>
              var g := MatchMarker(marker, s).value;
              && [marker, ':'] + g <= s
              && '\n' !in g
              && (2 + |g| < |s| ==> s[2 + |g|] == '\n')
  {
    if |s| >= 2 && s[0] == marker && s[1] == ':' {
      UpToNewlineMeaning(s[2..]);
      assert s == [marker, ':'] + s[2..];
    }
  }

  /** What a text cell is, with the markers tested in the order
      `_prase_worksheet` tests them:
      setting, then baseline, then ignore. */
  datatype TextKind = Directive(option: string, raw: Raw) | BaselineMark(fragment: string) | IgnoreMark | Plain(fragment: string)

  function ClassifyText(s: string): TextKind {
    var ms := MatchSetting(s);
    var mb := MatchMarker('b', s);
    var mi := MatchMarker('i', s);
    if ms.Some? then
      Directive(ms.value.option, if ms.value.eq != "" then RawText(ms.value.value) else RawTrue)
    else if mb.Some? then BaselineMark(mb.value)
    else if mi.Some? then IgnoreMark
    else Plain(s)
  }

  /** The three markers are anchored prefixes that exclude one another; a
      cell starting `s:` without a word character after it (`s:=1`, `s:`) is
      plain text; bare `s:x` hands `True` to the setting, `s:x=v` the text
      `v`. */
  lemma ClassifyTextMeaning(s: string)
    ensures ClassifyText(s).Directive? <==> |s| > 2 && s[0] == 's' && s[1] == ':' && IsWordChar(s[2])
    ensures ClassifyText(s).BaselineMark? <==> |s| >= 2 && s[0] == 'b' && s[1] == ':'
    ensures ClassifyText(s).IgnoreMark? <==> |s| >= 2 && s[0] == 'i' && s[1] == ':'
    ensures ClassifyText(s).Plain? ==> ClassifyText(s).fragment == s
    ensures ClassifyText(s).BaselineMark? ==> ClassifyText(s).fragment <= s[2..] && '\n' !in ClassifyText(s).fragment
    ensures ClassifyText(s).BaselineMark? ==>
              var f := ClassifyText(s).fragment;
              2 + |f| < |s| ==> s[2 + |f|] == '\n'
    ensures ClassifyText(s).Directive? ==>
              (ClassifyText(s).raw == RawTrue <==> |s| == 2 + |WordRun(s[2..])| || s[2 + |WordRun(s[2..])|] != '=')
    ensures ClassifyText(s).Directive? ==> ClassifyText(s).option == WordRun(s[2..])
    ensures ClassifyText(s).Directive? && ClassifyText(s).raw.RawText? ==>
              var t, m := ClassifyText(s).raw.text, 3 + |WordRun(s[2..])|;
              && m + |t| <= |s| && s[m..m + |t|] == t && '\n' !in t
              && (m + |t| < |s| ==> s[m + |t|] == '\n')
  {
    if |s| >= 2 {
      UpToNewlineMeaning(s[2..]);
    }
    if MatchSetting(s).Some? {
      MatchSettingValue(s);
    }
  }

  // ---------------------------------------------------------------------
  // The parse as a function

  /** The locals `name, ts, value, baseline, ignore` of one row's scan. */
  datatype RowScan = RowScan(name: string, ts: Option<int>, value: Option<real>, baseline: bool, ignore: bool)

  const FreshRow := RowScan("", None, None, false, false)

  /** A row's locals together with the table's settings, which directives
      update while the row is being scanned. */
  datatype Scanned = Scanned(row: RowScan, settings: Settings)

  function TextStep(s: string, sc: Scanned): Result<Scanned, SettingError> {
    match ClassifyText(s)
    case Directive(a, v) =>
      (match ApplySetting(sc.settings, a, v)
       case Failure(e) => Failure(e)
       case Success(st) => Success(sc.(settings := st)))
    case BaselineMark(f) => Success(sc.(row := sc.row.(baseline := true, name := sc.row.name + f)))
    case IgnoreMark => Success(sc.(row := sc.row.(ignore := true)))
    case Plain(f) => Success(sc.(row := sc.row.(name := sc.row.name + f)))
  }

  /** `s:self` (bare or with a value) hands `setting` a keyword named
      `self`, so the row, and with it the whole parse, raises `TypeError`. */
  lemma SelfDirectiveRaises(s: string, sc: Scanned)
    requires |s| >= 6 && s[..6] == "s:self" && (|s| == 6 || !IsWordChar(s[6]))
    ensures TextStep(s, sc) == Failure(SelfKeyword)
  {
    assert IsWordChar(s[2]) by { assert s[2] == s[..6][2]; }
    ClassifyTextMeaning(s);
    WordRunMeaning(s[2..]);
    assert s[2..6] == "self" by { assert s[2..6] == s[..6][2..6]; }
    assert WordRun(s[2..]) == s[2..6];
  }

  /** What a cell before the first number does to the scan: an empty cell
      nothing, a date sets the timestamp, a text cell its text step. */
  function CellStep(c: Cell, sc: Scanned): Result<Scanned, SettingError>
    requires !c.Num?
  {
    match c
    case Empty => Success(sc)
    case Date(t) => Success(sc.(row := sc.row.(ts := Some(t))))
    case Text(s) => TextStep(s, sc)
  }

  /** The scan of a row's cells: each cell's step until the first number,
      which sets the value and ends the scan. */
  function ScanCells(cells: seq<Cell>, sc: Scanned): Result<Scanned, SettingError>
    decreases |cells|
  {
    if cells == [] then Success(sc)
    else if cells[0].Num? then Success(sc.(row := sc.row.(value := Some(cells[0].v))))
    else
      match CellStep(cells[0], sc)
      case Failure(e) => Failure(e)
      case Success(next) => ScanCells(cells[1..], next)
  }

  /** The entry a scanned row yields, if any. */
  function RowEntry(row: RowScan, now: int): Option<Entry> {
    if !row.ignore && row.value.Some? && row.name != "" then
      Some(NewEntry(row.name, row.value.value, row.ts, now))
    else None
  }

  /** Routes a row's entry to the baselines or the entries. */
  function Emit(tb: TableData, row: RowScan, now: int): TableData {
    match RowEntry(row, now)
    case None => tb
    case Some(e) =>
      if row.baseline then tb.(baselines := tb.baselines + [e])
      else tb.(entries := tb.entries + [e])
  }

  /** One row of the parse: scan it against the table's settings, then
      emit its entry. */
  function RowStep(cells: seq<Cell>, tb: TableData, now: int): Result<TableData, SettingError> {
    match ScanCells(cells, Scanned(FreshRow, tb.settings))
    case Failure(e) => Failure(e)
    case Success(sc) => Success(Emit(tb.(settings := sc.settings), sc.row, now))
  }

  /** Runs `step` over the rows in order, stopping at the first error. */
  function FoldRows(rows: seq<seq<Cell>>, tb: TableData, step: (seq<Cell>, TableData) -> Result<TableData, SettingError>): Result<TableData, SettingError>
    decreases |rows|
  {
    if rows == [] then Success(tb)
    else
      match step(rows[0], tb)
      case Failure(e) => Failure(e)
      case Success(next) => FoldRows(rows[1..], next, step)
  }

  /** The rows of a worksheet parsed one after the other into `tb`. */
  function BuildRows(rows: seq<seq<Cell>>, tb: TableData, now: int): Result<TableData, SettingError> {
    FoldRows(rows, tb, (cells, t) => RowStep(cells, t, now))
  }

  /** The directive that names the table after its worksheet. */
  function TitleDirective(ws: Worksheet): seq<(string, Raw)> {
    [("name", RawText(ws.title))]
  }

  /** `_prase_worksheet(ws)`, with `now` the clock reading entries without a
      date cell receive. */
  function BuildTable(ws: Worksheet, now: int): Result<TableData, SettingError> {
    var init := ApplySettings(Defaults, TitleDirective(ws));
    if init.error.Some? then Failure(init.error.value)
    else BuildRows(ws.rows, TableData([], [], init.settings), now)
  }

  // ---------------------------------------------------------------------
  // The parse as `_prase_worksheet` runs it

  method ParseWorksheet(ws: Worksheet, now: int) returns (r: Result<Table, SettingError>)
    ensures r.Failure? ==> BuildTable(ws, now) == Failure(r.error)
    ensures r.Success? ==> fresh(r.value) && BuildTable(ws, now) == Success(r.value.Data())
  {
    var tb := new Table();
    var err := tb.Setting(TitleDirective(ws));
    if err.Some? {
      return Failure(err.value);
    }
    var i := 0;
    while i < |ws.rows|
      invariant 0 <= i <= |ws.rows|
      invariant BuildTable(ws, now) == BuildRows(ws.rows[i..], tb.Data(), now)
    {
      assert ws.rows[i..][0] == ws.rows[i] && ws.rows[i..][1..] == ws.rows[i + 1..];
      var e := ParseRow(tb, ws.rows[i], now);
      if e.Some? {
        return Failure(e.value);
      }
      i := i + 1;
    }
    assert ws.rows[i..] == [];
    return Success(tb);
  }

  /** The body of the row loop of `_prase_worksheet`: scans the cells up to
      the first number, applying directives to `tb` as they come, then adds
      the row's entry, if any. Returns the error a directive raised. */
  method ParseRow(tb: Table, cells: seq<Cell>, now: int) returns (err: Option<SettingError>)
    modifies tb
    ensures var step := RowStep(cells, old(tb.Data()), now);
            && (err.Some? <==> step.Failure?)
            && (err.Some? ==> err.value == step.error)
            && (err.None? ==> tb.Data() == step.value)
  {
    ghost var start := tb.Data();
    var name, ts, value, baseline, ignore := "", None, None, false, false;
    var j := 0;
    while j < |cells|
      invariant 0 <= j <= |cells|
      invariant tb.entries == start.entries && tb.baselines == start.baselines
      invariant ScanCells(cells, Scanned(FreshRow, start.settings))
             == ScanCells(cells[j..], Scanned(RowScan(name, ts, value, baseline, ignore), tb.settings))
    {
      ghost var sc := Scanned(RowScan(name, ts, value, baseline, ignore), tb.settings);
      ScanCellsAt(cells, j, sc);
      match cells[j] {
      case Empty =>
      case Date(t) =>
        ts := Some(t);
      case Num(v) =>
        value := Some(v);
        // Read only one value
        break;
      case Text(s) =>
        var ms := MatchSetting(s);
        var mb := MatchMarker('b', s);
        var mi := MatchMarker('i', s);
        if ms.Some? {
          var kw := if ms.value.eq != "" then RawText(ms.value.value) else RawTrue;
          ApplyOne(tb.settings, ms.value.option, kw);
          var e := tb.Setting([(ms.value.option, kw)]);
          if e.Some? {
            return Some(e.value);
          }
        } else if mb.Some? {
          baseline := true;
          name := name + mb.value;
        } else if mi.Some? {
          ignore := true;
        } else {
          name := name + s;
        }
      }
      j := j + 1;
    }
    assert ScanCells(cells, Scanned(FreshRow, start.settings))
        == Success(Scanned(RowScan(name, ts, value, baseline, ignore), tb.settings));
    if !ignore && value.Some? && name != "" {
      var e := NewEntry(name, value.value, ts, now);
      if baseline {
        tb.AddBaseline(e);
      } else {
        tb.Add(e);
      }
    }
    return None;
  }

  /** One step of the scan, at column `j`. */
  lemma ScanCellsAt(cells: seq<Cell>, j: nat, sc: Scanned)
    requires j < |cells|
    ensures var c := cells[j];
            ScanCells(cells[j..], sc) ==
              if c.Empty? then ScanCells(cells[j + 1..], sc)
              else if c.Date? then ScanCells(cells[j + 1..], sc.(row := sc.row.(ts := Some(c.t))))
              else if c.Num? then Success(sc.(row := sc.row.(value := Some(c.v))))
              else
                var step := TextStep(c.s, sc);
                if step.Failure? then Failure(step.error) else ScanCells(cells[j + 1..], step.value)
  {
    assert cells[j..][0] == cells[j] && cells[j..][1..] == cells[j + 1..];
  }

  // ---------------------------------------------------------------------
  // What a row means, stated over the cells the scan reads

  /** The cells the scan reads: those before the first numeric cell. */
  function ReadCells(cells: seq<Cell>): (p: seq<Cell>)
    ensures |p| <= |cells|
    ensures |p| < |cells| ==> cells[|p|].Num?
  {
    if cells == [] || cells[0].Num? then [] else [cells[0]] + ReadCells(cells[1..])
  }

  /** The cells read are a prefix of the row holding no number, and the
      cell after them, if any, is the first number. */
  lemma {:induction false} ReadCellsMeaning(cells: seq<Cell>)
    ensures var p := ReadCells(cells);
            && p <= cells
            && (forall i :: 0 <= i < |p| ==> !p[i].Num?)
            && (|p| < |cells| ==> cells[|p|].Num?)
  {
    if cells != [] && !cells[0].Num? {
      ReadCellsMeaning(cells[1..]);
      assert cells == [cells[0]] + cells[1..];
    }
  }

  /** The value of the first numeric cell, if there is one. */
  function FirstNumber(cells: seq<Cell>): Option<real> {
    var p := ReadCells(cells);
    if |p| < |cells| then Some(cells[|p|].v) else None
  }

  /** What a cell adds to the row's name: a plain text cell itself, a
      baseline marker the text after `b:`, anything else nothing. */
  function Fragment(c: Cell): string {
    match c
    case Text(s) =>
      (match ClassifyText(s)
       case Plain(f) => f
       case BaselineMark(f) => f
       case _ => "")
    case _ => ""
  }

  /** The fragments of `cs`, concatenated in column order. */
  function NameOf(cs: seq<Cell>): string {
    if cs == [] then "" else Fragment(cs[0]) + NameOf(cs[1..])
  }

  /** The last date among `cs`. */
  function LastDate(cs: seq<Cell>): Option<int> {
    if cs == [] then None
    else
      var later := LastDate(cs[1..]);
      if later.Some? then later else if cs[0].Date? then Some(cs[0].t) else None
  }

  predicate IsBaselineCell(c: Cell) {
    c.Text? && ClassifyText(c.s).BaselineMark?
  }

  predicate IsIgnoreCell(c: Cell) {
    c.Text? && ClassifyText(c.s).IgnoreMark?
  }

  predicate HasBaselineMark(cs: seq<Cell>) {
    cs != [] && (IsBaselineCell(cs[0]) || HasBaselineMark(cs[1..]))
  }

  predicate HasIgnoreMark(cs: seq<Cell>) {
    cs != [] && (IsIgnoreCell(cs[0]) || HasIgnoreMark(cs[1..]))
  }

  /** The settings directive a cell holds, if any. */
  function CellDirectives(c: Cell): seq<(string, Raw)> {
    var k := if c.Text? then ClassifyText(c.s) else Plain("");
    if k.Directive? then [(k.option, k.raw)] else []
  }

  /** The settings directives among `cs`, in column order. */
  function DirectivesOf(cs: seq<Cell>): seq<(string, Raw)> {
    if cs == [] then [] else CellDirectives(cs[0]) + DirectivesOf(cs[1..])
  }

  /** The entry a row yields: one exists iff the row has no ignore marker
      before its first numeric cell, has a numeric cell, and a non-empty
      name; its timestamp is the last date read, or `now`. */
  function RowYield(cells: seq<Cell>, now: int): Option<Entry> {
    var p := ReadCells(cells);
    if !HasIgnoreMark(p) && FirstNumber(cells).Some? && NameOf(p) != "" then
      Some(NewEntry(NameOf(p), FirstNumber(cells).value, LastDate(p), now))
    else None
  }

  /** The pieces `part` gives each row, concatenated in row order. */
  function Concat(rows: seq<seq<Cell>>, part: seq<Cell> -> seq<Entry>): seq<Entry> {
    if rows == [] then [] else part(rows[0]) + Concat(rows[1..], part)
  }

  /** The entries the rows yield that are baselines (`baselines` true) or
      plain entries (`baselines` false), in row order. */
  function Yielded(rows: seq<seq<Cell>>, now: int, baselines: bool): seq<Entry> {
    Concat(rows, cells => RowPart(cells, now, baselines))
  }

  /** What one row adds to the baselines (`baselines` true) or the entries. */
  function RowPart(cells: seq<Cell>, now: int, baselines: bool): seq<Entry> {
    var y := RowYield(cells, now);
    if y.Some? && HasBaselineMark(ReadCells(cells)) == baselines then [y.value] else []
  }

  /** Every entry the rows yield, in row order. */
  function AllYielded(rows: seq<seq<Cell>>, now: int): seq<Entry> {
    if rows == [] then []
    else
      var y := RowYield(rows[0], now);
      (if y.Some? then [y.value] else []) + AllYielded(rows[1..], now)
  }

  /** Every directive of every row, in row order and column order. */
  function AllDirectives(rows: seq<seq<Cell>>): seq<(string, Raw)> {
    if rows == [] then [] else DirectivesOf(ReadCells(rows[0])) + AllDirectives(rows[1..])
  }

  /** A cell's step applies its directive, if it holds one, and fails
      exactly when that directive does. */
  lemma CellStepSettings(c: Cell, sc: Scanned)
    requires !c.Num?
    ensures var r := CellStep(c, sc);
            var a := ApplySettings(sc.settings, CellDirectives(c));
            && (r.Success? <==> a.error.None?)
            && (r.Failure? ==> a.error == Some(r.error))
            && (r.Success? ==> r.value.settings == a.settings)
  {
    if c.Text? && ClassifyText(c.s).Directive? {
      var k := ClassifyText(c.s);
      ApplyOne(sc.settings, k.option, k.raw);
    }
  }

  /** The settings a row leaves behind are its directives before its first
      number applied in column order, whatever else the row holds (ignore and baseline markers
      included); the row fails exactly when one of them fails. */
  lemma {:induction false} ScanSettings(cells: seq<Cell>, sc: Scanned)
    ensures var r := ScanCells(cells, sc);
            var a := ApplySettings(sc.settings, DirectivesOf(ReadCells(cells)));
            && (r.Success? <==> a.error.None?)
            && (r.Failure? ==> a.error == Some(r.error))
            && (r.Success? ==> r.value.settings == a.settings)
    decreases |cells|
  {
    if cells == [] || cells[0].Num? {
      assert ReadCells(cells) == [];
    } else {
      var c := cells[0];
      var rest := cells[1..];
      var p := ReadCells(cells);
      assert p[0] == c && p[1..] == ReadCells(rest);
      var ds := DirectivesOf(ReadCells(rest));
      assert DirectivesOf(p) == CellDirectives(c) + ds;
      CellStepSettings(c, sc);
      ApplySettingsAppend(sc.settings, CellDirectives(c), ds);
      var step := CellStep(c, sc);
      if step.Success? {
        ScanSettings(rest, step.value);
      }
    }
  }

  /** What a text cell does to the row's locals, when its step succeeds:
      it adds its fragment to the name and sets the flag of its marker. */
  lemma TextStepRow(s: string, sc: Scanned)
    requires TextStep(s, sc).Success?
    ensures TextStep(s, sc).value.row == RowScan(
              sc.row.name + Fragment(Text(s)), sc.row.ts, sc.row.value,
              sc.row.baseline || IsBaselineCell(Text(s)), sc.row.ignore || IsIgnoreCell(Text(s)))
  {
    assert sc.row.name + "" == sc.row.name;
  }

  /** What a cell before the first number does to the row's locals, when
      its step succeeds: it adds its fragment to the name, a date replaces
      the timestamp, and a marker sets its flag. */
  lemma CellStepRow(c: Cell, sc: Scanned)
    requires !c.Num? && CellStep(c, sc).Success?
    ensures CellStep(c, sc).value.row == RowScan(
              sc.row.name + Fragment(c), if c.Date? then Some(c.t) else sc.row.ts, sc.row.value,
              sc.row.baseline || IsBaselineCell(c), sc.row.ignore || IsIgnoreCell(c))
  {
    if c.Text? {
      TextStepRow(c.s, sc);
    } else {
      assert sc.row.name + "" == sc.row.name;
    }
  }

  /** The summaries of the cells read, one cell at a time. */
  lemma ReadCellsCons(cells: seq<Cell>)
    requires cells != [] && !cells[0].Num?
    ensures var p := ReadCells(cells);
            var q := ReadCells(cells[1..]);
            && FirstNumber(cells) == FirstNumber(cells[1..])
            && NameOf(p) == Fragment(cells[0]) + NameOf(q)
            && LastDate(p) == (if LastDate(q).Some? then LastDate(q) else if cells[0].Date? then Some(cells[0].t) else None)
            && HasBaselineMark(p) == (IsBaselineCell(cells[0]) || HasBaselineMark(q))
            && HasIgnoreMark(p) == (IsIgnoreCell(cells[0]) || HasIgnoreMark(q))
  {
    var p := ReadCells(cells);
    assert p == [cells[0]] + ReadCells(cells[1..]);
    assert p[0] == cells[0] && p[1..] == ReadCells(cells[1..]);
  }

  /** The locals a successful scan ends with: the name is the row's
      fragments concatenated, the timestamp the last date read, the value the
      first number, and the two flags say whether a marker was read. */
  lemma {:induction false} ScanRow(cells: seq<Cell>, sc: Scanned)
    requires ScanCells(cells, sc).Success?
    ensures var p := ReadCells(cells);
            ScanCells(cells, sc).value.row == RowScan(
              sc.row.name + NameOf(p),
              if LastDate(p).Some? then LastDate(p) else sc.row.ts,
              if FirstNumber(cells).Some? then FirstNumber(cells) else sc.row.value,
              sc.row.baseline || HasBaselineMark(p),
              sc.row.ignore || HasIgnoreMark(p))
    decreases |cells|
  {
    if cells == [] {
    } else if cells[0].Num? {
      assert ReadCells(cells) == [];
    } else {
      var rest := cells[1..];
      ReadCellsCons(cells);
      var next := CellStep(cells[0], sc).value;
      assert ScanCells(cells, sc) == ScanCells(rest, next);
      CellStepRow(cells[0], sc);
      ScanRow(rest, next);
      assert next.row.name + NameOf(ReadCells(rest)) == sc.row.name + (Fragment(cells[0]) + NameOf(ReadCells(rest)));
    }
  }

  /** A row's step appends the entry it yields to the baselines or to the
      entries, as its marker says. */
  lemma EmitRow(cells: seq<Cell>, tb: TableData, now: int)
    requires RowStep(cells, tb, now).Success?
    ensures RowStep(cells, tb, now).value.baselines == tb.baselines + RowPart(cells, now, true)
    ensures RowStep(cells, tb, now).value.entries == tb.entries + RowPart(cells, now, false)
  {
    var sc := ScanCells(cells, Scanned(FreshRow, tb.settings)).value;
    ScanRow(cells, Scanned(FreshRow, tb.settings));
    assert "" + NameOf(ReadCells(cells)) == NameOf(ReadCells(cells));
    assert RowEntry(sc.row, now) == RowYield(cells, now);
    assert sc.row.baseline == HasBaselineMark(ReadCells(cells));
  }

  /** The settings the parse of a worksheet's rows ends with: each row's
      directives before its first number, applied in row order; the parse fails exactly when one of
      them fails. */
  lemma {:induction false} BuildRowsSettings(rows: seq<seq<Cell>>, tb: TableData, now: int)
    ensures var r := BuildRows(rows, tb, now);
            var a := ApplySettings(tb.settings, AllDirectives(rows));
            && (r.Success? <==> a.error.None?)
            && (r.Failure? ==> a.error == Some(r.error))
            && (r.Success? ==> r.value.settings == a.settings)
    decreases |rows|
  {
    if rows != [] {
      var cells := rows[0];
      var sc0 := Scanned(FreshRow, tb.settings);
      var d0 := DirectivesOf(ReadCells(cells));
      var rest := AllDirectives(rows[1..]);
      assert AllDirectives(rows) == d0 + rest;
      var a0 := ApplySettings(tb.settings, d0);
      var r0 := ScanCells(cells, sc0);
      ScanSettings(cells, sc0);
      ApplySettingsAppend(tb.settings, d0, rest);
      if r0.Success? {
        var next := RowStep(cells, tb, now).value;
        assert next.settings == r0.value.settings;
        BuildRowsSettings(rows[1..], next, now);
      }
    }
  }

  /** The baselines (`baselines` true) or the entries of a table. */
  function Part(tb: TableData, baselines: bool): seq<Entry> {
    if baselines then tb.baselines else tb.entries
  }

  /** A fold whose every successful step appends `part` of its row to one
      of the lists appends the rows' parts, in row order. */
  lemma {:induction false} FoldRowsParts(rows: seq<seq<Cell>>, tb: TableData, step: (seq<Cell>, TableData) -> Result<TableData, SettingError>,
                                         part: seq<Cell> -> seq<Entry>, baselines: bool)
    requires forall c, t :: step(c, t).Success? ==> Part(step(c, t).value, baselines) == Part(t, baselines) + part(c)
    requires FoldRows(rows, tb, step).Success?
    ensures Part(FoldRows(rows, tb, step).value, baselines) == Part(tb, baselines) + Concat(rows, part)
    decreases |rows|
  {
    if rows == [] {
      assert Part(tb, baselines) + [] == Part(tb, baselines);
    } else {
      var next := step(rows[0], tb).value;
      FoldRowsParts(rows[1..], next, step, part, baselines);
      assert Part(tb, baselines) + part(rows[0]) + Concat(rows[1..], part)
          == Part(tb, baselines) + (part(rows[0]) + Concat(rows[1..], part));
    }
  }

  /** The lists a successful parse of a worksheet's rows ends with: the rows
      that yield a marked entry are appended to the baselines and the others
      to the entries, each in row order. */
  lemma BuildRowsEntries(rows: seq<seq<Cell>>, tb: TableData, now: int, baselines: bool)
    requires BuildRows(rows, tb, now).Success?
    ensures Part(BuildRows(rows, tb, now).value, baselines) == Part(tb, baselines) + Yielded(rows, now, baselines)
  {
    var step := (cells, t) => RowStep(cells, t, now);
    var part := cells => RowPart(cells, now, baselines);
    forall c, t | step(c, t).Success?
      ensures Part(step(c, t).value, baselines) == Part(t, baselines) + part(c)
    {
      EmitRow(c, t, now);
    }
    FoldRowsParts(rows, tb, step, part, baselines);
  }

  /** `_prase_worksheet` in one statement: the title directive, then each
      row's directives before its first number, make the settings; the rows that yield an entry fill
      `baselines` and `entries`. */
  lemma BuildTableMeaning(ws: Worksheet, now: int)
    ensures var r := BuildTable(ws, now);
            var a := ApplySettings(Defaults, TitleDirective(ws) + AllDirectives(ws.rows));
            && (r.Success? <==> a.error.None?)
            && (r.Failure? ==> a.error == Some(r.error))
            && (r.Success? ==> r.value == TableData(
                  Yielded(ws.rows, now, true), Yielded(ws.rows, now, false), a.settings))
  {
    var init := ApplySettings(Defaults, TitleDirective(ws));
    ApplySettingsAppend(Defaults, TitleDirective(ws), AllDirectives(ws.rows));
    assert init.error.None?;
    BuildRowsSettings(ws.rows, TableData([], [], init.settings), now);
    if BuildTable(ws, now).Success? {
      BuildRowsEntries(ws.rows, TableData([], [], init.settings), now, true);
      BuildRowsEntries(ws.rows, TableData([], [], init.settings), now, false);
    }
  }

  /** The table is named after its worksheet unless some directive renames
      it. */
  lemma TitleUnlessRenamed(ws: Worksheet, now: int)
    requires forall i :: 0 <= i < |AllDirectives(ws.rows)| ==> LookupOption(AllDirectives(ws.rows)[i].0) != Some(Name)
    ensures BuildTable(ws, now).Success? ==> BuildTable(ws, now).value.settings.name == ws.title
  {
    BuildTableMeaning(ws, now);
    ApplySettingsAppend(Defaults, TitleDirective(ws), AllDirectives(ws.rows));
    var init := ApplySettings(Defaults, TitleDirective(ws));
    ApplySettingsKeeps(init.settings, AllDirectives(ws.rows), Name);
  }

  /** Each yielded entry lands in exactly one of the two lists. */
  lemma {:induction false} YieldedPartition(rows: seq<seq<Cell>>, now: int)
    ensures multiset(Yielded(rows, now, true)) + multiset(Yielded(rows, now, false))
         == multiset(AllYielded(rows, now))
    decreases |rows|
  {
    if rows != [] {
      YieldedPartition(rows[1..], now);
    }
  }

  /** The first numeric cell ends the scan: nothing after it, of any kind,
      changes the outcome, and it is the row's value. */
  lemma {:induction false} FirstNumberEndsScan(pre: seq<Cell>, v: real, post: seq<Cell>, sc: Scanned)
    requires forall i :: 0 <= i < |pre| ==> !pre[i].Num?
    ensures ScanCells(pre + [Num(v)] + post, sc) == ScanCells(pre + [Num(v)], sc)
    ensures ScanCells(pre + [Num(v)], sc).Success? ==> ScanCells(pre + [Num(v)], sc).value.row.value == Some(v)
    decreases |pre|
  {
    if pre == [] {
      assert (pre + [Num(v)] + post)[0] == Num(v);
      assert (pre + [Num(v)])[0] == Num(v);
    } else {
      var c := pre[0];
      assert (pre + [Num(v)] + post)[0] == c && (pre + [Num(v)])[0] == c;
      assert (pre + [Num(v)] + post)[1..] == pre[1..] + [Num(v)] + post;
      assert (pre + [Num(v)])[1..] == pre[1..] + [Num(v)];
      var step := CellStep(c, sc);
      if step.Success? {
        FirstNumberEndsScan(pre[1..], v, post, step.value);
      }
    }
  }

  lemma {:induction false} ReadCellsKeeps(cells: seq<Cell>, k: nat)
    requires k < |cells| && !cells[k].Num?
    requires forall i :: 0 <= i < k ==> !cells[i].Num?
    ensures k < |ReadCells(cells)| && ReadCells(cells)[k] == cells[k]
    decreases k
  {
    if k > 0 {
      ReadCellsKeeps(cells[1..], k - 1);
    }
  }

  lemma {:induction false} HasIgnoreMarkAt(cs: seq<Cell>, k: nat)
    requires k < |cs| && IsIgnoreCell(cs[k])
    ensures HasIgnoreMark(cs)
    decreases k
  {
    if k > 0 {
      HasIgnoreMarkAt(cs[1..], k - 1);
    }
  }

  /** An `i:` cell before the first numeric cell discards the row, while the
      row's directives before its first number still take effect. */
  lemma IgnoredRowYieldsNothing(cells: seq<Cell>, k: nat, st: Settings, now: int)
    requires k < |cells| && IsIgnoreCell(cells[k])
    requires forall i :: 0 <= i < k ==> !cells[i].Num?
    ensures RowYield(cells, now).None?
    ensures var r := ScanCells(cells, Scanned(FreshRow, st));
            r.Success? ==> r.value.row.ignore && RowEntry(r.value.row, now).None?
                           && r.value.settings == ApplySettings(st, DirectivesOf(ReadCells(cells))).settings
  {
    ReadCellsKeeps(cells, k);
    HasIgnoreMarkAt(ReadCells(cells), k);
    var sc := Scanned(FreshRow, st);
    ScanSettings(cells, sc);
    if ScanCells(cells, sc).Success? {
      ScanRow(cells, sc);
    }
  }
}
