/** The plotter (dashboard/plot.py): which entries of a table are drawn,
    the horizontal span its baselines cover, the label truncation `s`, and
    the tabs `plot_tables` builds. The Dash component objects themselves are
    not modelled; a plot is the data handed to them. */
module Plot {
  import opened Wrappers
  import opened Records
  import opened PySemantics
  import opened StableSort

  // ---------------------------------------------------------------------
  // Label truncation

  /** `s(x, max_len)`: a label longer than `max_len - 3` is cut to
      `max_len - 3` characters (a Python slice, so a negative bound counts
      from the end) and marked with an ellipsis. */
  function Shorten(x: string, maxLen: int): (r: string)
    ensures |x| <= maxLen - 3 ==> r == x
  {
    if |x| > maxLen - 3 then SliceTo(x, maxLen - 3) + "..." else x
  }

  /** The default `max_len` of `s`. */
  const LabelLength := 20

  /** For `max_len >= 3` a shortened label fits in `max_len` characters: it
      is the label itself, or its first `max_len - 3` characters followed by
      `...`, exactly `max_len` long. */
  lemma ShortenFits(x: string, maxLen: int)
    requires maxLen >= 3
    ensures |Shorten(x, maxLen)| <= maxLen
    ensures |x| > maxLen - 3 ==>
              Shorten(x, maxLen) == x[..maxLen - 3] + "..." && |Shorten(x, maxLen)| == maxLen
  {
  }

  // ---------------------------------------------------------------------
  // Entry selection

  function StampKey(e: Entry): real {
    e.timestamp as real
  }

  function ValueKey(e: Entry): real {
    e.value
  }

  /** `sorted(tb.entries, key=lambda e: e.timestamp)` */
  function ByTime(es: seq<Entry>): seq<Entry> {
    SortBy(es, StampKey, false)
  }

  /** `first_entries`: the sorted entries before the recent window. */
  function Older(es: seq<Entry>, keepLast: int): seq<Entry> {
    SliceTo(ByTime(es), -keepLast)
  }

  /** `last_entries`: the recent window. */
  function Recent(es: seq<Entry>, keepLast: int): seq<Entry> {
    SliceFrom(ByTime(es), -keepLast)
  }

  /** `top_entries`: the older entries ranked best first, the best being the
      highest value unless `lower_better`. */
  function Ranked(es: seq<Entry>, st: Settings): seq<Entry> {
    SortBy(Older(es, st.keepLast), ValueKey, !st.lowerBetter)
  }

  /** `shown_entries`: the best `keep_top` older entries, then the recent
      window. */
  function Shown(es: seq<Entry>, st: Settings): seq<Entry> {
    SliceTo(Ranked(es, st), st.keepTop) + Recent(es, st.keepLast)
  }

  /** `b` ranks strictly better than `a`. */
  predicate Better(b: Entry, a: Entry, lowerBetter: bool) {
    if lowerBetter then b.value < a.value else b.value > a.value
  }

  /** The timestamp sort is a stable permutation in ascending time. */
  lemma ByTimeCorrect(es: seq<Entry>)
    ensures multiset(ByTime(es)) == multiset(es)
    ensures forall i, j :: 0 <= i < j < |ByTime(es)| ==> ByTime(es)[i].timestamp <= ByTime(es)[j].timestamp
    ensures Stable(ByTime(es), es, StampKey)
  {
    SortByCorrect(es, StampKey, false);
    var s := ByTime(es);
    forall i, j | 0 <= i < j < |s| ensures s[i].timestamp <= s[j].timestamp {
      assert Precedes(StampKey(s[i]), StampKey(s[j]), false);
    }
  }

  /** The older part and the recent window split the sorted entries: they
      partition them without duplication. */
  lemma SplitPartition(es: seq<Entry>, keepLast: int)
    ensures Older(es, keepLast) + Recent(es, keepLast) == ByTime(es)
    ensures multiset(Older(es, keepLast)) + multiset(Recent(es, keepLast)) == multiset(es)
  {
    var s := ByTime(es);
    var k := SliceIndex(-keepLast, |s|);
    assert s[..k] + s[k..] == s;
    SortByPermutes(es, StampKey, false);
  }

  /** The recent window is the last `min(keep_last, n)` sorted entries for
      `keep_last >= 1`; for `keep_last == 0` the slices `[:-0]` and `[-0:]`
      make it every entry and the older part empty; a negative `keep_last`
      makes the older part the first `min(-keep_last, n)` entries. */
  lemma RecentWindow(es: seq<Entry>, keepLast: int)
    ensures var s, n := ByTime(es), |es|;
            && |s| == n
            && (keepLast >= 1 ==>
                  && |Recent(es, keepLast)| == Min(keepLast, n)
                  && Recent(es, keepLast) == s[n - Min(keepLast, n)..]
                  && Older(es, keepLast) == s[..n - Min(keepLast, n)])
            && (keepLast == 0 ==> Older(es, keepLast) == [] && Recent(es, keepLast) == s)
            && (keepLast < 0 ==> Older(es, keepLast) == s[..Min(-keepLast, n)])
  {
    SortByLength(es, StampKey, false);
  }

  /** Every entry of the recent window is at least as late as every older
      entry. */
  lemma RecentIsLatest(es: seq<Entry>, keepLast: int)
    ensures forall i, j :: 0 <= i < |Older(es, keepLast)| && 0 <= j < |Recent(es, keepLast)| ==>
              Older(es, keepLast)[i].timestamp <= Recent(es, keepLast)[j].timestamp
  {
    var s := ByTime(es);
    var k := SliceIndex(-keepLast, |s|);
    ByTimeCorrect(es);
    forall i, j | 0 <= i < |Older(es, keepLast)| && 0 <= j < |Recent(es, keepLast)|
      ensures Older(es, keepLast)[i].timestamp <= Recent(es, keepLast)[j].timestamp
    {
      assert Older(es, keepLast)[i] == s[i] && Recent(es, keepLast)[j] == s[k + j];
    }
  }

  /** The ranking is a stable permutation of the older entries, best
      first. */
  lemma RankedCorrect(es: seq<Entry>, st: Settings)
    ensures multiset(Ranked(es, st)) == multiset(Older(es, st.keepLast))
    ensures forall i, j :: 0 <= i < j < |Ranked(es, st)| ==> !Better(Ranked(es, st)[j], Ranked(es, st)[i], st.lowerBetter)
    ensures Stable(Ranked(es, st), Older(es, st.keepLast), ValueKey)
  {
    var r := Ranked(es, st);
    SortByCorrect(Older(es, st.keepLast), ValueKey, !st.lowerBetter);
    forall i, j | 0 <= i < j < |r| ensures !Better(r[j], r[i], st.lowerBetter) {
      assert Precedes(ValueKey(r[i]), ValueKey(r[j]), !st.lowerBetter);
    }
  }

  /** No older entry left out is strictly better than an older entry that
      is shown. */
  lemma KeptAreBest(es: seq<Entry>, st: Settings)
    ensures var r, k := Ranked(es, st), SliceIndex(st.keepTop, |Ranked(es, st)|);
            forall i, j :: 0 <= i < k <= j < |r| ==> !Better(r[j], r[i], st.lowerBetter)
    ensures SliceTo(Ranked(es, st), st.keepTop) <= Ranked(es, st)
  {
    RankedCorrect(es, st);
  }

  /** With `keep_top >= 0` and `keep_last >= 1` at most
      `keep_top + keep_last` entries are shown, and every shown entry is one
      of the table's entries, each at most as often as it occurs there. */
  lemma ShownBound(es: seq<Entry>, st: Settings)
    ensures st.keepTop >= 0 && st.keepLast >= 1 ==> |Shown(es, st)| <= st.keepTop + st.keepLast
    ensures multiset(Shown(es, st)) <= multiset(es)
  {
    var older, recent := Older(es, st.keepLast), Recent(es, st.keepLast);
    var r := Ranked(es, st);
    var kept := SliceTo(r, st.keepTop);
    assert Shown(es, st) == kept + recent;
    assert multiset(r) == multiset(older) by {
      SortByPermutes(older, ValueKey, !st.lowerBetter);
    }
    assert multiset(older) + multiset(recent) == multiset(es) by {
      SplitPartition(es, st.keepLast);
    }
    assert multiset(kept) <= multiset(r) by {
      assert r == kept + r[|kept|..];
      assert multiset(r) == multiset(kept) + multiset(r[|kept|..]);
    }
    if st.keepTop >= 0 && st.keepLast >= 1 {
      assert |recent| <= st.keepLast by {
        RecentWindow(es, st.keepLast);
      }
    }
  }

  /** With `keep_last == 0` every entry is shown, in time order. */
  lemma KeepLastZeroShowsAll(es: seq<Entry>, st: Settings)
    requires st.keepLast == 0
    ensures Shown(es, st) == ByTime(es)
    ensures multiset(Shown(es, st)) == multiset(es)
  {
    assert Older(es, 0) == [] && Recent(es, 0) == ByTime(es) by {
      RecentWindow(es, 0);
    }
    assert Ranked(es, st) == [];
    assert SliceTo(Ranked(es, st), st.keepTop) == [];
    assert Shown(es, st) == [] + ByTime(es);
    SortByPermutes(es, StampKey, false);
  }

  // ---------------------------------------------------------------------
  // Timestamp span

  /** `min(e.timestamp for e in es)` */
  function MinStamp(es: seq<Entry>): (m: int)
    requires es != []
    ensures forall i :: 0 <= i < |es| ==> m <= es[i].timestamp
    ensures exists i :: 0 <= i < |es| && m == es[i].timestamp
  {
    if |es| == 1 then es[0].timestamp
    else
      var rest := MinStamp(es[1..]);
      assert forall i :: 1 <= i < |es| ==> es[i] == es[1..][i - 1];
      if es[0].timestamp <= rest then es[0].timestamp else rest
  }

  /** `max(e.timestamp for e in es)` */
  function MaxStamp(es: seq<Entry>): (m: int)
    requires es != []
    ensures forall i :: 0 <= i < |es| ==> es[i].timestamp <= m
    ensures exists i :: 0 <= i < |es| && m == es[i].timestamp
  {
    if |es| == 1 then es[0].timestamp
    else
      var rest := MaxStamp(es[1..]);
      assert forall i :: 1 <= i < |es| ==> es[i] == es[1..][i - 1];
      if es[0].timestamp >= rest then es[0].timestamp else rest
  }

  // ---------------------------------------------------------------------
  // The plot of one table

  /** A scatter point (`dashed` false) or a dashed baseline segment over the
      span (`dashed` true), with its truncated label. */
  datatype Trace = Trace(xs: seq<int>, ys: seq<real>, name: string, dashed: bool)

  /** What `plot_table` hands to `dcc.Graph`: the title, the axis label, and
      the traces, baselines first. */
  datatype Graph = Graph(title: string, axis: string, data: seq<Trace>)

  function EntryTrace(e: Entry): Trace {
    Trace([e.timestamp], [e.value], Shorten(e.name, LabelLength), false)
  }

  function BaselineTrace(b: Entry, lo: int, hi: int): Trace {
    Trace([lo, hi], [b.value, b.value], Shorten("b:" + b.name, LabelLength), true)
  }

  /** The figure data of a table whose shown entries are `shown`: one dashed
      trace per baseline, in order, spanning the earliest to the latest shown
      timestamp, then one point per shown entry, in order; titled by the
      table's name and axis label. */
  function GraphOf(tb: TableData, shown: seq<Entry>): (g: Graph)
    requires shown != []
    ensures g.title == tb.settings.name && g.axis == tb.settings.axis
    ensures |g.data| == |tb.baselines| + |shown|
    ensures forall i :: 0 <= i < |tb.baselines| ==>
              g.data[i] == BaselineTrace(tb.baselines[i], MinStamp(shown), MaxStamp(shown))
    ensures forall i, j :: 0 <= i < |tb.baselines| && 0 <= j < |shown| ==>
              |g.data[i].xs| == 2 && g.data[i].xs[0] <= shown[j].timestamp <= g.data[i].xs[1]
    ensures forall i :: 0 <= i < |shown| ==> g.data[|tb.baselines| + i] == EntryTrace(shown[i])
  {
    var lo, hi := MinStamp(shown), MaxStamp(shown);
    var bs := seq(|tb.baselines|, i requires 0 <= i < |tb.baselines| => BaselineTrace(tb.baselines[i], lo, hi));
    var ps := seq(|shown|, i requires 0 <= i < |shown| => EntryTrace(shown[i]));
    Graph(tb.settings.name, tb.settings.axis, bs + ps)
  }

  /** `plot_table(tb)`: no plot when nothing is shown. */
  function PlotTable(tb: TableData): (g: Option<Graph>)
    ensures g.None? <==> Shown(tb.entries, tb.settings) == []
    ensures g.Some? ==> g.value == GraphOf(tb, Shown(tb.entries, tb.settings))
  {
    var shown := Shown(tb.entries, tb.settings);
    if shown == [] then None else Some(GraphOf(tb, shown))
  }

  // ---------------------------------------------------------------------
  // Tabs

  /** One `dcc.Tab`: labelled by the table's name, holding its plot. */
  datatype Tab = Tab(caption: string, graph: Graph, value: string)

  /** The `dcc.Tabs` value: the tabs and the value of the selected one. */
  datatype Tabs = Tabs(tabs: seq<Tab>, selected: string)

  /** `tid % len(tabs)` with no tabs raises `ZeroDivisionError`. */
  datatype PlotError = NoTabs

  /** `'t-%d' % i` */
  function TabValue(i: nat): string {
    "t-" + NatToString(i)
  }

  function PriorityKey(tb: TableData): real {
    tb.settings.priority as real
  }

  /** The tables without `hide`, in their order. */
  function Visible(tbs: seq<TableData>): seq<TableData> {
    if tbs == [] then []
    else (if tbs[0].settings.hide then [] else [tbs[0]]) + Visible(tbs[1..])
  }

  /** The visible tables are exactly the tables without `hide`. */
  lemma {:induction false} VisibleMembers(tbs: seq<TableData>)
    ensures forall t :: t in Visible(tbs) <==> t in tbs && !t.settings.hide
  {
    if tbs != [] {
      VisibleMembers(tbs[1..]);
      assert tbs == [tbs[0]] + tbs[1..];
    }
  }

  /** A single table is kept exactly when it is not hidden. */
  lemma VisibleSingle(t: TableData)
    ensures Visible([t]) == if t.settings.hide then [] else [t]
  {
    assert [t][1..] == [];
  }

  /** The filter keeps the order of the tables: it distributes over
      concatenation, so together with `VisibleSingle` it determines
      `Visible` on every list. */
  lemma {:induction false} VisibleAppend(a: seq<TableData>, b: seq<TableData>)
    ensures Visible(a + b) == Visible(a) + Visible(b)
    decreases |a|
  {
    if a == [] {
      assert a + b == b;
    } else {
      var h := if a[0].settings.hide then [] else [a[0]];
      assert (a + b)[0] == a[0] && (a + b)[1..] == a[1..] + b;
      assert Visible(a + b) == h + Visible(a[1..] + b);
      VisibleAppend(a[1..], b);
      assert h + (Visible(a[1..]) + Visible(b)) == (h + Visible(a[1..])) + Visible(b);
    }
  }

  /** The visible tables, highest priority first (stable). */
  function TabOrder(tbs: seq<TableData>): seq<TableData> {
    SortBy(Visible(tbs), PriorityKey, true)
  }

  /** The tabs built from `order` by the plotting function `plot` (which is
      `PlotTable`): every table with a plot, numbered in turn by the count of
      tabs before it. */
  function TabsOf(order: seq<TableData>, plot: TableData -> Option<Graph>): seq<Tab> {
    if order == [] then []
    else
      var prev := TabsOf(order[..|order| - 1], plot);
      var tb := order[|order| - 1];
      match plot(tb)
      case None => prev
      case Some(g) => prev + [Tab(tb.settings.name, g, TabValue(|prev|))]
  }

  /** The tables of `order` that have a plot, in order. */
  function Plotted(order: seq<TableData>, plot: TableData -> Option<Graph>): seq<TableData> {
    if order == [] then []
    else (if plot(order[0]).Some? then [order[0]] else []) + Plotted(order[1..], plot)
  }

  lemma TabsOfStep(order: seq<TableData>, i: nat, plot: TableData -> Option<Graph>)
    requires i < |order|
    ensures var prev := TabsOf(order[..i], plot);
            var g := plot(order[i]);
            TabsOf(order[..i + 1], plot) ==
              if g.None? then prev else prev + [Tab(order[i].settings.name, g.value, TabValue(|prev|))]
  {
    assert order[..i + 1][..i] == order[..i];
  }

  /** `plot_tables(tbs, tid)` */
  method PlotTables(tbs: seq<TableData>, tid: int) returns (r: Result<Tabs, PlotError>)
    ensures r.Failure? <==> TabsOf(TabOrder(tbs), PlotTable) == []
    ensures r.Success? ==>
              var ts := TabsOf(TabOrder(tbs), PlotTable);
              r.value.tabs == ts && r.value.selected == TabValue(tid % |ts|)
  {
    var order := TabOrder(tbs);
    var tabs: seq<Tab> := [];
    for i := 0 to |order|
      invariant tabs == TabsOf(order[..i], PlotTable)
    {
      var tb := order[i];
      TabsOfStep(order, i, PlotTable);
      var plt := PlotTable(tb);
      if plt.Some? {
        tabs := tabs + [Tab(tb.settings.name, plt.value, TabValue(|tabs|))];
      }
    }
    assert order[..|order|] == order;
    if |tabs| == 0 {
      return Failure(NoTabs);
    }
    return Success(Tabs(tabs, TabValue(tid % |tabs|)));
  }

  /** The tab order is a stable permutation of the visible tables, highest
      priority first; exactly the tables without `hide` take part. */
  lemma TabOrderCorrect(tbs: seq<TableData>)
    ensures multiset(TabOrder(tbs)) == multiset(Visible(tbs))
    ensures forall i, j :: 0 <= i < j < |TabOrder(tbs)| ==>
              TabOrder(tbs)[i].settings.priority >= TabOrder(tbs)[j].settings.priority
    ensures Stable(TabOrder(tbs), Visible(tbs), PriorityKey)
    ensures forall t :: t in TabOrder(tbs) <==> t in tbs && !t.settings.hide
  {
    var o := TabOrder(tbs);
    SortByCorrect(Visible(tbs), PriorityKey, true);
    VisibleMembers(tbs);
    forall i, j | 0 <= i < j < |o| ensures o[i].settings.priority >= o[j].settings.priority {
      assert Precedes(PriorityKey(o[i]), PriorityKey(o[j]), true);
    }
    forall t ensures t in o <==> t in Visible(tbs) {
      assert t in o <==> t in multiset(o);
    }
  }

  lemma {:induction false} PlottedAppend(a: seq<TableData>, b: seq<TableData>, plot: TableData -> Option<Graph>)
    ensures Plotted(a + b, plot) == Plotted(a, plot) + Plotted(b, plot)
  {
    if a == [] {
      assert a + b == b;
    } else {
      PlottedAppend(a[1..], b, plot);
      var h := if plot(a[0]).Some? then [a[0]] else [];
      assert (a + b)[0] == a[0];
      assert (a + b)[1..] == a[1..] + b;
      assert Plotted(a + b, plot) == h + Plotted(a[1..] + b, plot);
      assert h + (Plotted(a[1..], plot) + Plotted(b, plot)) == (h + Plotted(a[1..], plot)) + Plotted(b, plot);
    }
  }

  /** The tabs are the tables with a plot, in order, each labelled by its
      name and holding its plot, and numbered `t-0`, `t-1`, ... in turn. */
  lemma {:induction false} TabsOfMeaning(order: seq<TableData>, plot: TableData -> Option<Graph>)
    ensures var ts, ps := TabsOf(order, plot), Plotted(order, plot);
            && |ts| == |ps|
            && forall i :: 0 <= i < |ts| ==>
                 && ts[i].caption == ps[i].settings.name
                 && plot(ps[i]) == Some(ts[i].graph)
                 && ts[i].value == TabValue(i)
    decreases |order|
  {
    if order != [] {
      var init := order[..|order| - 1];
      var tb := order[|order| - 1];
      TabsOfMeaning(init, plot);
      assert order == init + [tb];
      PlottedAppend(init, [tb], plot);
      assert Plotted([tb], plot) == (if plot(tb).Some? then [tb] else []) by {
        assert [tb][1..] == [];
      }
    }
  }

  /** Different counters give different tab values, so the selected value
      names exactly one tab. */
  lemma SelectedTabUnique(ts: seq<Tab>, tid: int)
    requires |ts| > 0
    requires forall i :: 0 <= i < |ts| ==> ts[i].value == TabValue(i)
    ensures 0 <= tid % |ts| < |ts| && ts[tid % |ts|].value == TabValue(tid % |ts|)
    ensures forall i :: 0 <= i < |ts| && ts[i].value == TabValue(tid % |ts|) ==> i == tid % |ts|
  {
    var k := tid % |ts|;
    forall i | 0 <= i < |ts| && ts[i].value == TabValue(k) ensures i == k {
      assert TabValue(i)[2..] == NatToString(i);
      assert TabValue(k)[2..] == NatToString(k);
      NatToStringInjective(i, k);
    }
  }
}
