/** The directory rule of `RemoteSheetMultiInterface.poll`
    (dashboard/interface.py:208-220): each row of the directory worksheet
    `[name, id1, id2, ...]` names either one remote spreadsheet or a list of
    them. Cells are optional strings (`None` is an empty
    cell); the fetches that follow are not modelled. */
module Discovery {
  import opened Wrappers

  /** A `RemoteSheetInterface` (one sheet id) or a
      `RemoteListSheetInterface` (several), with the name the row gives it. */
  datatype Source = SingleRemote(name: string, sheetId: string) | RemoteList(name: string, sheetIds: seq<string>)

  /** The values of the non-empty cells, in column order. */
  function Present(cells: seq<Option<string>>): (vs: seq<string>)
    ensures |vs| <= |cells|
  {
    if cells == [] then []
    else
      (if cells[0].Some? then [cells[0].value] else []) + Present(cells[1..])
  }

  /** The present values are exactly the values of the non-empty cells. */
  lemma {:induction false} PresentMembers(cells: seq<Option<string>>, x: string)
    ensures x in Present(cells) <==> Some(x) in cells
  {
    if cells != [] {
      PresentMembers(cells[1..], x);
      assert cells == [cells[0]] + cells[1..];
    }
  }

  /** The sheet ids of a source. */
  function SheetIds(s: Source): seq<string> {
    match s
    case SingleRemote(_, id) => [id]
    case RemoteList(_, ids) => ids
  }

  /** The source a directory row describes, if any. A row describes one iff
      it has at least two cells, a non-empty first cell and at least one
      non-empty cell after it; the source is named by the first cell, holds
      exactly the non-empty trailing cells in column order, and is a single
      remote iff there is exactly one. */
  function RowSource(row: seq<Option<string>>): (r: Option<Source>)
    ensures r.Some? <==> |row| > 1 && row[0].Some? && |Present(row[1..])| > 0
    ensures r.Some? ==>
              && r.value.name == row[0].value
              && SheetIds(r.value) == Present(row[1..])
              && (r.value.SingleRemote? <==> |Present(row[1..])| == 1)
  {
    if |row| > 1 then
      var args := Present(row[1..]);
      if row[0].Some? && |args| == 1 then Some(SingleRemote(row[0].value, args[0]))
      else if row[0].Some? && |args| > 1 then Some(RemoteList(row[0].value, args))
      else None
    else None
  }

  /** The values `f` gives the rows, in row order, where it gives one. */
  function Collected(rows: seq<seq<Option<string>>>, f: seq<Option<string>> -> Option<Source>): seq<Source> {
    if rows == [] then []
    else
      var s := f(rows[|rows| - 1]);
      Collected(rows[..|rows| - 1], f) + (if s.Some? then [s.value] else [])
  }

  /** The sources of the rows, in row order. */
  function Discovered(rows: seq<seq<Option<string>>>): seq<Source> {
    Collected(rows, RowSource)
  }

  /** The discovery loop: the interfaces found, one per describing row. */
  class RemoteDirectory {
    var interfaces: seq<Source>

    constructor ()
      ensures interfaces == []
    {
      interfaces := [];
    }

    method Discover(rows: seq<seq<Option<string>>>)
      modifies this
      ensures interfaces == Discovered(rows)
    {
      interfaces := [];
      for i := 0 to |rows|
        invariant interfaces == Discovered(rows[..i])
      {
        var r := rows[i];
        assert rows[..i + 1][..i] == rows[..i];
        if |r| > 1 {
          var n := r[0];
          var args := Present(r[1..]);
          if n.Some? && |args| == 1 {
            interfaces := interfaces + [SingleRemote(n.value, args[0])];
          } else if n.Some? && |args| > 1 {
            interfaces := interfaces + [RemoteList(n.value, args)];
          }
        }
      }
      assert rows[..|rows|] == rows;
    }
  }

  // ---------------------------------------------------------------------

  /** Dropping empty cells keeps the order: it distributes over
      concatenation. */
  lemma {:induction false} PresentAppend(a: seq<Option<string>>, b: seq<Option<string>>)
    ensures Present(a + b) == Present(a) + Present(b)
  {
    if a == [] {
      assert a + b == b;
    } else {
      PresentAppend(a[1..], b);
      var h := if a[0].Some? then [a[0].value] else [];
      assert Present(a + b) == h + Present(a[1..] + b) by {
        assert (a + b)[0] == a[0] && (a + b)[1..] == a[1..] + b;
      }
      assert Present(a) == h + Present(a[1..]);
    }
  }

  /** A value is collected iff `f` gives it for some row. */
  lemma {:induction false} CollectedFromRows(rows: seq<seq<Option<string>>>, f: seq<Option<string>> -> Option<Source>, s: Source)
    ensures s in Collected(rows, f) <==> exists i :: 0 <= i < |rows| && f(rows[i]) == Some(s)
    decreases |rows|
  {
    if rows != [] {
      var n := |rows| - 1;
      var init := rows[..n];
      var r := f(rows[n]);
      var tail := if r.Some? then [r.value] else [];
      assert Collected(rows, f) == Collected(init, f) + tail;
      CollectedFromRows(init, f, s);
      if s in Collected(init, f) {
        var i :| 0 <= i < |init| && f(init[i]) == Some(s);
        assert rows[i] == init[i];
      } else if s in tail {
        assert f(rows[n]) == Some(s);
      }
      if exists i :: 0 <= i < |rows| && f(rows[i]) == Some(s) {
        var i :| 0 <= i < |rows| && f(rows[i]) == Some(s);
        if i < n {
          assert init[i] == rows[i];
        } else {
          assert s in tail;
        }
      }
    }
  }

  /** A source is discovered iff some row describes it. */
  lemma DiscoveredFromRows(rows: seq<seq<Option<string>>>, s: Source)
    ensures s in Discovered(rows) <==> exists i :: 0 <= i < |rows| && RowSource(rows[i]) == Some(s)
  {
    CollectedFromRows(rows, RowSource, s);
  }

  /** Collecting two pieces of rows is collecting one after the other. */
  lemma {:induction false} CollectedAppend(a: seq<seq<Option<string>>>, b: seq<seq<Option<string>>>, f: seq<Option<string>> -> Option<Source>)
    ensures Collected(a + b, f) == Collected(a, f) + Collected(b, f)
    decreases |b|
  {
    if b == [] {
      assert a + b == a;
    } else {
      var b' := b[..|b| - 1];
      CollectedAppend(a, b', f);
      assert (a + b)[..|a + b| - 1] == a + b';
      assert (a + b)[|a + b| - 1] == b[|b| - 1];
    }
  }

  /** The rows of two directory pieces are discovered one after the other:
      discovery keeps the row order. */
  lemma DiscoveredAppend(a: seq<seq<Option<string>>>, b: seq<seq<Option<string>>>)
    ensures Discovered(a + b) == Discovered(a) + Discovered(b)
  {
    CollectedAppend(a, b, RowSource);
  }

  /** Every row that fails the rule (too short, unnamed, or with no id)
      contributes nothing. */
  lemma SkippedRow(row: seq<Option<string>>)
    requires |row| <= 1 || row[0].None? || |Present(row[1..])| == 0
    ensures Discovered([row]) == []
  {
    assert [row][..0] == [];
    assert Collected([row], RowSource) == Collected([], RowSource) + [];
  }
}
