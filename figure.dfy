/**
 * The figure callback of the Dash table view (`update_figure` in app-dash.py):
 * one marker-colour list with an entry per table row, the default blue for every
 * row and orange for the selected ones, shared by the three bar panels
 * (life expectancy, GDP per capita, population) drawn against the countries.
 */
module Figure {
  import opened Wrappers

  const DefaultColour: string := "#0074D9"
  const HighlightColour: string := "#FF851B"

  /** One row of the table, with the columns the table shows. */
  datatype TableRow = TableRow(country: string, continent: string, lifeExp: real, gdpPercap: real, pop: int, year: int)

  /** One bar panel: the countries, the plotted column and the marker colours. */
  datatype Trace = Trace(x: seq<string>, y: seq<real>, marker: array<string>)

  /**
   * What the callback produces: the three panels, or the error it raises — an index
   * outside the colour list, or the missing `country` column of an empty table.
   */
  datatype FigureResult = Rendered(traces: seq<Trace>) | IndexError | KeyError

  /** A list index Python accepts for a list of length `n`; negative ones count from the end. */
  predicate ValidIndex(i: int, n: int)
  {
    -n <= i < n
  }

  function Resolve(i: int, n: int): (j: int)
    requires ValidIndex(i, n)
    ensures 0 <= j < n
    ensures j == i || j == i + n
  {
    if i < 0 then i + n else i
  }

  predicate AllValid(selected: seq<int>, n: int)
  {
    forall k :: 0 <= k < |selected| ==> ValidIndex(selected[k], n)
  }

  /** Row `j` is named by one of the selected indices. */
  predicate Highlighted(j: int, n: int, selected: seq<int>)
  {
    exists k :: 0 <= k < |selected| && ValidIndex(selected[k], n) && Resolve(selected[k], n) == j
  }

  /** The colour row `j` must get. */
  function ColourOf(j: int, n: int, selected: seq<int>): string
  {
    if Highlighted(j, n, selected) then HighlightColour else DefaultColour
  }

  /** The marker-colour list: all default, then each selected index overwritten in turn. */
  method MarkerColours(n: nat, selected: seq<int>) returns (colours: array<string>, ok: bool)
    ensures fresh(colours) && colours.Length == n
    ensures ok <==> AllValid(selected, n)
    ensures ok ==> forall j :: 0 <= j < n ==> colours[j] == ColourOf(j, n, selected)
  {
    colours := new string[n](_ => DefaultColour);
    ok := true;
    var len: int := n;
    var i := 0;
    while i < |selected|
      invariant 0 <= i <= |selected|
      invariant AllValid(selected[..i], n)
      invariant forall j :: 0 <= j < n ==> colours[j] == ColourOf(j, n, selected[..i])
    {
      var idx := selected[i];
      if !(-len <= idx < len) {
        ok := false;
        return;
      }
      colours[if idx < 0 then idx + len else idx] := HighlightColour;
      assert selected[..i + 1] == selected[..i] + [idx];
      forall j | 0 <= j < n
        ensures Highlighted(j, n, selected[..i + 1]) <==> Highlighted(j, n, selected[..i]) || j == Resolve(idx, n)
      {
        if Highlighted(j, n, selected[..i + 1]) {
          var k :| 0 <= k < i + 1 && ValidIndex(selected[..i + 1][k], n) && Resolve(selected[..i + 1][k], n) == j;
          if k < i {
            assert selected[..i][k] == selected[..i + 1][k];
          }
        }
        if Highlighted(j, n, selected[..i]) {
          var k :| 0 <= k < i && ValidIndex(selected[..i][k], n) && Resolve(selected[..i][k], n) == j;
          assert selected[..i + 1][k] == selected[..i][k];
        }
        if j == Resolve(idx, n) {
          assert selected[..i + 1][i] == idx;
        }
      }
      i := i + 1;
    }
    assert selected[..i] == selected;
  }

  function Countries(rows: seq<TableRow>): (r: seq<string>)
    ensures |r| == |rows| && forall i :: 0 <= i < |rows| ==> r[i] == rows[i].country
  {
    seq(|rows|, i requires 0 <= i < |rows| => rows[i].country)
  }

  function LifeExpectancies(rows: seq<TableRow>): (r: seq<real>)
    ensures |r| == |rows| && forall i :: 0 <= i < |rows| ==> r[i] == rows[i].lifeExp
  {
    seq(|rows|, i requires 0 <= i < |rows| => rows[i].lifeExp)
  }

  function GdpPerCapita(rows: seq<TableRow>): (r: seq<real>)
    ensures |r| == |rows| && forall i :: 0 <= i < |rows| ==> r[i] == rows[i].gdpPercap
  {
    seq(|rows|, i requires 0 <= i < |rows| => rows[i].gdpPercap)
  }

  function Populations(rows: seq<TableRow>): (r: seq<real>)
    ensures |r| == |rows| && forall i :: 0 <= i < |rows| ==> r[i] == rows[i].pop as real
  {
    seq(|rows|, i requires 0 <= i < |rows| => rows[i].pop as real)
  }

  /**
   * `update_figure`: the colour list is built first (raising on a bad index), then the
   * three panels, which raise on an empty table because it has no `country` column.
   */
  method UpdateFigure(rows: seq<TableRow>, selectedRows: Option<seq<int>>) returns (result: FigureResult)
    ensures var selected := if selectedRows.Some? then selectedRows.value else [];
            (result.IndexError? <==> !AllValid(selected, |rows|)) &&
            (result.KeyError? <==> AllValid(selected, |rows|) && rows == [])
    ensures result.Rendered? ==>
            var selected := if selectedRows.Some? then selectedRows.value else [];
            |result.traces| == 3 &&
            var marker := result.traces[0].marker;
            fresh(marker) && marker.Length == |rows| &&
            result.traces[1].marker == marker && result.traces[2].marker == marker &&
            (forall j :: 0 <= j < |rows| ==> marker[j] == ColourOf(j, |rows|, selected)) &&
            result.traces[0].x == Countries(rows) && result.traces[0].y == LifeExpectancies(rows) &&
            result.traces[1].x == Countries(rows) && result.traces[1].y == GdpPerCapita(rows) &&
            result.traces[2].x == Countries(rows) && result.traces[2].y == Populations(rows)
  {
    var selected := if selectedRows.Some? then selectedRows.value else [];
    var colours, ok := MarkerColours(|rows|, selected);
    if !ok {
      return IndexError;
    }
    if rows == [] {
      return KeyError;
    }
    var countries := Countries(rows);
    result := Rendered([
      Trace(countries, LifeExpectancies(rows), colours),
      Trace(countries, GdpPerCapita(rows), colours),
      Trace(countries, Populations(rows), colours)
    ]);
  }

  /** Every selected row is highlighted, and only the selected rows are. */
  lemma ColourOfSelection(n: nat, selected: seq<int>, j: int)
    requires 0 <= j < n
    ensures ColourOf(j, n, selected) == HighlightColour <==> (j in selected || j - n in selected)
  {
    if j in selected {
      var k :| 0 <= k < |selected| && selected[k] == j;
      assert Resolve(selected[k], n) == j;
    }
    if j - n in selected {
      var k :| 0 <= k < |selected| && selected[k] == j - n;
      assert Resolve(selected[k], n) == j;
    }
    if Highlighted(j, n, selected) {
      var k :| 0 <= k < |selected| && ValidIndex(selected[k], n) && Resolve(selected[k], n) == j;
      assert selected[k] == j || selected[k] == j - n;
    }
  }

  /** With non-negative indices only, row `j` is orange exactly when `j` is selected. */
  lemma ColourOfNonNegativeSelection(n: nat, selected: seq<int>, j: int)
    requires forall k :: 0 <= k < |selected| ==> 0 <= selected[k] < n
    requires 0 <= j < n
    ensures ColourOf(j, n, selected) == (if j in selected then HighlightColour else DefaultColour)
  {
    ColourOfSelection(n, selected, j);
    assert j - n !in selected;
  }

  /** An index at or beyond the table length, or below its negation, makes the callback fail. */
  lemma OutOfRangeFails(n: nat, selected: seq<int>, k: int)
    requires 0 <= k < |selected| && (selected[k] >= n || selected[k] < -(n as int))
    ensures !AllValid(selected, n)
  {
  }
}
