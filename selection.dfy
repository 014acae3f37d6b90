/**
 * The chart-click callback of the Dash table view (`update_selected_rows` in
 * app-dash.py): each clicked bar toggles its row in the table's list of selected
 * rows, removing the first occurrence when present and appending it otherwise.
 */
module Selection {
  import opened Wrappers

  /** One clicked point of the chart. */
  datatype Point = Point(pointNumber: int)

  /** The chart's click event; an absent or empty event is `None`. */
  datatype ClickData = ClickData(points: seq<Point>)

  predicate NoDuplicates(s: seq<int>)
  {
    forall i, j :: 0 <= i < j < |s| ==> s[i] != s[j]
  }

  /** The position of the first occurrence of `p`. */
  function IndexOf(s: seq<int>, p: int): (i: nat)
    requires p in s
    ensures i < |s| && s[i] == p
    ensures forall k :: 0 <= k < i ==> s[k] != p
  {
    if s[0] == p then 0 else 1 + IndexOf(s[1..], p)
  }

  /** The list without the first occurrence of `p`, as `remove` leaves it. */
  function RemoveFirst(s: seq<int>, p: int): seq<int>
    requires p in s
  {
    var i := IndexOf(s, p);
    s[..i] + s[i + 1..]
  }

  /** Removal takes away one copy of `p` and nothing else. */
  lemma RemoveFirstMultiset(s: seq<int>, p: int)
    requires p in s
    ensures |RemoveFirst(s, p)| == |s| - 1
    ensures multiset(RemoveFirst(s, p)) == multiset(s) - multiset{p}
  {
    var i := IndexOf(s, p);
    assert s == s[..i] + [p] + s[i + 1..];
  }

  /** One iteration of the callback's loop. */
  function Toggle(s: seq<int>, p: int): seq<int>
  {
    if p in s then RemoveFirst(s, p) else s + [p]
  }

  /** The callback's loop over the clicked points, in click order. */
  function ToggleAll(s: seq<int>, points: seq<int>): seq<int>
    decreases |points|
  {
    if points == [] then s else ToggleAll(Toggle(s, points[0]), points[1..])
  }

  function PointNumbers(points: seq<Point>): (r: seq<int>)
    ensures |r| == |points|
    ensures forall i :: 0 <= i < |points| ==> r[i] == points[i].pointNumber
  {
    seq(|points|, i requires 0 <= i < |points| => points[i].pointNumber)
  }

  /** The table's `selected_rows` list, which the callback changes in place and returns. */
  class SelectedRows {
    var rows: seq<int>

    constructor (rows: seq<int>)
      ensures this.rows == rows
    {
      this.rows := rows;
    }

    /** `remove`: only called when `p` is present (it raises otherwise). */
    method Remove(p: int)
      requires p in rows
      modifies this
      ensures rows == RemoveFirst(old(rows), p)
    {
      var i := IndexOf(rows, p);
      rows := rows[..i] + rows[i + 1..];
    }

    method Append(p: int)
      modifies this
      ensures rows == old(rows) + [p]
    {
      rows := rows + [p];
    }
  }

  /** `update_selected_rows`: toggles each clicked point in turn and returns the same list object. */
  method UpdateSelectedRows(clickData: Option<ClickData>, selectedRows: SelectedRows) returns (r: SelectedRows)
    modifies selectedRows
    ensures r == selectedRows
    ensures clickData.None? ==> selectedRows.rows == old(selectedRows.rows)
    ensures clickData.Some? ==>
            selectedRows.rows == ToggleAll(old(selectedRows.rows), PointNumbers(clickData.value.points))
  {
    if clickData.Some? {
      var points := PointNumbers(clickData.value.points);
      for i := 0 to |points|
        invariant ToggleAll(selectedRows.rows, points[i..]) == ToggleAll(old(selectedRows.rows), points)
      {
        assert points[i..][1..] == points[i + 1..];
        var p := points[i];
        if p in selectedRows.rows {
          selectedRows.Remove(p);
        } else {
          selectedRows.Append(p);
        }
      }
      assert points[|points|..] == [];
    }
    r := selectedRows;
  }

  // ---------------------------------------------------------------------------
  // Properties
  // ---------------------------------------------------------------------------

  /**
   * Toggling a present point removes one copy of it, the first, and keeps everything
   * else in order; toggling an absent point appends it at the end.
   */
  lemma ToggleEffect(s: seq<int>, p: int)
    ensures p in s ==> |Toggle(s, p)| == |s| - 1 &&
                       multiset(Toggle(s, p)) == multiset(s) - multiset{p} &&
                       (forall k :: 0 <= k < IndexOf(s, p) ==> Toggle(s, p)[k] == s[k] != p) &&
                       (forall k :: IndexOf(s, p) <= k < |s| - 1 ==> Toggle(s, p)[k] == s[k + 1])
    ensures p !in s ==> Toggle(s, p) == s + [p] && multiset(Toggle(s, p)) == multiset(s) + multiset{p}
  {
    if p in s {
      RemoveFirstMultiset(s, p);
    }
  }

  /** Without duplicates, a toggle flips the membership of the clicked point only and adds no duplicate. */
  lemma ToggleFlipsMembership(s: seq<int>, p: int)
    requires NoDuplicates(s)
    ensures NoDuplicates(Toggle(s, p))
    ensures forall q :: q in Toggle(s, p) <==> ((q in s) != (q == p))
  {
    var r := Toggle(s, p);
    if p in s {
      var i := IndexOf(s, p);
      assert forall a :: 0 <= a < |r| ==> r[a] == if a < i then s[a] else s[a + 1];
      forall q
        ensures q in r <==> ((q in s) != (q == p))
      {
        if q in r {
          var a :| 0 <= a < |r| && r[a] == q;
          var b := if a < i then a else a + 1;
          assert s[b] == q && b != i;
        }
        if q in s && q != p {
          var b :| 0 <= b < |s| && s[b] == q;
          assert b != i;
          var a := if b < i then b else b - 1;
          assert r[a] == q;
        }
      }
    } else {
      assert r == s + [p];
      forall i, j | 0 <= i < j < |r|
        ensures r[i] != r[j]
      {
        if j == |s| {
          assert r[i] == s[i];
        }
      }
    }
  }

  /** Parity of a point's clicks: an odd number of occurrences flips its membership. */
  predicate OddCount(points: seq<int>, q: int)
  {
    multiset(points)[q] % 2 == 1
  }

  lemma ClickCount(points: seq<int>, q: int)
    requires points != []
    ensures multiset(points)[q] == multiset(points[1..])[q] + (if q == points[0] then 1 else 0)
  {
    assert points == [points[0]] + points[1..];
  }

  lemma ParityStep(s: seq<int>, t: seq<int>, r: seq<int>, points: seq<int>)
    requires points != []
    requires forall q :: q in t <==> ((q in s) != (q == points[0]))
    requires forall q :: q in r <==> ((q in t) != OddCount(points[1..], q))
    ensures forall q :: q in r <==> ((q in s) != OddCount(points, q))
  {
    forall q
      ensures q in r <==> ((q in s) != OddCount(points, q))
    {
      ClickCount(points, q);
    }
  }

  /**
   * Starting from a list without duplicates, after the clicks a point is selected exactly
   * when it was selected before or was clicked an odd number of times, not both; the list
   * still has no duplicates.
   */
  lemma {:induction false} ToggleAllParity(s: seq<int>, points: seq<int>)
    requires NoDuplicates(s)
    ensures NoDuplicates(ToggleAll(s, points))
    ensures forall q :: q in ToggleAll(s, points) <==> ((q in s) != OddCount(points, q))
    decreases |points|
  {
    if points != [] {
      var p := points[0];
      var t := Toggle(s, p);
      ToggleFlipsMembership(s, p);
      ToggleAllParity(t, points[1..]);
      ParityStep(s, t, ToggleAll(t, points[1..]), points);
    }
  }

  /** Clicking the same point twice in one event leaves every membership as it was. */
  lemma DoubleClickKeepsMembership(s: seq<int>, p: int)
    requires NoDuplicates(s)
    ensures forall q :: q in ToggleAll(s, [p, p]) <==> q in s
  {
    ToggleAllParity(s, [p, p]);
    forall q
      ensures !OddCount([p, p], q)
    {
      assert multiset([p, p])[q] == if q == p then 2 else 0;
    }
  }

  /** With a duplicated entry a double click does change membership, so the condition above is needed. */
  lemma DoubleClickWithDuplicate()
    ensures 7 in [7, 7] && 7 !in ToggleAll([7, 7], [7, 7])
  {
    assert Toggle([7, 7], 7) == [7];
    assert Toggle([7], 7) == [];
  }

  lemma ToggleExamples()
    ensures ToggleAll([1, 3, 5], [3]) == [1, 5]
    ensures ToggleAll([1, 5], [3]) == [1, 5, 3]
  {
    assert Toggle([1, 3, 5], 3) == [1, 5];
  }
}
