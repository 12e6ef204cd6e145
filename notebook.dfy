/**
 * The cell operations of the notebook tab (src/components/tabs/notebook-tab/NotebookTabView.tsx).
 * A notebook is an ordered list of cell ids plus a map from id to cell. Each operation builds
 * the new notebook from the current one and hands it to `setTabData`; here the tab is an object
 * whose `data` field each operation assigns. The query a cell runs is answered by `execute`.
 */
module Notebooks {
  import opened Wrappers
  import opened JsMaps

  /**
   * What a query answered: `success`, `message`, and the returned rows (`rows` stands for the
   * row set, which the notebook only passes on).
   */
  datatype QueryOutcome = QueryOutcome(success: bool, message: string, rows: Option<nat>)

  /** `CellResult`: whether the cell is running, and what its last run answered. */
  datatype CellResult = CellResult(loading: bool, result: Option<QueryOutcome>)

  datatype CellData = CellData(id: string, data: string, result: CellResult)

  /** `NotebookTabData`. */
  datatype NotebookTabData = NotebookTabData(cells: seq<string>, cellDataMap: JsMap<string, CellData>)
  {
    /** Each cell is stored under its own id, and every listed cell has its data. */
    ghost predicate Valid() {
      && cellDataMap.Valid()
      && (forall id :: id in cellDataMap.entries ==> cellDataMap.entries[id].id == id)
      && (forall i :: 0 <= i < |cells| ==> cells[i] in cellDataMap.entries)
    }
  }

  /** What `dataSource.executeQuery` did: resolved to an answer, or threw an error with or without a message. */
  datatype Execution = Resolved(outcome: QueryOutcome) | Rejected(message: Option<string>)

  /** `{ loading: false }`. */
  const Idle := CellResult(false, None)

  /** `{ loading: true }`. */
  const Running := CellResult(true, None)

  const DefaultFailure := "Failed to execute query."

  function EmptyNotebook(): (d: NotebookTabData)
    ensures d.Valid() && d.cells == []
  {
    NotebookTabData([], Empty())
  }

  // ---------------------------------------------------------------------------
  // The new notebook each operation builds
  // ---------------------------------------------------------------------------

  /** `createNewCell` (lines 57-81): the fresh id at the end, with an empty idle cell. */
  function WithNewCell(base: NotebookTabData, newCellId: string): (r: NotebookTabData)
    ensures r.cells == base.cells + [newCellId]
    ensures r.cellDataMap.Get(newCellId) == Some(CellData(newCellId, "", Idle))
    ensures forall id :: id != newCellId ==> r.cellDataMap.Get(id) == base.cellDataMap.Get(id)
    ensures base.Valid() ==> r.Valid()
  {
    NotebookTabData(base.cells + [newCellId], base.cellDataMap.Set(newCellId, CellData(newCellId, "", Idle)))
  }

  /**
   * `removeCell` (lines 83-96): every occurrence of the id leaves the list, the other ids stay
   * in their order and with their multiplicity (see `WithoutAppend`), and its data goes.
   */
  function WithoutCell(d: NotebookTabData, cellId: string): (r: NotebookTabData)
    ensures forall id :: id in r.cells <==> id in d.cells && id != cellId
    ensures |r.cells| <= |d.cells|
    ensures r.cells == Without(d.cells, cellId)
    ensures multiset(r.cells) == multiset(d.cells)[cellId := 0]
    ensures cellId !in d.cells ==> r.cells == d.cells
    ensures r.cellDataMap.Get(cellId) == None
    ensures forall id :: id != cellId ==> r.cellDataMap.Get(id) == d.cellDataMap.Get(id)
    ensures d.Valid() ==> r.Valid()
  {
    var r := NotebookTabData(Without(d.cells, cellId), d.cellDataMap.Delete(cellId));
    WithoutCount(d.cells, cellId);
    assert d.Valid() ==> r.Valid() by {
      if d.Valid() {
        forall i | 0 <= i < |r.cells| ensures r.cells[i] in r.cellDataMap.entries {
          assert r.cells[i] in d.cells;
        }
      }
    }
    r
  }

  /** `updateCellContent` (lines 112-121): new text, the old result kept or else idle. */
  function WithContent(d: NotebookTabData, cellId: string, content: string): (r: NotebookTabData)
    ensures r.cells == d.cells
    ensures r.cellDataMap.Get(cellId).Some? && r.cellDataMap.Get(cellId).value.data == content
    ensures r.cellDataMap.Get(cellId).value.result
         == if d.cellDataMap.Get(cellId).Some? then d.cellDataMap.Get(cellId).value.result else Idle
    ensures forall id :: id != cellId ==> r.cellDataMap.Get(id) == d.cellDataMap.Get(id)
    ensures d.Valid() ==> r.Valid()
  {
    var existing := d.cellDataMap.Get(cellId);
    var next := CellData(cellId, content, if existing.Some? then existing.value.result else Idle);
    d.(cellDataMap := d.cellDataMap.Set(cellId, next))
  }

  /** `updateCellResult` (lines 123-132): only the result of a cell that has data. */
  function WithResult(d: NotebookTabData, cellId: string, result: CellResult): (r: NotebookTabData)
    ensures d.cellDataMap.Get(cellId).None? ==> r == d
    ensures d.cellDataMap.Get(cellId).Some? ==>
              && r.cells == d.cells
              && r.cellDataMap.Get(cellId) == Some(d.cellDataMap.Get(cellId).value.(result := result))
    ensures forall id :: id != cellId ==> r.cellDataMap.Get(id) == d.cellDataMap.Get(id)
    ensures d.Valid() ==> r.Valid() && r.cellDataMap.keys == d.cellDataMap.keys
  {
    match d.cellDataMap.Get(cellId)
    case None => d
    case Some(existing) => d.(cellDataMap := d.cellDataMap.Set(cellId, existing.(result := result)))
  }

  /** Setting a result twice leaves only the second. */
  lemma WithResultTwice(d: NotebookTabData, cellId: string, first: CellResult, second: CellResult)
    requires d.Valid()
    ensures WithResult(WithResult(d, cellId, first), cellId, second) == WithResult(d, cellId, second)
  {
    if d.cellDataMap.Get(cellId).Some? {
      var existing := d.cellDataMap.Get(cellId).value;
      var m1 := d.cellDataMap.Set(cellId, existing.(result := first));
      assert m1.entries[cellId := existing.(result := second)] == d.cellDataMap.entries[cellId := existing.(result := second)];
    }
  }

  /** The result a finished run leaves (lines 141-150). */
  function Finished(execution: Execution): (r: CellResult)
    ensures !r.loading && r.result.Some?
    ensures execution.Resolved? ==> r.result.value == execution.outcome
    ensures execution.Rejected? ==> !r.result.value.success && r.result.value.rows.None?
    ensures execution.Rejected? && execution.message.Some? ==> r.result.value.message == execution.message.value
    ensures execution.Rejected? && execution.message.None? ==> r.result.value.message == DefaultFailure
  {
    match execution
    case Resolved(outcome) => CellResult(false, Some(outcome))
    case Rejected(message) =>
      CellResult(false, Some(QueryOutcome(false, if message.Some? then message.value else DefaultFailure, None)))
  }

  /** The notebook after `runCell(cellId)`. */
  function RanCell(d: NotebookTabData, cellId: string, execute: string -> Execution): NotebookTabData {
    match d.cellDataMap.Get(cellId)
    case None => d
    case Some(cell) => WithResult(d, cellId, Finished(execute(cell.data)))
  }

  /** The notebook after running the cells `ids`, in order. */
  function RanCells(d: NotebookTabData, ids: seq<string>, execute: string -> Execution): NotebookTabData
    decreases |ids|
  {
    if ids == [] then d
    else RanCell(RanCells(d, ids[..|ids| - 1], execute), ids[|ids| - 1], execute)
  }

  lemma SliceSnoc(s: seq<string>, from: nat, to: nat)
    requires from <= to < |s|
    ensures s[from..to + 1] == s[from..to] + [s[to]]
  {
  }

  /** Running the cells from `from` up to and including `to`, in terms of the run before `to`. */
  lemma RanNext(d: NotebookTabData, from: nat, to: nat, execute: string -> Execution)
    requires from <= to < |d.cells|
    ensures RanCells(d, d.cells[from..to + 1], execute)
         == RanCell(RanCells(d, d.cells[from..to], execute), d.cells[to], execute)
  {
    SliceSnoc(d.cells, from, to);
    RanCellsSnoc(d, d.cells[from..to], d.cells[to], execute);
  }

  lemma RanCellsSnoc(d: NotebookTabData, ids: seq<string>, id: string, execute: string -> Execution)
    ensures RanCells(d, ids + [id], execute) == RanCell(RanCells(d, ids, execute), id, execute)
  {
    assert (ids + [id])[..|ids|] == ids;
  }

  /**
   * Running a list of cells keeps the list and the set of stored cells. Each cell that was run
   * and has data ends with its own query's finished result; every other cell is untouched.
   */
  lemma {:induction false} RanCellsEffect(d: NotebookTabData, ids: seq<string>, execute: string -> Execution, k: string)
    requires d.Valid()
    ensures var r := RanCells(d, ids, execute);
            && r.Valid()
            && r.cells == d.cells
            && r.cellDataMap.keys == d.cellDataMap.keys
            && (k !in ids || d.cellDataMap.Get(k).None? ==> r.cellDataMap.Get(k) == d.cellDataMap.Get(k))
            && (k in ids && d.cellDataMap.Get(k).Some? ==>
                  var cell := d.cellDataMap.Get(k).value;
                  r.cellDataMap.Get(k) == Some(cell.(result := Finished(execute(cell.data)))))
    decreases |ids|
  {
    if ids != [] {
      var init, last := ids[..|ids| - 1], ids[|ids| - 1];
      RanCellsEffect(d, init, execute, k);
      RanCellsEffect(d, init, execute, last);
      assert ids == init + [last];
    }
  }

  /**
   * The notebook `runCellAndBelow` leaves as the code is written: every update in it is built
   * from `d`, the notebook of the render that created the handler (lines 33-44, 123-132), so
   * each run that finds its cell replaces the whole notebook with `d` plus that one result.
   */
  function SnapshotRanCells(d: NotebookTabData, ids: seq<string>, execute: string -> Execution): NotebookTabData
    decreases |ids|
  {
    if ids == [] then d
    else SnapshotStep(SnapshotRanCells(d, ids[..|ids| - 1], execute), d, ids[|ids| - 1], execute)
  }

  /** One run from the snapshot `d`: a cell with data replaces `current` with `d` plus its result. */
  function SnapshotStep(current: NotebookTabData, d: NotebookTabData, cellId: string,
                        execute: string -> Execution): NotebookTabData
  {
    if d.cellDataMap.Get(cellId).Some? then RanCell(d, cellId, execute) else current
  }

  lemma SnapshotRanNext(d: NotebookTabData, from: nat, to: nat, execute: string -> Execution)
    requires from <= to < |d.cells|
    ensures SnapshotRanCells(d, d.cells[from..to + 1], execute)
         == SnapshotStep(SnapshotRanCells(d, d.cells[from..to], execute), d, d.cells[to], execute)
  {
    SliceSnoc(d.cells, from, to);
    assert (d.cells[from..to] + [d.cells[to]])[..to - from] == d.cells[from..to];
  }

  /** Two idle cells `a` then `b`, as `createNewCell` makes them. */
  function TwoNewCells(a: string, b: string): (d: NotebookTabData)
    ensures d.Valid() && d.cells == [a, b]
  {
    WithNewCell(WithNewCell(EmptyNotebook(), a), b)
  }

  /**
   * Running from `a` over the cells `a`, `b`: as written, `b`'s run puts `a` back to idle;
   * run one after the other, `a` keeps its finished result.
   */
  lemma SnapshotLosesEarlierResult(a: string, b: string, execute: string -> Execution)
    requires a != b
    ensures var d := TwoNewCells(a, b);
            && IndexOf(d.cells, a) == 0
            && SnapshotRanCells(d, d.cells[0..], execute).cellDataMap.Get(a) == Some(CellData(a, "", Idle))
            && RanCells(d, d.cells[0..], execute).cellDataMap.Get(a) == Some(CellData(a, "", Finished(execute(""))))
            && Finished(execute("")) != Idle
  {
    var d := TwoNewCells(a, b);
    assert d.cells[0..] == [a, b];
    assert d.cellDataMap.Get(a) == Some(CellData(a, "", Idle));
    assert [a, b][..1] == [a];
    RanCellsEffect(d, [a, b], execute, a);
  }

  // ---------------------------------------------------------------------------
  // moveCell's two splices
  // ---------------------------------------------------------------------------

  /** `s.indexOf(x)`: the first position of `x`, or -1. */
  function IndexOf(s: seq<string>, x: string): (i: int)
    ensures -1 <= i < |s|
    ensures i == -1 <==> x !in s
    ensures 0 <= i ==> s[i] == x && x !in s[..i]
    decreases |s|
  {
    if s == [] then -1
    else if s[0] == x then 0
    else
      var j := IndexOf(s[1..], x);
      assert j >= 0 ==> s[..j + 1] == [s[0]] + s[1..][..j];
      if j == -1 then -1 else j + 1
  }

  /** `s` after `splice(i, 1)`. */
  function Removed(s: seq<string>, i: nat): seq<string>
    requires i < |s|
  {
    s[..i] + s[i + 1..]
  }

  /** `s` after `splice(j, 0, x)`. */
  function Inserted(s: seq<string>, j: nat, x: string): seq<string>
    requires j <= |s|
  {
    s[..j] + [x] + s[j..]
  }

  /** `s` with the elements at `i` and `j` exchanged. */
  function Swap(s: seq<string>, i: nat, j: nat): (r: seq<string>)
    requires i < |s| && j < |s|
    ensures |r| == |s| && r[i] == s[j] && r[j] == s[i]
    ensures forall k :: 0 <= k < |s| && k != i && k != j ==> r[k] == s[k]
  {
    s[i := s[j]][j := s[i]]
  }

  /** `s` with the neighbours at `lo` and `lo + 1` exchanged, written as slices. */
  function SwappedAt(s: seq<string>, lo: nat): seq<string>
    requires lo + 1 < |s|
  {
    s[..lo] + [s[lo + 1], s[lo]] + s[lo + 2..]
  }

  lemma SwapIsSwappedAt(s: seq<string>, i: nat, j: nat)
    requires i < |s| && j < |s| && (j + 1 == i || j == i + 1)
    ensures Swap(s, i, j) == SwappedAt(s, if i < j then i else j)
  {
    var lo := if i < j then i else j;
    var r := SwappedAt(s, lo);
    assert |r| == |s|;
    forall k | 0 <= k < |s| ensures r[k] == Swap(s, i, j)[k] {
      if k < lo {
        assert r[k] == s[..lo][k];
      } else if k >= lo + 2 {
        assert r[k] == s[lo + 2..][k - lo - 2];
      }
    }
  }

  lemma InsertedRemovedIsSwappedAt(s: seq<string>, i: nat, j: nat)
    requires i < |s| && j < |s| && (j + 1 == i || j == i + 1)
    ensures Inserted(Removed(s, i), j, s[i]) == SwappedAt(s, if i < j then i else j)
  {
    var t := Removed(s, i);
    if j == i + 1 {
      assert t[..j] == s[..i] + [s[i + 1]];
      assert t[j..] == s[i + 2..];
    } else {
      assert t[..j] == s[..j];
      assert t[j..] == [s[j]] + s[j + 2..];
    }
  }

  lemma SwappedAtPermutes(s: seq<string>, lo: nat)
    requires lo + 1 < |s|
    ensures multiset(SwappedAt(s, lo)) == multiset(s)
  {
    assert s == s[..lo] + [s[lo], s[lo + 1]] + s[lo + 2..];
  }

  /**
   * Taking an element out and putting it back one place up or down swaps it with its neighbour,
   * so the list keeps its length and its elements.
   */
  lemma SpliceNeighbour(s: seq<string>, i: nat, j: nat)
    requires i < |s| && j < |s| && (j + 1 == i || j == i + 1)
    ensures Inserted(Removed(s, i), j, s[i]) == Swap(s, i, j)
    ensures multiset(Swap(s, i, j)) == multiset(s)
  {
    var lo := if i < j then i else j;
    SwapIsSwappedAt(s, i, j);
    InsertedRemovedIsSwappedAt(s, i, j);
    SwappedAtPermutes(s, lo);
  }

  /** `splice(i, 1)` on the first `n` slots of `a`: the later ones move down, and the removed one is returned. */
  method RemoveAt(a: array<string>, n: nat, i: nat) returns (removed: string)
    requires i < n <= a.Length
    modifies a
    ensures removed == old(a[i])
    ensures a[..n - 1] == Removed(old(a[..n]), i)
  {
    removed := a[i];
    var k := i;
    while k < n - 1
      invariant i <= k <= n - 1
      invariant forall m :: 0 <= m < i ==> a[m] == old(a[m])
      invariant forall m :: i <= m < k ==> a[m] == old(a[m + 1])
      invariant forall m :: k <= m < n ==> a[m] == old(a[m])
    {
      a[k] := a[k + 1];
      k := k + 1;
    }
    assert forall m :: 0 <= m < n - 1 ==> a[..n - 1][m] == Removed(old(a[..n]), i)[m];
  }

  /** `splice(j, 0, x)` on the first `n` slots of `a`: the later ones move up into slot `n`. */
  method InsertAt(a: array<string>, n: nat, j: nat, x: string)
    requires j <= n < a.Length
    modifies a
    ensures a[..n + 1] == Inserted(old(a[..n]), j, x)
  {
    ghost var s := a[..n];
    var k := n;
    while k > j
      invariant j <= k <= n
      invariant forall m :: 0 <= m < k ==> a[m] == s[m]
      invariant forall m :: k < m <= n ==> a[m] == s[m - 1]
    {
      a[k] := a[k - 1];
      k := k - 1;
    }
    a[j] := x;
    ghost var r := Inserted(s, j, x);
    assert |r| == n + 1;
    forall m | 0 <= m <= n ensures a[m] == r[m] {
      if m < j { assert r[m] == s[m]; }
      else if m > j { assert r[m] == s[m - 1]; }
    }
    assert a[..n + 1] == r;
  }

  /**
   * Lines 106-108: copy the list into an array, splice the cell out at `index` and back in at
   * `target`.
   */
  method SpliceMove(cells: seq<string>, index: nat, target: nat) returns (newCells: seq<string>)
    requires index < |cells| && target < |cells| && (target + 1 == index || target == index + 1)
    ensures newCells == Swap(cells, index, target)
    ensures multiset(newCells) == multiset(cells)
  {
    var a := new string[|cells|](k requires 0 <= k < |cells| => cells[k]);
    assert a[..] == cells;
    var removed := RemoveAt(a, |cells|, index);
    assert removed == cells[index];
    ghost var shorter := a[..|cells| - 1];
    assert shorter == Removed(cells, index);
    InsertAt(a, |cells| - 1, target, removed);
    assert a[..] == a[..|cells|] == Inserted(shorter, target, removed);
    SpliceNeighbour(cells, index, target);
    newCells := a[..];
  }

  /** Reordering the list keeps every listed cell's data present. */
  lemma SwapKeepsValid(d: NotebookTabData, i: nat, j: nat)
    requires d.Valid() && i < |d.cells| && j < |d.cells|
    ensures d.(cells := Swap(d.cells, i, j)).Valid()
  {
  }

  // ---------------------------------------------------------------------------
  // The tab
  // ---------------------------------------------------------------------------

  /** The notebook's tab: `data` is `props.tabData.data`, None while it is undefined. */
  class NotebookTab {
    var data: Option<NotebookTabData>

    ghost predicate Valid()
      reads this
    {
      data.Some? ==> data.value.Valid()
    }

    constructor ()
      ensures Valid() && data == None
    {
      data := None;
    }

    /** The effect of lines 21-31: a tab without data gets an empty notebook. */
    method InitData()
      requires Valid()
      modifies this
      ensures Valid()
      ensures data == if old(data).Some? then old(data) else Some(EmptyNotebook())
    {
      if data.None? {
        data := Some(EmptyNotebook());
      }
    }

    /** `createNewCell` (lines 57-81), with `newCellId` for the fresh UUID; works without data too. */
    method CreateNewCell(newCellId: string)
      requires Valid()
      modifies this
      ensures Valid()
      ensures data == Some(WithNewCell(if old(data).Some? then old(data).value else EmptyNotebook(), newCellId))
    {
      var baseData := if data.Some? then data.value else EmptyNotebook();
      data := Some(WithNewCell(baseData, newCellId));
    }

    /** `removeCell` (lines 83-96). */
    method RemoveCell(cellId: string)
      requires Valid()
      modifies this
      ensures Valid()
      ensures data == if old(data).Some? then Some(WithoutCell(old(data).value, cellId)) else None
    {
      if data.None? {
        return;
      }
      data := Some(WithoutCell(data.value, cellId));
    }

    /**
     * `moveCell` (lines 98-110), `up` for the direction `'up'`: a copy of the list has the cell
     * spliced out and back in one place over, which swaps it with that neighbour. Nothing
     * happens when the cell is not listed or has no neighbour on that side.
     */
    method MoveCell(cellId: string, up: bool)
      requires Valid()
      modifies this
      ensures Valid()
      ensures old(data).None? ==> data == old(data)
      ensures old(data).Some? ==>
                var cells := old(data).value.cells;
                var index := IndexOf(cells, cellId);
                var target := if up then index - 1 else index + 1;
                if index == -1 || target < 0 || target >= |cells| then data == old(data)
                else data == Some(old(data).value.(cells := Swap(cells, index, target)))
    {
      if data.None? {
        return;
      }
      var d := data.value;
      var index := IndexOf(d.cells, cellId);
      if index == -1 {
        return;
      }
      var targetIndex := if up then index - 1 else index + 1;
      if targetIndex < 0 || targetIndex >= |d.cells| {
        return;
      }
      var newCells := SpliceMove(d.cells, index, targetIndex);
      var moved := d.(cells := newCells);
      SwapKeepsValid(d, index, targetIndex);
      data := Some(moved);
    }

    /** `updateCellContent` (lines 112-121). */
    method UpdateCellContent(cellId: string, content: string)
      requires Valid()
      modifies this
      ensures Valid()
      ensures data == if old(data).Some? then Some(WithContent(old(data).value, cellId, content)) else None
    {
      if data.None? {
        return;
      }
      data := Some(WithContent(data.value, cellId, content));
    }

    /** `updateCellResult` (lines 123-132). */
    method UpdateCellResult(cellId: string, result: CellResult)
      requires Valid()
      modifies this
      ensures Valid()
      ensures data == if old(data).Some? then Some(WithResult(old(data).value, cellId, result)) else None
    {
      if data.None? {
        return;
      }
      data := Some(WithResult(data.value, cellId, result));
    }

    /**
     * `runCell` (lines 134-152): the cell shows `{ loading: true }` while its query runs, then
     * the finished result. A cell without data is not run.
     */
    method RunCell(cellId: string, execute: string -> Execution)
      requires Valid()
      modifies this
      ensures Valid()
      ensures data == if old(data).Some? then Some(RanCell(old(data).value, cellId, execute)) else None
    {
      if data.None? {
        return;
      }
      var cell := data.value.cellDataMap.Get(cellId);
      if cell.None? {
        return;
      }
      ghost var before := data.value;
      UpdateCellResult(cellId, Running);
      var execution := execute(cell.value.data);
      UpdateCellResult(cellId, Finished(execution));
      WithResultTwice(before, cellId, Running, Finished(execution));
    }

    /**
     * `runCellAndBelow` (lines 154-163): the cells from the given one's first position to the
     * end of the list, one after the other.
     */
    method RunCellAndBelow(cellId: string, execute: string -> Execution)
      requires Valid()
      modifies this
      ensures Valid()
      ensures old(data).None? ==> data == None
      ensures old(data).Some? ==>
                var startIndex := IndexOf(old(data).value.cells, cellId);
                data == Some(if startIndex == -1 then old(data).value
                             else RanCells(old(data).value, old(data).value.cells[startIndex..], execute))
    {
      if data.None? {
        return;
      }
      var startIndex := IndexOf(data.value.cells, cellId);
      if startIndex == -1 {
        return;
      }
      ghost var d0 := data.value;
      var cells := data.value.cells;
      var i := startIndex;
      while i < |cells|
        invariant Valid() && data.Some?
        invariant startIndex <= i <= |cells|
        invariant data.value == RanCells(d0, cells[startIndex..i], execute)
        decreases |cells| - i
      {
        RanNext(d0, startIndex, i, execute);
        RunCell(cells[i], execute);
        i := i + 1;
      }
      assert cells[startIndex..i] == cells[startIndex..];
    }

    /**
     * `runCellAndBelow` (lines 154-163) as the code is written: the loop, `runCell`,
     * `updateCellResult` and `setCellData` all read `d`, the `props.tabData.data` of the render
     * that created the handler, so each `setTabData` call replaces the notebook with `d` plus
     * one cell's result (see `SnapshotLosesEarlierResult`).
     */
    method RunCellAndBelowFromSnapshot(cellId: string, execute: string -> Execution)
      requires Valid()
      modifies this
      ensures Valid()
      ensures old(data).None? ==> data == None
      ensures old(data).Some? ==>
                var startIndex := IndexOf(old(data).value.cells, cellId);
                data == Some(if startIndex == -1 then old(data).value
                             else SnapshotRanCells(old(data).value, old(data).value.cells[startIndex..], execute))
    {
      if data.None? {
        return;
      }
      var d := data.value;
      var startIndex := IndexOf(d.cells, cellId);
      if startIndex == -1 {
        return;
      }
      RunFromSnapshot(d, startIndex, execute);
    }

    /** The loop of `runCellAndBelow` as written: every run starts again from `d`. */
    method RunFromSnapshot(d: NotebookTabData, startIndex: nat, execute: string -> Execution)
      requires Valid() && data == Some(d) && startIndex < |d.cells|
      modifies this
      ensures Valid() && data == Some(SnapshotRanCells(d, d.cells[startIndex..], execute))
    {
      var cells := d.cells;
      var i := startIndex;
      while i < |cells|
        invariant Valid() && data.Some?
        invariant startIndex <= i <= |cells|
        invariant data.value == SnapshotRanCells(d, cells[startIndex..i], execute)
        decreases |cells| - i
      {
        SnapshotRanNext(d, startIndex, i, execute);
        RunCellFromSnapshot(d, cells[i], execute);
        i := i + 1;
      }
      assert cells[startIndex..i] == cells[startIndex..];
    }

    /**
     * `runCell` (lines 134-152) as the handler of the render with notebook `d` runs it: a cell
     * without data in `d` is not run; otherwise both updates are `d` with one new result for
     * the cell, whatever the tab holds meanwhile.
     */
    method RunCellFromSnapshot(d: NotebookTabData, cellId: string, execute: string -> Execution)
      requires Valid() && data.Some? && d.Valid()
      modifies this
      ensures Valid() && data == Some(SnapshotStep(old(data).value, d, cellId, execute))
    {
      var cell := d.cellDataMap.Get(cellId);
      if cell.None? {
        return;
      }
      data := Some(WithResult(d, cellId, Running));
      var execution := execute(cell.value.data);
      data := Some(WithResult(d, cellId, Finished(execution)));
    }
  }
}
