/** The tile table of the battle map and the queries built on it
    (MapManager.cpp): node lookup, the obstacle test, and the formation
    search that picks one move target per selected unit. */
module Maps {
  import opened Common
  import opened Geometry
  import opened TileMath

  /** One entry of the tile table. parent and isVisit belong to the
      path finder, which is not part of this model. */
  datatype TileNode = TileNode(columnIndex: int, rowIndex: int, gid: int,
                               leftTopPosition: Vec2, parent: Option<Cell>, isVisit: bool)

  /** C++ integer division of k by 2, which truncates toward zero. */
  function HalfTowardZero(k: int): (h: int)
    ensures k >= 0 ==> 0 <= 2 * h <= k < 2 * h + 2
    ensures k < 0 ==> 2 * h - 2 < k <= 2 * h <= 0
  {
    if k >= 0 then k / 2 else -((-k) / 2)
  }

  /** Half the height of a formation for count selected units. */
  function HalfBand(count: int): int {
    HalfTowardZero(Min(count, LINEUP_MAX_ROW_COUNT))
  }

  /** The centre tile of a formation: the cursor's tile, with its row pulled
      into [half, maxRow - half] so that the whole row band fits the map. */
  function FormationCentre(s: MapShape, cursor: Vec2, count: int): (c: Cell)
    requires ValidShape(s) && s.height >= 2 * HalfBand(count) + 1
    ensures InMap(s, c)
    ensures c.col == TileSubscript(s, cursor).col
    ensures count >= 1 ==> HalfBand(count) <= c.row <= s.height - 1 - HalfBand(count)
    ensures HalfBand(count) <= TileSubscript(s, cursor).row <= s.height - 1 - HalfBand(count)
            ==> c.row == TileSubscript(s, cursor).row
  {
    var t := TileSubscript(s, cursor);
    var half := HalfBand(count);
    Cell(Min(Max(t.col, 0), s.width - 1), Min(Max(t.row, half), s.height - 1 - half))
  }

  /** lineupMinRowIndex and lineupMaxRowIndex: the formation's row band,
      which lies on the map and has one row per unit up to the lineup limit
      (rounded up to an odd number of rows). */
  function BandTop(s: MapShape, cursor: Vec2, count: int): (top: int)
    requires ValidShape(s) && s.height >= 2 * HalfBand(count) + 1
    ensures count >= 1 ==> 0 <= top
  {
    FormationCentre(s, cursor, count).row - HalfBand(count)
  }

  function BandBottom(s: MapShape, cursor: Vec2, count: int): (bottom: int)
    requires ValidShape(s) && s.height >= 2 * HalfBand(count) + 1
    ensures count >= 1 ==> bottom < s.height
    ensures bottom - BandTop(s, cursor, count) == 2 * HalfBand(count)
    ensures count >= 1 ==> Min(count, LINEUP_MAX_ROW_COUNT) <= bottom - BandTop(s, cursor, count) + 1
                            <= Min(count, LINEUP_MAX_ROW_COUNT) + 1
  {
    FormationCentre(s, cursor, count).row + HalfBand(count)
  }

  /** Every target of a formation is its tile's anchor moved by the offset
      of the cursor from the centre tile's anchor. */
  function FormationDelta(s: MapShape, cursor: Vec2, count: int): (d: Vec2)
    requires ValidShape(s) && s.height >= 2 * HalfBand(count) + 1
    ensures Add(LeftTopPosition(s, FormationCentre(s, cursor, count)), d) == cursor
  {
    Sub(cursor, LeftTopPosition(s, FormationCentre(s, cursor, count)))
  }

  /** The cells of the given rows of one column. */
  function CellsOf(col: int, rows: seq<int>): (cs: seq<Cell>)
    ensures |cs| == |rows|
    ensures forall i :: 0 <= i < |rows| ==> cs[i] == Cell(col, rows[i])
  {
    seq(|rows|, i requires 0 <= i < |rows| => Cell(col, rows[i]))
  }

  /** The variables of the formation loop as written: the next column of
      each side, whether each side is still searched, and how many targets
      the list holds. */
  datatype LineupLoop = LineupLoop(left: int, right: int, canLeft: bool, canRight: bool, taken: int)

  /** Where one iteration of a loop leaves it. */
  datatype LoopStep<S> = Exited(last: S) | Running(next: S)

  /** The left probe of the formation loop as written, on a map whose
      column c has free[c] free rows in the band: it takes as many of them
      as the list still has room for and gives the side up when it takes
      none. */
  function LeftAsWritten(s: LineupLoop, free: seq<nat>, count: int): (r: LineupLoop)
    ensures r.right == s.right && r.canRight == s.canRight
    ensures s.taken <= count ==> s.taken <= r.taken <= count
    ensures r.taken > s.taken ==> r.canLeft && r.left == s.left - 1
    ensures r.canLeft ==> s.canLeft
  {
    if 0 <= s.left < |free| && s.canLeft
    then var n := Min(free[s.left], count - s.taken);
         s.(left := s.left - 1, canLeft := n > 0, taken := s.taken + n)
    else s
  }

  /** The right probe of the formation loop as written. */
  function RightAsWritten(s: LineupLoop, free: seq<nat>, count: int): (r: LineupLoop)
    ensures r.left == s.left && r.canLeft == s.canLeft
    ensures s.taken <= count ==> s.taken <= r.taken <= count
    ensures r.taken > s.taken ==> r.canRight && r.right == s.right + 1
    ensures r.canRight ==> s.canRight
  {
    if 0 <= s.right < |free| && s.canRight
    then var n := Min(free[s.right], count - s.taken);
         s.(right := s.right + 1, canRight := n > 0, taken := s.taken + n)
    else s
  }

  /** One iteration of the formation loop exactly as written: it exits
      when the list is full or when both sides are given up, and only
      then. */
  function LineupIterationAsWritten(s: LineupLoop, free: seq<nat>, count: int): (step: LoopStep<LineupLoop>)
    ensures s.taken >= count ==> step == Exited(s)
    ensures step.Exited? ==> step.last.taken >= count || (!step.last.canLeft && !step.last.canRight)
  {
    if s.taken >= count then Exited(s)
    else
      var s1 := LeftAsWritten(s, free, count);
      if s1.taken >= count then Exited(s1)
      else
        var s2 := RightAsWritten(s1, free, count);
        if !s2.canLeft && !s2.canRight then Exited(s2) else Running(s2)
  }

  /** The loop as written after k iterations from s. */
  function LineupRunAsWritten(s: LineupLoop, free: seq<nat>, count: int, k: nat): (step: LoopStep<LineupLoop>)
    ensures k == 0 ==> step == Running(s)
    ensures step.Exited? ==> step.last.taken >= count || (!step.last.canLeft && !step.last.canRight)
  {
    if k == 0 then Running(s)
    else match LineupRunAsWritten(s, free, count, k - 1)
      case Exited(last) => Exited(last)
      case Running(t) => LineupIterationAsWritten(t, free, count)
  }

  /** A one-column map whose band holds a single free tile, with two units
      selected: the first iteration takes that tile and moves the left
      index off the map; every later iteration probes nothing, both sides
      stay enabled and the list stays short, so the loop as written never
      ends. */
  lemma {:induction false} LineupSpinsAsWritten(k: nat)
    ensures k >= 1 ==> LineupRunAsWritten(LineupLoop(0, 1, true, true, 0), [1], 2, k)
                       == Running(LineupLoop(-1, 1, true, true, 1))
    ensures LineupRunAsWritten(LineupLoop(0, 1, true, true, 0), [1], 2, k).Running?
  {
    if k > 1 {
      LineupSpinsAsWritten(k - 1);
    }
  }

  /** k iterations from s are one iteration followed by k - 1 more. */
  lemma {:induction false} RunAsWrittenFront(s: LineupLoop, free: seq<nat>, count: int, k: nat)
    requires k >= 1
    ensures LineupRunAsWritten(s, free, count, k) ==
              match LineupIterationAsWritten(s, free, count)
              case Exited(last) => Exited(last)
              case Running(t) => LineupRunAsWritten(t, free, count, k - 1)
  {
    if k > 1 {
      RunAsWrittenFront(s, free, count, k - 1);
    }
  }

  /** A state that one iteration as written leaves unchanged is never left. */
  lemma {:induction false} RunAsWrittenStuck(s: LineupLoop, free: seq<nat>, count: int, k: nat)
    requires LineupIterationAsWritten(s, free, count) == Running(s)
    ensures LineupRunAsWritten(s, free, count, k) == Running(s)
  {
    if k > 0 {
      RunAsWrittenStuck(s, free, count, k - 1);
    }
  }

  /** The formation loop's variables in the model: the next column of each
      side, whether each side is still searched, and the tiles taken so
      far, in the order they were taken. */
  datatype LineupState = LineupState(left: int, right: int, canLeft: bool, canRight: bool, cells: seq<Cell>)

  /** The loop's start: the left side at the centre column, the right
      side at the next one, both searched, nothing taken. */
  function LineupStart(centreCol: int): LineupState {
    LineupState(centreCol, centreCol + 1, true, true, [])
  }

  /** What the loop as written keeps of a model state: the tiles are
      counted, not listed. */
  function Tally(st: LineupState): LineupLoop {
    LineupLoop(st.left, st.right, st.canLeft, st.canRight, |st.cells|)
  }

  class MapManager {
    const shape: MapShape
    /** _tileNodeTable, indexed [column, row]. */
    const table: array2<TileNode>

    /** The table covers the map and every node keeps its own subscripts. */
    ghost predicate Valid()
      reads this, table
    {
      && ValidShape(shape)
      && table.Length0 == shape.width && table.Length1 == shape.height
      && (forall c, r :: 0 <= c < table.Length0 && 0 <= r < table.Length1 ==>
            table[c, r].columnIndex == c && table[c, r].rowIndex == r)
    }

    /** Every node keeps the anchor of its cell. (Kept apart from Valid so
        that proofs about the table's gids do not see the anchor formula.) */
    ghost predicate Anchored()
      reads this, table
      requires Valid()
    {
      forall c, r :: 0 <= c < table.Length0 && 0 <= r < table.Length1 ==>
        table[c, r].leftTopPosition == LeftTopPosition(shape, Cell(c, r))
    }

    /** The gids of the table, indexed [column][row] as the game-object
        layer is: what the path finder reads of the map. */
    function Gids(): (g: seq<seq<int>>)
      reads this, table
      requires Valid()
      ensures |g| == shape.width
      ensures forall c :: 0 <= c < |g| ==> |g[c]| == shape.height
      ensures forall c, r :: 0 <= c < shape.width && 0 <= r < shape.height ==> g[c][r] == table[c, r].gid
    {
      seq(table.Length0, c requires 0 <= c < table.Length0 reads table =>
        seq(table.Length1, r requires 0 <= r < table.Length1 reads table => table[c, r].gid))
    }

    /** tileNode->gid = gid for the node of one cell; every other field of
        the table is left as it was. */
    method SetGid(col: int, row: int, gid: int)
      requires Valid() && 0 <= col < shape.width && 0 <= row < shape.height
      modifies table
      ensures Valid() && (old(Anchored()) ==> Anchored())
      ensures table[col, row] == old(table[col, row]).(gid := gid)
      ensures forall c, r :: 0 <= c < shape.width && 0 <= r < shape.height && (c != col || r != row) ==>
                table[c, r] == old(table[c, r])
    {
      table[col, row] := table[col, row].(gid := gid);
    }

    /** initTileNodeTable: one node per cell, with the game-object layer's
        gid of that cell (layer[column][row]), the cell's anchor, its own
        subscripts, no parent and not visited. */
    constructor (s: MapShape, layer: seq<seq<int>>)
      requires ValidShape(s)
      requires |layer| == s.width && forall c :: 0 <= c < |layer| ==> |layer[c]| == s.height
      ensures shape == s && fresh(table)
      ensures Valid() && Anchored()
      ensures forall c, r :: 0 <= c < s.width && 0 <= r < s.height ==>
                table[c, r] == TileNode(c, r, layer[c][r], LeftTopPosition(s, Cell(c, r)), None, false)
    {
      shape := s;
      var t := new TileNode[s.width, s.height];
      var col := 0;
      while col < s.width
        invariant 0 <= col <= s.width
        invariant forall c, r :: 0 <= c < col && 0 <= r < s.height ==>
                    t[c, r] == TileNode(c, r, layer[c][r], LeftTopPosition(s, Cell(c, r)), None, false)
      {
        var row := 0;
        while row < s.height
          invariant 0 <= row <= s.height
          invariant forall c, r :: 0 <= c < col && 0 <= r < s.height ==>
                      t[c, r] == TileNode(c, r, layer[c][r], LeftTopPosition(s, Cell(c, r)), None, false)
          invariant forall r :: 0 <= r < row ==>
                      t[col, r] == TileNode(col, r, layer[col][r], LeftTopPosition(s, Cell(col, r)), None, false)
        {
          t[col, row] := TileNode(col, row, layer[col][row], LeftTopPosition(s, Cell(col, row)), None, false);
          row := row + 1;
        }
        col := col + 1;
      }
      table := t;
    }

    /** getTileNodeAt: the node of an in-map cell. */
    function GetTileNodeAt(col: int, row: int): (n: TileNode)
      reads this, table
      requires Valid() && InMap(shape, Cell(col, row))
      ensures n.columnIndex == col && n.rowIndex == row
    {
      table[col, row]
    }

    /** isInObstacleTile. The table is built from the game-object layer,
        so the layer exists whenever the table does. A position over the
        table is in an obstacle tile exactly when the tile its raw
        coordinates fall in has OBSTACLE_ID. */
    function IsInObstacleTile(p: Vec2): (r: bool)
      reads this, table
      requires Valid()
      ensures 0.0 <= RawColumn(shape, p) < shape.width as real && 0.0 <= RawRow(shape, p) < shape.height as real ==>
                (r <==> table[RawColumn(shape, p).Floor, RawRow(shape, p).Floor].gid == OBSTACLE_ID)
    {
      var c := TileSubscript(shape, p);
      GetTileNodeAt(c.col, c.row).gid == OBSTACLE_ID
    }

    /** The move targets for the given rows of one column: each node's
        anchor moved by delta (rows off the table, which no caller passes,
        give delta itself). */
    ghost function NodeTargets(col: int, rows: seq<int>, delta: Vec2): (ps: seq<Vec2>)
      reads this, table
      requires Valid() && 0 <= col < shape.width
    {
      seq(|rows|, i requires 0 <= i < |rows| reads table => if 0 <= rows[i] < shape.height then Add(table[col, rows[i]].leftTopPosition, delta) else delta)
    }

    /** A cell's own anchor is an obstacle position exactly when the cell's
        node is an obstacle. */
    lemma ObstacleAtAnchor(c: Cell)
      requires Valid() && InMap(shape, c)
      ensures IsInObstacleTile(LeftTopPosition(shape, c)) <==> table[c.col, c.row].gid == OBSTACLE_ID
    {
      RoundTrip(shape, c);
    }

    /** Rows lo..hi of a column whose node is not an obstacle, top to bottom. */
    ghost function FreeRows(col: int, lo: int, hi: int): (rows: seq<int>)
      reads this, table
      requires Valid() && 0 <= col < shape.width && 0 <= lo && (lo <= hi ==> hi < shape.height)
      decreases hi - lo
    {
      if hi < lo then []
      else FreeRows(col, lo, hi - 1) + (if table[col, hi].gid != OBSTACLE_ID then [hi] else [])
    }

    /** A row is listed exactly when it lies in the range and its node is
        not an obstacle. */
    lemma {:induction false} FreeRowsMembership(col: int, lo: int, hi: int, r: int)
      requires Valid() && 0 <= col < shape.width && 0 <= lo && hi < shape.height
      ensures r in FreeRows(col, lo, hi) <==> lo <= r <= hi && table[col, r].gid != OBSTACLE_ID
      decreases hi - lo
    {
      if lo <= hi {
        FreeRowsMembership(col, lo, hi - 1, r);
      }
    }

    /** The rows are listed in strictly increasing order, inside the range. */
    lemma {:induction false} FreeRowsIncreasing(col: int, lo: int, hi: int)
      requires Valid() && 0 <= col < shape.width && 0 <= lo && hi < shape.height
      ensures forall i :: 0 <= i < |FreeRows(col, lo, hi)| ==> lo <= FreeRows(col, lo, hi)[i] <= hi
      ensures forall i, j :: 0 <= i < j < |FreeRows(col, lo, hi)| ==> FreeRows(col, lo, hi)[i] < FreeRows(col, lo, hi)[j]
      decreases hi - lo
    {
      if lo <= hi {
        FreeRowsIncreasing(col, lo, hi - 1);
      }
    }

    /** Scanning fewer rows gives a prefix of the longer scan. */
    lemma {:induction false} FreeRowsPrefix(col: int, lo: int, mid: int, hi: int)
      requires Valid() && 0 <= col < shape.width && 0 <= lo && mid <= hi < shape.height
      ensures FreeRows(col, lo, mid) <= FreeRows(col, lo, hi)
      decreases hi - mid
    {
      if mid < hi {
        FreeRowsPrefix(col, lo, mid, hi - 1);
        if lo <= hi {
          assert FreeRows(col, lo, hi - 1) <= FreeRows(col, lo, hi);
        }
      }
    }

    /** insertNpcMoveEndPositionInto: scan rows minRow..maxRow of one column
        top to bottom and append the target of every non-obstacle node,
        stopping as soon as the list holds count targets. n is the number of
        targets appended: all the free rows, or just enough to fill the list
        (at least one, since the size is tested only after a push). */
    method InsertNpcMoveEndPositionInto(list: seq<Vec2>, col: int, minRow: int, maxRow: int,
                                        count: int, delta: Vec2)
      returns (newList: seq<Vec2>, n: nat)
      requires Valid() && 0 <= col < shape.width && 0 <= minRow && maxRow < shape.height
      ensures n == Min(|FreeRows(col, minRow, maxRow)|, Max(1, count - |list|))
      ensures newList == list + NodeTargets(col, FreeRows(col, minRow, maxRow)[..n], delta)
    {
      newList := list;
      n := 0;
      var row := minRow;
      assert FreeRows(col, minRow, row - 1) == [];
      assert list + NodeTargets(col, [], delta) == list;
      while row <= maxRow
        invariant minRow <= row <= maxRow + 1 || (maxRow < minRow && row == minRow)
        invariant n == |FreeRows(col, minRow, row - 1)|
        invariant newList == list + NodeTargets(col, FreeRows(col, minRow, row - 1), delta)
        invariant n == 0 || |list| + n < count
        decreases maxRow - row
      {
        var node := GetTileNodeAt(col, row);
        if node.gid != OBSTACLE_ID {
          n := n + 1;
          ghost var before := FreeRows(col, minRow, row - 1);
          ghost var after := FreeRows(col, minRow, row);
          assert after == before + [row];
          assert NodeTargets(col, after, delta) == NodeTargets(col, before, delta) + [Add(node.leftTopPosition, delta)];
          newList := newList + [Add(node.leftTopPosition, delta)];
          assert newList == list + NodeTargets(col, after, delta);
          if |newList| >= count {
            FreeRowsPrefix(col, minRow, row, maxRow);
            assert FreeRows(col, minRow, maxRow)[..n] == FreeRows(col, minRow, row);
            return;
          }
        } else {
          assert FreeRows(col, minRow, row) == FreeRows(col, minRow, row - 1);
        }
        row := row + 1;
      }
      assert row - 1 == maxRow || maxRow < minRow;
      assert FreeRows(col, minRow, maxRow)[..n] == FreeRows(col, minRow, maxRow);
    }

    /** Every node in rows minRow..maxRow of the column is an obstacle. */
    ghost predicate ColumnBlocked(col: int, minRow: int, maxRow: int)
      reads this, table
      requires Valid() && 0 <= col < shape.width && 0 <= minRow && maxRow < shape.height
    {
      forall r :: minRow <= r <= maxRow ==> table[col, r].gid == OBSTACLE_ID
    }

    /** The cell is on the map, in rows minRow..maxRow, and not an obstacle. */
    ghost predicate FreeInBand(c: Cell, minRow: int, maxRow: int)
      reads this, table
      requires Valid()
    {
      InMap(shape, c) && minRow <= c.row <= maxRow && table[c.col, c.row].gid != OBSTACLE_ID
    }

    /** The cells taken by one probe of column col are distinct, free and
        in the band, and when the probe took every free row each free band
        cell of the column is among them. */
    lemma ProbeCells(col: int, minRow: int, maxRow: int, n: nat)
      requires Valid() && 0 <= col < shape.width && 0 <= minRow && maxRow < shape.height
      requires n <= |FreeRows(col, minRow, maxRow)|
      ensures Distinct(CellsOf(col, FreeRows(col, minRow, maxRow)[..n]))
      ensures forall i :: 0 <= i < n ==> FreeInBand(CellsOf(col, FreeRows(col, minRow, maxRow)[..n])[i], minRow, maxRow)
      ensures n == |FreeRows(col, minRow, maxRow)| ==>
                forall r :: FreeInBand(Cell(col, r), minRow, maxRow) ==> Cell(col, r) in CellsOf(col, FreeRows(col, minRow, maxRow)[..n])
    {
      var F := FreeRows(col, minRow, maxRow);
      var cs := CellsOf(col, F[..n]);
      FreeRowsIncreasing(col, minRow, maxRow);
      forall i | 0 <= i < n ensures FreeInBand(cs[i], minRow, maxRow) {
        FreeRowsMembership(col, minRow, maxRow, F[i]);
      }
      if n == |F| {
        forall r | FreeInBand(Cell(col, r), minRow, maxRow) ensures Cell(col, r) in cs {
          FreeRowsMembership(col, minRow, maxRow, r);
          var i :| 0 <= i < |F| && F[i] == r;
          assert cs[i] == Cell(col, r);
        }
      }
    }

    /** The tiles one probe of column col takes when the list already
        holds taken targets: the column's free band rows top to bottom, as
        many as there is room for (at least one). */
    ghost function ProbeTake(col: int, minRow: int, maxRow: int, count: int, taken: int): seq<Cell>
      reads this, table
      requires Valid() && 0 <= col < shape.width && 0 <= minRow && maxRow < shape.height
    {
      var F := FreeRows(col, minRow, maxRow);
      CellsOf(col, F[..Min(|F|, Max(1, count - taken))])
    }

    ghost predicate CanProbeLeft(st: LineupState)
      reads this
    {
      0 <= st.left < shape.width && st.canLeft
    }

    ghost predicate CanProbeRight(st: LineupState)
      reads this
    {
      0 <= st.right < shape.width && st.canRight
    }

    /** The left half of an iteration: probe the next column on the left,
        move one column further, and give the side up if nothing was taken. */
    ghost function LeftProbe(st: LineupState, minRow: int, maxRow: int, count: int): LineupState
      reads this, table
      requires Valid() && 0 <= minRow && maxRow < shape.height
    {
      if CanProbeLeft(st) then
        var t := ProbeTake(st.left, minRow, maxRow, count, |st.cells|);
        st.(left := st.left - 1, canLeft := |t| > 0, cells := st.cells + t)
      else st
    }

    /** The right half of an iteration. */
    ghost function RightProbe(st: LineupState, minRow: int, maxRow: int, count: int): LineupState
      reads this, table
      requires Valid() && 0 <= minRow && maxRow < shape.height
    {
      if CanProbeRight(st) then
        var t := ProbeTake(st.right, minRow, maxRow, count, |st.cells|);
        st.(right := st.right + 1, canRight := |t| > 0, cells := st.cells + t)
      else st
    }

    /** Where the model's loop stops after an iteration whose list is still
        short: both sides given up (the source's own exit), or neither side
        able to probe (the model's added stop). */
    ghost predicate LineupStops(st: LineupState)
      reads this
    {
      (!st.canLeft && !st.canRight) || (!CanProbeLeft(st) && !CanProbeRight(st))
    }

    /** One iteration of the model's formation loop: a left probe and then a
        right probe, exiting as soon as the list is full, or once the loop
        stops. */
    ghost function LineupIteration(st: LineupState, minRow: int, maxRow: int, count: int): (step: LoopStep<LineupState>)
      reads this, table
      requires Valid() && (count >= 1 ==> 0 <= minRow && maxRow < shape.height)
      ensures |st.cells| >= count ==> step == Exited(st)
      ensures -1 <= st.left && st.right <= shape.width && step.Running? ==>
                -1 <= step.next.left <= st.left && st.right <= step.next.right <= shape.width
                && step.next.left - step.next.right < st.left - st.right
    {
      if |st.cells| >= count then Exited(st)
      else
        var s1 := LeftProbe(st, minRow, maxRow, count);
        if |s1.cells| >= count then Exited(s1)
        else
          var s2 := RightProbe(s1, minRow, maxRow, count);
          if LineupStops(s2) then Exited(s2) else Running(s2)
    }

    /** The state the formation loop ends in when started in st. */
    ghost function LineupRun(st: LineupState, minRow: int, maxRow: int, count: int): LineupState
      reads this, table
      requires Valid() && (count >= 1 ==> 0 <= minRow && maxRow < shape.height)
      requires -1 <= st.left && st.right <= shape.width
      decreases st.left + 1 + shape.width - st.right
    {
      match LineupIteration(st, minRow, maxRow, count)
      case Exited(last) => last
      case Running(next) => LineupRun(next, minRow, maxRow, count)
    }

    /** A run that exits in its first iteration ends there, and one that
        goes on ends where the rest of the run from the next state ends. */
    lemma LineupRunUnfold(st: LineupState, minRow: int, maxRow: int, count: int)
      requires Valid() && (count >= 1 ==> 0 <= minRow && maxRow < shape.height)
      requires -1 <= st.left && st.right <= shape.width
      ensures LineupIteration(st, minRow, maxRow, count).Exited? ==>
                LineupRun(st, minRow, maxRow, count) == LineupIteration(st, minRow, maxRow, count).last
      ensures LineupIteration(st, minRow, maxRow, count).Running? ==>
                LineupRun(st, minRow, maxRow, count)
                == LineupRun(LineupIteration(st, minRow, maxRow, count).next, minRow, maxRow, count)
    {
    }

    /** The tiles the formation loop takes, in order, for the given centre
        column, row band and unit count. */
    ghost function LineupCells(centreCol: int, minRow: int, maxRow: int, count: int): seq<Cell>
      reads this, table
      requires Valid() && 0 <= centreCol < shape.width
      requires count >= 1 ==> 0 <= minRow && maxRow < shape.height
    {
      LineupRun(LineupStart(centreCol), minRow, maxRow, count).cells
    }

    /** free holds the number of free rows of every column's band. */
    ghost predicate FreeCounts(free: seq<nat>, minRow: int, maxRow: int)
      reads this, table
      requires Valid() && 0 <= minRow && maxRow < shape.height
    {
      |free| == shape.width && forall c :: 0 <= c < shape.width ==> free[c] == |FreeRows(c, minRow, maxRow)|
    }

    /** One iteration of the model tallies like one iteration as written,
        except at the model's added stop, where the loop as written stays
        in the same state for good. */
    lemma IterationTally(st: LineupState, minRow: int, maxRow: int, count: int, free: seq<nat>)
      requires Valid() && 0 <= minRow && maxRow < shape.height && FreeCounts(free, minRow, maxRow)
      ensures LineupIteration(st, minRow, maxRow, count).Running? ==>
                LineupIterationAsWritten(Tally(st), free, count)
                == Running(Tally(LineupIteration(st, minRow, maxRow, count).next))
      ensures LineupIteration(st, minRow, maxRow, count).Exited? ==>
                var t := Tally(LineupIteration(st, minRow, maxRow, count).last);
                LineupIterationAsWritten(Tally(st), free, count) == Exited(t)
                || (LineupIterationAsWritten(Tally(st), free, count) == Running(t)
                    && LineupIterationAsWritten(t, free, count) == if t.taken >= count then Exited(t) else Running(t))
    {
      if |st.cells| < count {
        var s1 := LeftProbe(st, minRow, maxRow, count);
        assert Tally(s1) == LeftAsWritten(Tally(st), free, count);
        if |s1.cells| < count {
          var s2 := RightProbe(s1, minRow, maxRow, count);
          assert Tally(s2) == RightAsWritten(Tally(s1), free, count);
          if LineupStops(s2) {
            assert LeftAsWritten(Tally(s2), free, count) == Tally(s2);
            assert RightAsWritten(Tally(s2), free, count) == Tally(s2);
          }
        }
      }
    }

    /** Whenever the loop as written exits, it exits in the state the
        model's loop ends in: the same columns, the same flags and as many
        targets. Where the two differ, at the model's added stop, the loop
        as written never exits. */
    lemma {:induction false} LineupRunAgrees(st: LineupState, minRow: int, maxRow: int, count: int,
                                             free: seq<nat>, k: nat)
      requires Valid() && 0 <= minRow && maxRow < shape.height && FreeCounts(free, minRow, maxRow)
      requires -1 <= st.left && st.right <= shape.width
      ensures LineupRunAsWritten(Tally(st), free, count, k).Exited? ==>
                Tally(LineupRun(st, minRow, maxRow, count)) == LineupRunAsWritten(Tally(st), free, count, k).last
      decreases k
    {
      if k >= 1 {
        LineupRunUnfold(st, minRow, maxRow, count);
        match LineupIteration(st, minRow, maxRow, count)
        case Running(next) =>
          RunAsWrittenFront(Tally(st), free, count, k);
          IterationTally(st, minRow, maxRow, count, free);
          LineupRunAgrees(next, minRow, maxRow, count, free, k - 1);
        case Exited(last) =>
          ExitAgrees(st, minRow, maxRow, count, free, k);
      }
    }

    /** An iteration of the model that exits: the loop as written, if it
        exits at all, exits in the same tallied state. */
    lemma ExitAgrees(st: LineupState, minRow: int, maxRow: int, count: int, free: seq<nat>, k: nat)
      requires Valid() && 0 <= minRow && maxRow < shape.height && FreeCounts(free, minRow, maxRow)
      requires k >= 1 && LineupIteration(st, minRow, maxRow, count).Exited?
      ensures LineupRunAsWritten(Tally(st), free, count, k).Exited? ==>
                Tally(LineupIteration(st, minRow, maxRow, count).last)
                == LineupRunAsWritten(Tally(st), free, count, k).last
    {
      var last := LineupIteration(st, minRow, maxRow, count).last;
      RunAsWrittenFront(Tally(st), free, count, k);
      IterationTally(st, minRow, maxRow, count, free);
      if LineupIterationAsWritten(Tally(st), free, count).Running? {
        if |last.cells| < count {
          RunAsWrittenStuck(Tally(last), free, count, k - 1);
        } else if k >= 2 {
          RunAsWrittenFront(Tally(last), free, count, k - 1);
        }
      }
    }

    /** From the loop's start: whenever the loop as written exits, the
        formation search has taken as many tiles as it counted, and ends at
        the same columns. */
    lemma LineupCellsAsWritten(centreCol: int, minRow: int, maxRow: int, count: int, free: seq<nat>, k: nat)
      requires Valid() && 0 <= centreCol < shape.width && 0 <= minRow && maxRow < shape.height
      requires FreeCounts(free, minRow, maxRow)
      ensures var run := LineupRunAsWritten(LineupLoop(centreCol, centreCol + 1, true, true, 0), free, count, k);
              run.Exited? ==>
                && |LineupCells(centreCol, minRow, maxRow, count)| == run.last.taken
                && LineupRun(LineupStart(centreCol), minRow, maxRow, count).left == run.last.left
                && LineupRun(LineupStart(centreCol), minRow, maxRow, count).right == run.last.right
    {
      LineupRunAgrees(LineupStart(centreCol), minRow, maxRow, count, free, k);
    }

    /** The tiles taken so far are distinct free band cells of columns
        lo..hi, at most count of them, and unless there are count of them
        every free band cell of those columns has been taken. */
    ghost predicate Formation(cells: seq<Cell>, minRow: int, maxRow: int, lo: int, hi: int, count: int)
      reads this, table
      requires Valid()
    {
      && |cells| <= Max(count, 0)
      && (forall i :: 0 <= i < |cells| ==> FreeInBand(cells[i], minRow, maxRow) && lo <= cells[i].col <= hi)
      && Distinct(cells)
      && (|cells| < count ==> forall c: Cell :: lo <= c.col <= hi && FreeInBand(c, minRow, maxRow) ==> c in cells)
    }

    /** What one probe of column col takes: distinct free band cells of
        that column, at most the room left (and at least one if there is a
        free cell), every free band cell of the column when fewer than the
        room were taken, and nothing exactly when the column is blocked. */
    lemma ProbeTakeCells(col: int, minRow: int, maxRow: int, count: int, taken: int)
      requires Valid() && 0 <= col < shape.width && 0 <= minRow && maxRow < shape.height
      ensures var t := ProbeTake(col, minRow, maxRow, count, taken);
              && Distinct(t)
              && |t| <= Max(1, count - taken)
              && (forall i :: 0 <= i < |t| ==> FreeInBand(t[i], minRow, maxRow) && t[i].col == col)
              && (|t| < Max(1, count - taken) ==>
                    forall r :: FreeInBand(Cell(col, r), minRow, maxRow) ==> Cell(col, r) in t)
              && (|t| == 0 <==> ColumnBlocked(col, minRow, maxRow))
    {
      var F := FreeRows(col, minRow, maxRow);
      var n := Min(|F|, Max(1, count - taken));
      ProbeCells(col, minRow, maxRow, n);
      if n == 0 {
        forall r | minRow <= r <= maxRow ensures table[col, r].gid == OBSTACLE_ID {
          FreeRowsMembership(col, minRow, maxRow, r);
        }
      } else {
        FreeRowsMembership(col, minRow, maxRow, F[0]);
      }
    }

    /** One probe of a column next to the explored range keeps the
        formation invariant for the widened range, and it takes nothing
        exactly when the column's band is all obstacles. */
    lemma ProbeStep(cells: seq<Cell>, minRow: int, maxRow: int, lo: int, hi: int, count: int,
                    col: int, nlo: int, nhi: int)
      requires Valid() && 0 <= col < shape.width && 0 <= minRow && maxRow < shape.height
      requires Formation(cells, minRow, maxRow, lo, hi, count) && |cells| < count && lo <= hi + 1
      requires (col == lo - 1 && nlo == col && nhi == hi) || (col == hi + 1 && nlo == lo && nhi == col)
      ensures Formation(cells + ProbeTake(col, minRow, maxRow, count, |cells|), minRow, maxRow, nlo, nhi, count)
      ensures |ProbeTake(col, minRow, maxRow, count, |cells|)| == 0 <==> ColumnBlocked(col, minRow, maxRow)
    {
      var added := ProbeTake(col, minRow, maxRow, count, |cells|);
      var cells' := cells + added;
      ProbeTakeCells(col, minRow, maxRow, count, |cells|);
      DistinctConcat(cells, added);
      forall i | 0 <= i < |cells'|
        ensures FreeInBand(cells'[i], minRow, maxRow) && nlo <= cells'[i].col <= nhi
      {
        if i >= |cells| {
          assert cells'[i] == added[i - |cells|];
        } else {
          assert cells'[i] == cells[i];
        }
      }
      if |cells'| < count {
        forall c: Cell | nlo <= c.col <= nhi && FreeInBand(c, minRow, maxRow) ensures c in cells' {
          if c.col == col {
            assert Cell(col, c.row) in added;
          } else {
            assert c in cells;
          }
        }
      }
    }

    /** What the formation loop keeps: its indices lie around the centre
        column, the tiles between them satisfy the formation invariant, and
        a side given up ended at an all-obstacle column. */
    ghost predicate LineupInv(st: LineupState, centreCol: int, minRow: int, maxRow: int, count: int)
      reads this, table
      requires Valid() && 0 <= minRow && maxRow < shape.height
    {
      && 0 <= centreCol < shape.width
      && -1 <= st.left <= centreCol && centreCol + 1 <= st.right <= shape.width
      && (st.left == centreCol ==> |st.cells| == 0 && st.canLeft)
      && Formation(st.cells, minRow, maxRow, st.left + 1, st.right - 1, count)
      && (!st.canLeft ==> st.left + 1 < shape.width && ColumnBlocked(st.left + 1, minRow, maxRow))
      && (!st.canRight ==> 0 <= st.right - 1 && ColumnBlocked(st.right - 1, minRow, maxRow))
    }

    /** A left probe keeps the loop invariant and leaves the left index
        below the centre column. */
    lemma LeftProbeKeeps(st: LineupState, centreCol: int, minRow: int, maxRow: int, count: int)
      requires Valid() && 0 <= minRow && maxRow < shape.height
      requires LineupInv(st, centreCol, minRow, maxRow, count) && |st.cells| < count
      ensures LineupInv(LeftProbe(st, minRow, maxRow, count), centreCol, minRow, maxRow, count)
      ensures LeftProbe(st, minRow, maxRow, count).left < centreCol
    {
      if CanProbeLeft(st) {
        ProbeStep(st.cells, minRow, maxRow, st.left + 1, st.right - 1, count, st.left, st.left, st.right - 1);
      }
    }

    /** A right probe after the first left probe keeps the loop invariant. */
    lemma RightProbeKeeps(st: LineupState, centreCol: int, minRow: int, maxRow: int, count: int)
      requires Valid() && 0 <= minRow && maxRow < shape.height
      requires LineupInv(st, centreCol, minRow, maxRow, count) && |st.cells| < count && st.left < centreCol
      ensures LineupInv(RightProbe(st, minRow, maxRow, count), centreCol, minRow, maxRow, count)
    {
      if CanProbeRight(st) {
        ProbeStep(st.cells, minRow, maxRow, st.left + 1, st.right - 1, count, st.right, st.left + 1, st.right);
      }
    }

    /** An iteration keeps the loop invariant; one that exits with the list
        short exits because the loop stops. */
    lemma IterationKeeps(st: LineupState, centreCol: int, minRow: int, maxRow: int, count: int)
      requires Valid() && 0 <= minRow && maxRow < shape.height
      requires LineupInv(st, centreCol, minRow, maxRow, count)
      ensures LineupIteration(st, minRow, maxRow, count).Running? ==>
                LineupInv(LineupIteration(st, minRow, maxRow, count).next, centreCol, minRow, maxRow, count)
      ensures LineupIteration(st, minRow, maxRow, count).Exited? ==>
                var last := LineupIteration(st, minRow, maxRow, count).last;
                LineupInv(last, centreCol, minRow, maxRow, count)
                && (|last.cells| < count ==> LineupStops(last))
    {
      if |st.cells| < count {
        LeftProbeKeeps(st, centreCol, minRow, maxRow, count);
        var s1 := LeftProbe(st, minRow, maxRow, count);
        if |s1.cells| < count {
          RightProbeKeeps(s1, centreCol, minRow, maxRow, count);
        }
      }
    }

    /** The loop invariant holds where the loop ends, and a loop that ends
        with the list short has stopped. */
    lemma {:induction false} LineupRunKeeps(st: LineupState, centreCol: int, minRow: int, maxRow: int, count: int)
      requires Valid() && 0 <= minRow && maxRow < shape.height
      requires LineupInv(st, centreCol, minRow, maxRow, count)
      ensures LineupInv(LineupRun(st, minRow, maxRow, count), centreCol, minRow, maxRow, count)
      ensures |LineupRun(st, minRow, maxRow, count).cells| < count ==> LineupStops(LineupRun(st, minRow, maxRow, count))
      decreases st.left + 1 + shape.width - st.right
    {
      IterationKeeps(st, centreCol, minRow, maxRow, count);
      match LineupIteration(st, minRow, maxRow, count)
      case Exited(last) =>
      case Running(next) =>
        LineupRunKeeps(next, centreCol, minRow, maxRow, count);
    }

    /** What the formation loop ends with, started from LineupStart: the
        range it explored lies around the centre column and satisfies the
        formation invariant, and a list left short is bounded by the map's
        edge or an all-obstacle column on each side. */
    lemma LineupOutcome(centreCol: int, minRow: int, maxRow: int, count: int,
                        cells: seq<Cell>, lo: int, hi: int)
      requires Valid() && 0 <= centreCol < shape.width && 0 <= minRow && maxRow < shape.height
      requires var last := LineupRun(LineupStart(centreCol), minRow, maxRow, count);
               last.cells == cells && last.left + 1 == lo && last.right - 1 == hi
      ensures cells == LineupCells(centreCol, minRow, maxRow, count)
      ensures 0 <= lo <= centreCol + 1 && (count >= 1 ==> lo <= centreCol)
      ensures centreCol <= hi < shape.width
      ensures Formation(cells, minRow, maxRow, lo, hi, count)
      ensures |cells| < count ==>
                && (lo == 0 || ColumnBlocked(lo, minRow, maxRow))
                && (hi == shape.width - 1 || ColumnBlocked(hi, minRow, maxRow))
    {
      LineupRunFromStart(centreCol, minRow, maxRow, count);
      StoppedEdges(LineupRun(LineupStart(centreCol), minRow, maxRow, count), centreCol, minRow, maxRow, count);
    }

    /** The loop invariant holds at the loop's start, and so where the
        loop started there ends. */
    lemma LineupRunFromStart(centreCol: int, minRow: int, maxRow: int, count: int)
      requires Valid() && 0 <= centreCol < shape.width && 0 <= minRow && maxRow < shape.height
      ensures var last := LineupRun(LineupStart(centreCol), minRow, maxRow, count);
              LineupInv(last, centreCol, minRow, maxRow, count) && (|last.cells| < count ==> LineupStops(last))
    {
      assert LineupInv(LineupStart(centreCol), centreCol, minRow, maxRow, count);
      LineupRunKeeps(LineupStart(centreCol), centreCol, minRow, maxRow, count);
    }

    /** With no unit to place the loop takes nothing. */
    lemma NoLineup(centreCol: int, minRow: int, maxRow: int, count: int)
      requires Valid() && 0 <= centreCol < shape.width && count <= 0
      ensures LineupCells(centreCol, minRow, maxRow, count) == []
      ensures Formation([], minRow, maxRow, centreCol + 1, centreCol, count)
    {
      LineupRunUnfold(LineupStart(centreCol), minRow, maxRow, count);
    }

    /** A loop stopped with the list short has its left index below the
        centre column, and each side ends at the map's edge or at an
        all-obstacle column. */
    lemma StoppedEdges(st: LineupState, centreCol: int, minRow: int, maxRow: int, count: int)
      requires Valid() && 0 <= minRow && maxRow < shape.height
      ensures LineupInv(st, centreCol, minRow, maxRow, count) && (|st.cells| < count ==> LineupStops(st)) ==>
                && (count >= 1 ==> st.left < centreCol)
                && (|st.cells| < count ==>
                      && (st.left + 1 == 0 || ColumnBlocked(st.left + 1, minRow, maxRow))
                      && (st.right - 1 == shape.width - 1 || ColumnBlocked(st.right - 1, minRow, maxRow)))
    {
    }

    /** list holds the move targets of cells: each cell's anchor moved by
        delta. */
    ghost predicate TargetsOf(list: seq<Vec2>, cells: seq<Cell>, delta: Vec2)
      reads this, table
      requires Valid()
    {
      && |list| == |cells|
      && (forall i :: 0 <= i < |cells| ==> InMap(shape, cells[i]))
      && (forall i :: 0 <= i < |list| ==> list[i] == Add(table[cells[i].col, cells[i].row].leftTopPosition, delta))
    }

    /** One probe of the search: insertNpcMoveEndPositionInto on column col,
        with cells extended by the tiles whose targets it appended. */
    method Probe(list: seq<Vec2>, ghost cells: seq<Cell>, delta: Vec2, minRow: int, maxRow: int,
                 count: int, col: int)
      returns (list': seq<Vec2>, ghost cells': seq<Cell>, n: nat)
      requires Valid() && 0 <= col < shape.width && 0 <= minRow && maxRow < shape.height
      requires TargetsOf(list, cells, delta)
      ensures TargetsOf(list', cells', delta)
      ensures cells' == cells + ProbeTake(col, minRow, maxRow, count, |cells|)
      ensures n == |cells'| - |cells|
    {
      list', n := InsertNpcMoveEndPositionInto(list, col, minRow, maxRow, count, delta);
      ghost var F := FreeRows(col, minRow, maxRow);
      ghost var added := CellsOf(col, F[..n]);
      ProbeCells(col, minRow, maxRow, n);
      cells' := cells + added;
      forall i | 0 <= i < |list'|
        ensures InMap(shape, cells'[i])
        ensures list'[i] == Add(table[cells'[i].col, cells'[i].row].leftTopPosition, delta)
      {
        if i >= |list| {
          assert cells'[i] == added[i - |list|];
          assert FreeInBand(added[i - |list|], minRow, maxRow);
        }
      }
    }

    /** getNpcMoveTargetListBy: choose up to count move targets around the
        cursor. The band is 2 * HalfBand(count) + 1 rows around the centre
        row; columns are probed alternately leftwards from the centre column
        and rightwards from the next one (SearchFormation). cells are the
        tiles of the targets, in the order they were taken, and lo..hi the
        columns explored. */
    method GetNpcMoveTargetListBy(count: int, cursor: Vec2)
      returns (list: seq<Vec2>, ghost cells: seq<Cell>, ghost lo: int, ghost hi: int)
      requires Valid() && Anchored()
      requires shape.height >= 2 * HalfBand(count) + 1
      ensures cells == LineupCells(FormationCentre(shape, cursor, count).col, BandTop(shape, cursor, count),
                                   BandBottom(shape, cursor, count), count)
      ensures count <= 0 ==> list == []
      ensures 0 <= lo <= FormationCentre(shape, cursor, count).col + 1
      ensures count >= 1 ==> lo <= FormationCentre(shape, cursor, count).col
      ensures FormationCentre(shape, cursor, count).col <= hi < shape.width
      ensures Formation(cells, BandTop(shape, cursor, count), BandBottom(shape, cursor, count), lo, hi, count)
      ensures |list| == |cells|
      ensures forall i :: 0 <= i < |list| ==>
                list[i] == Add(LeftTopPosition(shape, cells[i]), FormationDelta(shape, cursor, count))
      ensures Distinct(list)
      ensures |list| < count ==>
                && (lo == 0 || ColumnBlocked(lo, BandTop(shape, cursor, count),
                                             BandBottom(shape, cursor, count)))
                && (hi == shape.width - 1 || ColumnBlocked(hi, BandTop(shape, cursor, count),
                                                           BandBottom(shape, cursor, count)))
    {
      var centre := FormationCentre(shape, cursor, count);
      var minRow, maxRow := BandTop(shape, cursor, count), BandBottom(shape, cursor, count);
      var node := GetTileNodeAt(centre.col, centre.row);
      var delta := Sub(cursor, node.leftTopPosition);
      assert delta == FormationDelta(shape, cursor, count);
      list, cells, lo, hi := SearchFormation(count, centre.col, minRow, maxRow, delta);
      FormationAnchors(list, cells, delta);
      FormationTargetsDistinct(list, cells, delta);
    }

    /** The left half of the body of the search loop: probe the left
        column if that side can still be probed. */
    method SearchLeft(list: seq<Vec2>, ghost cells: seq<Cell>, delta: Vec2, minRow: int, maxRow: int,
                      count: int, left: int, right: int, canLeft: bool, canRight: bool)
      returns (list': seq<Vec2>, ghost cells': seq<Cell>, left': int, canLeft': bool)
      requires Valid() && 0 <= minRow && maxRow < shape.height && left < shape.width
      requires TargetsOf(list, cells, delta)
      ensures TargetsOf(list', cells', delta)
      ensures LineupState(left', right, canLeft', canRight, cells')
              == LeftProbe(LineupState(left, right, canLeft, canRight, cells), minRow, maxRow, count)
    {
      list', cells', left', canLeft' := list, cells, left, canLeft;
      if left >= 0 && canLeft {
        var n;
        list', cells', n := Probe(list, cells, delta, minRow, maxRow, count, left);
        canLeft' := n > 0;
        left' := left - 1;
      }
    }

    /** The right half of the body of the search loop. */
    method SearchRight(list: seq<Vec2>, ghost cells: seq<Cell>, delta: Vec2, minRow: int, maxRow: int,
                       count: int, left: int, right: int, canLeft: bool, canRight: bool)
      returns (list': seq<Vec2>, ghost cells': seq<Cell>, right': int, canRight': bool)
      requires Valid() && 0 <= minRow && maxRow < shape.height && 0 <= right
      requires TargetsOf(list, cells, delta)
      ensures TargetsOf(list', cells', delta)
      ensures LineupState(left, right', canLeft, canRight', cells')
              == RightProbe(LineupState(left, right, canLeft, canRight, cells), minRow, maxRow, count)
    {
      list', cells', right', canRight' := list, cells, right, canRight;
      if right < shape.width && canRight {
        var n;
        list', cells', n := Probe(list, cells, delta, minRow, maxRow, count, right);
        canRight' := n > 0;
        right' := right + 1;
      }
    }

    /** One pass of the body of the search loop: the left half, a stop if
        the list is full, the right half, and a stop if both sides are given
        up. It is one iteration of LineupIteration, and done says whether
        that iteration exited. */
    method SearchBody(list: seq<Vec2>, ghost cells: seq<Cell>, delta: Vec2, minRow: int, maxRow: int,
                      count: int, left: int, right: int, canLeft: bool, canRight: bool)
      returns (list': seq<Vec2>, ghost cells': seq<Cell>, left': int, right': int,
               canLeft': bool, canRight': bool, done: bool)
      requires Valid() && 0 <= minRow && maxRow < shape.height && |list| < count
      requires -1 <= left < shape.width && 0 <= right <= shape.width
      requires TargetsOf(list, cells, delta)
      ensures TargetsOf(list', cells', delta)
      ensures done ==> LineupIteration(LineupState(left, right, canLeft, canRight, cells), minRow, maxRow, count)
                       == Exited(LineupState(left', right', canLeft', canRight', cells'))
      ensures !done ==> LineupIteration(LineupState(left, right, canLeft, canRight, cells), minRow, maxRow, count)
                        == Running(LineupState(left', right', canLeft', canRight', cells'))
    {
      right', canRight' := right, canRight;
      list', cells', left', canLeft' := SearchLeft(list, cells, delta, minRow, maxRow, count, left, right, canLeft, canRight);
      if |list'| >= count {
        return list', cells', left', right', canLeft', canRight', true;
      }
      list', cells', right', canRight' := SearchRight(list', cells', delta, minRow, maxRow, count, left', right, canLeft', canRight);
      // The source breaks only when both sides are given up; the second
      // disjunct is the model's stop for the case where it would spin.
      done := (!canLeft' && !canRight') || (!(left' >= 0 && canLeft') && !(right' < shape.width && canRight'));
    }

    /** SearchBody seen from the whole run that ends in last: when done, or
        when the list is full, the new state is last, and otherwise the run
        from the new state, which is closer to its end, still ends in last. */
    method SearchStep(list: seq<Vec2>, ghost cells: seq<Cell>, delta: Vec2, minRow: int, maxRow: int,
                      count: int, left: int, right: int, canLeft: bool, canRight: bool,
                      ghost last: LineupState)
      returns (list': seq<Vec2>, ghost cells': seq<Cell>, left': int, right': int,
               canLeft': bool, canRight': bool, done: bool)
      requires Valid() && 0 <= minRow && maxRow < shape.height && |list| < count
      requires -1 <= left < shape.width && 0 <= right <= shape.width
      requires TargetsOf(list, cells, delta)
      requires LineupRun(LineupState(left, right, canLeft, canRight, cells), minRow, maxRow, count) == last
      ensures TargetsOf(list', cells', delta)
      ensures -1 <= left' <= left && right <= right' <= shape.width
      ensures !done ==> left' - right' < left - right
      ensures done || |list'| >= count ==> LineupState(left', right', canLeft', canRight', cells') == last
      ensures !done ==> LineupRun(LineupState(left', right', canLeft', canRight', cells'), minRow, maxRow, count) == last
    {
      list', cells', left', right', canLeft', canRight', done :=
        SearchBody(list, cells, delta, minRow, maxRow, count, left, right, canLeft, canRight);
      LineupRunUnfold(LineupState(left, right, canLeft, canRight, cells), minRow, maxRow, count);
      if !done && |list'| >= count {
        LineupRunUnfold(LineupState(left', right', canLeft', canRight', cells'), minRow, maxRow, count);
      }
    }

    /** The loop of getNpcMoveTargetListBy for at least one unit: starting
        from LineupStart it repeats SearchStep until an iteration exits, and
        it ends in the state LineupRun gives. */
    method SearchLoop(count: int, centreCol: int, minRow: int, maxRow: int, delta: Vec2)
      returns (list: seq<Vec2>, ghost cells: seq<Cell>, left: int, right: int,
               canSearchLeft: bool, canSearchRight: bool)
      requires Valid() && 0 <= centreCol < shape.width
      requires count >= 1 && 0 <= minRow && maxRow < shape.height
      ensures TargetsOf(list, cells, delta)
      ensures LineupRun(LineupStart(centreCol), minRow, maxRow, count)
              == LineupState(left, right, canSearchLeft, canSearchRight, cells)
    {
      canSearchLeft, canSearchRight := true, true;
      left, right := centreCol, centreCol + 1;
      list, cells := [], [];
      ghost var last := LineupRun(LineupStart(centreCol), minRow, maxRow, count);
      var done := false;
      while |list| < count
        invariant TargetsOf(list, cells, delta)
        invariant -1 <= left < shape.width && 0 <= right <= shape.width
        invariant !done
        invariant |list| < count ==>
                    LineupRun(LineupState(left, right, canSearchLeft, canSearchRight, cells), minRow, maxRow, count) == last
        invariant |list| >= count ==> LineupState(left, right, canSearchLeft, canSearchRight, cells) == last
        decreases left + 1 + shape.width - right
      {
        list, cells, left, right, canSearchLeft, canSearchRight, done :=
          SearchStep(list, cells, delta, minRow, maxRow, count, left, right, canSearchLeft, canSearchRight, last);
        if done {
          break;
        }
      }
    }

    /** The search of getNpcMoveTargetListBy for a given centre column, row
        band and cursor offset: the alternating probes of LineupCells,
        starting with the centre column on the left and the next column on
        the right. A side is given up after a probe that finds no free cell.
        The source loops forever when neither side can probe any more (both
        indices off the map) while both sides are still enabled; the model
        stops there, which is its only change to the loop. */
    method SearchFormation(count: int, centreCol: int, minRow: int, maxRow: int, delta: Vec2)
      returns (list: seq<Vec2>, ghost cells: seq<Cell>, ghost lo: int, ghost hi: int)
      requires Valid() && 0 <= centreCol < shape.width
      requires count >= 1 ==> 0 <= minRow && maxRow < shape.height
      ensures cells == LineupCells(centreCol, minRow, maxRow, count)
      ensures TargetsOf(list, cells, delta)
      ensures count <= 0 ==> list == []
      ensures 0 <= lo <= centreCol + 1 && (count >= 1 ==> lo <= centreCol)
      ensures centreCol <= hi < shape.width
      ensures Formation(cells, minRow, maxRow, lo, hi, count)
      ensures |list| < count ==>
                && (lo == 0 || ColumnBlocked(lo, minRow, maxRow))
                && (hi == shape.width - 1 || ColumnBlocked(hi, minRow, maxRow))
    {
      if count <= 0 {
        list, cells, lo, hi := [], [], centreCol + 1, centreCol;
        NoLineup(centreCol, minRow, maxRow, count);
      } else {
        var left, right, canSearchLeft, canSearchRight;
        list, cells, left, right, canSearchLeft, canSearchRight := SearchLoop(count, centreCol, minRow, maxRow, delta);
        lo, hi := left + 1, right - 1;
        LineupOutcome(centreCol, minRow, maxRow, count, cells, lo, hi);
      }
    }

    /** The targets are the cells' anchors moved by delta. */
    lemma FormationAnchors(list: seq<Vec2>, cells: seq<Cell>, delta: Vec2)
      requires Valid() && Anchored() && TargetsOf(list, cells, delta)
      ensures forall i :: 0 <= i < |list| ==> list[i] == Add(LeftTopPosition(shape, cells[i]), delta)
    {
    }

    /** Distinct cells give distinct targets. */
    lemma FormationTargetsDistinct(list: seq<Vec2>, cells: seq<Cell>, delta: Vec2)
      requires Valid() && Anchored() && TargetsOf(list, cells, delta) && Distinct(cells)
      ensures Distinct(list)
    {
      FormationAnchors(list, cells, delta);
      forall i, j | 0 <= i < j < |list| ensures list[i] != list[j] {
        if list[i] == list[j] {
          AddCancel(LeftTopPosition(shape, cells[i]), LeftTopPosition(shape, cells[j]), delta);
          LeftTopInjective(shape, cells[i], cells[j]);
        }
      }
    }
  }
}
