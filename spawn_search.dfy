/** The reference for the spawn-point search around a base camp
    (GameWorld.cpp, computeNpcCreatePointList): the search boxes, the order
    in which one pass probes the cells on a box's border, and the greedy
    claim of free cells over a run of probes. */
module SpawnSearch {
  import opened Common
  import opened Geometry

  /** A search box on a width x height map: columns left..right and rows
      top..bottom, inclusive. The four indices lie on the map; a box whose
      left column is right of its right column probes only its left and
      right columns. */
  datatype Box = Box(left: int, top: int, right: int, bottom: int)

  predicate BoxInMap(b: Box, width: int, height: int) {
    0 <= b.left < width && 0 <= b.right < width && 0 <= b.top < height && 0 <= b.bottom < height
  }

  predicate Ordered(b: Box) {
    b.left <= b.right && b.top <= b.bottom
  }

  predicate FullBox(b: Box, width: int, height: int) {
    b == Box(0, 0, width - 1, height - 1)
  }

  predicate InBox(x: Cell, b: Box) {
    b.left <= x.col <= b.right && b.top <= x.row <= b.bottom
  }

  /** A cell of the box that is not on its border. */
  predicate StrictlyInside(x: Cell, b: Box) {
    b.left < x.col < b.right && b.top < x.row < b.bottom
  }

  /** A box grown by one tile on each side, clamped to the map. */
  function Expand(b: Box, width: int, height: int): (e: Box)
    ensures BoxInMap(b, width, height) ==>
              && BoxInMap(e, width, height)
              && e.left <= b.left && e.top <= b.top && b.right <= e.right && b.bottom <= e.bottom
              && (Ordered(b) ==> Ordered(e))
    ensures e.left >= b.left - 1 && e.top >= b.top - 1 && e.right <= b.right + 1 && e.bottom <= b.bottom + 1
    ensures e == b <==> FullBox(b, width, height)
  {
    Box(Max(b.left - 1, 0), Max(b.top - 1, 0), Min(b.right + 1, width - 1), Min(b.bottom + 1, height - 1))
  }

  /** The box of the n-th pass. */
  function BoxAt(b0: Box, n: nat, width: int, height: int): (b: Box)
    ensures BoxInMap(b0, width, height) ==> BoxInMap(b, width, height)
    ensures BoxInMap(b0, width, height) && Ordered(b0) ==> Ordered(b)
  {
    if n == 0 then b0 else Expand(BoxAt(b0, n - 1, width, height), width, height)
  }

  /** The top and then the bottom cell of each column left..c-1. */
  function ColumnsUpTo(b: Box, c: int): seq<Cell>
    decreases c - b.left
  {
    if c <= b.left then [] else ColumnsUpTo(b, c - 1) + [Cell(c - 1, b.top), Cell(c - 1, b.bottom)]
  }

  /** The left and then the right cell of each row top..r-1. */
  function RowsUpTo(b: Box, r: int): seq<Cell>
    decreases r - b.top
  {
    if r <= b.top then [] else RowsUpTo(b, r - 1) + [Cell(b.left, r - 1), Cell(b.right, r - 1)]
  }

  /** One pass over a box: for each column left to right its top and then
      its bottom cell, then for each row top to bottom its left and then
      its right cell. */
  function PassProbes(b: Box): seq<Cell> {
    ColumnsUpTo(b, b.right + 1) + RowsUpTo(b, b.bottom + 1)
  }

  /** The probes of the first n passes. */
  function Probes(b0: Box, n: nat, width: int, height: int): seq<Cell>
  {
    if n == 0 then [] else Probes(b0, n - 1, width, height) + PassProbes(BoxAt(b0, n - 1, width, height))
  }

  /** A column step of a pass: two more probes, in order. */
  lemma ColumnsStep(pre: seq<Cell>, b: Box, c: int)
    requires b.left <= c
    ensures pre + ColumnsUpTo(b, c + 1) == (pre + ColumnsUpTo(b, c)) + [Cell(c, b.top), Cell(c, b.bottom)]
  {
    ConcatAssoc(pre, ColumnsUpTo(b, c), [Cell(c, b.top), Cell(c, b.bottom)]);
  }

  /** A row step of a pass: two more probes, in order. */
  lemma RowsStep(pre: seq<Cell>, b: Box, r: int)
    requires b.top <= r
    ensures pre + RowsUpTo(b, r + 1) == (pre + RowsUpTo(b, r)) + [Cell(b.left, r), Cell(b.right, r)]
  {
    ConcatAssoc(pre, RowsUpTo(b, r), [Cell(b.left, r), Cell(b.right, r)]);
  }

  /** The probes of n + 1 passes are those of n passes followed by the
      n-th pass's own. */
  lemma ProbesStep(b0: Box, n: nat, width: int, height: int)
    ensures BoxAt(b0, n + 1, width, height) == Expand(BoxAt(b0, n, width, height), width, height)
    ensures Probes(b0, n + 1, width, height) == Probes(b0, n, width, height) + PassProbes(BoxAt(b0, n, width, height))
  {
  }

  /** The last of n passes was over the whole map. */
  predicate Exhausted(b0: Box, n: nat, width: int, height: int) {
    n >= 1 && FullBox(BoxAt(b0, n - 1, width, height), width, height)
  }

  /** The cells the search claims over a run of probes: a probed cell is
      taken when it is not blocked, not taken before, and fewer than count
      cells have been taken. */
  function Claimed(blocked: set<Cell>, probes: seq<Cell>, count: int): seq<Cell> {
    if probes == [] then []
    else
      var prev := Claimed(blocked, probes[..|probes| - 1], count);
      var c := probes[|probes| - 1];
      if c !in blocked && c !in prev && |prev| < count then prev + [c] else prev
  }

  /** Never more than count cells, each of them probed and not blocked,
      none twice. */
  lemma {:induction false} ClaimedSound(blocked: set<Cell>, probes: seq<Cell>, count: int)
    ensures |Claimed(blocked, probes, count)| <= Max(count, 0)
    ensures forall i :: 0 <= i < |Claimed(blocked, probes, count)| ==>
              Claimed(blocked, probes, count)[i] !in blocked && Claimed(blocked, probes, count)[i] in probes
    ensures Distinct(Claimed(blocked, probes, count))
  {
    if probes != [] {
      var init := probes[..|probes| - 1];
      ClaimedSound(blocked, init, count);
      assert forall x :: x in init ==> x in probes;
    }
  }

  /** When every probed cell is blocked, nothing is claimed. */
  lemma {:induction false} ClaimedNoneFree(blocked: set<Cell>, probes: seq<Cell>, count: int)
    requires forall x :: x in probes ==> x in blocked
    ensures Claimed(blocked, probes, count) == []
  {
    if probes != [] {
      var init := probes[..|probes| - 1];
      assert forall x :: x in init ==> x in probes;
      ClaimedNoneFree(blocked, init, count);
    }
  }

  /** The claim is greedy: while fewer than count cells are taken, every
      probed cell that is not blocked has been taken. */
  lemma {:induction false} ClaimedComplete(blocked: set<Cell>, probes: seq<Cell>, count: int, c: Cell)
    requires |Claimed(blocked, probes, count)| < count
    requires c in probes && c !in blocked
    ensures c in Claimed(blocked, probes, count)
  {
    var init := probes[..|probes| - 1];
    var prev := Claimed(blocked, init, count);
    if c != probes[|probes| - 1] {
      assert c in init by {
        var k :| 0 <= k < |probes| && probes[k] == c;
        assert k < |probes| - 1 && init[k] == c;
      }
      ClaimedComplete(blocked, init, count, c);
    }
  }

  /** Claiming over a longer run of probes only adds cells at the end. */
  lemma {:induction false} ClaimedPrefix(blocked: set<Cell>, probes: seq<Cell>, more: seq<Cell>, count: int)
    ensures Claimed(blocked, probes, count) <= Claimed(blocked, probes + more, count)
    decreases |more|
  {
    if more != [] {
      var all := probes + more;
      var m := more[..|more| - 1];
      assert all[..|all| - 1] == probes + m;
      ClaimedPrefix(blocked, probes, m, count);
    } else {
      assert probes + more == probes;
    }
  }

  /** Every cell a pass probes lies on the border of its box. */
  lemma {:induction false} ColumnsOnBorder(b: Box, c: int)
    ensures forall i :: 0 <= i < |ColumnsUpTo(b, c)| ==>
              b.left <= ColumnsUpTo(b, c)[i].col < c
              && (ColumnsUpTo(b, c)[i].row == b.top || ColumnsUpTo(b, c)[i].row == b.bottom)
    decreases c - b.left
  {
    if c > b.left {
      ColumnsOnBorder(b, c - 1);
    }
  }

  lemma {:induction false} RowsOnBorder(b: Box, r: int)
    ensures forall i :: 0 <= i < |RowsUpTo(b, r)| ==>
              b.top <= RowsUpTo(b, r)[i].row < r
              && (RowsUpTo(b, r)[i].col == b.left || RowsUpTo(b, r)[i].col == b.right)
    decreases r - b.top
  {
    if r > b.top {
      RowsOnBorder(b, r - 1);
    }
  }

  /** So every probe of a pass over a box on the map is a cell of the map
      on one of the box's four border lines. */
  lemma PassProbesOnBorder(b: Box, width: int, height: int)
    requires BoxInMap(b, width, height)
    ensures forall i :: 0 <= i < |PassProbes(b)| ==>
              var x := PassProbes(b)[i];
              && 0 <= x.col < width && 0 <= x.row < height
              && ((b.left <= x.col <= b.right && (x.row == b.top || x.row == b.bottom))
                  || (b.top <= x.row <= b.bottom && (x.col == b.left || x.col == b.right)))
  {
    ColumnsOnBorder(b, b.right + 1);
    RowsOnBorder(b, b.bottom + 1);
    var cs := ColumnsUpTo(b, b.right + 1);
    var rs := RowsUpTo(b, b.bottom + 1);
    assert forall i :: 0 <= i < |PassProbes(b)| ==>
             PassProbes(b)[i] == (if i < |cs| then cs[i] else rs[i - |cs|]);
  }

  /** Every probe of the first n passes is a cell of the map. */
  lemma {:induction false} ProbesInMap(b0: Box, n: nat, width: int, height: int)
    requires BoxInMap(b0, width, height)
    ensures forall x :: x in Probes(b0, n, width, height) ==> 0 <= x.col < width && 0 <= x.row < height
  {
    if n > 0 {
      ProbesInMap(b0, n - 1, width, height);
      PassProbesOnBorder(BoxAt(b0, n - 1, width, height), width, height);
    }
  }

  /** Conversely, a pass probes every cell of its box's border. */
  lemma {:induction false} ColumnsCover(b: Box, c: int, x: Cell)
    requires b.left <= x.col < c && (x.row == b.top || x.row == b.bottom)
    ensures x in ColumnsUpTo(b, c)
    decreases c - b.left
  {
    if x.col < c - 1 {
      ColumnsCover(b, c - 1, x);
    }
  }

  lemma {:induction false} RowsCover(b: Box, r: int, x: Cell)
    requires b.top <= x.row < r && (x.col == b.left || x.col == b.right)
    ensures x in RowsUpTo(b, r)
    decreases r - b.top
  {
    if x.row < r - 1 {
      RowsCover(b, r - 1, x);
    }
  }

  lemma BorderProbed(b: Box, x: Cell)
    requires InBox(x, b) && !StrictlyInside(x, b)
    ensures x in PassProbes(b)
  {
    var cs, rs := ColumnsUpTo(b, b.right + 1), RowsUpTo(b, b.bottom + 1);
    assert PassProbes(b) == cs + rs;
    if x.row == b.top || x.row == b.bottom {
      ColumnsCover(b, b.right + 1, x);
      var i :| 0 <= i < |cs| && cs[i] == x;
      assert (cs + rs)[i] == x;
    } else {
      RowsCover(b, b.bottom + 1, x);
      var i :| 0 <= i < |rs| && rs[i] == x;
      assert (cs + rs)[|cs| + i] == x;
    }
  }

  /** Each pass grows the box until it covers the map: after n passes the
      box reaches n tiles further on every side, clamped to the map. */
  lemma {:induction false} BoxAtGrows(b0: Box, n: nat, width: int, height: int)
    requires BoxInMap(b0, width, height)
    ensures BoxAt(b0, n, width, height).left == Max(b0.left - n, 0)
    ensures BoxAt(b0, n, width, height).top == Max(b0.top - n, 0)
    ensures BoxAt(b0, n, width, height).right == Min(b0.right + n, width - 1)
    ensures BoxAt(b0, n, width, height).bottom == Min(b0.bottom + n, height - 1)
  {
    if n > 0 {
      BoxAtGrows(b0, n - 1, width, height);
    }
  }

  /** Within width + height passes the box is the whole map. */
  lemma BoxAtBecomesFull(b0: Box, n: nat, width: int, height: int)
    requires BoxInMap(b0, width, height) && n >= width + height
    ensures FullBox(BoxAt(b0, n, width, height), width, height)
  {
    BoxAtGrows(b0, n, width, height);
  }

  /** The probes of fewer passes are a prefix of the probes of more. */
  lemma {:induction false} ProbesPrefix(b0: Box, m: nat, n: nat, width: int, height: int)
    requires BoxInMap(b0, width, height) && m <= n
    ensures Probes(b0, m, width, height) <= Probes(b0, n, width, height)
    decreases n
  {
    if m < n {
      ProbesPrefix(b0, m, n - 1, width, height);
    }
  }

  /** Every cell of the box of pass m that is not strictly inside the first
      box has been probed by the end of pass m. */
  lemma {:induction false} ProbedByPass(b0: Box, m: nat, width: int, height: int, x: Cell)
    requires BoxInMap(b0, width, height) && Ordered(b0)
    requires InBox(x, BoxAt(b0, m, width, height)) && !StrictlyInside(x, b0)
    ensures x in Probes(b0, m + 1, width, height)
  {
    var b := BoxAt(b0, m, width, height);
    ProbesPrefix(b0, m, m + 1, width, height);
    if m > 0 && InBox(x, BoxAt(b0, m - 1, width, height)) {
      ProbedByPass(b0, m - 1, width, height, x);
    } else {
      BorderProbed(b, x);
    }
  }

  /** Once a pass over the whole map is done, every cell of the map outside
      the interior of the first box has been probed; so if the claim is
      still short of count, every such cell that is not blocked has been
      claimed. */
  lemma SearchCoversMap(blocked: set<Cell>, b0: Box, n: nat, width: int, height: int, count: int, x: Cell)
    requires BoxInMap(b0, width, height) && Ordered(b0) && Exhausted(b0, n, width, height)
    requires 0 <= x.col < width && 0 <= x.row < height && !StrictlyInside(x, b0) && x !in blocked
    requires |Claimed(blocked, Probes(b0, n, width, height), count)| < count
    ensures x in Claimed(blocked, Probes(b0, n, width, height), count)
  {
    var m: nat := n - 1;
    assert FullBox(BoxAt(b0, m, width, height), width, height);
    ProbedByPass(b0, m, width, height, x);
    assert m + 1 == n;
    ClaimedComplete(blocked, Probes(b0, n, width, height), count, x);
  }

  /** The search loop as written, after n passes: it goes on while fewer
      than count cells are claimed, and has no other exit. */
  predicate SourceSearchContinues(blocked: set<Cell>, b0: Box, n: nat, width: int, height: int, count: int) {
    |Claimed(blocked, Probes(b0, n, width, height), count)| < count
  }

  /** When every cell of the map is blocked, the loop as written goes on
      after every number of passes. */
  lemma AllBlockedSpins(blocked: set<Cell>, b0: Box, n: nat, width: int, height: int, count: int)
    requires BoxInMap(b0, width, height) && count >= 1
    requires forall c, r :: 0 <= c < width && 0 <= r < height ==> Cell(c, r) in blocked
    ensures SourceSearchContinues(blocked, b0, n, width, height, count)
  {
    var probes := Probes(b0, n, width, height);
    ProbesInMap(b0, n, width, height);
    assert forall x :: x in probes ==> x == Cell(x.col, x.row);
    ClaimedNoneFree(blocked, probes, count);
  }

  /** On a 1 x 1 map whose only tile is blocked, a search for one cell
      goes on after every number of passes: the loop as written never
      ends. */
  lemma SourceSearchSpins(n: nat)
    ensures SourceSearchContinues({Cell(0, 0)}, Box(0, 0, 0, 0), n, 1, 1, 1)
  {
    AllBlockedSpins({Cell(0, 0)}, Box(0, 0, 0, 0), n, 1, 1, 1);
  }
}
