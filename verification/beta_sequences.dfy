/** The run tracing of `client/beta-game.js`: `findCardSequences`, `traceSequence`
    and `addInsertionZonesForSequence`. A run along an axis is a maximal stretch of
    adjacent cells holding cards of that axis' orientation (`querformat` for the
    horizontal axis, `hochformat` for the vertical one). A traced card is given by its
    cell; its card is the board's entry there. */
module BetaSequences {
  import opened Common
  import opened ExpressRules
  import opened BetaZones

  /** The orientation that belongs to a run along `axis`. */
  function RunOrientation(axis: Axis): Orientation {
    if axis == Horizontal then Querformat else Hochformat
  }

  /** The cell at `p` holds a card of the orientation of `axis`. */
  predicate Matches(board: Board, axis: Axis, p: Pos) {
    p in board && board[p].orientation == RunOrientation(axis)
  }

  /** The cell `k` steps from `p` along `axis` (backwards for negative `k`). */
  function Step(p: Pos, axis: Axis, k: int): Pos {
    if axis == Horizontal then Pos(p.x + k, p.y) else Pos(p.x, p.y + k)
  }

  /** The coordinate of `p` along `axis`. */
  function Coord(axis: Axis, p: Pos): int { if axis == Horizontal then p.x else p.y }

  /** The `n` cells from `first` on all match. */
  predicate Run(board: Board, axis: Axis, first: Pos, n: int) {
    forall k :: 0 <= k < n ==> Matches(board, axis, Step(first, axis, k))
  }

  /** `cards` lists, in increasing order, a non-empty run that cannot be extended at
      either end. */
  predicate MaximalRun(board: Board, axis: Axis, cards: seq<Pos>) {
    |cards| > 0 &&
    (forall i :: 0 <= i < |cards| ==> cards[i] == Step(cards[0], axis, i)) &&
    Run(board, axis, cards[0], |cards|) &&
    !Matches(board, axis, Step(cards[0], axis, -1)) &&
    !Matches(board, axis, Step(cards[0], axis, |cards|))
  }

  /** Bounds of the coordinates of a finite set of cells. */
  lemma CoordBounds(cells: set<Pos>) returns (lo: int, hi: int)
    ensures forall q :: q in cells ==> lo <= q.x <= hi && lo <= q.y <= hi
  {
    if cells == {} {
      return 0, 0;
    }
    var c :| c in cells;
    lo, hi := CoordBounds(cells - {c});
    if c.x < lo { lo := c.x; }
    if c.y < lo { lo := c.y; }
    if c.x > hi { hi := c.x; }
    if c.y > hi { hi := c.y; }
  }

  /** `traceSequence(startX, startY, direction, processedPositions)`: walk back from the
      start while the previous cell matches, then collect matching cells forward and
      mark them processed. A matching start lies in the maximal run that is returned;
      a non-matching start yields the run that ends just before it, if any. */
  method TraceSequence(board: Board, start: Pos, axis: Axis, processed: set<Pos>)
    returns (cards: seq<Pos>, processed': set<Pos>)
    ensures cards != [] ==> MaximalRun(board, axis, cards)
    ensures Matches(board, axis, start) ==> start in cards
    ensures !Matches(board, axis, start) ==> (cards == [] <==> !Matches(board, axis, Step(start, axis, -1)))
    ensures !Matches(board, axis, start) && cards != [] ==> cards[|cards| - 1] == Step(start, axis, -1)
    ensures forall q :: q in processed' <==> q in processed || q in cards
  {
    var first, d := WalkBack(board, start, axis);
    cards, processed' := CollectForward(board, first, axis, processed);
    assert Step(first, axis, |cards|) == Step(start, axis, |cards| - d);
    assert Step(first, axis, d) == start;
    if Matches(board, axis, start) {
      assert |cards| > d;
      assert cards[d] == start;
    } else {
      assert |cards| <= d;
      assert |cards| == d;
      if d > 0 {
        assert cards[|cards| - 1] == Step(start, axis, -1);
      }
    }
  }

  /** The first loop of `traceSequence`: step back while the previous cell matches.
      It stops `d` cells back, every cell passed matches, and the cell before the
      stop does not. */
  method WalkBack(board: Board, start: Pos, axis: Axis) returns (first: Pos, ghost d: int)
    ensures d >= 0 && first == Step(start, axis, -d)
    ensures forall k :: -d <= k < 0 ==> Matches(board, axis, Step(start, axis, k))
    ensures !Matches(board, axis, Step(first, axis, -1))
  {
    ghost var lo, hi := CoordBounds(board.Keys + {start});
    first := start;
    d := 0;
    while Matches(board, axis, Step(first, axis, -1))
      invariant d >= 0
      invariant first == Step(start, axis, -d)
      invariant forall k :: -d <= k < 0 ==> Matches(board, axis, Step(start, axis, k))
      invariant lo <= Coord(axis, first)
      decreases Coord(axis, first) - lo
    {
      first := Step(first, axis, -1);
      d := d + 1;
    }
  }

  /** The second loop of `traceSequence`: collect matching cells forward from `first`
      and mark each processed. The cells collected are consecutive and all match,
      and the cell after them does not. */
  method CollectForward(board: Board, first: Pos, axis: Axis, processed: set<Pos>)
    returns (cards: seq<Pos>, processed': set<Pos>)
    ensures forall i :: 0 <= i < |cards| ==> cards[i] == Step(first, axis, i)
    ensures Run(board, axis, first, |cards|) && !Matches(board, axis, Step(first, axis, |cards|))
    ensures forall q :: q in processed' <==> q in processed || q in cards
  {
    ghost var lo, hi := CoordBounds(board.Keys + {first});
    var cur := first;
    cards := [];
    processed' := processed;
    while Matches(board, axis, cur)
      invariant cur == Step(first, axis, |cards|)
      invariant forall i :: 0 <= i < |cards| ==> cards[i] == Step(first, axis, i)
      invariant Run(board, axis, first, |cards|)
      invariant forall q :: q in processed' <==> q in processed || q in cards
      invariant Coord(axis, cur) <= hi + 1
      decreases hi + 1 - Coord(axis, cur)
    {
      cards := cards + [cur];
      processed' := processed' + {cur};
      cur := Step(cur, axis, 1);
    }
  }

  /** Two maximal runs that share a cell are the same run. */
  lemma SharedCellSameRun(board: Board, axis: Axis, r: seq<Pos>, s: seq<Pos>, q: Pos)
    requires MaximalRun(board, axis, r) && MaximalRun(board, axis, s)
    requires q in r && q in s
    ensures r == s
  {
    var i :| 0 <= i < |r| && r[i] == q;
    var j :| 0 <= j < |s| && s[j] == q;
    assert Step(r[0], axis, i - j - 1) == Step(s[0], axis, -1);
    assert Step(s[0], axis, j - i - 1) == Step(r[0], axis, -1);
    assert i <= j;
    assert j <= i;
    assert r[0] == s[0];
    assert Step(r[0], axis, |s|) == Step(s[0], axis, |s|);
    assert Step(s[0], axis, |r|) == Step(r[0], axis, |r|);
    assert |r| == |s|;
  }

  /** `findCardSequences(direction)`: every board cell, in an unspecified order, that
      matches and is not yet processed starts a trace. The runs found are maximal,
      pairwise disjoint, and cover every matching card. */
  method FindCardSequences(board: Board, axis: Axis) returns (runs: seq<seq<Pos>>)
    ensures forall i :: 0 <= i < |runs| ==> MaximalRun(board, axis, runs[i])
    ensures forall i, j, q :: 0 <= i < j < |runs| && q in runs[i] ==> q !in runs[j]
    ensures forall p :: Matches(board, axis, p) ==> exists i :: 0 <= i < |runs| && p in runs[i]
  {
    runs := [];
    var processed: set<Pos> := {};
    var remaining := board.Keys;
    while remaining != {}
      invariant remaining <= board.Keys
      invariant forall i :: 0 <= i < |runs| ==> MaximalRun(board, axis, runs[i])
      invariant forall i, j, q :: 0 <= i < j < |runs| && q in runs[i] ==> q !in runs[j]
      invariant forall q :: q in processed <==> exists i :: 0 <= i < |runs| && q in runs[i]
      invariant forall p :: Matches(board, axis, p) && p !in remaining ==> p in processed
      decreases remaining
    {
      var p :| p in remaining;
      remaining := remaining - {p};
      if p in processed || !Matches(board, axis, p) {
        continue;
      }
      var cards, processed' := TraceSequence(board, p, axis, processed);
      RunsExtended(board, axis, runs, processed, cards, processed', p);
      runs := runs + [cards];
      processed := processed';
    }
  }

  /** Adding the run traced from an unprocessed matching cell keeps the runs maximal
      and pairwise disjoint, and the processed cells exactly the cells of the runs. */
  lemma RunsExtended(board: Board, axis: Axis, runs: seq<seq<Pos>>, processed: set<Pos>,
                     cards: seq<Pos>, processed': set<Pos>, p: Pos)
    requires forall i :: 0 <= i < |runs| ==> MaximalRun(board, axis, runs[i])
    requires forall i, j, q :: 0 <= i < j < |runs| && q in runs[i] ==> q !in runs[j]
    requires forall q :: q in processed <==> exists i :: 0 <= i < |runs| && q in runs[i]
    requires MaximalRun(board, axis, cards) && p in cards && p !in processed
    requires forall q :: q in processed' <==> q in processed || q in cards
    ensures var runs' := runs + [cards];
      (forall i :: 0 <= i < |runs'| ==> MaximalRun(board, axis, runs'[i])) &&
      (forall i, j, q :: 0 <= i < j < |runs'| && q in runs'[i] ==> q !in runs'[j]) &&
      (forall q :: q in processed' <==> exists i :: 0 <= i < |runs'| && q in runs'[i])
  {
    NewRunIsDisjoint(board, axis, runs, cards, p);
    var runs' := runs + [cards];
    forall q ensures q in processed' <==> exists i :: 0 <= i < |runs'| && q in runs'[i] {
      assert q in cards <==> q in runs'[|runs'| - 1];
      if exists i :: 0 <= i < |runs| && q in runs[i] {
        var i :| 0 <= i < |runs| && q in runs[i];
        assert q in runs'[i];
      }
    }
  }

  /** A maximal run through a cell that no earlier run holds shares no cell with any
      earlier maximal run. */
  lemma NewRunIsDisjoint(board: Board, axis: Axis, runs: seq<seq<Pos>>, cards: seq<Pos>, p: Pos)
    requires forall i :: 0 <= i < |runs| ==> MaximalRun(board, axis, runs[i])
    requires MaximalRun(board, axis, cards) && p in cards
    requires forall i :: 0 <= i < |runs| ==> p !in runs[i]
    ensures forall i, q :: 0 <= i < |runs| && q in runs[i] ==> q !in cards
  {
    forall i, q | 0 <= i < |runs| && q in runs[i] && q in cards
      ensures runs[i] == cards
    {
      SharedCellSameRun(board, axis, runs[i], cards, q);
    }
  }

  /** The doubled midpoint of two cells. */
  function MidZone(a: Pos, b: Pos): Pos { Pos(a.x + b.x, a.y + b.y) }

  /** `addInsertionZonesForSequence(sequence, possiblePositions)`: for each two
      consecutive cards, their midpoint is added when it is a whole cell that is free. */
  method AddInsertionZonesForSequence(board: Board, cards: seq<Pos>, possible: set<Pos>) returns (r: set<Pos>)
    ensures forall z :: z in r <==> (z in possible ||
      exists i :: 0 <= i < |cards| - 1 && z == MidZone(cards[i], cards[i + 1]) && Whole(z) && CellOf(z) !in board)
  {
    r := possible;
    var i := 0;
    while i < |cards| - 1
      invariant 0 <= i <= |cards| || |cards| == 0
      invariant forall z :: z in r <==> (z in possible ||
        exists k :: 0 <= k < i && k < |cards| - 1 && z == MidZone(cards[k], cards[k + 1]) && Whole(z) && CellOf(z) !in board)
    {
      var z := MidZone(cards[i], cards[i + 1]);
      if Whole(z) && CellOf(z) !in board {
        r := r + {z};
      }
      i := i + 1;
    }
  }

  /** The cards of a traced run are adjacent, so their midpoints are never whole
      cells: for a run that `traceSequence` returns the function adds nothing. */
  lemma {:induction false} RunHasNoInsertionZones(board: Board, axis: Axis, cards: seq<Pos>)
    requires MaximalRun(board, axis, cards)
    ensures forall i :: 0 <= i < |cards| - 1 ==> !Whole(MidZone(cards[i], cards[i + 1]))
  {
    forall i | 0 <= i < |cards| - 1 ensures !Whole(MidZone(cards[i], cards[i + 1])) {
      assert cards[i + 1] == Step(cards[0], axis, i + 1);
      assert Coord(axis, MidZone(cards[i], cards[i + 1])) == 2 * Coord(axis, cards[i]) + 1;
    }
  }
}
