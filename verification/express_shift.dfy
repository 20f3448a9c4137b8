/** Floating insertion in the express server (`server/server-express.js`): how a
    half-integer drop position becomes a board cell, and `shiftCardsIfNeeded`, which
    moves a run of arm cards one cell outward to open a gap. Request coordinates are
    given doubled (`x2 == 2 * x`), so a `.5` coordinate is an odd number. */
module ExpressShift {
  import opened Common
  import opened ExpressRules

  /** The largest coordinate the run search looks at (`checkX <= 10`). */
  const ScanLimit: int := 10

  /** Requests the model covers: a plain move has integer coordinates and a floating
      insertion has at most one half-integer coordinate, as the client sends them. */
  predicate Representable(x2: int, y2: int, insertionMode: bool) {
    (insertionMode && x2 % 2 == 1 ==> y2 % 2 == 0) &&
    (!insertionMode ==> x2 % 2 == 0 && y2 % 2 == 0)
  }

  /** The cell a `playerMove` request targets and whether it asks for a shift: a
      half-integer coordinate in insertion mode is rounded up with `Math.ceil`. */
  function ActualPosition(x2: int, y2: int, insertionMode: bool): (r: (Pos, bool))
    requires Representable(x2, y2, insertionMode)
    ensures r.1 <==> insertionMode && (x2 % 2 == 1 || y2 % 2 == 1)
    ensures x2 <= 2 * r.0.x < x2 + 2 && y2 <= 2 * r.0.y < y2 + 2
    ensures x2 % 2 == 0 ==> 2 * r.0.x == x2
    ensures y2 % 2 == 0 ==> 2 * r.0.y == y2
  {
    if insertionMode && x2 % 2 == 1 then (Pos((x2 + 1) / 2, y2 / 2), true)
    else if insertionMode && y2 % 2 == 1 then (Pos(x2 / 2, (y2 + 1) / 2), true)
    else (Pos(x2 / 2, y2 / 2), false)
  }

  /** The orientation `playerMove` derives for the target cell (`None` off both axes). */
  function TargetOrientation(p: Pos): Option<Orientation> {
    if p.x == 0 && p.y == 0 then Some(Origin)
    else if p.y == 0 then Some(Querformat)
    else if p.x == 0 then Some(Hochformat)
    else None
  }

  /** The cell at coordinate `c` along the arm of `axis` through `fixed`. */
  function Cell(axis: Axis, fixed: int, c: int): Pos {
    if axis == Horizontal then Pos(c, fixed) else Pos(fixed, c)
  }

  /** The coordinates the run search collects from `c` on: cells of the arm's
      orientation are taken, other cards are stepped over, an empty cell or the scan
      limit ends the search. */
  function CollectRun(board: Board, axis: Axis, fixed: int, c: int): (r: seq<int>)
    decreases ScanLimit + 1 - c
    ensures forall i :: 0 <= i < |r| ==> c <= r[i] <= ScanLimit
    ensures forall i :: 0 <= i < |r| ==>
      (Cell(axis, fixed, r[i]) in board && board[Cell(axis, fixed, r[i])].orientation == ArmOrientation(axis))
  {
    if c > ScanLimit then []
    else if Cell(axis, fixed, c) in board && board[Cell(axis, fixed, c)].orientation == ArmOrientation(axis) then
      [c] + CollectRun(board, axis, fixed, c + 1)
    else if Cell(axis, fixed, c) !in board then []
    else CollectRun(board, axis, fixed, c + 1)
  }

  /** One relocation: the card that was at `c` in the original board is deleted from
      there and written one cell further out. */
  function MoveOne(b: Board, orig: Board, axis: Axis, fixed: int, c: int): Board
    requires Cell(axis, fixed, c) in orig
  {
    (b - {Cell(axis, fixed, c)})[Cell(axis, fixed, c + 1) := orig[Cell(axis, fixed, c)]]
  }

  /** The relocations of `cs[k..]`, done from the far end inward. */
  function ShiftSuffix(orig: Board, axis: Axis, fixed: int, cs: seq<int>, k: nat): Board
    requires k <= |cs|
    requires forall i :: 0 <= i < |cs| ==> Cell(axis, fixed, cs[i]) in orig
    decreases |cs| - k
  {
    if k == |cs| then orig
    else MoveOne(ShiftSuffix(orig, axis, fixed, cs, k + 1), orig, axis, fixed, cs[k])
  }

  /** What `shiftCardsIfNeeded(x, y, orientation)` leaves on the board. */
  function Shifted(board: Board, insert: Pos, orientation: Option<Orientation>): Board {
    if orientation == Some(Querformat) then
      var cs := CollectRun(board, Horizontal, insert.y, insert.x);
      ShiftSuffix(board, Horizontal, insert.y, cs, 0)
    else if orientation == Some(Hochformat) then
      var cs := CollectRun(board, Vertical, insert.x, insert.y);
      ShiftSuffix(board, Vertical, insert.x, cs, 0)
    else board
  }

  /** `shiftCardsIfNeeded`: the first loop collects the run, the second relocates it
      from the far end inward so that no card is written over a card not yet moved. */
  method ShiftCardsIfNeeded(board: Board, insert: Pos, orientation: Option<Orientation>) returns (result: Board)
    ensures result == Shifted(board, insert, orientation)
  {
    if orientation == Some(Querformat) {
      var toShift := CollectLoop(board, Horizontal, insert.y, insert.x);
      result := RelocateLoop(board, Horizontal, insert.y, toShift);
    } else if orientation == Some(Hochformat) {
      var toShift := CollectLoop(board, Vertical, insert.x, insert.y);
      result := RelocateLoop(board, Vertical, insert.x, toShift);
    } else {
      result := board;
    }
  }

  /** The first loop of `shiftCardsIfNeeded`, along either arm. */
  method CollectLoop(board: Board, axis: Axis, fixed: int, start: int) returns (toShift: seq<int>)
    ensures toShift == CollectRun(board, axis, fixed, start)
  {
    toShift := [];
    var c := start;
    while c <= ScanLimit
      invariant toShift + CollectRun(board, axis, fixed, c) == CollectRun(board, axis, fixed, start)
      decreases ScanLimit + 1 - c
    {
      var q := Cell(axis, fixed, c);
      if q in board && board[q].orientation == ArmOrientation(axis) {
        toShift := toShift + [c];
      } else if q !in board {
        assert CollectRun(board, axis, fixed, c) == [];
        break;
      }
      c := c + 1;
    }
  }

  /** The second loop of `shiftCardsIfNeeded`: the collected cards move one cell
      outward, the last one first. */
  method RelocateLoop(board: Board, axis: Axis, fixed: int, toShift: seq<int>) returns (result: Board)
    requires forall i :: 0 <= i < |toShift| ==> Cell(axis, fixed, toShift[i]) in board
    ensures result == ShiftSuffix(board, axis, fixed, toShift, 0)
  {
    result := board;
    var i := |toShift|;
    while i > 0
      invariant 0 <= i <= |toShift|
      invariant result == ShiftSuffix(board, axis, fixed, toShift, i)
    {
      i := i - 1;
      result := MoveOne(result, board, axis, fixed, toShift[i]);
    }
  }

  /** A contiguous run of arm cards from `lo` to `hi`, followed by a free cell. */
  predicate ContiguousRun(board: Board, axis: Axis, fixed: int, lo: int, hi: int) {
    lo <= hi &&
    (forall c :: lo <= c <= hi ==>
      (Cell(axis, fixed, c) in board && board[Cell(axis, fixed, c)].orientation == ArmOrientation(axis))) &&
    Cell(axis, fixed, hi + 1) !in board
  }

  /** The run search finds exactly such a run when it ends within the scan limit. */
  lemma {:induction false} CollectContiguous(board: Board, axis: Axis, fixed: int, lo: int, hi: int)
    requires ContiguousRun(board, axis, fixed, lo, hi) && hi <= ScanLimit
    ensures |CollectRun(board, axis, fixed, lo)| == hi - lo + 1
    ensures forall i :: 0 <= i <= hi - lo ==> CollectRun(board, axis, fixed, lo)[i] == lo + i
    decreases hi - lo
  {
    if lo < hi {
      CollectContiguous(board, axis, fixed, lo + 1, hi);
    } else {
      assert CollectRun(board, axis, fixed, lo + 1) == [];
    }
  }

  /** Where a cell's card comes from after the run `lo..hi` moved one cell out. */
  function Source(axis: Axis, fixed: int, lo: int, hi: int, q: Pos): Pos {
    if axis == Horizontal && q.y == fixed && lo < q.x <= hi + 1 then Pos(q.x - 1, q.y)
    else if axis == Vertical && q.x == fixed && lo < q.y <= hi + 1 then Pos(q.x, q.y - 1)
    else q
  }

  /** After relocating `cs[k..]` (the cells `lo + k .. hi`), those cards sit one cell
      further out, the cell `lo + k` is free and every other cell is as before. */
  lemma {:induction false} ShiftSuffixMovesRun(board: Board, axis: Axis, fixed: int, lo: int, hi: int, cs: seq<int>, k: nat)
    requires ContiguousRun(board, axis, fixed, lo, hi)
    requires |cs| == hi - lo + 1 && (forall i :: 0 <= i < |cs| ==> cs[i] == lo + i)
    requires k <= |cs|
    ensures var b := ShiftSuffix(board, axis, fixed, cs, k);
      Cell(axis, fixed, lo + k) !in b &&
      forall q :: q != Cell(axis, fixed, lo + k) ==>
        var s := Source(axis, fixed, lo + k, hi, q);
        (q in b <==> s in board) && (q in b ==> b[q] == board[s])
    decreases |cs| - k
  {
    if k < |cs| {
      ShiftSuffixMovesRun(board, axis, fixed, lo, hi, cs, k + 1);
      var inner := ShiftSuffix(board, axis, fixed, cs, k + 1);
      var b := ShiftSuffix(board, axis, fixed, cs, k);
      assert b == MoveOne(inner, board, axis, fixed, lo + k);
      forall q | q != Cell(axis, fixed, lo + k)
        ensures var s := Source(axis, fixed, lo + k, hi, q);
          (q in b <==> s in board) && (q in b ==> b[q] == board[s])
      {
        if q == Cell(axis, fixed, lo + k + 1) {
          assert Source(axis, fixed, lo + k, hi, q) == Cell(axis, fixed, lo + k);
        } else {
          assert Source(axis, fixed, lo + k, hi, q) == Source(axis, fixed, lo + k + 1, hi, q);
        }
      }
    }
  }

  /** Insertion is lossless when the run from the insertion cell is made of arm cards
      only and ends within the scan limit: the insertion cell becomes free, each card
      of the run moves exactly one cell outward, and nothing else changes. */
  lemma ShiftIsLossless(board: Board, axis: Axis, fixed: int, lo: int, hi: int)
    requires ContiguousRun(board, axis, fixed, lo, hi) && hi <= ScanLimit
    ensures var insert := Cell(axis, fixed, lo);
      var b := Shifted(board, insert, Some(ArmOrientation(axis)));
      insert !in b &&
      (forall c :: lo < c <= hi + 1 ==> Cell(axis, fixed, c) in b && b[Cell(axis, fixed, c)] == board[Cell(axis, fixed, c - 1)]) &&
      (forall q :: q != insert && Source(axis, fixed, lo, hi, q) == q ==> (q in b <==> q in board) && (q in b ==> b[q] == board[q]))
  {
    var cs := CollectRun(board, axis, fixed, lo);
    CollectContiguous(board, axis, fixed, lo, hi);
    ShiftSuffixMovesRun(board, axis, fixed, lo, hi, cs, 0);
    var insert := Cell(axis, fixed, lo);
    var b := Shifted(board, insert, Some(ArmOrientation(axis)));
    assert b == ShiftSuffix(board, axis, fixed, cs, 0);
    forall c | lo < c <= hi + 1
      ensures Cell(axis, fixed, c) in b && b[Cell(axis, fixed, c)] == board[Cell(axis, fixed, c - 1)]
    {
      assert Source(axis, fixed, lo, hi, Cell(axis, fixed, c)) == Cell(axis, fixed, c - 1);
    }
  }

  /** Relocation only ever writes to the arm it works on: every cell of the result
      was already a key or lies on that arm. */
  lemma {:induction false} ShiftSuffixStaysOnArm(orig: Board, axis: Axis, fixed: int, cs: seq<int>, k: nat)
    requires k <= |cs|
    requires forall i :: 0 <= i < |cs| ==> Cell(axis, fixed, cs[i]) in orig
    ensures forall q :: q in ShiftSuffix(orig, axis, fixed, cs, k) ==>
      q in orig || exists c :: q == Cell(axis, fixed, c)
    decreases |cs| - k
  {
    if k < |cs| {
      ShiftSuffixStaysOnArm(orig, axis, fixed, cs, k + 1);
      forall q | q in ShiftSuffix(orig, axis, fixed, cs, k)
        ensures q in orig || exists c :: q == Cell(axis, fixed, c)
      {
        if q == Cell(axis, fixed, cs[k] + 1) {
          assert q == Cell(axis, fixed, cs[k] + 1);
        }
      }
    }
  }

  /** Shifting for an insertion on an axis keeps every card on the cross. */
  lemma ShiftedKeepsOnAxes(board: Board, insert: Pos)
    requires OnAxes(board)
    ensures OnAxes(Shifted(board, insert, TargetOrientation(insert)))
  {
    var o := TargetOrientation(insert);
    if o == Some(Querformat) {
      ShiftSuffixStaysOnArm(board, Horizontal, insert.y, CollectRun(board, Horizontal, insert.y, insert.x), 0);
    } else if o == Some(Hochformat) {
      ShiftSuffixStaysOnArm(board, Vertical, insert.x, CollectRun(board, Vertical, insert.x, insert.y), 0);
    }
  }

  /** The run search steps over cards of another orientation instead of stopping, so
      an insertion on the left arm next to the origin carries the run across it and the
      origin card is overwritten: a card disappears from the board. */
  lemma ShiftOverwritesOrigin(a: PlacedCard, b: PlacedCard, o: PlacedCard)
    requires a.orientation == Querformat && b.orientation == Querformat && o.orientation == Origin
    ensures var board := map[Pos(-2, 0) := a, Pos(-1, 0) := b, Pos(0, 0) := o];
      var (insert, shift) := ActualPosition(-3, 0, true);
      insert == Pos(-1, 0) && shift &&
      Shifted(board, insert, TargetOrientation(insert)) == map[Pos(-2, 0) := a, Pos(0, 0) := b]
  {
    var board := map[Pos(-2, 0) := a, Pos(-1, 0) := b, Pos(0, 0) := o];
    assert CollectRun(board, Horizontal, 0, 1) == [];
    assert CollectRun(board, Horizontal, 0, 0) == [];
    assert CollectRun(board, Horizontal, 0, -1) == [-1];
    assert ShiftSuffix(board, Horizontal, 0, [-1], 1) == board;
    assert ShiftSuffix(board, Horizontal, 0, [-1], 0) == MoveOne(board, board, Horizontal, 0, -1);
    assert (board - {Pos(-1, 0)})[Pos(0, 0) := b] == map[Pos(-2, 0) := a, Pos(0, 0) := b];
  }
}
