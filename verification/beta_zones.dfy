/** The client's board computations in `client/beta-game.js`: its own placement
    check, the neighbour query, and the drop zones it offers. The client shows the
    express server's board, so cells hold placed cards; only their orientation is
    read. Drop zones may lie half-way between two cells, so a zone is written in
    doubled coordinates: the cell `(x, y)` is the zone `(2x, 2y)` and the floating
    position `(0.5, 0)` is the zone `(1, 0)`. */
module BetaZones {
  import opened Common
  import opened ExpressRules

  /** The zone of a whole cell. */
  function Zone(p: Pos): Pos { Pos(2 * p.x, 2 * p.y) }

  /** The cell of a zone with even coordinates. */
  function CellOf(z: Pos): Pos { Pos(z.x / 2, z.y / 2) }

  /** The cell at coordinate `c` on the arm of `axis` (`y = 0` or `x = 0`). */
  function AxisCell(axis: Axis, c: int): Pos {
    if axis == Horizontal then Pos(c, 0) else Pos(0, c)
  }

  /** A card of the other arm (anything but the origin card) across the arm from `p`. */
  predicate Blocked(board: Board, p: Pos, across: Axis) {
    var (a, b) := if across == Horizontal then (Right(p), Left(p)) else (Above(p), Below(p));
    (a in board && board[a].orientation != Origin) || (b in board && board[b].orientation != Origin)
  }

  /** `validateCardPlacement(card, x, y)`: a placement check without any value
      comparison. Its decisions, in source order: an occupied cell is refused, any
      cell of an empty board is accepted, the origin and cells off both axes are
      refused, a cell without an occupied neighbour is refused, a cell with a
      non-origin card across the arm is refused, anything else is accepted. */
  function ValidateCardPlacement(board: Board, p: Pos): (r: bool)
    ensures p in board ==> !r
    ensures p !in board && board == map[] ==> r
    ensures board != map[] && p == Pos(0, 0) ==> !r
    ensures board != map[] && p.x != 0 && p.y != 0 ==> !r
    ensures board != map[] && !HasAnyNeighbour(board, p) ==> !r
    ensures board != map[] && p.x == 0 && Blocked(board, p, Horizontal) ==> !r
    ensures board != map[] && p.y == 0 && Blocked(board, p, Vertical) ==> !r
    ensures (p !in board && board != map[] && (p.x == 0) != (p.y == 0) && HasAnyNeighbour(board, p) &&
             !Blocked(board, p, if p.x == 0 then Horizontal else Vertical)) ==> r
  {
    if p in board then false
    else if |board| == 0 then true
    else if p == Pos(0, 0) then false
    else if p.y != 0 && p.x != 0 then false
    else if !HasAnyNeighbour(board, p) then false
    else if p.x == 0 then !Blocked(board, p, Horizontal)
    else !Blocked(board, p, Vertical)
  }

  /** The client check is the express server's `validateMove` without the card data
      and the value comparison: whatever the server accepts, the client accepts. */
  lemma ServerAcceptImpliesClientAccept(catalog: seq<CatalogCard>, board: Board, cardId: int, p: Pos)
    requires ValidateMove(catalog, board, cardId, p) == Accept
    ensures ValidateCardPlacement(board, p)
  {
    if board != map[] {
      var axis := if p.y == 0 then Horizontal else Vertical;
      var card := Find(catalog, cardId).value;
      assert CheckOnArm(board, card, p, axis) == Accept;
      assert !CrossViolation(board, p, axis);
    }
  }

  /** `getAdjacentCards(x, y, orientation)`: of the two neighbours on the orientation's
      axis (above then below for `Hochformat`, right then left otherwise), the cells
      whose card has exactly that orientation, in that order. */
  function GetAdjacentCards(board: Board, p: Pos, o: Orientation): (r: seq<Pos>)
    ensures |r| <= 2
    ensures forall q :: q in r <==>
      (q in AxisPair(p, o) && q in board && board[q].orientation == o)
    ensures |r| == 2 ==> r == AxisPair(p, o)
  {
    var ps := AxisPair(p, o);
    var keep := (q: Pos) => q in board && board[q].orientation == o;
    (if keep(ps[0]) then [ps[0]] else []) + (if keep(ps[1]) then [ps[1]] else [])
  }

  /** The two cells `getAdjacentCards` looks at. */
  function AxisPair(p: Pos, o: Orientation): seq<Pos> {
    if o == Hochformat then [Above(p), Below(p)] else [Right(p), Left(p)]
  }

  /** A strictly increasing sequence. */
  predicate Increasing(s: seq<int>) {
    forall i, j :: 0 <= i < j < |s| ==> s[i] < s[j]
  }

  /** `c` put into its place in an increasing sequence. */
  function InsertSorted(s: seq<int>, c: int): (r: seq<int>)
    requires Increasing(s)
    ensures Increasing(r)
    ensures forall d :: d in r <==> d in s || d == c
    ensures forall k :: 0 <= k < |r| ==> r[k] in s || r[k] == c
  {
    if s == [] then [c]
    else if c < s[0] then [c] + s
    else if c == s[0] then s
    else [s[0]] + InsertSorted(s[1..], c)
  }

  /** The coordinates of the cards on the arm of `axis`, sorted: the `forEach` over
      the board's keys that pushes `x` (for `y === 0`) or `y` (for `x === 0`), then
      the numeric `sort`. The key order is arbitrary here. The origin lies on both
      arms. */
  method AxisCoordinates(board: Board, axis: Axis) returns (s: seq<int>)
    ensures Increasing(s)
    ensures forall c :: c in s <==> AxisCell(axis, c) in board
  {
    s := [];
    var remaining := board.Keys;
    while remaining != {}
      invariant remaining <= board.Keys
      invariant Increasing(s)
      invariant forall c :: c in s <==> AxisCell(axis, c) in board && AxisCell(axis, c) !in remaining
      decreases |remaining|
    {
      var q :| q in remaining;
      if axis == Horizontal && q.y == 0 {
        s := InsertSorted(s, q.x);
      } else if axis == Vertical && q.x == 0 {
        s := InsertSorted(s, q.y);
      }
      remaining := remaining - {q};
    }
  }

  /** The first and last element of an increasing sequence bound all its elements. */
  lemma IncreasingEnds(s: seq<int>, c: int)
    requires Increasing(s) && c in s
    ensures s[0] <= c <= s[|s| - 1]
  {
    var i :| 0 <= i < |s| && s[i] == c;
  }

  /** `c` lies just beyond the outermost card at one end of the arm of `axis`. */
  ghost predicate BeyondEnd(board: Board, axis: Axis, c: int) {
    (AxisCell(axis, c + 1) in board && forall k :: AxisCell(axis, k) in board ==> c + 1 <= k) ||
    (AxisCell(axis, c - 1) in board && forall k :: AxisCell(axis, k) in board ==> k <= c - 1)
  }

  /** A zone of a whole cell. */
  predicate Whole(z: Pos) { z.x % 2 == 0 && z.y % 2 == 0 }

  /** The zone lies on the arm of `axis`; `ArmCoord` is its cell's coordinate there. */
  predicate OnArm(axis: Axis, z: Pos) { if axis == Horizontal then z.y == 0 else z.x == 0 }
  function ArmCoord(axis: Axis, z: Pos): int { if axis == Horizontal then z.x / 2 else z.y / 2 }

  /** A free cell just beyond one end of the arm of `axis`. */
  ghost predicate EndZone(board: Board, axis: Axis, z: Pos) {
    Whole(z) && CellOf(z) !in board && OnArm(axis, z) && BeyondEnd(board, axis, ArmCoord(axis, z))
  }

  /** The board holds the origin card and nothing else. */
  predicate OriginOnly(board: Board) {
    |board| == 1 && Pos(0, 0) in board
  }

  /** The four cells next to the origin, as zones. */
  predicate NextToOrigin(z: Pos) {
    z == Pos(2, 0) || z == Pos(-2, 0) || z == Pos(0, 2) || z == Pos(0, -2)
  }

  /** The zones `generateRayExtensions` offers: a free cell beyond either end of either
      arm, and the free cells around a lone origin card. */
  ghost predicate IsRayZone(board: Board, z: Pos) {
    EndZone(board, Horizontal, z) || EndZone(board, Vertical, z) ||
    (OriginOnly(board) && NextToOrigin(z) && CellOf(z) !in board)
  }

  /** `generateRayExtensions(boardPositions, possiblePositions)`: adds to the set it is
      given exactly the ray zones of the board. */
  method GenerateRayExtensions(board: Board, possible: set<Pos>) returns (r: set<Pos>)
    ensures forall z :: z in r <==> z in possible || IsRayZone(board, z)
  {
    var hs := AxisCoordinates(board, Horizontal);
    var vs := AxisCoordinates(board, Vertical);
    r := possible;
    if |hs| > 0 {
      r := ExtendEnds(board, Horizontal, hs, r);
    } else {
      NoEndsOnEmptyArm(board, Horizontal, hs);
    }
    if |vs| > 0 {
      r := ExtendEnds(board, Vertical, vs, r);
    } else {
      NoEndsOnEmptyArm(board, Vertical, vs);
    }
    ghost var ends := r;
    if |board| == 1 && Pos(0, 0) in board {
      var around := [Pos(1, 0), Pos(-1, 0), Pos(0, 1), Pos(0, -1)];
      var i := 0;
      while i < |around|
        invariant 0 <= i <= |around|
        invariant forall z :: z in r <==> z in ends || exists j :: 0 <= j < i && z == Zone(around[j]) && around[j] !in board
      {
        if around[i] !in board {
          r := r + {Zone(around[i])};
        }
        i := i + 1;
      }
      forall z | NextToOrigin(z) && CellOf(z) !in board
        ensures exists j :: 0 <= j < |around| && z == Zone(around[j]) && around[j] !in board
      {
        var j := if z == Pos(2, 0) then 0 else if z == Pos(-2, 0) then 1 else if z == Pos(0, 2) then 2 else 3;
        assert z == Zone(around[j]);
      }
    }
  }

  /** `generateRayExtensions` for one arm with at least one card: the cells beyond the
      smallest and the largest coordinate are added unless occupied. */
  method ExtendEnds(board: Board, axis: Axis, coords: seq<int>, r: set<Pos>) returns (r': set<Pos>)
    requires Increasing(coords) && |coords| > 0
    requires forall c :: c in coords <==> AxisCell(axis, c) in board
    ensures forall z :: z in r' <==> z in r || EndZone(board, axis, z)
  {
    var lo := coords[0];
    var hi := coords[|coords| - 1];
    r' := r;
    if AxisCell(axis, lo - 1) !in board {
      r' := r' + {Zone(AxisCell(axis, lo - 1))};
    }
    if AxisCell(axis, hi + 1) !in board {
      r' := r' + {Zone(AxisCell(axis, hi + 1))};
    }
    forall k | AxisCell(axis, k) in board
      ensures lo <= k <= hi
    {
      IncreasingEnds(coords, k);
    }
    forall z | EndZone(board, axis, z)
      ensures z == Zone(AxisCell(axis, lo - 1)) || z == Zone(AxisCell(axis, hi + 1))
    {
      var c := ArmCoord(axis, z);
      assert z == Zone(AxisCell(axis, c));
      if AxisCell(axis, c + 1) in board && forall k :: AxisCell(axis, k) in board ==> c + 1 <= k {
        assert lo in coords;
      } else {
        assert hi in coords;
      }
    }
    assert Zone(AxisCell(axis, lo - 1)) in r' ==> EndZone(board, axis, Zone(AxisCell(axis, lo - 1)));
    assert Zone(AxisCell(axis, hi + 1)) in r' ==> EndZone(board, axis, Zone(AxisCell(axis, hi + 1)));
  }

  /** An arm without cards has no ends. */
  lemma NoEndsOnEmptyArm(board: Board, axis: Axis, coords: seq<int>)
    requires |coords| == 0 && forall c :: c in coords <==> AxisCell(axis, c) in board
    ensures forall z :: !EndZone(board, axis, z)
  {
  }

  /** The arm coordinate of a zone on the arm of `axis`, not halved. */
  function ArmValue(axis: Axis, z: Pos): int { if axis == Horizontal then z.x else z.y }

  /** `m` is the sum of the coordinates of two cards on the arm of `axis` with no card
      between them: twice the midpoint of the gap. */
  ghost predicate Gap(board: Board, axis: Axis, m: int) {
    exists a, b :: AxisCell(axis, a) in board && AxisCell(axis, b) in board && a < b && a + b == m &&
      forall c :: a < c < b ==> AxisCell(axis, c) !in board
  }

  /** A floating zone: the midpoint between two consecutive cards on the arm of `axis`. */
  ghost predicate FloatingZone(board: Board, axis: Axis, z: Pos) {
    OnArm(axis, z) && Gap(board, axis, ArmValue(axis, z))
  }

  /** The loop of `generateFloatingInsertionZones` over one arm's sorted coordinates:
      the midpoint of every two consecutive ones is added. */
  method AddMidpoints(board: Board, axis: Axis, coords: seq<int>, r: set<Pos>) returns (r': set<Pos>)
    requires Increasing(coords)
    requires forall c :: c in coords <==> AxisCell(axis, c) in board
    ensures forall z :: z in r' <==> z in r || FloatingZone(board, axis, z)
  {
    r' := r;
    var i := 0;
    while i < |coords| - 1
      invariant 0 <= i <= |coords| || |coords| == 0
      invariant forall z :: z in r' <==>
        (z in r || exists k :: 0 <= k < i && k + 1 < |coords| && z == AxisCell(axis, coords[k] + coords[k + 1]))
    {
      r' := r' + {AxisCell(axis, coords[i] + coords[i + 1])};
      i := i + 1;
    }
    MidpointsAreFloating(board, axis, coords);
  }

  /** The midpoints of consecutive sorted coordinates are exactly the floating zones. */
  lemma MidpointsAreFloating(board: Board, axis: Axis, coords: seq<int>)
    requires Increasing(coords)
    requires forall c :: c in coords <==> AxisCell(axis, c) in board
    ensures forall z :: (exists k :: 0 <= k < |coords| - 1 && z == AxisCell(axis, coords[k] + coords[k + 1])) <==>
      FloatingZone(board, axis, z)
  {
    forall z
      ensures (exists k :: 0 <= k < |coords| - 1 && z == AxisCell(axis, coords[k] + coords[k + 1])) <==>
        FloatingZone(board, axis, z)
    {
      if exists k :: 0 <= k < |coords| - 1 && z == AxisCell(axis, coords[k] + coords[k + 1]) {
        var k :| 0 <= k < |coords| - 1 && z == AxisCell(axis, coords[k] + coords[k + 1]);
        MidpointIsFloating(board, axis, coords, k);
      }
      if FloatingZone(board, axis, z) {
        FloatingIsMidpoint(board, axis, coords, z);
      }
    }
  }

  /** The midpoint of two consecutive sorted coordinates is a floating zone. */
  lemma MidpointIsFloating(board: Board, axis: Axis, coords: seq<int>, k: int)
    requires Increasing(coords) && 0 <= k < |coords| - 1
    requires forall c :: c in coords <==> AxisCell(axis, c) in board
    ensures FloatingZone(board, axis, AxisCell(axis, coords[k] + coords[k + 1]))
  {
    var z := AxisCell(axis, coords[k] + coords[k + 1]);
    var a, b := coords[k], coords[k + 1];
    forall j | 0 <= j < |coords| ensures coords[j] <= a || coords[j] >= b {
      if j <= k {
        assert coords[j] <= coords[k];
      } else {
        assert coords[j] >= coords[k + 1];
      }
    }
    assert a in coords && b in coords;
    assert OnArm(axis, z) && ArmValue(axis, z) == a + b;
    assert Gap(board, axis, ArmValue(axis, z));
  }

  /** A floating zone is the midpoint of two consecutive sorted coordinates. */
  lemma FloatingIsMidpoint(board: Board, axis: Axis, coords: seq<int>, z: Pos)
    requires Increasing(coords)
    requires forall c :: c in coords <==> AxisCell(axis, c) in board
    requires FloatingZone(board, axis, z)
    ensures exists k :: 0 <= k < |coords| - 1 && z == AxisCell(axis, coords[k] + coords[k + 1])
  {
    var m := ArmValue(axis, z);
    var a, b :| AxisCell(axis, a) in board && AxisCell(axis, b) in board && a < b && a + b == m &&
      forall c :: a < c < b ==> AxisCell(axis, c) !in board;
    var ia :| 0 <= ia < |coords| && coords[ia] == a;
    var ib :| 0 <= ib < |coords| && coords[ib] == b;
    assert ia < ib;
    assert coords[ia + 1] in coords;
    assert ib == ia + 1;
    assert z == AxisCell(axis, coords[ia] + coords[ia + 1]);
  }

  /** With fewer than two cards on an arm, all its cards share one coordinate. */
  lemma OneCoordinate(board: Board, axis: Axis, coords: seq<int>)
    requires |coords| < 2 && forall c :: c in coords <==> AxisCell(axis, c) in board
    ensures forall a, b :: AxisCell(axis, a) in board && AxisCell(axis, b) in board ==> a == b
  {
    forall a, b | AxisCell(axis, a) in board && AxisCell(axis, b) in board ensures a == b {
      assert a in coords && b in coords;
    }
  }

  /** `generateFloatingInsertionZones(boardPositions, possiblePositions)`: for each arm
      with at least two cards, the midpoints between consecutive cards are added. */
  method GenerateFloatingInsertionZones(board: Board, possible: set<Pos>) returns (r: set<Pos>)
    ensures forall z :: z in r <==>
      z in possible || FloatingZone(board, Horizontal, z) || FloatingZone(board, Vertical, z)
  {
    var hs := AxisCoordinates(board, Horizontal);
    var vs := AxisCoordinates(board, Vertical);
    r := possible;
    if |hs| >= 2 {
      r := AddMidpoints(board, Horizontal, hs, r);
    } else {
      OneCoordinate(board, Horizontal, hs);
    }
    if |vs| >= 2 {
      r := AddMidpoints(board, Vertical, vs, r);
    } else {
      OneCoordinate(board, Vertical, vs);
    }
  }

  /** `generateDropZones()` (the positions only): the origin alone on an empty board,
      otherwise the ray zones and the floating zones. */
  method GenerateDropZones(board: Board) returns (zones: set<Pos>)
    ensures board == map[] ==> zones == {Pos(0, 0)}
    ensures board != map[] ==> forall z :: z in zones <==>
      IsRayZone(board, z) || FloatingZone(board, Horizontal, z) || FloatingZone(board, Vertical, z)
  {
    if |board| == 0 {
      return {Pos(0, 0)};
    }
    zones := GenerateRayExtensions(board, {});
    zones := GenerateFloatingInsertionZones(board, zones);
  }

  /** On a board whose cards all lie on the axes and that holds the origin card, every
      whole-cell zone the client offers at a ray end passes the client's own check. */
  lemma RayZoneIsPlayable(board: Board, z: Pos)
    requires OnAxes(board) && Pos(0, 0) in board && IsRayZone(board, z)
    ensures ValidateCardPlacement(board, CellOf(z))
  {
    var p := CellOf(z);
    if EndZone(board, Horizontal, z) {
      assert p.y == 0;
      if AxisCell(Horizontal, p.x + 1) in board && forall k :: AxisCell(Horizontal, k) in board ==> p.x + 1 <= k {
        assert AxisCell(Horizontal, 0) in board;
      } else {
        assert AxisCell(Horizontal, 0) in board;
      }
      assert Right(p) in board || Left(p) in board;
      assert Above(p) !in board && Below(p) !in board;
    } else if EndZone(board, Vertical, z) {
      assert p.x == 0;
      if AxisCell(Vertical, p.y + 1) in board && forall k :: AxisCell(Vertical, k) in board ==> p.y + 1 <= k {
        assert AxisCell(Vertical, 0) in board;
      } else {
        assert AxisCell(Vertical, 0) in board;
      }
      assert Above(p) in board || Below(p) in board;
      assert Right(p) !in board && Left(p) !in board;
    } else {
      var others := board.Keys - {Pos(0, 0)};
      assert |others| == 0;
      assert forall q :: q in board ==> q == Pos(0, 0) by {
        forall q | q in board ensures q == Pos(0, 0) {
          assert q !in others;
        }
      }
    }
  }

  /** A zone `addHorizontalInsertionZones`/`addVerticalInsertionZones` offers: an
      occupied cell on the arm with a card at a smaller coordinate. */
  ghost predicate InsertBeforeZone(board: Board, axis: Axis, z: Pos) {
    Whole(z) && OnArm(axis, z) && CellOf(z) in board &&
    exists k :: AxisCell(axis, k) in board && k < ArmCoord(axis, z)
  }

  /** `addHorizontalInsertionZones` (`axis == Horizontal`) and
      `addVerticalInsertionZones` (`axis == Vertical`): with at least two cards on the
      arm, every card's cell except the one with the smallest coordinate is added. */
  method AddInsertionZones(board: Board, axis: Axis, possible: set<Pos>) returns (r: set<Pos>)
    ensures forall z :: z in r <==> z in possible || InsertBeforeZone(board, axis, z)
  {
    var cs := AxisCoordinates(board, axis);
    r := possible;
    if |cs| < 2 {
      OneCoordinate(board, axis, cs);
      NoInsertBeforeOnShortArm(board, axis);
      return;
    }
    var i := 1;
    while i < |cs|
      invariant 1 <= i <= |cs|
      invariant forall z :: z in r <==> z in possible || exists k :: 1 <= k < i && z == Zone(AxisCell(axis, cs[k]))
    {
      r := r + {Zone(AxisCell(axis, cs[i]))};
      i := i + 1;
    }
    AllButSmallest(board, axis, cs);
  }

  /** With all cards of an arm at one coordinate, nothing is offered before a card. */
  lemma NoInsertBeforeOnShortArm(board: Board, axis: Axis)
    requires forall a, b :: AxisCell(axis, a) in board && AxisCell(axis, b) in board ==> a == b
    ensures forall z :: !InsertBeforeZone(board, axis, z)
  {
    forall z ensures !InsertBeforeZone(board, axis, z) {
      assert Whole(z) && OnArm(axis, z) ==> CellOf(z) == AxisCell(axis, ArmCoord(axis, z));
    }
  }

  /** The cells of all sorted coordinates but the first are exactly the zones offered
      before a card. */
  lemma AllButSmallest(board: Board, axis: Axis, cs: seq<int>)
    requires Increasing(cs) && |cs| >= 2
    requires forall c :: c in cs <==> AxisCell(axis, c) in board
    ensures forall z :: (exists k :: 1 <= k < |cs| && z == Zone(AxisCell(axis, cs[k]))) <==> InsertBeforeZone(board, axis, z)
  {
    forall z ensures (exists k :: 1 <= k < |cs| && z == Zone(AxisCell(axis, cs[k]))) <==> InsertBeforeZone(board, axis, z) {
      if exists k :: 1 <= k < |cs| && z == Zone(AxisCell(axis, cs[k])) {
        var k :| 1 <= k < |cs| && z == Zone(AxisCell(axis, cs[k]));
        LaterCellIsBeforeZone(board, axis, cs, k);
      }
      if InsertBeforeZone(board, axis, z) {
        BeforeZoneIsLaterCell(board, axis, cs, z);
      }
    }
  }

  /** The cell of every sorted coordinate but the first is offered before a card. */
  lemma LaterCellIsBeforeZone(board: Board, axis: Axis, cs: seq<int>, k: int)
    requires Increasing(cs) && 1 <= k < |cs|
    requires forall c :: c in cs <==> AxisCell(axis, c) in board
    ensures InsertBeforeZone(board, axis, Zone(AxisCell(axis, cs[k])))
  {
    var z := Zone(AxisCell(axis, cs[k]));
    assert cs[0] in cs && cs[k] in cs;
    assert CellOf(z) == AxisCell(axis, cs[k]);
    assert AxisCell(axis, cs[0]) in board && cs[0] < ArmCoord(axis, z);
  }

  /** A zone offered before a card is the cell of a sorted coordinate other than the
      first. */
  lemma BeforeZoneIsLaterCell(board: Board, axis: Axis, cs: seq<int>, z: Pos)
    requires Increasing(cs)
    requires forall c :: c in cs <==> AxisCell(axis, c) in board
    requires InsertBeforeZone(board, axis, z)
    ensures exists k :: 1 <= k < |cs| && z == Zone(AxisCell(axis, cs[k]))
  {
    var c := ArmCoord(axis, z);
    assert z == Zone(AxisCell(axis, c));
    var k :| AxisCell(axis, k) in board && k < c;
    var ic :| 0 <= ic < |cs| && cs[ic] == c;
    var ik :| 0 <= ik < |cs| && cs[ik] == k;
    assert ik < ic;
  }

  /** `generateInsertionZones(boardPositions, possiblePositions)`: both arms. */
  method GenerateInsertionZones(board: Board, possible: set<Pos>) returns (r: set<Pos>)
    ensures forall z :: z in r <==>
      z in possible || InsertBeforeZone(board, Horizontal, z) || InsertBeforeZone(board, Vertical, z)
  {
    r := AddInsertionZones(board, Horizontal, possible);
    r := AddInsertionZones(board, Vertical, r);
  }

  /** Every zone offered "before" a card is that card's own, occupied cell, so the
      client's own placement check refuses a drop there. */
  lemma InsertBeforeZoneIsOccupied(board: Board, axis: Axis, z: Pos)
    requires InsertBeforeZone(board, axis, z)
    ensures !ValidateCardPlacement(board, CellOf(z))
  {
  }
}
