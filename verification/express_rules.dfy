/** The placement rules of the express server (`server/server-express.js`): the card a
    placement puts on the board (`createCardForBoard`) and the ordered legality check
    (`validateMove`). */
module ExpressRules {
  import opened Common

  /** Orientation of a card on the board, derived from where it lies. */
  datatype Orientation = Origin | Querformat | Hochformat

  /** The display value of the origin card: both dimensions, one of them, or 'N/A'. */
  datatype OriginLabel = HeightAndWidth(h: int, w: int) | HeightOnly(h: int) | WidthOnly(w: int) | NotAvailable

  /** `metric_value` of a placed card: a number (or JSON null) on an arm, a label on the origin. */
  datatype Metric = Measured(value: Option<int>) | Label(text: OriginLabel)

  /** `metric_name`: 'Größe' on the origin, 'Breite' on the horizontal arm, 'Höhe' on the vertical one. */
  datatype MetricName = Groesse | Breite | Hoehe

  /** The object `createCardForBoard` returns: the catalog record with orientation,
      metric value and metric name laid over it (these override the catalog's own
      `orientation` and `metric_value`). */
  datatype PlacedCard = PlacedCard(card: CatalogCard, orientation: Orientation, metric: Metric, metricName: MetricName)

  type Board = map<Pos, PlacedCard>

  /** Why `validateMove` refused a placement. Compared values are carried along in
      place of the human-readable message. */
  datatype Reason =
    | CardNotFound
    | PositionOccupied
    | OriginOccupied
    | AxisNotAllowed(axis: Axis)
    | NoDimension(axis: Axis)
    | OffAxis
    | NoAdjacentCard
    | CrossAdjacency(axis: Axis)
    | ShouldBeLess(cardValue: int, neighbourValue: Metric)
    | ShouldBeGreater(cardValue: int, neighbourValue: Metric)

  datatype Verdict = Accept | Reject(reason: Reason)

  /** The card dimension an arm measures: width horizontally, height vertically. */
  function Dim(card: CatalogCard, axis: Axis): Option<int> {
    if axis == Horizontal then card.width else card.height
  }

  /** The orientation of the cards on an arm. */
  function ArmOrientation(axis: Axis): Orientation {
    if axis == Horizontal then Querformat else Hochformat
  }

  /** The neighbour on the plus side of an arm (right, above), whose value a new card
      must stay below, and the one on the minus side (left, below), whose value it must
      exceed. On the negative half of an arm the plus side is the one towards the
      origin. */
  function PlusSide(p: Pos, axis: Axis): Pos { if axis == Horizontal then Right(p) else Above(p) }
  function MinusSide(p: Pos, axis: Axis): Pos { if axis == Horizontal then Left(p) else Below(p) }

  /** Whether `p` lies on the arm of `axis` (the origin lies on both). */
  predicate OnAxis(p: Pos, axis: Axis) {
    if axis == Horizontal then p.y == 0 else p.x == 0
  }

  /** `createCardForBoard(card, x, y)`; `None` is the thrown 'Ungültige Position' error. */
  function CreateCardForBoard(card: CatalogCard, p: Pos): (r: Option<PlacedCard>)
    ensures r.None? <==> p.x != 0 && p.y != 0
    ensures r.Some? ==> r.value.card == card
    ensures p == Pos(0, 0) ==> r.Some? && r.value.orientation == Origin && r.value.metric.Label?
    ensures p.y == 0 && p.x != 0 ==> r == Some(PlacedCard(card, Querformat, Measured(card.width), Breite))
    ensures p.x == 0 && p.y != 0 ==> r == Some(PlacedCard(card, Hochformat, Measured(card.height), Hoehe))
  {
    if p.x == 0 && p.y == 0 then
      Some(PlacedCard(card, Origin, Label(OriginLabelOf(card)), Groesse))
    else if p.y == 0 then
      Some(PlacedCard(card, Querformat, Measured(card.width), Breite))
    else if p.x == 0 then
      Some(PlacedCard(card, Hochformat, Measured(card.height), Hoehe))
    else
      None
  }

  function OriginLabelOf(card: CatalogCard): OriginLabel {
    if card.height.Some? && card.width.Some? then HeightAndWidth(card.height.value, card.width.value)
    else if card.height.Some? then HeightOnly(card.height.value)
    else if card.width.Some? then WidthOnly(card.width.value)
    else NotAvailable
  }

  /** A placed card lies where its orientation says: the origin card at (0, 0), arm
      cards on their arm off the origin. Every card `createCardForBoard` makes does. */
  predicate WellPlaced(p: Pos, c: PlacedCard) {
    match c.orientation
    case Origin => p == Pos(0, 0)
    case Querformat => p.y == 0 && p.x != 0
    case Hochformat => p.x == 0 && p.y != 0
  }

  lemma CreatedCardIsWellPlaced(card: CatalogCard, p: Pos)
    requires p.x == 0 || p.y == 0
    ensures CreateCardForBoard(card, p).Some? && WellPlaced(p, CreateCardForBoard(card, p).value)
  {
  }

  /** Whether a neighbour takes part in the value comparison on `axis`. */
  predicate Governs(c: PlacedCard, axis: Axis) {
    c.orientation == ArmOrientation(axis) || c.orientation == Origin
  }

  /** JavaScript truthiness of a metric (`compareValue || ...`). */
  predicate Truthy(m: Metric) {
    match m
    case Measured(v) => v.Some? && v.value != 0
    case Label(_) => true
  }

  /** The value a neighbour is compared by, `compareValue || card.metric_value`, where
      `compareValue` is the raw dimension for the origin card and the metric otherwise. */
  function NeighbourValue(c: PlacedCard, axis: Axis): Metric {
    var compareValue := if c.orientation == Origin then Measured(Dim(c.card, axis)) else c.metric;
    if Truthy(compareValue) then compareValue else c.metric
  }

  /** The number JavaScript compares a metric as: null is 0, a label string is NaN (`None`). */
  function JsNumber(m: Metric): Option<int> {
    match m
    case Measured(v) => if v.Some? then v else Some(0)
    case Label(_) => None
  }

  /** The governing neighbour: the plus-side one if it is on the arm or the origin, else
      the minus-side one under the same condition. The flag is `shouldBeLess`. */
  function Governing(board: Board, p: Pos, axis: Axis): Option<(PlacedCard, bool)> {
    if PlusSide(p, axis) in board && Governs(board[PlusSide(p, axis)], axis) then Some((board[PlusSide(p, axis)], true))
    else if MinusSide(p, axis) in board && Governs(board[MinusSide(p, axis)], axis) then Some((board[MinusSide(p, axis)], false))
    else None
  }

  /** A card of the other arm (not the origin) directly across the arm from `p`. */
  predicate CrossViolation(board: Board, p: Pos, axis: Axis) {
    var (a, b) := if axis == Horizontal then (Above(p), Below(p)) else (Right(p), Left(p));
    (a in board && board[a].orientation != Origin) || (b in board && board[b].orientation != Origin)
  }

  /** The strict comparison with the governing neighbour. NaN compares false, so a
      label-valued neighbour never rejects. */
  function CompareWith(value: int, governing: Option<(PlacedCard, bool)>, axis: Axis): (r: Verdict)
    ensures governing.None? ==> r == Accept
    ensures governing.Some? && JsNumber(NeighbourValue(governing.value.0, axis)).None? ==> r == Accept
    ensures governing.Some? && governing.value.1 && JsNumber(NeighbourValue(governing.value.0, axis)).Some? ==>
      (r == Accept <==> value < JsNumber(NeighbourValue(governing.value.0, axis)).value)
    ensures governing.Some? && !governing.value.1 && JsNumber(NeighbourValue(governing.value.0, axis)).Some? ==>
      (r == Accept <==> value > JsNumber(NeighbourValue(governing.value.0, axis)).value)
    ensures governing.Some? && JsNumber(NeighbourValue(governing.value.0, axis)) == Some(value) ==> r.Reject?
  {
    match governing
    case None => Accept
    case Some((nb, shouldBeLess)) =>
      var nv := NeighbourValue(nb, axis);
      var n := JsNumber(nv);
      if shouldBeLess then
        if n.Some? && value >= n.value then Reject(ShouldBeLess(value, nv)) else Accept
      else
        if n.Some? && value <= n.value then Reject(ShouldBeGreater(value, nv)) else Accept
  }

  /** The value rule of an accepted card of value `v` at `p` on the arm of `axis`: when
      the plus-side neighbour governs, `v` is below its numeric value; otherwise, when
      the minus-side neighbour governs, `v` is above its numeric value. A neighbour
      without a numeric value (a label) constrains nothing. */
  predicate FitsGoverning(board: Board, v: int, p: Pos, axis: Axis) {
    if PlusSide(p, axis) in board && Governs(board[PlusSide(p, axis)], axis) then
      ArmValue(board, PlusSide(p, axis), axis).Some? ==> v < ArmValue(board, PlusSide(p, axis), axis).value
    else if MinusSide(p, axis) in board && Governs(board[MinusSide(p, axis)], axis) then
      ArmValue(board, MinusSide(p, axis), axis).Some? ==> v > ArmValue(board, MinusSide(p, axis), axis).value
    else true
  }

  /** A card may go at `p` on the arm of `axis`: the arm is allowed for it, it has
      that arm's dimension, it touches a card, no card of the other arm lies across
      from it, and its value fits the governing neighbour. */
  predicate LegalOnArm(board: Board, card: CatalogCard, p: Pos, axis: Axis) {
    (card.allowedAxes.Some? ==> axis in card.allowedAxes.value) && Dim(card, axis).Some? &&
    HasAnyNeighbour(board, p) && !CrossViolation(board, p, axis) &&
    FitsGoverning(board, Dim(card, axis).value, p, axis)
  }

  /** The checks for a position on an arm off the origin, in source order. */
  function CheckOnArm(board: Board, card: CatalogCard, p: Pos, axis: Axis): (r: Verdict)
    ensures r == Accept <==> LegalOnArm(board, card, p, axis)
    ensures ((card.allowedAxes.Some? ==> axis in card.allowedAxes.value) && Dim(card, axis).Some? &&
             HasAnyNeighbour(board, p) && CrossViolation(board, p, axis)) ==> r == Reject(CrossAdjacency(axis))
  {
    if card.allowedAxes.Some? && axis !in card.allowedAxes.value then Reject(AxisNotAllowed(axis))
    else if Dim(card, axis).None? then Reject(NoDimension(axis))
    else if !HasAnyNeighbour(board, p) then Reject(NoAdjacentCard)
    else if CrossViolation(board, p, axis) then Reject(CrossAdjacency(axis))
    else CompareWith(Dim(card, axis).value, Governing(board, p, axis), axis)
  }

  /** `validateMove(cardId, placeAt)`. Its checks run in a fixed order; the first that
      fails decides. Being a function, it cannot change the board. */
  function ValidateMove(catalog: seq<CatalogCard>, board: Board, cardId: int, p: Pos): (r: Verdict)
    ensures Find(catalog, cardId).None? ==> r == Reject(CardNotFound)
    ensures Find(catalog, cardId).Some? && p in board ==> r == Reject(PositionOccupied)
    ensures Find(catalog, cardId).Some? && p !in board && board == map[] ==> r == Accept
    ensures board != map[] && p == Pos(0, 0) ==> r.Reject?
    ensures board != map[] && p.x != 0 && p.y != 0 ==> r.Reject?
    ensures r == Accept && board != map[] ==> (p.y == 0) != (p.x == 0) && HasAnyNeighbour(board, p)
    ensures r == Accept && board != map[] && p.y == 0 ==>
      Find(catalog, cardId).value.width.Some? &&
      (Find(catalog, cardId).value.allowedAxes.Some? ==> Horizontal in Find(catalog, cardId).value.allowedAxes.value)
    ensures r == Accept && board != map[] && p.x == 0 ==>
      Find(catalog, cardId).value.height.Some? &&
      (Find(catalog, cardId).value.allowedAxes.Some? ==> Vertical in Find(catalog, cardId).value.allowedAxes.value)
    ensures r == Accept && board != map[] && p.y == 0 ==>
      FitsGoverning(board, Find(catalog, cardId).value.width.value, p, Horizontal)
    ensures r == Accept && board != map[] && p.x == 0 ==>
      FitsGoverning(board, Find(catalog, cardId).value.height.value, p, Vertical)
    ensures Find(catalog, cardId).Some? && p !in board && board != map[] && p.y == 0 && p.x != 0 ==>
      (r == Accept <==> LegalOnArm(board, Find(catalog, cardId).value, p, Horizontal))
    ensures Find(catalog, cardId).Some? && p !in board && board != map[] && p.x == 0 && p.y != 0 ==>
      (r == Accept <==> LegalOnArm(board, Find(catalog, cardId).value, p, Vertical))
    ensures (Find(catalog, cardId).Some? && p !in board && board != map[] && p.y == 0 && p.x != 0 &&
             (Find(catalog, cardId).value.allowedAxes.Some? ==> Horizontal in Find(catalog, cardId).value.allowedAxes.value) &&
             Find(catalog, cardId).value.width.Some? && HasAnyNeighbour(board, p) && CrossViolation(board, p, Horizontal)) ==>
      r == Reject(CrossAdjacency(Horizontal))
    ensures (Find(catalog, cardId).Some? && p !in board && board != map[] && p.x == 0 && p.y != 0 &&
             (Find(catalog, cardId).value.allowedAxes.Some? ==> Vertical in Find(catalog, cardId).value.allowedAxes.value) &&
             Find(catalog, cardId).value.height.Some? && HasAnyNeighbour(board, p) && CrossViolation(board, p, Vertical)) ==>
      r == Reject(CrossAdjacency(Vertical))
  {
    match Find(catalog, cardId)
    case None => Reject(CardNotFound)
    case Some(card) =>
      if p in board then Reject(PositionOccupied)
      else if |board| == 0 then Accept
      else if p == Pos(0, 0) then Reject(OriginOccupied)
      else if p.y == 0 then CheckOnArm(board, card, p, Horizontal)
      else if p.x == 0 then CheckOnArm(board, card, p, Vertical)
      else Reject(OffAxis)
  }

  /** Every card lies on one of the two axes. */
  predicate OnAxes(board: Board) {
    forall q :: q in board ==> q.x == 0 || q.y == 0
  }

  /** While every card lies on an axis, the cross-adjacency check can never fire: the
      cells across an arm from an arm cell are off both axes. */
  lemma CrossCheckUnreachable(catalog: seq<CatalogCard>, board: Board, cardId: int, p: Pos)
    requires OnAxes(board)
    ensures forall axis :: ValidateMove(catalog, board, cardId, p) != Reject(CrossAdjacency(axis))
  {
    if Find(catalog, cardId).Some? && p !in board && |board| != 0 && p != Pos(0, 0) {
      if p.y == 0 {
        assert !CrossViolation(board, p, Horizontal);
      } else if p.x == 0 {
        assert !CrossViolation(board, p, Vertical);
      }
    }
  }

  /** The value an arm is ordered by at a cell, as the validator reads it. */
  function ArmValue(board: Board, q: Pos, axis: Axis): Option<int>
    requires q in board
  {
    JsNumber(NeighbourValue(board[q], axis))
  }

  /** Along an arm, each pair of adjacent compared cards with numeric values increases
      towards the plus side (right, up). */
  predicate ArmOrdered(board: Board, axis: Axis) {
    forall q ::
      (q in board && OnAxis(q, axis) && PlusSide(q, axis) in board &&
       Governs(board[q], axis) && Governs(board[PlusSide(q, axis)], axis) &&
       ArmValue(board, q, axis).Some? && ArmValue(board, PlusSide(q, axis), axis).Some?) ==>
      ArmValue(board, q, axis).value < ArmValue(board, PlusSide(q, axis), axis).value
  }

  /** A card accepted at an end of an arm (one of its two arm neighbours free) keeps the
      arm ordered: the one comparison the validator makes is the only new pair. */
  lemma {:induction false} ArmEndKeepsOrder(catalog: seq<CatalogCard>, board: Board, cardId: int, p: Pos, axis: Axis)
    requires ArmOrdered(board, axis)
    requires board != map[] && OnAxis(p, axis) && p != Pos(0, 0)
    requires PlusSide(p, axis) !in board || MinusSide(p, axis) !in board
    requires ValidateMove(catalog, board, cardId, p) == Accept
    ensures ArmOrdered(board[p := CreateCardForBoard(Find(catalog, cardId).value, p).value], axis)
  {
    var card := Find(catalog, cardId).value;
    var w := Dim(card, axis).value;
    var placed := CreateCardForBoard(card, p).value;
    var b2 := board[p := placed];
    assert placed == PlacedCard(card, ArmOrientation(axis), Measured(Dim(card, axis)), if axis == Horizontal then Breite else Hoehe);
    assert ArmValue(b2, p, axis) == Some(w);
    assert CheckOnArm(board, card, p, axis) == Accept;
    forall q | q in b2 && OnAxis(q, axis) && PlusSide(q, axis) in b2 &&
      Governs(b2[q], axis) && Governs(b2[PlusSide(q, axis)], axis) &&
      ArmValue(b2, q, axis).Some? && ArmValue(b2, PlusSide(q, axis), axis).Some?
      ensures ArmValue(b2, q, axis).value < ArmValue(b2, PlusSide(q, axis), axis).value
    {
      if q == p {
        // p's plus-side neighbour governs, so it was compared with shouldBeLess
        assert Governing(board, p, axis) == Some((board[PlusSide(p, axis)], true));
      } else if PlusSide(q, axis) == p {
        assert q == MinusSide(p, axis);
        assert PlusSide(p, axis) !in board;
        assert Governing(board, p, axis) == Some((board[q], false));
      } else {
        assert ArmValue(b2, q, axis) == ArmValue(board, q, axis);
        assert ArmValue(b2, PlusSide(q, axis), axis) == ArmValue(board, PlusSide(q, axis), axis);
      }
    }
  }

  /** The validator compares with the plus-side neighbour only: on an ordered arm that
      starts at an origin card of width 3, with cards 5 and 9 at `x = 2, 3` (the board a
      floating insertion at `x = 0.5` leaves, see `ExpressServer.InsertionAfterShift`),
      a card of width 1 at `x = 1` is accepted because it is smaller than 5, although it
      is also smaller than the origin card's 3, and the arm is no longer ordered. */
  lemma InsertionChecksPlusSideOnly()
    ensures var origin := CatalogCard(0, "o", Some(3), Some(3), None, OtherOrientation, None);
      var small := CatalogCard(1, "a", Some(1), Some(1), None, OtherOrientation, None);
      var mid := CatalogCard(2, "b", Some(5), Some(5), None, OtherOrientation, None);
      var big := CatalogCard(3, "c", Some(9), Some(9), None, OtherOrientation, None);
      var board := map[Pos(0, 0) := CreateCardForBoard(origin, Pos(0, 0)).value,
                        Pos(2, 0) := CreateCardForBoard(mid, Pos(2, 0)).value,
                        Pos(3, 0) := CreateCardForBoard(big, Pos(3, 0)).value];
      ArmOrdered(board, Horizontal) &&
      ValidateMove([small], board, 1, Pos(1, 0)) == Accept &&
      !ArmOrdered(board[Pos(1, 0) := CreateCardForBoard(small, Pos(1, 0)).value], Horizontal)
  {
    var origin := CatalogCard(0, "o", Some(3), Some(3), None, OtherOrientation, None);
    var small := CatalogCard(1, "a", Some(1), Some(1), None, OtherOrientation, None);
    var mid := CatalogCard(2, "b", Some(5), Some(5), None, OtherOrientation, None);
    var big := CatalogCard(3, "c", Some(9), Some(9), None, OtherOrientation, None);
    var board := map[Pos(0, 0) := CreateCardForBoard(origin, Pos(0, 0)).value,
                      Pos(2, 0) := CreateCardForBoard(mid, Pos(2, 0)).value,
                      Pos(3, 0) := CreateCardForBoard(big, Pos(3, 0)).value];
    var b2 := board[Pos(1, 0) := CreateCardForBoard(small, Pos(1, 0)).value];
    assert PlusSide(Pos(0, 0), Horizontal) == Pos(1, 0);
    assert ArmValue(b2, Pos(0, 0), Horizontal) == Some(3);
    assert ArmValue(b2, Pos(1, 0), Horizontal) == Some(1);
    assert Governing(board, Pos(1, 0), Horizontal) == Some((board[Pos(2, 0)], true));
  }
}
