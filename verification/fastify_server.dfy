/** The rule set of the fastify server (`server/server-fastify.js`): the board stores
    catalog cards and orientation is read from them; the first card may lie anywhere,
    a portrait (`Hoch`) card needs a portrait card above or below, a landscape (`Quer`)
    card a landscape card right or left, and any other card any neighbour. */
module FastifyServer {
  import opened Common
  import opened Session

  type Board = map<Pos, CatalogCard>

  /** Why the fastify server rejects a move. */
  datatype Reason =
    | CardNotFound
    | PositionOccupied
    /** No neighbour of the card's own orientation on its axis. */
    | OffOwnAxis(orientation: CatalogOrientation)
    | NoAdjacentCard
    | ShouldBeLess(cardValue: Option<int>, neighbourValue: Option<int>)
    | ShouldBeGreater(cardValue: Option<int>, neighbourValue: Option<int>)

  datatype Verdict = Valid | Invalid(reason: Reason)

  /** A card of orientation `o` lies at `q`. */
  predicate Holds(board: Board, q: Pos, o: CatalogOrientation) {
    q in board && board[q].orientation == o
  }

  /** The two cells checked for a card of orientation `o`, in the order the source
      lists them, each with whether the card must be smaller than its occupant:
      above then below for `Hoch`, right then left for `Quer`. */
  function AxisNeighbours(p: Pos, o: CatalogOrientation): seq<(Pos, bool)> {
    if o == Hoch then [(Above(p), true), (Below(p), false)]
    else if o == Quer then [(Right(p), true), (Left(p), false)]
    else []
  }

  /** The first of the cells above that holds a card of orientation `o`: the card the
      played card is compared with. */
  function Governing(board: Board, p: Pos, o: CatalogOrientation): (r: Option<(CatalogCard, bool)>)
    ensures o == Hoch && Holds(board, Above(p), Hoch) ==> r == Some((board[Above(p)], true))
    ensures o == Hoch && !Holds(board, Above(p), Hoch) && Holds(board, Below(p), Hoch) ==>
      r == Some((board[Below(p)], false))
    ensures o == Quer && Holds(board, Right(p), Quer) ==> r == Some((board[Right(p)], true))
    ensures o == Quer && !Holds(board, Right(p), Quer) && Holds(board, Left(p), Quer) ==>
      r == Some((board[Left(p)], false))
    ensures r.None? <==> forall i :: 0 <= i < |AxisNeighbours(p, o)| ==> !Holds(board, AxisNeighbours(p, o)[i].0, o)
  {
    var ns := AxisNeighbours(p, o);
    if ns == [] then None
    else if Holds(board, ns[0].0, o) then Some((board[ns[0].0], ns[0].1))
    else if Holds(board, ns[1].0, o) then Some((board[ns[1].0], ns[1].1))
    else None
  }

  /** `validateMove(cardId, placeAt)` of the fastify server. */
  function ValidateMove(catalog: seq<CatalogCard>, board: Board, cardId: int, p: Pos): (r: Verdict)
    ensures Find(catalog, cardId).None? ==> r == Invalid(CardNotFound)
    ensures Find(catalog, cardId).Some? && p in board ==> r == Invalid(PositionOccupied)
    ensures Find(catalog, cardId).Some? && p !in board && board == map[] ==> r == Valid
    ensures (Find(catalog, cardId).Some? && p !in board && board != map[] &&
             Find(catalog, cardId).value.orientation == OtherOrientation) ==>
      (r == Valid <==> HasAnyNeighbour(board, p))
    ensures (r == Valid && board != map[] && Find(catalog, cardId).value.orientation != OtherOrientation) ==>
      var card := Find(catalog, cardId).value;
      var g := Governing(board, p, card.orientation);
      g.Some? && g.value.0.orientation == card.orientation &&
      (g.value.1 ==> !JsGe(card.metricValue, g.value.0.metricValue)) &&
      (!g.value.1 ==> !JsLe(card.metricValue, g.value.0.metricValue))
    ensures (Find(catalog, cardId).Some? && p !in board && board != map[] &&
             Find(catalog, cardId).value.orientation != OtherOrientation) ==>
      var card := Find(catalog, cardId).value;
      var g := Governing(board, p, card.orientation);
      (g.Some? &&
       (g.value.1 ==> !JsGe(card.metricValue, g.value.0.metricValue)) &&
       (!g.value.1 ==> !JsLe(card.metricValue, g.value.0.metricValue))) ==> r == Valid
  {
    match Find(catalog, cardId)
    case None => Invalid(CardNotFound)
    case Some(card) =>
      if p in board then Invalid(PositionOccupied)
      else if |board| == 0 then Valid
      else if card.orientation != OtherOrientation && !AnyHolds(board, AxisNeighbours(p, card.orientation), card.orientation) then
        Invalid(OffOwnAxis(card.orientation))
      else match Governing(board, p, card.orientation)
        case None => if HasAnyNeighbour(board, p) then Valid else Invalid(NoAdjacentCard)
        case Some((n, shouldBeLess)) =>
          if shouldBeLess && JsGe(card.metricValue, n.metricValue) then
            Invalid(ShouldBeLess(card.metricValue, n.metricValue))
          else if !shouldBeLess && JsLe(card.metricValue, n.metricValue) then
            Invalid(ShouldBeGreater(card.metricValue, n.metricValue))
          else Valid
  }

  /** The placement loop over a list of cells: some cell holds a card of orientation `o`. */
  predicate AnyHolds(board: Board, cells: seq<(Pos, bool)>, o: CatalogOrientation) {
    exists i :: 0 <= i < |cells| && Holds(board, cells[i].0, o)
  }

  /** The placement check and the choice of the governing neighbour look at the same
      cells: a portrait or landscape card that passes the first always has a
      governing neighbour, so the "any neighbour" fallback is reached only by cards
      of another orientation. */
  lemma PlacementCheckFindsGoverning(board: Board, p: Pos, o: CatalogOrientation)
    requires o != OtherOrientation
    ensures AnyHolds(board, AxisNeighbours(p, o), o) <==> Governing(board, p, o).Some?
  {
    var ns := AxisNeighbours(p, o);
    if AnyHolds(board, ns, o) {
      var i :| 0 <= i < |ns| && Holds(board, ns[i].0, o);
      assert !Governing(board, p, o).None?;
    }
  }

  /** The `playerMove` handler for `{cardId, placeAt}`: the guards refuse without a
      change; an invalid move ends the round and changes nothing else; a valid one
      stores the catalog card at `placeAt`, filters it out of the hand, draws and
      passes the turn. */
  method PlayerMove(s: Session<CatalogCard>, id: PlayerId, cardId: int, p: Pos) returns (out: MoveOutcome<Reason>)
    requires s.Valid()
    modifies s
    ensures s.Valid()
    ensures old(s.Guard(id, cardId)).Some? ==> out == Refused(old(s.Guard(id, cardId)).value) && unchanged(s)
    ensures old(s.Guard(id, cardId)).None? ==> !out.Refused?
    ensures out != Crashed
    ensures out.RoundEnded? ==>
      ValidateMove(s.catalog, old(s.board), cardId, p).Invalid? &&
      out == RoundEnded(id, ValidateMove(s.catalog, old(s.board), cardId, p).reason, Find(s.catalog, cardId)) &&
      s.status == Ended && s.board == old(s.board) && s.hands == old(s.hands) && s.deck == old(s.deck) &&
      s.index == old(s.index) && s.order == old(s.order) && s.currentPlayer == old(s.currentPlayer)
    ensures out.Placed? ==>
      out.at == p && ValidateMove(s.catalog, old(s.board), cardId, p) == Valid &&
      Find(s.catalog, cardId).Some? && s.board == old(s.board)[p := Find(s.catalog, cardId).value] &&
      s.status == Running && s.order == old(s.order) && s.index == Advance(old(s.index), |s.order|)
    ensures out.Placed? && |old(s.deck)| > 0 ==>
      s.hands == old(s.hands)[id := WithoutCard(old(s.hands)[id], cardId) + [old(s.deck)[|old(s.deck)| - 1]]] &&
      s.deck == old(s.deck)[..|old(s.deck)| - 1]
    ensures out.Placed? && |old(s.deck)| == 0 ==>
      s.hands == old(s.hands)[id := WithoutCard(old(s.hands)[id], cardId)] && s.deck == old(s.deck)
    ensures s.players == old(s.players)
  {
    var g := s.Guard(id, cardId);
    if g.Some? {
      return Refused(g.value);
    }
    var verdict := ValidateMove(s.catalog, s.board, cardId, p);
    var card := Find(s.catalog, cardId);
    if verdict.Invalid? {
      s.status := Ended;
      return RoundEnded(id, verdict.reason, card);
    }
    s.PlaceCard(id, cardId, p, card.value);
    out := Placed(p);
  }
}
