/** The rule set of the plain server (`server/server.js`), the variant the process
    manager runs: the board stores catalog cards, orientation is read from the
    catalog, the first card must lie at the origin, and there is no axis check. */
module PlainServer {
  import opened Common
  import opened Session

  type Board = map<Pos, CatalogCard>

  /** Why the plain server rejects a move. */
  datatype Reason =
    | CardNotFound
    | PositionOccupied
    | FirstCardNotAtOrigin
    /** The governing neighbour's catalog orientation differs from the card's. */
    | NeighbourOrientation(expected: CatalogOrientation)
    /** No neighbour on the card's axis. */
    | NoNeighbour(expected: CatalogOrientation)
    | ShouldBeLess(cardValue: Option<int>, neighbourValue: Option<int>)
    | ShouldBeGreater(cardValue: Option<int>, neighbourValue: Option<int>)

  /** The result of `validateMove`; `Throws` is a neighbour whose id is missing from
      the catalog, so that reading its orientation raises a `TypeError`. */
  datatype Verdict = Valid | Invalid(reason: Reason) | Throws

  /** The cell whose card governs a card of catalog orientation `o` at `p`, with
      whether the card must be smaller than it: above (smaller) before below
      (greater) for `Hoch`, left (greater) before right (smaller) for `Quer`. */
  function GoverningCell(board: Board, p: Pos, o: CatalogOrientation): (r: Option<(Pos, bool)>)
    requires o != OtherOrientation
    ensures o == Hoch && Above(p) in board ==> r == Some((Above(p), true))
    ensures o == Hoch && Above(p) !in board && Below(p) in board ==> r == Some((Below(p), false))
    ensures o == Quer && Left(p) in board ==> r == Some((Left(p), false))
    ensures o == Quer && Left(p) !in board && Right(p) in board ==> r == Some((Right(p), true))
    ensures r.None? <==> if o == Hoch then Above(p) !in board && Below(p) !in board
                         else Left(p) !in board && Right(p) !in board
  {
    var (first, second) := if o == Hoch then ((Above(p), true), (Below(p), false))
                           else ((Left(p), false), (Right(p), true));
    if first.0 in board then Some(first)
    else if second.0 in board then Some(second)
    else None
  }

  /** `validateMove(cardId, placeAt)` of the plain server. The governing neighbour is
      looked up again in the catalog by its id; a missing entry makes the lookup of
      its orientation throw. */
  function ValidateMove(catalog: seq<CatalogCard>, board: Board, cardId: int, p: Pos): (r: Verdict)
    ensures Find(catalog, cardId).None? ==> r == Invalid(CardNotFound)
    ensures Find(catalog, cardId).Some? && p in board ==> r == Invalid(PositionOccupied)
    ensures Find(catalog, cardId).Some? && p !in board && board == map[] ==>
      (r == Valid <==> p == Pos(0, 0))
    ensures (Find(catalog, cardId).Some? && p !in board && board != map[] &&
             Find(catalog, cardId).value.orientation == OtherOrientation) ==> r == Valid
    ensures r == Valid && board != map[] && Find(catalog, cardId).value.orientation != OtherOrientation ==>
      var card := Find(catalog, cardId).value;
      var g := GoverningCell(board, p, card.orientation);
      g.Some? && Find(catalog, board[g.value.0].id).Some? &&
      var n := Find(catalog, board[g.value.0].id).value;
      n.orientation == card.orientation &&
      (g.value.1 ==> !JsGe(card.metricValue, n.metricValue)) &&
      (!g.value.1 ==> !JsLe(card.metricValue, n.metricValue))
    ensures (Find(catalog, cardId).Some? && p !in board && board != map[] &&
             Find(catalog, cardId).value.orientation != OtherOrientation) ==>
      var card := Find(catalog, cardId).value;
      var g := GoverningCell(board, p, card.orientation);
      (g.Some? && Find(catalog, board[g.value.0].id).Some? &&
       var n := Find(catalog, board[g.value.0].id).value;
       n.orientation == card.orientation &&
       (g.value.1 ==> !JsGe(card.metricValue, n.metricValue)) &&
       (!g.value.1 ==> !JsLe(card.metricValue, n.metricValue))) ==> r == Valid
  {
    match Find(catalog, cardId)
    case None => Invalid(CardNotFound)
    case Some(card) =>
      if p in board then Invalid(PositionOccupied)
      else if |board| == 0 then (if p == Pos(0, 0) then Valid else Invalid(FirstCardNotAtOrigin))
      else if card.orientation == OtherOrientation then Valid
      else match GoverningCell(board, p, card.orientation)
        case None => Invalid(NoNeighbour(card.orientation))
        case Some((q, shouldBeLess)) =>
          match Find(catalog, board[q].id)
          case None => Throws
          case Some(n) =>
            if n.orientation != card.orientation then Invalid(NeighbourOrientation(card.orientation))
            else if shouldBeLess && JsGe(card.metricValue, n.metricValue) then
              Invalid(ShouldBeLess(card.metricValue, n.metricValue))
            else if !shouldBeLess && JsLe(card.metricValue, n.metricValue) then
              Invalid(ShouldBeGreater(card.metricValue, n.metricValue))
            else Valid
  }

  /** Every card on the board is a catalog card (the handler only stores cards it
      found in the catalog). */
  predicate FromCatalog(catalog: seq<CatalogCard>, board: Board) {
    forall q :: q in board ==> board[q] in catalog
  }

  /** While the board holds catalog cards only, `validateMove` never throws. */
  lemma NeverThrows(catalog: seq<CatalogCard>, board: Board, cardId: int, p: Pos)
    requires FromCatalog(catalog, board)
    ensures ValidateMove(catalog, board, cardId, p) != Throws
  {
    match Find(catalog, cardId)
    case None =>
    case Some(card) =>
      if p !in board && |board| != 0 && card.orientation != OtherOrientation {
        var g := GoverningCell(board, p, card.orientation);
        if g.Some? {
          assert board[g.value.0] in catalog;
        }
      }
  }

  /** The `startGame` handler: only a waiting session with at least two players
      starts; any other request is ignored without a reply. */
  method StartGame(s: Session<CatalogCard>) returns (out: StartOutcome)
    requires s.Valid()
    modifies s
    ensures s.Valid()
    ensures out == Started <==> old(s.status) == Waiting && |old(s.players)| >= 2
    ensures out != Started ==> out == Ignored && unchanged(s)
    ensures out == Started ==>
      s.status == Running && s.board == map[] && s.order == old(s.players) && s.players == old(s.players) &&
      s.index == 0 && DealtFromCatalog(s.catalog, (s.hands, s.deck), s.order) &&
      (forall p :: p in s.hands <==> p in s.order) &&
      (|s.catalog| >= HandSize * |s.order| ==> FullHands(s.hands)) &&
      multiset(s.deck) + DealtCards(s.hands, s.order) == multiset(s.catalog)
  {
    if s.status == Waiting && |s.players| >= 2 {
      s.InitializeGame();
      out := Started;
    } else {
      out := Ignored;
    }
  }

  /** The `playerMove` handler for `{cardId, placeAt}`. The guards refuse without a
      change; an invalid move ends the round and changes nothing else; a valid one
      stores the catalog card at `placeAt`, filters it out of the hand, draws and
      passes the turn. */
  method PlayerMove(s: Session<CatalogCard>, id: PlayerId, cardId: int, p: Pos) returns (out: MoveOutcome<Reason>)
    requires s.Valid()
    modifies s
    ensures s.Valid()
    ensures old(s.Guard(id, cardId)).Some? ==> out == Refused(old(s.Guard(id, cardId)).value) && unchanged(s)
    ensures old(s.Guard(id, cardId)).None? ==> !out.Refused?
    ensures out == Crashed ==> ValidateMove(s.catalog, old(s.board), cardId, p) == Throws && unchanged(s)
    ensures out.RoundEnded? ==>
      ValidateMove(s.catalog, old(s.board), cardId, p).Invalid? &&
      out == RoundEnded(id, ValidateMove(s.catalog, old(s.board), cardId, p).reason, Find(s.catalog, cardId)) &&
      s.status == Ended && s.board == old(s.board) && s.hands == old(s.hands) && s.deck == old(s.deck) &&
      s.index == old(s.index) && s.order == old(s.order) && s.currentPlayer == old(s.currentPlayer)
    ensures out.Placed? ==>
      out.at == p && ValidateMove(s.catalog, old(s.board), cardId, p) == Valid &&
      Find(s.catalog, cardId).Some? && s.board == old(s.board)[p := Find(s.catalog, cardId).value] &&
      s.status == Running && s.order == old(s.order) && s.index == Advance(old(s.index), |s.order|)
    ensures out.Placed? && |old(s.deck)| > 0 ==>
      s.hands == old(s.hands)[id := WithoutCard(old(s.hands)[id], cardId) + [old(s.deck)[|old(s.deck)| - 1]]] &&
      s.deck == old(s.deck)[..|old(s.deck)| - 1]
    ensures out.Placed? && |old(s.deck)| == 0 ==>
      s.hands == old(s.hands)[id := WithoutCard(old(s.hands)[id], cardId)] && s.deck == old(s.deck)
    ensures FromCatalog(s.catalog, old(s.board)) ==> FromCatalog(s.catalog, s.board) && out != Crashed
    ensures s.players == old(s.players)
  {
    var g := s.Guard(id, cardId);
    if g.Some? {
      return Refused(g.value);
    }
    if FromCatalog(s.catalog, s.board) {
      NeverThrows(s.catalog, s.board, cardId, p);
    }
    var verdict := ValidateMove(s.catalog, s.board, cardId, p);
    if verdict == Throws {
      return Crashed;
    }
    var card := Find(s.catalog, cardId);
    if verdict.Invalid? {
      s.status := Ended;
      return RoundEnded(id, verdict.reason, card);
    }
    s.PlaceCard(id, cardId, p, card.value);
    out := Placed(p);
  }

  /** Once a round has ended the plain server is stuck: `startGame` ignores an ended
      session, so a following move is refused as "not running", and neither changes
      anything. */
  method EndedIsFinal(s: Session<CatalogCard>, id: PlayerId, cardId: int, p: Pos)
    returns (started: StartOutcome, moved: MoveOutcome<Reason>)
    requires s.Valid() && s.status == Ended
    modifies s
    ensures started == Ignored && moved == Refused(NotRunning) && unchanged(s)
  {
    started := StartGame(s);
    moved := PlayerMove(s, id, cardId, p);
  }
}
