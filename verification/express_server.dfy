/** The socket handlers of the express server (`server/server-express.js`) that
    change the game: `playerMove` (its `startGame` is `Session.StartGame`). The board holds placed cards
    (a catalog card with its derived orientation and metric). */
module ExpressServer {
  import opened Common
  import opened Session
  import opened ExpressRules
  import opened ExpressShift

  /** The board a move is validated against: shifted when the request is a floating
      insertion. */
  function BoardForMove(board: Board, x2: int, y2: int, insertionMode: bool): Board
    requires Representable(x2, y2, insertionMode)
  {
    var (at, shift) := ActualPosition(x2, y2, insertionMode);
    if shift then Shifted(board, at, TargetOrientation(at)) else board
  }

  /** The `playerMove` handler for a request `{cardId, placeAt, insertionMode}`,
      with `placeAt` given as doubled coordinates `(x2, y2)`.
      The guards refuse the move without changing anything; a move past them is
      played by `Play`. */
  method PlayerMove(s: Session<PlacedCard>, id: PlayerId, cardId: int, x2: int, y2: int, insertionMode: bool)
    returns (out: MoveOutcome<Reason>)
    requires s.Valid() && Representable(x2, y2, insertionMode)
    modifies s
    ensures s.Valid()
    ensures old(s.Guard(id, cardId)).Some? ==> out == Refused(old(s.Guard(id, cardId)).value) && unchanged(s)
    ensures old(s.Guard(id, cardId)).None? ==> !out.Refused?
    ensures var at := ActualPosition(x2, y2, insertionMode).0;
      var b := BoardForMove(old(s.board), x2, y2, insertionMode);
      old(s.Guard(id, cardId)).None? ==>
        (out.RoundEnded? <==> ValidateMove(s.catalog, b, cardId, at).Reject?) &&
        (out == Crashed <==> ValidateMove(s.catalog, b, cardId, at) == Accept && at.x != 0 && at.y != 0)
    ensures var at := ActualPosition(x2, y2, insertionMode).0;
      var b := BoardForMove(old(s.board), x2, y2, insertionMode);
      out.RoundEnded? ==>
        ValidateMove(s.catalog, b, cardId, at).Reject? &&
        out == RoundEnded(id, ValidateMove(s.catalog, b, cardId, at).reason, Find(s.catalog, cardId)) &&
        s.status == Ended && s.board == b &&
        s.hands == old(s.hands) && s.deck == old(s.deck) && s.index == old(s.index) &&
        s.order == old(s.order) && s.currentPlayer == old(s.currentPlayer)
    ensures var at := ActualPosition(x2, y2, insertionMode).0;
      var b := BoardForMove(old(s.board), x2, y2, insertionMode);
      out.Placed? ==>
        out.at == at && ValidateMove(s.catalog, b, cardId, at) == Accept &&
        Find(s.catalog, cardId).Some? &&
        CreateCardForBoard(Find(s.catalog, cardId).value, at).Some? &&
        s.board == b[at := CreateCardForBoard(Find(s.catalog, cardId).value, at).value] &&
        s.board[at].card.id == cardId &&
        s.status == Running && s.order == old(s.order) && s.index == Advance(old(s.index), |s.order|)
    ensures out.Placed? && |old(s.deck)| > 0 ==>
      s.hands == old(s.hands)[id := WithoutCard(old(s.hands)[id], cardId) + [old(s.deck)[|old(s.deck)| - 1]]] &&
      s.deck == old(s.deck)[..|old(s.deck)| - 1]
    ensures out.Placed? && |old(s.deck)| == 0 ==>
      s.hands == old(s.hands)[id := WithoutCard(old(s.hands)[id], cardId)] && s.deck == old(s.deck)
    ensures out == Crashed ==> old(s.board) == map[] && unchanged(s)
    ensures s.players == old(s.players)
  {
    var g := s.Guard(id, cardId);
    if g.Some? {
      return Refused(g.value);
    }
    out := Play(s, id, cardId, x2, y2, insertionMode);
  }

  /** A move past the guards. The target cell is computed, the board is shifted
      first for a floating insertion, and the move is validated against the shifted
      board: an invalid move ends the round (the shift stays), a valid one puts the
      derived card on the board, removes the card from the hand, draws a replacement
      and passes the turn. A valid first card off both axes makes
      `createCardForBoard` throw before anything is stored. */
  method Play(s: Session<PlacedCard>, id: PlayerId, cardId: int, x2: int, y2: int, insertionMode: bool)
    returns (out: MoveOutcome<Reason>)
    requires s.Valid() && Representable(x2, y2, insertionMode) && s.Guard(id, cardId).None?
    modifies s
    ensures s.Valid() && !out.Refused? && s.players == old(s.players)
    ensures var at := ActualPosition(x2, y2, insertionMode).0;
      var b := BoardForMove(old(s.board), x2, y2, insertionMode);
      (out.RoundEnded? <==> ValidateMove(s.catalog, b, cardId, at).Reject?) &&
      (out == Crashed <==> ValidateMove(s.catalog, b, cardId, at) == Accept && at.x != 0 && at.y != 0)
    ensures var at := ActualPosition(x2, y2, insertionMode).0;
      var b := BoardForMove(old(s.board), x2, y2, insertionMode);
      out.RoundEnded? ==>
        ValidateMove(s.catalog, b, cardId, at).Reject? &&
        out == RoundEnded(id, ValidateMove(s.catalog, b, cardId, at).reason, Find(s.catalog, cardId)) &&
        s.status == Ended && s.board == b &&
        s.hands == old(s.hands) && s.deck == old(s.deck) && s.index == old(s.index) &&
        s.order == old(s.order) && s.currentPlayer == old(s.currentPlayer)
    ensures var at := ActualPosition(x2, y2, insertionMode).0;
      var b := BoardForMove(old(s.board), x2, y2, insertionMode);
      out.Placed? ==>
        out.at == at && ValidateMove(s.catalog, b, cardId, at) == Accept &&
        Find(s.catalog, cardId).Some? &&
        CreateCardForBoard(Find(s.catalog, cardId).value, at).Some? &&
        s.board == b[at := CreateCardForBoard(Find(s.catalog, cardId).value, at).value] &&
        s.board[at].card.id == cardId &&
        s.status == Running && s.order == old(s.order) && s.index == Advance(old(s.index), |s.order|)
    ensures out.Placed? && |old(s.deck)| > 0 ==>
      s.hands == old(s.hands)[id := WithoutCard(old(s.hands)[id], cardId) + [old(s.deck)[|old(s.deck)| - 1]]] &&
      s.deck == old(s.deck)[..|old(s.deck)| - 1]
    ensures out.Placed? && |old(s.deck)| == 0 ==>
      s.hands == old(s.hands)[id := WithoutCard(old(s.hands)[id], cardId)] && s.deck == old(s.deck)
    ensures out == Crashed ==> old(s.board) == map[] && unchanged(s)
  {
    var at := ActualPosition(x2, y2, insertionMode).0;
    var card := Find(s.catalog, cardId);
    ShiftForMove(s, x2, y2, insertionMode);
    var verdict := ValidateMove(s.catalog, s.board, cardId, at);
    if verdict.Reject? {
      s.status := Ended;
      return RoundEnded(id, verdict.reason, card);
    }
    var placed := CreateCardForBoard(card.value, at);
    if placed.None? {
      CrashNeedsEmptyBoard(s.catalog, old(s.board), cardId, x2, y2, insertionMode);
      return Crashed;
    }
    s.PlaceCard(id, cardId, at, placed.value);
    out := Placed(at);
  }

  /** The shift `playerMove` does before validating: only a floating insertion moves
      the cards in the way; nothing but the board changes. */
  method ShiftForMove(s: Session<PlacedCard>, x2: int, y2: int, insertionMode: bool)
    requires s.Valid() && Representable(x2, y2, insertionMode)
    modifies s
    ensures s.Valid() && s.board == BoardForMove(old(s.board), x2, y2, insertionMode)
    ensures s.players == old(s.players) && s.deck == old(s.deck) && s.hands == old(s.hands)
    ensures s.status == old(s.status) && s.order == old(s.order) && s.index == old(s.index)
    ensures s.currentPlayer == old(s.currentPlayer)
    ensures s.board == old(s.board) ==> unchanged(s)
  {
    var (at, shift) := ActualPosition(x2, y2, insertionMode);
    if shift {
      var shifted := ShiftCardsIfNeeded(s.board, at, TargetOrientation(at));
      s.board := shifted;
    }
  }

  /** `createCardForBoard` throws after a valid move only for a first card laid off
      both axes: the board was empty, and no shift happened on it. */
  lemma CrashNeedsEmptyBoard(catalog: seq<CatalogCard>, board: Board, cardId: int, x2: int, y2: int, insertionMode: bool)
    requires Representable(x2, y2, insertionMode)
    requires var at := ActualPosition(x2, y2, insertionMode).0;
      ValidateMove(catalog, BoardForMove(board, x2, y2, insertionMode), cardId, at) == Accept &&
      at.x != 0 && at.y != 0
    ensures board == map[] && BoardForMove(board, x2, y2, insertionMode) == map[]
  {
    var at := ActualPosition(x2, y2, insertionMode).0;
    assert TargetOrientation(at) == None;
  }

  /** Shifting an empty board leaves it empty. */
  lemma ShiftedEmpty(insert: Pos, orientation: Option<Orientation>)
    ensures Shifted(map[], insert, orientation) == map[]
  {
    if orientation == Some(Querformat) {
      assert CollectRun(map[], Horizontal, insert.y, insert.x) == [];
    } else if orientation == Some(Hochformat) {
      assert CollectRun(map[], Vertical, insert.x, insert.y) == [];
    }
  }

  /** A placed move keeps every card on the cross and adds a well-formed card at the
      target: only the very first card may be placed off the axes, and that attempt
      fails in `createCardForBoard` before the board changes. */
  lemma PlacedKeepsCross(catalog: seq<CatalogCard>, board: Board, cardId: int, x2: int, y2: int, insertionMode: bool)
    requires Representable(x2, y2, insertionMode) && OnAxes(board)
    ensures var at := ActualPosition(x2, y2, insertionMode).0;
      var b := BoardForMove(board, x2, y2, insertionMode);
      ValidateMove(catalog, b, cardId, at) == Accept && CreateCardForBoard(Find(catalog, cardId).value, at).Some? ==>
        OnAxes(b[at := CreateCardForBoard(Find(catalog, cardId).value, at).value]) &&
        WellPlaced(at, CreateCardForBoard(Find(catalog, cardId).value, at).value)
  {
    var at := ActualPosition(x2, y2, insertionMode).0;
    ShiftedKeepsOnAxes(board, at);
    var b := BoardForMove(board, x2, y2, insertionMode);
    assert OnAxes(b);
    if ValidateMove(catalog, b, cardId, at) == Accept && CreateCardForBoard(Find(catalog, cardId).value, at).Some? {
      CreatedCardIsWellPlaced(Find(catalog, cardId).value, at);
    }
  }

  /** A floating insertion between the origin and the first card on its negative
      side (`-0.5,0` or `0,-0.5`) is rounded up onto the origin, is not shifted, and
      is therefore always judged invalid once a card is on the board. */
  lemma InsertionLeftOfOriginEndsRound(catalog: seq<CatalogCard>, board: Board, cardId: int, horizontal: bool)
    requires board != map[]
    ensures var (x2, y2) := if horizontal then (-1, 0) else (0, -1);
      ActualPosition(x2, y2, true) == (Pos(0, 0), true) &&
      BoardForMove(board, x2, y2, true) == board &&
      ValidateMove(catalog, board, cardId, Pos(0, 0)).Reject?
  {
  }

  /** The board of `ExpressRules.InsertionChecksPlusSideOnly` is reached in play: an
      ordered arm holding the origin card (width 3) and cards 5 and 9 at `x = 1, 2`
      is shifted by a floating insertion at `0.5,0` into the origin card, a free cell
      at `x = 1` and the two cards at `x = 2, 3`, where the card of width 1 is then
      accepted. */
  lemma InsertionAfterShift()
    ensures var origin := CatalogCard(0, "o", Some(3), Some(3), None, OtherOrientation, None);
      var mid := CatalogCard(2, "b", Some(5), Some(5), None, OtherOrientation, None);
      var big := CatalogCard(3, "c", Some(9), Some(9), None, OtherOrientation, None);
      var before := map[Pos(0, 0) := CreateCardForBoard(origin, Pos(0, 0)).value,
                        Pos(1, 0) := CreateCardForBoard(mid, Pos(1, 0)).value,
                        Pos(2, 0) := CreateCardForBoard(big, Pos(2, 0)).value];
      ArmOrdered(before, Horizontal) &&
      ActualPosition(1, 0, true) == (Pos(1, 0), true) &&
      BoardForMove(before, 1, 0, true) ==
        map[Pos(0, 0) := CreateCardForBoard(origin, Pos(0, 0)).value,
            Pos(2, 0) := CreateCardForBoard(mid, Pos(2, 0)).value,
            Pos(3, 0) := CreateCardForBoard(big, Pos(3, 0)).value]
  {
    var origin := CatalogCard(0, "o", Some(3), Some(3), None, OtherOrientation, None);
    var mid := CatalogCard(2, "b", Some(5), Some(5), None, OtherOrientation, None);
    var big := CatalogCard(3, "c", Some(9), Some(9), None, OtherOrientation, None);
    var o, m, g := CreateCardForBoard(origin, Pos(0, 0)).value, CreateCardForBoard(mid, Pos(1, 0)).value,
      CreateCardForBoard(big, Pos(2, 0)).value;
    var before := map[Pos(0, 0) := o, Pos(1, 0) := m, Pos(2, 0) := g];
    assert PlusSide(Pos(1, 0), Horizontal) == Pos(2, 0);
    assert ArmValue(before, Pos(1, 0), Horizontal) == Some(5);
    assert ArmValue(before, Pos(2, 0), Horizontal) == Some(9);
    assert CollectRun(before, Horizontal, 0, 3) == [];
    assert CollectRun(before, Horizontal, 0, 2) == [2];
    assert CollectRun(before, Horizontal, 0, 1) == [1, 2];
    var cs := [1, 2];
    assert ShiftSuffix(before, Horizontal, 0, cs, 2) == before;
    assert ShiftSuffix(before, Horizontal, 0, cs, 1) == map[Pos(0, 0) := o, Pos(1, 0) := m, Pos(3, 0) := g];
    assert ShiftSuffix(before, Horizontal, 0, cs, 0) == map[Pos(0, 0) := o, Pos(2, 0) := m, Pos(3, 0) := g];
    assert CreateCardForBoard(mid, Pos(2, 0)).value == m && CreateCardForBoard(big, Pos(3, 0)).value == g;
  }
}
