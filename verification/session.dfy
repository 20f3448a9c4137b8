/** The session bookkeeping that the three servers (express, plain, fastify) share
    line for line: the global `gameState`, dealing and drawing from the deck, the
    turn rotation, game initialisation, disconnects and the per-player snapshot.
    The board's cell type is a parameter: express stores a derived placed card,
    the other two store the catalog card itself. */
module Session {
  import opened Common
  import Deck

  datatype Status = Waiting | Running | Ended

  /** Why `playerMove` refused to look at a move at all (an error sent to the mover only). */
  datatype GuardError = NotRunning | NotYourTurn | CardNotInHand

  /** What a `playerMove` handler did, in place of the events it emits.
      `Crashed` is a handler that threw before changing anything. */
  datatype MoveOutcome<Reason> =
    | Refused(guard: GuardError)
    | RoundEnded(loser: PlayerId, reason: Reason, cardPlayed: Option<CatalogCard>)
    | Placed(at: Pos)
    | Crashed

  /** What a `startGame` handler did. */
  datatype StartOutcome = Started | AlreadyRunning | TooFewPlayers | Ignored

  /** The payload of `getGameStateForClient(playerId)`. */
  datatype ClientView<Cell> = ClientView(
    players: seq<PlayerId>,
    board: map<Pos, Cell>,
    currentPlayer: Option<PlayerId>,
    gameStatus: Status,
    playerHand: seq<CatalogCard>,
    deckCount: nat)

  /** Number of cards a fresh hand receives (`count = 5`). */
  const HandSize: nat := 5

  /** The cards `k` successive `deck.pop()` calls return, in the order they are popped. */
  function Popped(deck: seq<CatalogCard>, k: nat): (r: seq<CatalogCard>)
    requires k <= |deck|
    ensures |r| == k
    ensures forall i :: 0 <= i < k ==> r[i] == deck[|deck| - 1 - i]
  {
    if k == 0 then [] else [deck[|deck| - 1]] + Popped(deck[..|deck| - 1], k - 1)
  }

  /** Popping moves cards from the deck's end into the hand: together they still hold
      exactly the cards the deck held before. */
  lemma {:induction false} PoppedKeepsCards(deck: seq<CatalogCard>, k: nat)
    requires k <= |deck|
    ensures multiset(deck[..|deck| - k]) + multiset(Popped(deck, k)) == multiset(deck)
  {
    if k > 0 {
      PoppedKeepsCards(deck, k - 1);
      PoppedSnoc(deck, k);
      PrefixSnoc(deck, k);
      MoveLast(deck[..|deck| - k], deck[|deck| - k], Popped(deck, k - 1));
    } else {
      assert deck[..|deck| - k] == deck;
    }
  }

  lemma PrefixSnoc(deck: seq<CatalogCard>, k: nat)
    requires 0 < k <= |deck|
    ensures deck[..|deck| - (k - 1)] == deck[..|deck| - k] + [deck[|deck| - k]]
  {
  }

  /** Moving one card from the end of one pile to the end of another keeps the cards. */
  lemma MoveLast(from: seq<CatalogCard>, card: CatalogCard, to: seq<CatalogCard>)
    ensures multiset(from) + multiset(to + [card]) == multiset(from + [card]) + multiset(to)
  {
  }

  function Min(a: int, b: int): int { if a <= b then a else b }

  /** The index `nextPlayer` moves to. */
  function Advance(i: int, n: nat): int
    requires n > 0
  {
    (i + 1) % n
  }

  /** The index reached after `k` calls of `nextPlayer`. */
  function AdvancedBy(i: int, k: nat, n: nat): int
    requires n > 0
  {
    if k == 0 then i else Advance(AdvancedBy(i, k - 1, n), n)
  }

  /** One call of `nextPlayer` from a valid index wraps to 0 after the last player. */
  lemma AdvanceWraps(i: int, n: nat)
    requires n > 0 && 0 <= i < n
    ensures Advance(i, n) == if i + 1 < n then i + 1 else 0
  {
    if i + 1 == n {
      assert (i + 1) % n == n % n == 0;
    }
  }

  /** `k <= n` calls of `nextPlayer` from a valid index land on `(i + k) mod n`. */
  lemma {:induction false} AdvancedByWraps(i: int, k: nat, n: nat)
    requires n > 0 && 0 <= i < n && k <= n
    ensures AdvancedBy(i, k, n) == if i + k < n then i + k else i + k - n
  {
    if k > 0 {
      AdvancedByWraps(i, k - 1, n);
      AdvanceWraps(AdvancedBy(i, k - 1, n), n);
    }
  }

  /** Turn order is cyclic: `n` calls of `nextPlayer` with `n` players return the turn
      to the player who held it, and no fewer calls do. */
  lemma TurnCycleReturns(i: int, n: nat)
    requires n > 0 && 0 <= i < n
    ensures AdvancedBy(i, n, n) == i
    ensures forall k :: 0 < k < n ==> AdvancedBy(i, k, n) != i
  {
    AdvancedByWraps(i, n, n);
    forall k | 0 < k < n
      ensures AdvancedBy(i, k, n) != i
    {
      AdvancedByWraps(i, k, n);
    }
  }

  /** The cards held by the players in `ids`, counted together. */
  ghost function DealtCards(hands: map<PlayerId, seq<CatalogCard>>, ids: seq<PlayerId>): multiset<CatalogCard>
  {
    if ids == [] then multiset{}
    else (if ids[0] in hands then multiset(hands[ids[0]]) else multiset{}) + DealtCards(hands, ids[1..])
  }

  lemma {:induction false} DealtCardsIgnoresOthers(hands: map<PlayerId, seq<CatalogCard>>, ids: seq<PlayerId>, p: PlayerId, h: seq<CatalogCard>)
    requires p !in ids
    ensures DealtCards(hands[p := h], ids) == DealtCards(hands, ids)
  {
    if ids != [] {
      DealtCardsIgnoresOthers(hands, ids[1..], p, h);
    }
  }

  lemma {:induction false} DealtCardsAppend(hands: map<PlayerId, seq<CatalogCard>>, ids: seq<PlayerId>, p: PlayerId)
    ensures DealtCards(hands, ids + [p]) == DealtCards(hands, ids) + (if p in hands then multiset(hands[p]) else multiset{})
  {
    if ids == [] {
      assert ids + [p] == [p];
    } else {
      assert (ids + [p])[1..] == ids[1..] + [p];
      DealtCardsAppend(hands, ids[1..], p);
    }
  }

  /** One `dealInitialCards` call inside `initializeGame` keeps the dealt cards and the
      remaining deck together equal to the catalog. */
  lemma DealStep(before: map<PlayerId, seq<CatalogCard>>, deckBefore: seq<CatalogCard>,
                 after: map<PlayerId, seq<CatalogCard>>, deckAfter: seq<CatalogCard>,
                 order: seq<PlayerId>, i: nat, catalog: seq<CatalogCard>)
    requires NoDuplicates(order) && i < |order|
    requires forall p :: p in before <==> p in order[..i]
    requires forall p :: p in before ==> |before[p]| <= HandSize
    requires multiset(deckBefore) + DealtCards(before, order[..i]) == multiset(catalog)
    requires var k := Min(HandSize, |deckBefore|);
      deckAfter == deckBefore[..|deckBefore| - k] &&
      after == before[order[i] := Popped(deckBefore, k)]
    ensures forall p :: p in after <==> p in order[..i + 1]
    ensures forall p :: p in after ==> |after[p]| <= HandSize
    ensures multiset(deckAfter) + DealtCards(after, order[..i + 1]) == multiset(catalog)
  {
    var p := order[i];
    var k := Min(HandSize, |deckBefore|);
    NotDealtYet(order, i);
    assert order[..i + 1] == order[..i] + [p];
    PoppedKeepsCards(deckBefore, k);
    DealtCardsIgnoresOthers(before, order[..i], p, Popped(deckBefore, k));
    DealtCardsAppend(after, order[..i], p);
  }

  /** The hands and the remaining deck after `dealInitialCards` has run for every
      player of `order` in turn, starting from no hands: each player receives the
      `min(5, remaining)` cards popped from what the players before them left. */
  function DealAll(deck: seq<CatalogCard>, order: seq<PlayerId>): (map<PlayerId, seq<CatalogCard>>, seq<CatalogCard>)
    decreases |order|
  {
    if order == [] then (map[], deck)
    else
      var (hands, rest) := DealAll(deck, order[..|order| - 1]);
      var k := Min(HandSize, |rest|);
      (hands[order[|order| - 1] := Popped(rest, k)], rest[..|rest| - k])
  }

  /** Dealing to distinct players gives a hand of at most five cards to exactly the
      players of `order`, and loses or duplicates no card of the deck. */
  lemma {:induction false} DealAllConserves(deck: seq<CatalogCard>, order: seq<PlayerId>)
    requires NoDuplicates(order)
    ensures forall p :: p in DealAll(deck, order).0 <==> p in order
    ensures forall p :: p in DealAll(deck, order).0 ==> |DealAll(deck, order).0[p]| <= HandSize
    ensures multiset(DealAll(deck, order).1) + DealtCards(DealAll(deck, order).0, order) == multiset(deck)
  {
    if order != [] {
      var n := |order| - 1;
      var prefix := order[..n];
      assert NoDuplicates(prefix) by {
        forall i, j | 0 <= i < j < |prefix| ensures prefix[i] != prefix[j] {
          assert prefix[i] == order[i] && prefix[j] == order[j];
        }
      }
      DealAllConserves(deck, prefix);
      assert order[..n + 1] == order;
      DealStep(DealAll(deck, prefix).0, DealAll(deck, prefix).1,
               DealAll(deck, order).0, DealAll(deck, order).1, order, n, deck);
    }
  }

  /** The player at position `i` of a turn order without duplicates holds the
      `min(5, remaining)` cards popped from the deck the players before them left. */
  lemma {:induction false} DealAllHandOf(deck: seq<CatalogCard>, order: seq<PlayerId>, i: nat)
    requires NoDuplicates(order) && i < |order|
    ensures var rest := DealAll(deck, order[..i]).1;
      order[i] in DealAll(deck, order).0 &&
      DealAll(deck, order).0[order[i]] == Popped(rest, Min(HandSize, |rest|))
  {
    var n := |order| - 1;
    var prefix := order[..n];
    if i < n {
      assert NoDuplicates(prefix) by {
        forall a, b | 0 <= a < b < |prefix| ensures prefix[a] != prefix[b] {
          assert prefix[a] == order[a] && prefix[b] == order[b];
        }
      }
      DealAllHandOf(deck, prefix, i);
      assert prefix[..i] == order[..i] && prefix[i] == order[i];
      assert order[i] != order[n];
    } else {
      assert prefix == order[..i];
    }
  }

  /** With enough cards in the deck, every player receives a full hand of five and
      the deck shrinks by five cards per player. */
  lemma {:induction false} DealAllFullHands(deck: seq<CatalogCard>, order: seq<PlayerId>)
    requires |deck| >= HandSize * |order|
    ensures |DealAll(deck, order).1| == |deck| - HandSize * |order|
    ensures forall p :: p in DealAll(deck, order).0 ==> |DealAll(deck, order).0[p]| == HandSize
  {
    if order != [] {
      DealAllFullHands(deck, order[..|order| - 1]);
    }
  }

  /** The hands and deck are what dealing in turn order leaves from some shuffle of
      the catalog. */
  ghost predicate DealtFromCatalog(catalog: seq<CatalogCard>, dealt: (map<PlayerId, seq<CatalogCard>>, seq<CatalogCard>),
                                   order: seq<PlayerId>) {
    exists shuffled :: multiset(shuffled) == multiset(catalog) && DealAll(shuffled, order) == dealt
  }

  /** Every hand holds five cards. */
  predicate FullHands(hands: map<PlayerId, seq<CatalogCard>>) {
    forall p :: p in hands ==> |hands[p]| == HandSize
  }

  /** Dealing from a shuffle of the catalog yields hands and a deck dealt from the
      catalog, with full hands whenever the catalog has five cards per player. */
  lemma DealtFromShuffle(catalog: seq<CatalogCard>, shuffled: seq<CatalogCard>, order: seq<PlayerId>)
    requires multiset(shuffled) == multiset(catalog)
    ensures DealtFromCatalog(catalog, DealAll(shuffled, order), order)
    ensures |catalog| >= HandSize * |order| ==> FullHands(DealAll(shuffled, order).0)
  {
    assert |shuffled| == |multiset(shuffled)| == |catalog|;
    if |catalog| >= HandSize * |order| {
      DealAllFullHands(shuffled, order);
    }
  }

  /** In a list without duplicates, the player at position `i` is not among those
      before it. */
  lemma NotDealtYet(order: seq<PlayerId>, i: nat)
    requires NoDuplicates(order) && i < |order|
    ensures order[i] !in order[..i]
  {
    forall j | 0 <= j < i ensures order[..i][j] != order[i] {
      assert order[j] != order[i];
    }
  }

  predicate NoDuplicates(s: seq<PlayerId>) {
    forall i, j :: 0 <= i < j < |s| ==> s[i] != s[j]
  }

  lemma {:induction false} RemoveKeepsDistinct(s: seq<PlayerId>, p: PlayerId)
    requires NoDuplicates(s)
    ensures NoDuplicates(Remove(s, p))
  {
    if s != [] {
      assert NoDuplicates(s[1..]) by {
        forall i, j | 0 <= i < j < |s[1..]| ensures s[1..][i] != s[1..][j] {
          assert s[i + 1] != s[j + 1];
        }
      }
      RemoveKeepsDistinct(s[1..], p);
      if s[0] != p {
        assert s[0] !in s[1..] by {
          forall j | 0 <= j < |s[1..]| ensures s[1..][j] != s[0] {
            assert s[j + 1] != s[0];
          }
        }
        var r := Remove(s[1..], p);
        forall i, j | 0 <= i < j < |[s[0]] + r| ensures ([s[0]] + r)[i] != ([s[0]] + r)[j] {
          if i == 0 {
            assert ([s[0]] + r)[j] == r[j - 1];
            assert r[j - 1] in r;
          } else {
            assert ([s[0]] + r)[i] == r[i - 1];
            assert ([s[0]] + r)[j] == r[j - 1];
          }
        }
      }
    }
  }

  /** `s` without the element `p` (the key order of an object after `delete`). */
  function Remove(s: seq<PlayerId>, p: PlayerId): (r: seq<PlayerId>)
    ensures forall q :: q in r <==> q in s && q != p
    ensures p !in s ==> r == s
  {
    if s == [] then []
    else if s[0] == p then Remove(s[1..], p)
    else [s[0]] + Remove(s[1..], p)
  }

  class Session<Cell> {
    /** `cardsData`, loaded once at start-up. */
    const catalog: seq<CatalogCard>
    /** The connected players in the key order of `gameState.players`. */
    var players: seq<PlayerId>
    var deck: seq<CatalogCard>
    var hands: map<PlayerId, seq<CatalogCard>>
    var board: map<Pos, Cell>
    var currentPlayer: Option<PlayerId>
    var status: Status
    var order: seq<PlayerId>
    var index: int

    /** The session invariant: players are distinct, only connected players hold a
        hand, the turn index points into the turn order, `currentPlayer` is the player
        at that index, and a running game has a turn order. */
    ghost predicate Valid()
      reads this
    {
      NoDuplicates(players) &&
      (forall p :: p in hands ==> p in players) &&
      (order == [] ==> index == 0 && currentPlayer == None) &&
      (order != [] ==> 0 <= index < |order| && currentPlayer == Some(order[index])) &&
      (status == Running ==> order != [])
    }

    constructor (cards: seq<CatalogCard>)
      ensures Valid()
      ensures catalog == cards && players == [] && deck == [] && hands == map[] && board == map[]
      ensures currentPlayer == None && status == Waiting && order == [] && index == 0
    {
      catalog := cards;
      players, deck, hands, board := [], [], map[], map[];
      currentPlayer, status, order, index := None, Waiting, [], 0;
    }

    /** The `connection` handler: the socket's id becomes a key of `gameState.players`. */
    method Connect(id: PlayerId)
      requires Valid()
      modifies this
      ensures Valid()
      ensures players == if id in old(players) then old(players) else old(players) + [id]
      ensures deck == old(deck) && hands == old(hands) && board == old(board) && status == old(status)
      ensures order == old(order) && index == old(index) && currentPlayer == old(currentPlayer)
    {
      if id !in players {
        players := players + [id];
      }
    }

    /** `dealInitialCards(playerId)`: pops up to five cards from the deck's end into a
        fresh hand, replacing whatever hand the player had. */
    method DealInitialCards(id: PlayerId)
      requires Valid() && id in players
      modifies this
      ensures Valid()
      ensures var k := Min(HandSize, |old(deck)|);
        deck == old(deck)[..|old(deck)| - k] &&
        hands == old(hands)[id := Popped(old(deck), k)]
      ensures players == old(players) && board == old(board) && status == old(status)
      ensures order == old(order) && index == old(index) && currentPlayer == old(currentPlayer)
    {
      var hand: seq<CatalogCard> := [];
      var rest := deck;
      var i := 0;
      while i < HandSize && |rest| > 0
        invariant 0 <= i <= HandSize && i <= |deck|
        invariant rest == deck[..|deck| - i]
        invariant hand == Popped(deck, i)
        invariant unchanged(this)
        decreases HandSize - i
      {
        hand := hand + [rest[|rest| - 1]];
        rest := rest[..|rest| - 1];
        i := i + 1;
        PoppedSnoc(deck, i);
      }
      deck := rest;
      hands := hands[id := hand];
    }

    /** `drawCard(playerId)`: one card moves from the deck's end to the end of the
        player's hand; an empty deck changes nothing. */
    method DrawCard(id: PlayerId)
      requires Valid() && id in hands
      modifies this
      ensures Valid()
      ensures |old(deck)| > 0 ==>
        deck == old(deck)[..|old(deck)| - 1] &&
        hands == old(hands)[id := old(hands)[id] + [old(deck)[|old(deck)| - 1]]]
      ensures |old(deck)| == 0 ==> deck == old(deck) && hands == old(hands)
      ensures players == old(players) && board == old(board) && status == old(status)
      ensures order == old(order) && index == old(index) && currentPlayer == old(currentPlayer)
    {
      if |deck| > 0 {
        hands := hands[id := hands[id] + [deck[|deck| - 1]]];
        deck := deck[..|deck| - 1];
      }
    }

    /** `nextPlayer()`: the turn index moves to `(index + 1) mod n`. */
    method NextPlayer()
      requires Valid() && order != []
      modifies this
      ensures Valid()
      ensures order == old(order)
      ensures index == Advance(old(index), |order|) && currentPlayer == Some(order[index])
      ensures players == old(players) && deck == old(deck) && hands == old(hands)
      ensures board == old(board) && status == old(status)
    {
      index := (index + 1) % |order|;
      currentPlayer := Some(order[index]);
    }

    /** `initializeGame()`: a shuffled copy of the catalog becomes the deck, the board
        and hands are cleared, the turn order is the current player list, the first of
        them moves first, and every player in turn order is dealt a hand. No catalog
        card is lost or duplicated: the deck and all hands together hold the catalog. */
    method InitializeGame()
      requires Valid() && players != []
      modifies this
      ensures Valid()
      ensures status == Running && board == map[] && order == old(players) && players == old(players)
      ensures index == 0 && currentPlayer == Some(order[0])
      ensures DealtFromCatalog(catalog, (hands, deck), order)
      ensures forall p :: p in hands <==> p in order
      ensures forall p :: p in hands ==> |hands[p]| <= HandSize
      ensures |catalog| >= HandSize * |order| ==> FullHands(hands)
      ensures multiset(deck) + DealtCards(hands, order) == multiset(catalog)
    {
      var shuffled := Deck.ShuffleArray(catalog);
      StartRound(shuffled);
      DealAllHands();
    }

    /** The resets at the start of `initializeGame`: the shuffled deck, an empty board,
        no hands, the player list as the turn order with its first player to move, and
        the status `running`. */
    method StartRound(shuffled: seq<CatalogCard>)
      requires Valid() && players != []
      modifies this
      ensures Valid()
      ensures deck == shuffled && board == map[] && hands == map[] && status == Running
      ensures order == players && players == old(players) && index == 0 && currentPlayer == Some(order[0])
    {
      deck := shuffled;
      board := map[];
      hands := map[];
      index := 0;
      order := players;
      currentPlayer := Some(order[0]);
      status := Running;
    }

    /** The loop of `initializeGame` that calls `dealInitialCards` for every player in
        turn order, starting from no hands. */
    method DealAllHands()
      requires Valid() && order == players && hands == map[] && multiset(deck) == multiset(catalog)
      modifies this
      ensures Valid()
      ensures (hands, deck) == DealAll(old(deck), order)
      ensures DealtFromCatalog(catalog, (hands, deck), order)
      ensures |catalog| >= HandSize * |order| ==> FullHands(hands)
      ensures forall p :: p in hands <==> p in order
      ensures forall p :: p in hands ==> |hands[p]| <= HandSize
      ensures multiset(deck) + DealtCards(hands, order) == multiset(old(deck))
      ensures players == old(players) && board == old(board) && status == old(status)
      ensures order == old(order) && index == old(index) && currentPlayer == old(currentPlayer)
    {
      var i := 0;
      while i < |order|
        invariant Valid()
        invariant 0 <= i <= |order|
        invariant players == old(players) && board == old(board) && status == old(status)
        invariant order == old(order) && index == old(index) && currentPlayer == old(currentPlayer)
        invariant order == players
        invariant (hands, deck) == DealAll(old(deck), order[..i])
      {
        DealInitialCards(order[i]);
        assert order[..i + 1][..i] == order[..i];
        i := i + 1;
      }
      assert order[..i] == order;
      DealAllConserves(old(deck), order);
      DealtFromShuffle(catalog, old(deck), order);
    }

    /** The `disconnect` handler: the player and their hand are removed; fewer than two
        players left in a running game sends the session back to `waiting`. The turn
        order is not touched. */
    method Disconnect(id: PlayerId)
      requires Valid()
      modifies this
      ensures Valid()
      ensures players == Remove(old(players), id) && hands == old(hands) - {id}
      ensures status == (if |players| < 2 && old(status) == Running then Waiting else old(status))
      ensures deck == old(deck) && board == old(board)
      ensures order == old(order) && index == old(index) && currentPlayer == old(currentPlayer)
    {
      RemoveKeepsDistinct(players, id);
      players := Remove(players, id);
      hands := hands - {id};
      if |players| < 2 && status == Running {
        status := Waiting;
      }
    }

    /** The `startGame` handler of the express and fastify servers: a waiting or ended
        session with at least two players starts a new round; otherwise the requester
        is told that a game is already running or that there are too few players,
        and nothing changes. */
    method StartGame() returns (out: StartOutcome)
      requires Valid()
      modifies this
      ensures Valid()
      ensures out == Started <==> old(status) != Running && |old(players)| >= 2
      ensures out == AlreadyRunning <==> old(status) == Running
      ensures out == TooFewPlayers <==> old(status) != Running && |old(players)| < 2
      ensures out == Started ==>
        status == Running && board == map[] && order == old(players) && players == old(players) &&
        index == 0 && currentPlayer == Some(order[0]) &&
        DealtFromCatalog(catalog, (hands, deck), order) &&
        (forall p :: p in hands <==> p in order) &&
        (|catalog| >= HandSize * |order| ==> FullHands(hands)) &&
        multiset(deck) + DealtCards(hands, order) == multiset(catalog)
      ensures out != Started ==> unchanged(this)
    {
      if status != Running && |players| >= 2 {
        InitializeGame();
        out := Started;
      } else if status == Running {
        out := AlreadyRunning;
      } else {
        out := TooFewPlayers;
      }
    }

    /** The tail of a valid `playerMove`, the same in all three servers: the cell value
        is stored at the target, every card with the played id leaves the mover's
        hand, the mover draws and the turn passes. */
    method PlaceCard(id: PlayerId, cardId: int, at: Pos, cell: Cell)
      requires Valid() && status == Running && id in hands
      modifies this
      ensures Valid()
      ensures board == old(board)[at := cell]
      ensures |old(deck)| > 0 ==>
        hands == old(hands)[id := WithoutCard(old(hands)[id], cardId) + [old(deck)[|old(deck)| - 1]]] &&
        deck == old(deck)[..|old(deck)| - 1]
      ensures |old(deck)| == 0 ==>
        hands == old(hands)[id := WithoutCard(old(hands)[id], cardId)] && deck == old(deck)
      ensures status == Running && order == old(order) && index == Advance(old(index), |order|)
      ensures currentPlayer == Some(order[index]) && players == old(players)
    {
      board := board[at := cell];
      hands := hands[id := WithoutCard(hands[id], cardId)];
      DrawCard(id);
      NextPlayer();
    }

    /** The checks `playerMove` makes before it looks at the move, in source order. */
    function Guard(id: PlayerId, cardId: int): (r: Option<GuardError>)
      reads this
      ensures r == None <==> status == Running && currentPlayer == Some(id) && id in hands && HoldsCard(hands[id], cardId)
      ensures r == Some(NotRunning) <==> status != Running
    {
      if status != Running then Some(NotRunning)
      else if currentPlayer != Some(id) then Some(NotYourTurn)
      else if id !in hands || !HoldsCard(hands[id], cardId) then Some(CardNotInHand)
      else None
    }

    /** `getGameStateForClient(playerId)`: the player sees their own hand only (an empty
        one when they have none) and the deck as a count. */
    function Snapshot(id: PlayerId): (v: ClientView<Cell>)
      reads this
      ensures v.playerHand == (if id in hands then hands[id] else [])
      ensures v.deckCount == |deck|
      ensures v.board == board && v.gameStatus == status && v.currentPlayer == currentPlayer
    {
      ClientView(players, board, currentPlayer, status, if id in hands then hands[id] else [], |deck|)
    }
  }

  lemma PoppedSnoc(deck: seq<CatalogCard>, k: nat)
    requires 0 < k <= |deck|
    ensures Popped(deck, k) == Popped(deck, k - 1) + [deck[|deck| - k]]
  {
  }
}
