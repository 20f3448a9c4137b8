# Cross-layout estimation card game: board and move engine

Players take turns laying animal and object cards on a cross-shaped board.

- The first card lies at the origin `(0, 0)`.
- Cards laid on the horizontal arm (`y = 0`) are compared by their width.
- Cards laid on the vertical arm (`x = 0`) are compared by their height.
- Along an arm, values must increase to the right (or upward): a card must be smaller than its right (or upper) neighbour and larger than its left (or lower) one. On the negative half of an arm, values therefore decrease away from the origin.
- A wrong placement ends the round.

This project models the engine of that game and proves properties about it:

- the three server variants, each with its own move rules: express, the plain `server.js` and fastify;
- the session state machine they share;
- the client-side board computations of the beta client;
- two small client helpers: image path building and the debug logger.

Modules, one per file:

- `Common` (`common.dfy`): positions, axes, catalog cards, `Array.prototype.find`, the hand filter, and JavaScript comparison of nullable numbers.
- `Deck` (`deck.dfy`): `shuffleArray`, a swap loop whose swap index is an arbitrary value in `[0, i]`.
- `Session` (`session.dfy`): a class `Session<Cell>` holding the global `gameState`. It models `dealInitialCards`, `drawCard`, `initializeGame`, `nextPlayer`, `getGameStateForClient` and the `connection`, `disconnect` and `playerMove` state updates, which are the same in the three servers, and the `startGame` update of express and fastify. The plain server's `startGame` differs and is `PlainServer.StartGame`. The board's cell type is a parameter: express stores a derived placed card, the other two store the catalog card.
- `ExpressRules` (`express_rules.dfy`): the express `createCardForBoard` and `validateMove`, whose checks run in a fixed order, plus lemmas on arm ordering.
- `ExpressShift` (`express_shift.dfy`): the conversion of a floating insertion coordinate and the in-place shift `shiftCardsIfNeeded`.
- `ExpressServer` (`express_server.dfy`): the express `playerMove` handler.
- `PlainServer` (`plain_server.dfy`): the rules and handlers of `server.js`. The first card must lie at the origin, orientation is read from the catalog card, and an ended round cannot be restarted.
- `FastifyServer` (`fastify_server.dfy`): the rules and `playerMove` handler of the fastify server.
- `BetaZones` (`beta_zones.dfy`): the client legality check, drop zones, ray extensions, floating insertion zones and insert-before zones. Zones use doubled coordinates, so a midpoint between two cells is an integer pair.
- `BetaSequences` (`beta_sequences.dfy`): run tracing (`traceSequence`, `findCardSequences`) and insertion zones inside a run.
- `ImageManager` (`image_manager.dfy`): `sanitizeFilename`, `getImagePath` and `getCardPlaceholder`.
- `DebugUtils` (`debug_utils.dfy`): the bounded log buffer, the level filter, the console method and the trimmed stored-error list.

How the model represents the source:

- Handlers become methods on the session that return an outcome value instead of emitting events.
- The express server receives positions such as `"0.5,0"`. Move requests are therefore modelled in doubled coordinates `(x2, y2)`, so that `Math.ceil` of a half is exact.
- Numeric card fields are `Option<int>`, where `None` is JSON `null`.
- A JavaScript comparison converts `null` to 0 and a label string to NaN. NaN makes every comparison false.
- Object key order is modelled as an arbitrary choice.

Two behaviours of the express code are kept as written and stated as lemmas:

- Its shift steps over cards of another orientation, such as the origin card, instead of stopping at them. An insertion on the negative arm can therefore move a card onto the origin's cell (`ExpressShift.ShiftOverwritesOrigin`).
- Its validator compares a new card only with the one neighbour that governs it. A card accepted between two cards can therefore break the order of the arm (`ExpressRules.InsertionChecksPlusSideOnly`), on a board that a floating insertion reaches from an ordered arm (`ExpressServer.InsertionAfterShift`).

## Model

| member | source | states |
|---|---|---|
| Common.Find | server/server-express.js:99 | the card found is in the catalog and carries the id; none is found exactly when no catalog card has that id |
| Common.WithoutCard | server/server-express.js:523 | every card with the played id leaves the hand, every other card stays; a hand holding the id gets strictly shorter |
| Deck.ShuffleArray | server/server-express.js:30-39 | the result has the input's length and is a permutation of it (same multiset); the input is not changed |
| Session.Popped | server/server-express.js:41-48 | `k` pops return `k` cards, the i-th being the deck's i-th card from the end |
| Session.PoppedKeepsCards | server/server-express.js:41-48 | the remaining deck plus the popped cards are exactly the cards of the deck before |
| Session.AdvanceWraps | server/server-express.js:249-252 | from a valid index, `nextPlayer` moves to the next index, or to 0 after the last player |
| Session.AdvancedByWraps | server/server-express.js:249-252 | `k <= n` calls of `nextPlayer` land on `(i + k) mod n` |
| Session.TurnCycleReturns | server/server-express.js:249-252 | with `n` players, `n` calls of `nextPlayer` return the turn to where it was, and no smaller positive number of calls does |
| Session.DealStep | server/server-express.js:243-246 | one dealing step keeps deck plus dealt hands equal to the catalog as a multiset, with hands of at most five cards for exactly the players dealt so far |
| Session.DealAllConserves | server/server-express.js:243-246 | dealing to distinct players gives hands of at most five cards to exactly those players and loses or duplicates no card |
| Session.DealAllHandOf | server/server-express.js:243-246 | the player at position i receives the `min(5, remaining)` cards popped from the deck the players before them left |
| Session.DealAllFullHands | server/server-express.js:243-246 | with at least five cards per player every hand holds exactly five and the deck shrinks by five per player |
| Session.DealtFromShuffle | server/server-express.js:234-247 | dealing from a shuffle of the catalog is dealing from the catalog, with full hands when the catalog has five cards per player |
| Session.Remove | server/server-express.js:541 | deleting a player keeps every other player and drops exactly that one |
| Session.Session.constructor | server/server-express.js:18-27 | the initial state: no players, empty deck, hands and board, no current player, status waiting, empty turn order, index 0 |
| Session.Session.Connect | server/server-express.js:335-338 | a new socket id is appended to the players; nothing else changes |
| Session.Session.DealInitialCards | server/server-express.js:41-48 | the player's hand becomes the min(5, deck size) cards popped from the deck's end, and the deck loses exactly those |
| Session.Session.DrawCard | server/server-express.js:92-96 | a non-empty deck moves its last card to the end of the hand; an empty deck changes nothing |
| Session.Session.NextPlayer | server/server-express.js:249-252 | the index becomes `(index + 1) mod n` and the current player is the player at that index |
| Session.Session.InitializeGame | server/server-express.js:234-247 | status running, empty board, turn order = the players, index 0, first player to move; the hands and deck are what dealing in turn order leaves from a shuffle of the catalog; every player holds at most five cards, exactly five when the catalog has five per player; deck plus hands hold exactly the catalog |
| Session.Session.StartRound | server/server-express.js:235-241 | the deck is the shuffled catalog, board and hands are empty, the turn order is the player list, index 0 with its first player to move, status running |
| Session.Session.DealAllHands | server/server-express.js:243-246 | starting from no hands, the hands and deck become exactly `DealAll` of the deck and the turn order: each player in turn receives the `min(5, remaining)` cards popped from what the players before left; at most five per player, deck plus hands hold the cards of the deck before, nothing else in the session changes |
| Session.Session.StartGame | server/server-express.js:351-400 | starts exactly when not running and at least two players are connected; otherwise reports "already running" or "too few players" and changes nothing; a start keeps the players, resets board, order and index, and deals hands from a shuffle of the catalog in turn order, five each when the catalog suffices, with no card lost |
| Session.Session.PlaceCard | server/server-express.js:514-529 | the cell is stored at the target, the played id leaves the hand, one card is drawn if the deck is non-empty, the turn advances |
| Session.Session.Disconnect | server/server-express.js:538-548 | the player and their hand are removed; a running game left with fewer than two players goes back to waiting; nothing else changes |
| Session.Session.Guard | server/server-express.js:416-435 | a move is looked at exactly when the game runs, it is the mover's turn and the card is in their hand; "not running" is reported exactly when the game is not running |
| Session.Session.Snapshot | server/server-express.js:301-310 | a player sees their own hand only (empty without one), the deck as a count, and the shared board, status and current player |
| ExpressRules.CreateCardForBoard | server/server-express.js:50-90 | fails exactly off both axes; the origin gets the origin orientation with a label metric; `y = 0` gives querformat with the width, `x = 0` gives hochformat with the height; the catalog card is kept |
| ExpressRules.CreatedCardIsWellPlaced | server/server-express.js:50-90 | every card made for an axis cell lies where its orientation says |
| ExpressRules.CompareWith | server/server-express.js:212-231 | without a governing neighbour, or with a label-valued one, the move is accepted; against the plus-side (right or upper) neighbour it is accepted exactly when the value is strictly smaller, against the minus-side one exactly when strictly larger |
| ExpressRules.ValidateMove | server/server-express.js:98-232 | in order: unknown card, occupied cell, empty board accepts, origin and off-axis cells rejected; on a non-empty board a move to an arm cell is accepted exactly when it is allowed on that arm, has the arm's dimension, touches a card, has no card of the other arm across from it, and is below the right or upper neighbour when that one governs, else above the left or lower one when that one governs; a card of the other arm across from it rejects with the cross-adjacency reason |
| ExpressRules.CrossCheckUnreachable | server/server-express.js:180-187 | while every card lies on an axis, the cross-adjacency rejection never happens |
| ExpressRules.ArmEndKeepsOrder | server/server-express.js:162-229 | a card accepted at an end of an arm keeps the arm's values strictly increasing to the right (or upward) |
| ExpressRules.InsertionChecksPlusSideOnly | server/server-express.js:190-201 | on an ordered arm holding an origin card, a card smaller than both its neighbours is accepted between them and breaks the order |
| ExpressShift.ActualPosition | server/server-express.js:437-466 | the shift flag is set exactly for a half coordinate in insertion mode; each coordinate is the ceiling of the requested one, and whole coordinates are kept |
| ExpressShift.CollectRun | server/server-express.js:260-268 | every collected coordinate is between the insert point and 10 and holds a card of the arm's orientation |
| ExpressShift.CollectLoop | server/server-express.js:260-268 | the collecting loop returns exactly the run the search function describes |
| ExpressShift.RelocateLoop | server/server-express.js:271-275 | the far-end-first relocation loop yields the relocated board of the specification function |
| ExpressShift.ShiftCardsIfNeeded | server/server-express.js:254-299 | the shift produces the specified board for each orientation and leaves it alone for any other |
| ExpressShift.CollectContiguous | server/server-express.js:260-268 | on a contiguous run ending within the scan limit, the search returns exactly its coordinates in order |
| ExpressShift.ShiftSuffixMovesRun | server/server-express.js:271-275 | after relocating a suffix of the run, those cards sit one cell further out, the first moved cell is free, and all else is as before |
| ExpressShift.ShiftIsLossless | server/server-express.js:254-299 | for a contiguous run ending by coordinate 10, the insert cell becomes free, every run card moves one cell outward, and no other cell changes |
| ExpressShift.ShiftSuffixStaysOnArm | server/server-express.js:271-275 | relocation only writes cells on the arm being shifted |
| ExpressShift.ShiftedKeepsOnAxes | server/server-express.js:254-299 | a shift keeps every card on an axis |
| ExpressShift.ShiftOverwritesOrigin | server/server-express.js:260-268 | inserting at `-1.5,0` with cards at -2, -1 and the origin moves the card at -1 onto the origin's cell, and the origin card is lost |
| ExpressServer.PlayerMove | server/server-express.js:403-535 | guards refuse with no change; past them, the round ends exactly when the move is invalid after the shift, keeping hands, deck, order, index and current player; a throw happens exactly for a valid off-axis first card and changes nothing; otherwise the derived card is stored, the hand filtered, a card drawn and the turn advanced |
| ExpressServer.Play | server/server-express.js:437-529 | for a move past the guards: the round ends exactly when the move is invalid after the shift, keeping hands, deck, order, index and current player; a throw happens exactly for a valid off-axis first card, on an empty board, and changes nothing; otherwise the derived card is stored, the hand filtered, a card drawn and the turn advanced |
| ExpressServer.ShiftForMove | server/server-express.js:472-486 | the board becomes the shifted board exactly when the request is a floating insertion, nothing else in the session changes, and the session is untouched when the board keeps its value |
| ExpressServer.CrashNeedsEmptyBoard | server/server-express.js:514-515 | `createCardForBoard` can throw after a valid move only on an empty, unshifted board |
| ExpressServer.ShiftedEmpty | server/server-express.js:254-299 | shifting an empty board leaves it empty |
| ExpressServer.PlacedKeepsCross | server/server-express.js:483-523 | after a valid move, every card still lies on an axis and the new card lies where its orientation says |
| ExpressServer.InsertionLeftOfOriginEndsRound | server/server-express.js:443-458 | an insertion at `-0.5,0` or `0,-0.5` targets the origin with no shift effect, and on a non-empty board is always rejected |
| ExpressServer.InsertionAfterShift | server/server-express.js:437-486 | a floating insertion at `0.5,0` on the ordered arm origin 3, 5, 9 yields the board on which the arm-breaking card of width 1 is accepted |
| PlainServer.GoverningCell | server/server.js:67-106 | for hochformat the cell above wins over the one below; for querformat the left wins over the right; none exactly when both are empty |
| PlainServer.ValidateMove | server/server.js:45-126 | unknown card, occupied cell, on an empty board only the origin; another orientation is accepted anywhere; a portrait or landscape card on a non-empty board is accepted exactly when its governing neighbour has its orientation and the strict value relation holds with it |
| PlainServer.NeverThrows | server/server.js:45-126 | while the board holds catalog cards, validation never throws |
| PlainServer.StartGame | server/server.js:205-215 | starts exactly from waiting with at least two players; otherwise nothing happens |
| PlainServer.PlayerMove | server/server.js:218-273 | guards refuse with no change; an invalid move ends the round with board, hands, deck, order, index and current player unchanged; a valid one stores the catalog card, filters the hand, draws and advances; a board of catalog cards stays so and never crashes the handler |
| PlainServer.EndedIsFinal | server/server.js:205-225 | once ended, start is ignored and every move is refused as "not running", with no change |
| FastifyServer.Governing | server/server-fastify.js:102-122 | hochformat checks above before below, querformat right before left; none exactly when neither holds a card of that orientation |
| FastifyServer.ValidateMove | server/server-fastify.js:45-159 | unknown card, occupied cell, empty board accepts; another orientation is accepted exactly with an occupied neighbour; a portrait or landscape card on a non-empty board is accepted exactly when it has a same-orientation governing neighbour and the strict value relation holds with it |
| FastifyServer.PlacementCheckFindsGoverning | server/server-fastify.js:65-122 | the placement check passes exactly when a governing neighbour exists |
| FastifyServer.PlayerMove | server/server-fastify.js:305-376 | guards refuse with no change; an invalid move ends the round with board, hands, deck, order, index and current player unchanged; a valid one stores the catalog card, filters the hand, draws and advances |
| BetaZones.ValidateCardPlacement | client/beta-game.js:1094-1158 | refuses an occupied cell, accepts on an empty board, refuses the origin, off-axis cells, cells without a neighbour and cross-adjacent cells, and accepts everything else |
| BetaZones.ServerAcceptImpliesClientAccept | client/beta-game.js:1094-1158 | every move the express validator accepts passes the client check |
| BetaZones.GetAdjacentCards | client/beta-game.js:1160-1175 | returns exactly those of the two same-axis neighbours whose card has the given orientation, in source order |
| BetaZones.InsertSorted | client/beta-game.js:495-496 | inserting into an increasing sequence keeps it increasing and adds exactly the new value |
| BetaZones.AxisCoordinates | client/beta-game.js:483-496 | the occupied coordinates of an arm, strictly increasing |
| BetaZones.GenerateRayExtensions | client/beta-game.js:478-542 | adds exactly the free cells beyond either end of either arm, plus the four cells around a lone origin |
| BetaZones.ExtendEnds | client/beta-game.js:498-532 | adds exactly the free end cells of one arm |
| BetaZones.NoEndsOnEmptyArm | client/beta-game.js:498-532 | an arm with no card has no end zone |
| BetaZones.AddMidpoints | client/beta-game.js:560-606 | adds exactly the midpoints of consecutive cards on the arm |
| BetaZones.MidpointIsFloating | client/beta-game.js:560-606 | each midpoint of consecutive sorted coordinates lies in a gap with no card between |
| BetaZones.FloatingIsMidpoint | client/beta-game.js:560-606 | every gap midpoint is the midpoint of two consecutive sorted coordinates |
| BetaZones.MidpointsAreFloating | client/beta-game.js:560-606 | the midpoints added are exactly the gap midpoints |
| BetaZones.GenerateFloatingInsertionZones | client/beta-game.js:544-609 | adds exactly the midpoints between consecutive cards on both arms |
| BetaZones.GenerateDropZones | client/beta-game.js:447-476 | an empty board offers only the origin; otherwise exactly the ray and floating zones |
| BetaZones.RayZoneIsPlayable | client/beta-game.js:478-542 | every ray zone of a board on the axes with an origin card passes the client check |
| BetaZones.AddInsertionZones | client/beta-game.js:617-689 | adds exactly the occupied arm cells with a smaller occupied coordinate on the same arm |
| BetaZones.AllButSmallest | client/beta-game.js:617-689 | those cells are all sorted coordinates but the first |
| BetaZones.LaterCellIsBeforeZone | client/beta-game.js:617-689 | the cell of every sorted coordinate after the smallest is offered before a card |
| BetaZones.BeforeZoneIsLaterCell | client/beta-game.js:617-689 | every zone offered before a card is the cell of a coordinate after the smallest |
| BetaZones.GenerateInsertionZones | client/beta-game.js:611-615 | adds exactly the insert-before zones of both arms |
| BetaZones.InsertBeforeZoneIsOccupied | client/beta-game.js:617-689 | every insert-before zone is an occupied cell, so the client check refuses it |
| BetaSequences.TraceSequence | client/beta-game.js:718-762 | returns a maximal run in increasing order that contains a matching start; for a non-matching start, the run ending just before it, or none; marks exactly the run processed |
| BetaSequences.WalkBack | client/beta-game.js:723-742 | stops `d` cells back from the start, every cell passed matches, and the cell before the stop does not |
| BetaSequences.CollectForward | client/beta-game.js:744-759 | collects consecutive matching cells from the first one, all marked processed, and the cell after them does not match |
| BetaSequences.SharedCellSameRun | client/beta-game.js:718-762 | two maximal runs sharing a cell are the same run |
| BetaSequences.FindCardSequences | client/beta-game.js:691-716 | the runs are maximal, pairwise disjoint and cover every matching card |
| BetaSequences.RunsExtended | client/beta-game.js:709-712 | adding a run traced from an unprocessed matching cell keeps the runs maximal and pairwise disjoint, and the processed cells exactly the cells of the runs |
| BetaSequences.NewRunIsDisjoint | client/beta-game.js:691-716 | a maximal run through an unprocessed cell shares no cell with the runs found before |
| BetaSequences.AddInsertionZonesForSequence | client/beta-game.js:764-782 | adds exactly the whole-cell, free midpoints of consecutive run cards |
| BetaSequences.RunHasNoInsertionZones | client/beta-game.js:764-782 | midpoints of a traced run are never whole cells, so nothing is added for it |
| ImageManager.ToLower | client/image-manager.js:95 | lowers every ASCII capital and keeps every other character |
| ImageManager.ReplaceOthers | client/image-manager.js:96 | keeps letters and digits, turns every other character into `_`, same length |
| ImageManager.Collapse | client/image-manager.js:97 | leaves no `__`, keeps the first character, keeps only safe characters when given only safe ones, and keeps all letters and digits |
| ImageManager.Trim | client/image-manager.js:98 | leaves no leading or trailing `_`, keeps letters and digits |
| ImageManager.SanitizeFilename | client/image-manager.js:93-99 | the result holds only `[a-z0-9_]`, has no `__` and no `_` at either end, and keeps every letter and digit of the lowered name in order |
| ImageManager.CleanIsFixed | client/image-manager.js:93-99 | an already clean name is returned unchanged |
| ImageManager.SanitizeIdempotent | client/image-manager.js:93-99 | sanitising twice equals sanitising once |
| ImageManager.EmptyExactlyWithoutAlnums | client/image-manager.js:93-99 | the result is empty exactly when the lowered name has no letter or digit |
| ImageManager.CleanNonEmptyHasAlnum | client/image-manager.js:93-99 | a non-empty clean name contains a letter or digit |
| ImageManager.Dimensions | client/image-manager.js:57-64 | one of the four dimension strings; an unknown size falls back to `64x64` |
| ImageManager.ImagePath | client/image-manager.js:65 | the path is the image directory followed by `<name>_<dims>.<ext>` |
| ImageManager.GetImagePath | client/image-manager.js:53-66 | the path lies directly in the card image directory whatever the card's name (its file name holds no `/`) and ends with the extension of the supported format; with `ImagePathRoundTrip`, it parses back into the sanitised name, the size's dimensions (thumbnail for an unknown size) and the format |
| ImageManager.ExtensionRoundTrip | client/image-manager.js:55-65 | the format is read back from the extension: `webp` exactly when supported |
| ImageManager.DimensionsRoundTrip | client/image-manager.js:57-65 | the name and the dimensions are read back from `<name>_<dims>` |
| ImageManager.ImagePathRoundTrip | client/image-manager.js:53-66 | every image path parses back into the sanitised name, the dimensions and whether WebP was used |
| ImageManager.GetCardPlaceholder | client/image-manager.js:102-146 | the sanitised name's emoji wins, then the category's, then `📦` |
| ImageManager.UnreachableEmojiKeys | client/image-manager.js:103-143 | no sanitised name equals one of the four keys with non-ASCII letters |
| DebugUtils.EffectiveRank | client/debug-utils.js:85-88 | known non-zero ranks are kept; debug and unknown levels count as 1 |
| DebugUtils.ShouldLog | client/debug-utils.js:84-89 | errors always pass; under a level below warn everything passes; a level passes exactly when its rank reaches the configured one |
| DebugUtils.DebugLikeInfo | client/debug-utils.js:84-89 | debug, info and any unknown level are filtered alike |
| DebugUtils.ShouldLogMonotone | client/debug-utils.js:84-89 | a level that passes makes every higher level pass |
| DebugUtils.GetConsoleMethod | client/debug-utils.js:91-99 | the four known levels map to themselves, anything else to `log` |
| DebugUtils.ValidationLevel | client/debug-utils.js:114-117 | a valid result logs at info, an invalid one at warn |
| DebugUtils.ValidationVisibility | client/debug-utils.js:114-117 | a failed validation is shown whenever a passing one is, and under info both are |
| DebugUtils.KeepRecentErrors | client/debug-utils.js:354-360 | at most 50 entries, the most recent ones in order, ending with the new entry |
| DebugUtils.Buffered | client/debug-utils.js:55-59 | the new entry is last and the buffer stays within 1000; below capacity it only grows, and a full buffer loses exactly its oldest entry |
| DebugUtils.DebugLog.constructor | client/debug-utils.js:7-20 | the buffer is empty, or holds the one debug-mode notice in debug mode |
| DebugUtils.DebugLog.Log | client/debug-utils.js:43-82 | the buffer is the buffered push of the entry: appended, a full buffer drops exactly its oldest entry and stays at 1000; errors are stored with trimming; the console method is used exactly when the filter passes |
| DebugUtils.DebugLog.LogValidation | client/debug-utils.js:114-117 | the buffer becomes the old one with `Validation: <message>` appended in the validation category at the level `ValidationLevel` picks; stored errors are unchanged; the console method of that level is used exactly when the filter passes |

## Left out

- Transport: Socket.IO, express and fastify wiring, static files, and every `emit` and broadcast. Handlers return an outcome value instead.
- `Math.random` in `shuffleArray`: the swap index is an arbitrary value in `[0, i]`.
- String position keys and their `split(',').map(Number)` parsing: positions are integer pairs.
- Requests the client never sends are excluded by a precondition of `ExpressServer.PlayerMove`: a half coordinate outside insertion mode, and half coordinates on both axes.
- An insertion key that contains a dot but has whole values (such as `"1.0,0"`) leaves the target coordinates undefined in the source. The model treats it as an ordinary position.
- JavaScript `-0` in a stringified position key.
- The German reason strings: reasons are an enumeration carrying the compared values.
- Player display names (`Spieler n`) and the `loserName` field.
- Client DOM and UI work:
  - pixel positions (floating point), drag and drop, modals, notifications and animation timers;
  - asynchronous image loading, the image cache, IntersectionObserver, canvas micro images and the WebP probe. WebP support is a parameter.
- Debug logger side effects:
  - console output, the debug panel, timestamps, stack traces, attached data, performance timers and global error hooks;
  - browser storage, modelled as a field holding the stored error list, and the `try`/`catch` around it.
- `ImageManager.ToLower`: lowers ASCII letters only. JavaScript's Unicode case mapping, which turns a few non-ASCII characters into ASCII letters (U+212A KELVIN SIGN into `k`, U+0130 into `i` and a combining dot), is not modelled: for such input the model writes `_` where the source keeps a letter. Non-ASCII input is out of scope.
- Lookups of inherited object properties such as `constructor` in the size, emoji and level maps: the maps are treated as plain dictionaries.
- Card widths, heights and metric values are integers, not floating-point numbers.
- A missing numeric card field is treated as JSON `null`. An `undefined` category is `None`.
- `getImagePath`'s default size argument: the size is always passed.
- `BetaSequences.TraceSequence`: traced cards are returned as their cells, not as card objects. The card is the board's entry at that cell.
- `client/client.js`, `client/simple-bug-tests.js`, `test-debug.js` and `ecosystem.config.js`: UI glue, test scripts and process configuration are not part of this model.
