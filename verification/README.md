# Uno game server core in Dafny

This project models the server-side engine of a multiplayer Uno game and
proves properties of it. The engine has four parts.

- **The card custody store** (`db/cards`). This is the `cards` table: one row
  per physical card, holding its game, its catalog definition, its owner and
  its location. Owner 0 is the pool. A pool card at a positive location is in
  the draw pile, which is ordered by location. A pool card at location -1 is
  on the discard pile. Any other owner is a player holding the card.
  - `Store` holds the store. The queries (GET_HAND, GET_TOP_Card,
    GET_HAND_COUNT, GET_DECK_COUNT) are functions over the rows.
  - The updates (CREATE_DECK, DRAW_CARDS, DEAL_CARDS, PLAY_CARD and the
    recycle statement) are methods of the `Arena` class. Each method
    reassigns the class's `rows` field to a function of the old rows.
  - `Cards` models the deck that CREATE_DECK builds from the card catalog.
- **The turn resolver** (`getCurrentTurn`, module `Turn`). It replays the
  whole move log over the seats sorted by position, keeping a seat index and
  a direction of +1 or -1.
  - `ReplayFrom` is the replay as a fold.
  - `GetCurrentTurn` is the loop of the source, proved equal to the fold.
- **The play validator** (`validatePlay`, module `MoveService`). It decides
  on a snapshot of the game, the card rows and the log.
- **The service operations.**
  - `StartGame` and `endGame` are in module `GameService`.
  - `playACard`, `drawCards` and `endTurn` are in module `MoveService`.
  - `shuffle` is in module `Shuffling`.
  - Each operation is specified by a function from the state before the
    call to the state after it and the reply. Examples are `StartSpec`,
    `PlaySpec`, `DrawSpec` and `EndTurnSpec`.
  - The imperative method for each operation is proved to produce exactly
    that state and reply.
  - Lemmas then state what the operation promises: cards conserved, the seat
    index in range, the direction ±1, a skip passing the turn two seats, and
    so on.

An `Err` reply stands for the exception the source throws. There are no
transactions, so anything changed before an exception stays changed. The
model keeps that: for example, a penalty that finds the pile short after a
recycle leaves the recycle done.

The model keeps several quirks of the source as they are written.

- **The starter card counts as a turn.** The starter card is logged as a
  `play` move carrying a card in the first player's name, and such a move
  advances the turn. `StartGame` replies with the first player of the shuffled
  order, but the resolved turn right after a start is the second player's
  (`GameService.StartTurn`).
- **A two-seat reverse is a skip.** With two seats a reverse is logged as a
  skip followed by an extra card-less skip, so the turn comes back to the
  player who played it.
- **The starter loop inspects one card.** Each attempt of StartGame's starter
  loop draws one card "to owner 0", which changes nothing. It then inspects
  the first pool card, which is the same card every time
  (`Store.DrawToPoolIsNoOp`, `GameService.TurnStarter`).
- **The recycle statement is modelled directly.**
  - The move service calls `recycleDiscardPile`, but `db/cards/index.ts`
    does not export it. The model runs the SQL statement instead.
  - The statement's scalar subquery aggregates to one row, so `ROW_NUMBER()`
    is always 1. Every recycled card therefore gets the same location: one
    past the highest draw-pile location.
  - When no move carries a card, `id <> NULL` holds for no row and nothing is
    recycled.
- **Two branches cannot be reached.** The "Card not found" and "Failed to
  play card" branches of `playACard` cannot fire after `validatePlay`
  accepted the play. `MoveService.PlayAndLog` proves that the card is found
  and that PLAY_CARD updates its row.

Card ids are positions in the arena plus one, so ids are serial and never 0.
The deck catalog (`deck_cards`) is a parameter. `Cards.Catalog` is the
standard one: four colours with 0–9, skip, reverse and draw_two, plus wild
and wild_draw_four.

## Model

| member | source | states |
|---|---|---|
| Cards.Repeat | Application/src/backend/db/cards/sql.ts:17 | joining a row with `generate_series(1, n)` yields n rows, each that row |
| Cards.ClausesExclusive | Application/src/backend/db/cards/sql.ts:8-44 | the five WHERE clauses of `full_deck` are mutually exclusive: no definition is selected by two of them |
| Cards.ClauseRows | Application/src/backend/db/cards/sql.ts:15-19 | one SELECT of `full_deck` yields only catalog definitions its WHERE clause accepts |
| Cards.Copies | Application/src/backend/db/cards/sql.ts:8-44 | a definition's copy count is the `generate_series` length of the clause that selects it, and 0 exactly when no clause does |
| Cards.FullDeck | Application/src/backend/db/cards/sql.ts:5-45 | `full_deck` holds only catalog definitions with a non-zero copy count |
| Cards.ClauseMultiplicity | Application/src/backend/db/cards/sql.ts:15-19 | one SELECT of `full_deck` holds each definition its WHERE accepts k times per catalog occurrence (k from its `generate_series`), and no other definition |
| Cards.FullDeckMultiplicity | Application/src/backend/db/cards/sql.ts:5-48 | over any catalog, the deck holds each catalog definition as many times as it occurs in the catalog times its copy count: 1 for a non-wild 0, 2 for a non-wild 1–9, skip, reverse or draw_two, 4 for wild and wild_draw_four, 0 otherwise |
| Cards.StandardDeckCounts | Application/src/backend/db/cards/sql.ts:5-48 | over the standard catalog: one 0 per non-wild colour, two of each 1–9/skip/reverse/draw_two per non-wild colour, four wild, four wild_draw_four, nothing else |
| Cards.StandardDeckSize | Application/src/backend/db/cards/sql.ts:5-48 | the standard deck has 108 cards |
| Cards.WildName | Application/src/backend/services/moveService.ts:40 | a card's colour text is "wild" exactly when its colour is wild |
| Moves.LatestCardMove | Application/src/backend/db/cards/sql.ts:103-109 | the latest move with a card id: none exactly when no move carries a card; otherwise it carries a card and no later move does |
| Moves.LatestCardMoveAppend | Application/src/backend/db/cards/sql.ts:103-109 | appending a move with a card makes it the latest card move; appending a card-less move changes nothing |
| Store.IdsUpTo | Application/src/backend/db/cards/sql.ts:57-60 | the ids among the first n rows that pass a WHERE clause: exactly those, ascending |
| Store.Ids | Application/src/backend/db/cards/sql.ts:133-136 | `SELECT … WHERE`: an id is listed exactly when its row passes the filter; no id twice |
| Store.Count | Application/src/backend/db/cards/sql.ts:133-136 | `COUNT(*)` over a filter never exceeds the number of rows |
| Store.CountIsCard | Application/src/backend/db/cards/sql.ts:133-136 | `COUNT(*)` over a filter is the number of distinct ids that pass it |
| Store.LowestIndex | Application/src/backend/db/cards/sql.ts:61 | the index of a row that sorts before every other listed row by (location, id) |
| Store.OrderByLocation | Application/src/backend/db/cards/sql.ts:61-62 | `ORDER BY location LIMIT n`: min(n, size) of the listed ids, in order, every one before every id left out; all of them when n covers the list |
| Store.HandIds | Application/src/backend/db/cards/sql.ts:83-89 | GET_HAND's ids are exactly the cards of the game the owner holds, in location order, as many as the owner's count |
| Store.Hand | Application/src/backend/db/cards/sql.ts:83-89 | GET_HAND: as many cards as the owner holds in the game; each listed card is one the owner holds, reported with its own colour and value; every card the owner holds is listed |
| Store.Find | Application/src/backend/services/moveService.ts:28 | `find` returns a card exactly when some card has the id, and that card has the id |
| Store.FindInCards | Application/src/backend/services/moveService.ts:28 | a card is found in a list built from ids exactly when its id is listed, and it is that row's card |
| Store.FindInHand | Application/src/backend/services/moveService.ts:25-32 | a card is found in a player's hand exactly when the player owns it in that game |
| Store.DeckCount | Application/src/backend/db/cards/index.ts:25-27 | the deck count never exceeds the number of the game's cards |
| Store.HolderIff | Application/src/backend/db/cards/sql.ts:124-129 | an owner is grouped exactly when it is not the pool and holds a card of the game |
| Store.HandCounts | Application/src/backend/db/cards/sql.ts:124-129 | GET_HAND_COUNT has an entry exactly for each non-pool owner holding cards of the game, and each entry is that owner's hand size |
| Store.TopCard | Application/src/backend/db/cards/sql.ts:102-117 | a top card exists exactly when the latest move carrying a card names a card of the game (so never when no move carries a card); it is that card, with its own value and with the move's chosen colour, or its own colour when none was chosen |
| Store.TopCardAfterMove | Application/src/backend/db/cards/sql.ts:102-117 | a card-less move keeps the top card; a card of the game played with a chosen colour becomes the top card in that colour, and one played without becomes the top card in its own colour; a card of another game leaves no top card |
| Store.MaxPileLocationUpTo | Application/src/backend/db/cards/sql.ts:157-159 | `COALESCE(MAX(location), 0)` over the draw pile: at least every draw-pile location, 0 when the pile is empty, and otherwise the location of some draw-pile card, so exactly the highest one |
| Store.DrawSelection | Application/src/backend/db/cards/sql.ts:57-63 | DRAW_CARDS's subquery picks min(count, deck count) distinct draw-pile cards, none located above a draw-pile card left behind |
| Store.SetOwner | Application/src/backend/db/cards/sql.ts:55-56 | an owner update keeps every card, its game, definition and location |
| Store.AfterPlay | Application/src/backend/db/cards/sql.ts:92-97 | PLAY_CARD changes nothing unless the card is in the game and held by the player; then that card alone goes to owner 0 at location -1; cards are kept and placement holds |
| Store.Recycled | Application/src/backend/db/cards/sql.ts:139-163 | the recycle keeps every card and every owner, and keeps every location positive or -1 |
| Store.SameMatchesSameCount | Application/src/backend/db/cards/sql.ts:133-136 | two states that agree row by row on a filter give the same count |
| Store.SameCardsSameGameCount | Application/src/backend/db/cards/sql.ts:46-48 | only CREATE_DECK inserts: after any update the game has the same number of cards |
| Store.Partition | Application/src/backend/db/cards/sql.ts:124-137 | every card of a game is in exactly one place: the draw pile, the discard pile or a hand |
| Store.Span | Application/src/backend/db/cards/sql.ts:46-47 | the ids a deck insert creates: exactly the n ids after the last existing one |
| Store.NewDeck | Application/src/backend/db/cards/sql.ts:46-48 | CREATE_DECK on a game without cards: the game has exactly the deck's cards, all in the draw pile, none held or discarded, with the deck's definitions in order |
| Store.NewDeckSets | Application/src/backend/db/cards/sql.ts:46-48 | after CREATE_DECK the game's ids and its draw-pile ids are the new ids; no card is held or discarded |
| Store.NewDeckRow | Application/src/backend/db/cards/sql.ts:46-48 | one id after CREATE_DECK: in the game and in the draw pile exactly when it is new; never held or discarded |
| Store.DeckRowsPlaced | Application/src/backend/db/cards/sql.ts:47 | the new rows' locations, a permutation of 1..N, keep every location positive or -1 |
| Store.NewStandardDeck | Application/src/backend/db/cards/sql.ts:5-48 | a new game's standard deck puts 108 cards in its draw pile |
| Store.DealEffect | Application/src/backend/db/cards/sql.ts:68-71 | DEAL_CARDS: the owner holds what it held plus exactly the listed cards of the game, whoever held them; every other card keeps its row |
| Store.DrawToPoolIsNoOp | Application/src/backend/db/cards/sql.ts:54-65 | drawing to owner 0 changes no row |
| Store.DrawKeepsOtherHand | Application/src/backend/db/cards/sql.ts:54-65 | drawing for one player leaves every other player's hand count unchanged |
| Store.DrawKeepsDiscard | Application/src/backend/db/cards/sql.ts:54-65 | drawing for a player leaves the discard pile count unchanged |
| Store.DrawEffect | Application/src/backend/db/cards/sql.ts:54-65 | drawing for a player: the pile shrinks and the hand grows by the number drawn; each drawn card is held by the player at its old location |
| Store.PoolPlayEffect | Application/src/backend/db/cards/sql.ts:92-97 | owner 0 playing a draw-pile card: it goes to the discard pile, the pile loses one, the discard pile gains one |
| Store.PlayEffect | Application/src/backend/db/cards/sql.ts:92-97 | a player's PLAY_CARD: the card goes to the discard pile, nothing else changes, the hand loses one, the discard pile gains one |
| Store.PlayKeepsOtherHands | Application/src/backend/db/cards/sql.ts:92-97 | PLAY_CARD leaves every other player's hand count unchanged |
| Store.CountGrows | Application/src/backend/db/cards/sql.ts:133-136 | a filter that gains exactly a set of new ids grows its count by that set's size |
| Store.RecycledJoinPile | Application/src/backend/db/cards/sql.ts:139-163 | after a recycle the draw pile is the old pile plus the discard pile without the top card |
| Store.RecycleEffect | Application/src/backend/db/cards/sql.ts:139-163 | every discarded card but the top card goes above every draw-pile card; every other card, the top card and all held cards included, keeps its row |
| Store.RecycleCount | Application/src/backend/db/cards/sql.ts:139-163 | a recycle grows the deck count by the number of discarded cards other than the top card |
| Store.RecycleWithoutTop | Application/src/backend/db/cards/sql.ts:139-163 | with no move carrying a card, nothing is recycled and there is no top card |
| Store.Arena.CreateDeck | Application/src/backend/db/cards/index.ts:5-6 | createDeck appends the deck's rows (game, definition, owner 0, shuffled location) after the existing ones, keeping every location positive or -1 |
| Store.Arena.DrawCards | Application/src/backend/db/cards/index.ts:8-10 | drawCards returns the selected ids and hands exactly those cards to the player |
| Store.Arena.DealCards | Application/src/backend/db/cards/sql.ts:68-71 | DEAL_CARDS gives the listed cards of the game to the owner |
| Store.Arena.PlayCard | Application/src/backend/db/cards/index.ts:15-17 | playCard returns true exactly when PLAY_CARD's WHERE clause matches a row, and the rows become AfterPlay's |
| Store.Arena.RecycleDiscardPile | Application/src/backend/db/cards/sql.ts:139-163 | the recycle statement, keeping the store's invariant |
| Turn.Rem | Application/src/backend/services/gameService.ts:126-142 | JavaScript `%`: the mathematical remainder for a non-negative dividend, strictly inside (-n, n) |
| Turn.Counts | Application/src/backend/services/gameService.ts:114-118 | a move with a card always counts; a card-less play or reverse never does; a card-less draw counts exactly when it has no draw amount |
| Turn.Next | Application/src/backend/services/gameService.ts:125-129 | from a seat index, one seat forward for direction 1 and one seat back otherwise, wrapping around, and again a seat index |
| Turn.Step | Application/src/backend/services/gameService.ts:114-145 | a move that does not count changes nothing; a counting move flips the direction exactly when it is a reverse, keeps the position a seat index and the direction ±1, and with two or more seats moves the turn to another seat |
| Turn.ReplayFrom | Application/src/backend/services/gameService.ts:112-146 | the replay from a state in range stays in range, and without counting moves leaves the state as it was |
| Turn.Replay | Application/src/backend/services/gameService.ts:109-146 | from position 0, direction 1: the position stays a seat index and the direction ±1; without counting moves the state is the start state |
| Turn.ReplayFromSnoc | Application/src/backend/services/gameService.ts:112-146 | the replay is a left fold: one more move is one more step |
| Turn.ReplaySnoc | Application/src/backend/services/gameService.ts:112-146 | from the start state, the turn for `moves + [m]` is one step on the turn for `moves` |
| Turn.NonCountingKeeps | Application/src/backend/services/gameService.ts:114-118 | a move that does not count leaves position and direction as they were |
| Turn.CountingStep | Application/src/backend/services/gameService.ts:121-145 | a counting reverse flips the direction and moves one seat the new way; another counting move moves one seat the current way, or forward with two seats |
| Turn.DoubleReverse | Application/src/backend/services/gameService.ts:121-129 | two counting reverses in a row restore the direction |
| Turn.TwoSeatsNextAgree | Application/src/backend/services/gameService.ts:125-129 | with two seats, a step either way reaches the other seat |
| Turn.TwoSeatReverseIsAdvance | Application/src/backend/services/gameService.ts:121-134 | with two seats a counting reverse moves the turn as any other counting move |
| Turn.CountingMoves | Application/src/backend/services/gameService.ts:114-118 | the number of moves that count is at most the number of moves |
| Turn.ReplayWithoutReverse | Application/src/backend/services/gameService.ts:130-145 | without a counting reverse, the position is the number of counting moves modulo the seats and the direction stays 1 |
| Turn.TwoSeatParity | Application/src/backend/services/gameService.ts:121-134 | with two seats the position is the parity of the counting moves, reverses included |
| Turn.Insert | Application/src/backend/services/gameService.ts:103 | inserting into seats sorted by position keeps them sorted and adds exactly that seat |
| Turn.SortByPosition | Application/src/backend/services/gameService.ts:103 | the seats sorted by position are sorted and a permutation of the seats |
| Turn.ResolveTurn | Application/src/backend/services/gameService.ts:94-155 | getCurrentTurn fails exactly when there are no seats; otherwise the direction is ±1 and the current player holds a seat |
| Turn.ResolveTurnSeat | Application/src/backend/services/gameService.ts:148-153 | the current player is the seat at the replay's position among the seats sorted by position, and the direction is the replay's |
| Turn.GetCurrentTurn | Application/src/backend/services/gameService.ts:88-155 | the loop over the moves returns what the fold resolves |
| Shuffling.Pick | Application/src/backend/services/gameService.ts:15 | `Math.floor(Math.random() * (i + 1))` is an index in 0..i |
| Shuffling.ProductBelow | Application/src/backend/services/gameService.ts:15 | a draw in [0, 1) times m lies in [0, m) |
| Shuffling.Swap | Application/src/backend/services/gameService.ts:16 | the destructuring swap exchanges the elements at i and j and keeps every other element |
| Shuffling.ShuffleFrom | Application/src/backend/services/gameService.ts:14-17 | the iterations from index i down to 1 keep the length (ShuffleFromPermutes gives the permutation) |
| Shuffling.SwapPermutes | Application/src/backend/services/gameService.ts:16 | the destructuring swap permutes the elements |
| Shuffling.ShuffleFromPermutes | Application/src/backend/services/gameService.ts:14-17 | the remaining iterations of the loop permute the elements |
| Shuffling.ShuffleFromStep | Application/src/backend/services/gameService.ts:14-17 | one iteration swaps index i with the picked index, then continues from i - 1 |
| Shuffling.FisherYates | Application/src/backend/services/gameService.ts:12-20 | the shuffle returns a permutation of its input of the same length |
| Shuffling.TwoElementsWithZeroDraws | Application/src/backend/services/gameService.ts:14-17 | an example, not a general property: with every draw 0, two players come out reversed |
| Shuffling.CopyOf | Application/src/backend/services/gameService.ts:13 | `[...array]` is a new array with the same elements |
| Shuffling.ShuffleInPlace | Application/src/backend/services/gameService.ts:14-17 | the in-place loop leaves the array as the fold of its iterations |
| Shuffling.Shuffle | Application/src/backend/services/gameService.ts:12-20 | shuffle returns the Fisher–Yates permutation of its input, a permutation of it; the input is a value and is not changed |
| Games.DrawMove | Application/src/backend/services/moveService.ts:223 | the card-less, amount-less draw move counts as a turn advance |
| Games.SkipMove | Application/src/backend/services/moveService.ts:113 | the card-less extra skip counts as a turn advance |
| Games.WithPosition | Application/src/backend/services/gameService.ts:44 | setPlayerPosition gives the user's seats the position and keeps every other seat and every user |
| Games.Game.CreateMove | Application/src/backend/services/gameService.ts:78 | createMove appends exactly one move to the log and changes nothing else |
| Games.Game.SetPlayerPosition | Application/src/backend/services/gameService.ts:44 | setPlayerPosition changes only the seats |
| Games.Game.Start | Application/src/backend/services/gameService.ts:83 | startGame changes only the state, to in progress |
| Games.Game.Update | Application/src/backend/services/gameService.ts:170 | updateGame sets the state and winner and nothing else |
| MoveService.ValidatePlay | Application/src/backend/services/moveService.ts:10-58 | a reason is given exactly when the play is invalid; a valid play is by the current player of a game in progress, with a card the player holds; it fails only when the game has no seats |
| MoveService.CardVerdict | Application/src/backend/services/moveService.ts:28-56 | the card checks give a reason exactly when they reject, and accept only a card that was found |
| MoveService.CardVerdictIffLegal | Application/src/backend/services/moveService.ts:28-56 | the card checks accept exactly a held card that matches no top card, or is wild with a colour chosen, or shares the top card's colour or value |
| MoveService.ValidIffLegal | Application/src/backend/services/moveService.ts:10-58 | validatePlay accepts exactly the legal plays: in progress, the player's turn, a held card, and the card rule |
| MoveService.ValidatePlayOrder | Application/src/backend/services/moveService.ts:13-46 | the first failing check is reported: not in progress, then not your turn, then not in hand, then a wild card without a colour |
| MoveService.NoTopCardAnyCard | Application/src/backend/services/moveService.ts:34-38 | without a top card any card the current player holds is valid |
| MoveService.MustFollowTop | Application/src/backend/services/moveService.ts:36-56 | once a card of the game has been played, an accepted play follows it: a wild card comes with a chosen colour, any other card shares the played card's value or its reported colour (the colour chosen with it, if any) |
| MoveService.Falsy | Application/src/backend/services/moveService.ts:41 | `!chosenColor`: an absent or empty colour is falsy, any non-empty colour is not |
| MoveService.PlayTypeFor | Application/src/backend/services/moveService.ts:91-100 | the primary move is a reverse exactly for a reverse with other than two seats, a skip exactly for a skip or a two-seat reverse, and a play otherwise |
| MoveService.ExtraSkip | Application/src/backend/services/moveService.ts:112-114 | the extra skip is logged exactly when the primary move is a skip |
| MoveService.DrawAmountFor | Application/src/backend/services/moveService.ts:107 | the draw amount is 2 exactly for draw_two, 4 exactly for wild_draw_four, and none otherwise |
| MoveService.PrimaryMove | Application/src/backend/services/moveService.ts:102-110 | the primary move carries the card, is the player's, counts as a turn, and has the reverse flag exactly when its type is reverse |
| MoveService.PlayMoves | Application/src/backend/services/moveService.ts:102-114 | a play logs the primary move, plus one extra skip exactly for a skip or a two-seat reverse |
| MoveService.Finish | Application/src/backend/services/moveService.ts:148-154 | the game ends with the player as winner exactly when the player's hand is empty; otherwise nothing changes and the reply is plain success |
| MoveService.Restocked | Application/src/backend/services/moveService.ts:123-126 | a pile shorter than k is recycled once, which keeps every card and owner and keeps placement; a pile of at least k is left alone |
| MoveService.Take | Application/src/backend/services/moveService.ts:123-133 | the recycle-then-draw succeeds exactly when the pile holds k cards after at most one recycle, and then draws exactly k; otherwise it fails with the recycle done; no card is added or removed |
| MoveService.TakeCount | Application/src/backend/services/moveService.ts:123-133 | a successful draw moves exactly k new cards from the pile into the player's hand |
| MoveService.TakeKeepsTop | Application/src/backend/services/moveService.ts:123-133 | the recycle and the draw leave the top card on the discard pile |
| MoveService.Penalty | Application/src/backend/services/moveService.ts:116-143 | on success exactly one draw move is logged, for the player whose turn it is; on failure the game is unchanged and the reply is the short-deck error; no card is added or removed |
| MoveService.Played | Application/src/backend/services/moveService.ts:83-114 | the play's moves are appended and nothing else in the game changes; a card the player holds goes to the discard pile, every other row is unchanged, the hand loses one and the discard pile gains one; otherwise no row changes |
| MoveService.Accepted | Application/src/backend/services/moveService.ts:76-155 | after validation: no card is added or removed, the seats are kept, at least one move is appended to the log; it fails only with the short-deck error, leaving the state and winner alone; a success reply reports success |
| MoveService.PlaySpec | Application/src/backend/services/moveService.ts:64-155 | playACard: no card is added or removed and the seats are kept; a successful play is a legal one; an illegal play changes neither the cards nor the game |
| MoveService.PlaySpecAccepted | Application/src/backend/services/moveService.ts:71-74 | a play validatePlay accepts names an existing card in a seated game, and playACard proceeds with it as Accepted says |
| MoveService.RejectedPlayChangesNothing | Application/src/backend/services/moveService.ts:71-74 | a rejected play reports validatePlay's reason and changes neither the cards nor the game |
| MoveService.PlayLog | Application/src/backend/services/moveService.ts:102-143 | a successful play logs the primary move, the extra skip if any, and for draw_two or wild_draw_four one draw move for the player resolved after them |
| MoveService.TwoSeatsTwoPassesReturn | Application/src/backend/services/moveService.ts:96-114 | with two seats a skip, reverse or draw two gives the turn back to its player |
| MoveService.PlayMovesTurn | Application/src/backend/services/moveService.ts:96-114 | the play's moves move the turn as the card's rule says: a reverse with three or more seats turns play around, a skip or a two-seat reverse passes two seats, any other card passes one |
| MoveService.PlayTurnEffect | Application/src/backend/services/moveService.ts:91-143 | after a successful play the turn is where the card's rule puts it; a draw two or wild draw four also passes two seats |
| MoveService.LoggedTurn | Application/src/backend/services/moveService.ts:96-143 | the moves a successful play logs, the penalty draw included, move the turn as the card's rule says |
| MoveService.PlayedCardDiscarded | Application/src/backend/services/moveService.ts:83-143 | the played card ends on the discard pile, whether the penalty succeeds or not |
| MoveService.PenaltyDraw | Application/src/backend/services/moveService.ts:116-143 | the player the turn resolves to after a draw two or wild draw four gains exactly 2 or 4 cards (less the played card when that is the player who played it) |
| MoveService.PlayWinner | Application/src/backend/services/moveService.ts:148-154 | a successful play ends the game with the player as winner exactly when the player's hand is then empty |
| MoveService.PlayFailsOnlyShort | Application/src/backend/services/moveService.ts:116-131 | after validation a play fails only when a penalty finds the pile short after one recycle; the card is then already played and the moves logged |
| MoveService.Pending | Application/src/backend/services/moveService.ts:180-181 | the pending penalty is 0 without a last move or when it names another player; when it names the caller with a draw count, it is that count |
| MoveService.DrawCountFor | Application/src/backend/services/moveService.ts:180-183 | the number drawn is the pending penalty when positive, else `count` when given and non-zero (negative included), else 1; never 0, and negative exactly when a negative `count` is given without a positive penalty |
| MoveService.DrawSpec | Application/src/backend/services/moveService.ts:160-205 | drawCards never changes the game record and never adds, removes or re-identifies a card; past its checks, a negative draw count is refused with the database's LIMIT error, changing no row |
| MoveService.DrawGuards | Application/src/backend/services/moveService.ts:166-176 | drawCards refuses, changing nothing, unless the game is in progress and it is the caller's turn |
| MoveService.DrawDelivers | Application/src/backend/services/moveService.ts:183-204 | a successful drawCards hands the caller exactly DrawCountFor new cards, at least one, replies with their ids, and logs no move |
| MoveService.DrawFailures | Application/src/backend/services/moveService.ts:183-199 | past its checks drawCards fails only with a negative draw count, changing nothing, or when the pile is short after one recycle, which stays done |
| MoveService.DrawnCardIdsAsWritten | Application/src/backend/services/moveService.ts:201-202 | the reply as built has one entry per card drawn, every one undefined |
| MoveService.DrawnIdsLost | Application/src/backend/services/moveService.ts:201-204 | for every successful draw the reply as built is not the list of ids drawn |
| MoveService.EndTurnSpec | Application/src/backend/services/moveService.ts:207-226 | a refused endTurn changes nothing |
| MoveService.EndTurnAdvances | Application/src/backend/services/moveService.ts:207-226 | endTurn succeeds exactly for the current player of a game in progress; it logs one draw move, which passes the turn one seat |
| MoveService.TakeCards | Application/src/backend/services/moveService.ts:122-133 | the recycle-and-recheck on the deck count, then the draw, gives Take's rows and reply |
| MoveService.ApplyPenalty | Application/src/backend/services/moveService.ts:116-143 | the penalty code gives Penalty's rows, game and reply |
| MoveService.PlayACard | Application/src/backend/services/moveService.ts:64-155 | playACard gives PlaySpec's rows, game and reply |
| MoveService.PlayValidated | Application/src/backend/services/moveService.ts:76-155 | playACard after validation gives Accepted's rows, game and reply |
| MoveService.CheckWin | Application/src/backend/services/moveService.ts:148-154 | the win check gives Finish's game and reply |
| MoveService.PlayAndLog | Application/src/backend/services/moveService.ts:76-114 | the card is found and played, and the play's moves are logged, as Played says |
| MoveService.LogPlay | Application/src/backend/services/moveService.ts:88-114 | the createMove calls append exactly PlayMoves |
| MoveService.DrawCards | Application/src/backend/services/moveService.ts:160-205 | drawCards gives DrawSpec's rows and reply |
| MoveService.EndTurn | Application/src/backend/services/moveService.ts:207-226 | endTurn gives EndTurnSpec's game and reply |
| GameService.PlayerIds | Application/src/backend/services/gameService.ts:35 | `players.map(p => p.user_id)`: the user of each seat, in seat order |
| GameService.Dealt | Application/src/backend/services/gameService.ts:41-45 | the deal loop's rows as a fold: no card is added or removed, and no card changes game or definition |
| GameService.Positioned | Application/src/backend/services/gameService.ts:41-45 | the setPlayerPosition calls as a fold: the same number of seats, each keeping its user |
| GameService.DealtStep | Application/src/backend/services/gameService.ts:41-45 | one more iteration of the deal loop draws seven cards for the next player |
| GameService.PositionedStep | Application/src/backend/services/gameService.ts:41-45 | one more iteration of the deal loop gives the next player the next position |
| GameService.DealOne | Application/src/backend/services/gameService.ts:42-43 | one deal round: the pile loses seven, the player gains seven, other hands and the discard pile are unchanged |
| GameService.DealtCounts | Application/src/backend/services/gameService.ts:41-45 | dealing to distinct players gives each seven more cards, leaves other hands and the discard pile alone, and takes seven per player from the pile |
| GameService.DealtKeepsCards | Application/src/backend/services/gameService.ts:41-45 | the deal changes owners only |
| GameService.PositionedSeats | Application/src/backend/services/gameService.ts:41-45 | the player at index j of the order gets position j + 1; every other seat keeps its position |
| GameService.StarterOf | Application/src/backend/services/gameService.ts:53-56 | the first pool card, when there is one, is a pool card of the game |
| GameService.GoodStarterOf | Application/src/backend/services/gameService.ts:56-57 | the starter test accepts a card exactly when it is not wild and its value is a digit (or the value wild on a coloured card) |
| GameService.StarterIsTopOfDrawPile | Application/src/backend/services/gameService.ts:53-56 | with an empty discard pile the starter exists exactly when the pile has a card, and it is the lowest-located draw-pile card |
| GameService.NoDiscardPoolIsPile | Application/src/backend/services/gameService.ts:53 | with an empty discard pile every pool card is in the draw pile |
| GameService.StarterMove | Application/src/backend/services/gameService.ts:77-78 | the starter move is a play carrying the card, so it counts as a turn |
| GameService.StartSpec | Application/src/backend/services/gameService.ts:22-86 | a refused StartGame changes nothing; a start adds exactly the deck's rows after the existing ones, every card (old and new) keeping its game and definition, and puts the game in progress; the winner and the number of seats are kept, and at most one move is appended to the log |
| GameService.StartGuards | Application/src/backend/services/gameService.ts:25-33 | StartGame fails, changing nothing, exactly when the game is not in the lobby or has fewer than two players; on success the game is in progress, the winner is unchanged, and the reply is one of the players |
| GameService.ShuffledPlayers | Application/src/backend/services/gameService.ts:35-39 | the shuffled order holds each player exactly once |
| GameService.StartShape | Application/src/backend/services/gameService.ts:22-86 | past the guards: the reply is the first shuffled player, the seats are positioned in shuffled order, and the starter, if any, is played and logged for the first player |
| GameService.NewDeckNoHands | Application/src/backend/services/gameService.ts:37 | a new deck: every card in the draw pile, none held, none discarded |
| GameService.DealtFromNewDeck | Application/src/backend/services/gameService.ts:37-45 | dealing a new deck to n distinct players: each holds seven, nothing is discarded, the pile holds the rest |
| GameService.StartDeals | Application/src/backend/services/gameService.ts:37-75 | after a start every player holds seven cards, the discard pile holds the starter, the pile holds the rest, and the game keeps all its cards |
| GameService.StartStandardDeck | Application/src/backend/services/gameService.ts:37-75 | with the standard deck and n distinct players, 2 <= n <= 15, 107 - 7n cards remain in the draw pile |
| GameService.StartSeats | Application/src/backend/services/gameService.ts:39-45 | after a start the player the shuffle put at index j sits at position j + 1 |
| GameService.StartDealsStarter | Application/src/backend/services/gameService.ts:47-75 | on a new game with enough cards a starter card is always turned |
| GameService.StarterTurn | Application/src/backend/services/gameService.ts:109-145 | with two or more seats, one counting play from the start leaves the turn at sorted index 1, direction 1 |
| GameService.SeatOfSecondPosition | Application/src/backend/services/gameService.ts:103 | sorting the seated players by position puts the second shuffled player at index 1 |
| GameService.StartTurn | Application/src/backend/services/gameService.ts:77-85 | a start logs exactly one play move, by the first player, carrying the starter, and the resolved turn then belongs to the second shuffled player while the reply names the first |
| GameService.DealAndSeat | Application/src/backend/services/gameService.ts:41-45 | the deal loop leaves the rows and seats as the folds Dealt and Positioned say, and changes nothing else in the game |
| GameService.TurnStarter | Application/src/backend/services/gameService.ts:47-75 | the starter loop plays the first pool card as it was before the loop, whatever its kind, or nothing when the pool is empty |
| GameService.StartGame | Application/src/backend/services/gameService.ts:22-86 | StartGame gives StartSpec's rows, game and reply |
| GameService.EndSpec | Application/src/backend/services/gameService.ts:161-171 | endGame fails, changing nothing, exactly when the game has ended; otherwise the game ends with the given winner, seats and log unchanged |
| GameService.EndOnce | Application/src/backend/services/gameService.ts:161-171 | a second endGame is refused and changes nothing |
| GameService.EndGame | Application/src/backend/services/gameService.ts:161-171 | endGame gives EndSpec's game and reply |

## Left out

- The frontend, the HTTP routes, the socket setup, chat, the migrations and the build configuration are not part of this model. They are transport, rendering and schema, not game logic.
- The SQL of `db/games` and `db/moves` is not part of this model.
  - A game's players are a sequence of seats (user and position).
  - Its log is a sequence of moves; createMove appends and getGameMoves reads the whole sequence.
  - setPlayerPosition, startGame and updateGame are field updates of the `Game` class.
  - updateGame's `is_ready` argument is not modelled.
- `getTurnDirection` and `getMoveCount` are not used by the core and are not modelled.
- `getGameState` and all logging are left out. They are read-only display and console output.
- The TOP_CARDS query is not used by the core and is not modelled.
- Randomness is an input.
  - CREATE_DECK's `ORDER BY RANDOM()` is a `locations` sequence, a permutation of 1..N.
  - `Math.random()` in the shuffle is a `rand` sequence of reals in [0, 1).
  - Only what holds for every such input is proved.
- `ORDER BY location` leaves equal locations unordered. The model breaks ties by card id. Equal locations occur after a recycle.
- The recycle's `ORDER BY RANDOM()` is not modelled as an input. Its ROW_NUMBER() is always 1, so the order has no effect.
- The contents of `deck_cards` are not part of the source. The catalog is a parameter, and `Cards.Catalog` is the assumed standard one.
- Async ordering, transactions and concurrent requests are not modelled. Each service call is one sequential step. A failure after earlier updates keeps them, as in the source.
- drawCards reads `lastMove.draw_count` and `lastMove.owner_id`, but the move shape has no such fields. The model takes that pending penalty as an optional input (`LastMove`) and does not derive it from the log.
- A missing game (`Games.get` throwing) is not modelled. Each operation takes the game record it works on.
- Database integer widths are not modelled. Ids, locations and counts are unbounded integers.
- Store.Arena.DrawCards: returns the drawn ids in location order. `UPDATE … RETURNING id` guarantees no order of the returned rows, so the model fixes one order the database may give.
- Store.NewDeck: which new id gets which definition follows the deck's order. The INSERT … SELECT does not guarantee the order in which rows are inserted; only which definitions are inserted, and how often, is guaranteed.
- MoveService.DrawCountFor: `count` is an integer. A fractional `count`, which the parameter's type `number` admits, is not modelled.

## Findings

| source | as written | input that shows it | evidently intended | confidence | as-written member | corrected member |
|---|---|---|---|---|---|---|
| Application/src/backend/services/moveService.ts:201-202 | `GameCards.drawCards` already resolves to a list of numeric ids (db/cards/index.ts:8-10). drawCards then maps each to `card.id`, a property a number does not have. TypeScript's type checker would reject this; without the check, every entry is undefined. | any successful draw, e.g. one card with id 5: the reply's `cardIds` is `[undefined]` (`[null]` in JSON) | reply with the ids drawn | high; not executed | MoveService.DrawnIdsLost | MoveService.DrawDelivers |
