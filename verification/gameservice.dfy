/**
  The game service: starting a game (deck, seating order, deal, starter
  card) and ending it. getCurrentTurn is in the Turn module.

  The randomness StartGame uses is passed in: `locations` is the order
  CREATE_DECK's `ORDER BY RANDOM()` gives the new cards, and `rand` holds the
  values the seating shuffle draws from Math.random().
*/
module GameService {
  import opened Wrappers
  import opened Cards
  import opened Moves
  import opened Store
  import opened Turn
  import opened Shuffling
  import opened Games
  import MoveService

  const CardsPerPlayer: nat := 7
  const StarterAttempts: nat := 20

  const AlreadyStarted := "Game has already been started or ended"
  const NotEnoughPlayers := "Not enough players "
  const AlreadyEnded := "Game has already ended"

  /** `players.map(p => p.user_id)`. */
  function PlayerIds(seats: seq<Seat>): (ids: seq<int>)
    ensures |ids| == |seats|
    ensures forall k :: 0 <= k < |seats| ==> ids[k] == seats[k].userId
  {
    seq(|seats|, k requires 0 <= k < |seats| => seats[k].userId)
  }

  // ---------------------------------------------------------------------------
  // The deal and the seating

  /** The deal loop after the players of `order` have had their turn: each drew seven cards, first player first. */
  function Dealt(rows: seq<CardRow>, g: int, order: seq<int>): (r: seq<CardRow>)
    ensures SameCards(rows, r)
    decreases |order|
  {
    if order == [] then rows
    else
      var before := Dealt(rows, g, order[..|order| - 1]);
      SetOwner(before, DrawSelection(before, g, CardsPerPlayer), g, order[|order| - 1])
  }

  /** The deal loop's setPlayerPosition calls so far: the i-th player of `order` gets position i + 1. */
  function Positioned(seats: seq<Seat>, order: seq<int>): (r: seq<Seat>)
    ensures |r| == |seats|
    ensures forall k :: 0 <= k < |seats| ==> r[k].userId == seats[k].userId
    decreases |order|
  {
    if order == [] then seats
    else WithPosition(Positioned(seats, order[..|order| - 1]), order[|order| - 1], |order|)
  }

  /** One more player dealt: the fold over a longer prefix steps once. */
  lemma DealtStep(rows: seq<CardRow>, g: int, order: seq<int>, i: nat)
    requires i < |order|
    ensures var before := Dealt(rows, g, order[..i]);
            Dealt(rows, g, order[..i + 1]) == SetOwner(before, DrawSelection(before, g, CardsPerPlayer), g, order[i])
  {
    assert order[..i + 1][..i] == order[..i];
  }

  /** One more player seated: the fold over a longer prefix steps once. */
  lemma PositionedStep(seats: seq<Seat>, order: seq<int>, i: nat)
    requires i < |order|
    ensures Positioned(seats, order[..i + 1]) == WithPosition(Positioned(seats, order[..i]), order[i], i + 1)
  {
    assert order[..i + 1][..i] == order[..i];
  }

  /**
    One round of the deal: the player draws seven cards from a draw pile
    that has them; the draw pile loses seven, the player gains seven, and
    every other hand and the discard pile stay as they were.
  */
  lemma DealOne(rows: seq<CardRow>, g: int, player: int)
    requires player != Pool && DeckCount(rows, g) >= CardsPerPlayer
    ensures var r := SetOwner(rows, DrawSelection(rows, g, CardsPerPlayer), g, player);
            && DeckCount(r, g) == DeckCount(rows, g) - CardsPerPlayer
            && Count(r, DiscardOf(g)) == Count(rows, DiscardOf(g))
            && Count(r, OwnedBy(g, player)) == Count(rows, OwnedBy(g, player)) + CardsPerPlayer
            && forall q :: q != Pool && q != player ==> Count(r, OwnedBy(g, q)) == Count(rows, OwnedBy(g, q))
  {
    DrawEffect(rows, g, player, CardsPerPlayer);
    DrawKeepsDiscard(rows, g, player, CardsPerPlayer);
    forall q | q != Pool && q != player
      ensures Count(SetOwner(rows, DrawSelection(rows, g, CardsPerPlayer), g, player), OwnedBy(g, q)) == Count(rows, OwnedBy(g, q))
    {
      DrawKeepsOtherHand(rows, g, player, CardsPerPlayer, q);
    }
  }

  /**
    Dealing to distinct players, none of them the pool, while the draw pile
    holds seven cards for each: every one of them ends with seven cards more,
    any other player's hand and the discard pile are left alone, and the draw
    pile loses seven cards per player.
  */
  lemma {:induction false} DealtCounts(rows: seq<CardRow>, g: int, order: seq<int>)
    requires Distinct(order) && Pool !in order
    requires DeckCount(rows, g) >= CardsPerPlayer * |order|
    ensures var d := Dealt(rows, g, order);
            && DeckCount(d, g) == DeckCount(rows, g) - CardsPerPlayer * |order|
            && Count(d, DiscardOf(g)) == Count(rows, DiscardOf(g))
            && (forall j :: 0 <= j < |order| ==> Count(d, OwnedBy(g, order[j])) == Count(rows, OwnedBy(g, order[j])) + CardsPerPlayer)
            && (forall q :: q != Pool && q !in order ==> Count(d, OwnedBy(g, q)) == Count(rows, OwnedBy(g, q)))
    decreases |order|
  {
    if order != [] {
      var init := order[..|order| - 1];
      var last := order[|order| - 1];
      assert order == init + [last];
      assert CardsPerPlayer * |order| == CardsPerPlayer * |init| + CardsPerPlayer;
      assert Distinct(init) && last !in init;
      DealtCounts(rows, g, init);
      DealOne(Dealt(rows, g, init), g, last);
    }
  }

  /** Dealing changes owners only: the same cards at the same locations. */
  lemma {:induction false} DealtKeepsCards(rows: seq<CardRow>, g: int, order: seq<int>)
    requires Placed(rows)
    ensures SameCards(rows, Dealt(rows, g, order)) && Placed(Dealt(rows, g, order))
    decreases |order|
  {
    if order != [] {
      DealtKeepsCards(rows, g, order[..|order| - 1]);
    }
  }

  /**
    The seating: with distinct players in `order`, the seat of the player at
    index j of `order` gets position j + 1, and any other seat keeps its own.
  */
  lemma {:induction false} PositionedSeats(seats: seq<Seat>, order: seq<int>)
    requires Distinct(order)
    ensures var p := Positioned(seats, order);
            && |p| == |seats|
            && (forall k :: 0 <= k < |seats| ==> p[k].userId == seats[k].userId)
            && (forall k, j :: 0 <= k < |seats| && 0 <= j < |order| && order[j] == seats[k].userId ==> p[k].position == j + 1)
            && (forall k :: 0 <= k < |seats| && seats[k].userId !in order ==> p[k].position == seats[k].position)
    decreases |order|
  {
    if order != [] {
      var init := order[..|order| - 1];
      assert order == init + [order[|order| - 1]];
      PositionedSeats(seats, init);
    }
  }

  // ---------------------------------------------------------------------------
  // The starter card

  /** `getHand(gameId, 0)[0]`: the pool card of the game at the lowest location, if any. */
  function StarterOf(rows: seq<CardRow>, g: int): (s: Option<int>)
    ensures s.Some? ==> Has(rows, OwnedBy(g, Pool), s.value)
  {
    var hand := HandIds(rows, g, Pool);
    if |hand| > 0 then Some(hand[0]) else None
  }

  /** The loop's test: a starter is neither wild nor an action card. */
  predicate GoodStarter(c: GameCard)
  {
    c.color != "wild" && c.value !in {SkipCard, ReverseCard, DrawTwoCard, WildDrawFourCard}
  }

  /** A card of the rows passes the starter test exactly when it is neither a wild card nor an action card. */
  lemma GoodStarterOf(rows: seq<CardRow>, id: int)
    requires ValidId(rows, id)
    ensures GoodStarter(CardOf(rows, id))
            <==> At(rows, id).def.color != Wild && (At(rows, id).def.value.Digit? || At(rows, id).def.value == WildCard)
  {
    WildName(At(rows, id).def.color);
  }

  /**
    With an empty discard pile the starter is the top of the draw pile: a
    starter exists exactly when the draw pile has a card, and it lies below
    every other draw-pile card in `ORDER BY location`.
  */
  lemma StarterIsTopOfDrawPile(rows: seq<CardRow>, g: int)
    requires Placed(rows) && Count(rows, DiscardOf(g)) == 0
    ensures StarterOf(rows, g).Some? <==> DeckCount(rows, g) > 0
    ensures StarterOf(rows, g).Some? ==>
              var s := StarterOf(rows, g).value;
              && Has(rows, DrawPileOf(g), s)
              && forall y :: Has(rows, DrawPileOf(g), y) && y != s ==> Before(rows, s, y)
  {
    var hand := HandIds(rows, g, Pool);
    NoDiscardPoolIsPile(rows, g);
    if DeckCount(rows, g) > 0 {
      var y := Ids(rows, DrawPileOf(g))[0];
      assert y in hand;
    }
    if |hand| > 0 {
      assert |Ids(rows, DrawPileOf(g))| > 0 by {
        assert hand[0] in Ids(rows, DrawPileOf(g));
      }
      forall y | Has(rows, DrawPileOf(g), y) && y != hand[0] ensures Before(rows, hand[0], y) {
        var l :| 0 <= l < |hand| && hand[l] == y;
      }
    }
  }

  /** With an empty discard pile every pool card of the game is in the draw pile. */
  lemma NoDiscardPoolIsPile(rows: seq<CardRow>, g: int)
    requires Placed(rows) && Count(rows, DiscardOf(g)) == 0
    ensures forall id :: Has(rows, OwnedBy(g, Pool), id) <==> Has(rows, DrawPileOf(g), id)
  {
    forall id | Has(rows, OwnedBy(g, Pool), id) && !Has(rows, DrawPileOf(g), id)
      ensures id in Ids(rows, DiscardOf(g))
    {
    }
  }

  // ---------------------------------------------------------------------------
  // StartGame

  /** The move logged for the starter card, in the first player's name. */
  function StarterMove(firstPlayer: int, cardId: int): (m: Move)
    ensures Counts(m) && m.playType == Play && m.cardId == Some(cardId)
  {
    Move(firstPlayer, Play, Some(cardId), None, None, false)
  }

  /**
    StartGame as a function of the state before it: the deck is created, the
    players are shuffled and dealt seven cards each in the shuffled order and
    seated in it, the first pool card is played as the starter and logged for
    the first player, and the game is in progress; the reply is the first
    player.
  */
  function StartSpec(rows: seq<CardRow>, view: GameView, g: int, catalog: seq<CardDef>, locations: seq<int>, rand: seq<real>)
      : (e: MoveService.Effect<int>)
    requires IsLocationOrder(locations, |FullDeck(catalog)|) && Oracle(rand, |view.seats|)
    ensures e.result.Err? ==> e.rows == rows && e.game == view
    ensures e.result.Ok? ==> |e.rows| == |rows| + |FullDeck(catalog)| && e.game.state == InProgress
    ensures e.result.Ok? ==> SameCards(rows + DeckRows(g, FullDeck(catalog), locations), e.rows)
    ensures e.game.winner == view.winner && |e.game.seats| == |view.seats|
    ensures |view.moves| <= |e.game.moves| <= |view.moves| + 1 && e.game.moves[..|view.moves|] == view.moves
  {
    if view.state != Lobby then MoveService.Effect(rows, view, Err(AlreadyStarted))
    else if |view.seats| < 2 then MoveService.Effect(rows, view, Err(NotEnoughPlayers))
    else
      var order := FisherYates(PlayerIds(view.seats), rand);
      var dealt := Dealt(rows + DeckRows(g, FullDeck(catalog), locations), g, order);
      var seated := view.(state := InProgress, seats := Positioned(view.seats, order));
      match StarterOf(dealt, g)
      case None => MoveService.Effect(dealt, seated, Ok(order[0]))
      case Some(s) =>
        MoveService.Effect(AfterPlay(dealt, s, g, Pool), seated.(moves := view.moves + [StarterMove(order[0], s)]), Ok(order[0]))
  }

  /** StartGame refuses a game that is not in the lobby, then one with fewer than two players, changing nothing. */
  lemma StartGuards(rows: seq<CardRow>, view: GameView, g: int, catalog: seq<CardDef>, locations: seq<int>, rand: seq<real>)
    requires IsLocationOrder(locations, |FullDeck(catalog)|) && Oracle(rand, |view.seats|)
    ensures var e := StartSpec(rows, view, g, catalog, locations, rand);
            && (e.result.Err? <==> view.state != Lobby || |view.seats| < 2)
            && (view.state != Lobby ==> e == MoveService.Effect(rows, view, Err(AlreadyStarted)))
            && (view.state == Lobby && |view.seats| < 2 ==> e == MoveService.Effect(rows, view, Err(NotEnoughPlayers)))
            && (e.result.Ok? ==> e.game.state == InProgress && e.game.winner == view.winner && e.result.value in PlayerIds(view.seats))
  {
    if view.state == Lobby && |view.seats| >= 2 {
      var order := FisherYates(PlayerIds(view.seats), rand);
      assert order[0] in multiset(PlayerIds(view.seats));
    }
  }

  /** The shuffled order holds each player once, when the players are distinct. */
  lemma ShuffledPlayers(seats: seq<Seat>, rand: seq<real>)
    requires Oracle(rand, |seats|) && Distinct(PlayerIds(seats))
    ensures var order := FisherYates(PlayerIds(seats), rand);
            && Distinct(order)
            && forall x :: x in order <==> x in PlayerIds(seats)
  {
    var ids := PlayerIds(seats);
    var order := FisherYates(ids, rand);
    PermutationDistinct(ids, order);
    forall x ensures x in order <==> x in ids {
      assert x in order <==> x in multiset(order);
      assert x in ids <==> x in multiset(ids);
    }
  }

  /** StartSpec past its guards, piece by piece. */
  lemma StartShape(rows: seq<CardRow>, view: GameView, g: int, catalog: seq<CardDef>, locations: seq<int>, rand: seq<real>)
    requires IsLocationOrder(locations, |FullDeck(catalog)|) && Oracle(rand, |view.seats|)
    requires view.state == Lobby && |view.seats| >= 2
    ensures var order := FisherYates(PlayerIds(view.seats), rand);
            var dealt := Dealt(rows + DeckRows(g, FullDeck(catalog), locations), g, order);
            var e := StartSpec(rows, view, g, catalog, locations, rand);
            && e.result == Ok(order[0])
            && e.game.state == InProgress && e.game.winner == view.winner
            && e.game.seats == Positioned(view.seats, order)
            && (StarterOf(dealt, g).None? ==> e.rows == dealt && e.game.moves == view.moves)
            && (StarterOf(dealt, g).Some? ==>
                  && e.rows == AfterPlay(dealt, StarterOf(dealt, g).value, g, Pool)
                  && e.game.moves == view.moves + [StarterMove(order[0], StarterOf(dealt, g).value)])
  {
  }

  /**
    Dealing a new deck of more than 7n cards to n distinct players, none of
    them the pool: each holds seven cards, nothing is discarded, and the
    draw pile holds the rest.
  */
  lemma DealtFromNewDeck(rows: seq<CardRow>, g: int, deck: seq<CardDef>, locations: seq<int>, order: seq<int>)
    requires Placed(rows) && forall i :: 0 <= i < |rows| ==> rows[i].game != g
    requires IsLocationOrder(locations, |deck|)
    requires Distinct(order) && Pool !in order && CardsPerPlayer * |order| < |deck|
    ensures var d := Dealt(rows + DeckRows(g, deck, locations), g, order);
            && Placed(d)
            && Count(d, DiscardOf(g)) == 0
            && Count(d, GameOf(g)) == |deck|
            && DeckCount(d, g) == |deck| - CardsPerPlayer * |order|
            && forall j :: 0 <= j < |order| ==> Count(d, OwnedBy(g, order[j])) == CardsPerPlayer
  {
    var created := rows + DeckRows(g, deck, locations);
    NewDeckNoHands(rows, g, deck, locations);
    DealtCounts(created, g, order);
    DealtKeepsCards(created, g, order);
    SameCardsSameGameCount(created, Dealt(created, g, order), g);
  }

  /** A new deck: placed, nothing held, nothing discarded, every card in the draw pile. */
  lemma NewDeckNoHands(rows: seq<CardRow>, g: int, deck: seq<CardDef>, locations: seq<int>)
    requires Placed(rows) && forall i :: 0 <= i < |rows| ==> rows[i].game != g
    requires IsLocationOrder(locations, |deck|)
    ensures var created := rows + DeckRows(g, deck, locations);
            && Placed(created)
            && Count(created, DiscardOf(g)) == 0
            && Count(created, GameOf(g)) == |deck|
            && DeckCount(created, g) == |deck|
            && forall q :: q != Pool ==> Count(created, OwnedBy(g, q)) == 0
  {
    var created := rows + DeckRows(g, deck, locations);
    NewDeck(rows, g, deck, locations);
    DeckRowsPlaced(rows, g, deck, locations);
    forall q | q != Pool ensures Count(created, OwnedBy(g, q)) == 0 {
      CountMonotone(created, OwnedBy(g, q), HeldIn(g), |created|);
    }
  }

  /**
    A new game with n distinct players (none of them the pool) and a deck
    of more than 7n cards: every player holds seven cards, one card is on the
    discard pile, and the draw pile holds the rest.
  */
  lemma StartDeals(rows: seq<CardRow>, view: GameView, g: int, catalog: seq<CardDef>, locations: seq<int>, rand: seq<real>)
    requires IsLocationOrder(locations, |FullDeck(catalog)|) && Oracle(rand, |view.seats|)
    requires Placed(rows) && forall i :: 0 <= i < |rows| ==> rows[i].game != g
    requires view.state == Lobby && |view.seats| >= 2
    requires Distinct(PlayerIds(view.seats)) && Pool !in PlayerIds(view.seats)
    requires CardsPerPlayer * |view.seats| < |FullDeck(catalog)|
    ensures var e := StartSpec(rows, view, g, catalog, locations, rand);
            && (forall k :: 0 <= k < |view.seats| ==> Count(e.rows, OwnedBy(g, view.seats[k].userId)) == CardsPerPlayer)
            && Count(e.rows, DiscardOf(g)) == 1
            && DeckCount(e.rows, g) == |FullDeck(catalog)| - CardsPerPlayer * |view.seats| - 1
            && Count(e.rows, GameOf(g)) == |FullDeck(catalog)|
  {
    var order := FisherYates(PlayerIds(view.seats), rand);
    var dealt := Dealt(rows + DeckRows(g, FullDeck(catalog), locations), g, order);
    ShuffledPlayers(view.seats, rand);
    DealtFromNewDeck(rows, g, FullDeck(catalog), locations, order);
    StarterIsTopOfDrawPile(dealt, g);
    StartShape(rows, view, g, catalog, locations, rand);
    var s := StarterOf(dealt, g).value;
    var after := AfterPlay(dealt, s, g, Pool);
    PoolPlayEffect(dealt, s, g);
    SameCardsSameGameCount(dealt, after, g);
    forall k | 0 <= k < |view.seats| ensures Count(after, OwnedBy(g, view.seats[k].userId)) == CardsPerPlayer {
      var u := view.seats[k].userId;
      assert PlayerIds(view.seats)[k] == u;
      assert u in PlayerIds(view.seats);
      assert u in order;
      var j :| 0 <= j < |order| && order[j] == u;
      PlayKeepsOtherHands(dealt, s, g, Pool, u);
    }
  }

  /** The standard deck of 108 cards leaves 101 - 7n in the draw pile once n players are dealt and the starter is turned. */
  lemma StartStandardDeck(rows: seq<CardRow>, view: GameView, g: int, locations: seq<int>, rand: seq<real>)
    requires IsLocationOrder(locations, |FullDeck(Catalog())|) && Oracle(rand, |view.seats|)
    requires Placed(rows) && forall i :: 0 <= i < |rows| ==> rows[i].game != g
    requires view.state == Lobby && 2 <= |view.seats| <= 15
    requires Distinct(PlayerIds(view.seats)) && Pool !in PlayerIds(view.seats)
    ensures DeckCount(StartSpec(rows, view, g, Catalog(), locations, rand).rows, g) == 107 - CardsPerPlayer * |view.seats|
  {
    StandardDeckSize();
    StartDeals(rows, view, g, Catalog(), locations, rand);
  }

  /**
    The seating after a start: with distinct players, the seat of the player
    the shuffle put at index j has position j + 1.
  */
  lemma StartSeats(rows: seq<CardRow>, view: GameView, g: int, catalog: seq<CardDef>, locations: seq<int>, rand: seq<real>)
    requires IsLocationOrder(locations, |FullDeck(catalog)|) && Oracle(rand, |view.seats|)
    requires view.state == Lobby && |view.seats| >= 2 && Distinct(PlayerIds(view.seats))
    ensures var e := StartSpec(rows, view, g, catalog, locations, rand);
            var order := FisherYates(PlayerIds(view.seats), rand);
            && e.result == Ok(order[0])
            && |e.game.seats| == |view.seats|
            && forall k, j :: 0 <= k < |view.seats| && 0 <= j < |order| && order[j] == view.seats[k].userId
                 ==> e.game.seats[k] == Seat(view.seats[k].userId, j + 1)
  {
    ShuffledPlayers(view.seats, rand);
    PositionedSeats(view.seats, FisherYates(PlayerIds(view.seats), rand));
  }

  /**
    The starter card is played in the first player's name and counts as a
    turn: on an empty log the turn after a start is the second player's, not
    the first player's whom StartGame reports.
  */
  lemma StartTurn(rows: seq<CardRow>, view: GameView, g: int, catalog: seq<CardDef>, locations: seq<int>, rand: seq<real>)
    requires IsLocationOrder(locations, |FullDeck(catalog)|) && Oracle(rand, |view.seats|)
    requires Placed(rows) && forall i :: 0 <= i < |rows| ==> rows[i].game != g
    requires view.state == Lobby && |view.seats| >= 2 && view.moves == []
    requires Distinct(PlayerIds(view.seats)) && Pool !in PlayerIds(view.seats)
    requires CardsPerPlayer * |view.seats| < |FullDeck(catalog)|
    ensures var e := StartSpec(rows, view, g, catalog, locations, rand);
            var order := FisherYates(PlayerIds(view.seats), rand);
            && e.result == Ok(order[0])
            && |e.game.moves| == 1
            && e.game.moves[0].userId == order[0] && e.game.moves[0].playType == Play && e.game.moves[0].cardId.Some?
            && ResolveTurn(e.game.seats, e.game.moves).Ok?
            && ResolveTurn(e.game.seats, e.game.moves).value.currentPlayerId == order[1]
  {
    var order := FisherYates(PlayerIds(view.seats), rand);
    var dealt := Dealt(rows + DeckRows(g, FullDeck(catalog), locations), g, order);
    StartDealsStarter(rows, view, g, catalog, locations, rand);
    StartShape(rows, view, g, catalog, locations, rand);
    var e := StartSpec(rows, view, g, catalog, locations, rand);
    var m := StarterMove(order[0], StarterOf(dealt, g).value);
    assert e.game.moves == [m];
    var seated := e.game.seats;
    StartSeats(rows, view, g, catalog, locations, rand);
    ShuffledPlayers(view.seats, rand);
    SeatOfSecondPosition(view.seats, order, seated);
    StarterTurn(|seated|, m);
    ResolveTurnSeat(seated, [m]);
  }

  /** One counting non-reverse move from the start passes the turn to the seat at index 1. */
  lemma StarterTurn(n: nat, m: Move)
    requires n >= 2 && Counts(m) && m.playType == Play
    ensures Replay(n, [m]) == TurnState(1, 1)
  {
    assert [m] == [] + [m];
    ReplaySnoc(n, [], m);
  }

  /** On a new game with room for the deal the draw pile still has a card, so a starter is turned. */
  lemma StartDealsStarter(rows: seq<CardRow>, view: GameView, g: int, catalog: seq<CardDef>, locations: seq<int>, rand: seq<real>)
    requires IsLocationOrder(locations, |FullDeck(catalog)|) && Oracle(rand, |view.seats|)
    requires Placed(rows) && forall i :: 0 <= i < |rows| ==> rows[i].game != g
    requires view.state == Lobby && |view.seats| >= 2
    requires Distinct(PlayerIds(view.seats)) && Pool !in PlayerIds(view.seats)
    requires CardsPerPlayer * |view.seats| < |FullDeck(catalog)|
    ensures StarterOf(Dealt(rows + DeckRows(g, FullDeck(catalog), locations), g, FisherYates(PlayerIds(view.seats), rand)), g).Some?
  {
    var deck := FullDeck(catalog);
    var created := rows + DeckRows(g, deck, locations);
    var order := FisherYates(PlayerIds(view.seats), rand);
    NewDeck(rows, g, deck, locations);
    DeckRowsPlaced(rows, g, deck, locations);
    ShuffledPlayers(view.seats, rand);
    DealtCounts(created, g, order);
    DealtKeepsCards(created, g, order);
    StarterIsTopOfDrawPile(Dealt(created, g, order), g);
  }

  /**
    Sorting the seated players by position puts the player the shuffle put
    second at index 1.
  */
  lemma SeatOfSecondPosition(seats: seq<Seat>, order: seq<int>, seated: seq<Seat>)
    requires |seats| >= 2 && |order| == |seats| && Distinct(PlayerIds(seats)) && Distinct(order)
    requires forall x :: x in order <==> x in PlayerIds(seats)
    requires |seated| == |seats|
    requires forall k, j :: 0 <= k < |seats| && 0 <= j < |order| && order[j] == seats[k].userId
               ==> seated[k] == Seat(seats[k].userId, j + 1)
    ensures SortByPosition(seated)[1].userId == order[1]
  {
    var sorted := SortByPosition(seated);
    SeatsOfOrder(seats, order, seated);
    PermutationDistinct(seated, sorted);
    forall a | 0 <= a < |sorted| ensures SeatedAt(order, sorted[a]) {
      assert sorted[a] in multiset(seated);
      assert sorted[a] in seated;
      var k :| 0 <= k < |seated| && seated[k] == sorted[a];
    }
    SortedSeatsPinned(order, sorted);
  }

  /** Seats sorted by position, one per player of `order`, hold positions 1, 2, ..., n in turn. */
  lemma SortedSeatsPinned(order: seq<int>, sorted: seq<Seat>)
    requires |sorted| == |order| && Distinct(sorted) && SortedByPosition(sorted)
    requires forall a :: 0 <= a < |sorted| ==> SeatedAt(order, sorted[a])
    ensures forall a :: 0 <= a < |sorted| ==> sorted[a] == Seat(order[a], a + 1)
  {
    assert forall a, b :: 0 <= a < b < |sorted| ==> sorted[a].position < sorted[b].position;
    PositionsPinned(sorted);
  }

  /** Each seat belongs to one player and holds that player's position in `order`. */
  lemma SeatsOfOrder(seats: seq<Seat>, order: seq<int>, seated: seq<Seat>)
    requires Distinct(PlayerIds(seats))
    requires forall x :: x in order <==> x in PlayerIds(seats)
    requires |seated| == |seats|
    requires forall k, j :: 0 <= k < |seats| && 0 <= j < |order| && order[j] == seats[k].userId
               ==> seated[k] == Seat(seats[k].userId, j + 1)
    ensures Distinct(seated)
    ensures forall k :: 0 <= k < |seated| ==> SeatedAt(order, seated[k])
  {
    forall k | 0 <= k < |seated|
      ensures seated[k].userId == seats[k].userId && SeatedAt(order, seated[k])
    {
      assert PlayerIds(seats)[k] == seats[k].userId;
      assert seats[k].userId in order;
      var j :| 0 <= j < |order| && order[j] == seats[k].userId;
      assert seated[k] == Seat(order[j], j + 1);
    }
    forall a, b | 0 <= a < b < |seated| ensures seated[a] != seated[b] {
      assert PlayerIds(seats)[a] != PlayerIds(seats)[b];
    }
  }

  /** The seat of the player at index position - 1 of `order`. */
  predicate SeatedAt(order: seq<int>, x: Seat)
  {
    1 <= x.position <= |order| && order[x.position - 1] == x.userId
  }

  /** Strictly increasing positions drawn from 1..n over n seats are exactly 1, 2, ..., n. */
  lemma PositionsPinned(s: seq<Seat>)
    requires forall a, b :: 0 <= a < b < |s| ==> s[a].position < s[b].position
    requires forall a :: 0 <= a < |s| ==> 1 <= s[a].position <= |s|
    ensures forall a :: 0 <= a < |s| ==> s[a].position == a + 1
  {
    forall a | 0 <= a < |s| ensures s[a].position == a + 1 {
      AtLeastIndex(s, a);
      AtMostIndex(s, a);
    }
  }

  lemma {:induction false} AtLeastIndex(s: seq<Seat>, a: nat)
    requires forall x, y :: 0 <= x < y < |s| ==> s[x].position < s[y].position
    requires forall x :: 0 <= x < |s| ==> 1 <= s[x].position
    requires a < |s|
    ensures s[a].position >= a + 1
  {
    if a > 0 {
      AtLeastIndex(s, a - 1);
    }
  }

  lemma {:induction false} AtMostIndex(s: seq<Seat>, a: nat)
    requires forall x, y :: 0 <= x < y < |s| ==> s[x].position < s[y].position
    requires forall x :: 0 <= x < |s| ==> s[x].position <= |s|
    requires a < |s|
    ensures s[a].position <= a + 1
    decreases |s| - a
  {
    if a + 1 < |s| {
      AtMostIndex(s, a + 1);
    }
  }

  /** A permutation of a sequence without repeats has no repeats. */
  lemma PermutationDistinct<T>(s: seq<T>, t: seq<T>)
    requires multiset(s) == multiset(t) && Distinct(s)
    ensures Distinct(t)
  {
    forall a, b | 0 <= a < b < |t| ensures t[a] != t[b] {
      if t[a] == t[b] {
        RepeatCounts(t, a, b);
        AtMostOnce(s, t[a]);
      }
    }
  }

  lemma RepeatCounts<T>(t: seq<T>, a: nat, b: nat)
    requires a < b < |t| && t[a] == t[b]
    ensures multiset(t)[t[a]] >= 2
  {
    assert t == t[..b] + t[b..];
    assert t[a] in t[..b];
    assert t[b..][0] == t[b];
  }

  lemma {:induction false} AtMostOnce<T>(s: seq<T>, x: T)
    requires Distinct(s)
    ensures multiset(s)[x] <= 1
  {
    if s != [] {
      assert s == [s[0]] + s[1..];
      AtMostOnce(s[1..], x);
      if s[0] == x {
        assert x !in s[1..];
      }
    }
  }

  /**
    StartGame. The starter loop draws one card to the pool (which changes
    nothing) and looks at the first pool card up to twenty times; whether or
    not that card is a good starter, it is the one played.
  */
  method StartGame(store: Arena, game: Game, catalog: seq<CardDef>, locations: seq<int>, rand: seq<real>)
      returns (r: Result<int, string>)
    requires store.Valid()
    requires IsLocationOrder(locations, |FullDeck(catalog)|) && Oracle(rand, |game.seats|)
    modifies store, game
    ensures store.Valid()
    ensures MoveService.Effect(store.rows, game.View(), r)
            == StartSpec(old(store.rows), old(game.View()), game.id, catalog, locations, rand)
  {
    var g := game.id;
    if game.state != Lobby {
      return Err(AlreadyStarted);
    }
    var players := game.seats;
    if |players| < 2 {
      return Err(NotEnoughPlayers);
    }
    ghost var spec := StartSpec(store.rows, game.View(), g, catalog, locations, rand);
    StartShape(store.rows, game.View(), g, catalog, locations, rand);
    var playerIds := PlayerIds(players);
    store.CreateDeck(g, catalog, locations);
    var shuffledPlayers := Shuffle(playerIds, rand);
    DealAndSeat(store, game, shuffledPlayers);
    var starterCardId := TurnStarter(store, g);
    if starterCardId.Some? {
      game.CreateMove(StarterMove(shuffledPlayers[0], starterCardId.value));
    }
    game.Start();
    r := Ok(shuffledPlayers[0]);
    assert store.rows == spec.rows && game.View() == spec.game && r == spec.result;
  }

  /** StartGame's deal loop: each player in turn draws seven cards and is given the next position. */
  method DealAndSeat(store: Arena, game: Game, order: seq<int>)
    requires store.Valid()
    modifies store, game
    ensures store.Valid()
    ensures store.rows == Dealt(old(store.rows), game.id, order)
    ensures game.View() == old(game.View()).(seats := Positioned(old(game.seats), order))
  {
    var g := game.id;
    ghost var before := store.rows;
    ghost var seats := game.seats;
    var i := 0;
    while i < |order|
      invariant 0 <= i <= |order|
      invariant store.Valid()
      invariant store.rows == Dealt(before, g, order[..i])
      invariant game.View() == old(game.View()).(seats := Positioned(seats, order[..i]))
    {
      var playerId := order[i];
      DealtStep(before, g, order, i);
      PositionedStep(seats, order, i);
      var drawn := store.DrawCards(g, playerId, CardsPerPlayer);
      game.SetPlayerPosition(i + 1, playerId);
      i := i + 1;
    }
    assert order[..i] == order;
  }

  /**
    StartGame's starter loop. Each attempt draws one card to the pool, which
    changes nothing, and looks at the first pool card; a good starter is
    played, otherwise the next attempt sees the same card. After twenty
    attempts the first pool card is played whatever it is. Either way the
    starter is the first pool card as it was when the loop began.
  */
  method TurnStarter(store: Arena, g: int) returns (starterCardId: Option<int>)
    requires store.Valid()
    modifies store
    ensures store.Valid()
    ensures starterCardId == StarterOf(old(store.rows), g)
    ensures store.rows == if starterCardId.Some? then AfterPlay(old(store.rows), starterCardId.value, g, Pool) else old(store.rows)
  {
    ghost var dealt := store.rows;
    var attempts := 0;
    var validStarter := false;
    starterCardId := None;
    while !validStarter && attempts < StarterAttempts
      invariant 0 <= attempts <= StarterAttempts
      invariant store.Valid()
      invariant !validStarter ==> store.rows == dealt && starterCardId.None?
      invariant validStarter ==> starterCardId.Some? && starterCardId == StarterOf(dealt, g)
                                 && store.rows == AfterPlay(dealt, starterCardId.value, g, Pool)
    {
      DrawToPoolIsNoOp(store.rows, g, 1);
      var drawn := store.DrawCards(g, Pool, 1);
      var topCards := Hand(store.rows, g, Pool);
      if |topCards| > 0 {
        var starterCard := topCards[0];
        if GoodStarter(starterCard) {
          var played := store.PlayCard(starterCard.id, g, Pool);
          starterCardId := Some(starterCard.id);
          validStarter := true;
        }
      }
      attempts := attempts + 1;
    }

    if !validStarter {
      var topCards := Hand(store.rows, g, Pool);
      if |topCards| > 0 {
        var played := store.PlayCard(topCards[0].id, g, Pool);
        starterCardId := Some(topCards[0].id);
      }
    }
  }

  // ---------------------------------------------------------------------------
  // endGame

  /** endGame: refused once the game has ended; otherwise the game ends with the given winner (none for no winner). */
  function EndSpec(view: GameView, winnerId: Option<int>): (e: (GameView, Result<(), string>))
    ensures e.1.Err? <==> view.state == Ended
    ensures e.1.Err? ==> e.0 == view && e.1.error == AlreadyEnded
    ensures e.1.Ok? ==> e.0.state == Ended && e.0.winner == winnerId
                        && e.0.seats == view.seats && e.0.moves == view.moves
  {
    if view.state == Ended then (view, Err(AlreadyEnded))
    else (view.(state := Ended, winner := winnerId), Ok(()))
  }

  /** A game can be ended once: a second endGame is refused and changes nothing. */
  lemma EndOnce(view: GameView, first: Option<int>, second: Option<int>)
    requires EndSpec(view, first).1.Ok?
    ensures var after := EndSpec(view, first).0;
            EndSpec(after, second) == (after, Err(AlreadyEnded))
  {
  }

  /** endGame. */
  method EndGame(game: Game, winnerId: Option<int>) returns (r: Result<(), string>)
    modifies game
    ensures (game.View(), r) == EndSpec(old(game.View()), winnerId)
  {
    if game.state == Ended {
      return Err(AlreadyEnded);
    }
    game.Update(Ended, winnerId);
    return Ok(());
  }
}
