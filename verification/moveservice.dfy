/**
  The move service: validating a play, playing a card with its effects,
  drawing cards, and ending a turn.

  Each operation is specified by a function from the state before the call
  (the card rows and the game record) to the state after it and the reply;
  an `Err` reply stands for the exception the operation throws. There are
  no transactions, so state changed before an exception stays changed.
*/
module MoveService {
  import opened Wrappers
  import opened Cards
  import opened Moves
  import opened Store
  import opened Turn
  import opened Games

  /** The state after an operation and its reply. */
  datatype Effect<T> = Effect(rows: seq<CardRow>, game: GameView, result: Result<T, string>)

  /** validatePlay's reply: `valid`, and a reason exactly when not valid. */
  datatype Verdict = Verdict(valid: bool, reason: Option<string>)

  /** playACard's reply. */
  datatype PlayReply = PlayReply(success: bool, message: Option<string>, winner: Option<int>)

  const NotInProgress := "Game is not in progress"
  const NotYourTurn := "Not your turn"
  const NotInHand := "Card not in your hand"
  const NeedsColor := "Must choose a color for wild card"
  const NoMatch := "Card does not match color or value"
  const ShortDeck := "Not enough cards in deck even after recycling discard pile"
  /** The database's refusal of a negative `LIMIT` in DRAW_CARDS. */
  const NegativeLimit := "LIMIT must not be negative"
  const YouWin := "You win!"

  function Invalid(reason: string): Verdict
  {
    Verdict(false, Some(reason))
  }

  const Valid := Verdict(true, None)

  /** JavaScript falsiness of an optional string: absent or empty. */
  predicate Falsy(s: Option<string>)
    ensures s.Some? && |s.value| > 0 ==> !Falsy(s)
    ensures s == None || s == Some("") ==> Falsy(s)
  {
    s.None? || s.value == ""
  }

  /** The player whose turn it is, when the game has seats. */
  function CurrentPlayer(view: GameView): int
    requires view.seats != []
  {
    ResolveTurn(view.seats, view.moves).value.currentPlayerId
  }

  // ---------------------------------------------------------------------------
  // validatePlay

  function ValidatePlay(view: GameView, rows: seq<CardRow>, g: int, userId: int, cardId: int, chosenColor: Option<string>): (r: Result<Verdict, string>)
    ensures r.Err? <==> view.state == InProgress && view.seats == []
    ensures r.Ok? ==> (r.value.valid <==> r.value.reason.None?)
    ensures r.Ok? && r.value.valid ==> view.state == InProgress && view.seats != [] && CurrentPlayer(view) == userId
    ensures r.Ok? && r.value.valid ==> Has(rows, OwnedBy(g, userId), cardId)
  {
    if view.state != InProgress then Ok(Invalid(NotInProgress))
    else match ResolveTurn(view.seats, view.moves)
      case Err(e) => Err(e)
      case Ok(turn) =>
        if turn.currentPlayerId != userId then Ok(Invalid(NotYourTurn))
        else
          FindInHand(rows, g, userId, cardId);
          Ok(CardVerdict(Find(Hand(rows, g, userId), cardId), TopCard(rows, view.moves, g), chosenColor))
  }

  /** validatePlay's checks on the card found in the hand (if any) against the top card (if any). */
  function CardVerdict(card: Option<GameCard>, top: Option<GameCard>, chosenColor: Option<string>): (v: Verdict)
    ensures v.valid <==> v.reason.None?
    ensures v.valid ==> card.Some?
  {
    match card
    case None => Invalid(NotInHand)
    case Some(c) =>
      match top
      case None => Valid
      case Some(t) =>
        if c.color == "wild" then
          if Falsy(chosenColor) then Invalid(NeedsColor) else Valid
        else if c.color == t.color || c.value == t.value then Valid
        else Invalid(NoMatch)
  }

  /**
    A legal play, stated over the card rows: the game is in progress, it is
    the player's turn, and the card passes the card checks against the top card.
  */
  predicate Legal(view: GameView, rows: seq<CardRow>, g: int, userId: int, cardId: int, chosenColor: Option<string>)
  {
    && view.state == InProgress
    && view.seats != []
    && CurrentPlayer(view) == userId
    && LegalCard(rows, g, userId, cardId, TopCard(rows, view.moves, g), chosenColor)
  }

  /**
    The card checks, stated over the card rows: the player holds the card,
    and either there is no top card yet, or the card is wild and a colour is
    chosen, or the card is not wild and shares the top card's reported colour
    or its value.
  */
  predicate LegalCard(rows: seq<CardRow>, g: int, userId: int, cardId: int, top: Option<GameCard>, chosenColor: Option<string>)
  {
    && Has(rows, OwnedBy(g, userId), cardId)
    && match top
       case None => true
       case Some(t) =>
         var d := At(rows, cardId).def;
         if d.color == Wild then !Falsy(chosenColor)
         else ColorName(d.color) == t.color || d.value == t.value
  }

  /** The card checks on the player's hand accept exactly the legal cards. */
  lemma CardVerdictIffLegal(rows: seq<CardRow>, g: int, userId: int, cardId: int, top: Option<GameCard>, chosenColor: Option<string>)
    ensures CardVerdict(Find(Hand(rows, g, userId), cardId), top, chosenColor) == Valid
            <==> LegalCard(rows, g, userId, cardId, top, chosenColor)
  {
    FindInHand(rows, g, userId, cardId);
    if Has(rows, OwnedBy(g, userId), cardId) {
      WildName(At(rows, cardId).def.color);
    }
  }

  /** validatePlay accepts exactly the legal plays. */
  lemma ValidIffLegal(view: GameView, rows: seq<CardRow>, g: int, userId: int, cardId: int, chosenColor: Option<string>)
    ensures ValidatePlay(view, rows, g, userId, cardId, chosenColor) == Ok(Valid)
            <==> Legal(view, rows, g, userId, cardId, chosenColor)
  {
    if view.state == InProgress && view.seats != [] {
      CardVerdictIffLegal(rows, g, userId, cardId, TopCard(rows, view.moves, g), chosenColor);
    }
  }

  /** validatePlay reports the first check that fails, in a fixed order. */
  lemma ValidatePlayOrder(view: GameView, rows: seq<CardRow>, g: int, userId: int, cardId: int, chosenColor: Option<string>)
    ensures var r := ValidatePlay(view, rows, g, userId, cardId, chosenColor);
            && (view.state != InProgress ==> r == Ok(Invalid(NotInProgress)))
            && (view.state == InProgress && view.seats != [] && CurrentPlayer(view) != userId
                ==> r == Ok(Invalid(NotYourTurn)))
            && (view.state == InProgress && view.seats != [] && CurrentPlayer(view) == userId
                && !Has(rows, OwnedBy(g, userId), cardId)
                ==> r == Ok(Invalid(NotInHand)))
            && (view.state == InProgress && view.seats != [] && CurrentPlayer(view) == userId
                && Has(rows, OwnedBy(g, userId), cardId) && TopCard(rows, view.moves, g).Some?
                && At(rows, cardId).def.color == Wild && Falsy(chosenColor)
                ==> r == Ok(Invalid(NeedsColor)))
  {
    if view.state == InProgress && view.seats != [] {
      FindInHand(rows, g, userId, cardId);
      if Has(rows, OwnedBy(g, userId), cardId) {
        WildName(At(rows, cardId).def.color);
      }
    }
  }

  /** Without a top card every card the current player holds is valid, wild or not, coloured or not. */
  lemma NoTopCardAnyCard(view: GameView, rows: seq<CardRow>, g: int, userId: int, cardId: int, chosenColor: Option<string>)
    requires view.state == InProgress && view.seats != [] && CurrentPlayer(view) == userId
    requires Has(rows, OwnedBy(g, userId), cardId)
    requires forall i :: 0 <= i < |view.moves| ==> view.moves[i].cardId.None?
    ensures ValidatePlay(view, rows, g, userId, cardId, chosenColor) == Ok(Valid)
  {
    ValidIffLegal(view, rows, g, userId, cardId, chosenColor);
  }

  /**
    Once a card of this game has been played, an accepted play follows it: a
    wild card comes with a chosen colour, and any other card shares the played
    card's value or the colour it is reported in (the colour chosen with it,
    when one was chosen).
  */
  lemma MustFollowTop(view: GameView, rows: seq<CardRow>, g: int, userId: int, cardId: int, chosenColor: Option<string>)
    requires LatestCardMove(view.moves).Some?
    requires Has(rows, GameOf(g), LatestCardMove(view.moves).value.cardId.value)
    requires ValidatePlay(view, rows, g, userId, cardId, chosenColor) == Ok(Valid)
    ensures ValidId(rows, cardId)
    ensures var d := At(rows, cardId).def;
            var m := LatestCardMove(view.moves).value;
            var t := At(rows, m.cardId.value).def;
            if d.color == Wild then !Falsy(chosenColor)
            else d.value == t.value
                 || ColorName(d.color) == match m.chosenColor case Some(c) => c case None => ColorName(t.color)
  {
    ValidIffLegal(view, rows, g, userId, cardId, chosenColor);
  }

  // ---------------------------------------------------------------------------
  // The moves a play logs

  /** The primary move's type. */
  function PlayTypeFor(v: Value, playerCount: nat): (t: PlayType)
    ensures t == Reverse <==> v == ReverseCard && playerCount != 2
    ensures t == Skip <==> v == SkipCard || (v == ReverseCard && playerCount == 2)
    ensures t == Play <==> v != SkipCard && v != ReverseCard
  {
    var treatReverseAsSkip := v == ReverseCard && playerCount == 2;
    var t := if v == ReverseCard && !treatReverseAsSkip then Reverse else Play;
    if v == SkipCard || treatReverseAsSkip then Skip else t
  }

  /** The primary move's draw amount. */
  function DrawAmountFor(v: Value): (a: Option<nat>)
    ensures a == Some(2) <==> v == DrawTwoCard
    ensures a == Some(4) <==> v == WildDrawFourCard
    ensures a.None? <==> v != DrawTwoCard && v != WildDrawFourCard
  {
    if v == DrawTwoCard then Some(2) else if v == WildDrawFourCard then Some(4) else None
  }

  /** A skip, or a reverse with two seats, logs an extra card-less skip. */
  predicate ExtraSkip(v: Value, playerCount: nat)
    ensures ExtraSkip(v, playerCount) <==> PlayTypeFor(v, playerCount) == Skip
  {
    v == SkipCard || (v == ReverseCard && playerCount == 2)
  }

  function PrimaryMove(userId: int, v: Value, cardId: int, chosenColor: Option<string>, playerCount: nat): (m: Move)
    ensures Counts(m) && m.cardId == Some(cardId) && m.userId == userId
    ensures m.reverse <==> m.playType == Reverse
  {
    Move(userId, PlayTypeFor(v, playerCount), Some(cardId), DrawAmountFor(v), chosenColor,
         v == ReverseCard && playerCount != 2)
  }

  /** The primary move, then the extra skip when there is one. */
  function PlayMoves(userId: int, v: Value, cardId: int, chosenColor: Option<string>, playerCount: nat): (ms: seq<Move>)
    ensures 1 <= |ms| <= 2 && ms[0] == PrimaryMove(userId, v, cardId, chosenColor, playerCount)
    ensures |ms| == 2 <==> ExtraSkip(v, playerCount)
  {
    [PrimaryMove(userId, v, cardId, chosenColor, playerCount)]
    + (if ExtraSkip(v, playerCount) then [SkipMove(userId)] else [])
  }

  // ---------------------------------------------------------------------------
  // playACard

  /** The win check at the end of a successful play. */
  function Finish(rows: seq<CardRow>, view: GameView, g: int, userId: int): (e: Effect<PlayReply>)
    ensures e.rows == rows && e.game.seats == view.seats && e.game.moves == view.moves
    ensures e.result.Ok? && e.result.value.success
    ensures |Hand(rows, g, userId)| == 0 <==> e.game.state == Ended && e.result.value.winner == Some(userId)
    ensures |Hand(rows, g, userId)| != 0 ==> e.game == view && e.result.value == PlayReply(true, None, None)
  {
    if |Hand(rows, g, userId)| == 0 then
      Effect(rows, view.(state := Ended, winner := Some(userId)), Ok(PlayReply(true, Some(YouWin), Some(userId))))
    else
      Effect(rows, view, Ok(PlayReply(true, None, None)))
  }

  /** What drawing from the pile leaves: the rows, and the ids drawn or the error. */
  datatype Drawn = Drawn(rows: seq<CardRow>, result: Result<seq<int>, string>)

  /**
    The recycle that comes before drawing k cards: when the draw pile holds
    fewer than k cards the discard pile is recycled once. Only locations
    change.
  */
  function Restocked(rows: seq<CardRow>, log: seq<Move>, g: int, k: nat): (r: seq<CardRow>)
    ensures SameCards(rows, r)
    ensures forall i :: 0 <= i < |rows| ==> r[i].owner == rows[i].owner
    ensures Placed(rows) ==> Placed(r)
    ensures DeckCount(rows, g) >= k ==> r == rows
  {
    if DeckCount(rows, g) < k then Recycled(rows, log, g) else rows
  }

  /**
    Drawing k cards for a player, as the penalty of playACard and drawCards
    both do it: recycle once when the pile is short, fail when it is still
    short (the recycle stays done), otherwise hand the player the k
    lowest-located cards of the pile.
  */
  function Take(rows: seq<CardRow>, log: seq<Move>, g: int, player: int, k: nat): (d: Drawn)
    ensures d.result.Ok? <==> DeckCount(Restocked(rows, log, g, k), g) >= k
    ensures d.result.Err? ==> d == Drawn(Restocked(rows, log, g, k), Err(ShortDeck))
    ensures d.result.Ok? ==> |d.result.value| == k
    ensures SameCards(rows, d.rows)
  {
    var rows1 := Restocked(rows, log, g, k);
    if DeckCount(rows1, g) < k then Drawn(rows1, Err(ShortDeck))
    else
      var ids := DrawSelection(rows1, g, k);
      Drawn(SetOwner(rows1, ids, g, player), Ok(ids))
  }

  /**
    A draw that succeeds moves exactly k cards, none of which the player
    held, from the draw pile into the player's hand.
  */
  lemma TakeCount(rows: seq<CardRow>, log: seq<Move>, g: int, player: int, k: nat)
    requires player != Pool
    requires Take(rows, log, g, player, k).result.Ok?
    ensures var d := Take(rows, log, g, player, k);
            && Count(d.rows, OwnedBy(g, player)) == Count(rows, OwnedBy(g, player)) + k
            && DeckCount(d.rows, g) == DeckCount(Restocked(rows, log, g, k), g) - k
            && (forall id :: id in d.result.value ==> Has(d.rows, OwnedBy(g, player), id) && !Has(rows, OwnedBy(g, player), id))
  {
    var rows1 := Restocked(rows, log, g, k);
    SameMatchesSameCount(rows, rows1, OwnedBy(g, player), OwnedBy(g, player));
    DrawEffect(rows1, g, player, k);
    forall id | id in DrawSelection(rows1, g, k)
      ensures !Has(rows, OwnedBy(g, player), id)
    {
      assert At(rows1, id).owner == Pool;
    }
  }

  /** Drawing leaves the card of the latest card move on the discard pile. */
  lemma TakeKeepsTop(rows: seq<CardRow>, log: seq<Move>, g: int, player: int, k: nat)
    requires LatestCardMove(log).Some?
    requires var top := LatestCardMove(log).value.cardId.value;
             ValidId(rows, top) && InDiscard(At(rows, top), g)
    ensures var top := LatestCardMove(log).value.cardId.value;
            var d := Take(rows, log, g, player, k);
            ValidId(d.rows, top) && InDiscard(At(d.rows, top), g)
  {
    var top := LatestCardMove(log).value.cardId.value;
    var rows1 := Restocked(rows, log, g, k);
    if DeckCount(rows, g) < k {
      RecycleEffect(rows, log, g);
    }
    assert At(rows1, top) == At(rows, top);
    if DeckCount(rows1, g) >= k {
      assert top !in DrawSelection(rows1, g, k);
    }
  }

  /**
    The penalty of a draw two or wild draw four, once the play's moves are
    logged: the player the turn now resolves to draws k cards, and a
    card-less draw move is logged for that player.
  */
  function Penalty(rows: seq<CardRow>, view: GameView, g: int, k: nat): (e: Effect<bool>)
    requires view.seats != []
    ensures e.result.Err? ==> e.game == view && e.result == Err(ShortDeck)
    ensures e.result.Ok? ==> e.game == view.(moves := view.moves + [DrawMove(CurrentPlayer(view))])
    ensures SameCards(rows, e.rows)
  {
    var victim := CurrentPlayer(view);
    var d := Take(rows, view.moves, g, victim, k);
    match d.result
    case Err(msg) => Effect(d.rows, view, Err(msg))
    case Ok(_) => Effect(d.rows, view.(moves := view.moves + [DrawMove(victim)]), Ok(true))
  }

  /** The state after the card is played and the play's moves are logged. */
  function Played(rows: seq<CardRow>, view: GameView, g: int, userId: int, cardId: int, chosenColor: Option<string>): (e: Effect<bool>)
    requires ValidId(rows, cardId)
    ensures e.result == Ok(true) && SameCards(rows, e.rows)
    ensures e.game == view.(moves := view.moves + PlayMoves(userId, At(rows, cardId).def.value, cardId, chosenColor, |view.seats|))
    ensures !Has(rows, OwnedBy(g, userId), cardId) ==> e.rows == rows
    ensures Has(rows, OwnedBy(g, userId), cardId) ==>
              && InDiscard(At(e.rows, cardId), g)
              && forall other :: ValidId(rows, other) && other != cardId ==> At(e.rows, other) == At(rows, other)
    ensures Has(rows, OwnedBy(g, userId), cardId) && userId != Pool ==>
              && Count(e.rows, OwnedBy(g, userId)) == Count(rows, OwnedBy(g, userId)) - 1
              && Count(e.rows, DiscardOf(g)) == Count(rows, DiscardOf(g)) + 1
  {
    var v := At(rows, cardId).def.value;
    var e := Effect(AfterPlay(rows, cardId, g, userId),
                    view.(moves := view.moves + PlayMoves(userId, v, cardId, chosenColor, |view.seats|)), Ok(true));
    if Has(rows, OwnedBy(g, userId), cardId) && userId != Pool then
      PlayEffect(rows, cardId, g, userId);
      e
    else e
  }

  /** playACard once validatePlay has accepted the play. */
  function Accepted(rows: seq<CardRow>, view: GameView, g: int, userId: int, cardId: int, chosenColor: Option<string>): (e: Effect<PlayReply>)
    requires ValidId(rows, cardId) && view.seats != []
    ensures SameCards(rows, e.rows) && e.game.seats == view.seats
    ensures |view.moves| < |e.game.moves| && e.game.moves[..|view.moves|] == view.moves
    ensures e.result.Err? ==> e.result == Err(ShortDeck) && e.game.state == view.state && e.game.winner == view.winner
    ensures e.result.Ok? ==> e.result.value.success
  {
    var p := Played(rows, view, g, userId, cardId, chosenColor);
    match DrawAmountFor(At(rows, cardId).def.value)
    case None => Finish(p.rows, p.game, g, userId)
    case Some(k) =>
      var q := Penalty(p.rows, p.game, g, k);
      if q.result.Err? then Effect(q.rows, q.game, Err(q.result.error))
      else Finish(q.rows, q.game, g, userId)
  }

  /** playACard as a function of the state before it. */
  function PlaySpec(rows: seq<CardRow>, view: GameView, g: int, userId: int, cardId: int, chosenColor: Option<string>): (e: Effect<PlayReply>)
    ensures SameCards(rows, e.rows) && e.game.seats == view.seats
    ensures e.result.Ok? && e.result.value.success ==> Legal(view, rows, g, userId, cardId, chosenColor)
    ensures !Legal(view, rows, g, userId, cardId, chosenColor) ==> e.rows == rows && e.game == view
  {
    ValidIffLegal(view, rows, g, userId, cardId, chosenColor);
    match ValidatePlay(view, rows, g, userId, cardId, chosenColor)
    case Err(e) => Effect(rows, view, Err(e))
    case Ok(verdict) =>
      if !verdict.valid then Effect(rows, view, Ok(PlayReply(false, verdict.reason, None)))
      else Accepted(rows, view, g, userId, cardId, chosenColor)
  }

  /** An accepted play goes on to Accepted. */
  lemma PlaySpecAccepted(rows: seq<CardRow>, view: GameView, g: int, userId: int, cardId: int, chosenColor: Option<string>)
    requires ValidatePlay(view, rows, g, userId, cardId, chosenColor) == Ok(Valid)
    ensures ValidId(rows, cardId) && view.seats != []
    ensures PlaySpec(rows, view, g, userId, cardId, chosenColor) == Accepted(rows, view, g, userId, cardId, chosenColor)
  {
  }

  /** A rejected play reports validatePlay's reason and changes nothing. */
  lemma RejectedPlayChangesNothing(rows: seq<CardRow>, view: GameView, g: int, userId: int, cardId: int, chosenColor: Option<string>)
    requires ValidatePlay(view, rows, g, userId, cardId, chosenColor) != Ok(Valid)
    ensures var e := PlaySpec(rows, view, g, userId, cardId, chosenColor);
            && e.rows == rows && e.game == view
            && match ValidatePlay(view, rows, g, userId, cardId, chosenColor)
               case Err(msg) => e.result == Err(msg)
               case Ok(verdict) => e.result == Ok(PlayReply(false, verdict.reason, None))
  {
  }

  /**
    The moves a successful play logs: the primary move, the extra skip when
    there is one, and for a draw two or wild draw four the draw move of the
    player the turn resolves to after them.
  */
  lemma PlayLog(rows: seq<CardRow>, view: GameView, g: int, userId: int, cardId: int, chosenColor: Option<string>)
    requires Has(rows, OwnedBy(g, userId), cardId) && view.seats != []
    requires Accepted(rows, view, g, userId, cardId, chosenColor).result.Ok?
    ensures var v := At(rows, cardId).def.value;
            var log1 := view.moves + PlayMoves(userId, v, cardId, chosenColor, |view.seats|);
            Accepted(rows, view, g, userId, cardId, chosenColor).game.moves
            == log1 + if DrawAmountFor(v).Some? then [DrawMove(ResolveTurn(view.seats, log1).value.currentPlayerId)] else []
  {
  }

  /**
    Where the turn goes after a successful play of a card of value v, from
    turn state t: a reverse with three or more seats turns play around and
    passes one seat the new way; a skip, a two-seat reverse, a draw two and a
    wild draw four pass two seats; any other card passes one seat. With two
    seats every pass goes forward.
  */
  function ExpectedTurn(n: nat, t: TurnState, v: Value): TurnState
    requires n > 0
  {
    var d := if n == 2 then 1 else t.direction;
    if v == ReverseCard && n != 2 then TurnState(Next(n, t.position, -t.direction), -t.direction)
    else if v in {SkipCard, ReverseCard, DrawTwoCard, WildDrawFourCard} then TurnState(Next(n, Next(n, t.position, d), d), t.direction)
    else TurnState(Next(n, t.position, d), t.direction)
  }

  /** With two seats, passing two seats gives the turn back to the same player. */
  lemma TwoSeatsTwoPassesReturn(t: TurnState)
    requires InRange(2, t)
    ensures ExpectedTurn(2, t, SkipCard).position == t.position
    ensures ExpectedTurn(2, t, ReverseCard).position == t.position
    ensures ExpectedTurn(2, t, DrawTwoCard).position == t.position
  {
  }

  lemma PlayMovesTurn(n: nat, log: seq<Move>, userId: int, v: Value, cardId: int, chosenColor: Option<string>)
    requires n > 0
    ensures var t := Replay(n, log);
            var u := Replay(n, log + PlayMoves(userId, v, cardId, chosenColor, n));
            var d := if n == 2 then 1 else t.direction;
            && (v == ReverseCard && n != 2 ==> u == TurnState(Next(n, t.position, -t.direction), -t.direction))
            && (ExtraSkip(v, n) ==> u == TurnState(Next(n, Next(n, t.position, d), d), t.direction))
            && (v != ReverseCard && !ExtraSkip(v, n) ==> u == TurnState(Next(n, t.position, d), t.direction))
  {
    var p := PrimaryMove(userId, v, cardId, chosenColor, n);
    ReplaySnoc(n, log, p);
    if ExtraSkip(v, n) {
      assert log + PlayMoves(userId, v, cardId, chosenColor, n) == (log + [p]) + [SkipMove(userId)];
      ReplaySnoc(n, log + [p], SkipMove(userId));
    } else {
      assert log + PlayMoves(userId, v, cardId, chosenColor, n) == log + [p];
    }
  }

  /**
    After a successful play the resolved turn is where ExpectedTurn says:
    the moves playACard logs move the turn exactly as the card's rule.
  */
  lemma PlayTurnEffect(rows: seq<CardRow>, view: GameView, g: int, userId: int, cardId: int, chosenColor: Option<string>)
    requires Has(rows, OwnedBy(g, userId), cardId) && view.seats != []
    requires Accepted(rows, view, g, userId, cardId, chosenColor).result.Ok?
    ensures Replay(|view.seats|, Accepted(rows, view, g, userId, cardId, chosenColor).game.moves)
            == ExpectedTurn(|view.seats|, Replay(|view.seats|, view.moves), At(rows, cardId).def.value)
  {
    PlayLog(rows, view, g, userId, cardId, chosenColor);
    LoggedTurn(view.seats, view.moves, userId, At(rows, cardId).def.value, cardId, chosenColor);
  }

  /** The moves a successful play logs, the penalty draw included, move the turn as ExpectedTurn says. */
  lemma LoggedTurn(seats: seq<Seat>, log: seq<Move>, userId: int, v: Value, cardId: int, chosenColor: Option<string>)
    requires seats != []
    ensures var n := |seats|;
            var log1 := log + PlayMoves(userId, v, cardId, chosenColor, n);
            Replay(n, log1 + if DrawAmountFor(v).Some? then [DrawMove(ResolveTurn(seats, log1).value.currentPlayerId)] else [])
            == ExpectedTurn(n, Replay(n, log), v)
  {
    var n := |seats|;
    var log1 := log + PlayMoves(userId, v, cardId, chosenColor, n);
    PlayMovesTurn(n, log, userId, v, cardId, chosenColor);
    if DrawAmountFor(v).Some? {
      ReplaySnoc(n, log1, DrawMove(ResolveTurn(seats, log1).value.currentPlayerId));
    } else {
      assert log1 + [] == log1;
    }
  }

  /** The card played ends on the discard pile, whether the play then succeeds or runs out of cards. */
  lemma PlayedCardDiscarded(rows: seq<CardRow>, view: GameView, g: int, userId: int, cardId: int, chosenColor: Option<string>)
    requires Has(rows, OwnedBy(g, userId), cardId) && view.seats != []
    ensures var e := Accepted(rows, view, g, userId, cardId, chosenColor);
            ValidId(e.rows, cardId) && InDiscard(At(e.rows, cardId), g)
  {
    var p := Played(rows, view, g, userId, cardId, chosenColor);
    var v := At(rows, cardId).def.value;
    assert InDiscard(At(p.rows, cardId), g);
    if DrawAmountFor(v).Some? {
      var primary := PrimaryMove(userId, v, cardId, chosenColor, |view.seats|);
      assert p.game.moves == view.moves + [primary];
      LatestCardMoveAppend(view.moves, primary);
      TakeKeepsTop(p.rows, p.game.moves, g, CurrentPlayer(p.game), DrawAmountFor(v).value);
    }
  }

  /**
    A draw two or wild draw four that succeeds gives the player the turn
    resolves to after the play's moves exactly 2 or 4 cards (less the card
    just played when that player is the one who played it).
  */
  lemma PenaltyDraw(rows: seq<CardRow>, view: GameView, g: int, userId: int, cardId: int, chosenColor: Option<string>)
    requires Has(rows, OwnedBy(g, userId), cardId) && view.seats != []
    requires DrawAmountFor(At(rows, cardId).def.value).Some?
    requires Accepted(rows, view, g, userId, cardId, chosenColor).result.Ok?
    ensures var v := At(rows, cardId).def.value;
            var victim := ResolveTurn(view.seats, view.moves + PlayMoves(userId, v, cardId, chosenColor, |view.seats|)).value.currentPlayerId;
            var e := Accepted(rows, view, g, userId, cardId, chosenColor);
            victim != Pool ==>
              Count(e.rows, OwnedBy(g, victim))
              == Count(rows, OwnedBy(g, victim)) + DrawAmountFor(v).value - (if victim == userId then 1 else 0)
  {
    var p := Played(rows, view, g, userId, cardId, chosenColor);
    var k := DrawAmountFor(At(rows, cardId).def.value).value;
    var victim := CurrentPlayer(p.game);
    if victim != Pool {
      if victim == userId {
        PlayEffect(rows, cardId, g, userId);
      } else {
        PlayKeepsOtherHands(rows, cardId, g, userId, victim);
      }
      TakeCount(p.rows, p.game.moves, g, victim, k);
    }
  }

  /** A successful play ends the game with the player as winner exactly when the player's hand is then empty. */
  lemma PlayWinner(rows: seq<CardRow>, view: GameView, g: int, userId: int, cardId: int, chosenColor: Option<string>)
    requires Has(rows, OwnedBy(g, userId), cardId) && view.seats != [] && view.state == InProgress
    requires Accepted(rows, view, g, userId, cardId, chosenColor).result.Ok?
    ensures var e := Accepted(rows, view, g, userId, cardId, chosenColor);
            && (|Hand(e.rows, g, userId)| == 0 <==> e.game.state == Ended)
            && (|Hand(e.rows, g, userId)| == 0 ==> e.game.winner == Some(userId) && e.result.value == PlayReply(true, Some(YouWin), Some(userId)))
            && (|Hand(e.rows, g, userId)| != 0 ==> e.game.winner == view.winner && e.result.value == PlayReply(true, None, None))
  {
    var p := Played(rows, view, g, userId, cardId, chosenColor);
    match DrawAmountFor(At(rows, cardId).def.value) {
      case None =>
      case Some(k) =>
        var q := Penalty(p.rows, p.game, g, k);
        assert q.game.state == InProgress && q.game.winner == view.winner;
    }
  }

  /**
    A play fails after validation only for a draw two or wild draw four
    whose pile is short even after one recycle; the card is then already
    played and the play's moves already logged.
  */
  lemma PlayFailsOnlyShort(rows: seq<CardRow>, view: GameView, g: int, userId: int, cardId: int, chosenColor: Option<string>)
    requires Has(rows, OwnedBy(g, userId), cardId) && view.seats != []
    requires Accepted(rows, view, g, userId, cardId, chosenColor).result.Err?
    ensures var v := At(rows, cardId).def.value;
            var e := Accepted(rows, view, g, userId, cardId, chosenColor);
            && DrawAmountFor(v).Some?
            && e.result == Err(ShortDeck)
            && e.game == view.(moves := view.moves + PlayMoves(userId, v, cardId, chosenColor, |view.seats|))
            && DeckCount(e.rows, g) < DrawAmountFor(v).value
  {
  }

  // ---------------------------------------------------------------------------
  // drawCards

  /**
    The columns of the latest move that drawCards reads, `draw_count` and
    `owner_id`, each possibly missing.
  */
  datatype LastMove = LastMove(drawCount: Option<int>, ownerId: Option<int>)

  /** A pending penalty: the latest move names this player and a non-zero draw count. */
  function Pending(userId: int, lastMove: Option<LastMove>): (r: int)
    ensures lastMove.None? ==> r == 0
    ensures lastMove.Some? && lastMove.value.ownerId != Some(userId) ==> r == 0
    ensures r != 0 ==> lastMove.Some? && lastMove.value.ownerId == Some(userId) && lastMove.value.drawCount == Some(r)
    ensures lastMove.Some? && lastMove.value.ownerId == Some(userId) && lastMove.value.drawCount.Some?
            ==> r == lastMove.value.drawCount.value
  {
    if lastMove.Some? && lastMove.value.drawCount.Some? && lastMove.value.drawCount.value != 0
       && lastMove.value.ownerId == Some(userId)
    then lastMove.value.drawCount.value
    else 0
  }

  /**
    The number to draw: a positive pending amount, else `count || 1`. A
    negative `count` is truthy and passes through unchanged.
  */
  function DrawCountFor(userId: int, count: Option<int>, lastMove: Option<LastMove>): (k: int)
    ensures k != 0
    ensures k < 0 <==> Pending(userId, lastMove) <= 0 && count.Some? && count.value < 0
    ensures Pending(userId, lastMove) > 0 ==> k == Pending(userId, lastMove)
    ensures Pending(userId, lastMove) <= 0 && count.Some? && count.value != 0 ==> k == count.value
    ensures Pending(userId, lastMove) <= 0 && (count.None? || count.value == 0) ==> k == 1
  {
    var drawAmount := Pending(userId, lastMove);
    if drawAmount > 0 then drawAmount
    else if count.Some? && count.value != 0 then count.value
    else 1
  }

  /**
    drawCards as a function of the state before it; the reply is the ids
    drawn. A negative draw count passes the deck-count check untouched
    (no count is below it) and DRAW_CARDS's `LIMIT` then rejects it.
  */
  function DrawSpec(rows: seq<CardRow>, view: GameView, g: int, userId: int, count: Option<int>, lastMove: Option<LastMove>): (e: Effect<seq<int>>)
    ensures e.game == view && SameCards(rows, e.rows)
    ensures view.state == InProgress && view.seats != [] && CurrentPlayer(view) == userId
            && DrawCountFor(userId, count, lastMove) < 0
            ==> e == Effect(rows, view, Err(NegativeLimit))
  {
    if view.state != InProgress then Effect(rows, view, Err(NotInProgress))
    else match ResolveTurn(view.seats, view.moves)
      case Err(msg) => Effect(rows, view, Err(msg))
      case Ok(turn) =>
        if turn.currentPlayerId != userId then Effect(rows, view, Err(" It is Not your turn"))
        else
          var k := DrawCountFor(userId, count, lastMove);
          if k < 0 then Effect(rows, view, Err(NegativeLimit))
          else
            var d := Take(rows, view.moves, g, userId, k);
            Effect(d.rows, view, d.result)
  }

  /** drawCards refuses, changing nothing, unless the game is in progress and it is the caller's turn. */
  lemma DrawGuards(rows: seq<CardRow>, view: GameView, g: int, userId: int, count: Option<int>, lastMove: Option<LastMove>)
    ensures var e := DrawSpec(rows, view, g, userId, count, lastMove);
            && (view.state != InProgress ==> e == Effect(rows, view, Err(NotInProgress)))
            && (view.state == InProgress && view.seats != [] && CurrentPlayer(view) != userId
                ==> e == Effect(rows, view, Err(" It is Not your turn")))
  {
  }

  /**
    A successful drawCards moves exactly DrawCountFor cards from the draw
    pile (after at most one recycle) into the caller's hand, replies with
    their ids, and logs no move.
  */
  lemma DrawDelivers(rows: seq<CardRow>, view: GameView, g: int, userId: int, count: Option<int>, lastMove: Option<LastMove>)
    requires userId != Pool
    requires DrawSpec(rows, view, g, userId, count, lastMove).result.Ok?
    ensures var e := DrawSpec(rows, view, g, userId, count, lastMove);
            var ids := e.result.value;
            var k := DrawCountFor(userId, count, lastMove);
            && view.state == InProgress && view.seats != [] && CurrentPlayer(view) == userId
            && e.game == view
            && k >= 1 && |ids| == k
            && Count(e.rows, OwnedBy(g, userId)) == Count(rows, OwnedBy(g, userId)) + k
            && (forall id :: id in ids ==> Has(e.rows, OwnedBy(g, userId), id) && !Has(rows, OwnedBy(g, userId), id))
  {
    var k := DrawCountFor(userId, count, lastMove);
    TakeCount(rows, view.moves, g, userId, k);
  }

  /**
    Past its checks drawCards fails in two ways only: a negative count, which
    changes nothing, or a pile still short after one recycle, which stays done.
  */
  lemma DrawFailures(rows: seq<CardRow>, view: GameView, g: int, userId: int, count: Option<int>, lastMove: Option<LastMove>)
    requires view.state == InProgress && view.seats != [] && CurrentPlayer(view) == userId
    requires DrawSpec(rows, view, g, userId, count, lastMove).result.Err?
    ensures var e := DrawSpec(rows, view, g, userId, count, lastMove);
            var k := DrawCountFor(userId, count, lastMove);
            && (k < 0 ==> e == Effect(rows, view, Err(NegativeLimit)))
            && (k >= 0 ==> && e.result == Err(ShortDeck)
                           && DeckCount(rows, g) < k
                           && e.rows == Recycled(rows, view.moves, g)
                           && DeckCount(e.rows, g) < k)
  {
  }

  /**
    The reply as the service builds it: `drawnCards.map(card => card.id)`
    over a list that already holds plain ids reads a missing property of a
    number, so every entry is undefined (JSON null).
  */
  function DrawnCardIdsAsWritten(drawn: seq<int>): (r: seq<Option<int>>)
    ensures |r| == |drawn|
    ensures forall k :: 0 <= k < |r| ==> r[k].None?
  {
    seq(|drawn|, k requires 0 <= k < |drawn| => None)
  }

  /** The ids are lost: for any successful draw, the reply as built is not the list of ids drawn. */
  lemma DrawnIdsLost(rows: seq<CardRow>, view: GameView, g: int, userId: int, count: Option<int>, lastMove: Option<LastMove>)
    requires DrawSpec(rows, view, g, userId, count, lastMove).result.Ok?
    ensures var ids := DrawSpec(rows, view, g, userId, count, lastMove).result.value;
            && |ids| >= 1
            && DrawnCardIdsAsWritten(ids) != seq(|ids|, k requires 0 <= k < |ids| => Some(ids[k]))
  {
    var ids := DrawSpec(rows, view, g, userId, count, lastMove).result.value;
    assert DrawnCardIdsAsWritten(ids)[0].None?;
  }

  // ---------------------------------------------------------------------------
  // endTurn

  /** endTurn as a function of the state before it. */
  function EndTurnSpec(view: GameView, userId: int): (r: (GameView, Result<bool, string>))
    ensures r.1.Err? ==> r.0 == view
  {
    if view.state != InProgress then (view, Err(NotInProgress))
    else match ResolveTurn(view.seats, view.moves)
      case Err(msg) => (view, Err(msg))
      case Ok(turn) =>
        if turn.currentPlayerId != userId then (view, Err("It is Not your turn"))
        else (view.(moves := view.moves + [DrawMove(userId)]), Ok(true))
  }

  /**
    endTurn succeeds exactly for the current player of a game in progress;
    it then logs one card-less draw move, which passes the turn one seat.
  */
  lemma EndTurnAdvances(view: GameView, userId: int)
    ensures var r := EndTurnSpec(view, userId);
            r.1.Ok? <==> view.state == InProgress && view.seats != [] && CurrentPlayer(view) == userId
    ensures var r := EndTurnSpec(view, userId);
            r.1.Ok? ==>
              var n := |view.seats|;
              var t := Replay(n, view.moves);
              && r.0 == view.(moves := view.moves + [DrawMove(userId)])
              && Replay(n, r.0.moves) == TurnState(Next(n, t.position, if n == 2 then 1 else t.direction), t.direction)
  {
    if view.state == InProgress && view.seats != [] {
      ReplaySnoc(|view.seats|, view.moves, DrawMove(userId));
    }
  }

  // ---------------------------------------------------------------------------
  // The operations on the store and the game record

  /** The recycle-then-draw both playACard and drawCards perform. */
  method TakeCards(store: Arena, g: int, log: seq<Move>, player: int, k: nat) returns (r: Result<seq<int>, string>)
    requires store.Valid()
    modifies store
    ensures store.Valid()
    ensures Drawn(store.rows, r) == Take(old(store.rows), log, g, player, k)
  {
    var deckCount := DeckCount(store.rows, g);
    if deckCount < k {
      store.RecycleDiscardPile(g, log);
      deckCount := DeckCount(store.rows, g);
      if deckCount < k {
        return Err(ShortDeck);
      }
    }
    var ids := store.DrawCards(g, player, k);
    return Ok(ids);
  }

  /** The penalty part of playACard. */
  method ApplyPenalty(store: Arena, game: Game, k: nat) returns (r: Result<bool, string>)
    requires store.Valid() && game.seats != []
    modifies store, game
    ensures store.Valid()
    ensures Effect(store.rows, game.View(), r) == Penalty(old(store.rows), old(game.View()), game.id, k)
  {
    var turnInfo := GetCurrentTurn(game.seats, game.moves);
    var nextPlayerId := turnInfo.value.currentPlayerId;
    var taken := TakeCards(store, game.id, game.moves, nextPlayerId, k);
    if taken.Err? {
      return Err(taken.error);
    }
    game.CreateMove(Move(nextPlayerId, Draw, None, None, None, false));
    return Ok(true);
  }

  /** playACard. */
  method PlayACard(store: Arena, game: Game, userId: int, cardId: int, chosenColor: Option<string>)
      returns (r: Result<PlayReply, string>)
    requires store.Valid()
    modifies store, game
    ensures store.Valid()
    ensures Effect(store.rows, game.View(), r) == PlaySpec(old(store.rows), old(game.View()), game.id, userId, cardId, chosenColor)
  {
    var validation := ValidatePlay(game.View(), store.rows, game.id, userId, cardId, chosenColor);
    if validation.Err? {
      return Err(validation.error);
    }
    if !validation.value.valid {
      return Ok(PlayReply(false, validation.value.reason, None));
    }
    PlaySpecAccepted(store.rows, game.View(), game.id, userId, cardId, chosenColor);
    r := PlayValidated(store, game, userId, cardId, chosenColor);
  }

  /** playACard after validation: play the card, log the moves, apply any penalty, check for a win. */
  method PlayValidated(store: Arena, game: Game, userId: int, cardId: int, chosenColor: Option<string>)
      returns (r: Result<PlayReply, string>)
    requires store.Valid() && game.seats != []
    requires Has(store.rows, OwnedBy(game.id, userId), cardId)
    modifies store, game
    ensures store.Valid()
    ensures Effect(store.rows, game.View(), r) == Accepted(old(store.rows), old(game.View()), game.id, userId, cardId, chosenColor)
  {
    var g := game.id;
    var card := PlayAndLog(store, game, userId, cardId, chosenColor);
    var isDraw2 := card.value == DrawTwoCard;
    var isWildDraw4 := card.value == WildDrawFourCard;

    if isDraw2 || isWildDraw4 {
      var penalty := ApplyPenalty(store, game, if isDraw2 then 2 else 4);
      if penalty.Err? {
        return Err(penalty.error);
      }
    }

    r := CheckWin(store, game, userId);
  }

  /** The end of playACard: a player whose hand is now empty wins and the game ends. */
  method CheckWin(store: Arena, game: Game, userId: int) returns (r: Result<PlayReply, string>)
    modifies game
    ensures Effect(store.rows, game.View(), r) == Finish(store.rows, old(game.View()), game.id, userId)
  {
    var remainingCards := Hand(store.rows, game.id, userId);
    if |remainingCards| == 0 {
      game.Update(Ended, Some(userId));
      return Ok(PlayReply(true, Some(YouWin), Some(userId)));
    }
    return Ok(PlayReply(true, None, None));
  }

  /** The first part of playACard after validation: the card goes to the discard pile and the play's moves are logged. */
  method PlayAndLog(store: Arena, game: Game, userId: int, cardId: int, chosenColor: Option<string>)
      returns (card: GameCard)
    requires store.Valid() && game.seats != []
    requires Has(store.rows, OwnedBy(game.id, userId), cardId)
    modifies store, game
    ensures store.Valid() && game.seats == old(game.seats)
    ensures card.value == At(old(store.rows), cardId).def.value
    ensures var p := Played(old(store.rows), old(game.View()), game.id, userId, cardId, chosenColor);
            store.rows == p.rows && game.View() == p.game
  {
    var g := game.id;
    FindInHand(store.rows, g, userId, cardId);
    card := Find(Hand(store.rows, g, userId), cardId).value;

    var played := store.PlayCard(cardId, g, userId);
    assert played;
    LogPlay(game, userId, card.value, cardId, chosenColor);
  }

  /** The moves playACard logs for a card of value v: the primary move, then the extra skip if any. */
  method LogPlay(game: Game, userId: int, v: Value, cardId: int, chosenColor: Option<string>)
    modifies game
    ensures game.View() == old(game.View()).(moves := old(game.moves) + PlayMoves(userId, v, cardId, chosenColor, |old(game.seats)|))
  {
    var playerCount := |game.seats|;
    var isReverse := v == ReverseCard;
    var isSkip := v == SkipCard;
    var isDraw2 := v == DrawTwoCard;
    var isWildDraw4 := v == WildDrawFourCard;
    var treatReverseAsSkip := isReverse && playerCount == 2;

    var playType := Play;
    if isReverse && !treatReverseAsSkip { playType := Reverse; }
    if isSkip || treatReverseAsSkip { playType := Skip; }

    game.CreateMove(Move(userId, playType, Some(cardId),
                         if isDraw2 then Some(2) else if isWildDraw4 then Some(4) else None,
                         chosenColor, isReverse && !treatReverseAsSkip));
    if isSkip || treatReverseAsSkip {
      game.CreateMove(Move(userId, Skip, None, None, None, false));
    }
  }

  /** drawCards; the reply is the ids drawn (DrawnCardIdsAsWritten is the reply as the service builds it). */
  method DrawCards(store: Arena, game: Game, userId: int, count: Option<int>, lastMove: Option<LastMove>)
      returns (r: Result<seq<int>, string>)
    requires store.Valid()
    modifies store
    ensures store.Valid()
    ensures Effect(store.rows, game.View(), r) == DrawSpec(old(store.rows), game.View(), game.id, userId, count, lastMove)
  {
    if game.state != InProgress {
      return Err(NotInProgress);
    }
    var turn := GetCurrentTurn(game.seats, game.moves);
    if turn.Err? {
      return Err(turn.error);
    }
    if turn.value.currentPlayerId != userId {
      return Err(" It is Not your turn");
    }
    var drawAmount := Pending(userId, lastMove);
    var drawCount := if drawAmount > 0 then drawAmount else if count.Some? && count.value != 0 then count.value else 1;
    if drawCount < 0 {
      return Err(NegativeLimit);
    }
    r := TakeCards(store, game.id, game.moves, userId, drawCount);
  }

  /** endTurn. */
  method EndTurn(game: Game, userId: int) returns (r: Result<bool, string>)
    modifies game
    ensures (game.View(), r) == EndTurnSpec(old(game.View()), userId)
  {
    if game.state != InProgress {
      return Err(NotInProgress);
    }
    var turn := GetCurrentTurn(game.seats, game.moves);
    if turn.Err? {
      return Err(turn.error);
    }
    if turn.value.currentPlayerId != userId {
      return Err("It is Not your turn");
    }
    game.CreateMove(Move(userId, Draw, None, None, None, false));
    return Ok(true);
  }
}
