/**
  The move log of one game: an append-only sequence of move records in id
  order (`createMove` appends, `getGameMoves` returns the whole sequence).
*/
module Moves {
  import opened Wrappers

  datatype PlayType = Play | Draw | Skip | Reverse

  /**
    One row of `moves`. The nullable columns `card_id`, `draw_amount` and
    `chosen_color` are options; `reverse` is the boolean flag.
  */
  datatype Move = Move(
    userId: int,
    playType: PlayType,
    cardId: Option<int>,
    drawAmount: Option<int>,
    chosenColor: Option<string>,
    reverse: bool)

  /**
    The `latest_move` / `top_discard` CTE: the move with the highest id whose
    `card_id` is not null, if any.
  */
  function LatestCardMove(log: seq<Move>): (r: Option<Move>)
    ensures r.None? <==> forall i :: 0 <= i < |log| ==> log[i].cardId.None?
    ensures r.Some? ==> r.value.cardId.Some?
    ensures r.Some? ==> exists i :: 0 <= i < |log| && log[i] == r.value
                                     && forall j :: i < j < |log| ==> log[j].cardId.None?
  {
    if log == [] then None
    else if log[|log| - 1].cardId.Some? then Some(log[|log| - 1])
    else LatestCardMove(log[..|log| - 1])
  }

  /** Appending a move that carries a card makes it the latest card move; any other append changes nothing. */
  lemma LatestCardMoveAppend(log: seq<Move>, m: Move)
    ensures LatestCardMove(log + [m]) == if m.cardId.Some? then Some(m) else LatestCardMove(log)
  {
    assert (log + [m])[..|log|] == log;
  }
}
