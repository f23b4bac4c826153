/**
  Turn resolution: whose turn it is and in which direction play runs are
  derived by replaying the whole move log from the first move, over the
  seats sorted by their position.
*/
module Turn {
  import opened Wrappers
  import opened Moves

  /** A row of the game's players: the user and the seat position it was given. */
  datatype Seat = Seat(userId: int, position: int)

  /** The replay's two variables: an index into the sorted seats and a direction, 1 or -1. */
  datatype TurnState = TurnState(position: int, direction: int)

  /** What getCurrentTurn reports. */
  datatype CurrentTurn = CurrentTurn(currentPlayerId: int, playerOrder: int, direction: int)

  const Start: TurnState := TurnState(0, 1)

  /** JavaScript's `%` for a positive divisor: the remainder takes the sign of the dividend. */
  function Rem(a: int, n: int): (r: int)
    requires n > 0
    ensures a >= 0 ==> r == a % n
    ensures -n < r < n
  {
    if a >= 0 then a % n else -((-a) % n)
  }

  /** A move advances the turn iff it carries a card, is a skip, or is a draw without an amount. */
  predicate Counts(m: Move)
    ensures m.cardId.Some? ==> Counts(m)
    ensures m.cardId.None? && (m.playType == Play || m.playType == Reverse) ==> !Counts(m)
    ensures m.cardId.None? && m.playType == Draw ==> (Counts(m) <==> m.drawAmount.None?)
  {
    m.cardId.Some? || m.playType == Skip || (m.playType == Draw && m.drawAmount.None?)
  }

  /** One seat on from `position` in direction `direction` (1 clockwise, anything else counter-clockwise). */
  function Next(n: nat, position: int, direction: int): (r: int)
    requires n > 0
    ensures 0 <= position < n ==> 0 <= r < n
    ensures 0 <= position < n && direction == 1 ==> r == (position + 1) % n
    ensures 0 <= position < n && direction != 1 ==> r == (position - 1) % n
  {
    WrapAround(n, position);
    if direction == 1 then Rem(position + 1, n) else Rem(position - 1 + n, n)
  }

  /** From a seat index, one seat forward or one seat back (adding n first) is again a seat index. */
  lemma WrapAround(n: nat, position: int)
    requires n > 0
    ensures 0 <= position < n ==> (position + 1) % n == if position + 1 == n then 0 else position + 1
    ensures 0 <= position < n ==> (position - 1 + n) % n == (position - 1) % n == if position == 0 then n - 1 else position - 1
  {
    if 0 <= position < n {
      if position == 0 {
        ModUnique(n - 1, n, 0, n - 1);
        ModUnique(-1, n, -1, n - 1);
      } else {
        ModUnique(position - 1 + n, n, 1, position - 1);
        ModUnique(position - 1, n, 0, position - 1);
      }
      if position + 1 == n {
        ModUnique(position + 1, n, 1, 0);
      } else {
        ModUnique(position + 1, n, 0, position + 1);
      }
    }
  }

  /** One iteration of the replay loop. */
  function Step(n: nat, t: TurnState, m: Move): (r: TurnState)
    requires n > 0
    ensures !Counts(m) ==> r == t
    ensures Counts(m) ==> r.direction == if m.playType == Reverse then -t.direction else t.direction
    ensures InRange(n, t) ==> InRange(n, r)
    ensures InRange(n, t) && Counts(m) && n >= 2 ==> r.position != t.position
  {
    if !Counts(m) then t
    else if m.playType == Reverse then
      var direction := t.direction * -1;
      TurnState(Next(n, t.position, direction), direction)
    else if n == 2 then TurnState(Rem(t.position + 1, n), t.direction)
    else TurnState(Next(n, t.position, t.direction), t.direction)
  }

  /** The replay from state t over `moves`, first move first. */
  function ReplayFrom(n: nat, t: TurnState, moves: seq<Move>): (r: TurnState)
    requires n > 0
    ensures InRange(n, t) ==> InRange(n, r)
    ensures (forall i :: 0 <= i < |moves| ==> !Counts(moves[i])) ==> r == t
    decreases |moves|
  {
    if moves == [] then t else ReplayFrom(n, Step(n, t, moves[0]), moves[1..])
  }

  function Replay(n: nat, moves: seq<Move>): (r: TurnState)
    requires n > 0
    ensures InRange(n, r)
    ensures (forall i :: 0 <= i < |moves| ==> !Counts(moves[i])) ==> r == TurnState(0, 1)
  {
    ReplayFrom(n, Start, moves)
  }

  predicate InRange(n: nat, t: TurnState)
  {
    0 <= t.position < n && (t.direction == 1 || t.direction == -1)
  }

  /** The replay is a left fold: one more move is one more step on the state so far. */
  lemma {:induction false} ReplayFromSnoc(n: nat, t: TurnState, moves: seq<Move>, m: Move)
    requires n > 0
    ensures ReplayFrom(n, t, moves + [m]) == Step(n, ReplayFrom(n, t, moves), m)
    decreases |moves|
  {
    if moves == [] {
      assert [m][1..] == [];
    } else {
      assert (moves + [m])[1..] == moves[1..] + [m];
      ReplayFromSnoc(n, Step(n, t, moves[0]), moves[1..], m);
    }
  }

  lemma ReplaySnoc(n: nat, moves: seq<Move>, m: Move)
    requires n > 0
    ensures Replay(n, moves + [m]) == Step(n, Replay(n, moves), m)
  {
    ReplayFromSnoc(n, Start, moves, m);
  }

  /** A move that does not count leaves position and direction alone. */
  lemma NonCountingKeeps(n: nat, moves: seq<Move>, m: Move)
    requires n > 0 && !Counts(m)
    ensures Replay(n, moves + [m]) == Replay(n, moves)
  {
    ReplaySnoc(n, moves, m);
  }

  /**
    A counting reverse flips the direction and moves one seat the new way;
    any other counting move keeps the direction and moves one seat the
    current way, or one seat forward when there are two seats.
  */
  lemma CountingStep(n: nat, moves: seq<Move>, m: Move)
    requires n > 0 && Counts(m)
    ensures var t := Replay(n, moves);
            var u := Replay(n, moves + [m]);
            && (m.playType == Reverse ==> u.direction == -t.direction && u.position == Next(n, t.position, -t.direction))
            && (m.playType != Reverse ==> u.direction == t.direction && u.position == Next(n, t.position, if n == 2 then 1 else t.direction))
  {
    ReplaySnoc(n, moves, m);
  }

  /** Two reverses in a row restore the direction. */
  lemma DoubleReverse(n: nat, moves: seq<Move>, m1: Move, m2: Move)
    requires n > 0 && Counts(m1) && Counts(m2) && m1.playType == Reverse && m2.playType == Reverse
    ensures Replay(n, moves + [m1, m2]).direction == Replay(n, moves).direction
  {
    ReplaySnoc(n, moves, m1);
    assert moves + [m1, m2] == (moves + [m1]) + [m2];
    ReplaySnoc(n, moves + [m1], m2);
  }

  /** Among seat indices, one step forward and one step back agree when there are two seats. */
  lemma TwoSeatsNextAgree(position: int, d: int)
    requires 0 <= position < 2
    ensures Next(2, position, d) == 1 - position
  {
  }

  /** With two seats a counting reverse moves the turn exactly as any other counting move. */
  lemma TwoSeatReverseIsAdvance(moves: seq<Move>, r: Move, m: Move)
    requires Counts(r) && Counts(m) && r.playType == Reverse && m.playType != Reverse
    ensures Replay(2, moves + [r]).position == Replay(2, moves + [m]).position
  {
    ReplaySnoc(2, moves, r);
    ReplaySnoc(2, moves, m);
    TwoSeatsNextAgree(Replay(2, moves).position, -Replay(2, moves).direction);
  }

  /** The number of moves that count. */
  function CountingMoves(moves: seq<Move>): (k: nat)
    ensures k <= |moves|
  {
    if moves == [] then 0 else CountingMoves(moves[..|moves| - 1]) + (if Counts(moves[|moves| - 1]) then 1 else 0)
  }

  lemma ModStep(k: nat, n: nat)
    requires n > 0
    ensures Rem(k % n + 1, n) == (k + 1) % n
  {
    var q := k / n;
    var r := k % n;
    DivMod(k, n);
    MulSucc(q, n);
    if r + 1 == n {
      ModUnique(k + 1, n, q + 1, 0);
      ModUnique(r + 1, n, 1, 0);
    } else {
      ModUnique(k + 1, n, q, r + 1);
      ModUnique(r + 1, n, 0, r + 1);
    }
  }

  lemma DivMod(k: int, n: int)
    requires n > 0
    ensures k == (k / n) * n + k % n && 0 <= k % n < n
  {
  }

  lemma MulSucc(q: int, n: int)
    ensures (q + 1) * n == q * n + n
  {
  }

  lemma ModUnique(a: int, n: int, q: int, r: int)
    requires n > 0 && 0 <= r < n && a == q * n + r
    ensures a % n == r
  {
    var q' := a / n;
    var r' := a % n;
    assert a == q' * n + r';
    assert (q - q') * n == r' - r;
    if q > q' {
      MulAtLeast(q - q', n);
    } else if q < q' {
      MulAtLeast(q' - q, n);
    }
  }

  lemma {:induction false} MulAtLeast(d: nat, n: nat)
    requires d >= 1
    ensures d * n >= n
  {
    if d > 1 {
      MulAtLeast(d - 1, n);
      assert d * n == (d - 1) * n + n;
    }
  }

  /**
    Reference for logs without a counting reverse: the turn passes clockwise
    once per counting move, so the position is that number modulo the seats.
  */
  lemma {:induction false} ReplayWithoutReverse(n: nat, moves: seq<Move>)
    requires n > 0
    requires forall i :: 0 <= i < |moves| && Counts(moves[i]) ==> moves[i].playType != Reverse
    ensures Replay(n, moves) == TurnState(CountingMoves(moves) % n, 1)
    decreases |moves|
  {
    if moves != [] {
      var init := moves[..|moves| - 1];
      var m := moves[|moves| - 1];
      assert init + [m] == moves;
      ReplayWithoutReverse(n, init);
      WithoutReverseStep(n, init, m);
    }
  }

  lemma WithoutReverseStep(n: nat, init: seq<Move>, m: Move)
    requires n > 0
    requires Replay(n, init) == TurnState(CountingMoves(init) % n, 1)
    requires Counts(m) ==> m.playType != Reverse
    ensures Replay(n, init + [m]) == TurnState(CountingMoves(init + [m]) % n, 1)
  {
    ReplaySnoc(n, init, m);
    assert (init + [m])[..|init + [m]| - 1] == init;
    if Counts(m) {
      ModStep(CountingMoves(init), n);
    }
  }

  /** With two seats the turn simply alternates: its position is the parity of the counting moves, reverses included. */
  lemma {:induction false} TwoSeatParity(moves: seq<Move>)
    ensures Replay(2, moves).position == CountingMoves(moves) % 2
    decreases |moves|
  {
    if moves != [] {
      var init := moves[..|moves| - 1];
      var m := moves[|moves| - 1];
      assert init + [m] == moves;
      TwoSeatParity(init);
      ReplaySnoc(2, init, m);
    }
  }

  // ---------------------------------------------------------------------------
  // Seats in position order

  predicate SortedByPosition(s: seq<Seat>)
  {
    forall k, l :: 0 <= k < l < |s| ==> s[k].position <= s[l].position
  }

  /** Insert x after every seat whose position is not greater, keeping equal positions in arrival order. */
  function Insert(s: seq<Seat>, x: Seat): (r: seq<Seat>)
    requires SortedByPosition(s)
    ensures SortedByPosition(r)
    ensures multiset(r) == multiset(s) + multiset{x}
    ensures |r| == |s| + 1
    ensures forall y :: y in r ==> y in s || y == x
  {
    if s == [] then [x]
    else if x.position < s[|s| - 1].position then
      var init := s[..|s| - 1];
      var last := s[|s| - 1];
      assert s == init + [last];
      var rest := Insert(init, x);
      assert forall k :: 0 <= k < |rest| ==> rest[k] in rest;
      rest + [last]
    else s + [x]
  }

  /** The stable sort by ascending position (`sort((a, b) => a.position - b.position)`). */
  function SortByPosition(seats: seq<Seat>): (r: seq<Seat>)
    ensures SortedByPosition(r)
    ensures multiset(r) == multiset(seats)
    ensures |r| == |seats|
  {
    if seats == [] then []
    else
      var init := seats[..|seats| - 1];
      assert seats == init + [seats[|seats| - 1]];
      Insert(SortByPosition(init), seats[|seats| - 1])
  }

  /** getCurrentTurn as a function of the seats and the log. */
  function ResolveTurn(seats: seq<Seat>, moves: seq<Move>): (r: Result<CurrentTurn, string>)
    ensures r.Err? <==> seats == []
    ensures r.Ok? ==> r.value.direction == 1 || r.value.direction == -1
    ensures r.Ok? ==> exists s :: s in seats && s.userId == r.value.currentPlayerId
  {
    if seats == [] then Err("No players in the game")
    else
      var n := |seats|;
      var sorted := SortByPosition(seats);
      var t := Replay(n, moves);
      var seat := sorted[t.position];
      assert seat in multiset(seats);
      Ok(CurrentTurn(seat.userId, if seat.position == 0 then 1 else seat.position, t.direction))
  }

  /** The seat index the turn resolves to, over the sorted seats. */
  lemma ResolveTurnSeat(seats: seq<Seat>, moves: seq<Move>)
    requires seats != []
    ensures var t := Replay(|seats|, moves);
            && 0 <= t.position < |seats|
            && ResolveTurn(seats, moves).value.currentPlayerId == SortByPosition(seats)[t.position].userId
            && ResolveTurn(seats, moves).value.direction == t.direction
  {
  }

  /**
    getCurrentTurn: sorts the seats and walks the moves with two variables,
    as the source does; the result is the replay's.
  */
  method GetCurrentTurn(seats: seq<Seat>, moves: seq<Move>) returns (r: Result<CurrentTurn, string>)
    ensures r == ResolveTurn(seats, moves)
  {
    if |seats| == 0 {
      return Err("No players in the game");
    }
    var sorted := SortByPosition(seats);
    var playerCount := |sorted|;
    var currentPosition := 0;
    var currentDirection := 1;
    var i := 0;
    while i < |moves|
      invariant 0 <= i <= |moves|
      invariant TurnState(currentPosition, currentDirection) == Replay(playerCount, moves[..i])
      invariant InRange(playerCount, TurnState(currentPosition, currentDirection))
    {
      var move := moves[i];
      assert moves[..i + 1] == moves[..i] + [move];
      ReplaySnoc(playerCount, moves[..i], move);
      var countsAsMove := move.cardId.Some? || move.playType == Skip || (move.playType == Draw && move.drawAmount.None?);
      if countsAsMove {
        if move.playType == Reverse {
          currentDirection := currentDirection * -1;
          if currentDirection == 1 {
            currentPosition := Rem(currentPosition + 1, playerCount);
          } else {
            currentPosition := Rem(currentPosition - 1 + playerCount, playerCount);
          }
        } else {
          if playerCount == 2 {
            currentPosition := Rem(currentPosition + 1, playerCount);
          } else {
            if currentDirection == 1 {
              currentPosition := Rem(currentPosition + 1, playerCount);
            } else {
              currentPosition := Rem(currentPosition - 1 + playerCount, playerCount);
            }
          }
        }
      }
      i := i + 1;
    }
    assert moves[..i] == moves;
    var current := sorted[currentPosition];
    r := Ok(CurrentTurn(current.userId, if current.position == 0 then 1 else current.position, currentDirection));
  }
}
