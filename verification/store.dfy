/**
  The card custody store: the `cards` table as an arena of rows, the SQL
  queries as functions over the rows, and the SQL updates as methods of the
  `Arena` class that reassign its rows.

  A card's id is its position in the arena plus one (ids are serial and
  start at 1). Owner 0 is the pool: a pool card with a positive location is
  in the draw pile, ordered by location; one at location -1 is in the
  discard pile. Any other owner is a player holding the card.
*/
module Store {
  import opened Wrappers
  import opened Cards
  import opened Moves

  /** One row of `cards`: game_id, the definition behind deck_card_id, owner_id, location. */
  datatype CardRow = CardRow(game: int, def: CardDef, owner: int, location: int)

  /** The card shape the queries return: id, colour text and value. */
  datatype GameCard = GameCard(id: int, color: string, value: Value)

  const Pool: int := 0
  const DiscardLocation: int := -1

  predicate ValidId(rows: seq<CardRow>, id: int)
  {
    1 <= id <= |rows|
  }

  function At(rows: seq<CardRow>, id: int): CardRow
    requires ValidId(rows, id)
  {
    rows[id - 1]
  }

  predicate AllValid(rows: seq<CardRow>, ids: seq<int>)
  {
    forall id :: id in ids ==> ValidId(rows, id)
  }

  predicate Distinct<T(==)>(s: seq<T>)
  {
    forall k, l :: 0 <= k < l < |s| ==> s[k] != s[l]
  }

  predicate InDrawPile(r: CardRow, g: int)
  {
    r.game == g && r.owner == Pool && r.location > 0
  }

  predicate InDiscard(r: CardRow, g: int)
  {
    r.game == g && r.owner == Pool && r.location == DiscardLocation
  }

  /**
    The store's invariant: every location is positive or -1, so every pool
    card is either in the draw pile or in the discard pile.
  */
  predicate Placed(rows: seq<CardRow>)
  {
    forall i :: 0 <= i < |rows| ==> rows[i].location > 0 || rows[i].location == DiscardLocation
  }

  /** The WHERE clauses the queries filter rows by. */
  datatype Where =
    | DrawPileOf(g: int)                 // game_id = g AND owner_id = 0 AND location > 0
    | DiscardOf(g: int)                  // game_id = g AND owner_id = 0 AND location = -1
    | OwnedBy(g: int, owner: int)        // game_id = g AND owner_id = owner
    | HeldIn(g: int)                     // game_id = g AND owner_id != 0
    | GameOf(g: int)                     // game_id = g
    | RecyclableOf(g: int, top: int)     // the discard pile of g without card `top`

  predicate Matches(w: Where, id: int, r: CardRow)
  {
    match w
    case DrawPileOf(g) => InDrawPile(r, g)
    case DiscardOf(g) => InDiscard(r, g)
    case OwnedBy(g, owner) => r.game == g && r.owner == owner
    case HeldIn(g) => r.game == g && r.owner != Pool
    case GameOf(g) => r.game == g
    case RecyclableOf(g, top) => InDiscard(r, g) && id != top
  }

  predicate Has(rows: seq<CardRow>, w: Where, id: int)
  {
    ValidId(rows, id) && Matches(w, id, At(rows, id))
  }

  /** The ids among the first n rows that satisfy w, in ascending order. */
  function IdsUpTo(rows: seq<CardRow>, w: Where, n: nat): (ids: seq<int>)
    requires n <= |rows|
    ensures forall id :: id in ids <==> 1 <= id <= n && Has(rows, w, id)
    ensures forall k, l :: 0 <= k < l < |ids| ==> ids[k] < ids[l]
    ensures |ids| <= n
  {
    if n == 0 then []
    else
      var prev := IdsUpTo(rows, w, n - 1);
      assert forall k :: 0 <= k < |prev| ==> prev[k] in prev;
      prev + (if Matches(w, n, rows[n - 1]) then [n] else [])
  }

  /** `SELECT id FROM cards WHERE <w>`, in id order. */
  function Ids(rows: seq<CardRow>, w: Where): (ids: seq<int>)
    ensures forall id :: id in ids <==> Has(rows, w, id)
    ensures Distinct(ids) && AllValid(rows, ids)
    ensures |ids| <= |rows|
  {
    IdsUpTo(rows, w, |rows|)
  }

  function Count(rows: seq<CardRow>, w: Where): (n: nat)
    ensures n <= |rows|
  {
    |Ids(rows, w)|
  }

  // ---------------------------------------------------------------------------
  // ORDER BY location [LIMIT n]

  /** Row a sorts before row b: lower location first; equal locations by id. */
  predicate Before(rows: seq<CardRow>, a: int, b: int)
    requires ValidId(rows, a) && ValidId(rows, b)
  {
    At(rows, a).location < At(rows, b).location
    || (At(rows, a).location == At(rows, b).location && a < b)
  }

  /** The index of the first row of `ORDER BY location` among ids. */
  function LowestIndex(rows: seq<CardRow>, ids: seq<int>): (k: nat)
    requires ids != [] && AllValid(rows, ids)
    ensures k < |ids|
    ensures forall j :: 0 <= j < |ids| && ids[j] != ids[k] ==> Before(rows, ids[k], ids[j])
  {
    if |ids| == 1 then 0
    else
      var k := LowestIndex(rows, ids[1..]) + 1;
      if Before(rows, ids[0], ids[k]) then 0 else k
  }

  function Min(a: int, b: int): int
  {
    if a <= b then a else b
  }

  /** Removing the element at index k of a list without duplicates. */
  lemma RemoveAt(rows: seq<CardRow>, ids: seq<int>, k: nat)
    requires Distinct(ids) && AllValid(rows, ids) && k < |ids|
    ensures var rest := ids[..k] + ids[k + 1..];
            && |rest| == |ids| - 1 && Distinct(rest) && AllValid(rows, rest)
            && forall x :: x in rest <==> x in ids && x != ids[k]
  {
    var rest := ids[..k] + ids[k + 1..];
    assert forall i :: 0 <= i < |rest| ==> rest[i] == if i < k then ids[i] else ids[i + 1];
    forall x ensures x in rest <==> x in ids && x != ids[k] {
      if x in ids && x != ids[k] {
        var j :| 0 <= j < |ids| && ids[j] == x;
        if j < k { assert rest[j] == x; } else { assert rest[j - 1] == x; }
      }
    }
  }

  /** The lowest row followed by the ordered remainder is ordered. */
  lemma OrderStep(rows: seq<CardRow>, ids: seq<int>, limit: nat, k: nat, rest: seq<int>, tail: seq<int>)
    requires Distinct(ids) && AllValid(rows, ids) && limit > 0
    requires k < |ids| && forall j :: 0 <= j < |ids| && ids[j] != ids[k] ==> Before(rows, ids[k], ids[j])
    requires |rest| == |ids| - 1 && forall x :: x in rest <==> x in ids && x != ids[k]
    requires |tail| == Min(limit - 1, |rest|) && AllValid(rows, tail) && Distinct(tail)
    requires forall x :: x in tail ==> x in rest
    requires forall a, b :: 0 <= a < b < |tail| ==> Before(rows, tail[a], tail[b])
    requires forall x, y :: x in tail && y in rest && y !in tail ==> Before(rows, x, y)
    requires limit - 1 >= |rest| ==> forall x :: x in rest ==> x in tail
    ensures var r := [ids[k]] + tail;
            && |r| == Min(limit, |ids|)
            && (forall x :: x in r ==> x in ids)
            && AllValid(rows, r) && Distinct(r)
            && (forall a, b :: 0 <= a < b < |r| ==> Before(rows, r[a], r[b]))
            && (forall x, y :: x in r && y in ids && y !in r ==> Before(rows, x, y))
            && (limit >= |ids| ==> forall x :: x in ids ==> x in r)
  {
    var r := [ids[k]] + tail;
    assert forall a :: 0 < a < |r| ==> r[a] == tail[a - 1];
    forall a, b | 0 <= a < b < |r| ensures Before(rows, r[a], r[b]) {
      if a == 0 {
        assert r[b] in tail;
      }
    }
    forall x, y | x in r && y in ids && y !in r ensures Before(rows, x, y) {
      var j :| 0 <= j < |ids| && ids[j] == y;
    }
  }

  /**
    `ORDER BY location LIMIT limit` over the rows with the given ids. SQL
    leaves the order of equal locations open; here they are ordered by id.
  */
  function OrderByLocation(rows: seq<CardRow>, ids: seq<int>, limit: nat): (r: seq<int>)
    requires Distinct(ids) && AllValid(rows, ids)
    ensures |r| == Min(limit, |ids|)
    ensures forall x :: x in r ==> x in ids
    ensures AllValid(rows, r) && Distinct(r)
    ensures forall k, l :: 0 <= k < l < |r| ==> Before(rows, r[k], r[l])
    ensures forall x, y :: x in r && y in ids && y !in r ==> Before(rows, x, y)
    ensures limit >= |ids| ==> forall x :: x in ids ==> x in r
    decreases |ids|
  {
    if limit == 0 || ids == [] then []
    else
      var k := LowestIndex(rows, ids);
      var rest := ids[..k] + ids[k + 1..];
      RemoveAt(rows, ids, k);
      var tail := OrderByLocation(rows, rest, limit - 1);
      OrderStep(rows, ids, limit, k, rest, tail);
      [ids[k]] + tail
  }

  // ---------------------------------------------------------------------------
  // Queries

  function CardOf(rows: seq<CardRow>, id: int): (c: GameCard)
    requires ValidId(rows, id)
  {
    GameCard(id, ColorName(At(rows, id).def.color), At(rows, id).def.value)
  }

  function CardsOf(rows: seq<CardRow>, ids: seq<int>): (cards: seq<GameCard>)
    requires AllValid(rows, ids)
    ensures |cards| == |ids|
    ensures forall k :: 0 <= k < |ids| ==> cards[k] == CardOf(rows, ids[k])
  {
    if ids == [] then [] else [CardOf(rows, ids[0])] + CardsOf(rows, ids[1..])
  }

  /** GET_HAND's ids: the cards of game g owned by `owner`, ordered by location. */
  function HandIds(rows: seq<CardRow>, g: int, owner: int): (ids: seq<int>)
    ensures forall id :: id in ids <==> Has(rows, OwnedBy(g, owner), id)
    ensures |ids| == Count(rows, OwnedBy(g, owner))
    ensures AllValid(rows, ids) && Distinct(ids)
    ensures forall k, l :: 0 <= k < l < |ids| ==> Before(rows, ids[k], ids[l])
  {
    OrderByLocation(rows, Ids(rows, OwnedBy(g, owner)), |rows|)
  }

  /** GET_HAND / getHand. */
  function Hand(rows: seq<CardRow>, g: int, owner: int): (hand: seq<GameCard>)
    ensures |hand| == Count(rows, OwnedBy(g, owner))
    ensures forall k :: 0 <= k < |hand| ==> Has(rows, OwnedBy(g, owner), hand[k].id) && hand[k] == CardOf(rows, hand[k].id)
    ensures forall id :: Has(rows, OwnedBy(g, owner), id) ==> exists k :: 0 <= k < |hand| && hand[k].id == id
  {
    CardsOf(rows, HandIds(rows, g, owner))
  }

  /** The first element of `list` whose id is `id` (JavaScript's `find`). */
  function Find(list: seq<GameCard>, id: int): (r: Option<GameCard>)
    ensures r.Some? <==> exists k :: 0 <= k < |list| && list[k].id == id
    ensures r.Some? ==> r.value in list && r.value.id == id
  {
    if list == [] then None
    else if list[0].id == id then Some(list[0])
    else Find(list[1..], id)
  }

  /** A card is found among the cards of a list of ids exactly when its id is listed. */
  lemma FindInCards(rows: seq<CardRow>, ids: seq<int>, id: int)
    requires AllValid(rows, ids)
    ensures Find(CardsOf(rows, ids), id).Some? <==> id in ids
    ensures Find(CardsOf(rows, ids), id).Some? ==> Find(CardsOf(rows, ids), id).value == CardOf(rows, id)
  {
    var cards := CardsOf(rows, ids);
    if id in ids {
      var k :| 0 <= k < |ids| && ids[k] == id;
      assert cards[k].id == id;
    }
    var r := Find(cards, id);
    if r.Some? {
      var k :| 0 <= k < |cards| && cards[k] == r.value;
      assert ids[k] == id;
    }
  }

  /** A card is found in a player's hand exactly when the player owns it in that game. */
  lemma FindInHand(rows: seq<CardRow>, g: int, owner: int, id: int)
    ensures Find(Hand(rows, g, owner), id).Some? <==> Has(rows, OwnedBy(g, owner), id)
    ensures Find(Hand(rows, g, owner), id).Some? ==> Find(Hand(rows, g, owner), id).value == CardOf(rows, id)
  {
    FindInCards(rows, HandIds(rows, g, owner), id);
  }

  /** GET_DECK_COUNT / getDeckCount: the number of cards in the draw pile. */
  function DeckCount(rows: seq<CardRow>, g: int): (n: nat)
    ensures n <= Count(rows, GameOf(g))
  {
    CountMonotone(rows, DrawPileOf(g), GameOf(g), |rows|);
    Count(rows, DrawPileOf(g))
  }

  lemma {:induction false} CountMonotone(rows: seq<CardRow>, v: Where, w: Where, n: nat)
    requires n <= |rows|
    requires forall i :: 0 <= i < |rows| && Matches(v, i + 1, rows[i]) ==> Matches(w, i + 1, rows[i])
    ensures |IdsUpTo(rows, v, n)| <= |IdsUpTo(rows, w, n)|
  {
    if n > 0 {
      CountMonotone(rows, v, w, n - 1);
    }
  }

  /** The owners that GET_HAND_COUNT groups: every non-pool owner of a card of game g. */
  function Holders(rows: seq<CardRow>, g: int): set<int>
  {
    set i | 0 <= i < |rows| && rows[i].game == g && rows[i].owner != Pool :: rows[i].owner
  }

  lemma HolderIff(rows: seq<CardRow>, g: int, o: int)
    ensures o in Holders(rows, g) <==> o != Pool && Count(rows, OwnedBy(g, o)) > 0
  {
    if o in Holders(rows, g) {
      var i :| 0 <= i < |rows| && rows[i].game == g && rows[i].owner != Pool && rows[i].owner == o;
      assert Has(rows, OwnedBy(g, o), i + 1);
    }
    if o != Pool && Count(rows, OwnedBy(g, o)) > 0 {
      var id := Ids(rows, OwnedBy(g, o))[0];
      assert Has(rows, OwnedBy(g, o), id);
      assert rows[id - 1].game == g && rows[id - 1].owner == o;
    }
  }

  /** GET_HAND_COUNT / getHandCount: one count per non-pool owner holding cards of game g. */
  function HandCounts(rows: seq<CardRow>, g: int): (counts: map<int, nat>)
    ensures forall o :: o in counts <==> o != Pool && Count(rows, OwnedBy(g, o)) > 0
    ensures forall o :: o in counts ==> counts[o] == |Hand(rows, g, o)|
  {
    forall o ensures o in Holders(rows, g) <==> o != Pool && Count(rows, OwnedBy(g, o)) > 0 {
      HolderIff(rows, g, o);
    }
    map o | o in Holders(rows, g) :: Count(rows, OwnedBy(g, o))
  }

  /** GET_TOP_Card / getTopCard: the card of the latest move that carries one, with the chosen colour if any. */
  function TopCard(rows: seq<CardRow>, log: seq<Move>, g: int): (top: Option<GameCard>)
    ensures (forall i :: 0 <= i < |log| ==> log[i].cardId.None?) ==> top.None?
    ensures top.Some? <==> LatestCardMove(log).Some? && Has(rows, GameOf(g), LatestCardMove(log).value.cardId.value)
    ensures top.Some? ==> LatestCardMove(log).Some? && top.value.id == LatestCardMove(log).value.cardId.value
    ensures top.Some? ==> Has(rows, GameOf(g), top.value.id)
    ensures top.Some? ==> top.value.value == At(rows, top.value.id).def.value
    ensures top.Some? ==> top.value.color == match LatestCardMove(log).value.chosenColor
                                           case Some(c) => c
                                           case None => ColorName(At(rows, top.value.id).def.color)
  {
    match LatestCardMove(log)
    case None => None
    case Some(m) =>
      var id := m.cardId.value;
      if ValidId(rows, id) && At(rows, id).game == g then
        var color := match m.chosenColor case Some(c) => c case None => ColorName(At(rows, id).def.color);
        Some(GameCard(id, color, At(rows, id).def.value))
      else None
  }

  /**
    A played card of the game becomes the top card, reported in the chosen
    colour if one was chosen and in its own colour otherwise; a card from
    another game hides the top card; moves without a card do not change it.
  */
  lemma TopCardAfterMove(rows: seq<CardRow>, log: seq<Move>, g: int, m: Move)
    ensures m.cardId.None? ==> TopCard(rows, log + [m], g) == TopCard(rows, log, g)
    ensures m.cardId.Some? && Has(rows, GameOf(g), m.cardId.value) && m.chosenColor.Some?
            ==> TopCard(rows, log + [m], g) == Some(GameCard(m.cardId.value, m.chosenColor.value, At(rows, m.cardId.value).def.value))
    ensures m.cardId.Some? && Has(rows, GameOf(g), m.cardId.value) && m.chosenColor.None?
            ==> TopCard(rows, log + [m], g)
                == Some(GameCard(m.cardId.value, ColorName(At(rows, m.cardId.value).def.color), At(rows, m.cardId.value).def.value))
    ensures m.cardId.Some? && !Has(rows, GameOf(g), m.cardId.value) ==> TopCard(rows, log + [m], g).None?
  {
    LatestCardMoveAppend(log, m);
  }

  /** COALESCE(MAX(location), 0) over the draw pile of game g, among the first n rows. */
  function MaxPileLocationUpTo(rows: seq<CardRow>, g: int, n: nat): (m: int)
    requires n <= |rows|
    ensures m >= 0
    ensures forall i :: 0 <= i < n && InDrawPile(rows[i], g) ==> rows[i].location <= m
    ensures (forall i :: 0 <= i < n ==> !InDrawPile(rows[i], g)) ==> m == 0
    ensures m > 0 ==> exists i :: 0 <= i < n && InDrawPile(rows[i], g) && rows[i].location == m
  {
    if n == 0 then 0
    else
      var m := MaxPileLocationUpTo(rows, g, n - 1);
      if InDrawPile(rows[n - 1], g) && rows[n - 1].location > m then rows[n - 1].location else m
  }

  function MaxPileLocation(rows: seq<CardRow>, g: int): int
  {
    MaxPileLocationUpTo(rows, g, |rows|)
  }

  // ---------------------------------------------------------------------------
  // Updates, as functions of the rows before the statement

  /**
    No update adds, removes or re-identifies a card: the same ids hold the
    same definitions in the same games.
  */
  predicate SameCards(a: seq<CardRow>, b: seq<CardRow>)
  {
    |a| == |b| && forall i :: 0 <= i < |a| ==> a[i].game == b[i].game && a[i].def == b[i].def
  }

  /** CREATE_DECK's INSERT: one pool row of game g per deck card, at the location the shuffle gave it. */
  function DeckRows(g: int, deck: seq<CardDef>, locations: seq<int>): (r: seq<CardRow>)
    requires |locations| == |deck|
    ensures |r| == |deck|
  {
    seq(|deck|, i requires 0 <= i < |deck| => CardRow(g, deck[i], Pool, locations[i]))
  }

  /** ROW_NUMBER() OVER (ORDER BY RANDOM()): each of 1..n exactly once. */
  predicate IsLocationOrder(locations: seq<int>, n: nat)
  {
    |locations| == n
    && (forall i :: 0 <= i < n ==> 1 <= locations[i] <= n)
    && Distinct(locations)
  }

  /** The ids DRAW_CARDS's subquery selects: the `count` lowest-located draw-pile cards. */
  function DrawSelection(rows: seq<CardRow>, g: int, count: nat): (ids: seq<int>)
    ensures |ids| == Min(count, DeckCount(rows, g))
    ensures AllValid(rows, ids) && Distinct(ids)
    ensures forall id :: id in ids ==> InDrawPile(At(rows, id), g)
    ensures forall x, y :: x in ids && Has(rows, DrawPileOf(g), y) && y !in ids
                           ==> At(rows, x).location <= At(rows, y).location
  {
    OrderByLocation(rows, Ids(rows, DrawPileOf(g)), count)
  }

  /** `UPDATE cards SET owner_id = owner WHERE id IN ids AND game_id = g`. */
  function SetOwner(rows: seq<CardRow>, ids: seq<int>, g: int, owner: int): (r: seq<CardRow>)
    ensures SameCards(rows, r)
    ensures forall i :: 0 <= i < |rows| ==> r[i].location == rows[i].location
  {
    seq(|rows|, i requires 0 <= i < |rows| =>
      if (i + 1) in ids && rows[i].game == g then rows[i].(owner := owner) else rows[i])
  }

  /** PLAY_CARD's WHERE clause. */
  predicate Playable(rows: seq<CardRow>, id: int, g: int, player: int)
  {
    ValidId(rows, id) && At(rows, id).game == g && At(rows, id).owner == player
  }

  /** PLAY_CARD: the card moves to the discard pile when the player holds it in game g. */
  function AfterPlay(rows: seq<CardRow>, id: int, g: int, player: int): (r: seq<CardRow>)
    ensures SameCards(rows, r)
    ensures Placed(rows) ==> Placed(r)
    ensures !Playable(rows, id, g, player) ==> r == rows
    ensures Playable(rows, id, g, player) ==>
              && At(r, id).owner == Pool && At(r, id).location == DiscardLocation
              && forall other :: ValidId(rows, other) && other != id ==> At(r, other) == At(rows, other)
  {
    if Playable(rows, id, g, player)
    then rows[id - 1 := rows[id - 1].(owner := Pool, location := DiscardLocation)]
    else rows
  }

  /**
    Recycle_Discard_into_Draw_Deck. The scalar subquery aggregates the draw
    pile to a single row, so its ROW_NUMBER() is 1 and every recycled card
    gets the same location, one past the highest draw-pile location. When no
    move carries a card, `id <> NULL` holds for no row and nothing changes.
  */
  function Recycled(rows: seq<CardRow>, log: seq<Move>, g: int): (r: seq<CardRow>)
    ensures SameCards(rows, r)
    ensures forall i :: 0 <= i < |rows| ==> r[i].owner == rows[i].owner
    ensures Placed(rows) ==> Placed(r)
  {
    match LatestCardMove(log)
    case None => rows
    case Some(m) =>
      var top := m.cardId.value;
      var location := MaxPileLocation(rows, g) + 1;
      seq(|rows|, i requires 0 <= i < |rows| =>
        if Matches(RecyclableOf(g, top), i + 1, rows[i]) then rows[i].(location := location) else rows[i])
  }

  // ---------------------------------------------------------------------------
  // Counting

  /** The ids satisfying w, as a set. */
  function IdSet(rows: seq<CardRow>, w: Where): set<int>
  {
    set id | 1 <= id <= |rows| && Has(rows, w, id)
  }

  function ElementsOf(s: seq<int>): set<int>
  {
    set x | x in s
  }

  lemma {:induction false} DistinctCard(s: seq<int>)
    requires Distinct(s)
    ensures |ElementsOf(s)| == |s|
  {
    if s != [] {
      DistinctCard(s[1..]);
      assert ElementsOf(s) == {s[0]} + ElementsOf(s[1..]);
      assert s[0] !in s[1..];
    }
  }

  /** A count is the size of the set of matching ids. */
  lemma CountIsCard(rows: seq<CardRow>, w: Where)
    ensures Count(rows, w) == |IdSet(rows, w)|
  {
    DistinctCard(Ids(rows, w));
    assert ElementsOf(Ids(rows, w)) == IdSet(rows, w);
  }

  /** Rows that agree on every filter decision agree on the count. */
  lemma SameMatchesSameCount(a: seq<CardRow>, b: seq<CardRow>, v: Where, w: Where)
    requires |a| == |b|
    requires forall i :: 0 <= i < |a| ==> (Matches(v, i + 1, a[i]) <==> Matches(w, i + 1, b[i]))
    ensures Count(a, v) == Count(b, w)
  {
    CountIsCard(a, v);
    CountIsCard(b, w);
    assert IdSet(a, v) == IdSet(b, w);
  }

  /** Card conservation: every update keeps the number of cards of each game. */
  lemma SameCardsSameGameCount(a: seq<CardRow>, b: seq<CardRow>, g: int)
    requires SameCards(a, b)
    ensures Count(a, GameOf(g)) == Count(b, GameOf(g))
  {
    SameMatchesSameCount(a, b, GameOf(g), GameOf(g));
  }

  lemma {:induction false} PartitionUpTo(rows: seq<CardRow>, g: int, n: nat)
    requires Placed(rows) && n <= |rows|
    ensures |IdsUpTo(rows, GameOf(g), n)|
            == |IdsUpTo(rows, DrawPileOf(g), n)| + |IdsUpTo(rows, DiscardOf(g), n)| + |IdsUpTo(rows, HeldIn(g), n)|
  {
    if n > 0 {
      PartitionUpTo(rows, g, n - 1);
    }
  }

  /** Every card of a game is in exactly one place: the draw pile, the discard pile or a hand. */
  lemma Partition(rows: seq<CardRow>, g: int)
    requires Placed(rows)
    ensures Count(rows, GameOf(g)) == DeckCount(rows, g) + Count(rows, DiscardOf(g)) + Count(rows, HeldIn(g))
  {
    PartitionUpTo(rows, g, |rows|);
  }

  /** The ids lo+1 .. lo+n. */
  function Span(lo: int, n: nat): (ids: set<int>)
    ensures forall id :: id in ids <==> lo < id <= lo + n
    ensures |ids| == n
  {
    if n == 0 then {} else Span(lo, n - 1) + {lo + n}
  }

  /**
    CREATE_DECK for a game that has no cards yet: the game then has exactly
    the deck's cards, all in its draw pile, none held, none discarded, with
    the deck's definitions in order.
  */
  lemma NewDeck(rows: seq<CardRow>, g: int, deck: seq<CardDef>, locations: seq<int>)
    requires forall i :: 0 <= i < |rows| ==> rows[i].game != g
    requires IsLocationOrder(locations, |deck|)
    ensures var r := rows + DeckRows(g, deck, locations);
            && Count(r, GameOf(g)) == |deck|
            && DeckCount(r, g) == |deck|
            && Count(r, HeldIn(g)) == 0
            && Count(r, DiscardOf(g)) == 0
            && forall k :: 0 <= k < |deck| ==> At(r, |rows| + k + 1).def == deck[k]
  {
    var r := rows + DeckRows(g, deck, locations);
    CountIsCard(r, GameOf(g));
    CountIsCard(r, DrawPileOf(g));
    CountIsCard(r, HeldIn(g));
    CountIsCard(r, DiscardOf(g));
    NewDeckSets(rows, g, deck, locations);
  }

  lemma NewDeckSets(rows: seq<CardRow>, g: int, deck: seq<CardDef>, locations: seq<int>)
    requires forall i :: 0 <= i < |rows| ==> rows[i].game != g
    requires IsLocationOrder(locations, |deck|)
    ensures var r := rows + DeckRows(g, deck, locations);
            && IdSet(r, GameOf(g)) == Span(|rows|, |deck|)
            && IdSet(r, DrawPileOf(g)) == Span(|rows|, |deck|)
            && IdSet(r, HeldIn(g)) == {}
            && IdSet(r, DiscardOf(g)) == {}
  {
    var r := rows + DeckRows(g, deck, locations);
    forall id
      ensures (id in IdSet(r, GameOf(g)) <==> id in Span(|rows|, |deck|))
      ensures (id in IdSet(r, DrawPileOf(g)) <==> id in Span(|rows|, |deck|))
      ensures id !in IdSet(r, HeldIn(g)) && id !in IdSet(r, DiscardOf(g))
    {
      NewDeckRow(rows, g, deck, locations, id);
    }
  }

  lemma NewDeckRow(rows: seq<CardRow>, g: int, deck: seq<CardDef>, locations: seq<int>, id: int)
    requires forall i :: 0 <= i < |rows| ==> rows[i].game != g
    requires IsLocationOrder(locations, |deck|)
    ensures var r := rows + DeckRows(g, deck, locations);
            && (Has(r, GameOf(g), id) <==> |rows| < id <= |rows| + |deck|)
            && (Has(r, DrawPileOf(g), id) <==> |rows| < id <= |rows| + |deck|)
            && !Has(r, HeldIn(g), id) && !Has(r, DiscardOf(g), id)
  {
    var r := rows + DeckRows(g, deck, locations);
    if 1 <= id <= |rows| {
      assert At(r, id) == rows[id - 1];
    } else if |rows| < id <= |r| {
      var k := id - |rows| - 1;
      assert At(r, id) == CardRow(g, deck[k], Pool, locations[k]);
    }
  }

  /** The deck's rows are all placed in the draw pile. */
  lemma DeckRowsPlaced(rows: seq<CardRow>, g: int, deck: seq<CardDef>, locations: seq<int>)
    requires Placed(rows) && IsLocationOrder(locations, |deck|)
    ensures Placed(rows + DeckRows(g, deck, locations))
  {
    var r := rows + DeckRows(g, deck, locations);
    forall i | 0 <= i < |r| ensures r[i].location > 0 || r[i].location == DiscardLocation {
      if i >= |rows| {
        assert r[i].location == locations[i - |rows|];
      }
    }
  }

  /** The standard deck for a game without cards: 108 cards in the draw pile. */
  lemma NewStandardDeck(rows: seq<CardRow>, g: int, locations: seq<int>)
    requires forall i :: 0 <= i < |rows| ==> rows[i].game != g
    requires IsLocationOrder(locations, |FullDeck(Catalog())|)
    ensures DeckCount(rows + DeckRows(g, FullDeck(Catalog()), locations), g) == 108
    ensures Count(rows + DeckRows(g, FullDeck(Catalog()), locations), GameOf(g)) == 108
  {
    StandardDeckSize();
    NewDeck(rows, g, FullDeck(Catalog()), locations);
  }

  // ---------------------------------------------------------------------------
  // Effects of the updates

  /**
    DEAL_CARDS: afterwards `owner` holds exactly what it held before plus the
    listed cards of game g; every other card keeps its row, and no location
    changes.
  */
  lemma DealEffect(rows: seq<CardRow>, ids: seq<int>, g: int, owner: int)
    ensures var r := SetOwner(rows, ids, g, owner);
            && (forall id :: Has(r, OwnedBy(g, owner), id)
                             <==> Has(rows, OwnedBy(g, owner), id) || (id in ids && Has(rows, GameOf(g), id)))
            && (forall id :: ValidId(rows, id) && !(id in ids && Has(rows, GameOf(g), id)) ==> At(r, id) == At(rows, id))
  {
  }

  /** Drawing to the pool changes nothing: the drawn cards already belong to owner 0. */
  lemma DrawToPoolIsNoOp(rows: seq<CardRow>, g: int, count: nat)
    ensures SetOwner(rows, DrawSelection(rows, g, count), g, Pool) == rows
  {
    var ids := DrawSelection(rows, g, count);
    var r := SetOwner(rows, ids, g, Pool);
    forall i | 0 <= i < |rows| ensures r[i] == rows[i] {
      if (i + 1) in ids && rows[i].game == g {
        assert InDrawPile(At(rows, i + 1), g);
      }
    }
  }

  /** DRAW_CARDS for a player leaves every other player's hand as it was. */
  lemma DrawKeepsOtherHand(rows: seq<CardRow>, g: int, player: int, count: nat, other: int)
    requires other != player && other != Pool
    ensures Count(SetOwner(rows, DrawSelection(rows, g, count), g, player), OwnedBy(g, other)) == Count(rows, OwnedBy(g, other))
  {
    var ids := DrawSelection(rows, g, count);
    var r := SetOwner(rows, ids, g, player);
    forall i | 0 <= i < |rows|
      ensures Matches(OwnedBy(g, other), i + 1, rows[i]) <==> Matches(OwnedBy(g, other), i + 1, r[i])
    {
      if (i + 1) in ids && rows[i].game == g {
        assert InDrawPile(At(rows, i + 1), g);
      }
    }
    SameMatchesSameCount(rows, r, OwnedBy(g, other), OwnedBy(g, other));
  }

  /** DRAW_CARDS for a player leaves the discard pile as it was: the drawn cards come from the draw pile. */
  lemma DrawKeepsDiscard(rows: seq<CardRow>, g: int, player: int, count: nat)
    requires player != Pool
    ensures Count(SetOwner(rows, DrawSelection(rows, g, count), g, player), DiscardOf(g)) == Count(rows, DiscardOf(g))
  {
    var ids := DrawSelection(rows, g, count);
    var r := SetOwner(rows, ids, g, player);
    forall i | 0 <= i < |rows|
      ensures Matches(DiscardOf(g), i + 1, rows[i]) <==> Matches(DiscardOf(g), i + 1, r[i])
    {
      if (i + 1) in ids && rows[i].game == g {
        assert InDrawPile(At(rows, i + 1), g);
      }
    }
    SameMatchesSameCount(rows, r, DiscardOf(g), DiscardOf(g));
  }

  /**
    PLAY_CARD for the pool on a draw-pile card: the card leaves the draw
    pile for the discard pile.
  */
  lemma PoolPlayEffect(rows: seq<CardRow>, id: int, g: int)
    requires Has(rows, DrawPileOf(g), id)
    ensures var r := AfterPlay(rows, id, g, Pool);
            && InDiscard(At(r, id), g)
            && DeckCount(r, g) == DeckCount(rows, g) - 1
            && Count(r, DiscardOf(g)) == Count(rows, DiscardOf(g)) + 1
  {
    var r := AfterPlay(rows, id, g, Pool);
    assert forall x :: Has(rows, DrawPileOf(g), x) <==> Has(r, DrawPileOf(g), x) || x in {id};
    CountGrows(r, DrawPileOf(g), rows, DrawPileOf(g), {id});
    assert forall x :: Has(r, DiscardOf(g), x) <==> Has(rows, DiscardOf(g), x) || x in {id};
    CountGrows(rows, DiscardOf(g), r, DiscardOf(g), {id});
  }

  /** A filter gains exactly the ids `added`, which it did not have before. */
  lemma CountGrows(a: seq<CardRow>, v: Where, b: seq<CardRow>, w: Where, added: set<int>)
    requires forall id :: Has(b, w, id) <==> Has(a, v, id) || id in added
    requires forall id :: id in added ==> !Has(a, v, id)
    ensures Count(b, w) == Count(a, v) + |added|
  {
    CountIsCard(a, v);
    CountIsCard(b, w);
    assert IdSet(b, w) == IdSet(a, v) + added;
  }

  /** Giving draw-pile cards to a player: each leaves the pile and joins the hand. */
  lemma GiveFromPile(rows: seq<CardRow>, ids: seq<int>, g: int, player: int, id: int)
    requires player != Pool
    requires forall x :: x in ids ==> Has(rows, DrawPileOf(g), x)
    ensures Has(rows, DrawPileOf(g), id) <==> Has(SetOwner(rows, ids, g, player), DrawPileOf(g), id) || id in ids
    ensures Has(SetOwner(rows, ids, g, player), OwnedBy(g, player), id) <==> Has(rows, OwnedBy(g, player), id) || id in ids
  {
  }

  /**
    DRAW_CARDS for a player: the selected cards leave the draw pile for the
    player's hand, so the draw pile shrinks and the hand grows by the number
    drawn, which is min(count, deck count); their locations do not change.
  */
  lemma DrawEffect(rows: seq<CardRow>, g: int, player: int, count: nat)
    requires player != Pool
    ensures var ids := DrawSelection(rows, g, count);
            var r := SetOwner(rows, ids, g, player);
            && DeckCount(r, g) == DeckCount(rows, g) - |ids|
            && Count(r, OwnedBy(g, player)) == Count(rows, OwnedBy(g, player)) + |ids|
            && (forall id :: id in ids ==> Has(r, OwnedBy(g, player), id) && At(r, id).location == At(rows, id).location)
  {
    var ids := DrawSelection(rows, g, count);
    var r := SetOwner(rows, ids, g, player);
    DistinctCard(ids);
    forall id ensures Has(rows, DrawPileOf(g), id) <==> Has(r, DrawPileOf(g), id) || id in ElementsOf(ids)
              ensures Has(r, OwnedBy(g, player), id) <==> Has(rows, OwnedBy(g, player), id) || id in ElementsOf(ids)
    {
      GiveFromPile(rows, ids, g, player, id);
    }
    CountGrows(r, DrawPileOf(g), rows, DrawPileOf(g), ElementsOf(ids));
    CountGrows(rows, OwnedBy(g, player), r, OwnedBy(g, player), ElementsOf(ids));
  }

  /**
    PLAY_CARD that updates a row: the card goes from the player's hand to
    the discard pile and nothing else changes, so the hand shrinks by one
    and the discard pile grows by one.
  */
  lemma PlayEffect(rows: seq<CardRow>, id: int, g: int, player: int)
    requires Playable(rows, id, g, player) && player != Pool
    ensures var r := AfterPlay(rows, id, g, player);
            && InDiscard(At(r, id), g)
            && (forall other :: ValidId(rows, other) && other != id ==> At(r, other) == At(rows, other))
            && Count(r, OwnedBy(g, player)) == Count(rows, OwnedBy(g, player)) - 1
            && Count(r, DiscardOf(g)) == Count(rows, DiscardOf(g)) + 1
  {
    var r := AfterPlay(rows, id, g, player);
    assert forall x :: Has(rows, OwnedBy(g, player), x) <==> Has(r, OwnedBy(g, player), x) || x in {id};
    CountGrows(r, OwnedBy(g, player), rows, OwnedBy(g, player), {id});
    assert forall x :: Has(r, DiscardOf(g), x) <==> Has(rows, DiscardOf(g), x) || x in {id};
    CountGrows(rows, DiscardOf(g), r, DiscardOf(g), {id});
  }

  /** PLAY_CARD leaves every other player's hand as it was. */
  lemma PlayKeepsOtherHands(rows: seq<CardRow>, id: int, g: int, player: int, other: int)
    requires other != player && other != Pool
    ensures Count(AfterPlay(rows, id, g, player), OwnedBy(g, other)) == Count(rows, OwnedBy(g, other))
  {
    var r := AfterPlay(rows, id, g, player);
    forall i | 0 <= i < |rows|
      ensures Matches(OwnedBy(g, other), i + 1, rows[i]) <==> Matches(OwnedBy(g, other), i + 1, r[i])
    {
    }
    SameMatchesSameCount(rows, r, OwnedBy(g, other), OwnedBy(g, other));
  }

  /** The draw pile after recycling: the old pile plus the recyclable cards. */
  lemma RecycledJoinPile(rows: seq<CardRow>, log: seq<Move>, g: int)
    requires LatestCardMove(log).Some?
    ensures var top := LatestCardMove(log).value.cardId.value;
            var r := Recycled(rows, log, g);
            forall id :: Has(r, DrawPileOf(g), id) <==> Has(rows, DrawPileOf(g), id) || id in IdSet(rows, RecyclableOf(g, top))
  {
  }

  /**
    Recycle_Discard_into_Draw_Deck once some move carries a card: every
    discarded card of the game except the top card joins the draw pile
    above every card already there, and every other card keeps its row.
  */
  lemma RecycleEffect(rows: seq<CardRow>, log: seq<Move>, g: int)
    requires LatestCardMove(log).Some?
    ensures var top := LatestCardMove(log).value.cardId.value;
            var r := Recycled(rows, log, g);
            && (forall id :: Has(rows, RecyclableOf(g, top), id) ==>
                  InDrawPile(At(r, id), g)
                  && forall y :: Has(rows, DrawPileOf(g), y) ==> At(rows, y).location < At(r, id).location)
            && (forall id :: ValidId(rows, id) && !Has(rows, RecyclableOf(g, top), id) ==> At(r, id) == At(rows, id))
  {
  }

  /** Recycling grows the draw pile by the number of recyclable cards. */
  lemma RecycleCount(rows: seq<CardRow>, log: seq<Move>, g: int)
    requires LatestCardMove(log).Some?
    ensures DeckCount(Recycled(rows, log, g), g)
            == DeckCount(rows, g) + Count(rows, RecyclableOf(g, LatestCardMove(log).value.cardId.value))
  {
    var top := LatestCardMove(log).value.cardId.value;
    RecycledJoinPile(rows, log, g);
    CountIsCard(rows, RecyclableOf(g, top));
    CountGrows(rows, DrawPileOf(g), Recycled(rows, log, g), DrawPileOf(g), IdSet(rows, RecyclableOf(g, top)));
  }

  /** Without a move that carries a card there is no top card and nothing is recycled. */
  lemma RecycleWithoutTop(rows: seq<CardRow>, log: seq<Move>, g: int)
    requires forall i :: 0 <= i < |log| ==> log[i].cardId.None?
    ensures Recycled(rows, log, g) == rows
    ensures TopCard(rows, log, g).None?
  {
  }

  // ---------------------------------------------------------------------------
  // The arena

  class Arena {
    var rows: seq<CardRow>

    ghost predicate Valid()
      reads this
    {
      Placed(rows)
    }

    constructor ()
      ensures Valid() && rows == []
    {
      rows := [];
    }

    /** createDeck / CREATE_DECK: the deck built from the catalog (108 cards for the standard one), all in the draw pile. */
    method CreateDeck(g: int, catalog: seq<CardDef>, locations: seq<int>)
      requires Valid()
      requires IsLocationOrder(locations, |FullDeck(catalog)|)
      modifies this
      ensures Valid()
      ensures rows == old(rows) + DeckRows(g, FullDeck(catalog), locations)
    {
      DeckRowsPlaced(rows, g, FullDeck(catalog), locations);
      rows := rows + DeckRows(g, FullDeck(catalog), locations);
    }

    /** drawCards / DRAW_CARDS: the lowest-located `count` draw-pile cards pass to `player`; their ids are returned. */
    method DrawCards(g: int, player: int, count: nat) returns (ids: seq<int>)
      requires Valid()
      modifies this
      ensures Valid()
      ensures ids == DrawSelection(old(rows), g, count)
      ensures rows == SetOwner(old(rows), ids, g, player)
    {
      ids := DrawSelection(rows, g, count);
      rows := SetOwner(rows, ids, g, player);
    }

    /** DEAL_CARDS: the listed cards of game g pass to `owner`, whoever held them. */
    method DealCards(owner: int, ids: seq<int>, g: int)
      requires Valid()
      modifies this
      ensures Valid()
      ensures rows == SetOwner(old(rows), ids, g, owner)
    {
      rows := SetOwner(rows, ids, g, owner);
    }

    /** playCard / PLAY_CARD: true exactly when a row was updated. */
    method PlayCard(id: int, g: int, player: int) returns (played: bool)
      requires Valid()
      modifies this
      ensures Valid()
      ensures played == Playable(old(rows), id, g, player)
      ensures rows == AfterPlay(old(rows), id, g, player)
    {
      played := Playable(rows, id, g, player);
      rows := AfterPlay(rows, id, g, player);
    }

    /** Recycle_Discard_into_Draw_Deck. */
    method RecycleDiscardPile(g: int, log: seq<Move>)
      requires Valid()
      modifies this
      ensures Valid()
      ensures rows == Recycled(old(rows), log, g)
    {
      rows := Recycled(rows, log, g);
    }
  }
}
