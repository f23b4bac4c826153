/**
  Card definitions (the rows of the `deck_cards` catalog) and the multiset of
  definitions that CREATE_DECK materialises for one game.

  CREATE_DECK builds its `full_deck` as the UNION ALL of five SELECTs over the
  catalog, each joined with `generate_series(1, k)` to make k copies of every
  row it selects. `FullDeck` below is that union, over any catalog; `Catalog`
  is the standard set of 54 definitions, and the lemmas at the end prove that
  it yields the 108-card deck.
*/
module Cards {

  datatype Color = Red | Blue | Green | Yellow | Wild

  /** The text stored in `deck_cards.color`; the top card's colour is compared as text. */
  function ColorName(c: Color): string
  {
    match c
    case Red => "red"
    case Blue => "blue"
    case Green => "green"
    case Yellow => "yellow"
    case Wild => "wild"
  }

  /** Only the wild colour is reported as "wild". */
  lemma WildName(c: Color)
    ensures ColorName(c) == "wild" <==> c == Wild
  {
  }

  datatype Value = Digit(d: nat) | SkipCard | ReverseCard | DrawTwoCard | WildCard | WildDrawFourCard

  datatype CardDef = CardDef(color: Color, value: Value)

  /** True for the values `skip`, `reverse` and `draw_two`. */
  predicate IsAction(v: Value)
  {
    v == SkipCard || v == ReverseCard || v == DrawTwoCard
  }

  /** The five SELECTs of the `full_deck` CTE, in the order they are united. */
  datatype Clause = ZeroClause | NumberClause | ActionClause | WildClause | WildDrawFourClause

  /** The WHERE condition of each SELECT. */
  predicate Selects(k: Clause, d: CardDef)
  {
    match k
    case ZeroClause => d.value == Digit(0) && d.color != Wild
    case NumberClause => d.value.Digit? && 1 <= d.value.d <= 9 && d.color != Wild
    case ActionClause => IsAction(d.value) && d.color != Wild
    case WildClause => d.value == WildCard && d.color == Wild
    case WildDrawFourClause => d.value == WildDrawFourCard && d.color == Wild
  }

  /** No definition passes two WHERE clauses, so UNION ALL never adds a definition from two SELECTs. */
  lemma ClausesExclusive(d: CardDef, k1: Clause, k2: Clause)
    requires Selects(k1, d) && Selects(k2, d)
    ensures k1 == k2
  {
  }

  /** The upper bound of the `generate_series` each SELECT is joined with (1 when it has none). */
  function ClauseCopies(k: Clause): nat
  {
    match k
    case ZeroClause => 1
    case NumberClause => 2
    case ActionClause => 2
    case WildClause => 4
    case WildDrawFourClause => 4
  }

  function Repeat(d: CardDef, n: nat): (r: seq<CardDef>)
    ensures |r| == n
    ensures forall i :: 0 <= i < n ==> r[i] == d
  {
    if n == 0 then [] else [d] + Repeat(d, n - 1)
  }

  /** The rows one SELECT contributes: each selected catalog row, ClauseCopies(k) times. */
  function ClauseRows(catalog: seq<CardDef>, k: Clause): (r: seq<CardDef>)
    ensures forall x :: x in r ==> x in catalog && Selects(k, x)
  {
    if catalog == [] then []
    else (if Selects(k, catalog[0]) then Repeat(catalog[0], ClauseCopies(k)) else [])
         + ClauseRows(catalog[1..], k)
  }

  /** The `full_deck` CTE: the UNION ALL of the five SELECTs. */
  function FullDeck(catalog: seq<CardDef>): (deck: seq<CardDef>)
    ensures forall x :: x in deck ==> x in catalog && Copies(x) > 0
  {
    ClauseRows(catalog, ZeroClause) + ClauseRows(catalog, NumberClause)
    + ClauseRows(catalog, ActionClause) + ClauseRows(catalog, WildClause)
    + ClauseRows(catalog, WildDrawFourClause)
  }

  /**
    How many instances CREATE_DECK makes of one catalog row: one `0` per
    non-wild colour, two of each other non-wild card, four of each wild card,
    none of anything else.
  */
  function Copies(d: CardDef): (c: nat)
    ensures forall k :: Selects(k, d) ==> c == ClauseCopies(k)
    ensures c == 0 <==> forall k :: !Selects(k, d)
  {
    if Selects(ZeroClause, d) then 1
    else if Selects(NumberClause, d) || Selects(ActionClause, d) then 2
    else if Selects(WildClause, d) || Selects(WildDrawFourClause, d) then 4
    else 0
  }

  lemma {:induction false} RepeatMultiplicity(x: CardDef, n: nat, d: CardDef)
    ensures multiset(Repeat(x, n))[d] == if x == d then n else 0
  {
    if n > 0 {
      RepeatMultiplicity(x, n - 1, d);
    }
  }

  lemma ClauseRowsHead(catalog: seq<CardDef>, k: Clause, d: CardDef)
    requires catalog != []
    ensures multiset(ClauseRows(catalog, k))[d]
         == (if Selects(k, catalog[0]) then multiset(Repeat(catalog[0], ClauseCopies(k)))[d] else 0)
          + multiset(ClauseRows(catalog[1..], k))[d]
  {
  }

  lemma MultisetHead(catalog: seq<CardDef>, d: CardDef)
    requires catalog != []
    ensures multiset(catalog)[d] == (if catalog[0] == d then 1 else 0) + multiset(catalog[1..])[d]
  {
    assert catalog == [catalog[0]] + catalog[1..];
  }

  lemma {:induction false} ClauseMultiplicity(catalog: seq<CardDef>, k: Clause, d: CardDef)
    ensures multiset(ClauseRows(catalog, k))[d]
         == if Selects(k, d) then ClauseCopies(k) * multiset(catalog)[d] else 0
  {
    if catalog != [] {
      ClauseRowsHead(catalog, k, d);
      MultisetHead(catalog, d);
      ClauseMultiplicity(catalog[1..], k, d);
      RepeatMultiplicity(catalog[0], ClauseCopies(k), d);
      var m := multiset(catalog[1..])[d];
      assert ClauseCopies(k) * (m + 1) == ClauseCopies(k) * m + ClauseCopies(k);
    }
  }

  lemma FullDeckSplit(catalog: seq<CardDef>, d: CardDef)
    ensures multiset(FullDeck(catalog))[d]
         == multiset(ClauseRows(catalog, ZeroClause))[d] + multiset(ClauseRows(catalog, NumberClause))[d]
          + multiset(ClauseRows(catalog, ActionClause))[d] + multiset(ClauseRows(catalog, WildClause))[d]
          + multiset(ClauseRows(catalog, WildDrawFourClause))[d]
  {
  }

  /** Every catalog row occurs in the deck exactly Copies(row) times per occurrence in the catalog. */
  lemma FullDeckMultiplicity(catalog: seq<CardDef>, d: CardDef)
    ensures multiset(FullDeck(catalog))[d] == multiset(catalog)[d] * Copies(d)
  {
    FullDeckSplit(catalog, d);
    var m := multiset(catalog)[d];
    var n0 := ClauseCount(catalog, ZeroClause, d);
    var n1 := ClauseCount(catalog, NumberClause, d);
    var n2 := ClauseCount(catalog, ActionClause, d);
    var n3 := ClauseCount(catalog, WildClause, d);
    var n4 := ClauseCount(catalog, WildDrawFourClause, d);
    assert multiset(FullDeck(catalog))[d] == n0 + n1 + n2 + n3 + n4;
    CopiesCases(d, m);
  }

  /** Copies(d) is the copy count of the one SELECT that picks d, or 0 when none does. */
  lemma CopiesCases(d: CardDef, m: nat)
    ensures m * Copies(d)
         == (if Selects(ZeroClause, d) then 1 * m else 0) + (if Selects(NumberClause, d) then 2 * m else 0)
          + (if Selects(ActionClause, d) then 2 * m else 0) + (if Selects(WildClause, d) then 4 * m else 0)
          + (if Selects(WildDrawFourClause, d) then 4 * m else 0)
  {
  }

  /** The multiplicity of d among the rows of one SELECT, as a value. */
  lemma ClauseCount(catalog: seq<CardDef>, k: Clause, d: CardDef) returns (n: nat)
    ensures n == multiset(ClauseRows(catalog, k))[d]
    ensures n == if Selects(k, d) then ClauseCopies(k) * multiset(catalog)[d] else 0
  {
    ClauseMultiplicity(catalog, k, d);
    n := multiset(ClauseRows(catalog, k))[d];
  }

  // ---------------------------------------------------------------------------
  // The standard catalog

  /** The rows `0`, `1`, ..., `n-1` of colour c. */
  function DigitRows(c: Color, n: nat): seq<CardDef>
  {
    if n == 0 then [] else DigitRows(c, n - 1) + [CardDef(c, Digit(n - 1))]
  }

  /** The 13 catalog rows of one non-wild colour. */
  function ColorBlock(c: Color): seq<CardDef>
  {
    DigitRows(c, 10) + [CardDef(c, SkipCard), CardDef(c, ReverseCard), CardDef(c, DrawTwoCard)]
  }

  const WildRows: seq<CardDef> := [CardDef(Wild, WildCard), CardDef(Wild, WildDrawFourCard)]

  /** The `deck_cards` catalog: one row per (colour, value) pair, plus wild and wild_draw_four. */
  function Catalog(): seq<CardDef>
  {
    ColorBlock(Red) + ColorBlock(Blue) + ColorBlock(Green) + ColorBlock(Yellow) + WildRows
  }

  /** The definitions that appear in the standard catalog. */
  predicate IsStandard(d: CardDef)
  {
    if d.color == Wild then d.value == WildCard || d.value == WildDrawFourCard
    else IsAction(d.value) || (d.value.Digit? && d.value.d <= 9)
  }

  lemma {:induction false} ClauseRowsAppend(a: seq<CardDef>, b: seq<CardDef>, k: Clause)
    ensures ClauseRows(a + b, k) == ClauseRows(a, k) + ClauseRows(b, k)
  {
    if a == [] {
      assert a + b == b;
    } else {
      assert (a + b)[1..] == a[1..] + b;
      ClauseRowsAppend(a[1..], b, k);
    }
  }

  lemma ClauseRowsSingle(x: CardDef, k: Clause)
    ensures |ClauseRows([x], k)| == if Selects(k, x) then ClauseCopies(k) else 0
  {
    assert [x][1..] == [];
  }

  /** The number of rows each SELECT draws from the block of one non-wild colour. */
  function PerColor(k: Clause): nat
  {
    match k
    case ZeroClause => 1
    case NumberClause => 18
    case ActionClause => 6
    case _ => 0
  }

  lemma {:induction false} DigitRowsCount(c: Color, n: nat, k: Clause)
    requires c != Wild && n <= 10
    ensures |ClauseRows(DigitRows(c, n), k)|
         == if n == 0 then 0
            else if k == ZeroClause then 1
            else if k == NumberClause then 2 * (n - 1)
            else 0
  {
    if n > 0 {
      DigitRowsCount(c, n - 1, k);
      ClauseRowsAppend(DigitRows(c, n - 1), [CardDef(c, Digit(n - 1))], k);
      ClauseRowsSingle(CardDef(c, Digit(n - 1)), k);
    }
  }

  lemma ClauseRowsCountAppend(a: seq<CardDef>, b: seq<CardDef>, k: Clause)
    ensures |ClauseRows(a + b, k)| == |ClauseRows(a, k)| + |ClauseRows(b, k)|
  {
    ClauseRowsAppend(a, b, k);
  }

  lemma ColorBlockSplit(c: Color, k: Clause)
    ensures |ClauseRows(ColorBlock(c), k)|
         == |ClauseRows(DigitRows(c, 10), k)| + |ClauseRows([CardDef(c, SkipCard)], k)|
          + |ClauseRows([CardDef(c, ReverseCard)], k)| + |ClauseRows([CardDef(c, DrawTwoCard)], k)|
  {
    var s, r, t := CardDef(c, SkipCard), CardDef(c, ReverseCard), CardDef(c, DrawTwoCard);
    assert ColorBlock(c) == DigitRows(c, 10) + ([s] + ([r] + [t]));
    ClauseRowsCountAppend(DigitRows(c, 10), [s] + ([r] + [t]), k);
    ClauseRowsCountAppend([s], [r] + [t], k);
    ClauseRowsCountAppend([r], [t], k);
  }

  lemma ColorBlockCount(c: Color, k: Clause)
    requires c != Wild
    ensures |ClauseRows(ColorBlock(c), k)| == PerColor(k)
  {
    ColorBlockSplit(c, k);
    DigitRowsCount(c, 10, k);
    ClauseRowsSingle(CardDef(c, SkipCard), k);
    ClauseRowsSingle(CardDef(c, ReverseCard), k);
    ClauseRowsSingle(CardDef(c, DrawTwoCard), k);
  }

  lemma WildRowsCount(k: Clause)
    ensures |ClauseRows(WildRows, k)| == if k == WildClause || k == WildDrawFourClause then 4 else 0
  {
    var w, f := CardDef(Wild, WildCard), CardDef(Wild, WildDrawFourCard);
    assert WildRows == [w] + [f];
    ClauseRowsCountAppend([w], [f], k);
    ClauseRowsSingle(w, k);
    ClauseRowsSingle(f, k);
  }

  lemma CatalogSplitCount(k: Clause)
    ensures |ClauseRows(Catalog(), k)|
         == |ClauseRows(ColorBlock(Red), k)| + |ClauseRows(ColorBlock(Blue), k)| + |ClauseRows(ColorBlock(Green), k)|
          + |ClauseRows(ColorBlock(Yellow), k)| + |ClauseRows(WildRows, k)|
  {
    var r, b, g, y := ColorBlock(Red), ColorBlock(Blue), ColorBlock(Green), ColorBlock(Yellow);
    ClauseRowsCountAppend(r, b, k);
    ClauseRowsCountAppend(r + b, g, k);
    ClauseRowsCountAppend(r + b + g, y, k);
    ClauseRowsCountAppend(r + b + g + y, WildRows, k);
  }

  lemma CatalogClauseCount(k: Clause)
    ensures |ClauseRows(Catalog(), k)|
         == 4 * PerColor(k) + (if k == WildClause || k == WildDrawFourClause then 4 else 0)
  {
    CatalogSplitCount(k);
    ColorBlockCount(Red, k);
    ColorBlockCount(Blue, k);
    ColorBlockCount(Green, k);
    ColorBlockCount(Yellow, k);
    WildRowsCount(k);
  }

  /** CREATE_DECK over the standard catalog inserts 108 cards. */
  lemma StandardDeckSize()
    ensures |FullDeck(Catalog())| == 108
  {
    CatalogClauseCount(ZeroClause);
    CatalogClauseCount(NumberClause);
    CatalogClauseCount(ActionClause);
    CatalogClauseCount(WildClause);
    CatalogClauseCount(WildDrawFourClause);
  }

  lemma {:induction false} DigitRowsMultiplicity(c: Color, n: nat, d: CardDef)
    ensures multiset(DigitRows(c, n))[d] == if d.color == c && d.value.Digit? && d.value.d < n then 1 else 0
  {
    if n > 0 {
      DigitRowsMultiplicity(c, n - 1, d);
    }
  }

  /** The three action rows of one colour. */
  lemma ActionRowsMultiplicity(c: Color, d: CardDef)
    ensures multiset([CardDef(c, SkipCard), CardDef(c, ReverseCard), CardDef(c, DrawTwoCard)])[d]
         == if d.color == c && IsAction(d.value) then 1 else 0
  {
  }

  lemma ColorBlockMultiplicity(c: Color, d: CardDef)
    ensures multiset(ColorBlock(c))[d]
         == if d.color == c && (IsAction(d.value) || (d.value.Digit? && d.value.d <= 9)) then 1 else 0
  {
    ColorBlockMultisetSplit(c, d);
    DigitRowsMultiplicity(c, 10, d);
    ActionRowsMultiplicity(c, d);
    var digits := if d.color == c && d.value.Digit? && d.value.d < 10 then 1 else 0;
    var actions := if d.color == c && IsAction(d.value) then 1 else 0;
    assert multiset(ColorBlock(c))[d] == digits + actions;
  }

  lemma ColorBlockMultisetSplit(c: Color, d: CardDef)
    ensures multiset(ColorBlock(c))[d]
         == multiset(DigitRows(c, 10))[d] + multiset([CardDef(c, SkipCard), CardDef(c, ReverseCard), CardDef(c, DrawTwoCard)])[d]
  {
    var actions := [CardDef(c, SkipCard), CardDef(c, ReverseCard), CardDef(c, DrawTwoCard)];
    assert multiset(DigitRows(c, 10) + actions) == multiset(DigitRows(c, 10)) + multiset(actions);
  }

  lemma WildRowsMultiplicity(d: CardDef)
    ensures multiset(WildRows)[d] == if d.color == Wild && (d.value == WildCard || d.value == WildDrawFourCard) then 1 else 0
  {
  }

  lemma CatalogSplit(d: CardDef)
    ensures multiset(Catalog())[d]
         == multiset(ColorBlock(Red))[d] + multiset(ColorBlock(Blue))[d] + multiset(ColorBlock(Green))[d]
          + multiset(ColorBlock(Yellow))[d] + multiset(WildRows)[d]
  {
  }

  /** Every standard definition occurs exactly once in the catalog, and nothing else does. */
  lemma CatalogMultiplicity(d: CardDef)
    ensures multiset(Catalog())[d] == if IsStandard(d) then 1 else 0
  {
    CatalogSplit(d);
    ColorBlockMultiplicity(Red, d);
    ColorBlockMultiplicity(Blue, d);
    ColorBlockMultiplicity(Green, d);
    ColorBlockMultiplicity(Yellow, d);
    WildRowsMultiplicity(d);
  }

  /** The deck holds each standard definition Copies(d) times and nothing else. */
  lemma StandardDeckComposition(d: CardDef)
    ensures multiset(FullDeck(Catalog()))[d] == if IsStandard(d) then Copies(d) else 0
  {
    FullDeckMultiplicity(Catalog(), d);
    CatalogMultiplicity(d);
  }

  lemma CopiesValues(d: CardDef)
    ensures d.color != Wild && d.value == Digit(0) ==> Copies(d) == 1
    ensures d.color != Wild && (IsAction(d.value) || (d.value.Digit? && 1 <= d.value.d <= 9)) ==> Copies(d) == 2
    ensures d.color == Wild && (d.value == WildCard || d.value == WildDrawFourCard) ==> Copies(d) == 4
  {
  }

  /**
    The standard deck: one `0` per non-wild colour, two of each `1`-`9`, skip,
    reverse and draw_two per non-wild colour, four wild and four wild_draw_four.
  */
  lemma StandardDeckCounts(d: CardDef)
    ensures d.color != Wild && d.value == Digit(0) ==> multiset(FullDeck(Catalog()))[d] == 1
    ensures d.color != Wild && (IsAction(d.value) || (d.value.Digit? && 1 <= d.value.d <= 9))
            ==> multiset(FullDeck(Catalog()))[d] == 2
    ensures d.color == Wild && (d.value == WildCard || d.value == WildDrawFourCard)
            ==> multiset(FullDeck(Catalog()))[d] == 4
    ensures !IsStandard(d) ==> multiset(FullDeck(Catalog()))[d] == 0
  {
    StandardDeckComposition(d);
    CopiesValues(d);
  }
}
