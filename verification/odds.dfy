/**
 * The odds response of one day and the choice of the day's best bet.
 *
 * The provider answers with a list of games; every game lists bookmakers,
 * every bookmaker lists markets, every market lists outcomes.  The program
 * keeps only the first bookmaker's first market of each game, concatenates
 * those outcome lists in game order into one slate, and picks the outcome
 * with the smallest price, the earliest one when several share it.
 */
module Odds {
  import opened Results

  /** One selectable line: a team and its American-format moneyline price. */
  datatype Outcome = Outcome(name: string, price: int)

  datatype Market = Market(outcomes: seq<Outcome>)

  datatype Bookmaker = Bookmaker(markets: seq<Market>)

  datatype Game = Game(bookmakers: seq<Bookmaker>)

  /** Why no best bet could be produced. */
  datatype SlateError =
    | MissingBookmaker(game: nat)   // `bookmakers[0]` of this game raised
    | MissingMarket(game: nat)      // `markets[0]` of this game raised
    | EmptySlate                    // no outcome at all: there is no price to minimise

  /** `game["bookmakers"][0]["markets"][0]` exists. */
  predicate Indexable(g: Game) {
    |g.bookmakers| > 0 && |g.bookmakers[0].markets| > 0
  }

  predicate AllIndexable(games: seq<Game>) {
    forall i :: 0 <= i < |games| ==> Indexable(games[i])
  }

  /** The outcomes the program reads from one game. */
  function Lines(g: Game): seq<Outcome>
    requires Indexable(g)
  {
    g.bookmakers[0].markets[0].outcomes
  }

  /** The error raised while reading game number `i`. */
  function GameError(g: Game, i: nat): (e: SlateError)
    requires !Indexable(g)
    ensures e.MissingBookmaker? <==> |g.bookmakers| == 0
    ensures !e.EmptySlate? && e.game == i
  {
    if |g.bookmakers| == 0 then MissingBookmaker(i) else MissingMarket(i)
  }

  /** The same error, reported for a list that has one more game in front. */
  function Shift(e: SlateError): SlateError {
    match e
    case MissingBookmaker(i) => MissingBookmaker(i + 1)
    case MissingMarket(i) => MissingMarket(i + 1)
    case EmptySlate => EmptySlate
  }

  /** Number of outcomes the slate of `games` holds. */
  function TotalLines(games: seq<Game>): nat
    requires AllIndexable(games)
  {
    if |games| == 0 then 0 else |Lines(games[0])| + TotalLines(games[1..])
  }

  /**
   * The flattening comprehension: the outcome lists of the games, in order.
   * It fails at the first game that has no bookmaker, or whose first
   * bookmaker has no market, naming that game and what was missing.
   */
  function Flatten(games: seq<Game>): (r: Result<seq<Outcome>, SlateError>)
    ensures r.Success? <==> AllIndexable(games)
    ensures r.Failure? ==>
              && !r.error.EmptySlate?
              && r.error.game < |games|
              && !Indexable(games[r.error.game])
              && r.error == GameError(games[r.error.game], r.error.game)
              && forall j :: 0 <= j < r.error.game ==> Indexable(games[j])
  {
    if |games| == 0 then Success([])
    else if !Indexable(games[0]) then Failure(GameError(games[0], 0))
    else
      match Flatten(games[1..])
      case Failure(e) => Failure(Shift(e))
      case Success(rest) => Success(Lines(games[0]) + rest)
  }

  /** The slate of one game is exactly its first bookmaker's first market. */
  lemma {:induction false} FlattenSingle(g: Game)
    requires Indexable(g)
    ensures Flatten([g]) == Success(Lines(g))
  {
    assert [g][1..] == [];
    assert Flatten([g][1..]) == Success([]);
    assert Lines(g) + [] == Lines(g);
  }

  /** Flattening is in-order concatenation: the slate of `a + b` is `a`'s followed by `b`'s. */
  lemma {:induction false} FlattenAppend(a: seq<Game>, b: seq<Game>)
    requires AllIndexable(a) && AllIndexable(b)
    ensures Flatten(a + b) == Success(Flatten(a).value + Flatten(b).value)
  {
    if |a| == 0 {
      assert a + b == b;
      assert Flatten(a).value + Flatten(b).value == Flatten(b).value;
    } else {
      assert (a + b)[0] == a[0];
      assert (a + b)[1..] == a[1..] + b;
      FlattenAppend(a[1..], b);
      assert Flatten(a).value == Lines(a[0]) + Flatten(a[1..]).value;
      assert Flatten(a + b).value == Lines(a[0]) + Flatten(a[1..] + b).value;
      assert Lines(a[0]) + (Flatten(a[1..]).value + Flatten(b).value)
          == (Lines(a[0]) + Flatten(a[1..]).value) + Flatten(b).value;
    }
  }

  /** The slate holds as many outcomes as the games' first markets together. */
  lemma {:induction false} FlattenLength(games: seq<Game>)
    requires AllIndexable(games)
    ensures |Flatten(games).value| == TotalLines(games)
  {
    if |games| > 0 {
      FlattenLength(games[1..]);
    }
  }

  /** An outcome is on the slate exactly when some game's first market lists it. */
  lemma {:induction false} FlattenMembers(games: seq<Game>, o: Outcome)
    requires AllIndexable(games)
    ensures o in Flatten(games).value <==> exists i :: 0 <= i < |games| && o in Lines(games[i])
  {
    if |games| > 0 {
      FlattenMembers(games[1..], o);
      if o in Flatten(games[1..]).value {
        var i :| 0 <= i < |games[1..]| && o in Lines(games[1..][i]);
        assert o in Lines(games[i + 1]);
      }
      if exists i :: 0 <= i < |games| && o in Lines(games[i]) {
        var i :| 0 <= i < |games| && o in Lines(games[i]);
        if i > 0 {
          assert o in Lines(games[1..][i - 1]);
        }
      }
    }
  }

  /**
   * Bookmakers after the first, and markets after the first, never reach the
   * slate: games that agree on their first market's outcomes give the same slate.
   */
  lemma {:induction false} FlattenIgnoresOtherBooks(a: seq<Game>, b: seq<Game>)
    requires AllIndexable(a) && AllIndexable(b) && |a| == |b|
    requires forall i :: 0 <= i < |a| ==> Lines(a[i]) == Lines(b[i])
    ensures Flatten(a) == Flatten(b)
  {
    if |a| > 0 {
      FlattenIgnoresOtherBooks(a[1..], b[1..]);
    }
  }

  /**
   * `k` is where a first-occurrence `idxmin` on the prices lands: no price
   * is below `s[k]`'s, and every earlier price is strictly above it.
   */
  predicate IsFirstMin(s: seq<Outcome>, k: int) {
    && 0 <= k < |s|
    && (forall j :: 0 <= j < |s| ==> s[k].price <= s[j].price)
    && (forall j :: 0 <= j < k ==> s[k].price < s[j].price)
  }

  /** The first-occurrence minimum is unique, so `IsFirstMin` pins the selection down. */
  lemma {:induction false} FirstMinUnique(s: seq<Outcome>, k1: int, k2: int)
    requires IsFirstMin(s, k1) && IsFirstMin(s, k2)
    ensures k1 == k2
  {
    // Both are minima, so they carry the same price; neither can then lie
    // strictly before the other.
    assert s[k1].price == s[k2].price;
  }

  /** Position of the cheapest outcome, the earliest one on a tie. */
  function FirstMinIndex(s: seq<Outcome>): (k: nat)
    requires |s| > 0
    ensures IsFirstMin(s, k)
  {
    if |s| == 1 then 0
    else
      var init := s[..|s| - 1];
      var k := FirstMinIndex(init);
      assert forall j :: 0 <= j < |init| ==> init[j] == s[j];
      if s[|s| - 1].price < s[k].price then |s| - 1 else k
  }

  /** `o` is the record `spreads.loc[spreads.price.idxmin()]` of slate `s`. */
  ghost predicate IsBestBet(s: seq<Outcome>, o: Outcome) {
    exists k :: IsFirstMin(s, k) && s[k] == o
  }

  /** The best bet of a slate; a slate with no outcome has none. */
  function SelectBest(slate: seq<Outcome>): (r: Result<Outcome, SlateError>)
    ensures r.Failure? <==> |slate| == 0
    ensures r.Failure? ==> r.error == EmptySlate
    ensures r.Success? ==> r.value in slate
    ensures r.Success? ==> forall o :: o in slate ==> r.value.price <= o.price
    ensures r.Success? ==> IsBestBet(slate, r.value)
  {
    if |slate| == 0 then Failure(EmptySlate)
    else
      var k := FirstMinIndex(slate);
      Success(slate[k])
  }

  /** The best bet of a whole response: flatten, then select. */
  function BestBet(games: seq<Game>): (r: Result<Outcome, SlateError>)
    ensures r.Success? ==> Flatten(games).Success? && IsBestBet(Flatten(games).value, r.value)
    ensures r == Failure(EmptySlate) <==> AllIndexable(games) && TotalLines(games) == 0
    ensures r.Failure? && !r.error.EmptySlate? <==> !AllIndexable(games)
  {
    match Flatten(games)
    case Failure(e) => Failure(e)
    case Success(slate) =>
      FlattenLength(games);
      SelectBest(slate)
  }

  /** The three-team example: the most negative price wins. */
  lemma {:induction false} ThreeTeamExample()
    ensures SelectBest([Outcome("A", -150), Outcome("B", 130), Outcome("C", -200)])
            == Success(Outcome("C", -200))
  {
    var s := [Outcome("A", -150), Outcome("B", 130), Outcome("C", -200)];
    assert IsFirstMin(s, 2);
    FirstMinUnique(s, 2, FirstMinIndex(s));
  }

  /** Two teams at the same price: the earlier one is selected. */
  lemma {:induction false} TieExample()
    ensures SelectBest([Outcome("A", -150), Outcome("B", -150)]) == Success(Outcome("A", -150))
  {
    var s := [Outcome("A", -150), Outcome("B", -150)];
    assert IsFirstMin(s, 0);
    FirstMinUnique(s, 0, FirstMinIndex(s));
  }
}
