/**
 * The Elo bookkeeping shared by the command-line and the web version of
 * the ranking system: the two dictionaries `elo` and `games_played`, the
 * update after one match, and the ranking report built from them.
 *
 * Ratings are exact reals. The power `10 ** x` of the expected-score
 * formula is a parameter: any function that is positive everywhere and
 * maps 0 to 1, which is all the bookkeeping below relies on.
 */
module Elo {
  import opened Text
  import opened Ranking
  import opened Sequences

  type Positive = x: real | x > 0.0 witness 1.0

  /** A stand-in for `10 ** x`: positive everywhere. */
  type Pow10Fn = real -> Positive

  /** The rating of a dish on its first match. */
  const InitialRating: real := 1500.0

  /** The K-factor `process_matches` uses. */
  const K: real := 32.0

  /** `1 / (1 + 10 ** ((rb - ra) / 400))`: the score a player rated `ra`
      is expected to make against one rated `rb`. */
  function Expected(ra: real, rb: real, pow10: Pow10Fn): real {
    1.0 / (1.0 + pow10((rb - ra) / 400.0))
  }

  /** An expected score is a probability strictly between 0 and 1. */
  lemma ExpectedBounds(ra: real, rb: real, pow10: Pow10Fn)
    ensures 0.0 < Expected(ra, rb, pow10) < 1.0
  {
    var p := pow10((rb - ra) / 400.0);
    assert p > 0.0;
    assert 1.0 + p > 1.0;
  }

  /** Between equal ratings each side is expected to score one half. */
  lemma ExpectedEven(r: real, pow10: Pow10Fn)
    requires pow10(0.0) == 1.0
    ensures Expected(r, r, pow10) == 0.5
  {
    assert (r - r) / 400.0 == 0.0;
  }

  /** The two dictionaries, with the insertion order of `elo` (which
      `elo.items()` follows). */
  datatype Ratings = Ratings(order: seq<string>, elo: map<string, real>, games: map<string, nat>)

  /** `order` lists the keys of `elo` once each, and every rated dish has a
      games entry. */
  ghost predicate Valid(r: Ratings) {
    && Distinct(r.order)
    && (forall d :: d in r.order <==> d in r.elo)
    && r.elo.Keys <= r.games.Keys
  }

  /** Adds `d` at 1500 with 0 games when it has no rating yet. */
  function Seed(r: Ratings, d: string): (s: Ratings)
    ensures s.elo.Keys == r.elo.Keys + {d}
    ensures r.elo.Keys <= r.games.Keys ==> s.elo.Keys <= s.games.Keys
  {
    if d in r.elo then r
    else Ratings(r.order + [d], r.elo[d := InitialRating], r.games[d := 0])
  }

  /** The store once both players are seeded: the one `update_elo` reads
      `Ra` and `Rb` from. */
  function Seeded(r: Ratings, w: string, l: string): (s: Ratings)
    ensures w in s.elo && l in s.elo
    ensures r.elo.Keys <= r.games.Keys ==> s.elo.Keys <= s.games.Keys
  {
    Seed(Seed(r, w), l)
  }

  /** The writes of a match between two rated dishes, `ea` being the
      winner's expected score: the winner's rating gains `k * (1 - ea)`,
      then the loser's gains `k * (0 - eb)` with `eb = 1 - ea`, then each
      games count goes up by one, the winner's first. */
  function Play(s: Ratings, w: string, l: string, k: real, ea: real): Ratings
    requires w in s.elo && l in s.elo && s.elo.Keys <= s.games.Keys
  {
    var ra, rb := s.elo[w], s.elo[l];
    var eb := 1.0 - ea;
    var games := s.games[w := s.games[w] + 1];
    Ratings(s.order, s.elo[w := ra + k * (1.0 - ea)][l := rb + k * (0.0 - eb)], games[l := games[l] + 1])
  }

  /** `Play` as the two new ratings `wa` (winner) and `lb` (loser) written
      into `elo`, `eb` being the loser's expected score, and the two games
      counts, the winner's first, written into `games`. A proof step of
      `EloSystem.RecordMatch`, which writes these fields one at a time. */
  lemma PlayWrites(s: Ratings, w: string, l: string, k: real, ea: real, eb: real, wa: real, lb: real,
                   games: map<string, nat>)
    requires w in s.elo && l in s.elo && s.elo.Keys <= s.games.Keys
    requires eb == 1.0 - ea
    requires wa == s.elo[w] + k * (1.0 - ea) && lb == s.elo[l] + k * (0.0 - eb)
    requires games == s.games[w := s.games[w] + 1][l := s.games[w := s.games[w] + 1][l] + 1]
    ensures Play(s, w, l, k, ea) == Ratings(s.order, s.elo[w := wa][l := lb], games)
  {
    var t := Play(s, w, l, k, ea);
    var elo := s.elo[w := wa][l := lb];
    assert t.elo.Keys == elo.Keys;
    assert forall d :: d in elo ==> t.elo[d] == elo[d];
  }

  /** The rating a dish has when a match starts: its stored one, or 1500. */
  function RatingBefore(r: Ratings, d: string): real {
    if d in r.elo then r.elo[d] else InitialRating
  }

  /** The games a dish has when a match starts: its stored count, or 0. */
  function GamesBefore(r: Ratings, d: string): nat {
    if d in r.elo && d in r.games then r.games[d] else 0
  }

  /** The expected score `update_elo` computes for the winner. */
  function WinnerExpected(r: Ratings, w: string, l: string, pow10: Pow10Fn): real {
    Expected(RatingBefore(r, w), RatingBefore(r, l), pow10)
  }

  /** `update_elo(w, l, k)`: the store after `w` beats `l`. A rated dish
      without a games entry would make `games_played[d] += 1` raise, so
      every rated dish must have one. */
  function AfterMatch(r: Ratings, w: string, l: string, k: real, pow10: Pow10Fn): Ratings
    requires r.elo.Keys <= r.games.Keys
  {
    Play(Seeded(r, w, l), w, l, k, WinnerExpected(r, w, l, pow10))
  }

  // ---------------------------------------------------------------------
  // The steps of a match

  lemma SeedValid(r: Ratings, d: string)
    requires Valid(r)
    ensures Valid(Seed(r, d))
  {
    if d !in r.elo {
      assert forall e :: e in r.order + [d] <==> e in r.order || e == d;
    }
  }

  lemma SeedFrame(r: Ratings, d: string)
    ensures var s := Seed(r, d);
            && s.games.Keys == r.games.Keys + (if d in r.elo then {} else {d})
            && s.order == r.order + (if d in r.elo then [] else [d])
            && (forall e :: e in r.elo ==> s.elo[e] == r.elo[e])
            && (forall e :: e in r.games && e != d ==> s.games[e] == r.games[e])
  {
  }

  /** Seeding both players adds the new ones, in order, at 1500 and 0. */
  lemma SeededFacts(r: Ratings, w: string, l: string)
    requires r.elo.Keys <= r.games.Keys
    ensures var s := Seeded(r, w, l);
            && s.elo[w] == RatingBefore(r, w) && s.elo[l] == RatingBefore(r, l)
            && s.games[w] == GamesBefore(r, w) && s.games[l] == GamesBefore(r, l)
            && s.elo.Keys == r.elo.Keys + {w, l}
            && s.games.Keys == r.games.Keys + {w, l}
            && s.order == r.order + (if w in r.elo then [] else [w])
                          + (if l in r.elo || l == w then [] else [l])
            && (forall d :: d in r.elo ==> s.elo[d] == r.elo[d])
            && (forall d :: d in r.games && d != w && d != l ==> s.games[d] == r.games[d])
  {
    SeedFrame(r, w);
    SeedFrame(Seed(r, w), l);
  }

  lemma PlayFrame(s: Ratings, w: string, l: string, k: real, ea: real)
    requires w in s.elo && l in s.elo && s.elo.Keys <= s.games.Keys
    ensures var t := Play(s, w, l, k, ea);
            && t.order == s.order && t.elo.Keys == s.elo.Keys && t.games.Keys == s.games.Keys
            && (forall e :: e in s.elo && e != w && e != l ==> t.elo[e] == s.elo[e])
            && (forall e :: e in s.games && e != w && e != l ==> t.games[e] == s.games[e])
  {
  }

  /** The players' entries after the writes; when `w == l` the loser's
      writes are the ones that stand. */
  lemma PlayOutcome(s: Ratings, w: string, l: string, k: real, ea: real)
    requires w in s.elo && l in s.elo && s.elo.Keys <= s.games.Keys
    ensures var t := Play(s, w, l, k, ea);
            if w != l then
              && t.elo[w] == s.elo[w] + k * (1.0 - ea) && t.elo[l] == s.elo[l] + k * (0.0 - (1.0 - ea))
              && t.games[w] == s.games[w] + 1 && t.games[l] == s.games[l] + 1
            else
              t.elo[w] == s.elo[w] + k * (0.0 - (1.0 - ea)) && t.games[w] == s.games[w] + 2
  {
  }

  // ---------------------------------------------------------------------
  // What one match does

  /** `update_elo` keeps the store valid. */
  lemma AfterMatchValid(r: Ratings, w: string, l: string, k: real, pow10: Pow10Fn)
    requires Valid(r)
    ensures Valid(AfterMatch(r, w, l, k, pow10))
  {
    SeedValid(r, w);
    SeedValid(Seed(r, w), l);
  }

  /** Only the two players are added (the new ones at the end of `order`),
      nothing is removed, and every other dish keeps its rating and games. */
  lemma AfterMatchFrame(r: Ratings, w: string, l: string, k: real, pow10: Pow10Fn)
    requires r.elo.Keys <= r.games.Keys
    ensures var r' := AfterMatch(r, w, l, k, pow10);
            && r'.elo.Keys == r.elo.Keys + {w, l}
            && r'.games.Keys == r.games.Keys + {w, l}
            && r'.order == r.order + (if w in r.elo then [] else [w])
                          + (if l in r.elo || l == w then [] else [l])
            && (forall d :: d in r.elo && d != w && d != l ==> r'.elo[d] == r.elo[d])
            && (forall d :: d in r.games && d != w && d != l ==> r'.games[d] == r.games[d])
  {
    var s := Seeded(r, w, l);
    SeededFacts(r, w, l);
    PlayFrame(s, w, l, k, WinnerExpected(r, w, l, pow10));
  }

  /** `update_elo` keeps `elo` and `games_played` on the same keys. */
  lemma AfterMatchSameKeys(r: Ratings, w: string, l: string, k: real, pow10: Pow10Fn)
    requires r.elo.Keys == r.games.Keys
    ensures AfterMatch(r, w, l, k, pow10).elo.Keys == AfterMatch(r, w, l, k, pow10).games.Keys
  {
    AfterMatchFrame(r, w, l, k, pow10);
  }

  /** The players' entries once seeded. */
  lemma SeededPlayers(r: Ratings, w: string, l: string)
    requires r.elo.Keys <= r.games.Keys
    ensures var s := Seeded(r, w, l);
            && s.elo[w] == RatingBefore(r, w) && s.elo[l] == RatingBefore(r, l)
            && s.games[w] == GamesBefore(r, w) && s.games[l] == GamesBefore(r, l)
  {
  }

  lemma SeededPair(r: Ratings, w: string, l: string, k: real, ea: real)
    requires r.elo.Keys <= r.games.Keys
    requires w != l
    ensures var t := Play(Seeded(r, w, l), w, l, k, ea);
            && t.elo[w] == RatingBefore(r, w) + k * (1.0 - ea)
            && t.elo[l] == RatingBefore(r, l) + k * (0.0 - (1.0 - ea))
            && t.games[w] == GamesBefore(r, w) + 1 && t.games[l] == GamesBefore(r, l) + 1
  {
    SeededPlayers(r, w, l);
    PlayOutcome(Seeded(r, w, l), w, l, k, ea);
  }

  lemma SeededSelf(r: Ratings, d: string, k: real, ea: real)
    requires r.elo.Keys <= r.games.Keys
    ensures var t := Play(Seeded(r, d, d), d, d, k, ea);
            t.elo[d] == RatingBefore(r, d) + k * (0.0 - (1.0 - ea)) && t.games[d] == GamesBefore(r, d) + 2
  {
    SeededPlayers(r, d, d);
    PlayOutcome(Seeded(r, d, d), d, d, k, ea);
  }

  /** The players' ratings and games after a match between two dishes:
      the winner gains `k * (1 - ea)`, the loser loses as much, and each
      plays one more game. */
  lemma AfterMatchPair(r: Ratings, w: string, l: string, k: real, pow10: Pow10Fn)
    requires r.elo.Keys <= r.games.Keys
    requires w != l
    ensures var r', ea := AfterMatch(r, w, l, k, pow10), WinnerExpected(r, w, l, pow10);
            && r'.elo[w] == RatingBefore(r, w) + k * (1.0 - ea)
            && r'.elo[l] == RatingBefore(r, l) + k * (0.0 - (1.0 - ea))
            && r'.games[w] == GamesBefore(r, w) + 1 && r'.games[l] == GamesBefore(r, l) + 1
  {
    SeededPair(r, w, l, k, WinnerExpected(r, w, l, pow10));
  }

  /** A dish's rating and games after a match against itself: the loser's
      write is the one that stands, and the dish plays two more games. */
  lemma AfterMatchSelf(r: Ratings, d: string, k: real, pow10: Pow10Fn)
    requires r.elo.Keys <= r.games.Keys
    ensures var r', ea := AfterMatch(r, d, d, k, pow10), WinnerExpected(r, d, d, pow10);
            r'.elo[d] == RatingBefore(r, d) + k * (0.0 - (1.0 - ea)) && r'.games[d] == GamesBefore(r, d) + 2
  {
    SeededSelf(r, d, k, WinnerExpected(r, d, d, pow10));
  }

  /** Each player plays one more game, and a dish playing itself plays two. */
  lemma AfterMatchGames(r: Ratings, w: string, l: string, k: real, pow10: Pow10Fn)
    requires r.elo.Keys <= r.games.Keys
    ensures var r' := AfterMatch(r, w, l, k, pow10);
            if w != l then r'.games[w] == GamesBefore(r, w) + 1 && r'.games[l] == GamesBefore(r, l) + 1
            else r'.games[w] == GamesBefore(r, w) + 2
  {
    if w != l {
      AfterMatchPair(r, w, l, k, pow10);
    } else {
      AfterMatchSelf(r, w, k, pow10);
    }
  }

  /** The two changes cancel: what the winner gains the loser loses. */
  lemma AfterMatchZeroSum(r: Ratings, w: string, l: string, k: real, pow10: Pow10Fn)
    requires r.elo.Keys <= r.games.Keys
    requires w != l
    ensures var r' := AfterMatch(r, w, l, k, pow10);
            (r'.elo[w] - RatingBefore(r, w)) + (r'.elo[l] - RatingBefore(r, l)) == 0.0
  {
    AfterMatchPair(r, w, l, k, pow10);
  }

  /** With a positive K-factor the winner strictly gains and the loser
      strictly loses. */
  lemma AfterMatchSigns(r: Ratings, w: string, l: string, k: real, pow10: Pow10Fn)
    requires r.elo.Keys <= r.games.Keys
    requires w != l && k > 0.0
    ensures var r' := AfterMatch(r, w, l, k, pow10);
            r'.elo[w] > RatingBefore(r, w) && r'.elo[l] < RatingBefore(r, l)
  {
    ExpectedBounds(RatingBefore(r, w), RatingBefore(r, l), pow10);
    SeededPairSigns(r, w, l, k, WinnerExpected(r, w, l, pow10));
  }

  lemma SeededPairSigns(r: Ratings, w: string, l: string, k: real, ea: real)
    requires r.elo.Keys <= r.games.Keys
    requires w != l && k > 0.0 && 0.0 < ea < 1.0
    ensures var t := Play(Seeded(r, w, l), w, l, k, ea);
            t.elo[w] > RatingBefore(r, w) && t.elo[l] < RatingBefore(r, l)
  {
    SeededPair(r, w, l, k, ea);
    assert k * (0.0 - (1.0 - ea)) == -(k * (1.0 - ea));
  }

  /** A match of a dish against itself is not rejected: the loser's write
      stands, so the dish loses `k / 2`. */
  lemma SelfMatch(r: Ratings, d: string, k: real, pow10: Pow10Fn)
    requires pow10(0.0) == 1.0
    requires r.elo.Keys <= r.games.Keys
    ensures AfterMatch(r, d, d, k, pow10).elo[d] == RatingBefore(r, d) - k / 2.0
  {
    AfterMatchSelf(r, d, k, pow10);
    ExpectedEven(RatingBefore(r, d), pow10);
  }

  /** Two new dishes end their first match at 1516 and 1484. */
  lemma FirstMatch(r: Ratings, w: string, l: string, pow10: Pow10Fn)
    requires pow10(0.0) == 1.0
    requires r.elo.Keys <= r.games.Keys
    requires w != l && w !in r.elo && l !in r.elo
    ensures AfterMatch(r, w, l, K, pow10).elo[w] == 1516.0
    ensures AfterMatch(r, w, l, K, pow10).elo[l] == 1484.0
  {
    AfterMatchPair(r, w, l, K, pow10);
    ExpectedEven(InitialRating, pow10);
  }

  // ---------------------------------------------------------------------
  // Totals over the rated dishes

  function TotalGames(order: seq<string>, games: map<string, nat>): nat {
    if order == [] then 0
    else
      var d := order[|order| - 1];
      TotalGames(order[..|order| - 1], games) + (if d in games then games[d] else 0)
  }

  function TotalRating(order: seq<string>, elo: map<string, real>): real {
    if order == [] then 0.0
    else
      var d := order[|order| - 1];
      TotalRating(order[..|order| - 1], elo) + (if d in elo then elo[d] else 0.0)
  }

  lemma {:induction false} TotalsIgnore(order: seq<string>, games: map<string, nat>, elo: map<string, real>,
                                        d: string, g: nat, v: real)
    requires d !in order
    ensures TotalGames(order, games[d := g]) == TotalGames(order, games)
    ensures TotalRating(order, elo[d := v]) == TotalRating(order, elo)
  {
    if order != [] {
      TotalsIgnore(order[..|order| - 1], games, elo, d, g, v);
    }
  }

  /** Changing one listed dish's games changes the total by the difference. */
  lemma {:induction false} TotalGamesUpdate(order: seq<string>, games: map<string, nat>, d: string, g: nat)
    requires Distinct(order) && d in order && d in games
    ensures TotalGames(order, games[d := g]) == TotalGames(order, games) - games[d] + g
  {
    var init, last := order[..|order| - 1], order[|order| - 1];
    assert order == init + [last];
    if last == d {
      assert d !in init;
      TotalsIgnore(init, games, map[], d, g, 0.0);
    } else {
      assert Distinct(init);
      TotalGamesUpdate(init, games, d, g);
    }
  }

  /** Changing one listed dish's rating changes the total by the difference. */
  lemma {:induction false} TotalRatingUpdate(order: seq<string>, elo: map<string, real>, d: string, v: real)
    requires Distinct(order) && d in order && d in elo
    ensures TotalRating(order, elo[d := v]) == TotalRating(order, elo) - elo[d] + v
  {
    var init, last := order[..|order| - 1], order[|order| - 1];
    assert order == init + [last];
    if last == d {
      assert d !in init;
      TotalsIgnore(init, map[], elo, d, 0, v);
    } else {
      assert Distinct(init);
      TotalRatingUpdate(init, elo, d, v);
    }
  }

  /** Appending a dish adds its entries to the totals. */
  lemma TotalsAppend(order: seq<string>, games: map<string, nat>, elo: map<string, real>, d: string)
    requires d in games && d in elo
    ensures TotalGames(order + [d], games) == TotalGames(order, games) + games[d]
    ensures TotalRating(order + [d], elo) == TotalRating(order, elo) + elo[d]
  {
    assert (order + [d])[..|order|] == order;
  }

  /** Seeding a new dish adds 1500 to the rating total and nothing to the
      games total. */
  lemma SeedTotals(r: Ratings, d: string)
    requires Valid(r)
    ensures var s := Seed(r, d);
            && TotalGames(s.order, s.games) == TotalGames(r.order, r.games)
            && TotalRating(s.order, s.elo) == TotalRating(r.order, r.elo) + (if d in r.elo then 0.0 else InitialRating)
  {
    if d !in r.elo {
      assert d !in r.order;
      var games, elo := r.games[d := 0], r.elo[d := InitialRating];
      TotalsIgnore(r.order, r.games, r.elo, d, 0, InitialRating);
      TotalsAppend(r.order, games, elo, d);
    }
  }

  lemma SeededValid(r: Ratings, w: string, l: string)
    requires Valid(r)
    ensures Valid(Seeded(r, w, l))
  {
    SeedValid(r, w);
    SeedValid(Seed(r, w), l);
  }

  /** Seeding the players adds no games to the total. */
  lemma SeededGamesTotal(r: Ratings, w: string, l: string)
    requires Valid(r)
    ensures var s := Seeded(r, w, l);
            TotalGames(s.order, s.games) == TotalGames(r.order, r.games)
  {
    SeedValid(r, w);
    SeedTotals(r, w);
    SeedTotals(Seed(r, w), l);
  }

  /** Seeding the players adds 1500 to the rating total per new dish. */
  lemma SeededRatingTotal(r: Ratings, w: string, l: string)
    requires Valid(r)
    ensures var s := Seeded(r, w, l);
            TotalRating(s.order, s.elo)
            == TotalRating(r.order, r.elo)
               + (if w in r.elo then 0.0 else InitialRating)
               + (if l in r.elo || l == w then 0.0 else InitialRating)
  {
    var s1 := Seed(r, w);
    SeedValid(r, w);
    SeedTotals(r, w);
    SeedTotals(s1, l);
    assert (l in s1.elo) == (l in r.elo || l == w);
  }

  lemma PlayTotals(s: Ratings, w: string, l: string, k: real, ea: real)
    requires Valid(s) && w in s.elo && l in s.elo
    ensures var t := Play(s, w, l, k, ea);
            && TotalGames(t.order, t.games) == TotalGames(s.order, s.games) + 2
            && (w != l ==> TotalRating(t.order, t.elo) == TotalRating(s.order, s.elo))
  {
    var ra, rb := s.elo[w], s.elo[l];
    var wa, lb := ra + k * (1.0 - ea), rb + k * (0.0 - (1.0 - ea));
    var games := s.games[w := s.games[w] + 1];
    TotalGamesUpdate(s.order, s.games, w, s.games[w] + 1);
    TotalGamesUpdate(s.order, games, l, games[l] + 1);
    TotalRatingUpdate(s.order, s.elo, w, wa);
    TotalRatingUpdate(s.order, s.elo[w := wa], l, lb);
  }

  /** Every match adds exactly two games to the total, a match of a dish
      against itself included. */
  lemma AfterMatchTotalGames(r: Ratings, w: string, l: string, k: real, pow10: Pow10Fn)
    requires Valid(r)
    ensures var r' := AfterMatch(r, w, l, k, pow10);
            TotalGames(r'.order, r'.games) == TotalGames(r.order, r.games) + 2
  {
    var s := Seeded(r, w, l);
    SeededValid(r, w, l);
    SeededGamesTotal(r, w, l);
    PlayTotals(s, w, l, k, WinnerExpected(r, w, l, pow10));
  }

  /** Between two different dishes the rating total is conserved, apart
      from 1500 brought in by each new dish. */
  lemma AfterMatchTotalRating(r: Ratings, w: string, l: string, k: real, pow10: Pow10Fn)
    requires Valid(r)
    requires w != l
    ensures var r' := AfterMatch(r, w, l, k, pow10);
            TotalRating(r'.order, r'.elo)
            == TotalRating(r.order, r.elo)
               + (if w in r.elo then 0.0 else InitialRating)
               + (if l in r.elo then 0.0 else InitialRating)
  {
    var s := Seeded(r, w, l);
    SeededValid(r, w, l);
    SeededRatingTotal(r, w, l);
    PlayTotals(s, w, l, k, WinnerExpected(r, w, l, pow10));
  }

  // ---------------------------------------------------------------------
  // Ranking report

  /** `(dish, score, games_played[dish])` for each `dish, score` of
      `elo.items()`, in insertion order. */
  function RowsOf(r: Ratings): (rows: seq<Row>)
    requires forall d :: d in r.order ==> d in r.elo && d in r.games
    ensures |rows| == |r.order|
  {
    seq(|r.order|, i requires 0 <= i < |r.order| => Row(r.order[i], r.elo[r.order[i]], r.games[r.order[i]]))
  }

  /** The rows are exactly the rated dishes with their rating and games. */
  lemma RowsOfSpec(r: Ratings)
    requires Valid(r)
    ensures forall x: Row :: x in RowsOf(r) <==>
              x.dish in r.elo && x.score == r.elo[x.dish] && x.games == r.games[x.dish]
  {
    var rows := RowsOf(r);
    forall x: Row | x.dish in r.elo && x.score == r.elo[x.dish] && x.games == r.games[x.dish]
      ensures x in rows
    {
      var i :| 0 <= i < |r.order| && r.order[i] == x.dish;
      assert rows[i] == x;
    }
  }

  /** The two tables of a ranking report. */
  datatype Report = Report(official: seq<Row>, provisional: seq<Row>)

  /** `generate_ranking_report`: the dishes with at least 3 games and those
      with 1 or 2, each sorted by rating, highest first. Each table holds
      exactly the rows of its tier, each as often as in `elo.items()`; the
      order of equal ratings is not promised. */
  function RankingReport(r: Ratings): (rep: Report)
    requires Valid(r)
    ensures NonIncreasing(rep.official) && NonIncreasing(rep.provisional)
    ensures multiset(rep.official) == multiset(Select(RowsOf(r), Official))
    ensures multiset(rep.provisional) == multiset(Select(RowsOf(r), Between(1, 3)))
  {
    var rows := RowsOf(r);
    Report(SortByScore(Select(rows, Official)), SortByScore(Select(rows, Between(1, 3))))
  }

  /** A row is official exactly when it is a dish's row and the dish has
      at least 3 games, and provisional exactly when it has 1 or 2. */
  lemma ReportMembers(r: Ratings)
    requires Valid(r)
    ensures var rep := RankingReport(r);
            && (forall x: Row :: x in rep.official <==>
                  x.dish in r.elo && x.score == r.elo[x.dish] && x.games == r.games[x.dish] && x.games >= 3)
            && (forall x: Row :: x in rep.provisional <==>
                  x.dish in r.elo && x.score == r.elo[x.dish] && x.games == r.games[x.dish] && 0 < x.games < 3)
  {
    RowsOfSpec(r);
    var rows := RowsOf(r);
    var rep := RankingReport(r);
    SelectMembers(rows, Official);
    SelectMembers(rows, Between(1, 3));
    SameElements(rep.official, Select(rows, Official));
    SameElements(rep.provisional, Select(rows, Between(1, 3)));
  }

  /** A dish without games is in neither table. */
  lemma ReportUnplayed(r: Ratings, d: string)
    requires Valid(r)
    requires d in r.elo && r.games[d] == 0
    ensures var rep := RankingReport(r);
            forall x: Row :: x in rep.official + rep.provisional ==> x.dish != d
  {
    ReportMembers(r);
  }
}
