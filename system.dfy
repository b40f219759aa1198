/**
 * The ranking system as an object: the `elo` and `games_played`
 * dictionaries as fields that `update_elo` changes in place, and
 * `process_matches`, which parses a results file and plays its matches
 * one after the other.
 */
module RankingSystem {
  import opened Wrappers
  import opened Elo
  import opened MatchParser

  // ---------------------------------------------------------------------
  // A run of matches, as values

  /** The store after the matches `ms`, played in order with `K = 32`. */
  function Replay(r: Ratings, ms: seq<Match>, pow10: Pow10Fn): (r': Ratings)
    requires r.elo.Keys <= r.games.Keys
    ensures r'.elo.Keys <= r'.games.Keys
  {
    if ms == [] then r
    else
      var prev := Replay(r, ms[..|ms| - 1], pow10);
      var m := ms[|ms| - 1];
      AfterMatchFrame(prev, m.0, m.1, K, pow10);
      AfterMatch(prev, m.0, m.1, K, pow10)
  }

  /** One entry of `match_results`: the match number (counted from 1), the
      two dishes and the change of each one's rating. */
  datatype MatchResult = MatchResult(number: nat, winner: string, loser: string,
                                     winnerChange: real, loserChange: real)

  /** The entry for match `m`, numbered `number`, played on store `r`: each
      change is the player's rating after the match minus the one
      `update_elo` returned for it. */
  function ResultOf(r: Ratings, m: Match, number: nat, pow10: Pow10Fn): MatchResult
    requires r.elo.Keys <= r.games.Keys
  {
    var after := AfterMatch(r, m.0, m.1, K, pow10);
    AfterMatchFrame(r, m.0, m.1, K, pow10);
    MatchResult(number, m.0, m.1, after.elo[m.0] - RatingBefore(r, m.0), after.elo[m.1] - RatingBefore(r, m.1))
  }

  /** The entries for the matches `ms` played from store `r`: one per
      match, the last one numbered `|ms|`, naming the players of the last
      match and holding their changes over it, played on the store the
      earlier matches left. */
  function Results(r: Ratings, ms: seq<Match>, pow10: Pow10Fn): (rs: seq<MatchResult>)
    requires r.elo.Keys <= r.games.Keys
    ensures |rs| == |ms|
  {
    if ms == [] then []
    else
      var init := ms[..|ms| - 1];
      Results(r, init, pow10) + [ResultOf(Replay(r, init, pow10), ms[|ms| - 1], |ms|, pow10)]
  }

  /** Playing match `i` on the store the first `i` matches left extends
      the run by one step. */
  lemma ReplayExtend(r: Ratings, ms: seq<Match>, pow10: Pow10Fn, i: nat)
    requires r.elo.Keys <= r.games.Keys
    requires i < |ms|
    ensures Replay(r, ms[..i + 1], pow10) == AfterMatch(Replay(r, ms[..i], pow10), ms[i].0, ms[i].1, K, pow10)
  {
    PrefixOfPrefix(ms, i + 1, i);
  }

  /** A prefix of a prefix is a prefix. */
  lemma PrefixOfPrefix(ms: seq<Match>, i: nat, j: nat)
    requires j <= i <= |ms|
    ensures ms[..i][..j] == ms[..j]
  {
  }

  /** Recording match `i` extends the entries by one. */
  lemma ResultsExtend(r: Ratings, ms: seq<Match>, pow10: Pow10Fn, i: nat)
    requires r.elo.Keys <= r.games.Keys
    requires i < |ms|
    ensures Results(r, ms[..i + 1], pow10)
            == Results(r, ms[..i], pow10) + [ResultOf(Replay(r, ms[..i], pow10), ms[i], i + 1, pow10)]
  {
    PrefixOfPrefix(ms, i + 1, i);
  }

  /** Entry `i` is the entry of match `i`, numbered `i + 1`, played on the
      store the first `i` matches left. */
  lemma {:induction false} ResultsAt(r: Ratings, ms: seq<Match>, pow10: Pow10Fn, i: int)
    requires r.elo.Keys <= r.games.Keys
    requires 0 <= i < |ms|
    ensures Results(r, ms, pow10)[i] == ResultOf(Replay(r, ms[..i], pow10), ms[i], i + 1, pow10)
  {
    var init := ms[..|ms| - 1];
    if i < |ms| - 1 {
      ResultsAt(r, init, pow10, i);
      PrefixOfPrefix(ms, |ms| - 1, i);
    } else {
      assert init == ms[..i];
    }
  }

  /** Entry `e` reports match `m`: its two players, the winner's change
      positive and the loser's negative and cancelling it, or, for a dish
      beating itself, a loss of 16 in both columns. */
  predicate ReportsMatch(e: MatchResult, m: Match) {
    && e.winner == m.0 && e.loser == m.1
    && if m.0 != m.1 then
         e.winnerChange > 0.0 && e.loserChange < 0.0 && e.winnerChange + e.loserChange == 0.0
       else
         e.winnerChange == -16.0 && e.loserChange == -16.0
  }

  /** One entry per match, numbered from 1 in match order, each reporting
      its match. */
  predicate ReportsAll(rs: seq<MatchResult>, ms: seq<Match>) {
    && |rs| == |ms|
    && forall i :: 0 <= i < |ms| ==> rs[i].number == i + 1 && ReportsMatch(rs[i], ms[i])
  }

  /** Every entry of a run is numbered from 1 in match order and reports
      its match with the signs of the Elo update. */
  lemma ResultsSigns(r: Ratings, ms: seq<Match>, pow10: Pow10Fn)
    requires pow10(0.0) == 1.0
    requires r.elo.Keys <= r.games.Keys
    ensures forall i :: 0 <= i < |ms| ==>
              Results(r, ms, pow10)[i].number == i + 1 && ReportsMatch(Results(r, ms, pow10)[i], ms[i])
  {
    forall i | 0 <= i < |ms|
      ensures Results(r, ms, pow10)[i].number == i + 1 && ReportsMatch(Results(r, ms, pow10)[i], ms[i])
    {
      ResultsAt(r, ms, pow10, i);
      ResultSigns(Replay(r, ms[..i], pow10), ms[i], i + 1, pow10);
    }
  }

  /** `ResultsSigns` for the entries `process_matches` returns, when `pow10`
      is a power of ten: a proof step of `ProcessMatches`. */
  lemma ResultsReport(r: Ratings, ms: seq<Match>, pow10: Pow10Fn, out: seq<MatchResult>)
    requires r.elo.Keys <= r.games.Keys
    requires out == Results(r, ms, pow10)
    ensures pow10(0.0) == 1.0 ==> ReportsAll(out, ms)
  {
    if pow10(0.0) == 1.0 {
      ResultsSigns(r, ms, pow10);
    }
  }

  /** Playing match `i` and recording its entry, as `process_matches`
      does, extends both the run and the entries by one step. */
  lemma ReplayStep(r: Ratings, ms: seq<Match>, pow10: Pow10Fn, i: nat, prev: Ratings,
                   after: Ratings, out: seq<MatchResult>, entry: MatchResult)
    requires r.elo.Keys <= r.games.Keys
    requires i < |ms|
    requires prev == Replay(r, ms[..i], pow10)
    requires after == AfterMatch(prev, ms[i].0, ms[i].1, K, pow10)
    requires out == Results(r, ms[..i], pow10)
    requires entry == ResultOf(prev, ms[i], i + 1, pow10)
    ensures after == Replay(r, ms[..i + 1], pow10)
    ensures out + [entry] == Results(r, ms[..i + 1], pow10)
  {
    ReplayExtend(r, ms, pow10, i);
    ResultsStep(r, ms, pow10, i, prev, out, entry);
  }

  /** `ResultsExtend` over named parts: the loop step of `ProcessMatches`
      calls this instead of unfolding `Results` itself, which keeps that
      method's proof small. */
  lemma ResultsStep(r: Ratings, ms: seq<Match>, pow10: Pow10Fn, i: nat, prev: Ratings,
                    out: seq<MatchResult>, entry: MatchResult)
    requires r.elo.Keys <= r.games.Keys
    requires i < |ms|
    requires prev == Replay(r, ms[..i], pow10)
    requires out == Results(r, ms[..i], pow10)
    requires entry == ResultOf(prev, ms[i], i + 1, pow10)
    ensures out + [entry] == Results(r, ms[..i + 1], pow10)
  {
    ResultsExtend(r, ms, pow10, i);
  }

  /** The entry of a match, from the ratings after it. A proof step of
      `ProcessMatches`, kept apart so that the real arithmetic of the two
      changes is not mixed with the unfolding of `Replay` and `Results`. */
  lemma ResultOfAfter(r: Ratings, m: Match, number: nat, pow10: Pow10Fn, after: Ratings,
                      winnerChange: real, loserChange: real)
    requires r.elo.Keys <= r.games.Keys
    requires after == AfterMatch(r, m.0, m.1, K, pow10)
    requires m.0 in after.elo && m.1 in after.elo
    requires winnerChange == after.elo[m.0] - RatingBefore(r, m.0)
    requires loserChange == after.elo[m.1] - RatingBefore(r, m.1)
    ensures ResultOf(r, m, number, pow10) == MatchResult(number, m.0, m.1, winnerChange, loserChange)
  {
  }

  /** In a match between two dishes the winner's change is positive, the
      loser's negative, and the two cancel; a dish beating itself loses 16
      in both columns. */
  lemma ResultSigns(r: Ratings, m: Match, number: nat, pow10: Pow10Fn)
    requires pow10(0.0) == 1.0
    requires r.elo.Keys <= r.games.Keys
    ensures var res := ResultOf(r, m, number, pow10);
            if m.0 != m.1 then
              res.winnerChange > 0.0 && res.loserChange < 0.0 && res.winnerChange + res.loserChange == 0.0
            else
              res.winnerChange == -16.0 && res.loserChange == -16.0
  {
    if m.0 != m.1 {
      AfterMatchSigns(r, m.0, m.1, K, pow10);
      AfterMatchZeroSum(r, m.0, m.1, K, pow10);
    } else {
      SelfMatch(r, m.0, K, pow10);
    }
  }

  /** A run of matches keeps the store valid. */
  lemma {:induction false} ReplayValid(r: Ratings, ms: seq<Match>, pow10: Pow10Fn)
    requires Valid(r)
    ensures Valid(Replay(r, ms, pow10))
  {
    if ms != [] {
      var m := ms[|ms| - 1];
      ReplayValid(r, ms[..|ms| - 1], pow10);
      AfterMatchValid(Replay(r, ms[..|ms| - 1], pow10), m.0, m.1, K, pow10);
    }
  }

  /** The dishes that play in `ms`. */
  function Players(ms: seq<Match>): (ps: set<string>)
    ensures forall d :: d in ps <==> exists j :: 0 <= j < |ms| && (ms[j].0 == d || ms[j].1 == d)
  {
    if ms == [] then {}
    else
      var init := ms[..|ms| - 1];
      assert forall j :: 0 <= j < |init| ==> init[j] == ms[j];
      Players(init) + {ms[|ms| - 1].0, ms[|ms| - 1].1}
  }

  /** The dishes rated after a run are those rated before it and those
      that played in it: no other key is added, and none is removed. */
  lemma {:induction false} ReplayKeys(r: Ratings, ms: seq<Match>, pow10: Pow10Fn)
    requires r.elo.Keys <= r.games.Keys
    ensures Replay(r, ms, pow10).elo.Keys == r.elo.Keys + Players(ms)
  {
    if ms != [] {
      var init := ms[..|ms| - 1];
      var m := ms[|ms| - 1];
      ReplayKeys(r, init, pow10);
      AfterMatchFrame(Replay(r, init, pow10), m.0, m.1, K, pow10);
    }
  }

  /** Every match adds two games to the total. */
  lemma {:induction false} ReplayTotalGames(r: Ratings, ms: seq<Match>, pow10: Pow10Fn)
    requires Valid(r)
    ensures var r' := Replay(r, ms, pow10);
            TotalGames(r'.order, r'.games) == TotalGames(r.order, r.games) + 2 * |ms|
  {
    if ms != [] {
      var init := ms[..|ms| - 1];
      var m := ms[|ms| - 1];
      ReplayTotalGames(r, init, pow10);
      ReplayValid(r, init, pow10);
      AfterMatchTotalGames(Replay(r, init, pow10), m.0, m.1, K, pow10);
    }
  }

  // ---------------------------------------------------------------------
  // The system object

  /** The store of a ranking system: the two dictionaries, with the order
      in which `elo` received its keys. */
  class EloSystem {
    var order: seq<string>
    var elo: map<string, real>
    var games: map<string, nat>

    /** The store as a value. */
    function Snapshot(): Ratings
      reads this
    {
      Ratings(order, elo, games)
    }

    /** A system over the ratings read from the save file (or over empty
        dictionaries when there is none). */
    constructor (loaded: Ratings)
      ensures Snapshot() == loaded
    {
      order, elo, games := loaded.order, loaded.elo, loaded.games;
    }

    /** The first-match branch of `update_elo`: a dish with no rating yet
        starts at 1500 with 0 games. */
    method SeedDish(d: string)
      modifies this
      ensures Snapshot() == Seed(old(Snapshot()), d)
    {
      if d !in elo {
        order, elo, games := order + [d], elo[d := InitialRating], games[d := 0];
      }
    }

    /** The writes of `update_elo` once both dishes are rated, `ea` being
        the winner's expected score: both ratings move, then both games
        counts go up, the winner's first. */
    method RecordMatch(winner: string, loser: string, k: real, ea: real)
      requires winner in elo && loser in elo && elo.Keys <= games.Keys
      modifies this
      ensures Snapshot() == Play(old(Snapshot()), winner, loser, k, ea)
    {
      ghost var before := Snapshot();
      var ra, rb := elo[winner], elo[loser];
      var eb := 1.0 - ea;
      var wa, lb := ra + k * (1.0 - ea), rb + k * (0.0 - eb);
      elo := elo[winner := wa][loser := lb];
      games := games[winner := games[winner] + 1];
      games := games[loser := games[loser] + 1];
      PlayWrites(before, winner, loser, k, ea, eb, wa, lb, games);
    }

    /** `update_elo(winner, loser, k)`: seed the dishes that have no rating
        yet, move both ratings, count the game for both, and hand back the
        ratings the two had when the match started. */
    method UpdateElo(winner: string, loser: string, k: real, pow10: Pow10Fn) returns (oldWinner: real, oldLoser: real)
      requires elo.Keys <= games.Keys
      modifies this
      ensures Snapshot() == AfterMatch(old(Snapshot()), winner, loser, k, pow10)
      ensures oldWinner == RatingBefore(old(Snapshot()), winner)
      ensures oldLoser == RatingBefore(old(Snapshot()), loser)
    {
      ghost var start := Snapshot();
      SeedDish(winner);
      SeedDish(loser);
      SeededPlayers(start, winner, loser);
      var ra, rb := elo[winner], elo[loser];
      var ea := Expected(ra, rb, pow10);
      RecordMatch(winner, loser, k, ea);
      oldWinner, oldLoser := ra, rb;
    }

    /** `process_matches(content)`: parse the file; with no accepted match
        give up (`False`) and leave the store alone; otherwise play the
        matches in order and give one entry per match. */
    method ProcessMatches(content: string, pow10: Pow10Fn) returns (results: Option<seq<MatchResult>>)
      requires elo.Keys <= games.Keys
      modifies this
      ensures var ms := AcceptedIn(Lines(content));
              if ms == [] then results == None && Snapshot() == old(Snapshot())
              else results == Some(Results(old(Snapshot()), ms, pow10))
                   && Snapshot() == Replay(old(Snapshot()), ms, pow10)
      ensures results.Some? && pow10(0.0) == 1.0 ==> ReportsAll(results.value, AcceptedIn(Lines(content)))
    {
      var matches, _ := ParseMatchContent(content);
      if matches == [] {
        return None;
      }
      ghost var start := Snapshot();
      var out: seq<MatchResult> := [];
      var i := 0;
      while i < |matches|
        invariant 0 <= i <= |matches|
        invariant elo.Keys <= games.Keys
        invariant Snapshot() == Replay(start, matches[..i], pow10)
        invariant out == Results(start, matches[..i], pow10)
      {
        var m := matches[i];
        ghost var before := Snapshot();
        var oldWinner, oldLoser := UpdateElo(m.0, m.1, K, pow10);
        AfterMatchFrame(before, m.0, m.1, K, pow10);
        var winnerChange := elo[m.0] - oldWinner;
        var loserChange := elo[m.1] - oldLoser;
        var entry := MatchResult(i + 1, m.0, m.1, winnerChange, loserChange);
        ResultOfAfter(before, m, i + 1, pow10, Snapshot(), winnerChange, loserChange);
        ReplayStep(start, matches, pow10, i, before, Snapshot(), out, entry);
        out := out + [entry];
        i := i + 1;
      }
      assert matches[..i] == matches;
      ResultsReport(start, matches, pow10, out);
      results := Some(out);
    }
  }
}
