/**
 * The duplicate-name consolidation of `consolidate_elo_data.py`.
 *
 * A raw export stores ratings under several spellings of one dish: a
 * compound form `"<name> | <alternate>"` and the bare name. Consolidation
 * groups the raw keys by canonical name, merges each group (rating of the
 * variant with most games, games summed over the group), rewrites the
 * battle history to canonical names, counts appearances in the rewritten
 * history against the stored game counts, and splits the result into an
 * official and a provisional ranking.
 */
module Consolidation {
  import opened Wrappers
  import opened Text
  import opened Ranking
  import opened Sequences

  /** The separator between a dish's name and its alternate name. */
  const Separator: string := " | "

  /** `extract_chinese_name`. */
  function ExtractChineseName(dishName: string): string {
    match Find(dishName, Separator)
    case Some(i) => Trim(dishName[..i])
    case None => Trim(dishName)
  }

  /** A canonical name has no surrounding whitespace and never contains the
      separator: it is the stripped text before the first `" | "`, or the
      whole name stripped when there is none. */
  lemma ExtractChineseNameShape(dishName: string)
    ensures Unpadded(ExtractChineseName(dishName))
    ensures !Contains(ExtractChineseName(dishName), Separator)
  {
    FindFirst(dishName, Separator);
    match Find(dishName, Separator)
    case Some(i) =>
      PrefixBeforeFirst(dishName, Separator, i);
      TrimKeepsAbsent(dishName[..i], Separator);
    case None =>
      TrimKeepsAbsent(dishName, Separator);
  }

  /** The text before the first occurrence of a pattern does not contain it. */
  lemma PrefixBeforeFirst(s: string, p: string, i: nat)
    requires |p| > 0 && i <= |s|
    requires forall j :: 0 <= j < i ==> !OccursAt(s, p, j)
    ensures !Contains(s[..i], p)
  {
    forall j | 0 <= j <= i ensures !OccursAt(s[..i], p, j) {
      if OccursAt(s[..i], p, j) {
        OccursInSlice(s, p, 0, i, j);
      }
    }
  }

  /** A canonical name is its own canonical name, so normalising twice is
      normalising once. */
  lemma ExtractIdempotent(dishName: string)
    ensures ExtractChineseName(ExtractChineseName(dishName)) == ExtractChineseName(dishName)
  {
    var name := ExtractChineseName(dishName);
    ExtractChineseNameShape(dishName);
    FindFirst(name, Separator);
    TrimUnpadded(name);
  }

  /** Canonical names are exactly the fixed points of the normaliser. */
  predicate IsCanonical(name: string) {
    ExtractChineseName(name) == name
  }

  // ---------------------------------------------------------------------
  // Input and output

  /** One record of `battle_history` as the file holds it: its winner and
      its loser, either of which may be absent, and every other field,
      which consolidation passes through unchanged. */
  datatype RawBattle = RawBattle(winner: Option<string>, loser: Option<string>, others: map<string, string>)

  /** A record of the rewritten history: both names are present. */
  datatype Battle = Battle(winner: string, loser: string, others: map<string, string>)

  /** Both `battle['winner']` and `battle['loser']` can be read. */
  predicate Complete(b: RawBattle) {
    b.winner.Some? && b.loser.Some?
  }

  /** The `elo_ratings` object of an export: its keys in file order and the
      rating stored under each. */
  datatype EloTable = EloTable(names: seq<string>, elo: map<string, real>)

  /** A JSON object: each key once, and exactly the keys of the map. */
  ghost predicate WellFormed(t: EloTable) {
    Distinct(t.names) && (forall k :: k in t.names <==> k in t.elo)
  }

  /** A raw export; a top-level key absent from the file is `None`. */
  datatype ExportFile = ExportFile(
    eloRatings: Option<EloTable>,
    gamesPlayed: Option<map<string, nat>>,
    battleHistory: Option<seq<RawBattle>>)

  datatype Error =
    | MissingField(field: string)  // a top-level key of the export is absent
    | MissingGames(dish: string)   // a dish alone in its group has no games entry
    | MissingBattleField(index: nat, field: string)  // history record `index` lacks a name

  /** One line of the battle-count verification: the stored and the
      recounted games of a dish and whether they agree. */
  datatype CountCheck = CountCheck(dish: string, stored: nat, calculated: nat, ok: bool)

  datatype Consolidated = Consolidated(
    elo: map<string, real>,
    games: map<string, nat>,
    history: seq<Battle>,
    checks: seq<CountCheck>,
    official: seq<Row>,
    provisional: seq<Row>)

  // ---------------------------------------------------------------------
  // Grouping

  /** `games_played.get(d, 0)`. */
  function GamesOf(games: map<string, nat>, d: string): nat {
    if d in games then games[d] else 0
  }

  /** The canonical names of a collection of raw keys. */
  function CanonicalNames(names: seq<string>): set<string> {
    set k | k in names :: ExtractChineseName(k)
  }

  /** The raw keys whose canonical name is `c`, in key order. */
  function Variants(names: seq<string>, c: string): (vs: seq<string>)
    ensures |vs| <= |names|
  {
    if names == [] then []
    else
      var init := names[..|names| - 1];
      var k := names[|names| - 1];
      assert names == init + [k];
      Variants(init, c) + (if ExtractChineseName(k) == c then [k] else [])
  }

  /** The variants of `c` are exactly the keys that normalise to `c`. */
  lemma {:induction false} VariantsMembers(names: seq<string>, c: string)
    ensures forall k :: k in Variants(names, c) <==> k in names && ExtractChineseName(k) == c
  {
    if names != [] {
      var init := names[..|names| - 1];
      VariantsMembers(init, c);
      assert names == init + [names[|names| - 1]];
    }
  }

  lemma {:induction false} VariantsDistinct(names: seq<string>, c: string)
    requires Distinct(names)
    ensures Distinct(Variants(names, c))
  {
    if names != [] {
      var init := names[..|names| - 1];
      VariantsDistinct(init, c);
      VariantsMembers(init, c);
      assert names[|names| - 1] !in init;
    }
  }

  lemma VariantsNonEmpty(names: seq<string>, c: string)
    requires c in CanonicalNames(names)
    ensures |Variants(names, c)| >= 1
  {
    var k :| k in names && ExtractChineseName(k) == c;
    VariantsMembers(names, c);
    assert k in Variants(names, c);
  }

  /** `max(vs, key=lambda d: games_played.get(d, 0))`, as an index into `vs`:
      a variant with the most games, the first one among equals. */
  function BestVariant(vs: seq<string>, games: map<string, nat>): (b: nat)
    requires |vs| >= 1
    ensures b < |vs|
    ensures forall j :: 0 <= j < |vs| ==> GamesOf(games, vs[j]) <= GamesOf(games, vs[b])
    ensures forall j :: 0 <= j < b ==> GamesOf(games, vs[j]) < GamesOf(games, vs[b])
  {
    if |vs| == 1 then 0
    else
      var b := BestVariant(vs[..|vs| - 1], games);
      assert forall j :: 0 <= j < |vs| - 1 ==> vs[..|vs| - 1][j] == vs[j];
      if GamesOf(games, vs[|vs| - 1]) > GamesOf(games, vs[b]) then |vs| - 1 else b
  }

  /** `sum(games_played.get(v, 0) for v in vs)`. */
  function SumGames(vs: seq<string>, games: map<string, nat>): (total: nat)
    ensures forall j :: 0 <= j < |vs| ==> GamesOf(games, vs[j]) <= total
  {
    if vs == [] then 0
    else
      var init := vs[..|vs| - 1];
      assert forall j :: 0 <= j < |vs| - 1 ==> init[j] == vs[j];
      SumGames(init, games) + GamesOf(games, vs[|vs| - 1])
  }

  /** In a group of one, the one variant is the best and its games are
      the group's total. */
  lemma SingleVariant(vs: seq<string>, games: map<string, nat>)
    requires |vs| == 1
    ensures BestVariant(vs, games) == 0
    ensures SumGames(vs, games) == GamesOf(games, vs[0])
  {
    assert vs[..0] == [];
  }

  /** The rating a group merges to: that of its best variant. */
  function MergedRating(t: EloTable, games: map<string, nat>, c: string): real
    requires WellFormed(t)
    requires |Variants(t.names, c)| >= 1
  {
    var vs := Variants(t.names, c);
    VariantsMembers(t.names, c);
    t.elo[vs[BestVariant(vs, games)]]
  }

  /** `consolidated_elo` as a function of the export. */
  function MergedElo(t: EloTable, games: map<string, nat>): map<string, real>
    requires WellFormed(t)
  {
    map c | c in CanonicalNames(t.names) :: VariantsNonEmpty(t.names, c); MergedRating(t, games, c)
  }

  /** `consolidated_games` as a function of the export. */
  function MergedGames(names: seq<string>, games: map<string, nat>): map<string, nat> {
    map c | c in CanonicalNames(names) :: SumGames(Variants(names, c), games)
  }

  /** Key `d` is alone in its group and has no `games_played` entry, so
      `games_played[dish]` raises. */
  predicate LonelyMissing(names: seq<string>, games: map<string, nat>, d: string) {
    d in names && d !in games && Variants(names, ExtractChineseName(d)) == [d]
  }

  predicate SomeLonelyMissing(names: seq<string>, games: map<string, nat>) {
    exists d :: d in names && LonelyMissing(names, games, d)
  }

  // ---------------------------------------------------------------------
  // The loops of consolidate_elo_data

  /** The loop that fills `chinese_names`: every canonical name once. */
  method CollectCanonicalNames(names: seq<string>) returns (order: seq<string>)
    ensures Distinct(order)
    ensures forall c :: c in order <==> c in CanonicalNames(names)
  {
    order := [];
    var i := 0;
    while i < |names|
      invariant 0 <= i <= |names|
      invariant Distinct(order)
      invariant forall c :: c in order <==> c in CanonicalNames(names[..i])
    {
      var c := ExtractChineseName(names[i]);
      CanonicalNamesOneMore(names, i);
      if c !in order {
        DistinctAppend(order, c);
        order := order + [c];
      }
      i := i + 1;
    }
    TakeAll(names);
  }

  /** One more raw key adds its canonical name. */
  lemma CanonicalNamesOneMore(names: seq<string>, i: nat)
    requires i < |names|
    ensures CanonicalNames(names[..i + 1]) == CanonicalNames(names[..i]) + {ExtractChineseName(names[i])}
  {
    TakeOneMore(names, i);
  }

  /** The body of the loop over canonical names: merge the group of `c`.
      A group of one copies its variant's rating and games, and fails when
      that variant has no games entry; a larger group takes the rating of
      its best variant and the sum of the games of all its variants. */
  function MergeGroup(t: EloTable, games: map<string, nat>, c: string): (r: Result<(real, nat), Error>)
    requires WellFormed(t)
    requires |Variants(t.names, c)| >= 1
    ensures r.Failure? <==> |Variants(t.names, c)| == 1 && Variants(t.names, c)[0] !in games
    ensures r.Failure? ==> r.error == MissingGames(Variants(t.names, c)[0])
    ensures r.Success? ==> r.value == (MergedRating(t, games, c), SumGames(Variants(t.names, c), games))
  {
    var vs := Variants(t.names, c);
    VariantsMembers(t.names, c);
    if |vs| == 1 then
      var dish := vs[0];
      if dish !in games then Failure(MissingGames(dish))
      else
        SingleVariant(vs, games);
        Success((t.elo[dish], games[dish]))
    else
      var best := vs[BestVariant(vs, games)];
      Success((t.elo[best], SumGames(vs, games)))
  }

  /** A lone variant without games is exactly a failing group. */
  lemma LonelyMissingFails(t: EloTable, games: map<string, nat>, d: string)
    requires WellFormed(t)
    requires d in t.names
    ensures |Variants(t.names, ExtractChineseName(d))| >= 1
    ensures LonelyMissing(t.names, games, d) <==> MergeGroup(t, games, ExtractChineseName(d)).Failure?
  {
    var c := ExtractChineseName(d);
    var vs := Variants(t.names, c);
    VariantsMembers(t.names, c);
    assert d in vs;
    if |vs| == 1 {
      assert vs == [vs[0]];
    }
  }

  /** The loop over canonical names that fills `consolidated_elo` and
      `consolidated_games`: it stops at the first group that fails, and
      otherwise records every group's merged rating and games. */
  method MergeGroups(t: EloTable, games: map<string, nat>, order: seq<string>)
    returns (res: Result<(map<string, real>, map<string, nat>), Error>)
    requires WellFormed(t)
    requires forall j :: 0 <= j < |order| ==> |Variants(t.names, order[j])| >= 1
    ensures res.Success? <==> forall j :: 0 <= j < |order| ==> MergeGroup(t, games, order[j]).Success?
    ensures res.Failure? ==> exists j :: 0 <= j < |order| && MergeGroup(t, games, order[j]) == Failure(res.error)
    ensures res.Success? ==> forall c :: c in res.value.0 <==> c in order
    ensures res.Success? ==> forall c :: c in res.value.1 <==> c in order
    ensures res.Success? ==> forall c :: c in res.value.0 && c in res.value.1 ==>
              MergeGroup(t, games, c) == Success((res.value.0[c], res.value.1[c]))
  {
    var elo: map<string, real> := map[];
    var gs: map<string, nat> := map[];
    var i := 0;
    while i < |order|
      invariant 0 <= i <= |order|
      invariant forall c :: c in elo <==> c in order[..i]
      invariant forall c :: c in gs <==> c in order[..i]
      invariant forall j :: 0 <= j < i ==> MergeGroup(t, games, order[j]) == Success((elo[order[j]], gs[order[j]]))
    {
      var c := order[i];
      var merged := MergeGroup(t, games, c);
      if merged.Failure? {
        return Failure(merged.error);
      }
      elo := elo[c := merged.value.0];
      gs := gs[c := merged.value.1];
      TakeOneMore(order, i);
      i := i + 1;
    }
    TakeAll(order);
    return Success((elo, gs));
  }

  /** A history record with both names normalised; other fields kept. */
  function Canonicalised(b: RawBattle): Battle
    requires Complete(b)
  {
    Battle(ExtractChineseName(b.winner.value), ExtractChineseName(b.loser.value), b.others)
  }

  /** The `KeyError` reading record `i` raises: the winner is read first. */
  function MissingName(b: RawBattle, i: nat): Error {
    MissingBattleField(i, if b.winner.None? then "winner" else "loser")
  }

  /** Record `i` is the first one lacking a name. */
  predicate FirstIncomplete(history: seq<RawBattle>, i: int) {
    && 0 <= i < |history| && !Complete(history[i])
    && forall j :: 0 <= j < i ==> Complete(history[j])
  }

  /** The loop that builds `updated_battle_history`: it stops at the first
      record lacking its winner or its loser; otherwise the history keeps
      its length and order, with names normalised and every other field
      copied. */
  method RewriteHistory(history: seq<RawBattle>) returns (res: Result<seq<Battle>, Error>)
    ensures res.Success? <==> forall i :: 0 <= i < |history| ==> Complete(history[i])
    ensures res.Failure? ==> exists i :: FirstIncomplete(history, i) && res.error == MissingName(history[i], i)
    ensures res.Success? ==> |res.value| == |history|
    ensures res.Success? ==> forall i :: 0 <= i < |history| ==> res.value[i] == Canonicalised(history[i])
  {
    var updated: seq<Battle> := [];
    for i := 0 to |history|
      invariant |updated| == i
      invariant forall j :: 0 <= j < i ==> Complete(history[j]) && updated[j] == Canonicalised(history[j])
    {
      var b := history[i];
      if b.winner.None? {
        assert FirstIncomplete(history, i);
        return Failure(MissingBattleField(i, "winner"));
      }
      if b.loser.None? {
        assert FirstIncomplete(history, i);
        return Failure(MissingBattleField(i, "loser"));
      }
      AppendKeeps(updated, Canonicalised(b));
      updated := updated + [Canonicalised(b)];
    }
    return Success(updated);
  }

  /** Battles of `h` that `d` won. */
  function Wins(h: seq<Battle>, d: string): nat {
    if h == [] then 0
    else Wins(h[..|h| - 1], d) + (if h[|h| - 1].winner == d then 1 else 0)
  }

  /** Battles of `h` that `d` lost. */
  function Losses(h: seq<Battle>, d: string): nat {
    if h == [] then 0
    else Losses(h[..|h| - 1], d) + (if h[|h| - 1].loser == d then 1 else 0)
  }

  /** `d` is the winner or the loser of some battle of `h`. */
  predicate Plays(h: seq<Battle>, d: string) {
    exists i :: 0 <= i < |h| && (h[i].winner == d || h[i].loser == d)
  }

  lemma {:induction false} PlaysCounted(h: seq<Battle>, d: string)
    ensures Plays(h, d) <==> Wins(h, d) + Losses(h, d) > 0
  {
    if h != [] {
      var init := h[..|h| - 1];
      PlaysCounted(init, d);
      if Plays(init, d) {
        var i :| 0 <= i < |init| && (init[i].winner == d || init[i].loser == d);
        assert h[i] == init[i];
      }
      if Plays(h, d) && !Plays(init, d) {
        var i :| 0 <= i < |h| && (h[i].winner == d || h[i].loser == d);
        assert i == |h| - 1;
      }
    }
  }

  /** The loop that fills `battle_counts`: each dish's number of wins plus
      losses, so a battle of a dish against itself counts twice. Dishes
      that never play have no entry. */
  method CountBattles(h: seq<Battle>) returns (counts: map<string, nat>)
    ensures forall d :: d in counts <==> Plays(h, d)
    ensures forall d :: GamesOf(counts, d) == Wins(h, d) + Losses(h, d)
  {
    counts := map[];
    for i := 0 to |h|
      invariant forall d :: GamesOf(counts, d) == Wins(h[..i], d) + Losses(h[..i], d)
      invariant forall d :: d in counts ==> counts[d] > 0
    {
      assert h[..i + 1][..i] == h[..i];
      var w := h[i].winner;
      var l := h[i].loser;
      counts := counts[w := GamesOf(counts, w) + 1];
      counts := counts[l := GamesOf(counts, l) + 1];
    }
    assert h[..|h|] == h;
    forall d ensures d in counts <==> Plays(h, d) {
      PlaysCounted(h, d);
    }
  }

  /** One line of the verification report for `dish`. */
  function CheckOf(games: map<string, nat>, counts: map<string, nat>, dish: string): CountCheck
    requires dish in games
  {
    CountCheck(dish, games[dish], GamesOf(counts, dish), games[dish] == GamesOf(counts, dish))
  }

  /** `sorted(keys)` lists each of a duplicate-free list's keys once. */
  lemma SortedEnumerates(order: seq<string>)
    requires Distinct(order)
    ensures |SortStrings(order)| == |order|
    ensures forall c :: c in SortStrings(order) <==> c in order
  {
    var sorted := SortStrings(order);
    assert |sorted| == |multiset(sorted)| == |multiset(order)| == |order|;
    forall c ensures c in sorted <==> c in order {
      assert c in sorted <==> c in multiset(sorted);
      assert c in order <==> c in multiset(order);
    }
  }

  /** The verification pass over the sorted dish names: one line per dish
      comparing the stored games with the recount. */
  method VerifyCounts(games: map<string, nat>, sorted: seq<string>, counts: map<string, nat>)
    returns (checks: seq<CountCheck>)
    requires forall j :: 0 <= j < |sorted| ==> sorted[j] in games
    ensures |checks| == |sorted|
    ensures forall i :: 0 <= i < |checks| ==> checks[i] == CheckOf(games, counts, sorted[i])
  {
    checks := [];
    for i := 0 to |sorted|
      invariant |checks| == i
      invariant forall j :: 0 <= j < i ==> checks[j] == CheckOf(games, counts, sorted[j])
    {
      checks := checks + [CheckOf(games, counts, sorted[i])];
    }
  }

  /** What the printed verification report promises: a line for each
      consolidated dish and no other, in increasing name order, each with
      the stored games, the number of battles of the rewritten history the
      dish appears in (twice for a battle against itself), and whether the
      two agree. Stored values are reported, never changed. */
  predicate ReportAgrees(checks: seq<CountCheck>, games: map<string, nat>, history: seq<Battle>) {
    && |checks| == |games|
    && (forall c :: c in games ==> exists i :: 0 <= i < |checks| && checks[i].dish == c)
    && (forall i, j :: 0 <= i < j < |checks| ==> Less(checks[i].dish, checks[j].dish))
    && (forall i :: 0 <= i < |checks| ==>
          && checks[i].dish in games
          && checks[i].stored == games[checks[i].dish]
          && checks[i].calculated == Wins(history, checks[i].dish) + Losses(history, checks[i].dish)
          && (checks[i].ok <==> checks[i].stored == checks[i].calculated))
  }

  /** The report built from the recounted battles over an increasing
      listing of the dishes meets its promise. */
  lemma VerifyCountsAgree(games: map<string, nat>, sorted: seq<string>, counts: map<string, nat>,
                          history: seq<Battle>, checks: seq<CountCheck>)
    requires |sorted| == |games| && StrictlySorted(sorted)
    requires forall c :: c in sorted <==> c in games
    requires forall d :: GamesOf(counts, d) == Wins(history, d) + Losses(history, d)
    requires |checks| == |sorted|
    requires forall i :: 0 <= i < |checks| ==> checks[i] == CheckOf(games, counts, sorted[i])
    ensures ReportAgrees(checks, games, history)
  {
    forall c | c in games ensures exists i :: 0 <= i < |checks| && checks[i].dish == c {
      var i :| 0 <= i < |sorted| && sorted[i] == c;
      assert checks[i].dish == c;
    }
    forall i, j | 0 <= i < j < |checks| ensures Less(checks[i].dish, checks[j].dish) {
      assert checks[i].dish == sorted[i] && checks[j].dish == sorted[j];
    }
  }

  /** `sorted(keys)` over the keys of `games` listed without repeats in
      `order`: each key once, in increasing order. */
  lemma SortedKeys(order: seq<string>, games: map<string, nat>)
    requires Distinct(order)
    requires forall c :: c in order <==> c in games
    ensures |SortStrings(order)| == |games| && StrictlySorted(SortStrings(order))
    ensures forall c :: c in SortStrings(order) <==> c in games
  {
    SortedEnumerates(order);
    DistinctCard(order, games.Keys);
    SortStringsSorted(order);
  }

  /** Recount the rewritten history and report it against the stored
      games of the consolidated dishes. */
  method ReportCounts(games: map<string, nat>, order: seq<string>, history: seq<Battle>)
    returns (checks: seq<CountCheck>)
    requires Distinct(order)
    requires forall c :: c in order <==> c in games
    ensures ReportAgrees(checks, games, history)
  {
    var counts := CountBattles(history);
    var sorted := SortStrings(order);
    SortedKeys(order, games);
    checks := VerifyCounts(games, sorted, counts);
    VerifyCountsAgree(games, sorted, counts, history, checks);
  }

  // ---------------------------------------------------------------------
  // Final rankings

  /** The rows `(dish, score, games)` of the consolidated store, in the
      order its dishes were inserted. */
  function StoreRows(order: seq<string>, elo: map<string, real>, games: map<string, nat>): (rows: seq<Row>)
    requires forall c :: c in order ==> c in elo && c in games
    ensures |rows| == |order|
    ensures forall i :: 0 <= i < |order| ==> rows[i] == Row(order[i], elo[order[i]], games[order[i]])
  {
    if order == [] then []
    else [Row(order[0], elo[order[0]], games[order[0]])] + StoreRows(order[1..], elo, games)
  }

  /** The rows of a store, one per dish. */
  function StoreSet(elo: map<string, real>, games: map<string, nat>): set<Row> {
    set c | c in elo && c in games :: Row(c, elo[c], games[c])
  }

  /** The rows of a store listed without repetition are each row of the
      store once. */
  lemma RowsOfStore(order: seq<string>, elo: map<string, real>, games: map<string, nat>)
    requires Distinct(order)
    requires forall c :: c in order <==> c in elo
    requires forall c :: c in order <==> c in games
    ensures multiset(StoreRows(order, elo, games)) == multiset(StoreSet(elo, games))
  {
    var rows := StoreRows(order, elo, games);
    StoreRowsMembers(order, elo, games);
    forall i, j | 0 <= i < j < |rows| ensures rows[i] != rows[j] {
      assert rows[i].dish == order[i] && rows[j].dish == order[j];
    }
    DistinctMultiset(rows, StoreSet(elo, games));
  }

  /** The rows listed are exactly the rows of the store. */
  lemma StoreRowsMembers(order: seq<string>, elo: map<string, real>, games: map<string, nat>)
    requires forall c :: c in order <==> c in elo
    requires forall c :: c in order <==> c in games
    ensures forall r :: r in StoreRows(order, elo, games) <==> r in StoreSet(elo, games)
  {
    var rows := StoreRows(order, elo, games);
    forall r | r in StoreSet(elo, games) ensures r in rows {
      var i :| 0 <= i < |order| && order[i] == r.dish;
      assert rows[i] == r;
    }
  }

  /** The final rankings: all rows sorted by score, highest first and stably,
      then split into games >= 3 (official) and games < 3 (provisional,
      dishes without games included). */
  function FinalRankings(rows: seq<Row>): (tiers: (seq<Row>, seq<Row>))
    ensures NonIncreasing(tiers.0) && NonIncreasing(tiers.1)
    ensures forall r :: r in tiers.0 ==> r.games >= 3
    ensures forall r :: r in tiers.1 ==> r.games < 3
    ensures multiset(tiers.0) + multiset(tiers.1) == multiset(rows)
  {
    var sorted := SortByScore(rows);
    SelectSorted(sorted, AtLeast(3));
    SelectSorted(sorted, Between(0, 3));
    SelectMembers(sorted, AtLeast(3));
    SelectMembers(sorted, Between(0, 3));
    SelectPartition(sorted, 3);
    (Select(sorted, AtLeast(3)), Select(sorted, Between(0, 3)))
  }

  /** Within each tier, dishes with equal scores keep the store's order. */
  lemma FinalRankingsStable(rows: seq<Row>, v: real)
    ensures WithScore(FinalRankings(rows).0, v) == Select(WithScore(rows, v), AtLeast(3))
    ensures WithScore(FinalRankings(rows).1, v) == Select(WithScore(rows, v), Between(0, 3))
  {
    var sorted := SortByScore(rows);
    SortStable(rows, v);
    SelectWithScore(sorted, AtLeast(3), v);
    SelectWithScore(sorted, Between(0, 3), v);
  }

  /** What the two printed rankings promise about a store: each sorted by
      score, highest first; games >= 3 in the first, fewer in the second;
      together every row of the store once. */
  predicate SplitsStore(official: seq<Row>, provisional: seq<Row>, elo: map<string, real>, games: map<string, nat>) {
    && NonIncreasing(official) && NonIncreasing(provisional)
    && (forall r :: r in official ==> r.games >= 3)
    && (forall r :: r in provisional ==> r.games < 3)
    && multiset(official) + multiset(provisional) == multiset(StoreSet(elo, games))
  }

  // ---------------------------------------------------------------------
  // consolidate_elo_data

  /** A failing group is a lone variant without games. */
  lemma FailingGroupLonely(t: EloTable, games: map<string, nat>, c: string)
    requires WellFormed(t)
    requires |Variants(t.names, c)| >= 1
    requires MergeGroup(t, games, c).Failure?
    ensures MergeGroup(t, games, c).error.MissingGames?
    ensures LonelyMissing(t.names, games, MergeGroup(t, games, c).error.dish)
  {
    var vs := Variants(t.names, c);
    VariantsMembers(t.names, c);
    assert vs[0] in vs;
    assert vs == [vs[0]];
  }

  /** With no lone variant missing its games, every group merges. */
  lemma GroupSucceeds(t: EloTable, games: map<string, nat>, c: string)
    requires WellFormed(t)
    requires |Variants(t.names, c)| >= 1
    requires !SomeLonelyMissing(t.names, games)
    ensures MergeGroup(t, games, c).Success?
  {
    var vs := Variants(t.names, c);
    VariantsMembers(t.names, c);
    if |vs| == 1 {
      assert vs[0] in vs;
      assert vs == [vs[0]];
      assert !LonelyMissing(t.names, games, vs[0]);
    }
  }

  /** Every group can be merged exactly when no key is a lone variant
      without games. */
  lemma MergeSucceedsIff(t: EloTable, games: map<string, nat>, order: seq<string>)
    requires WellFormed(t)
    requires forall c :: c in order <==> c in CanonicalNames(t.names)
    ensures forall j :: 0 <= j < |order| ==> |Variants(t.names, order[j])| >= 1
    ensures (forall j :: 0 <= j < |order| ==> MergeGroup(t, games, order[j]).Success?)
            <==> !SomeLonelyMissing(t.names, games)
  {
    forall j | 0 <= j < |order| ensures |Variants(t.names, order[j])| >= 1 {
      assert order[j] in order;
      VariantsNonEmpty(t.names, order[j]);
    }
    if SomeLonelyMissing(t.names, games) {
      var d :| d in t.names && LonelyMissing(t.names, games, d);
      LonelyMissingFails(t, games, d);
      var c := ExtractChineseName(d);
      assert c in CanonicalNames(t.names);
      var j :| 0 <= j < |order| && order[j] == c;
      assert !MergeGroup(t, games, order[j]).Success?;
    } else {
      forall j | 0 <= j < |order| ensures MergeGroup(t, games, order[j]).Success? {
        GroupSucceeds(t, games, order[j]);
      }
    }
  }

  /** Merging every canonical group yields the merged store. */
  lemma MergeGroupsStore(t: EloTable, games: map<string, nat>, order: seq<string>,
                         elo: map<string, real>, gs: map<string, nat>)
    requires WellFormed(t)
    requires forall c :: c in order <==> c in CanonicalNames(t.names)
    requires forall c :: c in elo <==> c in order
    requires forall c :: c in gs <==> c in order
    requires forall c :: c in elo && c in gs ==>
               |Variants(t.names, c)| >= 1 && MergeGroup(t, games, c) == Success((elo[c], gs[c]))
    ensures elo == MergedElo(t, games)
    ensures gs == MergedGames(t.names, games)
  {
    var me, mg := MergedElo(t, games), MergedGames(t.names, games);
    MergedKeys(t, games, order, elo.Keys);
    MergedKeys(t, games, order, gs.Keys);
    forall c | c in elo ensures elo[c] == me[c] {
      MergedAt(t, games, c);
    }
    forall c | c in gs ensures gs[c] == mg[c] {
      MergedAt(t, games, c);
    }
    SameMap(elo, me);
    SameMap(gs, mg);
  }

  /** Two maps with the same keys and the same value at each key are equal. */
  lemma SameMap<V>(a: map<string, V>, b: map<string, V>)
    requires a.Keys == b.Keys
    requires forall k :: k in a ==> a[k] == b[k]
    ensures a == b
  {
  }

  lemma MergedKeys(t: EloTable, games: map<string, nat>, order: seq<string>, keys: set<string>)
    requires WellFormed(t)
    requires forall c :: c in order <==> c in CanonicalNames(t.names)
    requires forall c :: c in keys <==> c in order
    ensures keys == MergedElo(t, games).Keys == MergedGames(t.names, games).Keys
  {
  }

  lemma MergedAt(t: EloTable, games: map<string, nat>, c: string)
    requires WellFormed(t)
    requires c in CanonicalNames(t.names)
    ensures |Variants(t.names, c)| >= 1
    ensures c in MergedElo(t, games) && MergedElo(t, games)[c] == MergedRating(t, games, c)
    ensures c in MergedGames(t.names, games) && MergedGames(t.names, games)[c] == SumGames(Variants(t.names, c), games)
  {
    VariantsNonEmpty(t.names, c);
  }

  /** The grouping half of `consolidate_elo_data`: collect the canonical
      names, then merge group by group. */
  method MergeAll(t: EloTable, games: map<string, nat>)
    returns (res: Result<(seq<string>, map<string, real>, map<string, nat>), Error>)
    requires WellFormed(t)
    ensures res.Failure? <==> SomeLonelyMissing(t.names, games)
    ensures res.Failure? ==> res.error.MissingGames? && LonelyMissing(t.names, games, res.error.dish)
    ensures res.Success? ==>
              && Distinct(res.value.0)
              && (forall c :: c in res.value.0 <==> c in CanonicalNames(t.names))
              && (forall c :: c in res.value.0 <==> c in res.value.1)
              && (forall c :: c in res.value.0 <==> c in res.value.2)
              && res.value.1 == MergedElo(t, games)
              && res.value.2 == MergedGames(t.names, games)
  {
    var order := CollectCanonicalNames(t.names);
    MergeSucceedsIff(t, games, order);
    var merged := MergeGroups(t, games, order);
    if merged.Failure? {
      var j :| 0 <= j < |order| && MergeGroup(t, games, order[j]) == Failure(merged.error);
      FailingGroupLonely(t, games, order[j]);
      return Failure(merged.error);
    }
    var (elo, gs) := merged.value;
    MergeGroupsStore(t, games, order, elo, gs);
    return Success((order, elo, gs));
  }

  /** `consolidate_elo_data` without its file reads and writes: a missing
      top-level key aborts before anything is produced; then the groups are
      merged (which aborts on a lone variant without games), the history is
      rewritten, battles are recounted and compared, and the rankings are
      built. */
  method ConsolidateEloData(file: ExportFile) returns (res: Result<Consolidated, Error>)
    requires file.eloRatings.Some? ==> WellFormed(file.eloRatings.value)
    ensures file.eloRatings.None? ==> res == Failure(MissingField("elo_ratings"))
    ensures file.eloRatings.Some? && file.gamesPlayed.None? ==> res == Failure(MissingField("games_played"))
    ensures file.eloRatings.Some? && file.gamesPlayed.Some? && file.battleHistory.None?
            ==> res == Failure(MissingField("battle_history"))
    ensures res.Failure? && res.error.MissingField? ==>
              file.eloRatings.None? || file.gamesPlayed.None? || file.battleHistory.None?
    ensures res.Failure? && res.error.MissingGames? ==>
              file.eloRatings.Some? && file.gamesPlayed.Some?
              && LonelyMissing(file.eloRatings.value.names, file.gamesPlayed.value, res.error.dish)
    ensures res.Failure? && res.error.MissingBattleField? ==>
              file.eloRatings.Some? && file.gamesPlayed.Some? && file.battleHistory.Some?
              && !SomeLonelyMissing(file.eloRatings.value.names, file.gamesPlayed.value)
              && exists i :: FirstIncomplete(file.battleHistory.value, i)
                             && res.error == MissingName(file.battleHistory.value[i], i)
    ensures file.eloRatings.Some? && file.gamesPlayed.Some? && file.battleHistory.Some? ==>
              (res.Success? <==> !SomeLonelyMissing(file.eloRatings.value.names, file.gamesPlayed.value)
                                 && forall i :: 0 <= i < |file.battleHistory.value| ==> Complete(file.battleHistory.value[i]))
    ensures res.Success? ==>
              var t, games, history := file.eloRatings.value, file.gamesPlayed.value, file.battleHistory.value;
              && res.value.elo == MergedElo(t, games)
              && res.value.games == MergedGames(t.names, games)
              && |res.value.history| == |history|
              && (forall i :: 0 <= i < |history| ==> res.value.history[i] == Canonicalised(history[i]))
              && ReportAgrees(res.value.checks, res.value.games, res.value.history)
              && SplitsStore(res.value.official, res.value.provisional, res.value.elo, res.value.games)
  {
    if file.eloRatings.None? {
      return Failure(MissingField("elo_ratings"));
    }
    if file.gamesPlayed.None? {
      return Failure(MissingField("games_played"));
    }
    if file.battleHistory.None? {
      return Failure(MissingField("battle_history"));
    }
    var t, games, history := file.eloRatings.value, file.gamesPlayed.value, file.battleHistory.value;

    var merged := MergeAll(t, games);
    if merged.Failure? {
      return Failure(merged.error);
    }
    var (order, elo, consolidatedGames) := merged.value;

    var rewritten := RewriteHistory(history);
    if rewritten.Failure? {
      return Failure(rewritten.error);
    }
    var updated := rewritten.value;
    var checks := ReportCounts(consolidatedGames, order, updated);

    var rows := StoreRows(order, elo, consolidatedGames);
    RowsOfStore(order, elo, consolidatedGames);
    var (official, provisional) := FinalRankings(rows);

    return Success(Consolidated(elo, consolidatedGames, updated, checks, official, provisional));
  }

  // ---------------------------------------------------------------------
  // Properties of the merged store

  /** The games of the dishes of `order` in `m`, added up. */
  function TotalOver(order: seq<string>, m: map<string, nat>): nat {
    if order == [] then 0 else GamesOf(m, order[0]) + TotalOver(order[1..], m)
  }

  /** The group totals of `order`'s canonical names, added up. */
  function GroupTotal(order: seq<string>, names: seq<string>, games: map<string, nat>): nat {
    if order == [] then 0
    else SumGames(Variants(names, order[0]), games) + GroupTotal(order[1..], names, games)
  }

  lemma {:induction false} GroupTotalNoNames(order: seq<string>, games: map<string, nat>)
    ensures GroupTotal(order, [], games) == 0
  {
    if order != [] {
      GroupTotalNoNames(order[1..], games);
    }
  }

  /** One more raw key adds its games to the group of its canonical name,
      when that name is listed, and to no other group. */
  lemma {:induction false} GroupTotalStep(order: seq<string>, init: seq<string>, k: string, games: map<string, nat>)
    requires Distinct(order)
    ensures GroupTotal(order, init + [k], games)
            == GroupTotal(order, init, games) + (if ExtractChineseName(k) in order then GamesOf(games, k) else 0)
  {
    if order != [] {
      var o := order[0];
      GroupStep(init, k, o, games);
      DistinctTail(order);
      HeadTail(order, ExtractChineseName(k));
      GroupTotalStep(order[1..], init, k, games);
    }
  }

  /** One more raw key adds its games to the group of `o` exactly when it
      normalises to `o`. */
  lemma GroupStep(init: seq<string>, k: string, o: string, games: map<string, nat>)
    ensures SumGames(Variants(init + [k], o), games)
            == SumGames(Variants(init, o), games) + (if ExtractChineseName(k) == o then GamesOf(games, k) else 0)
  {
    var names := init + [k];
    assert names[..|names| - 1] == init && names[|names| - 1] == k;
    var vs := Variants(init, o);
    assert Variants(names, o) == vs + (if ExtractChineseName(k) == o then [k] else []);
    if ExtractChineseName(k) == o {
      assert (vs + [k])[..|vs|] == vs;
    } else {
      assert vs + [] == vs;
    }
  }

  /** Summed over any duplicate-free list that covers every canonical
      name, the group totals add up to the raw games of all the keys. */
  lemma {:induction false} GroupTotalAll(order: seq<string>, names: seq<string>, games: map<string, nat>)
    requires Distinct(order)
    requires forall k :: k in names ==> ExtractChineseName(k) in order
    ensures GroupTotal(order, names, games) == SumGames(names, games)
  {
    if names == [] {
      GroupTotalNoNames(order, games);
    } else {
      var init, k := names[..|names| - 1], names[|names| - 1];
      assert names == init + [k];
      GroupTotalAll(order, init, games);
      GroupTotalStep(order, init, k, games);
    }
  }

  lemma {:induction false} TotalOverMerged(t: EloTable, games: map<string, nat>, order: seq<string>)
    requires WellFormed(t)
    requires forall c :: c in order ==> c in CanonicalNames(t.names)
    ensures TotalOver(order, MergedGames(t.names, games)) == GroupTotal(order, t.names, games)
  {
    if order != [] {
      MergedAt(t, games, order[0]);
      TotalOverMerged(t, games, order[1..]);
    }
  }

  /** Consolidation neither creates nor loses games: the consolidated
      games, added up over the canonical names, equal the raw games
      (`games_played.get(d, 0)`) added up over every `elo_ratings` key. */
  lemma GamesConserved(t: EloTable, games: map<string, nat>, order: seq<string>)
    requires WellFormed(t)
    requires Distinct(order)
    requires forall c :: c in order <==> c in CanonicalNames(t.names)
    ensures TotalOver(order, MergedGames(t.names, games)) == SumGames(t.names, games)
  {
    TotalOverMerged(t, games, order);
    forall k | k in t.names ensures ExtractChineseName(k) in order {
      assert ExtractChineseName(k) in CanonicalNames(t.names);
    }
    GroupTotalAll(order, t.names, games);
  }

  /** In a store whose keys are all canonical, each key is a group of its
      own. */
  lemma {:induction false} CanonicalVariants(names: seq<string>, c: string)
    requires Distinct(names)
    requires forall k :: k in names ==> IsCanonical(k)
    requires c in names
    ensures Variants(names, c) == [c]
  {
    var init, k := names[..|names| - 1], names[|names| - 1];
    assert names == init + [k];
    DistinctInit(names);
    assert forall j :: j in init ==> j in names;
    assert k in names && IsCanonical(k);
    if k == c {
      forall j | j in init ensures ExtractChineseName(j) != c {
        assert IsCanonical(j);
      }
      VariantsNone(init, c);
    } else {
      assert c in init;
      CanonicalVariants(init, c);
    }
  }

  /** No key normalises to `c`: `c` has no variants. */
  lemma {:induction false} VariantsNone(names: seq<string>, c: string)
    requires forall k :: k in names ==> ExtractChineseName(k) != c
    ensures Variants(names, c) == []
  {
    if names != [] {
      var init := names[..|names| - 1];
      assert forall k :: k in init ==> k in names;
      VariantsNone(init, c);
    }
  }

  /** Consolidating a store whose keys are already canonical, with a games
      entry for every key and no other, changes nothing. */
  lemma CanonicalStoreUnchanged(t: EloTable, games: map<string, nat>)
    requires WellFormed(t)
    requires forall k :: k in t.names ==> IsCanonical(k)
    requires forall k :: k in t.names <==> k in games
    ensures !SomeLonelyMissing(t.names, games)
    ensures MergedElo(t, games) == t.elo
    ensures MergedGames(t.names, games) == games
  {
    CanonicalNamesOfCanonical(t.names);
    MergedKeys(t, games, t.names, games.Keys);
    CanonicalEloUnchanged(t, games);
    CanonicalGamesUnchanged(t, games);
  }

  lemma CanonicalEloUnchanged(t: EloTable, games: map<string, nat>)
    requires WellFormed(t)
    requires forall k :: k in t.names ==> IsCanonical(k)
    requires forall k :: k in t.names <==> k in games
    requires MergedElo(t, games).Keys == games.Keys
    ensures MergedElo(t, games) == t.elo
  {
    var me := MergedElo(t, games);
    forall c | c in t.names ensures me[c] == t.elo[c] {
      CanonicalGroup(t, games, c);
    }
    SameMap(me, t.elo);
  }

  lemma CanonicalGamesUnchanged(t: EloTable, games: map<string, nat>)
    requires WellFormed(t)
    requires forall k :: k in t.names ==> IsCanonical(k)
    requires forall k :: k in t.names <==> k in games
    requires MergedGames(t.names, games).Keys == games.Keys
    ensures MergedGames(t.names, games) == games
  {
    var mg := MergedGames(t.names, games);
    forall c | c in t.names ensures mg[c] == games[c] {
      CanonicalGroup(t, games, c);
    }
    SameMap(mg, games);
  }

  /** Canonical keys are their own canonical names. */
  lemma CanonicalNamesOfCanonical(names: seq<string>)
    requires forall k :: k in names ==> IsCanonical(k)
    ensures forall c :: c in CanonicalNames(names) <==> c in names
  {
  }

  /** A canonical key with a games entry merges to its own rating and games. */
  lemma CanonicalGroup(t: EloTable, games: map<string, nat>, c: string)
    requires WellFormed(t)
    requires forall k :: k in t.names ==> IsCanonical(k)
    requires c in t.names && c in games
    ensures c in CanonicalNames(t.names)
    ensures MergedElo(t, games)[c] == t.elo[c]
    ensures MergedGames(t.names, games)[c] == games[c]
  {
    CanonicalVariants(t.names, c);
    SingleVariant([c], games);
    MergedAt(t, games, c);
  }

  /** Every consolidated name is canonical. */
  lemma MergedNamesCanonical(names: seq<string>, c: string)
    requires c in CanonicalNames(names)
    ensures IsCanonical(c)
  {
    var k :| k in names && ExtractChineseName(k) == c;
    ExtractIdempotent(k);
  }

  /** Consolidation is a fixpoint: feeding a consolidated store, listed in
      any duplicate-free order, back in yields the same ratings and games. */
  lemma ReconsolidateFixpoint(t: EloTable, games: map<string, nat>, order: seq<string>)
    requires WellFormed(t)
    requires Distinct(order)
    requires forall c :: c in order <==> c in CanonicalNames(t.names)
    ensures WellFormed(EloTable(order, MergedElo(t, games)))
    ensures !SomeLonelyMissing(order, MergedGames(t.names, games))
    ensures MergedElo(EloTable(order, MergedElo(t, games)), MergedGames(t.names, games)) == MergedElo(t, games)
    ensures MergedGames(order, MergedGames(t.names, games)) == MergedGames(t.names, games)
  {
    var t' := EloTable(order, MergedElo(t, games));
    MergedKeys(t, games, order, set c | c in order);
    forall c | c in order ensures IsCanonical(c) {
      MergedNamesCanonical(t.names, c);
    }
    CanonicalStoreUnchanged(t', MergedGames(t.names, games));
  }

  /** A duplicate-free enumeration of a set has the set's size. */
  lemma DistinctCard(order: seq<string>, s: set<string>)
    requires Distinct(order)
    requires forall c :: c in order <==> c in s
    ensures |order| == |s|
  {
    if order != [] {
      var rest := order[1..];
      assert forall c :: c in rest <==> c in s - {order[0]};
      DistinctCard(rest, s - {order[0]});
    }
  }
}
