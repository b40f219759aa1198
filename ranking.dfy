/**
 * Rows of a ranking and the two operations every ranking in the system is
 * built from: keeping the rows of one games-played tier, and sorting by Elo
 * score, highest first.
 *
 * The sort is the one Python's `sorted(..., key=score, reverse=True)`
 * performs: stable, so rows with equal scores keep their input order.
 */
module Ranking {

  /** One line of a ranking: the dish, its Elo score and its games played. */
  datatype Row = Row(dish: string, score: real, games: nat)

  /** A games-played band: `AtLeast(n)` is `games >= n`, `Between(lo, hi)`
      is `lo <= games < hi`. */
  datatype Tier = AtLeast(min: nat) | Between(lo: nat, hi: nat)

  /** `games >= 3`: the official tier everywhere in the system. */
  const Official: Tier := AtLeast(3)

  predicate InTier(games: nat, t: Tier) {
    match t
    case AtLeast(m) => games >= m
    case Between(lo, hi) => lo <= games < hi
  }

  predicate NonIncreasing(rows: seq<Row>) {
    forall i, j :: 0 <= i < j < |rows| ==> rows[i].score >= rows[j].score
  }

  /** The rows of `rows` in tier `t`, in their original order. */
  function Select(rows: seq<Row>, t: Tier): (r: seq<Row>)
    ensures |r| <= |rows|
  {
    if rows == [] then []
    else (if InTier(rows[0].games, t) then [rows[0]] else []) + Select(rows[1..], t)
  }

  /** The tier keeps exactly the rows of `rows` whose games fall in it. */
  lemma {:induction false} SelectMembers(rows: seq<Row>, t: Tier)
    ensures forall x :: x in Select(rows, t) <==> x in rows && InTier(x.games, t)
  {
    if rows != [] {
      SelectMembers(rows[1..], t);
      assert rows == [rows[0]] + rows[1..];
    }
  }

  /** The rows of `rows` with score exactly `v`, in their original order. */
  function WithScore(rows: seq<Row>, v: real): seq<Row> {
    if rows == [] then []
    else (if rows[0].score == v then [rows[0]] else []) + WithScore(rows[1..], v)
  }

  lemma PrependSorted(x: Row, t: seq<Row>)
    requires NonIncreasing(t)
    requires forall k :: 0 <= k < |t| ==> x.score >= t[k].score
    ensures NonIncreasing([x] + t)
  {
    var r := [x] + t;
    forall i, j | 0 <= i < j < |r| ensures r[i].score >= r[j].score {
      if i == 0 {
        assert r[j] == t[j - 1];
      } else {
        assert r[i] == t[i - 1] && r[j] == t[j - 1];
      }
    }
  }

  /** Places `x` after every row scoring at least as much as it does. */
  function Insert(x: Row, t: seq<Row>): (r: seq<Row>)
    requires NonIncreasing(t)
    ensures NonIncreasing(r)
    ensures multiset(r) == multiset(t) + multiset{x}
  {
    if t == [] then [x]
    else if t[0].score >= x.score then
      var r' := Insert(x, t[1..]);
      assert t == [t[0]] + t[1..];
      forall k | 0 <= k < |r'| ensures t[0].score >= r'[k].score {
        assert r'[k] in multiset(t[1..]) + multiset{x};
      }
      PrependSorted(t[0], r');
      [t[0]] + r'
    else
      PrependSorted(x, t);
      [x] + t
  }

  /** `sorted(rows, key=score, reverse=True)`: insertion sort that inserts
      the rows in input order. */
  function SortByScore(rows: seq<Row>): (r: seq<Row>)
    ensures NonIncreasing(r)
    ensures multiset(r) == multiset(rows)
    ensures |r| == |rows|
  {
    if rows == [] then []
    else
      var init := rows[..|rows| - 1];
      assert rows == init + [rows[|rows| - 1]];
      var r := Insert(rows[|rows| - 1], SortByScore(init));
      assert |r| == |multiset(r)|;
      r
  }

  lemma {:induction false} WithScoreAppend(a: seq<Row>, b: seq<Row>, v: real)
    ensures WithScore(a + b, v) == WithScore(a, v) + WithScore(b, v)
  {
    if a != [] {
      assert (a + b)[0] == a[0] && (a + b)[1..] == a[1..] + b;
      WithScoreAppend(a[1..], b, v);
    } else {
      assert a + b == b;
    }
  }

  lemma {:induction false} WithScoreAbsent(t: seq<Row>, v: real)
    requires forall k :: 0 <= k < |t| ==> t[k].score < v
    ensures WithScore(t, v) == []
  {
    if t != [] {
      WithScoreAbsent(t[1..], v);
    }
  }

  lemma WithScoreOne(y: Row, v: real)
    ensures WithScore([y], v) == if y.score == v then [y] else []
  {
    assert [y][1..] == [];
  }

  /** A row scoring above every row of `t` comes after none of them. */
  lemma WithScoreFront(x: Row, t: seq<Row>, v: real)
    requires NonIncreasing(t)
    requires t != [] && t[0].score < x.score
    ensures WithScore([x] + t, v) == WithScore(t, v) + (if x.score == v then [x] else [])
  {
    WithScoreOne(x, v);
    WithScoreAppend([x], t, v);
    if x.score == v {
      forall k | 0 <= k < |t| ensures t[k].score < v {
        if k > 0 {
          assert t[0].score >= t[k].score;
        }
      }
      WithScoreAbsent(t, v);
      assert [x] + [] == [] + [x];
    }
  }

  /** Keeping the head of `t` in front of a rearranged tail keeps it in
      front among the rows of its score. */
  lemma WithScoreBehind(t: seq<Row>, rest: seq<Row>, tail: seq<Row>, v: real)
    requires t != []
    requires WithScore(rest, v) == WithScore(t[1..], v) + tail
    ensures WithScore([t[0]] + rest, v) == WithScore(t, v) + tail
  {
    WithScoreAppend([t[0]], rest, v);
    WithScoreAppend([t[0]], t[1..], v);
    assert [t[0]] + t[1..] == t;
  }

  /** Inserting `x` appends it to the rows of its own score. */
  lemma {:induction false} InsertWithScore(x: Row, t: seq<Row>, v: real)
    requires NonIncreasing(t)
    ensures WithScore(Insert(x, t), v) == WithScore(t, v) + (if x.score == v then [x] else [])
  {
    if t == [] {
      WithScoreOne(x, v);
      assert Insert(x, t) == [x] && t + [x] == [x];
    } else if t[0].score >= x.score {
      assert Insert(x, t) == [t[0]] + Insert(x, t[1..]);
      InsertWithScore(x, t[1..], v);
      WithScoreBehind(t, Insert(x, t[1..]), if x.score == v then [x] else [], v);
    } else {
      assert Insert(x, t) == [x] + t;
      WithScoreFront(x, t, v);
    }
  }

  /** The sort is stable: for every score, the rows with that score appear
      in the output in the order they had in the input. */
  lemma {:induction false} SortStable(rows: seq<Row>, v: real)
    ensures WithScore(SortByScore(rows), v) == WithScore(rows, v)
    decreases |rows|
  {
    if rows != [] {
      var init := rows[..|rows| - 1];
      var last := rows[|rows| - 1];
      SortStable(init, v);
      InsertWithScore(last, SortByScore(init), v);
      WithScoreLast(rows, v);
    }
  }

  /** The last row joins the rows of its score at the end. */
  lemma WithScoreLast(rows: seq<Row>, v: real)
    requires rows != []
    ensures WithScore(rows, v)
            == WithScore(rows[..|rows| - 1], v) + (if rows[|rows| - 1].score == v then [rows[|rows| - 1]] else [])
  {
    var init, last := rows[..|rows| - 1], rows[|rows| - 1];
    WithScoreAppend(init, [last], v);
    WithScoreOne(last, v);
    assert init + [last] == rows;
  }

  /** Keeping one tier of a sorted ranking leaves it sorted. */
  lemma {:induction false} SelectSorted(rows: seq<Row>, t: Tier)
    requires NonIncreasing(rows)
    ensures NonIncreasing(Select(rows, t))
  {
    if rows != [] {
      TailSorted(rows);
      SelectSorted(rows[1..], t);
      var rest := Select(rows[1..], t);
      if InTier(rows[0].games, t) {
        HeadAbove(rows);
        SelectMembers(rows[1..], t);
        forall k | 0 <= k < |rest| ensures rows[0].score >= rest[k].score {
          assert rest[k] in rows[1..];
        }
        PrependSorted(rows[0], rest);
      }
    }
  }

  /** The head of a sorted ranking scores at least as much as every other row. */
  lemma HeadAbove(rows: seq<Row>)
    requires NonIncreasing(rows) && rows != []
    ensures forall x :: x in rows[1..] ==> rows[0].score >= x.score
  {
    forall x | x in rows[1..] ensures rows[0].score >= x.score {
      var j :| 0 <= j < |rows[1..]| && rows[1..][j] == x;
      assert rows[j + 1] == x;
    }
  }

  /** The tail of a sorted ranking is sorted. */
  lemma TailSorted(rows: seq<Row>)
    requires NonIncreasing(rows) && rows != []
    ensures NonIncreasing(rows[1..])
  {
    forall i, j | 0 <= i < j < |rows[1..]| ensures rows[1..][i].score >= rows[1..][j].score {
      assert rows[1..][i] == rows[i + 1] && rows[1..][j] == rows[j + 1];
    }
  }

  /** Keeping one tier does not reorder rows of equal score. */
  lemma {:induction false} SelectWithScore(rows: seq<Row>, t: Tier, v: real)
    ensures WithScore(Select(rows, t), v) == Select(WithScore(rows, v), t)
  {
    if rows != [] {
      SelectWithScore(rows[1..], t, v);
      var head := if InTier(rows[0].games, t) then [rows[0]] else [];
      WithScoreAppend(head, Select(rows[1..], t), v);
      var same := if rows[0].score == v then [rows[0]] else [];
      SelectAppend(same, WithScore(rows[1..], v), t);
    }
  }

  lemma {:induction false} SelectAppend(a: seq<Row>, b: seq<Row>, t: Tier)
    ensures Select(a + b, t) == Select(a, t) + Select(b, t)
  {
    if a != [] {
      var head := if InTier(a[0].games, t) then [a[0]] else [];
      assert (a + b)[0] == a[0] && (a + b)[1..] == a[1..] + b;
      SelectAppend(a[1..], b, t);
      calc {
        Select(a + b, t);
        head + Select(a[1..] + b, t);
        head + (Select(a[1..], t) + Select(b, t));
        (head + Select(a[1..], t)) + Select(b, t);
      }
    } else {
      assert a + b == b;
    }
  }

  /** How many copies of each row the tier keeps. */
  lemma {:induction false} SelectCount(rows: seq<Row>, t: Tier, x: Row)
    ensures multiset(Select(rows, t))[x] == if InTier(x.games, t) then multiset(rows)[x] else 0
  {
    if rows != [] {
      var head := if InTier(rows[0].games, t) then [rows[0]] else [];
      SelectCount(rows[1..], t, x);
      assert multiset(Select(rows, t)) == multiset(head) + multiset(Select(rows[1..], t));
      assert multiset(rows) == multiset([rows[0]]) + multiset(rows[1..]) by {
        assert rows == [rows[0]] + rows[1..];
      }
    }
  }

  /** Selecting a tier from two permutations of the same rows gives two
      permutations of the same tier. */
  lemma SelectPermutation(a: seq<Row>, b: seq<Row>, t: Tier)
    requires multiset(a) == multiset(b)
    ensures multiset(Select(a, t)) == multiset(Select(b, t))
  {
    forall x ensures multiset(Select(a, t))[x] == multiset(Select(b, t))[x] {
      SelectCount(a, t, x);
      SelectCount(b, t, x);
    }
  }

  /** `games >= n` and `games < n` split every ranking in two: each row is
      in exactly one of the two tiers. */
  lemma SelectPartition(rows: seq<Row>, n: nat)
    ensures multiset(Select(rows, AtLeast(n))) + multiset(Select(rows, Between(0, n))) == multiset(rows)
  {
    forall x ensures (multiset(Select(rows, AtLeast(n))) + multiset(Select(rows, Between(0, n))))[x]
                     == multiset(rows)[x] {
      SelectCount(rows, AtLeast(n), x);
      SelectCount(rows, Between(0, n), x);
    }
  }
}
