/**
 * The two list helpers of the command-line ranking system: reading dish
 * names out of the lines of a menu file, and listing every pair of the
 * dishes drawn for one round (`itertools.combinations(dishes, 2)`).
 */
module Menu {
  import opened Wrappers
  import opened Text
  import opened Sequences

  // ---------------------------------------------------------------------
  // Menu lines

  /** The separator between a menu entry's number and its name. */
  const Arrow: char := '→'

  /** The dish a menu line contributes: when the stripped line holds an
      arrow, the stripped text after the first arrow, up to the next arrow
      or the end; nothing when there is no arrow or that text is blank. */
  function MenuDish(raw: string): Option<string> {
    var line := Trim(raw);
    if Arrow in line then
      SecondPiece(line, Arrow);
      var name := Trim(SplitOn(line, Arrow)[1]);
      if name == [] then None else Some(name)
    else None
  }

  /** The text between the first arrow of `line` and the next one, or the
      end of the line. */
  function AfterFirstArrow(line: string): string
    requires Arrow in line
  {
    var rest := line[IndexOf(line, Arrow) + 1..];
    if Arrow in rest then rest[..IndexOf(rest, Arrow)] else rest
  }

  /** A line gives a dish exactly when its stripped text holds an arrow
      and the text after the first arrow is not blank; the dish is that
      text, stripped. */
  lemma MenuDishSpec(raw: string)
    ensures var line := Trim(raw);
            && (Arrow !in line ==> MenuDish(raw) == None)
            && (Arrow in line ==>
                  MenuDish(raw) == if Trim(AfterFirstArrow(line)) == [] then None else Some(Trim(AfterFirstArrow(line))))
  {
    var line := Trim(raw);
    if Arrow in line {
      SecondPieceAfterArrow(line);
    }
  }

  lemma SecondPieceAfterArrow(line: string)
    requires Arrow in line
    ensures |SplitOn(line, Arrow)| >= 2 && SplitOn(line, Arrow)[1] == AfterFirstArrow(line)
  {
    SecondPiece(line, Arrow);
  }

  /** Every character of the stripped text is in the text. */
  lemma TrimKeepsChars(s: string, c: char)
    requires c in Trim(s)
    ensures c in s
  {
    var t := TrimStart(s);
    var r := TrimEnd(t);
    var k :| 0 <= k < |r| && r[k] == c;
    assert r[k] == t[k];
    assert t[k] == s[|s| - |t| + k];
  }

  /** A dish name is non-blank, has no surrounding whitespace and holds no
      arrow. */
  lemma MenuDishShape(raw: string)
    ensures MenuDish(raw).Some? ==>
              var d := MenuDish(raw).value;
              d != [] && Unpadded(d) && Arrow !in d
  {
    var line := Trim(raw);
    if Arrow in line {
      SecondPiece(line, Arrow);
      var piece := SplitOn(line, Arrow)[1];
      assert Arrow !in piece;
      if Arrow in Trim(piece) {
        TrimKeepsChars(piece, Arrow);
      }
    }
  }

  /** The names the menu lines give, in line order. */
  function MenuOf(lines: seq<string>): (menu: seq<string>)
    ensures |menu| <= |lines|
  {
    if lines == [] then []
    else
      MenuOf(lines[..|lines| - 1])
      + (match MenuDish(lines[|lines| - 1]) case Some(d) => [d] case None => [])
  }

  /** Reading a file in two parts gives the names of the first part, then
      those of the second: the order of the lines is kept. */
  lemma {:induction false} MenuOfAppend(a: seq<string>, b: seq<string>)
    ensures MenuOf(a + b) == MenuOf(a) + MenuOf(b)
    decreases |b|
  {
    if b == [] {
      assert a + b == a;
    } else {
      var b' := b[..|b| - 1];
      assert (a + b)[..|a + b| - 1] == a + b';
      assert (a + b)[|a + b| - 1] == b[|b| - 1];
      MenuOfAppend(a, b');
    }
  }

  /** Every name on the menu is the dish of one of the lines. */
  lemma {:induction false} MenuOfEntries(lines: seq<string>)
    ensures forall d :: d in MenuOf(lines) ==>
              exists j :: 0 <= j < |lines| && MenuDish(lines[j]) == Some(d)
  {
    if lines != [] {
      var init := lines[..|lines| - 1];
      MenuOfEntries(init);
      forall d | d in MenuOf(lines)
        ensures exists j :: 0 <= j < |lines| && MenuDish(lines[j]) == Some(d)
      {
        if d in MenuOf(init) {
          var j :| 0 <= j < |init| && MenuDish(init[j]) == Some(d);
          assert lines[j] == init[j];
        } else {
          assert MenuDish(lines[|lines| - 1]) == Some(d);
        }
      }
    }
  }

  /** The line loop of `load_menu` for one encoding: keep the dish of
      each line that gives one, in line order. */
  method LoadMenuLines(lines: seq<string>) returns (menu: seq<string>)
    ensures menu == MenuOf(lines)
  {
    menu := [];
    var n := 0;
    while n < |lines|
      invariant 0 <= n <= |lines|
      invariant menu == MenuOf(lines[..n])
    {
      ghost var before := menu;
      var dish := MenuDish(lines[n]);
      if dish.Some? {
        menu := menu + [dish.value];
      }
      MenuOfOneMore(lines, n, before, menu);
      n := n + 1;
    }
    TakeAll(lines);
  }

  /** One more line adds its dish, if any, at the end of the menu. */
  lemma MenuOfOneMore(lines: seq<string>, n: nat, before: seq<string>, after: seq<string>)
    requires n < |lines| && before == MenuOf(lines[..n])
    requires after == (match MenuDish(lines[n]) case Some(d) => before + [d] case None => before)
    ensures after == MenuOf(lines[..n + 1])
  {
    assert lines[..n + 1][..n] == lines[..n];
  }

  /** A numbered entry such as "1→卤肉饭" gives its name. */
  lemma NumberedEntry(name: string)
    requires name != [] && Unpadded(name) && Arrow !in name
    ensures MenuDish("1→" + name) == Some(name)
  {
    NumberedEntryTrimmed(name);
    NumberedEntryName(name);
    MenuDishSpec("1→" + name);
    TrimUnpadded(name);
  }

  lemma NumberedEntryTrimmed(name: string)
    requires name != [] && Unpadded(name)
    ensures Trim("1→" + name) == "1→" + name
  {
    var line := "1→" + name;
    assert line[0] == '1' && line[|line| - 1] == name[|name| - 1];
    TrimUnpadded(line);
  }

  lemma NumberedEntryArrow(name: string)
    ensures Arrow in "1→" + name && IndexOf("1→" + name, Arrow) == 1
  {
    var line := "1→" + name;
    assert line[1] == Arrow && line[0] != Arrow;
  }

  lemma NumberedEntryName(name: string)
    requires Arrow !in name
    ensures Arrow in "1→" + name && AfterFirstArrow("1→" + name) == name
  {
    var line := "1→" + name;
    NumberedEntryArrow(name);
    assert line[2..] == name;
  }

  // ---------------------------------------------------------------------
  // Pairwise comparisons

  type Pair = (string, string)

  /** `x` paired with each of `rest`, in order. */
  function PairsWith(x: string, rest: seq<string>): seq<Pair> {
    seq(|rest|, k requires 0 <= k < |rest| => (x, rest[k]))
  }

  /** `n` choose 2, by the recurrence `C(n) = (n - 1) + C(n - 1)`. */
  function Choose2(n: nat): nat {
    if n == 0 then 0 else (n - 1) + Choose2(n - 1)
  }

  /** `C(n) = n (n - 1) / 2`. */
  lemma {:induction false} Choose2Closed(n: nat)
    ensures 2 * Choose2(n) == n * (n - 1)
  {
    if n > 0 {
      Choose2Closed(n - 1);
      assert n * (n - 1) == (n - 1) * (n - 2) + 2 * (n - 1);
    }
  }

  /** `list(combinations(ds, 2))`: each dish with each later one, the
      first dish's pairs first. */
  function Pairwise(ds: seq<string>): (r: seq<Pair>)
    ensures |r| == Choose2(|ds|)
  {
    if ds == [] then [] else PairsWith(ds[0], ds[1..]) + Pairwise(ds[1..])
  }

  /** Where the pair of positions `i < j` lands among `n` dishes: after the
      `n - 1` pairs of the first dish when `i > 0`. */
  function PairIndex(n: nat, i: nat, j: nat): nat
    requires i < j < n
  {
    if i == 0 then j - 1 else (n - 1) + PairIndex(n - 1, i - 1, j - 1)
  }

  /** The pair of positions `i < j` is in the list, at `PairIndex`. */
  lemma {:induction false} PairwiseAt(ds: seq<string>, i: nat, j: nat)
    requires i < j < |ds|
    ensures PairIndex(|ds|, i, j) < |Pairwise(ds)|
    ensures Pairwise(ds)[PairIndex(|ds|, i, j)] == (ds[i], ds[j])
  {
    var head := PairsWith(ds[0], ds[1..]);
    if i == 0 {
      assert Pairwise(ds)[j - 1] == head[j - 1];
    } else {
      PairwiseAt(ds[1..], i - 1, j - 1);
      assert Pairwise(ds)[PairIndex(|ds|, i, j)] == Pairwise(ds[1..])[PairIndex(|ds| - 1, i - 1, j - 1)];
    }
  }

  /** Every entry of the list is the pair of some positions `i < j`. */
  lemma {:induction false} PairwiseOnly(ds: seq<string>, k: nat)
    requires k < |Pairwise(ds)|
    ensures exists i: nat, j: nat :: i < j < |ds| && PairIndex(|ds|, i, j) == k
  {
    var n := |ds|;
    if k < n - 1 {
      assert PairIndex(n, 0, k + 1) == k;
    } else {
      assert Pairwise(ds) == PairsWith(ds[0], ds[1..]) + Pairwise(ds[1..]);
      PairwiseOnly(ds[1..], k - (n - 1));
      var i: nat, j: nat :| i < j < n - 1 && PairIndex(n - 1, i, j) == k - (n - 1);
      assert PairIndex(n, i + 1, j + 1) == k;
    }
  }

  /** The pairs come in lexicographic order of their positions. */
  lemma {:induction false} PairIndexOrder(n: nat, i: nat, j: nat, i': nat, j': nat)
    requires i < j < n && i' < j' < n
    requires i < i' || (i == i' && j < j')
    ensures PairIndex(n, i, j) < PairIndex(n, i', j')
  {
    if i > 0 {
      PairIndexOrder(n - 1, i - 1, j - 1, i' - 1, j' - 1);
    }
  }

  /** Five dishes give ten comparisons. */
  lemma FiveDishes(ds: seq<string>)
    requires |ds| == 5
    ensures |Pairwise(ds)| == 10
  {
    assert Choose2(5) == 10;
  }
}
