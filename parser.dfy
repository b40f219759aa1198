/**
 * The match-file parser of the web version: every non-blank, non-header
 * line of the form `<dish1><0|1><dish2><0|1>` becomes a (winner, loser)
 * pair, and every other line is reported by its 1-based number.
 *
 * The line pattern is the regular expression `(.+?)([01])(.+?)([01])$`
 * applied with `re.match`. It is modelled on its own terms (a split of the
 * line into four groups, the first as short as possible) and by an index
 * computation that is proved to pick exactly that split. Python's `$` also
 * matches just before a final newline; the model does not, which is exact
 * on the lines the parser classifies, since they are stripped and so never
 * end in a newline (`ClassifiedLinesEndClean`).
 */
module MatchParser {
  import opened Wrappers
  import opened Text

  /** A (winner, loser) pair. */
  type Match = (string, string)

  /** The characters `[01]` matches. */
  predicate IsBit(c: char) {
    c == '0' || c == '1'
  }

  /** The four groups of a successful match. */
  datatype Groups = Groups(dish1: string, score1: char, dish2: string, score2: char)

  // ---------------------------------------------------------------------
  // The regular expression on its own terms

  /** `line` splits as `g1 + [b1] + g3 + [b2]` the way the pattern demands:
      both dish groups non-empty and free of newlines (`.` does not match
      one), both scores bits, and the second score the last character. */
  predicate Splits(line: string, g: Groups) {
    && line == g.dish1 + [g.score1] + g.dish2 + [g.score2]
    && |g.dish1| >= 1 && |g.dish2| >= 1
    && '\n' !in g.dish1 && '\n' !in g.dish2
    && IsBit(g.score1) && IsBit(g.score2)
  }

  // ---------------------------------------------------------------------
  // The index computation

  /** The pattern can match with a first group of length `i`: the score
      bits sit at `i` and at the end, with at least one character between. */
  predicate FitsAt(line: string, i: int) {
    && 1 <= i && i + 3 <= |line|
    && IsBit(line[i]) && IsBit(line[|line| - 1])
    && '\n' !in line
  }

  /** The groups for a first group of length `i`. */
  function GroupsAt(line: string, i: int): Groups
    requires 1 <= i && i + 3 <= |line|
  {
    Groups(line[..i], line[i], line[i + 1..|line| - 1], line[|line| - 1])
  }

  /** The first index at or after `i` where the pattern can match. */
  function FirstFitFrom(line: string, i: nat): (r: Option<nat>)
    ensures r.Some? ==> i <= r.value && r.value + 3 <= |line|
    decreases |line| - i
  {
    if i + 3 > |line| then None
    else if FitsAt(line, i) then Some(i)
    else FirstFitFrom(line, i + 1)
  }

  lemma {:induction false} FirstFitFromSpec(line: string, i: nat)
    requires i >= 1
    ensures var r := FirstFitFrom(line, i);
            && (r.Some? ==> i <= r.value && FitsAt(line, r.value))
            && (r.Some? ==> forall j :: i <= j < r.value ==> !FitsAt(line, j))
            && (r.None? ==> forall j :: i <= j ==> !FitsAt(line, j))
    decreases |line| - i
  {
    if i + 3 <= |line| && !FitsAt(line, i) {
      FirstFitFromSpec(line, i + 1);
    }
  }

  /** `re.match(r'(.+?)([01])(.+?)([01])$', line)` on a line that does not
      end in a newline. */
  function RegexMatch(line: string): Option<Groups> {
    match FirstFitFrom(line, 1)
    case None => None
    case Some(i) => Some(GroupsAt(line, i))
  }

  /** A split of the pattern's shape has its first score at the length of
      its first group. */
  lemma SplitsFit(line: string, g: Groups)
    requires Splits(line, g)
    ensures FitsAt(line, |g.dish1|) && GroupsAt(line, |g.dish1|) == g
  {
    var i := |g.dish1|;
    assert line[i] == g.score1;
    assert line[|line| - 1] == g.score2;
    assert line[..i] == g.dish1;
    assert line[i + 1..|line| - 1] == g.dish2;
    assert '\n' !in line by {
      forall k | 0 <= k < |line| ensures line[k] != '\n' {
        if k < i {
          assert line[k] == g.dish1[k];
        } else if i < k < |line| - 1 {
          assert line[k] == g.dish2[k - i - 1];
        }
      }
    }
  }

  /** Every fitting index gives a split of the pattern's shape. */
  lemma FitSplits(line: string, i: int)
    requires FitsAt(line, i)
    ensures Splits(line, GroupsAt(line, i))
  {
    var g := GroupsAt(line, i);
    assert line == g.dish1 + [g.score1] + g.dish2 + [g.score2];
    assert forall k :: 0 <= k < |g.dish1| ==> g.dish1[k] == line[k];
    assert forall k :: 0 <= k < |g.dish2| ==> g.dish2[k] == line[i + 1 + k];
  }

  /** The regular expression matches exactly when the line has a split of
      its shape, and then returns the split whose first group is shortest:
      the lazy `(.+?)` tries lengths 1, 2, ... and the first one for which
      the rest of the line matches wins; the second group is then forced
      by `([01])$`. */
  lemma RegexMatchSpec(line: string)
    ensures RegexMatch(line).Some? ==> Splits(line, RegexMatch(line).value)
    ensures RegexMatch(line).Some? ==>
              forall g :: Splits(line, g) ==> |RegexMatch(line).value.dish1| <= |g.dish1|
    ensures RegexMatch(line).None? ==> forall g :: !Splits(line, g)
  {
    FirstFitFromSpec(line, 1);
    match FirstFitFrom(line, 1)
    case None =>
      forall g | Splits(line, g) ensures false {
        SplitsFit(line, g);
      }
    case Some(i) =>
      FitSplits(line, i);
      forall g | Splits(line, g) ensures i <= |g.dish1| {
        SplitsFit(line, g);
      }
  }

  /** The index form: on a line without a newline, the pattern matches
      exactly when the last character is a bit and some index
      `1 <= i <= |line| - 3` holds a bit; the first group then ends at the
      smallest such index. A line holding a newline never matches here,
      where Python's `$` would still accept one final newline. */
  lemma RegexMatchIndex(line: string)
    ensures RegexMatch(line).Some? <==>
              '\n' !in line && |line| >= 1 && IsBit(line[|line| - 1])
              && exists i :: 1 <= i <= |line| - 3 && IsBit(line[i])
    ensures RegexMatch(line).Some? ==>
              var i := |RegexMatch(line).value.dish1|;
              && 1 <= i <= |line| - 3 && IsBit(line[i])
              && (forall j :: 1 <= j < i ==> !IsBit(line[j]))
              && RegexMatch(line).value == GroupsAt(line, i)
  {
    FirstFitFromSpec(line, 1);
    if '\n' !in line && |line| >= 1 && IsBit(line[|line| - 1]) {
      if i :| 1 <= i <= |line| - 3 && IsBit(line[i]) {
        assert FitsAt(line, i);
      }
      if RegexMatch(line).Some? {
        var i := FirstFitFrom(line, 1).value;
        forall j | 1 <= j < i ensures !IsBit(line[j]) {
          assert !FitsAt(line, j);
        }
      }
    }
  }

  // ---------------------------------------------------------------------
  // One line

  /** The two header prefixes a line may start with. They are the text
      "Pairwise比较" and "比较" as written in UTF-8 and read back as Mac
      Roman, which is how they appear in the program. */
  const HeaderWithPairwise: string := "Pairwise\U{00CA}\U{00D8}\U{00EE}\U{00CB}\U{00E6}\U{00C9}"
  const Header: string := "\U{00CA}\U{00D8}\U{00EE}\U{00CB}\U{00E6}\U{00C9}"

  predicate StartsWith(s: string, p: string) {
    |p| <= |s| && s[..|p|] == p
  }

  /** `s.startswith(ps[0]) or s.startswith(ps[1]) or ...`. */
  predicate StartsWithAny(s: string, ps: seq<string>) {
    ps != [] && (StartsWith(s, ps[0]) || StartsWithAny(s, ps[1..]))
  }

  /** The header test is the two `startswith` calls. */
  lemma HeaderTest(s: string)
    ensures StartsWithAny(s, [HeaderWithPairwise, Header]) <==>
              StartsWith(s, HeaderWithPairwise) || StartsWith(s, Header)
  {
    assert [HeaderWithPairwise, Header][1..] == [Header];
    assert [Header][1..] == [];
    assert StartsWithAny(s, [Header]) <==> StartsWith(s, Header);
  }

  /** What happens to one line. */
  datatype LineKind =
    | Skipped
    | Accepted(winner: string, loser: string)
    | InvalidScore
    | Unparsed

  /** The handling of one stripped line: blank and header lines are
      skipped, a `1`/`0` line makes the first dish the winner, a `0`/`1`
      line the second, equal scores are invalid, and a line the pattern
      does not match is unparsed. */
  function Classify(line: string): LineKind {
    if line == [] || StartsWithAny(line, [HeaderWithPairwise, Header]) then Skipped
    else
      match RegexMatch(line)
      case None => Unparsed
      case Some(g) =>
        if g.score1 == '1' && g.score2 == '0' then Accepted(g.dish1, g.dish2)
        else if g.score1 == '0' && g.score2 == '1' then Accepted(g.dish2, g.dish1)
        else InvalidScore
  }

  /** An accepted line names the two dishes of its split, the one scored 1
      first; a line is invalid exactly when the pattern matches with equal
      scores; and it is unparsed exactly when the pattern does not match. */
  lemma ClassifySpec(line: string)
    ensures var skip := line == [] || StartsWith(line, HeaderWithPairwise) || StartsWith(line, Header);
            && (Classify(line).Skipped? <==> skip)
            && (Classify(line).Unparsed? <==> !skip && forall g :: !Splits(line, g))
            && (Classify(line).InvalidScore? <==>
                  !skip && RegexMatch(line).Some? && RegexMatch(line).value.score1 == RegexMatch(line).value.score2)
            && (Classify(line).Accepted? ==>
                  var g := RegexMatch(line).value;
                  && Splits(line, g)
                  && g.score1 != g.score2
                  && (g.score1 == '1' ==> Classify(line) == Accepted(g.dish1, g.dish2))
                  && (g.score1 == '0' ==> Classify(line) == Accepted(g.dish2, g.dish1)))
  {
    RegexMatchSpec(line);
    HeaderTest(line);
  }

  /** A dish beating itself is not rejected. */
  lemma SelfMatchAccepted(d: string)
    requires |d| >= 1 && '\n' !in d
    requires forall k :: 1 <= k < |d| ==> !IsBit(d[k])
    requires !StartsWithAny(d + "1" + d + "0", [HeaderWithPairwise, Header])
    ensures Classify(d + "1" + d + "0") == Accepted(d, d)
  {
    SelfMatchGroups(d);
  }

  /** On `d + "1" + d + "0"` the pattern's first group is `d` when no
      character of `d` after its first is a bit. */
  lemma SelfMatchGroups(d: string)
    requires |d| >= 1 && '\n' !in d
    requires forall k :: 1 <= k < |d| ==> !IsBit(d[k])
    ensures RegexMatch(d + "1" + d + "0") == Some(Groups(d, '1', d, '0'))
  {
    var line := d + "1" + d + "0";
    var g := Groups(d, '1', d, '0');
    assert line == g.dish1 + [g.score1] + g.dish2 + [g.score2];
    RegexMatchIndex(line);
    SplitsFit(line, g);
    assert line[|d|] == '1';
    assert forall j :: 1 <= j < |d| ==> line[j] == d[j];
    assert |RegexMatch(line).value.dish1| == |d|;
  }

  // ---------------------------------------------------------------------
  // The whole content

  /** A line reported with a warning: its 1-based number, its stripped
      text, and whether the pattern matched (an invalid score) or not. */
  datatype Rejection = Rejection(lineNumber: nat, line: string, invalidScore: bool)

  /** Every line stripped, as the loop does before looking at it. */
  function StripAll(parts: seq<string>): (ls: seq<string>)
    ensures |ls| == |parts|
  {
    if parts == [] then [] else StripAll(parts[..|parts| - 1]) + [Trim(parts[|parts| - 1])]
  }

  /** The stripped lines of `content.strip().split('\n')`. */
  function Lines(content: string): seq<string> {
    StripAll(SplitOn(Trim(content), '\n'))
  }

  /** Line `k` of the stripped lines is piece `k`, stripped. */
  lemma {:induction false} StripAllAt(parts: seq<string>, k: int)
    requires 0 <= k < |parts|
    ensures StripAll(parts)[k] == Trim(parts[k])
  {
    var init := parts[..|parts| - 1];
    if k < |parts| - 1 {
      StripAllAt(init, k);
    }
  }

  /** No line the parser classifies ends in a newline, so the pattern's `$`
      can only match at the very end of it: the lines are the pieces of the
      content, each stripped (`Lines`, and the loop of `ParseLines`). */
  lemma ClassifiedLinesEndClean(parts: seq<string>, k: int)
    requires 0 <= k < |parts|
    ensures var line := StripAll(parts)[k];
            line == [] || line[|line| - 1] != '\n'
  {
    StripAllAt(parts, k);
    UnpaddedEndsClean(StripAll(parts)[k]);
  }

  /** A string without surrounding whitespace does not end in a newline. */
  lemma UnpaddedEndsClean(s: string)
    requires Unpadded(s)
    ensures s == [] || s[|s| - 1] != '\n'
  {
    assert IsSpace('\n');
  }

  /** The pair a line contributes: one when it is accepted, none otherwise. */
  function AcceptedFrom(raw: string): (ms: seq<Match>)
    ensures |ms| <= 1
  {
    match Classify(raw)
    case Accepted(w, l) => [(w, l)]
    case _ => []
  }

  /** The warning line `n` gives: one when it is rejected, none otherwise. */
  function RejectedFrom(raw: string, n: nat): (rs: seq<Rejection>)
    ensures |rs| <= 1
  {
    match Classify(raw)
    case InvalidScore => [Rejection(n, raw, true)]
    case Unparsed => [Rejection(n, raw, false)]
    case _ => []
  }

  /** The pairs accepted from `lines`, in order. */
  function AcceptedIn(lines: seq<string>): (ms: seq<Match>)
    ensures |ms| <= |lines|
  {
    if lines == [] then []
    else AcceptedIn(lines[..|lines| - 1]) + AcceptedFrom(lines[|lines| - 1])
  }

  /** The lines rejected from `lines`, numbered from 1, in order. */
  function RejectedIn(lines: seq<string>): (rs: seq<Rejection>)
    ensures |rs| <= |lines|
  {
    if lines == [] then []
    else RejectedIn(lines[..|lines| - 1]) + RejectedFrom(lines[|lines| - 1], |lines|)
  }

  /** How many of `lines` are skipped silently. */
  function SkippedIn(lines: seq<string>): nat {
    if lines == [] then 0
    else SkippedIn(lines[..|lines| - 1]) + (if Classify(lines[|lines| - 1]).Skipped? then 1 else 0)
  }

  /** Every line is skipped, rejected or accepted, and only one of these. */
  lemma {:induction false} LinesAccounted(lines: seq<string>)
    ensures SkippedIn(lines) + |RejectedIn(lines)| + |AcceptedIn(lines)| == |lines|
  {
    if lines != [] {
      LinesAccounted(lines[..|lines| - 1]);
    }
  }

  /** Rejection `x` reports line `x.lineNumber` of `lines`: its trimmed
      text, and the reason the classification gives for it. */
  predicate Reports(lines: seq<string>, x: Rejection) {
    && 1 <= x.lineNumber <= |lines|
    && x.line == lines[x.lineNumber - 1]
    && (x.invalidScore <==> Classify(lines[x.lineNumber - 1]).InvalidScore?)
    && (!x.invalidScore <==> Classify(lines[x.lineNumber - 1]).Unparsed?)
  }

  /** Every rejection reports a line the classification rejects. */
  lemma {:induction false} RejectedSound(lines: seq<string>)
    ensures forall x :: x in RejectedIn(lines) ==> Reports(lines, x)
  {
    if lines != [] {
      var init, raw := lines[..|lines| - 1], lines[|lines| - 1];
      RejectedSound(init);
      forall x | x in RejectedIn(lines) ensures Reports(lines, x) {
        if x in RejectedIn(init) {
          assert Reports(init, x);
          assert lines[x.lineNumber - 1] == init[x.lineNumber - 1];
        } else {
          assert x.lineNumber == |lines| && x.line == raw;
        }
      }
    }
  }

  /** Every line the classification rejects is reported, under its number. */
  lemma {:induction false} RejectedComplete(lines: seq<string>, n: int)
    requires 1 <= n <= |lines|
    requires Classify(lines[n - 1]).InvalidScore? || Classify(lines[n - 1]).Unparsed?
    ensures exists x :: x in RejectedIn(lines) && x.lineNumber == n
  {
    var init, raw := lines[..|lines| - 1], lines[|lines| - 1];
    if n == |lines| {
      var x := Rejection(n, raw, Classify(raw).InvalidScore?);
      assert RejectedIn(lines) == RejectedIn(init) + [x];
      assert x in RejectedIn(lines);
    } else {
      assert init[n - 1] == lines[n - 1];
      RejectedComplete(init, n);
      var x :| x in RejectedIn(init) && x.lineNumber == n;
      assert x in RejectedIn(lines);
    }
  }

  /** Every accepted pair is the pair of some line classified as accepted
      with those two names. */
  lemma {:induction false} AcceptedFromLines(lines: seq<string>)
    ensures forall m :: m in AcceptedIn(lines) ==>
              exists j :: 0 <= j < |lines| && Classify(lines[j]) == Accepted(m.0, m.1)
  {
    if lines != [] {
      var init := lines[..|lines| - 1];
      AcceptedFromLines(init);
      forall m | m in AcceptedIn(lines)
        ensures exists j :: 0 <= j < |lines| && Classify(lines[j]) == Accepted(m.0, m.1)
      {
        if m in AcceptedIn(init) {
          var j :| 0 <= j < |init| && Classify(init[j]) == Accepted(m.0, m.1);
          assert lines[j] == init[j];
        } else {
          assert Classify(lines[|lines| - 1]) == Accepted(m.0, m.1);
        }
      }
    }
  }

  /** The pairs of two runs of lines are those of the first run, then
      those of the second. */
  lemma {:induction false} AcceptedInAppend(a: seq<string>, b: seq<string>)
    ensures AcceptedIn(a + b) == AcceptedIn(a) + AcceptedIn(b)
  {
    if b == [] {
      assert a + b == a;
    } else {
      var init := b[..|b| - 1];
      assert (a + b)[..|a + b| - 1] == a + init;
      assert (a + b)[|a + b| - 1] == b[|b| - 1];
      AcceptedInAppend(a, init);
    }
  }

  /** Every line classified as accepted contributes its pair, placed right
      after the pairs of the lines before it. */
  lemma AcceptedComplete(lines: seq<string>, j: int, w: string, l: string)
    requires 0 <= j < |lines|
    requires Classify(lines[j]) == Accepted(w, l)
    ensures var p := |AcceptedIn(lines[..j])|;
            p < |AcceptedIn(lines)| && AcceptedIn(lines)[p] == (w, l)
  {
    var before, line, after := lines[..j], lines[j], lines[j + 1..];
    assert lines == before + [line] + after;
    assert [line][..0] == [];
    assert AcceptedIn([line]) == [(w, l)];
    AcceptedInAppend(before, [line]);
    AcceptedInAppend(before + [line], after);
  }

  /** Accepted pairs keep the order of their lines: the pair of an
      accepted line `i` comes before those of the lines from `j > i` on. */
  lemma AcceptedInOrder(lines: seq<string>, i: int, j: int)
    requires 0 <= i < j <= |lines|
    requires Classify(lines[i]).Accepted?
    ensures |AcceptedIn(lines[..i])| < |AcceptedIn(lines[..j])|
  {
    var run := lines[..j];
    assert run[..i] == lines[..i];
    AcceptedComplete(run, i, Classify(lines[i]).winner, Classify(lines[i]).loser);
  }

  /** The loop of `parse_match_content` over the lines of the content. */
  method ParseLines(parts: seq<string>) returns (matches: seq<Match>, rejected: seq<Rejection>)
    ensures matches == AcceptedIn(StripAll(parts))
    ensures rejected == RejectedIn(StripAll(parts))
  {
    matches, rejected := [], [];
    var n := 0;
    while n < |parts|
      invariant 0 <= n <= |parts|
      invariant matches == AcceptedIn(StripAll(parts[..n]))
      invariant rejected == RejectedIn(StripAll(parts[..n]))
    {
      var line := Trim(parts[n]);
      assert parts[..n + 1][..n] == parts[..n];
      ghost var done := StripAll(parts[..n + 1]);
      assert done == StripAll(parts[..n]) + [line];
      assert done[..n] == StripAll(parts[..n]);
      assert AcceptedIn(done) == matches + AcceptedFrom(line);
      assert RejectedIn(done) == rejected + RejectedFrom(line, n + 1);
      match Classify(line) {
        case Skipped =>
        case Accepted(w, l) =>
          matches := matches + [(w, l)];
        case InvalidScore =>
          rejected := rejected + [Rejection(n + 1, line, true)];
        case Unparsed =>
          rejected := rejected + [Rejection(n + 1, line, false)];
      }
      n := n + 1;
    }
    assert parts[..|parts|] == parts;
  }

  /** `parse_match_content(content)`: the pairs accepted, in order, with
      the lines that were warned about. */
  method ParseMatchContent(content: string) returns (matches: seq<Match>, rejected: seq<Rejection>)
    ensures matches == AcceptedIn(Lines(content))
    ensures rejected == RejectedIn(Lines(content))
  {
    matches, rejected := ParseLines(SplitOn(Trim(content), '\n'));
  }

  // ---------------------------------------------------------------------
  // Examples

  /** "炒饭1白粥0": fried rice beats plain congee. */
  lemma ExampleWin()
    ensures Classify("炒饭1白粥0") == Accepted("炒饭", "白粥")
  {
    var line := "炒饭1白粥0";
    HeaderTest(line);
    assert FitsAt(line, 2);
    assert !FitsAt(line, 1);
    assert FirstFitFrom(line, 1) == Some(2);
  }

  /** "炒饭0白粥0": both scored 0, rejected as an invalid score. */
  lemma ExampleInvalid()
    ensures Classify("炒饭0白粥0") == InvalidScore
  {
    var line := "炒饭0白粥0";
    HeaderTest(line);
    assert FitsAt(line, 2);
    assert !FitsAt(line, 1);
    assert FirstFitFrom(line, 1) == Some(2);
  }

  /** The first group is as short as possible, so a bit inside the first
      dish's name splits the line early: "A1B10" is A over "B1". */
  lemma ExampleLazy()
    ensures Classify("A1B10") == Accepted("A", "B1")
  {
    var line := "A1B10";
    HeaderTest(line);
    assert FitsAt(line, 1);
    assert FirstFitFrom(line, 1) == Some(1);
  }
}
