/**
 The revert detector: two heuristics that pick the best earlier pull request for
 every candidate, and their deduplication. Instants count from the zero time.
 */
module Reverts {
  import opened Wrappers
  import opened Text

  datatype PR = PR(repo: string, number: int, title: string, mergedAt: Option<int>, filesChanged: int,
                   files: seq<string>)

  datatype Heuristic = Title | FileOverlap

  datatype Finding = Finding(originalRepo: string, originalPR: int, revertedAt: int, revertingPR: int,
                             heuristic: Heuristic)

  datatype PullId = PullId(repo: string, number: int)

  function Original(f: Finding): PullId {
    PullId(f.originalRepo, f.originalPR)
  }

  const WINDOW: int := 14 * 24 * 3_600_000_000_000

  // --- Titles -----------------------------------------------------------------

  function Lower(c: char): char {
    if 'A' <= c <= 'Z' then (c as int - 'A' as int + 'a' as int) as char else c
  }

  predicate IsRevertTitle(t: string) {
    && |t| >= 7
    && Lower(t[0]) == 'r' && Lower(t[1]) == 'e' && Lower(t[2]) == 'v'
    && Lower(t[3]) == 'e' && Lower(t[4]) == 'r' && Lower(t[5]) == 't'
    && t[6] in " :\"'"
  }

  /** A revert's title begins with the word in capital or small letters, followed by one of four characters. */
  lemma RevertTitleIff(t: string)
    ensures IsRevertTitle(t) <==>
            && |t| >= 7 && (forall i :: 0 <= i < 6 ==> t[i] == "revert"[i] || t[i] == "REVERT"[i])
            && (t[6] == ' ' || t[6] == ':' || t[6] == '"' || t[6] == '\'')
  {
    if |t| >= 7 {
      assert forall i :: 0 <= i < 6 ==> (Lower(t[i]) == "revert"[i] <==> t[i] == "revert"[i] || t[i] == "REVERT"[i]);
      assert "revert"[0] == 'r' && "revert"[1] == 'e' && "revert"[2] == 'v';
      assert "revert"[3] == 'e' && "revert"[4] == 'r' && "revert"[5] == 't';
    }
  }

  function TrimPrefix(s: string, prefix: string): string {
    if prefix <= s then s[|prefix|..] else s
  }

  function TrimLeft(s: string, cut: string): string {
    if s != [] && s[0] in cut then TrimLeft(s[1..], cut) else s
  }

  function TrimRight(s: string, cut: string): string {
    if s != [] && s[|s| - 1] in cut then TrimRight(s[..|s| - 1], cut) else s
  }

  function Trim(s: string, cut: string): string {
    TrimRight(TrimLeft(s, cut), cut)
  }

  const SPACE: string :=
    "\t\n\U{B}\U{C}\r \U{85}\U{A0}\U{1680}\U{2000}\U{2001}\U{2002}\U{2003}\U{2004}\U{2005}\U{2006}\U{2007}" +
    "\U{2008}\U{2009}\U{200A}\U{2028}\U{2029}\U{202F}\U{205F}\U{3000}"

  /** The part of a revert's title that should name the original. */
  function Stripped(title: string): string {
    Trim(Trim(TrimPrefix(TrimPrefix(title, "Revert"), ":"), SPACE), "\"' ")
  }

  predicate Contains(s: string, sub: string) {
    exists i :: 0 <= i <= |s| && sub <= s[i..]
  }

  lemma ContainsIff(s: string, sub: string)
    ensures Contains(s, sub) <==> exists a, b :: s == a + sub + b
  {
    if i :| 0 <= i <= |s| && sub <= s[i..] {
      assert s == s[..i] + sub + s[i + |sub|..];
    }
    if a, b :| s == a + sub + b {
      assert sub <= s[|a|..];
    }
  }

  ghost predicate AllIn(s: string, cut: string) {
    forall i :: 0 <= i < |s| ==> s[i] in cut
  }

  lemma {:induction false} TrimLeftIs(s: string, cut: string) returns (a: string)
    ensures s == a + TrimLeft(s, cut) && AllIn(a, cut)
    ensures TrimLeft(s, cut) != [] ==> TrimLeft(s, cut)[0] !in cut
  {
    a := "";
    if s != [] && s[0] in cut {
      a := TrimLeftIs(s[1..], cut);
      a := [s[0]] + a;
    }
  }

  lemma {:induction false} TrimRightIs(s: string, cut: string) returns (b: string)
    ensures s == TrimRight(s, cut) + b && AllIn(b, cut)
    ensures TrimRight(s, cut) != [] ==> TrimRight(s, cut)[|TrimRight(s, cut)| - 1] !in cut
  {
    b := "";
    if s != [] && s[|s| - 1] in cut {
      b := TrimRightIs(s[..|s| - 1], cut);
      b := b + [s[|s| - 1]];
    }
  }

  /** Trimming takes characters of the cut set off both ends, until there are none. */
  lemma TrimIs(s: string, cut: string) returns (a: string, b: string)
    ensures var t := Trim(s, cut);
            && s == a + t + b && AllIn(a, cut) && AllIn(b, cut)
            && (t != [] ==> t[0] !in cut && t[|t| - 1] !in cut)
  {
    a := TrimLeftIs(s, cut);
    var left := TrimLeft(s, cut);
    b := TrimRightIs(left, cut);
    var t := TrimRight(left, cut);
    assert t != [] ==> t[0] == left[0];
  }

  /** Text that neither begins nor ends with a character of the cut set is what trimming leaves between such ones. */
  lemma TrimFinds(s: string, cut: string, a: string, t: string, b: string)
    requires s == a + t + b && AllIn(a, cut) && AllIn(b, cut)
    requires Trimmed(t, cut)
    ensures Trim(s, cut) == t
  {
    var a', b' := TrimIs(s, cut);
    var t' := Trim(s, cut);
    assert s[|a|] == t[0] && s[|a| + |t| - 1] == t[|t| - 1];
    assert |a'| <= |a| && |a'| + |t'| >= |a| + |t|;
    assert s[|a'|] == t'[0] && s[|a'| + |t'| - 1] == t'[|t'| - 1];
    assert |a'| == |a| && |t'| == |t|;
    assert t == s[|a|..|a| + |t|] && t' == s[|a'|..|a'| + |t'|];
  }

  lemma TrimPrefixIs(prefix: string, s: string)
    ensures TrimPrefix(prefix + s, prefix) == s
    ensures prefix != [] && (s == [] || s[0] != prefix[0]) ==> TrimPrefix(s, prefix) == s
  {
    assert (prefix + s)[|prefix|..] == s;
    if prefix != [] && prefix <= s {
      assert s[0] == prefix[0];
    }
  }

  lemma QuoteIsNoSpace()
    ensures ' ' in SPACE && '"' !in SPACE
  {
    assert SPACE[5] == ' ';
  }

  ghost predicate Trimmed(t: string, cut: string) {
    t != [] && t[0] !in cut && t[|t| - 1] !in cut
  }

  lemma NothingOff(t: string, cut: string)
    requires Trimmed(t, cut)
    ensures Trim(t, cut) == t
  {
    assert t == "" + t + "";
    TrimFinds(t, cut, "", t, "");
  }

  lemma SpaceOff(t: string)
    requires Trimmed(t, SPACE)
    ensures Trim(" " + t, SPACE) == t
  {
    QuoteIsNoSpace();
    assert " " + t == " " + t + "";
    TrimFinds(" " + t, SPACE, " ", t, "");
  }

  lemma QuotesOff(t: string)
    requires Trimmed(t, "\"' ")
    ensures Trim("\"" + t + "\"", "\"' ") == t
  {
    TrimFinds("\"" + t + "\"", "\"' ", "\"", t, "\"");
  }

  /** A title as it stands in the default title of a revert is what is looked for. */
  lemma StrippedQuoted(title: string)
    requires Trimmed(title, "\"' ")
    ensures var revert := "Revert" + (" " + ("\"" + title + "\"")); IsRevertTitle(revert) && Stripped(revert) == title
  {
    var quoted := "\"" + title + "\"";
    TrimPrefixIs("Revert", " " + quoted);
    TrimPrefixIs(":", " " + quoted);
    QuoteIsNoSpace();
    SpaceOff(quoted);
    QuotesOff(title);
  }

  /** And so is a title after a colon. */
  lemma StrippedPlain(title: string)
    requires Trimmed(title, "\"' ") && Trimmed(title, SPACE)
    ensures var revert := "Revert" + (":" + (" " + title)); IsRevertTitle(revert) && Stripped(revert) == title
  {
    TrimPrefixIs("Revert", ":" + (" " + title));
    TrimPrefixIs(":", " " + title);
    SpaceOff(title);
    NothingOff(title, "\"' ");
  }

  // --- File overlap -----------------------------------------------------------

  function ToSet(s: seq<string>): set<string> {
    set f | f in s
  }

  function JaccardOf(a: set<string>, b: set<string>): real {
    if |a| == 0 || |b| == 0 then 0.0
    else
      UnionPositive(a, b);
      |a * b| as real / (|a| + |b| - |a * b|) as real
  }

  lemma UnionPositive(a: set<string>, b: set<string>)
    requires |a| > 0
    ensures |a| + |b| - |a * b| == |a + b| >= |a|
  {
    assert |a + b| == |a| + |b| - |a * b|;
    assert a + b == a + (b - a);
    assert |a + b| == |a| + |b - a|;
  }

  method Jaccard(a: set<string>, b: set<string>) returns (score: real)
    ensures score == JaccardOf(a, b)
  {
    if |a| == 0 || |b| == 0 {
      return 0.0;
    }
    var inter := CountCommon(a, b);
    var union := |a| + |b| - inter;
    UnionPositive(a, b);
    return inter as real / union as real;
  }

  method CountCommon(a: set<string>, b: set<string>) returns (inter: nat)
    ensures inter == |a * b|
  {
    inter := 0;
    var todo := a;
    ghost var common: set<string> := {};
    while todo != {}
      invariant todo <= a && common == (a - todo) * b && inter == |common|
      decreases |todo|
    {
      ghost var _ := NonEmpty(todo);
      var k :| k in todo;
      if k in b {
        common := common + {k};
        inter := inter + 1;
      }
      todo := todo - {k};
    }
    assert common == a * b;
  }

  /** The score is a symmetric ratio in [0, 1], 1 exactly for equal non-empty sets, and passes at 3/5 overlap. */
  lemma JaccardLaws(a: set<string>, b: set<string>)
    ensures JaccardOf(a, b) == JaccardOf(b, a)
    ensures 0.0 <= JaccardOf(a, b) <= 1.0
    ensures JaccardOf(a, b) == 1.0 <==> a == b && a != {}
    ensures JaccardOf(a, b) >= 0.6 <==> a != {} && b != {} && 5 * |a * b| >= 3 * |a + b|
  {
    assert a * b == b * a;
    if |a| > 0 && |b| > 0 {
      UnionPositive(a, b);
      SubsetSize(a * b, a + b);
      RatioLaws(|a * b|, |a + b|);
      EqualSets(a, b);
    }
  }

  lemma EqualSets(a: set<string>, b: set<string>)
    ensures |a * b| == |a + b| <==> a == b
  {
    if |a * b| == |a + b| {
      SameSize(a * b, a + b);
      assert a <= a * b && b <= a * b;
    }
    if a == b {
      assert a * b == a + b;
    }
  }

  lemma RatioLaws(i: nat, u: nat)
    requires i <= u && u > 0
    ensures 0.0 <= i as real / u as real <= 1.0
    ensures i as real / u as real == 1.0 <==> i == u
    ensures i as real / u as real >= 0.6 <==> 5 * i >= 3 * u
  {
    QuotientAgainst(i as real, u as real, 0.0);
    QuotientAgainst(i as real, u as real, 0.6);
    QuotientAgainst(i as real, u as real, 1.0);
    assert 5 * i >= 3 * u <==> i as real >= 0.6 * u as real;
  }

  lemma SubsetSize(a: set<string>, b: set<string>)
    requires a <= b
    ensures |a| <= |b|
  {
    assert b == a + (b - a);
    assert |b| == |a| + |b - a|;
  }

  lemma SameSize(a: set<string>, b: set<string>)
    requires a <= b && |a| == |b|
    ensures a == b
  {
    assert b == a + (b - a);
    assert |b| == |a| + |b - a|;
    assert b - a == {};
  }

  // --- Picking the best prior ---------------------------------------------------

  /** The candidate can revert something by this heuristic at all. */
  predicate Candidate(h: Heuristic, c: PR) {
    c.mergedAt.Some? &&
    match h
    case Title => IsRevertTitle(c.title) && Stripped(c.title) != ""
    case FileOverlap => c.files != []
  }

  predicate EarlierInRepo(c: PR, prior: PR)
    requires c.mergedAt.Some?
  {
    && prior.number != c.number && prior.repo == c.repo
    && prior.mergedAt.Some? && prior.mergedAt.value < c.mergedAt.value
  }

  predicate TitleMatches(c: PR, prior: PR) {
    Contains(prior.title, Stripped(c.title)) || Contains(Stripped(c.title), prior.title)
  }

  /** Within the window, and not changed by far fewer files than the suspect. */
  predicate OverlapFilter(c: PR, prior: PR)
    requires c.mergedAt.Some? && prior.mergedAt.Some?
  {
    && prior.mergedAt.value >= c.mergedAt.value - WINDOW
    && prior.files != []
    && c.filesChanged * 2 <= prior.filesChanged * 3
  }

  /** How well `prior` fits as what `c` reverts, if it passes the filters. */
  function Score(h: Heuristic, c: PR, prior: PR): Option<real>
    requires c.mergedAt.Some?
  {
    if !EarlierInRepo(c, prior) then None
    else
      match h
      case Title => if TitleMatches(c, prior) then Some(prior.mergedAt.value as real) else None
      case FileOverlap =>
        if !OverlapFilter(c, prior) then None
        else
          var score := JaccardOf(ToSet(c.files), ToSet(prior.files));
          if score >= 0.6 then Some(score) else None
  }

  ghost function Scores(h: Heuristic, c: PR, prs: seq<PR>): seq<Option<real>>
    requires c.mergedAt.Some?
  {
    seq(|prs|, j requires 0 <= j < |prs| => Score(h, c, prs[j]))
  }

  /** The first of the best scores; a score must be positive to count. */
  ghost predicate IsPick(scores: seq<Option<real>>, i: nat) {
    && i < |scores| && scores[i].Some? && scores[i].value > 0.0
    && forall j :: 0 <= j < |scores| && scores[j].Some? ==>
         scores[j].value <= scores[i].value && (j < i ==> scores[j].value < scores[i].value)
  }

  ghost predicate NothingScores(scores: seq<Option<real>>) {
    forall j :: 0 <= j < |scores| && scores[j].Some? ==> scores[j].value <= 0.0
  }

  function FindingOf(h: Heuristic, c: PR, original: PR): Finding
    requires c.mergedAt.Some?
  {
    Finding(original.repo, original.number, c.mergedAt.value, c.number, h)
  }

  /** What the heuristic finds for one candidate; number 0 means "no pull request". */
  ghost function FindingFor(h: Heuristic, c: PR, prs: seq<PR>): Option<Finding> {
    if Candidate(h, c) && exists i: nat :: IsPick(Scores(h, c, prs), i) then
      var i: nat :| IsPick(Scores(h, c, prs), i);
      if prs[i].number == 0 then None else Some(FindingOf(h, c, prs[i]))
    else None
  }

  lemma PickUnique(scores: seq<Option<real>>, i: nat, j: nat)
    requires IsPick(scores, i) && IsPick(scores, j)
    ensures i == j
  {
  }

  /** Scanning one more prior replaces the pick exactly if it scores higher. */
  lemma PickSnoc(scores: seq<Option<real>>, k: nat, best: Option<nat>)
    requires k < |scores|
    requires best.Some? ==> IsPick(scores[..k], best.value)
    requires best.None? ==> NothingScores(scores[..k])
    ensures var before := if best.Some? then scores[best.value].value else 0.0;
            var after := if scores[k].Some? && scores[k].value > before then Some(k) else best;
            && (after.Some? ==> IsPick(scores[..k + 1], after.value))
            && (after.None? ==> NothingScores(scores[..k + 1]))
  {
    var s, t := scores[..k], scores[..k + 1];
    assert forall j :: 0 <= j < k ==> s[j] == t[j] == scores[j];
    assert t[k] == scores[k];
  }

  lemma PickedFinding(h: Heuristic, c: PR, prs: seq<PR>, best: Option<nat>)
    requires Candidate(h, c)
    requires best.Some? ==> IsPick(Scores(h, c, prs), best.value)
    requires best.None? ==> NothingScores(Scores(h, c, prs))
    ensures FindingFor(h, c, prs) ==
            if best.None? || prs[best.value].number == 0 then None else Some(FindingOf(h, c, prs[best.value]))
  {
    if best.Some? {
      assert IsPick(Scores(h, c, prs), best.value);
      forall i: nat | IsPick(Scores(h, c, prs), i)
        ensures i == best.value
      {
        PickUnique(Scores(h, c, prs), i, best.value);
      }
    } else {
      assert forall i: nat :: !IsPick(Scores(h, c, prs), i);
    }
  }

  method DetectFromTitle(revert: PR, all: seq<PR>) returns (r: Option<Finding>)
    ensures r == FindingFor(Title, revert, all)
  {
    if revert.mergedAt.None? || !IsRevertTitle(revert.title) {
      return None;
    }
    var stripped := Stripped(revert.title);
    if stripped == "" {
      return None;
    }
    var best: Option<PR> := None;
    var bestTime := 0;
    ghost var scores := Scores(Title, revert, all);
    ghost var pick: Option<nat> := None;
    for k := 0 to |all|
      invariant pick.Some? ==> IsPick(scores[..k], pick.value)
      invariant pick.None? ==> NothingScores(scores[..k])
      invariant best == if pick.Some? then Some(all[pick.value]) else None
      invariant bestTime as real == if pick.Some? then scores[pick.value].value else 0.0
    {
      PickSnoc(scores, k, pick);
      var prior := all[k];
      if prior.number == revert.number || prior.repo != revert.repo {
        continue;
      }
      if prior.mergedAt.None? || prior.mergedAt.value >= revert.mergedAt.value {
        continue;
      }
      if Contains(prior.title, stripped) || Contains(stripped, prior.title) {
        if prior.mergedAt.value > bestTime {
          best, bestTime, pick := Some(prior), prior.mergedAt.value, Some(k);
        }
      }
    }
    assert scores[..|all|] == scores;
    PickedFinding(Title, revert, all, pick);
    if best.None? || best.value.number == 0 {
      return None;
    }
    return Some(FindingOf(Title, revert, best.value));
  }

  method DetectFromFileOverlap(suspect: PR, all: seq<PR>) returns (r: Option<Finding>)
    ensures r == FindingFor(FileOverlap, suspect, all)
  {
    if suspect.mergedAt.None? || |suspect.files| == 0 {
      return None;
    }
    var cutoff := suspect.mergedAt.value - WINDOW;
    var suspectSet := ToSet(suspect.files);
    var best: Option<PR> := None;
    var bestScore := 0.0;
    ghost var scores := Scores(FileOverlap, suspect, all);
    ghost var pick: Option<nat> := None;
    for k := 0 to |all|
      invariant pick.Some? ==> IsPick(scores[..k], pick.value)
      invariant pick.None? ==> NothingScores(scores[..k])
      invariant best == if pick.Some? then Some(all[pick.value]) else None
      invariant bestScore == if pick.Some? then scores[pick.value].value else 0.0
    {
      PickSnoc(scores, k, pick);
      var prior := all[k];
      if prior.number == suspect.number || prior.repo != suspect.repo {
        continue;
      }
      if prior.mergedAt.None? || prior.mergedAt.value < cutoff || prior.mergedAt.value >= suspect.mergedAt.value {
        continue;
      }
      if |prior.files| == 0 {
        continue;
      }
      if suspect.filesChanged * 2 > prior.filesChanged * 3 {
        continue;
      }
      var score := Jaccard(suspectSet, ToSet(prior.files));
      if score >= 0.6 && score > bestScore {
        best, bestScore, pick := Some(prior), score, Some(k);
      }
    }
    assert scores[..|all|] == scores;
    PickedFinding(FileOverlap, suspect, all, pick);
    if best.None? || best.value.number == 0 {
      return None;
    }
    return Some(FindingOf(FileOverlap, suspect, best.value));
  }

  // --- What is found, in numbers ------------------------------------------------

  /** An earlier-merged pull request of the repository whose title contains the stripped one or is contained in it. */
  ghost predicate MatchesTitle(c: PR, p: PR)
    requires c.mergedAt.Some?
  {
    && p.number != c.number && p.repo == c.repo && p.mergedAt.Some? && p.mergedAt.value < c.mergedAt.value
    && (Contains(p.title, Stripped(c.title)) || Contains(Stripped(c.title), p.title))
  }

  /** A revert's title names the first of those matches that merged last, at a positive time. */
  ghost predicate TitleNames(c: PR, prs: seq<PR>, k: nat) {
    && c.mergedAt.Some? && IsRevertTitle(c.title) && Stripped(c.title) != ""
    && k < |prs| && MatchesTitle(c, prs[k]) && prs[k].mergedAt.value > 0
    && forall j :: 0 <= j < |prs| && MatchesTitle(c, prs[j]) ==>
         if j < k then prs[j].mergedAt.value < prs[k].mergedAt.value
         else prs[j].mergedAt.value <= prs[k].mergedAt.value
  }

  lemma TitleScore(c: PR, p: PR)
    requires c.mergedAt.Some?
    ensures Score(Title, c, p).Some? <==> MatchesTitle(c, p)
    ensures MatchesTitle(c, p) ==> Score(Title, c, p).value == p.mergedAt.value as real
  {
  }

  /** Just the matches score, and score the higher the later they merged. */
  ghost predicate ScoredByTime(c: PR, prs: seq<PR>, scores: seq<Option<real>>)
    requires c.mergedAt.Some?
  {
    |scores| == |prs| && forall j :: 0 <= j < |prs| ==>
      scores[j] == if MatchesTitle(c, prs[j]) then Some(prs[j].mergedAt.value as real) else None
  }

  lemma TitlePick(c: PR, prs: seq<PR>, scores: seq<Option<real>>, k: nat)
    requires c.mergedAt.Some?
    ensures ScoredByTime(c, prs, scores) && IsRevertTitle(c.title) && Stripped(c.title) != "" ==>
              (TitleNames(c, prs, k) <==> IsPick(scores, k))
  {
  }

  lemma TitleNamesIff(c: PR, prs: seq<PR>, k: nat)
    ensures TitleNames(c, prs, k) <==> Candidate(Title, c) && IsPick(Scores(Title, c, prs), k)
  {
    if Candidate(Title, c) {
      forall j | 0 <= j < |prs|
        ensures Scores(Title, c, prs)[j] ==
                if MatchesTitle(c, prs[j]) then Some(prs[j].mergedAt.value as real) else None
      {
        TitleScore(c, prs[j]);
      }
      TitlePick(c, prs, Scores(Title, c, prs), k);
    }
  }

  /** A title finding is the one that the title names; number 0 names none. */
  lemma TitleFindingIff(c: PR, prs: seq<PR>)
    ensures FindingFor(Title, c, prs).Some? <==> exists k: nat :: TitleNames(c, prs, k) && prs[k].number != 0
    ensures forall k: nat :: TitleNames(c, prs, k) && prs[k].number != 0 ==>
              FindingFor(Title, c, prs) ==
              Some(Finding(prs[k].repo, prs[k].number, c.mergedAt.value, c.number, Title))
  {
    forall k: nat
      ensures TitleNames(c, prs, k) <==> Candidate(Title, c) && IsPick(Scores(Title, c, prs), k)
      ensures TitleNames(c, prs, k) ==>
                FindingFor(Title, c, prs) == if prs[k].number == 0 then None else Some(FindingOf(Title, c, prs[k]))
    {
      TitleNamesIff(c, prs, k);
      if TitleNames(c, prs, k) {
        PickedFinding(Title, c, prs, Some(k));
      }
    }
  }

  /**
   An earlier-merged pull request of the repository within 14 days, of no more than 1.5 times fewer files, that shares
   at least 3 in 5 of all files with the suspect.
   */
  ghost predicate Overlaps(c: PR, p: PR)
    requires c.mergedAt.Some?
  {
    && p.number != c.number && p.repo == c.repo && p.mergedAt.Some? && p.mergedAt.value < c.mergedAt.value
    && c.mergedAt.value - p.mergedAt.value <= 1_209_600_000_000_000
    && c.files != [] && p.files != [] && 2 * c.filesChanged <= 3 * p.filesChanged
    && 5 * |ToSet(c.files) * ToSet(p.files)| >= 3 * |ToSet(c.files) + ToSet(p.files)|
  }

  /** The overlap of `q` with the suspect, shared files to all files, is no larger than that of `p`. */
  ghost predicate NoLarger(c: PR, q: PR, p: PR) {
    var s, a, b := ToSet(c.files), ToSet(q.files), ToSet(p.files);
    |s * a| * |s + b| <= |s * b| * |s + a|
  }

  /** The files name the first of the priors with the largest overlap. */
  ghost predicate FilesName(c: PR, prs: seq<PR>, k: nat) {
    && c.mergedAt.Some? && k < |prs| && Overlaps(c, prs[k])
    && forall j :: 0 <= j < |prs| && Overlaps(c, prs[j]) ==>
         NoLarger(c, prs[j], prs[k]) && (j < k ==> !NoLarger(c, prs[k], prs[j]))
  }

  lemma InSet(files: seq<string>)
    ensures files != [] <==> |ToSet(files)| > 0
  {
    if files != [] {
      assert files[0] in ToSet(files);
    }
  }

  /** Fractions compare as their cross products do. */
  lemma CrossProducts(a: nat, b: nat, c: nat, d: nat)
    requires b > 0 && d > 0
    ensures a as real / b as real <= c as real / d as real <==> a * d <= c * b
  {
    QuotientAgainst(a as real, b as real, c as real / d as real);
    var r := c as real / d as real;
    assert r * d as real == c as real;
    if a as real <= r * b as real {
      assert a as real * d as real <= r * b as real * d as real;
      assert r * b as real * d as real == c as real * b as real;
    } else {
      assert a as real * d as real > r * b as real * d as real;
      assert r * b as real * d as real == c as real * b as real;
    }
    assert (a * d) as real == a as real * d as real && (c * b) as real == c as real * b as real;
  }

  lemma OverlapScore(c: PR, p: PR)
    requires c.mergedAt.Some? && c.files != []
    ensures var s, t := ToSet(c.files), ToSet(p.files);
            && (Score(FileOverlap, c, p).Some? <==> Overlaps(c, p))
            && (Overlaps(c, p) ==>
                  |s + t| > 0 && Score(FileOverlap, c, p).value == |s * t| as real / |s + t| as real
                  && Score(FileOverlap, c, p).value > 0.0)
  {
    InSet(c.files);
    InSet(p.files);
    JaccardLaws(ToSet(c.files), ToSet(p.files));
    UnionPositive(ToSet(c.files), ToSet(p.files));
  }

  lemma LargerOverlap(c: PR, p: PR, q: PR)
    requires c.mergedAt.Some? && Overlaps(c, p) && Overlaps(c, q)
    ensures Score(FileOverlap, c, p).Some? && Score(FileOverlap, c, q).Some?
    ensures Score(FileOverlap, c, q).value <= Score(FileOverlap, c, p).value <==> NoLarger(c, q, p)
  {
    OverlapScore(c, p);
    OverlapScore(c, q);
    var s, a, b := ToSet(c.files), ToSet(q.files), ToSet(p.files);
    CrossProducts(|s * a|, |s + a|, |s * b|, |s + b|);
  }

  lemma FilesNameIff(c: PR, prs: seq<PR>, k: nat)
    ensures FilesName(c, prs, k) <==> Candidate(FileOverlap, c) && IsPick(Scores(FileOverlap, c, prs), k)
  {
    if c.mergedAt.Some? && c.files != [] && k < |prs| {
      forall j | 0 <= j < |prs|
        ensures Score(FileOverlap, c, prs[j]).Some? <==> Overlaps(c, prs[j])
        ensures Overlaps(c, prs[j]) ==> Score(FileOverlap, c, prs[j]).value > 0.0
        ensures Overlaps(c, prs[j]) && Overlaps(c, prs[k]) ==>
                  var x, y := Score(FileOverlap, c, prs[j]), Score(FileOverlap, c, prs[k]);
                  && x.Some? && y.Some?
                  && (x.value <= y.value <==> NoLarger(c, prs[j], prs[k]))
                  && (y.value <= x.value <==> NoLarger(c, prs[k], prs[j]))
      {
        OverlapScore(c, prs[j]);
        if Overlaps(c, prs[j]) && Overlaps(c, prs[k]) {
          LargerOverlap(c, prs[j], prs[k]);
          LargerOverlap(c, prs[k], prs[j]);
        }
      }
      FilesPick(c, prs, k);
    }
  }

  lemma FilesPick(c: PR, prs: seq<PR>, k: nat)
    requires c.mergedAt.Some? && k < |prs|
    requires forall j :: 0 <= j < |prs| ==>
               && (Score(FileOverlap, c, prs[j]).Some? <==> Overlaps(c, prs[j]))
               && (Overlaps(c, prs[j]) ==> Score(FileOverlap, c, prs[j]).value > 0.0)
               && (Overlaps(c, prs[j]) && Overlaps(c, prs[k]) ==>
                     var x, y := Score(FileOverlap, c, prs[j]), Score(FileOverlap, c, prs[k]);
                     && x.Some? && y.Some?
                     && (x.value <= y.value <==> NoLarger(c, prs[j], prs[k]))
                     && (y.value <= x.value <==> NoLarger(c, prs[k], prs[j])))
    ensures FilesName(c, prs, k) <==> IsPick(Scores(FileOverlap, c, prs), k)
  {
    var scores := Scores(FileOverlap, c, prs);
    assert forall j :: 0 <= j < |prs| ==> scores[j] == Score(FileOverlap, c, prs[j]);
  }

  /** An overlap finding is the one that the files name; number 0 names none. */
  lemma OverlapFindingIff(c: PR, prs: seq<PR>)
    ensures FindingFor(FileOverlap, c, prs).Some? <==> exists k: nat :: FilesName(c, prs, k) && prs[k].number != 0
    ensures forall k: nat :: FilesName(c, prs, k) && prs[k].number != 0 ==>
              FindingFor(FileOverlap, c, prs) ==
              Some(Finding(prs[k].repo, prs[k].number, c.mergedAt.value, c.number, FileOverlap))
  {
    forall k: nat
      ensures FilesName(c, prs, k) <==> Candidate(FileOverlap, c) && IsPick(Scores(FileOverlap, c, prs), k)
      ensures FilesName(c, prs, k) ==>
                FindingFor(FileOverlap, c, prs) ==
                if prs[k].number == 0 then None else Some(FindingOf(FileOverlap, c, prs[k]))
    {
      FilesNameIff(c, prs, k);
      if FilesName(c, prs, k) {
        PickedFinding(FileOverlap, c, prs, Some(k));
      }
    }
  }

  lemma EqualFilesScore(files: seq<string>, others: seq<string>)
    requires ToSet(files) == ToSet(others) && files != []
    ensures JaccardOf(ToSet(files), ToSet(others)) == 1.0
  {
    assert files[0] in ToSet(files);
    JaccardLaws(ToSet(files), ToSet(others));
  }

  /** Two pull requests of one repository that merged in this order within the window and have the same files. */
  ghost predicate SameFiles(prior: PR, suspect: PR) {
    && suspect.mergedAt.Some? && EarlierInRepo(suspect, prior) && prior.number != 0
    && prior.mergedAt.value >= suspect.mergedAt.value - WINDOW
    && ToSet(suspect.files) == ToSet(prior.files) && suspect.files != []
  }

  /** With the same files, a suspect reverts a prior exactly up to 1.5 times its count, and so with more of them too. */
  lemma OverlapFoundIff(prior: PR, suspect: PR)
    requires SameFiles(prior, suspect)
    ensures FindingFor(FileOverlap, suspect, [prior, suspect]) ==
            if 2 * suspect.filesChanged <= 3 * prior.filesChanged
            then Some(FindingOf(FileOverlap, suspect, prior)) else None
  {
    var prs := [prior, suspect];
    var scores := Scores(FileOverlap, suspect, prs);
    assert prior.files != [] by {
      assert suspect.files[0] in ToSet(suspect.files);
    }
    EqualFilesScore(suspect.files, prior.files);
    assert scores == [Score(FileOverlap, suspect, prior), None];
    PickedFinding(FileOverlap, suspect, prs, if scores[0].Some? then Some(0) else None);
  }

  /** Against the comment, a suspect that changes 3 files reverts a prior that changes 2. */
  lemma BroaderSuspectFound()
    ensures var prior, suspect := PR("r", 1, "", Some(1), 2, ["f"]), PR("r", 2, "", Some(2), 3, ["f"]);
            FindingFor(FileOverlap, suspect, [prior, suspect]) == Some(FindingOf(FileOverlap, suspect, prior))
  {
    OverlapFoundIff(PR("r", 1, "", Some(1), 2, ["f"]), PR("r", 2, "", Some(2), 3, ["f"]));
  }

  // --- Deduplication ------------------------------------------------------------

  /** What one heuristic finds for each candidate in turn. */
  ghost function Findings(h: Heuristic, prs: seq<PR>): seq<Option<Finding>> {
    seq(|prs|, i requires 0 <= i < |prs| => FindingFor(h, prs[i], prs))
  }

  ghost predicate Selects(found: seq<Option<Finding>>, i: nat, id: PullId) {
    i < |found| && found[i].Some? && Original(found[i].value) == id
  }

  /** The finding of the earliest of the first `n` candidates that selects the original. */
  ghost function FirstFor(found: seq<Option<Finding>>, id: PullId, n: nat): (r: Option<Finding>)
    requires n <= |found|
    ensures r.Some? ==> Original(r.value) == id
  {
    if n == 0 then None
    else if FirstFor(found, id, n - 1).Some? then FirstFor(found, id, n - 1)
    else if Selects(found, n - 1, id) then found[n - 1] else None
  }

  /** What the `preferred` findings say, and the first `n` others only where those say nothing. */
  ghost function Merged(preferred: seq<Option<Finding>>, others: seq<Option<Finding>>, id: PullId, n: nat)
    : (r: Option<Finding>)
    requires n <= |others|
    ensures r.Some? ==> Original(r.value) == id
  {
    if FirstFor(preferred, id, |preferred|).Some? then FirstFor(preferred, id, |preferred|) else FirstFor(others, id, n)
  }

  /** What is reported for an original: title findings win over overlap findings. */
  ghost function Expected(prs: seq<PR>, id: PullId): (r: Option<Finding>)
    ensures r.Some? ==> Original(r.value) == id
  {
    Merged(Findings(Title, prs), Findings(FileOverlap, prs), id, |prs|)
  }

  ghost predicate Earliest(found: seq<Option<Finding>>, i: nat, id: PullId) {
    Selects(found, i, id) && forall k :: 0 <= k < i ==> !Selects(found, k, id)
  }

  lemma {:induction false} FirstForFound(found: seq<Option<Finding>>, id: PullId, n: nat) returns (i: nat)
    requires n <= |found| && FirstFor(found, id, n).Some?
    ensures i < n && Earliest(found, i, id) && found[i] == FirstFor(found, id, n)
  {
    if FirstFor(found, id, n - 1).Some? {
      i := FirstForFound(found, id, n - 1);
    } else {
      FirstForNone(found, id, n - 1);
      i := n - 1;
    }
  }

  lemma {:induction false} FirstForNone(found: seq<Option<Finding>>, id: PullId, n: nat)
    requires n <= |found| && FirstFor(found, id, n).None?
    ensures forall k :: 0 <= k < n ==> !Selects(found, k, id)
  {
    if n > 0 {
      FirstForNone(found, id, n - 1);
    }
  }

  /** An original is reported exactly when some candidate selects it. */
  lemma ReportedIff(prs: seq<PR>, id: PullId)
    ensures Expected(prs, id).Some? <==> exists h, i: nat :: Selects(Findings(h, prs), i, id)
  {
    if FirstFor(Findings(Title, prs), id, |prs|).Some? {
      var i := FirstForFound(Findings(Title, prs), id, |prs|);
    } else if FirstFor(Findings(FileOverlap, prs), id, |prs|).Some? {
      var i := FirstForFound(Findings(FileOverlap, prs), id, |prs|);
    } else {
      FirstForNone(Findings(Title, prs), id, |prs|);
      FirstForNone(Findings(FileOverlap, prs), id, |prs|);
      forall h, i: nat
        ensures !Selects(Findings(h, prs), i, id)
      {
        assert h == Title || h == FileOverlap;
      }
    }
  }

  /**
   What is reported comes from the earliest selecting candidate in list order, by
   title if any title selects the original and by file overlap only otherwise.
   `Expected` is this with the findings of all candidates.
   */
  lemma Precedence(titles: seq<Option<Finding>>, overlaps: seq<Option<Finding>>, id: PullId, i: nat)
    ensures Earliest(titles, i, id) ==> Merged(titles, overlaps, id, |overlaps|) == titles[i]
    ensures Earliest(overlaps, i, id) && (forall k :: 0 <= k < |titles| ==> !Selects(titles, k, id)) ==>
              Merged(titles, overlaps, id, |overlaps|) == overlaps[i]
  {
    if FirstFor(titles, id, |titles|).Some? {
      var k := FirstForFound(titles, id, |titles|);
    } else {
      FirstForNone(titles, id, |titles|);
    }
    if FirstFor(overlaps, id, |overlaps|).Some? {
      var k := FirstForFound(overlaps, id, |overlaps|);
    } else {
      FirstForNone(overlaps, id, |overlaps|);
    }
  }

  /** Different pull requests have different keys. */
  ghost predicate Distinguishes(key: PullId -> string) {
    forall a, b :: key(a) == key(b) ==> a == b
  }

  lemma PullKeysDistinguish(key: PullId -> string)
    requires forall id :: key(id) == PullKey(id.repo, id.number)
    ensures Distinguishes(key)
  {
    forall a, b | key(a) == key(b)
      ensures a == b
    {
      PullKeyInjective(a.repo, a.number, b.repo, b.number);
    }
  }

  function Look(seen: map<string, Finding>, key: PullId -> string, id: PullId): Option<Finding> {
    if key(id) in seen then Some(seen[key(id)]) else None
  }

  ghost predicate Keyed(seen: map<string, Finding>, key: PullId -> string) {
    forall k :: k in seen ==> k == key(Original(seen[k]))
  }

  ghost predicate Holds(seen: map<string, Finding>, key: PullId -> string,
                        preferred: seq<Option<Finding>>, others: seq<Option<Finding>>, n: nat)
    requires n <= |others|
  {
    Keyed(seen, key) && forall id :: Look(seen, key, id) == Merged(preferred, others, id, n)
  }

  /** The map keeps what it knows and takes the next finding only under a new key. */
  method AddIfNew(seen: map<string, Finding>, key: PullId -> string, f: Option<Finding>,
                  ghost preferred: seq<Option<Finding>>, ghost others: seq<Option<Finding>>, ghost n: nat)
    returns (r: map<string, Finding>)
    requires Distinguishes(key)
    requires n < |others| && others[n] == f && Holds(seen, key, preferred, others, n)
    ensures Holds(r, key, preferred, others, n + 1)
  {
    r := seen;
    if f.Some? {
      var k := key(Original(f.value));
      if k !in seen {
        r := seen[k := f.value];
      }
    }
    forall id
      ensures Look(r, key, id) == Merged(preferred, others, id, n + 1)
    {
      assert Look(seen, key, id) == Merged(preferred, others, id, n);
    }
  }

  lemma NothingHeld(key: PullId -> string, others: seq<Option<Finding>>)
    ensures Holds(map[], key, [], others, 0)
  {
  }

  /** With no title finding preferred to them, the title findings merge to themselves. */
  lemma NonePreferred(seen: map<string, Finding>, key: PullId -> string, found: seq<Option<Finding>>,
                      others: seq<Option<Finding>>)
    requires Holds(seen, key, [], found, |found|)
    ensures Holds(seen, key, found, others, 0)
  {
    forall id
      ensures Look(seen, key, id) == Merged(found, others, id, 0)
    {
      assert Look(seen, key, id) == Merged([], found, id, |found|);
    }
  }

  method Detect(h: Heuristic, candidate: PR, prs: seq<PR>) returns (f: Option<Finding>)
    ensures f == FindingFor(h, candidate, prs)
  {
    match h
    case Title => f := DetectFromTitle(candidate, prs);
    case FileOverlap => f := DetectFromFileOverlap(candidate, prs);
  }

  /** The loop of one heuristic over all candidates. */
  method Pass(h: Heuristic, prs: seq<PR>, before: map<string, Finding>, key: PullId -> string,
              ghost preferred: seq<Option<Finding>>)
    returns (seen: map<string, Finding>)
    requires Distinguishes(key) && Holds(before, key, preferred, Findings(h, prs), 0)
    ensures Holds(seen, key, preferred, Findings(h, prs), |prs|)
  {
    ghost var found := Findings(h, prs);
    seen := before;
    for k := 0 to |prs|
      invariant Holds(seen, key, preferred, found, k)
    {
      var f := Detect(h, prs[k], prs);
      assert found[k] == f;
      seen := AddIfNew(seen, key, f, preferred, found, k);
    }
  }

  method DetectReverts(prs: seq<PR>) returns (out: seq<Finding>)
    ensures forall i, j :: 0 <= i < j < |out| ==> Original(out[i]) != Original(out[j])
    ensures forall f :: f in out <==> Expected(prs, Original(f)) == Some(f)
  {
    var key := (id: PullId) => PullKey(id.repo, id.number);
    PullKeysDistinguish(key);
    out := Deduplicated(prs, key);
  }

  /** Two originals share no finding as long as they share no key. */
  method Deduplicated(prs: seq<PR>, key: PullId -> string) returns (out: seq<Finding>)
    requires Distinguishes(key)
    ensures forall i, j :: 0 <= i < j < |out| ==> Original(out[i]) != Original(out[j])
    ensures forall f :: f in out <==> Expected(prs, Original(f)) == Some(f)
  {
    ghost var titles, overlaps := Findings(Title, prs), Findings(FileOverlap, prs);
    NothingHeld(key, titles);
    var seen := Pass(Title, prs, map[], key, []);
    NonePreferred(seen, key, titles, overlaps);
    seen := Pass(FileOverlap, prs, seen, key, titles);
    out := Report(seen, key, titles, overlaps);
  }

  /** The report holds exactly the merged findings. */
  method Report(seen: map<string, Finding>, ghost key: PullId -> string,
                ghost titles: seq<Option<Finding>>, ghost overlaps: seq<Option<Finding>>)
    returns (out: seq<Finding>)
    requires Holds(seen, key, titles, overlaps, |overlaps|)
    ensures forall i, j :: 0 <= i < j < |out| ==> Original(out[i]) != Original(out[j])
    ensures forall f :: f in out <==> Merged(titles, overlaps, Original(f), |overlaps|) == Some(f)
  {
    ghost var keys;
    keys, out := Values(seen);
    forall i | 0 <= i < |out|
      ensures keys[i] == key(Original(out[i]))
    {
      assert keys[i] in seen;
    }
    forall f
      ensures f in out <==> Merged(titles, overlaps, Original(f), |overlaps|) == Some(f)
    {
      assert Look(seen, key, Original(f)) == Merged(titles, overlaps, Original(f), |overlaps|);
      InValues(seen, key, keys, out, f);
    }
  }

  lemma InValues(seen: map<string, Finding>, key: PullId -> string, keys: seq<string>, out: seq<Finding>, f: Finding)
    requires AreValues(seen, keys, out) && Keyed(seen, key)
    ensures f in out <==> Look(seen, key, Original(f)) == Some(f)
  {
    var k := key(Original(f));
    if k in seen {
      assert k in keys;
      var i :| 0 <= i < |keys| && keys[i] == k;
      assert out[i] == seen[k];
    }
    if f in out {
      var i :| 0 <= i < |out| && out[i] == f;
      assert keys[i] in keys && out[i] == seen[keys[i]];
    }
  }

  /** The values of the map under distinct keys, each listed once. */
  ghost predicate AreValues<K(!new), V>(m: map<K, V>, keys: seq<K>, out: seq<V>) {
    && |keys| == |out|
    && (forall i, j :: 0 <= i < j < |keys| ==> keys[i] != keys[j])
    && (forall k :: k in m <==> k in keys)
    && forall i :: 0 <= i < |keys| ==> keys[i] in m && out[i] == m[keys[i]]
  }

  /** The values of the map, in no particular order. */
  method Values<K(==,!new), V>(m: map<K, V>) returns (ghost keys: seq<K>, out: seq<V>)
    ensures AreValues(m, keys, out)
  {
    keys, out := [], [];
    var todo := m.Keys;
    while todo != {}
      invariant todo <= m.Keys && |keys| == |out|
      invariant forall i, j :: 0 <= i < j < |keys| ==> keys[i] != keys[j]
      invariant forall k :: k in m && k !in todo <==> k in keys
      invariant forall i :: 0 <= i < |keys| ==> keys[i] in m && out[i] == m[keys[i]]
      decreases |todo|
    {
      ghost var _ := NonEmpty(todo);
      var k :| k in todo;
      assert forall x :: x in keys + [k] <==> x in keys || x == k;
      keys, out := keys + [k], out + [m[k]];
      todo := todo - {k};
    }
  }

  // --- Soundness ------------------------------------------------------------------

  /** Every finding names two distinct merged pull requests of one repository, the original merged strictly first. */
  lemma FindingSound(prs: seq<PR>, f: Finding) returns (i: nat, k: nat)
    requires Expected(prs, Original(f)) == Some(f)
    ensures i < |prs| && k < |prs| && prs[i].mergedAt.Some? && EarlierInRepo(prs[i], prs[k])
    ensures f == FindingOf(f.heuristic, prs[i], prs[k]) && prs[k].number != 0
    ensures Score(f.heuristic, prs[i], prs[k]).Some? && IsPick(Scores(f.heuristic, prs[i], prs), k)
  {
    var id := Original(f);
    var h := if FirstFor(Findings(Title, prs), id, |prs|).Some? then Title else FileOverlap;
    i := FirstForFound(Findings(h, prs), id, |prs|);
    k :| IsPick(Scores(h, prs[i], prs), k) && f == FindingOf(h, prs[i], prs[k]) && prs[k].number != 0;
  }

  /** As in the table, no two entries of the list are the same pull request. */
  ghost predicate Distinct(prs: seq<PR>) {
    forall i, j :: 0 <= i < j < |prs| ==> PullId(prs[i].repo, prs[i].number) != PullId(prs[j].repo, prs[j].number)
  }

  function Reverting(f: Finding): PullId {
    PullId(f.originalRepo, f.revertingPR)
  }

  /** Findings in which each reverting pull request is the original of the next one. */
  ghost predicate Chain(prs: seq<PR>, fs: seq<Finding>) {
    && (forall i :: 0 <= i < |fs| ==> Expected(prs, Original(fs[i])) == Some(fs[i]))
    && (forall i :: 0 <= i < |fs| - 1 ==> Reverting(fs[i]) == Original(fs[i + 1]))
  }

  /** Along a chain of reverts, merge times increase strictly. */
  lemma {:induction false} ChainAscends(prs: seq<PR>, fs: seq<Finding>) returns (first: nat, last: nat)
    requires Distinct(prs) && Chain(prs, fs) && fs != []
    ensures first < |prs| && last < |prs|
    ensures PullId(prs[first].repo, prs[first].number) == Original(fs[0])
    ensures PullId(prs[last].repo, prs[last].number) == Reverting(fs[|fs| - 1])
    ensures prs[first].mergedAt.Some? && prs[last].mergedAt.Some? &&
      prs[first].mergedAt.value < prs[last].mergedAt.value
    decreases |fs|
  {
    var n := |fs| - 1;
    var i, k := FindingSound(prs, fs[n]);
    if n == 0 {
      first, last := k, i;
    } else {
      var mid;
      first, mid := ChainAscends(prs, fs[..n]);
      assert Reverting(fs[n - 1]) == Original(fs[n]) == PullId(prs[k].repo, prs[k].number);
      assert mid == k;
      last := i;
    }
  }

  /** So nothing reverts itself, directly or around any cycle. */
  lemma RevertsAcyclic(prs: seq<PR>, fs: seq<Finding>)
    requires Distinct(prs) && Chain(prs, fs) && fs != []
    ensures Reverting(fs[|fs| - 1]) != Original(fs[0])
  {
    var first, last := ChainAscends(prs, fs);
    assert first != last;
    assert PullId(prs[first].repo, prs[first].number) != PullId(prs[last].repo, prs[last].number);
  }

  /** The one reverts the other by its files alone. */
  ghost predicate Redoes(prior: PR, suspect: PR) {
    && SameFiles(prior, suspect) && 2 * suspect.filesChanged <= 3 * prior.filesChanged
    && !IsRevertTitle(prior.title) && !IsRevertTitle(suspect.title)
  }

  lemma RedoesScore(prior: PR, suspect: PR)
    requires Redoes(prior, suspect)
    ensures Score(FileOverlap, suspect, prior) == Some(1.0)
    ensures Candidate(FileOverlap, suspect) && Candidate(FileOverlap, prior)
  {
    assert prior.files != [] by {
      assert suspect.files[0] in ToSet(suspect.files);
    }
    EqualFilesScore(suspect.files, prior.files);
  }

  lemma OverlapFinds(c: PR, prs: seq<PR>, scores: seq<Option<real>>, k: Option<nat>)
    requires Candidate(FileOverlap, c) && scores == Scores(FileOverlap, c, prs)
    requires k.None? ==> forall j :: 0 <= j < |scores| ==> scores[j] == None
    requires k.Some? ==> k.value < |prs| && prs[k.value].number != 0
                         && forall j :: 0 <= j < |scores| ==> scores[j] == if j == k.value then Some(1.0) else None
    ensures FindingFor(FileOverlap, c, prs) == if k.None? then None else Some(FindingOf(FileOverlap, c, prs[k.value]))
  {
    PickedFinding(FileOverlap, c, prs, k);
  }

  ghost predicate Repeats(a: PR, b: PR, c: PR) {
    Redoes(a, b) && Redoes(b, c) && c.number == a.number
  }

  lemma RepeatsFinds(a: PR, b: PR, c: PR)
    requires Repeats(a, b, c)
    ensures Findings(FileOverlap, [a, b, c]) ==
            [None, Some(FindingOf(FileOverlap, b, a)), Some(FindingOf(FileOverlap, c, b))]
  {
    var prs := [a, b, c];
    RedoesScore(a, b);
    RedoesScore(b, c);
    OverlapFinds(a, prs, Scores(FileOverlap, a, prs), None);
    OverlapFinds(b, prs, Scores(FileOverlap, b, prs), Some(0));
    OverlapFinds(c, prs, Scores(FileOverlap, c, prs), Some(1));
  }

  lemma FirstOfThree(found: seq<Option<Finding>>, id: PullId)
    requires |found| == 3 && found[0] == None
    ensures FirstFor(found, id, 3) ==
            if Selects(found, 1, id) then found[1] else if Selects(found, 2, id) then found[2] else None
  {
    assert FirstFor(found, id, 1) == FirstFor(found, id, 0) == None;
    assert FirstFor(found, id, 2) == if Selects(found, 1, id) then found[1] else None;
  }

  /** A list that repeats a pull request has a cycle whenever the repeated one redoes what had redone it. */
  lemma RepeatedCycles(a: PR, b: PR, c: PR)
    requires Repeats(a, b, c)
    ensures var first, second := FindingOf(FileOverlap, b, a), FindingOf(FileOverlap, c, b);
            Chain([a, b, c], [first, second]) && Reverting(second) == Original(first)
  {
    var prs := [a, b, c];
    var first, second := FindingOf(FileOverlap, b, a), FindingOf(FileOverlap, c, b);
    var titles, overlaps := Findings(Title, prs), Findings(FileOverlap, prs);
    RepeatsFinds(a, b, c);
    assert titles == [None, None, None];
    FirstOfThree(titles, Original(first));
    FirstOfThree(titles, Original(second));
    FirstOfThree(overlaps, Original(first));
    FirstOfThree(overlaps, Original(second));
  }
}
