/**
 Pareto frontiers and deterministic selection: `pareto_frontier` and `deterministic_select`
 (`src/gymact/dd_ui.py`), and the same laws for `pareto_paths` (`src/gymact/combinatorial.py`).
 */
module Selection {
  import opened Outcomes
  import opened Sequences
  import opened Ordering
  import opened Possibility
  import opened Exploration

  // ---------------------------------------------------------------- any strict order

  ghost predicate StrictOrder<T(!new)>(above: (T, T) -> bool) {
    && (forall x :: !above(x, x))
    && (forall x, y, z :: above(x, y) && above(y, z) ==> above(x, z))
  }

  ghost predicate Maximal<T>(above: (T, T) -> bool, all: seq<T>, x: T) {
    x in all && forall y :: y in all ==> !above(y, x)
  }

  ghost function Uppers<T>(above: (T, T) -> bool, all: seq<T>, x: T): set<T> {
    set y | y in all && above(y, x)
  }

  /** In a finite sequence every member that something lies above has a maximal member above it. */
  lemma {:induction false} MaximalAbove<T(!new)>(above: (T, T) -> bool, all: seq<T>, x: T) returns (top: T)
    requires StrictOrder(above) && (exists y :: y in all && above(y, x))
    ensures Maximal(above, all, top) && above(top, x)
    decreases |Uppers(above, all, x)|
  {
    var y :| y in all && above(y, x);
    if Maximal(above, all, y) {
      top := y;
    } else {
      assert Uppers(above, all, y) <= Uppers(above, all, x) - {y};
      SubsetSize(Uppers(above, all, y), Uppers(above, all, x) - {y});
      assert y in Uppers(above, all, x);
      top := MaximalAbove(above, all, y);
    }
  }

  // ---------------------------------------------------------------- candidates

  type Scores = s: seq<int> | |s| == 6 witness [0, 0, 0, 0, 0, 0]

  datatype Candidate = Candidate(identity: string, scores: Scores, projectedActions: seq<string>)

  predicate Outranks(left: Candidate, right: Candidate) {
    && (forall i :: 0 <= i < 6 ==> left.scores[i] >= right.scores[i])
    && (exists i :: 0 <= i < 6 && left.scores[i] > right.scores[i])
  }

  function IdentityKey(c: Candidate): Key {
    [Codes(c.identity)]
  }

  function RankKey(c: Candidate): Key {
    [c.scores, Codes(c.identity)]
  }

  predicate Kept(c: Candidate, ordered: seq<Candidate>) {
    !exists other :: other in ordered && other != c && Outranks(other, c)
  }

  /** `pareto_frontier`. */
  function ParetoFrontier(candidates: seq<Candidate>): seq<Candidate> {
    var ordered := SortBy(IdentityKey, candidates);
    Filter((c: Candidate) => Kept(c, ordered), ordered)
  }

  function Reverse<T>(s: seq<T>): (r: seq<T>)
    ensures |r| == |s| && forall i :: 0 <= i < |s| ==> r[i] == s[|s| - 1 - i]
  {
    seq(|s|, i requires 0 <= i < |s| => s[|s| - 1 - i])
  }

  /** `sorted(s, key=key, reverse=True)`: descending, and equal keys keep their order. */
  function SortDescending<T>(key: T -> Key, s: seq<T>): seq<T> {
    Reverse(SortBy(key, Reverse(s)))
  }

  datatype SelectionError = FrontierEmpty

  /** `deterministic_select`. */
  function DeterministicSelect(candidates: seq<Candidate>): Result<Candidate, SelectionError> {
    var ordered := SortDescending(RankKey, candidates);
    if ordered == [] then Failure(FrontierEmpty) else Success(ordered[0])
  }

  // ---------------------------------------------------------------- the frontier

  lemma OutranksIsStrict()
    ensures StrictOrder(Outranks)
  {
    forall x, y, z | Outranks(x, y) && Outranks(y, z) ensures Outranks(x, z) {
      var i :| 0 <= i < 6 && x.scores[i] > y.scores[i];
      assert x.scores[i] > z.scores[i];
    }
  }

  /** The frontier holds exactly the undominated candidates. */
  lemma FrontierIsUndominated(candidates: seq<Candidate>, c: Candidate)
    ensures c in ParetoFrontier(candidates) <==> Maximal(Outranks, candidates, c)
  {
    OutranksIsStrict();
    SortByMembers(IdentityKey, candidates);
    var ordered := SortBy(IdentityKey, candidates);
    if c in candidates && !Kept(c, ordered) {
      var other :| other in ordered && other != c && Outranks(other, c);
      assert other in candidates;
    }
  }

  /** Every dropped candidate is dominated by one that is kept. */
  lemma DroppedAreDominated(candidates: seq<Candidate>, c: Candidate) returns (kept: Candidate)
    requires c in candidates && c !in ParetoFrontier(candidates)
    ensures kept in ParetoFrontier(candidates) && Outranks(kept, c)
  {
    OutranksIsStrict();
    FrontierIsUndominated(candidates, c);
    kept := MaximalAbove(Outranks, candidates, c);
    FrontierIsUndominated(candidates, kept);
  }

  lemma {:induction false} SortOfSorted<T>(key: T -> Key, s: seq<T>)
    requires Sorted(key, s)
    ensures SortBy(key, s) == s
  {
    if s != [] {
      FrontAndLast(s);
      SortOfSorted(key, s[..|s| - 1]);
    }
  }

  /** Filtering a frontier again changes nothing. */
  lemma FrontierIdempotent(candidates: seq<Candidate>)
    ensures ParetoFrontier(ParetoFrontier(candidates)) == ParetoFrontier(candidates)
  {
    var ordered, frontier := SortBy(IdentityKey, candidates), ParetoFrontier(candidates);
    SortBySorts(IdentityKey, candidates);
    FilterSorted((c: Candidate) => Kept(c, ordered), IdentityKey, ordered);
    SortOfSorted(IdentityKey, frontier);
    forall c | c in frontier ensures Kept(c, frontier) {
      assert forall other :: other in frontier ==> other in ordered;
    }
    FilterAll((c: Candidate) => Kept(c, frontier), frontier);
  }

  // ---------------------------------------------------------------- selection

  /** The sort keeps the order of the elements that share a key. */
  lemma {:induction false} InsertStable<T(!new)>(key: T -> Key, p: T -> bool, s: seq<T>, x: T)
    requires forall y :: p(x) && p(y) ==> key(x) == key(y)
    ensures Filter(p, Insert(key, s, x)) == Filter(p, s) + Filter(p, [x])
  {
    hide KeyLeq;
    hide Filter;
    if s == [] || KeyLeq(key(s[|s| - 1]), key(x)) {
      FilterAppend(p, s, [x]);
    } else {
      var front, last := s[..|s| - 1], s[|s| - 1];
      InsertStable(key, p, front, x);
      FilterAppend(p, Insert(key, front, x), [last]);
      FilterAppend(p, front, [last]);
      FrontAndLast(s);
      FilterOne(p, last);
      FilterOne(p, x);
      KeyTotal(key(last), key(last));
      assert !(p(x) && p(last));
    }
  }

  lemma {:induction false} SortStable<T(!new)>(key: T -> Key, p: T -> bool, s: seq<T>)
    requires forall x, y :: p(x) && p(y) ==> key(x) == key(y)
    ensures Filter(p, SortBy(key, s)) == Filter(p, s)
  {
    if s != [] {
      var front, last := s[..|s| - 1], s[|s| - 1];
      SortStable(key, p, front);
      InsertStable(key, p, SortBy(key, front), last);
      FilterOne(p, last);
    }
  }

  lemma ReverseSnoc<T>(s: seq<T>, x: T)
    ensures Reverse(s + [x]) == [x] + Reverse(s)
  {
  }

  lemma {:induction false} FilterReverse<T(!new)>(p: T -> bool, s: seq<T>)
    ensures Filter(p, Reverse(s)) == Reverse(Filter(p, s))
  {
    if s == [] {
      assert Reverse(s) == s;
    } else {
      hide Filter;
      var front, last := s[..|s| - 1], s[|s| - 1];
      FilterReverse(p, front);
      FrontAndLast(s);
      ReverseSnoc(front, last);
      FilterAppend(p, [last], Reverse(front));
      FilterAppend(p, front, [last]);
      FilterOne(p, last);
      ReverseSnoc(Filter(p, front), last);
    }
  }

  predicate SameRank(c: Candidate, best: Candidate) {
    RankKey(c) == RankKey(best)
  }

  ghost predicate Best(candidates: seq<Candidate>, best: Candidate) {
    best in candidates && forall c :: c in candidates ==> KeyLeq(RankKey(c), RankKey(best))
  }

  /** Selection fails on nothing only, and otherwise takes the first of the highest-ranked candidates. */
  lemma SelectTakesFirstBest(candidates: seq<Candidate>)
    ensures DeterministicSelect(candidates).Failure? <==> candidates == []
    ensures candidates != [] ==>
              var best := DeterministicSelect(candidates).value;
              && Best(candidates, best)
              && Filter((c: Candidate) => SameRank(c, best), candidates) != []
              && best == Filter((c: Candidate) => SameRank(c, best), candidates)[0]
  {
    hide SortBy;
    hide Best;
    hide Filter;
    var backwards := Reverse(candidates);
    var sorted := SortBy(RankKey, backwards);
    SortBySorts(RankKey, backwards);
    if candidates != [] {
      var best := sorted[|sorted| - 1];
      var same := (c: Candidate) => SameRank(c, best);
      LastIsBest(candidates, backwards, sorted);
      forall x, y | same(x) && same(y) ensures RankKey(x) == RankKey(y) {
      }
      SortStable(RankKey, same, backwards);
      FilterReverse(same, candidates);
      FilterLast(same, sorted);
    }
  }

  lemma FilterLast<T(!new)>(p: T -> bool, s: seq<T>)
    requires s != [] && p(s[|s| - 1])
    ensures Filter(p, s) != [] && Filter(p, s)[|Filter(p, s)| - 1] == s[|s| - 1]
  {
  }

  lemma LastIsBest(candidates: seq<Candidate>, backwards: seq<Candidate>, sorted: seq<Candidate>)
    requires multiset(sorted) == multiset(backwards) && backwards == Reverse(candidates) && Sorted(RankKey, sorted)
    requires sorted != []
    ensures Best(candidates, sorted[|sorted| - 1])
  {
    hide KeyLeq;
    hide RankKey;
    var best := sorted[|sorted| - 1];
    KeyTotal(RankKey(best), RankKey(best));
    ReverseMultiset(candidates);
    InMultiset(sorted, best);
    InMultiset(candidates, best);
    forall c | c in candidates ensures KeyLeq(RankKey(c), RankKey(best)) {
      InMultiset(sorted, c);
      InMultiset(candidates, c);
      var j :| 0 <= j < |sorted| && sorted[j] == c;
    }
  }

  /** Domination shows in the rank. */
  lemma OutrankedIsLower(high: Candidate, low: Candidate)
    requires Outranks(high, low)
    ensures !KeyLeq(RankKey(high), RankKey(low))
  {
    var i :| 0 <= i < 6 && high.scores[i] > low.scores[i];
    assert high.scores != low.scores;
    HigherWord(high.scores, low.scores, 0, i);
  }

  lemma {:induction false} HigherWord(a: Scores, b: Scores, i: nat, at: nat)
    requires i <= at < 6 && a[at] > b[at] && forall k :: 0 <= k < 6 ==> a[k] >= b[k]
    ensures !WordLeq(a, b, i)
    decreases 6 - i
  {
    if i < at {
      HigherWord(a, b, i + 1, at);
    }
  }

  /** Two best candidates rank the same, so they carry one identity. */
  lemma BestRanksEqual(some: seq<Candidate>, a: Candidate, all: seq<Candidate>, b: Candidate)
    requires Best(some, a) && Best(all, b) && a in all && b in some
    ensures RankKey(a) == RankKey(b)
  {
    KeyAntisymmetric(RankKey(a), RankKey(b));
  }

  /** What is best is never dominated. */
  lemma BestIsKept(candidates: seq<Candidate>, best: Candidate)
    requires Best(candidates, best)
    ensures best in ParetoFrontier(candidates)
  {
    forall c | c in candidates ensures !Outranks(c, best) {
      if Outranks(c, best) {
        OutrankedIsLower(c, best);
      }
    }
    FrontierIsUndominated(candidates, best);
  }

  lemma {:induction false} FilterNarrows<T(!new)>(p: T -> bool, q: T -> bool, s: seq<T>)
    requires forall x :: x in s && p(x) ==> q(x)
    ensures Filter(p, Filter(q, s)) == Filter(p, s)
  {
    if s != [] {
      var front, last := s[..|s| - 1], s[|s| - 1];
      FilterNarrows(p, q, front);
      FilterAppend(p, Filter(q, front), if q(last) then [last] else []);
      FilterOne(p, last);
    }
  }

  /** Selecting from the frontier selects what would have been selected from all candidates. */
  lemma SelectionSurvivesFiltering(candidates: seq<Candidate>)
    ensures DeterministicSelect(ParetoFrontier(candidates)) == DeterministicSelect(candidates)
  {
    hide DeterministicSelect;
    hide KeyLeq;
    var frontier := ParetoFrontier(candidates);
    SelectTakesFirstBest(candidates);
    SelectTakesFirstBest(frontier);
    FrontierMembers(candidates);
    if candidates != [] {
      var best := DeterministicSelect(candidates).value;
      BestIsKept(candidates, best);
      var other := DeterministicSelect(frontier).value;
      BestRanksEqual(frontier, other, candidates, best);
      var same, sameOther := (c: Candidate) => SameRank(c, best), (c: Candidate) => SameRank(c, other);
      FilterAgrees(same, sameOther, frontier);
      SameRanksKept(candidates, best);
    }
  }

  lemma FrontierMembers(candidates: seq<Candidate>)
    ensures forall c :: c in ParetoFrontier(candidates) ==> c in candidates
  {
    SortByMembers(IdentityKey, candidates);
  }

  /** The candidates ranked like the best one all reach the frontier, in their original order. */
  lemma SameRanksKept(candidates: seq<Candidate>, best: Candidate)
    requires Best(candidates, best)
    ensures var same := (c: Candidate) => SameRank(c, best);
            Filter(same, ParetoFrontier(candidates)) == Filter(same, candidates)
  {
    hide KeyLeq;
    var ordered := SortBy(IdentityKey, candidates);
    var same, kept := (c: Candidate) => SameRank(c, best), (c: Candidate) => Kept(c, ordered);
    SortByMembers(IdentityKey, candidates);
    forall c | c in ordered && same(c) ensures kept(c) {
      assert Best(candidates, c);
      BestIsKept(candidates, c);
    }
    FilterNarrows(same, kept, ordered);
    forall x, y | same(x) && same(y) ensures IdentityKey(x) == IdentityKey(y) {
      assert RankKey(x)[1] == RankKey(y)[1];
    }
    SortStable(IdentityKey, same, candidates);
  }

  /** With one candidate per identity, frontier and selection do not depend on the order of the input. */
  lemma OrderDoesNotMatter(a: seq<Candidate>, b: seq<Candidate>)
    requires multiset(a) == multiset(b)
    requires forall x, y :: x in a && y in a && x.identity == y.identity ==> x == y
    ensures ParetoFrontier(a) == ParetoFrontier(b)
    ensures DeterministicSelect(a) == DeterministicSelect(b)
  {
    forall x, y | x in a && y in a && IdentityKey(x) == IdentityKey(y) ensures x == y {
      assert IdentityKey(x)[0] == IdentityKey(y)[0];
      CodesInjective(x.identity, y.identity);
    }
    SortForgetsOrder(IdentityKey, a, b);
    forall x, y | x in a && y in a && RankKey(x) == RankKey(y) ensures x == y {
      assert RankKey(x)[1] == RankKey(y)[1];
      CodesInjective(x.identity, y.identity);
    }
    ReverseMultiset(a);
    ReverseMultiset(b);
    assert TellsApart(RankKey, Reverse(a)) by {
      forall x | x in Reverse(a) ensures x in a { InMultiset(a, x); InMultiset(Reverse(a), x); }
    }
    SortForgetsOrder(RankKey, Reverse(a), Reverse(b));
  }

  lemma {:induction false} ReverseMultiset<T>(s: seq<T>)
    ensures multiset(Reverse(s)) == multiset(s)
  {
    if s != [] {
      FrontAndLast(s);
      assert Reverse(s) == [s[|s| - 1]] + Reverse(s[..|s| - 1]);
      ReverseMultiset(s[..|s| - 1]);
    }
  }

  // ---------------------------------------------------------------- what frontier and selection mean

  /** At least as good in every dimension, and better somewhere. */
  ghost predicate NoWorse(left: seq<real>, right: seq<real>) {
    |left| == |right| && forall i :: 0 <= i < |left| ==> left[i] >= right[i]
  }

  /** The higher-ranked: at the first score that differs the greater, and on equal scores the later identity. */
  ghost predicate RankedAtMost(c: Candidate, best: Candidate) {
    if c.scores == best.scores then TextAtMost(c.identity, best.identity)
    else exists i :: 0 <= i < 6 && c.scores[..i] == best.scores[..i] && c.scores[i] < best.scores[i]
  }

  lemma RankMeans(c: Candidate, best: Candidate)
    ensures KeyLeq(RankKey(c), RankKey(best)) <==> RankedAtMost(c, best)
  {
    var a, b := RankKey(c), RankKey(best);
    WordLeqMeans(c.scores, best.scores, 0);
    CodesOrder(c.identity, best.identity);
    WordLeqMeans(a[1], b[1], 0);
    assert WordLeq(a[1], b[1], 0) <==> WordAtMost(a[1], b[1]);
    if c.scores != best.scores {
      if KeyLeq(a, b) {
        var i: nat :| WordDiffersAt(c.scores, best.scores, i);
        assert i < 6;
        assert c.scores[..i] == best.scores[..i];
      }
      if i :| 0 <= i < 6 && c.scores[..i] == best.scores[..i] && c.scores[i] < best.scores[i] {
        forall k | 0 <= k < i ensures c.scores[k] == best.scores[k] {
          assert c.scores[..i][k] == best.scores[..i][k];
        }
        assert WordDiffersAt(c.scores, best.scores, i);
      }
    } else if a[1] != b[1] {
      assert KeyLeqFrom(a, b, 1) == WordLeq(a[1], b[1], 0);
    } else {
      assert KeyLeqFrom(a, b, 2) && KeyLeqFrom(a, b, 1);
      CodesInjective(c.identity, best.identity);
      assert TextDiffersAt(c.identity, best.identity, |c.identity|);
    }
  }

  /** What is selected is a candidate that every other is ranked at most as high as, score by score, then by identity. */
  lemma SelectionIsHighest(candidates: seq<Candidate>)
    requires candidates != []
    ensures var best := DeterministicSelect(candidates).value;
            best in candidates && forall c :: c in candidates ==> RankedAtMost(c, best)
  {
    hide KeyLeq;
    hide RankKey;
    hide DeterministicSelect;
    SelectTakesFirstBest(candidates);
    var best := DeterministicSelect(candidates).value;
    forall c | c in candidates ensures RankedAtMost(c, best) {
      RankMeans(c, best);
    }
  }

  predicate Named(id: string, c: Candidate) {
    c.identity == id
  }

  /**
   The frontier is ordered by identity; and under each identity it lists the undominated candidates in
   the order, and as often, as they were given.
   */
  lemma FrontierOrder(candidates: seq<Candidate>, id: string)
    ensures var frontier := ParetoFrontier(candidates);
            && (forall i, j :: 0 <= i < j < |frontier| ==> TextAtMost(frontier[i].identity, frontier[j].identity))
            && Filter((c: Candidate) => Named(id, c), frontier) ==
               Filter((c: Candidate) => Named(id, c) && c in frontier, candidates)
  {
    var ordered, frontier := SortBy(IdentityKey, candidates), ParetoFrontier(candidates);
    SortBySorts(IdentityKey, candidates);
    FilterSorted((c: Candidate) => Kept(c, ordered), IdentityKey, ordered);
    forall i, j | 0 <= i < j < |frontier| ensures TextAtMost(frontier[i].identity, frontier[j].identity) {
      TextKeyOrder(frontier[i].identity, frontier[j].identity);
    }
    var named, kept := (c: Candidate) => Named(id, c), (c: Candidate) => Kept(c, ordered);
    var both := (c: Candidate) => Named(id, c) && c in frontier;
    FilterTwice(named, kept, both, ordered);
    SortStable(IdentityKey, both, candidates);
  }

  lemma {:induction false} FilterTwice<T(!new)>(p: T -> bool, q: T -> bool, both: T -> bool, s: seq<T>)
    requires forall x :: x in s ==> (both(x) <==> p(x) && q(x))
    ensures Filter(p, Filter(q, s)) == Filter(both, s)
  {
    if s != [] {
      var front, last := s[..|s| - 1], s[|s| - 1];
      FilterTwice(p, q, both, front);
      FilterAppend(p, Filter(q, front), if q(last) then [last] else []);
      FilterOne(p, last);
    }
  }

  /** One candidate outranks another exactly when no score is lower and the scores are not the same. */
  lemma OutranksMeans(left: Candidate, right: Candidate)
    ensures Outranks(left, right) <==>
            left.scores != right.scores && !exists i :: 0 <= i < 6 && left.scores[i] < right.scores[i]
  {
    if left.scores != right.scores {
      var i :| 0 <= i < 6 && left.scores[i] != right.scores[i];
    }
  }

  // ---------------------------------------------------------------- explored paths

  /** What counts for a path: low costs, high confidence and value. */
  ghost function Merits(p: Path): seq<real> {
    var o := p.objectives;
    [0.0 - o.monetaryCost, 0.0 - o.wallTime, 0.0 - o.computeUnits, 0.0 - o.humanInterventions, 0.0 - o.riskScore,
     o.verificationConfidence as real, o.expectedValue]
  }

  /** One path dominates another exactly when no merit is lower and not all are the same. */
  lemma DominatesMeans(left: Path, right: Path)
    ensures Dominates(left, right) <==> NoWorse(Merits(left), Merits(right)) && Merits(left) != Merits(right)
  {
    var l, r := Merits(left), Merits(right);
    if NoWorse(l, r) {
      assert l[0] >= r[0] && l[1] >= r[1] && l[2] >= r[2] && l[3] >= r[3] && l[4] >= r[4] && l[5] >= r[5] && l[6] >= r[6];
    }
  }

  lemma DominatesIsStrict()
    ensures StrictOrder(Dominates)
  {
  }

  lemma {:induction false} UndominatedMembers(some: seq<Path>, all: seq<Path>, p: Path)
    ensures p in Undominated(some, all) <==> p in some && forall q :: q in all ==> !Dominates(q, p)
  {
    if some != [] {
      UndominatedMembers(some[..|some| - 1], all, p);
    }
  }

  /** The paths that are kept keep their order and number. */
  lemma {:induction false} UndominatedAppend(a: seq<Path>, b: seq<Path>, all: seq<Path>)
    ensures Undominated(a + b, all) == Undominated(a, all) + Undominated(b, all)
  {
    if b == [] {
      assert a + b == a;
    } else {
      assert (a + b)[..|a + b| - 1] == a + b[..|b| - 1];
      UndominatedAppend(a, b[..|b| - 1], all);
    }
  }

  /** `pareto_paths` keeps exactly the undominated paths, and above every dropped one it keeps another. */
  lemma ParetoPathsExact(paths: seq<Path>, p: Path)
    ensures p in ParetoPaths(paths) <==> Maximal(Dominates, paths, p)
    ensures p in paths && p !in ParetoPaths(paths) ==> exists k :: k in ParetoPaths(paths) && Dominates(k, p)
  {
    UndominatedMembers(paths, paths, p);
    if p in paths && p !in ParetoPaths(paths) {
      DominatesIsStrict();
      var k := MaximalAbove(Dominates, paths, p);
      UndominatedMembers(paths, paths, k);
    }
  }
}
