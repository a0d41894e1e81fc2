/**
 * The prefetch selection of native/provider_gate/provider_pilot.cpp: the experts predicted for several
 * rows are merged to one candidate each, biased toward the previous token's route, ranked and capped.
 * Finite scores are reals; whatever else a score can be is refused.
 */
module PilotSelection {
  import opened Wrappers

  const TOP_K: nat := 16
  const MAX_PREFETCH: nat := 2 * TOP_K
  const MAX_POSITIONS: nat := 64
  const MAX_EXPERTS: nat := 0x1_0000

  datatype Score = NonFinite | Finite(value: real)

  datatype Candidate = Candidate(expert: nat, score: real)

  function Min(a: nat, b: nat): nat { if a < b then a else b }

  // ---------------------------------------------------------------- merging rows

  /** The score of entry k; rows without scores count as zero. */
  function ScoreAt(scores: seq<Score>, k: nat): real {
    if k < |scores| && scores[k].Finite? then scores[k].value else 0.0
  }

  predicate FiniteAt(scores: seq<Score>, k: nat) { k < |scores| ==> scores[k].Finite? }

  /** The largest score an expert has among the first n entries. */
  function TopScore(ids: seq<int>, scores: seq<Score>, n: nat, e: int): real
    requires n <= |ids| && e in ids[..n]
  {
    assert ids[..n] == ids[..n - 1] + [ids[n - 1]];
    if ids[n - 1] != e then TopScore(ids, scores, n - 1, e)
    else if e !in ids[..n - 1] then ScoreAt(scores, n - 1)
    else
      var before := TopScore(ids, scores, n - 1, e);
      if ScoreAt(scores, n - 1) > before then ScoreAt(scores, n - 1) else before
  }

  lemma {:induction false} TopScoreIsMaximum(ids: seq<int>, scores: seq<Score>, n: nat, e: int)
    requires n <= |ids| && e in ids[..n]
    ensures exists k :: 0 <= k < n && ids[k] == e && ScoreAt(scores, k) == TopScore(ids, scores, n, e)
    ensures forall k :: 0 <= k < n && ids[k] == e ==> ScoreAt(scores, k) <= TopScore(ids, scores, n, e)
  {
    assert ids[..n] == ids[..n - 1] + [ids[n - 1]];
    if e in ids[..n - 1] {
      TopScoreIsMaximum(ids, scores, n - 1, e);
      var k :| 0 <= k < n - 1 && ids[k] == e && ScoreAt(scores, k) == TopScore(ids, scores, n - 1, e);
    }
    assert ScoreAt(scores, n - 1) == ScoreAt(scores, n - 1);
  }

  predicate RowsDistinct(ids: seq<int>, width: nat, n: nat)
    requires width > 0 && n <= |ids|
  {
    forall k :: 0 <= k < n ==> FirstInRow(ids, width, k)
  }

  /** IDs are in range and not repeated within a row, and scores are finite. */
  predicate EntriesOk(ids: seq<int>, scores: seq<Score>, width: nat, experts: nat)
    requires width > 0
  {
    (forall k :: 0 <= k < |ids| ==> 0 <= ids[k] < experts && FiniteAt(scores, k)) && RowsDistinct(ids, width, |ids|)
  }

  /** No earlier entry of the same row names this expert. */
  predicate FirstInRow(ids: seq<int>, width: nat, k: nat)
    requires width > 0 && k < |ids|
  {
    forall j :: k / width * width <= j < k ==> ids[j] != ids[k]
  }

  /** One candidate for each expert of the first n entries, under its largest score. */
  ghost predicate Merged(ids: seq<int>, scores: seq<Score>, n: nat, candidates: seq<Candidate>)
    requires n <= |ids|
  {
    && (forall i, j :: 0 <= i < j < |candidates| ==> candidates[i].expert != candidates[j].expert)
    && (forall i :: 0 <= i < |candidates| ==>
      candidates[i].expert in ids[..n] && candidates[i].score == TopScore(ids, scores, n, candidates[i].expert))
    && (forall k :: 0 <= k < n ==> Listed(candidates, ids[k]))
  }

  predicate Listed(candidates: seq<Candidate>, e: int) {
    exists i :: 0 <= i < |candidates| && candidates[i].expert == e
  }

  method FindCandidate(candidates: seq<Candidate>, e: nat) returns (k: nat)
    ensures k <= |candidates| && (k < |candidates| ==> candidates[k].expert == e)
    ensures forall j :: 0 <= j < k ==> candidates[j].expert != e
    ensures k < |candidates| <==> Listed(candidates, e)
  {
    k := 0;
    while k < |candidates| && candidates[k].expert != e
      invariant k <= |candidates| && forall j :: 0 <= j < k ==> candidates[j].expert != e
    {
      k := k + 1;
    }
  }

  lemma NewCandidate(ids: seq<int>, scores: seq<Score>, n: nat, candidates: seq<Candidate>)
    requires n < |ids| && ids[n] >= 0 && Merged(ids, scores, n, candidates) && !Listed(candidates, ids[n])
    ensures Merged(ids, scores, n + 1, candidates + [Candidate(ids[n], ScoreAt(scores, n))])
  {
    var after := candidates + [Candidate(ids[n], ScoreAt(scores, n))];
    assert ids[..n + 1] == ids[..n] + [ids[n]] && ids[..n + 1][..n] == ids[..n];
    forall k | 0 <= k < n + 1 ensures Listed(after, ids[k]) {
      if k < n {
        assert Listed(candidates, ids[k]);
        var i :| 0 <= i < |candidates| && candidates[i].expert == ids[k];
        assert after[i].expert == ids[k];
      } else {
        assert after[|candidates|].expert == ids[k];
      }
    }
  }

  lemma RepeatedCandidate(ids: seq<int>, scores: seq<Score>, n: nat, candidates: seq<Candidate>, i: nat, score: real)
    requires n < |ids| && Merged(ids, scores, n, candidates) && i < |candidates| && candidates[i].expert == ids[n]
    requires score == if ScoreAt(scores, n) > candidates[i].score then ScoreAt(scores, n) else candidates[i].score
    ensures Merged(ids, scores, n + 1, candidates[i := Candidate(candidates[i].expert, score)])
  {
    var after := candidates[i := Candidate(candidates[i].expert, score)];
    assert ids[..n + 1] == ids[..n] + [ids[n]] && ids[..n + 1][..n] == ids[..n];
    forall k | 0 <= k < n + 1 ensures Listed(after, ids[k]) {
      if k < n {
        assert Listed(candidates, ids[k]);
        var j :| 0 <= j < |candidates| && candidates[j].expert == ids[k];
        assert after[j].expert == ids[k];
      } else {
        assert after[i].expert == ids[k];
      }
    }
  }

  /** The first loop: None when an ID is out of range or repeated within its row, or a score is not finite. */
  method MergeRows(ids: seq<int>, scores: seq<Score>, width: nat, experts: nat)
    returns (candidates: Option<seq<Candidate>>)
    requires width > 0
    ensures candidates.Some? <==> EntriesOk(ids, scores, width, experts)
    ensures candidates.Some? ==> Merged(ids, scores, |ids|, candidates.value)
  {
    hide TopScore, Merged, Listed;
    var merged: seq<Candidate> := [];
    NothingMerged(ids, scores);
    for n := 0 to |ids|
      invariant Merged(ids, scores, n, merged)
      invariant forall k :: 0 <= k < n ==> 0 <= ids[k] < experts && FiniteAt(scores, k)
      invariant RowsDistinct(ids, width, n)
    {
      if ids[n] < 0 || ids[n] >= experts || (n < |scores| && scores[n].NonFinite?) {
        assert !(0 <= ids[n] < experts && FiniteAt(scores, n));
        return None;
      }
      var start := n / width * width;
      for j := start to n
        invariant forall i :: start <= i < j ==> ids[i] != ids[n]
      {
        if ids[j] == ids[n] {
          assert !FirstInRow(ids, width, n);
          return None;
        }
      }
      assert FirstInRow(ids, width, n);
      var i := FindCandidate(merged, ids[n]);
      if i == |merged| {
        NewCandidate(ids, scores, n, merged);
        merged := merged + [Candidate(ids[n], ScoreAt(scores, n))];
      } else {
        var score := merged[i].score;
        if scores != [] && ScoreAt(scores, n) > score { score := ScoreAt(scores, n); }
        assert scores == [] ==> ScoreAt(scores, n) <= merged[i].score by { ScorelessIsZero(ids, scores, n, merged, i); }
        RepeatedCandidate(ids, scores, n, merged, i, score);
        merged := merged[i := Candidate(merged[i].expert, score)];
      }
    }
    return Some(merged);
  }

  lemma NothingMerged(ids: seq<int>, scores: seq<Score>)
    ensures Merged(ids, scores, 0, [])
  {
  }

  /** Without scores every candidate has score zero. */
  lemma ScorelessIsZero(ids: seq<int>, scores: seq<Score>, n: nat, candidates: seq<Candidate>, i: nat)
    requires n <= |ids| && Merged(ids, scores, n, candidates) && i < |candidates|
    ensures scores == [] ==> candidates[i].score == 0.0
  {
    TopScoreIsMaximum(ids, scores, n, candidates[i].expert);
  }

  // ---------------------------------------------------------------- ranking

  /** Higher score first, smaller expert first among equals. */
  predicate Beats(score: real, expert: nat, score': real, expert': nat) {
    score > score' || (score == score' && expert < expert')
  }

  predicate Before(ranked: bool, a: Candidate, b: Candidate) {
    if ranked then Beats(a.score, a.expert, b.score, b.expert) else a.expert < b.expert
  }

  predicate Distinct(c: seq<Candidate>) {
    forall i, j :: 0 <= i < j < |c| ==> c[i].expert != c[j].expert
  }

  predicate Sorted(ranked: bool, c: seq<Candidate>) {
    forall i, j :: 0 <= i < j < |c| ==> Before(ranked, c[i], c[j])
  }

  /** Insertion into a sorted list. */
  function Insert(ranked: bool, c: seq<Candidate>, x: Candidate): (r: seq<Candidate>) {
    if c == [] then [x]
    else if Before(ranked, c[|c| - 1], x) then c + [x]
    else Insert(ranked, c[..|c| - 1], x) + [c[|c| - 1]]
  }

  lemma BeforeIsTotal(ranked: bool, a: Candidate, b: Candidate)
    requires a.expert != b.expert
    ensures Before(ranked, a, b) || Before(ranked, b, a)
  {
  }

  lemma BeforeIsTransitive(ranked: bool, a: Candidate, b: Candidate, c: Candidate)
    requires Before(ranked, a, b) && Before(ranked, b, c)
    ensures Before(ranked, a, c)
  {
  }

  lemma {:induction false} InsertSorts(ranked: bool, c: seq<Candidate>, x: Candidate)
    requires Sorted(ranked, c) && forall i :: 0 <= i < |c| ==> c[i].expert != x.expert
    ensures multiset(Insert(ranked, c, x)) == multiset(c) + multiset{x}
    ensures Sorted(ranked, Insert(ranked, c, x))
  {
    hide Before;
    if c != [] {
      var n := |c| - 1;
      assert c == c[..n] + [c[n]];
      if Before(ranked, c[n], x) {
        forall i | 0 <= i < n ensures Before(ranked, c[i], x) {
          BeforeIsTransitive(ranked, c[i], c[n], x);
        }
      } else {
        BeforeIsTotal(ranked, c[n], x);
        InsertSorts(ranked, c[..n], x);
        InsertedStayBefore(ranked, c, x, Insert(ranked, c[..n], x));
      }
    }
  }

  lemma InsertedStayBefore(ranked: bool, c: seq<Candidate>, x: Candidate, head: seq<Candidate>)
    requires c != [] && Sorted(ranked, c) && Before(ranked, x, c[|c| - 1])
    requires multiset(head) == multiset(c[..|c| - 1]) + multiset{x}
    ensures forall i :: 0 <= i < |head| ==> Before(ranked, head[i], c[|c| - 1])
  {
    hide Before;
    forall i | 0 <= i < |head| ensures Before(ranked, head[i], c[|c| - 1]) {
      assert head[i] in multiset(head);
    }
  }

  /** std::sort under the given order, of which only the sorted permutation is used. */
  function Sort(ranked: bool, c: seq<Candidate>): seq<Candidate> {
    if c == [] then [] else Insert(ranked, Sort(ranked, c[..|c| - 1]), c[|c| - 1])
  }

  lemma {:induction false} SortSorts(ranked: bool, c: seq<Candidate>)
    requires Distinct(c)
    ensures multiset(Sort(ranked, c)) == multiset(c) && |Sort(ranked, c)| == |c|
    ensures Sorted(ranked, Sort(ranked, c))
  {
    if c != [] {
      var n := |c| - 1;
      SortSorts(ranked, c[..n]);
      assert c == c[..n] + [c[n]];
      var head := Sort(ranked, c[..n]);
      forall i | 0 <= i < |head| ensures head[i].expert != c[n].expert {
        assert head[i] in multiset(c[..n]);
      }
      InsertSorts(ranked, head, c[n]);
      assert |multiset(Sort(ranked, c))| == |multiset(c)|;
    }
  }

  // ---------------------------------------------------------------- the selection

  /** What an expert is ranked by: its largest score, raised when it was in the previous route. */
  function FinalScore(ids: seq<int>, scores: seq<Score>, prior: seq<nat>, raise: real -> real, e: nat): real
    requires e in ids
  {
    assert ids[..|ids|] == ids;
    if scores != [] && e in prior then raise(TopScore(ids, scores, |ids|, e)) else TopScore(ids, scores, |ids|, e)
  }

  predicate Ascending(r: seq<nat>) { forall i, j :: 0 <= i < j < |r| ==> r[i] < r[j] }

  function Union(ids: seq<int>): set<int> { set e | e in ids }

  /** The chosen experts are the best n of the union, in ascending order. */
  ghost predicate Selects(ids: seq<int>, scores: seq<Score>, prior: seq<nat>, raise: real -> real, n: nat,
                          r: seq<nat>) {
    && Ascending(r) && |r| == n
    && (forall i :: 0 <= i < |r| ==> r[i] in ids)
    && (forall a: nat, b: nat :: a in r && b in ids && b !in r ==>
      a in ids && Preferred(ids, scores, prior, raise, a, b))
  }

  predicate Preferred(ids: seq<int>, scores: seq<Score>, prior: seq<nat>, raise: real -> real, a: nat, b: nat)
    requires a in ids && b in ids
  {
    Beats(FinalScore(ids, scores, prior, raise, a), a, FinalScore(ids, scores, prior, raise, b), b)
  }

  /** Every candidate's score after the bias. */
  function Biased(scores: seq<Score>, prior: seq<nat>, raise: real -> real, c: Candidate): Candidate {
    if scores != [] && c.expert in prior then c.(score := raise(c.score)) else c
  }

  method ApplyPrior(scores: seq<Score>, prior: seq<nat>, raise: real -> real, candidates: seq<Candidate>)
    returns (biased: seq<Candidate>)
    ensures |biased| == |candidates| && forall i :: 0 <= i < |candidates| ==>
      biased[i] == Biased(scores, prior, raise, candidates[i])
  {
    biased := candidates;
    if scores == [] || prior == [] { return; }
    for i := 0 to |candidates|
      invariant |biased| == |candidates|
      invariant forall j :: 0 <= j < i ==> biased[j] == Biased(scores, prior, raise, candidates[j])
      invariant forall j :: i <= j < |candidates| ==> biased[j] == candidates[j]
    {
      if biased[i].expert in prior { biased := biased[i := biased[i].(score := raise(biased[i].score))]; }
    }
  }

  /** The experts of the first n ranked candidates, put in ascending order. */
  function Chosen(candidates: seq<Candidate>, n: nat): (r: seq<nat>)
    requires n <= |Sort(true, candidates)|
  {
    Experts(Sort(false, Sort(true, candidates)[..n]))
  }

  function Experts(c: seq<Candidate>): (r: seq<nat>)
    ensures |r| == |c| && forall i :: 0 <= i < |c| ==> r[i] == c[i].expert
  {
    seq(|c|, i requires 0 <= i < |c| => c[i].expert)
  }

  /** Every chosen candidate ranks before every other one. */
  ghost predicate BeatTheRest(candidates: seq<Candidate>, chosen: seq<nat>) {
    forall a, b :: a in candidates && b in candidates && a.expert in chosen && b.expert !in chosen ==>
      Before(true, a, b)
  }

  lemma SameMembers(c: seq<Candidate>, d: seq<Candidate>)
    requires multiset(c) == multiset(d)
    ensures forall x :: x in c <==> x in d
  {
    forall x ensures x in c <==> x in d {
      assert x in c <==> x in multiset(c);
      assert x in d <==> x in multiset(d);
    }
  }

  /** The experts of a list are those of its candidates. */
  lemma ExpertsOfMembers(c: seq<Candidate>, e: nat)
    ensures e in Experts(c) <==> exists x :: x in c && x.expert == e
  {
    if e in Experts(c) {
      var k :| 0 <= k < |c| && Experts(c)[k] == e;
      assert c[k] in c;
    }
    if x :| x in c && x.expert == e {
      var k :| 0 <= k < |c| && c[k] == x;
      assert Experts(c)[k] == e;
    }
  }

  lemma OutsidePrefix(c: seq<Candidate>, n: nat, j: nat)
    requires n <= |c| && j < |c|
    ensures j < n ==> c[j] in c[..n]
  {
    if j < n { assert c[..n][j] == c[j]; }
  }

  /** The first n of a ranked list beat the rest of it. */
  lemma PrefixBeatsRest(ranked: seq<Candidate>, n: nat, a: Candidate, b: Candidate)
    requires Sorted(true, ranked) && Distinct(ranked) && n <= |ranked| && a in ranked && b in ranked
    requires (exists x :: x in ranked[..n] && x.expert == a.expert)
      && !exists x :: x in ranked[..n] && x.expert == b.expert
    ensures Before(true, a, b)
  {
    hide Before;
    var x :| x in ranked[..n] && x.expert == a.expert;
    var k :| 0 <= k < n && ranked[k] == x;
    var i :| 0 <= i < |ranked| && ranked[i] == a;
    var j :| 0 <= j < |ranked| && ranked[j] == b;
    assert i == k;
    assert j >= n by { OutsidePrefix(ranked, n, j); }
  }

  /** Sorting by rank and cutting keeps candidates that beat all the others. */
  lemma ChosenAreBest(candidates: seq<Candidate>, n: nat)
    requires Distinct(candidates) && n <= |candidates|
    ensures |Sort(true, candidates)| == |candidates|
    ensures |Chosen(candidates, n)| == n && Ascending(Chosen(candidates, n))
    ensures forall e :: e in Chosen(candidates, n) ==> Listed(candidates, e)
    ensures BeatTheRest(candidates, Chosen(candidates, n))
  {
    hide Sort, Sorted, Distinct, Before;
    SortSorts(true, candidates);
    var ranked := Sort(true, candidates);
    var top := ranked[..n];
    RankedDistinct(candidates, ranked);
    PrefixDistinct(ranked, n);
    SortSorts(false, top);
    SameMembers(candidates, ranked);
    SameMembers(top, Sort(false, top));
    var chosen := Chosen(candidates, n);
    AscendingExperts(Sort(false, top));
    forall e: nat ensures e in chosen <==> exists x :: x in top && x.expert == e {
      ExpertsOfMembers(Sort(false, top), e);
    }
    forall e | e in chosen ensures Listed(candidates, e) {
      var x :| x in top && x.expert == e;
      assert x in ranked;
    }
    forall a, b | a in candidates && b in candidates && a.expert in chosen && b.expert !in chosen
      ensures Before(true, a, b)
    {
      PrefixBeatsRest(ranked, n, a, b);
    }
  }

  lemma PrefixDistinct(c: seq<Candidate>, n: nat)
    requires Distinct(c) && n <= |c|
    ensures Distinct(c[..n])
  {
  }

  lemma AscendingExperts(c: seq<Candidate>)
    requires Sorted(false, c)
    ensures Ascending(Experts(c))
  {
  }

  lemma RankedDistinct(candidates: seq<Candidate>, ranked: seq<Candidate>)
    requires Distinct(candidates) && multiset(ranked) == multiset(candidates) && Sorted(true, ranked)
    ensures Distinct(ranked)
  {
    forall i, j | 0 <= i < j < |ranked| ensures ranked[i].expert != ranked[j].expert {
      assert ranked[i] in multiset(candidates) && ranked[j] in multiset(candidates);
      assert Before(true, ranked[i], ranked[j]);
    }
  }

  /** One candidate for every expert of the union, so as many as it has members. */
  lemma MergedCountsUnion(ids: seq<int>, scores: seq<Score>, candidates: seq<Candidate>)
    requires Merged(ids, scores, |ids|, candidates)
    ensures |candidates| == |Union(ids)|
  {
    assert ids[..|ids|] == ids;
    var members := Members(candidates);
    MembersCount(candidates);
    hide TopScore;
    forall e | e in Union(ids) ensures e in members {
      var k :| 0 <= k < |ids| && ids[k] == e;
      assert Listed(candidates, ids[k]);
    }
    assert members == Union(ids);
  }

  function Members(candidates: seq<Candidate>): set<int> { set c | c in candidates :: c.expert }

  lemma {:induction false} MembersCount(candidates: seq<Candidate>)
    requires Distinct(candidates)
    ensures |Members(candidates)| == |candidates|
  {
    if candidates != [] {
      var n := |candidates| - 1;
      MembersCount(candidates[..n]);
      assert candidates == candidates[..n] + [candidates[n]];
      assert Members(candidates) == Members(candidates[..n]) + {candidates[n].expert};
    }
  }

  /** The checks at the head of `canonicalize_pilot_prefetch_rows`. */
  predicate ShapeOk(ids: seq<int>, scores: seq<Score>, positions: nat, experts: nat) {
    && 1 <= positions <= MAX_POSITIONS && TOP_K <= experts <= MAX_EXPERTS
    && TOP_K <= |ids| / positions <= MAX_PREFETCH && |ids| == positions * (|ids| / positions)
    && (scores == [] || |scores| == |ids|)
  }

  lemma BiasedScores(ids: seq<int>, scores: seq<Score>, prior: seq<nat>, raise: real -> real, merged: seq<Candidate>,
                     biased: seq<Candidate>)
    requires Merged(ids, scores, |ids|, merged)
    requires |biased| == |merged| && forall i :: 0 <= i < |merged| ==>
      biased[i] == Biased(scores, prior, raise, merged[i])
    ensures Distinct(biased) && forall c :: c in biased ==>
      c.expert in ids && c.score == FinalScore(ids, scores, prior, raise, c.expert)
    ensures forall e :: e in ids ==> Listed(biased, e)
  {
    assert ids[..|ids|] == ids;
    hide TopScore;
    forall e | e in ids ensures Listed(biased, e) {
      var k :| 0 <= k < |ids| && ids[k] == e;
      assert Listed(merged, ids[k]);
      var i :| 0 <= i < |merged| && merged[i].expert == e;
      assert biased[i].expert == e;
    }
  }

  /** What the selection accepts. */
  ghost predicate Accepts(ids: seq<int>, scores: seq<Score>, positions: nat, experts: nat, cap: nat) {
    && ShapeOk(ids, scores, positions, experts) && EntriesOk(ids, scores, |ids| / positions, experts)
    && (scores == [] ==> |Union(ids)| <= Min(cap, MAX_PREFETCH))
  }

  /** Where entry i of row r is. */
  function Place(width: nat, r: nat, i: nat): nat { r * width + i }

  lemma PlaceFits(width: nat, positions: nat, r: nat, i: nat)
    requires r < positions && i < width
    ensures Place(width, r, i) < positions * width && Place(width, r, i) / width == r
  {
    Scaled(r + 1, positions, width);
    Division(width, r, i);
  }

  lemma Division(width: nat, r: nat, i: nat)
    requires i < width
    ensures (r * width + i) / width == r
  {
    var q := (r * width + i) / width;
    Scaled(q + 1, r, width);
    Scaled(r + 1, q, width);
  }

  lemma Scaled(a: nat, b: nat, width: nat)
    ensures a <= b ==> a * width <= b * width
  {
  }

  predicate DifferentEntries(ids: seq<int>, width: nat, r: nat, i: nat, j: nat) {
    && Place(width, r, i) < |ids| && Place(width, r, j) < |ids|
    && ids[Place(width, r, i)] != ids[Place(width, r, j)]
  }

  /** Row by row: no expert is named twice. */
  ghost predicate RowsName(ids: seq<int>, width: nat, positions: nat) {
    forall r, i, j :: 0 <= r < positions && 0 <= i < j < width ==> DifferentEntries(ids, width, r, i, j)
  }

  lemma RowsNameDistinct(ids: seq<int>, width: nat, positions: nat)
    requires width > 0 && |ids| == positions * width
    ensures RowsDistinct(ids, width, |ids|) <==> RowsName(ids, width, positions)
  {
    hide FirstInRow, DifferentEntries, Place;
    if RowsDistinct(ids, width, |ids|) {
      forall r, i, j | 0 <= r < positions && 0 <= i < j < width ensures DifferentEntries(ids, width, r, i, j) {
        PlaceFits(width, positions, r, j);
        FirstDiffers(ids, width, r, i, j);
      }
    }
    if RowsName(ids, width, positions) {
      forall k | 0 <= k < |ids| ensures FirstInRow(ids, width, k) {
        RowIsFirst(ids, width, positions, k);
      }
    }
  }

  lemma FirstDiffers(ids: seq<int>, width: nat, r: nat, i: nat, j: nat)
    requires width > 0 && i < j && Place(width, r, j) < |ids| && Place(width, r, j) / width == r
    requires FirstInRow(ids, width, Place(width, r, j))
    ensures DifferentEntries(ids, width, r, i, j)
  {
  }

  lemma RowIsFirst(ids: seq<int>, width: nat, positions: nat, k: nat)
    requires width > 0 && |ids| == positions * width && RowsName(ids, width, positions) && k < |ids|
    ensures FirstInRow(ids, width, k)
  {
    var r := k / width;
    Scaled(positions, r, width);
    forall j | r * width <= j < k ensures ids[j] != ids[k] {
      assert DifferentEntries(ids, width, r, j - r * width, k - r * width);
    }
  }

  /** A request in plain numbers: 1 to 64 rows of 16 to 32 distinct experts each, with finite scores if any. */
  ghost predicate WellFormed(ids: seq<int>, scores: seq<Score>, positions: nat, experts: nat, cap: nat, width: nat) {
    && 1 <= positions <= 64 && 16 <= experts <= 65_536 && 16 <= width <= 32 && |ids| == positions * width
    && (forall k :: 0 <= k < |ids| ==> 0 <= ids[k] < experts) && RowsName(ids, width, positions)
    && (scores != [] ==> |scores| == |ids| && forall k :: 0 <= k < |scores| ==> scores[k].Finite?)
    && (scores == [] ==> |set e | e in ids| <= cap && |set e | e in ids| <= 32)
  }

  /** Those requests are accepted, and no others. */
  lemma AcceptsWellFormed(ids: seq<int>, scores: seq<Score>, positions: nat, experts: nat, cap: nat)
    ensures Accepts(ids, scores, positions, experts, cap)
      <==> exists width: nat :: WellFormed(ids, scores, positions, experts, cap, width)
  {
    hide RowsName, RowsDistinct;
    if Accepts(ids, scores, positions, experts, cap) {
      var width := |ids| / positions;
      RowsNameDistinct(ids, width, positions);
      forall k | 0 <= k < |scores| ensures scores[k].Finite? {
        assert FiniteAt(scores, k);
      }
      assert Union(ids) == set e | e in ids;
      assert WellFormed(ids, scores, positions, experts, cap, width);
    }
    if width: nat :| WellFormed(ids, scores, positions, experts, cap, width) {
      WidthIsQuotient(|ids|, positions, width);
      RowsNameDistinct(ids, width, positions);
      assert Union(ids) == set e | e in ids;
    }
  }

  lemma WidthIsQuotient(total: nat, positions: nat, width: nat)
    requires positions > 0 && total == positions * width
    ensures total / positions == width
  {
    Division(positions, width, 0);
  }

  lemma ChosenIsSelected(ids: seq<int>, scores: seq<Score>, prior: seq<nat>, raise: real -> real,
                         biased: seq<Candidate>,
                         n: nat)
    requires Distinct(biased) && n <= |biased| && forall c :: c in biased ==>
      c.expert in ids && c.score == FinalScore(ids, scores, prior, raise, c.expert)
    requires forall e :: e in ids ==> Listed(biased, e)
    ensures |Sort(true, biased)| == |biased| && Selects(ids, scores, prior, raise, n, Chosen(biased, n))
  {
    ChosenAreBest(biased, n);
    var r := Chosen(biased, n);
    hide Chosen, FinalScore, Beats, Sort;
    forall i | 0 <= i < |r| ensures r[i] in ids {
      assert Listed(biased, r[i]);
    }
    forall a: nat, b: nat | a in r && b in ids && b !in r
      ensures a in ids && Preferred(ids, scores, prior, raise, a, b) {
      assert Listed(biased, a) && Listed(biased, b);
      var i :| 0 <= i < |biased| && biased[i].expert == a;
      var j :| 0 <= j < |biased| && biased[j].expert == b;
      assert Before(true, biased[i], biased[j]);
    }
  }

  /** `top` is the largest score given to an expert, and `score` is that after the bias. */
  ghost predicate RanksBy(ids: seq<int>, scores: seq<Score>, prior: seq<nat>, raise: real -> real, e: nat, top: real,
                          score: real) {
    && (exists k :: 0 <= k < |ids| && ids[k] == e && ScoreAt(scores, k) == top)
    && (forall k :: 0 <= k < |ids| && ids[k] == e ==> ScoreAt(scores, k) <= top)
    && score == if scores != [] && e in prior then raise(top) else top
  }

  /** A chosen expert scores higher than one left out, or the same under a smaller ID. */
  ghost predicate Best(ids: seq<int>, scores: seq<Score>, prior: seq<nat>, raise: real -> real, chosen: seq<nat>) {
    forall a: nat, b: nat, top: real, score: real, top': real, score': real ::
      a in chosen && b in ids && b !in chosen
      && RanksBy(ids, scores, prior, raise, a, top, score) && RanksBy(ids, scores, prior, raise, b, top', score') ==>
      score > score' || (score == score' && a < b)
  }

  lemma RankIsFinalScore(ids: seq<int>, scores: seq<Score>, prior: seq<nat>, raise: real -> real, e: nat, top: real,
                         score: real)
    requires e in ids && RanksBy(ids, scores, prior, raise, e, top, score)
    ensures score == FinalScore(ids, scores, prior, raise, e)
  {
    assert ids[..|ids|] == ids;
    TopScoreIsMaximum(ids, scores, |ids|, e);
    hide TopScore;
  }

  /** Every expert of the union ranks by its final score, and by no other. */
  lemma RanksByFinalScore(ids: seq<int>, scores: seq<Score>, prior: seq<nat>, raise: real -> real, e: nat)
    returns (top: real)
    requires e in ids
    ensures RanksBy(ids, scores, prior, raise, e, top, FinalScore(ids, scores, prior, raise, e))
  {
    assert ids[..|ids|] == ids;
    TopScoreIsMaximum(ids, scores, |ids|, e);
    top := TopScore(ids, scores, |ids|, e);
    hide TopScore;
  }

  lemma SelectedAreBest(ids: seq<int>, scores: seq<Score>, prior: seq<nat>, raise: real -> real, n: nat,
                        chosen: seq<nat>)
    requires Selects(ids, scores, prior, raise, n, chosen)
    ensures Best(ids, scores, prior, raise, chosen)
  {
    hide FinalScore, RanksBy;
    forall a: nat, b: nat, top: real, score: real, top': real, score': real |
      a in chosen && b in ids && b !in chosen
      && RanksBy(ids, scores, prior, raise, a, top, score) && RanksBy(ids, scores, prior, raise, b, top', score')
      ensures score > score' || (score == score' && a < b)
    {
      assert Preferred(ids, scores, prior, raise, a, b);
      RankIsFinalScore(ids, scores, prior, raise, a, top, score);
      RankIsFinalScore(ids, scores, prior, raise, b, top', score');
    }
  }

  /**
   * `canonicalize_pilot_prefetch_rows`.  The result is the best min(cap, 32, union size) experts of
   * the union under their final scores, in ascending order; the prior changes which, never how many.
   */
  method Canonicalize(ids: seq<int>, scores: seq<Score>, positions: nat, experts: nat, cap: nat, prior: seq<nat>,
                      raise: real -> real)
    returns (selected: Option<seq<nat>>)
    ensures selected.Some? <==> Accepts(ids, scores, positions, experts, cap)
    ensures selected.Some? <==> exists width: nat :: WellFormed(ids, scores, positions, experts, cap, width)
    ensures selected.Some? ==>
      Selects(ids, scores, prior, raise, Min(Min(cap, MAX_PREFETCH), |Union(ids)|), selected.value)
    ensures selected.Some? ==> Best(ids, scores, prior, raise, selected.value)
  {
    hide Merged, Selects, Best, Chosen, FinalScore, TopScore, EntriesOk, RowsDistinct, Sort, WellFormed;
    AcceptsWellFormed(ids, scores, positions, experts, cap);
    if !ShapeOk(ids, scores, positions, experts) { return None; }
    var merged := MergeRows(ids, scores, |ids| / positions, experts);
    if merged.None? { return None; }
    MergedCountsUnion(ids, scores, merged.value);
    var biased := ApplyPrior(scores, prior, raise, merged.value);
    BiasedScores(ids, scores, prior, raise, merged.value, biased);
    var bounded := Min(Min(cap, MAX_PREFETCH), |biased|);
    if scores == [] && |biased| > bounded { return None; }
    ChosenIsSelected(ids, scores, prior, raise, biased, bounded);
    SelectedAreBest(ids, scores, prior, raise, bounded, Chosen(biased, bounded));
    return Some(Chosen(biased, bounded));
  }

  // ---------------------------------------------------------------- the order of rows does not matter

  /** The same scored entries, in whatever order and rows. */
  ghost predicate SameEntries(ids: seq<int>, scores: seq<Score>, ids': seq<int>, scores': seq<Score>) {
    && (forall k :: 0 <= k < |ids| ==> Occurs(ids', scores', ids[k], ScoreAt(scores, k)))
    && (forall k :: 0 <= k < |ids'| ==> Occurs(ids, scores, ids'[k], ScoreAt(scores', k)))
    && (scores == [] <==> scores' == [])
  }

  predicate Occurs(ids: seq<int>, scores: seq<Score>, e: int, score: real) {
    exists k :: 0 <= k < |ids| && ids[k] == e && ScoreAt(scores, k) == score
  }

  /** An expert's largest score occurs in the other list too, so it is not larger there. */
  lemma NotLarger(ids: seq<int>, scores: seq<Score>, ids': seq<int>, scores': seq<Score>, e: nat)
    requires SameEntries(ids, scores, ids', scores') && e in ids && e in ids'
    requires ids[..|ids|] == ids && ids'[..|ids'|] == ids'
    ensures TopScore(ids, scores, |ids|, e) <= TopScore(ids', scores', |ids'|, e)
  {
    TopScoreIsMaximum(ids, scores, |ids|, e);
    TopScoreIsMaximum(ids', scores', |ids'|, e);
    hide TopScore, ScoreAt;
    var k :| 0 <= k < |ids| && ids[k] == e && ScoreAt(scores, k) == TopScore(ids, scores, |ids|, e);
    assert Occurs(ids', scores', ids[k], ScoreAt(scores, k));
  }

  lemma SameUnion(ids: seq<int>, scores: seq<Score>, ids': seq<int>, scores': seq<Score>, e: nat)
    requires SameEntries(ids, scores, ids', scores') && e in ids
    ensures e in ids'
  {
    hide ScoreAt;
    var k :| 0 <= k < |ids| && ids[k] == e;
    assert Occurs(ids', scores', ids[k], ScoreAt(scores, k));
  }

  /** Then the unions are the same and every expert ranks by the same score. */
  lemma SameScores(ids: seq<int>, scores: seq<Score>, ids': seq<int>, scores': seq<Score>, prior: seq<nat>,
                   raise: real -> real, e: nat)
    requires SameEntries(ids, scores, ids', scores') && e in ids
    ensures e in ids' && FinalScore(ids, scores, prior, raise, e) == FinalScore(ids', scores', prior, raise, e)
  {
    assert ids[..|ids|] == ids && ids'[..|ids'|] == ids';
    SameUnion(ids, scores, ids', scores', e);
    NotLarger(ids, scores, ids', scores', e);
    NotLarger(ids', scores', ids, scores, e);
    hide TopScore, Occurs, ScoreAt;
  }

  /** The best n of a union are determined, */
  lemma SelectionSubset(ids: seq<int>, scores: seq<Score>, prior: seq<nat>, raise: real -> real, n: nat, r: seq<nat>,
                        r': seq<nat>, a: nat)
    requires Selects(ids, scores, prior, raise, n, r) && Selects(ids, scores, prior, raise, n, r') && a in r
    ensures a in r'
  {
    hide FinalScore;
    if a !in r' {
      var b := Outsider(r', r, a);
      PreferenceIsStrict(ids, scores, prior, raise, a, b);
    }
  }

  lemma PreferenceIsStrict(ids: seq<int>, scores: seq<Score>, prior: seq<nat>, raise: real -> real, a: nat, b: nat)
    requires a in ids && b in ids
    ensures !(Preferred(ids, scores, prior, raise, a, b) && Preferred(ids, scores, prior, raise, b, a))
  {
  }

  /** Of two lists of one length, if the second misses something of the first, it has something the first misses. */
  lemma Outsider(r': seq<nat>, r: seq<nat>, a: nat) returns (b: nat)
    requires Ascending(r) && Ascending(r') && |r| == |r'| && a in r && a !in r'
    ensures b in r' && b !in r
  {
    AscendingCount(r);
    AscendingCount(r');
    if Elements(r') <= Elements(r) {
      SubsetCount(Elements(r'), Elements(r) - {a});
    }
    b :| b in Elements(r') && b !in Elements(r);
  }

  function Elements(r: seq<nat>): set<nat> { set x | x in r }

  lemma SubsetCount(a: set<nat>, b: set<nat>)
    requires a <= b
    ensures |a| <= |b|
  {
    assert b == a + (b - a);
  }

  lemma {:induction false} AscendingCount(r: seq<nat>)
    requires Ascending(r)
    ensures |Elements(r)| == |r|
  {
    if r != [] {
      var n := |r| - 1;
      AscendingCount(r[..n]);
      assert r == r[..n] + [r[n]];
      assert r[n] !in Elements(r[..n]);
      assert Elements(r) == Elements(r[..n]) + {r[n]};
    }
  }

  lemma {:induction false} AscendingDetermined(r: seq<nat>, r': seq<nat>)
    requires Ascending(r) && Ascending(r') && |r| == |r'| && forall x :: x in r <==> x in r'
    ensures r == r'
  {
    if r != [] {
      var n := |r| - 1;
      assert r[n] in r' && r'[n] in r;
      assert r == r[..n] + [r[n]] && r' == r'[..n] + [r'[n]];
      assert r[n] == r'[n];
      forall x ensures x in r[..n] <==> x in r'[..n] {
        assert x in r[..n] <==> x in r && x != r[n];
        assert x in r'[..n] <==> x in r' && x != r'[n];
      }
      AscendingDetermined(r[..n], r'[..n]);
    }
  }

  /** so the selection is the same for the same scored entries, whatever their rows and order within them. */
  lemma OrderDoesNotMatter(ids: seq<int>, scores: seq<Score>, ids': seq<int>, scores': seq<Score>, prior: seq<nat>,
                           raise: real -> real,
                           n: nat, r: seq<nat>, r': seq<nat>)
    requires SameEntries(ids, scores, ids', scores')
    requires Selects(ids, scores, prior, raise, n, r) && Selects(ids', scores', prior, raise, n, r')
    ensures r == r'
  {
    hide FinalScore;
    SameSelects(ids, scores, ids', scores', prior, raise, n, r');
    forall x ensures x in r <==> x in r' {
      if x in r { SelectionSubset(ids, scores, prior, raise, n, r, r', x); }
      if x in r' { SelectionSubset(ids, scores, prior, raise, n, r', r, x); }
    }
    AscendingDetermined(r, r');
  }

  lemma SameSelects(ids: seq<int>, scores: seq<Score>, ids': seq<int>, scores': seq<Score>, prior: seq<nat>,
                    raise: real -> real, n: nat, r: seq<nat>)
    requires SameEntries(ids, scores, ids', scores') && Selects(ids', scores', prior, raise, n, r)
    ensures Selects(ids, scores, prior, raise, n, r)
  {
    hide FinalScore;
    forall e | e in ids' ensures e in ids {
      var k :| 0 <= k < |ids'| && ids'[k] == e;
      assert Occurs(ids, scores, ids'[k], ScoreAt(scores', k));
    }
    forall a: nat, b: nat | a in r && b in ids && b !in r
      ensures a in ids && Preferred(ids, scores, prior, raise, a, b) {
      var i :| 0 <= i < |r| && r[i] == a;
      SameScores(ids, scores, ids', scores', prior, raise, a);
      SameScores(ids, scores, ids', scores', prior, raise, b);
      assert Preferred(ids', scores', prior, raise, a, b);
    }
  }
}
