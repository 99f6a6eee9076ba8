/**
 * Scoring of one DROP prediction against gold answers: bags of tokens, the
 * bag-level F1, the guard that numbers must match, the one-to-one alignment
 * of bags (`_align_bags`), `get_metrics` and the per-document maximum of
 * `process_results`.
 */
module DropScoring {
  import opened Wrappers
  import opened DropText
  import opened Numbers

  type Bag = set<string>

  /** An answer as `_answer_to_bags` receives it: a bare string, or a list or tuple of spans. */
  datatype Answer = Text(text: string) | Spans(spans: seq<string>)

  /**
   * What the scoring code depends on: the Python runtime (`o`), the
   * normaliser that `_answer_to_bags` applies to each span, and the
   * assignment solver. The properties below hold for any normaliser; the
   * source's own evaluator is `SourceEvaluator`, whose normaliser is
   * `_normalize`.
   */
  datatype Evaluator = Evaluator(o: TextOracle, normalize: string -> string, solver: Solver)

  /** The evaluator of the source: `_normalize` as modelled by `DropText.Normalize`. */
  function SourceEvaluator(o: TextOracle, solver: Solver): (e: Evaluator)
    ensures e.o == o && e.solver == solver
    ensures forall s {:trigger Normalize(o, s)} :: e.normalize(s) == Normalize(o, s)
  {
    Evaluator(o, s => Normalize(o, s), solver)
  }

  /** `max` of two lengths, kept a `nat` so that it can size the `max_scores` array. */
  function MaxLen(x: nat, y: nat): nat {
    if x >= y then x else y
  }

  /** `min` of two lengths: the number of pairs the assignment matches. */
  function MinLen(x: nat, y: nat): nat {
    if x <= y then x else y
  }

  /** The distinct elements of a sequence (Python's `set(...)` of a list). */
  function Elems(s: seq<string>): set<string> {
    set x | x in s
  }

  // ---------------------------------------------------------------------
  // `_answer_to_bags`
  // ---------------------------------------------------------------------

  /** A bare string is taken as a one-element list of spans. */
  function RawSpans(answer: Answer): (spans: seq<string>)
    ensures answer.Text? ==> spans == [answer.text]
    ensures answer.Spans? ==> spans == answer.spans
  {
    match answer
    case Text(s) => [s]
    case Spans(ss) => ss
  }

  /** `set(s.split())`: the bag of words of a normalised span. */
  function TokenBag(s: string): (b: Bag)
    ensures forall w :: w in b ==> IsField(w)
  {
    set w | w in Words(s)
  }

  /** The normalised spans, one per raw span, in order. */
  function NormalizeAll(normalize: string -> string, raw: seq<string>): (ns: seq<string>)
    ensures |ns| == |raw|
  {
    if |raw| == 0 then [] else NormalizeAll(normalize, raw[..|raw| - 1]) + [normalize(raw[|raw| - 1])]
  }

  /** The bag of words of each normalised span, in order. */
  function BagsOf(ns: seq<string>): (bags: seq<Bag>)
    ensures |bags| == |ns|
  {
    if |ns| == 0 then [] else BagsOf(ns[..|ns| - 1]) + [TokenBag(ns[|ns| - 1])]
  }

  lemma NormalizeAllSnoc(normalize: string -> string, raw: seq<string>, x: string)
    ensures NormalizeAll(normalize, raw + [x]) == NormalizeAll(normalize, raw) + [normalize(x)]
  {
    assert (raw + [x])[..|raw|] == raw;
  }

  lemma BagsOfSnoc(ns: seq<string>, x: string)
    ensures BagsOf(ns + [x]) == BagsOf(ns) + [TokenBag(x)]
  {
    assert (ns + [x])[..|ns|] == ns;
  }

  lemma {:induction false} NormalizeAllAt(normalize: string -> string, raw: seq<string>, k: nat)
    requires k < |raw|
    ensures NormalizeAll(normalize, raw)[k] == normalize(raw[k])
  {
    if k < |raw| - 1 {
      NormalizeAllAt(normalize, raw[..|raw| - 1], k);
    }
  }

  lemma {:induction false} BagsOfAt(ns: seq<string>, k: nat)
    requires k < |ns|
    ensures BagsOf(ns)[k] == TokenBag(ns[k])
  {
    if k < |ns| - 1 {
      BagsOfAt(ns[..|ns| - 1], k);
    }
  }

  function NormalizedSpans(e: Evaluator, answer: Answer): (ns: seq<string>)
    ensures |ns| == |RawSpans(answer)|
  {
    NormalizeAll(e.normalize, RawSpans(answer))
  }

  function TokenBags(e: Evaluator, answer: Answer): (bags: seq<Bag>)
    ensures |bags| == |RawSpans(answer)|
  {
    BagsOf(NormalizedSpans(e, answer))
  }

  /** Span `k` of an answer is the normalised raw span `k`, and its bag is that span's words. */
  lemma AnswerBagsAt(e: Evaluator, answer: Answer, k: nat)
    requires k < |RawSpans(answer)|
    ensures NormalizedSpans(e, answer)[k] == e.normalize(RawSpans(answer)[k])
    ensures TokenBags(e, answer)[k] == set w | w in Words(NormalizedSpans(e, answer)[k])
  {
    NormalizeAllAt(e.normalize, RawSpans(answer), k);
    BagsOfAt(NormalizedSpans(e, answer), k);
  }

  /** For the evaluator of the source, span `k` is `_normalize` of raw span `k`. */
  lemma SourceSpansAt(o: TextOracle, solver: Solver, answer: Answer, k: nat)
    requires k < |RawSpans(answer)|
    ensures NormalizedSpans(SourceEvaluator(o, solver), answer)[k] == Normalize(o, RawSpans(answer)[k])
  {
    AnswerBagsAt(SourceEvaluator(o, solver), answer, k);
  }

  /**
   * `_answer_to_bags`: one normalised span and one bag per raw span, built
   * by appending to two lists.
   */
  method AnswerToBags(e: Evaluator, answer: Answer) returns (normalizedSpans: seq<string>, tokenBags: seq<Bag>)
    ensures normalizedSpans == NormalizedSpans(e, answer)
    ensures tokenBags == TokenBags(e, answer)
  {
    var rawSpans := RawSpans(answer);
    normalizedSpans, tokenBags := [], [];
    for i := 0 to |rawSpans|
      invariant normalizedSpans == NormalizeAll(e.normalize, rawSpans[..i])
      invariant tokenBags == BagsOf(normalizedSpans)
    {
      assert rawSpans[..i + 1] == rawSpans[..i] + [rawSpans[i]];
      NormalizeAllSnoc(e.normalize, rawSpans[..i], rawSpans[i]);
      var normalizedSpan := e.normalize(rawSpans[i]);
      BagsOfSnoc(normalizedSpans, normalizedSpan);
      normalizedSpans := normalizedSpans + [normalizedSpan];
      tokenBags := tokenBags + [TokenBag(normalizedSpan)];
    }
    assert rawSpans[..|rawSpans|] == rawSpans;
  }

  // ---------------------------------------------------------------------
  // `_compute_f1`
  // ---------------------------------------------------------------------

  lemma SubsetCard(a: Bag, b: Bag)
    requires a <= b
    ensures |a| <= |b|
    ensures |a| == |b| ==> a == b
  {
    assert b == a + (b - a);
    if |a| == |b| {
      assert |b - a| == 0;
    }
  }

  /** The empty predicted bag counts as precision 1. */
  function Precision(predicted: Bag, gold: Bag): (p: real)
    ensures 0.0 <= p <= 1.0
  {
    SubsetCard(gold * predicted, predicted);
    if |predicted| == 0 then 1.0 else (|gold * predicted| as real) / (|predicted| as real)
  }

  /** The empty gold bag counts as recall 1. */
  function Recall(predicted: Bag, gold: Bag): (r: real)
    ensures 0.0 <= r <= 1.0
  {
    SubsetCard(gold * predicted, gold);
    if |gold| == 0 then 1.0 else (|gold * predicted| as real) / (|gold| as real)
  }

  /** The harmonic mean of two ratios in [0, 1] is in [0, 1]. */
  lemma HarmonicBounds(p: real, r: real)
    requires 0.0 <= p <= 1.0 && 0.0 <= r <= 1.0 && p + r > 0.0
    ensures 0.0 <= (2.0 * p * r) / (p + r) <= 1.0
  {
    MulNonNegative(p, 1.0 - r);
    MulNonNegative(r, 1.0 - p);
    MulNonNegative(p, r);
    assert p * (1.0 - r) == p - p * r;
    assert r * (1.0 - p) == r - p * r;
    DivFacts(2.0 * p * r, p + r);
  }

  /** `_compute_f1`: the harmonic mean of precision and recall, 0 when both are 0. */
  function ComputeF1(predicted: Bag, gold: Bag): (f: real)
    ensures 0.0 <= f <= 1.0
  {
    var p, r := Precision(predicted, gold), Recall(predicted, gold);
    if p == 0.0 && r == 0.0 then 0.0
    else
      HarmonicBounds(p, r);
      (2.0 * p * r) / (p + r)
  }

  /** F1 does not depend on which bag is called the prediction. */
  lemma ComputeF1Symmetric(a: Bag, b: Bag)
    ensures ComputeF1(a, b) == ComputeF1(b, a)
  {
    assert a * b == b * a;
    assert Precision(a, b) == Recall(b, a) && Recall(a, b) == Precision(b, a);
  }

  lemma ComputeF1BothEmpty()
    ensures ComputeF1({}, {}) == 1.0
  {
  }

  /** Precision 1 means every predicted token is a gold token; recall 1 the converse. */
  lemma FullRatios(predicted: Bag, gold: Bag)
    ensures Precision(predicted, gold) == 1.0 ==> predicted <= gold
    ensures Recall(predicted, gold) == 1.0 ==> gold <= predicted
  {
    var common := gold * predicted;
    SubsetCard(common, predicted);
    SubsetCard(common, gold);
    if |predicted| > 0 {
      DivFacts(|common| as real, |predicted| as real);
    }
    if |gold| > 0 {
      DivFacts(|common| as real, |gold| as real);
    }
  }

  /** The harmonic mean of two ratios in [0, 1] is 1 exactly when both are 1. */
  lemma HarmonicIsOne(p: real, r: real)
    requires 0.0 <= p <= 1.0 && 0.0 <= r <= 1.0 && p + r > 0.0
    ensures (2.0 * p * r) / (p + r) == 1.0 <==> p == 1.0 && r == 1.0
  {
    if (2.0 * p * r) / (p + r) == 1.0 {
      DivFacts(2.0 * p * r, p + r);
      assert 2.0 * p * r == p + r;
      MulNonNegative(p, 1.0 - r);
      MulNonNegative(r, 1.0 - p);
      assert p * (1.0 - r) + r * (1.0 - p) == 0.0;
      MulZero(p, 1.0 - r);
      MulZero(r, 1.0 - p);
    }
  }

  /** The harmonic mean of two non-negative ratios is 0 exactly when one of them is 0. */
  lemma HarmonicIsZero(p: real, r: real)
    requires 0.0 <= p && 0.0 <= r && p + r > 0.0
    ensures (2.0 * p * r) / (p + r) == 0.0 <==> p == 0.0 || r == 0.0
  {
    DivFacts(2.0 * p * r, p + r);
    if 2.0 * p * r == 0.0 {
      MulZero(2.0 * p, r);
    }
    if p > 0.0 && r > 0.0 {
      assert 2.0 * p * r > 0.0;
    }
  }

  /** Precision is 0 exactly when the prediction is non-empty and shares nothing with the gold bag; likewise recall. */
  lemma ZeroRatios(predicted: Bag, gold: Bag)
    ensures Precision(predicted, gold) == 0.0 <==> predicted != {} && gold * predicted == {}
    ensures Recall(predicted, gold) == 0.0 <==> gold != {} && gold * predicted == {}
  {
    var common := gold * predicted;
    if |predicted| > 0 {
      DivFacts(|common| as real, |predicted| as real);
    }
    if |gold| > 0 {
      DivFacts(|common| as real, |gold| as real);
    }
  }

  /** F1 is 1 exactly when the two bags are equal. */
  lemma ComputeF1IsOne(predicted: Bag, gold: Bag)
    ensures ComputeF1(predicted, gold) == 1.0 <==> predicted == gold
  {
    var p, r := Precision(predicted, gold), Recall(predicted, gold);
    if predicted == gold {
      assert gold * predicted == gold;
    }
    if ComputeF1(predicted, gold) == 1.0 {
      HarmonicIsOne(p, r);
      FullRatios(predicted, gold);
    }
  }

  /** F1 is 0 exactly when the bags share no token and are not both empty. */
  lemma ComputeF1IsZero(predicted: Bag, gold: Bag)
    ensures ComputeF1(predicted, gold) == 0.0 <==> (gold * predicted == {} && (predicted != {} || gold != {}))
  {
    var p, r := Precision(predicted, gold), Recall(predicted, gold);
    ZeroRatios(predicted, gold);
    if !(p == 0.0 && r == 0.0) {
      HarmonicIsZero(p, r);
    }
  }

  /** Two non-empty bags with no token in common score 0. */
  lemma ComputeF1Disjoint(predicted: Bag, gold: Bag)
    requires predicted != {} && gold != {} && predicted * gold == {}
    ensures ComputeF1(predicted, gold) == 0.0
  {
    assert gold * predicted == predicted * gold;
    ComputeF1IsZero(predicted, gold);
  }

  // ---------------------------------------------------------------------
  // `_match_numbers_if_present`
  // ---------------------------------------------------------------------

  /** The gold bag holds no number, or shares a number token with the prediction. */
  predicate NumbersMatch(o: TextOracle, goldBag: Bag, predictedBag: Bag) {
    (forall w :: w in goldBag ==> !o.isNumber(w)) ||
    (exists w :: w in goldBag && w in predictedBag && o.isNumber(w))
  }

  /** The number tokens of a bag, collected by a loop over the set. */
  method NumberTokens(o: TextOracle, bag: Bag) returns (numbers: set<string>)
    ensures forall w :: w in numbers <==> w in bag && o.isNumber(w)
  {
    numbers := {};
    var rest := bag;
    while rest != {}
      invariant rest <= bag
      invariant forall w :: w in numbers <==> w in bag - rest && o.isNumber(w)
      decreases rest
    {
      var word :| word in rest;
      if o.isNumber(word) {
        numbers := numbers + {word};
      }
      rest := rest - {word};
    }
  }

  /** `_match_numbers_if_present`. */
  method MatchNumbersIfPresent(o: TextOracle, goldBag: Bag, predictedBag: Bag) returns (r: bool)
    ensures r <==> (forall w :: w in goldBag ==> !o.isNumber(w)) ||
                   (exists w :: w in goldBag && w in predictedBag && o.isNumber(w))
    ensures r == NumbersMatch(o, goldBag, predictedBag)
  {
    var goldNumbers := NumberTokens(o, goldBag);
    var predictedNumbers := NumberTokens(o, predictedBag);
    r := goldNumbers == {} || goldNumbers * predictedNumbers != {};
    if goldNumbers * predictedNumbers != {} {
      var w :| w in goldNumbers * predictedNumbers;
      assert w in goldBag && w in predictedBag && o.isNumber(w);
    }
    if goldNumbers != {} {
      var w :| w in goldNumbers;
      assert w in goldBag && o.isNumber(w);
    }
    if exists w :: w in goldBag && w in predictedBag && o.isNumber(w) {
      var w :| w in goldBag && w in predictedBag && o.isNumber(w);
      assert w in goldNumbers * predictedNumbers;
    }
  }

  // ---------------------------------------------------------------------
  // `_align_bags`
  // ---------------------------------------------------------------------

  /** The entry `scores[gold_index, pred_index]`: the F1 when the numbers match, else 0. */
  function PairScore(o: TextOracle, predicted: Bag, gold: Bag): (s: real)
    ensures 0.0 <= s <= 1.0
  {
    if NumbersMatch(o, gold, predicted) then ComputeF1(predicted, gold) else 0.0
  }

  /** The score matrix: one row per gold bag, one column per predicted bag. */
  function ScoreMatrix(o: TextOracle, predicted: seq<Bag>, gold: seq<Bag>): (m: seq<seq<real>>)
    ensures |m| == |gold|
    ensures forall i :: 0 <= i < |m| ==> |m[i]| == |predicted|
  {
    seq(|gold|, i requires 0 <= i < |gold| =>
      seq(|predicted|, j requires 0 <= j < |predicted| => PairScore(o, predicted[j], gold[i])))
  }

  /**
   * What `linear_sum_assignment` returns for a `rows` by `cols` matrix:
   * `min(rows, cols)` pairs inside the matrix, rows in increasing order and no
   * column used twice.
   */
  predicate IsAssignment(pairs: seq<(nat, nat)>, rows: nat, cols: nat) {
    && |pairs| == MinLen(rows, cols)
    && (forall k :: 0 <= k < |pairs| ==> pairs[k].0 < rows && pairs[k].1 < cols)
    && (forall k, l :: 0 <= k < l < |pairs| ==> pairs[k].0 < pairs[l].0 && pairs[k].1 != pairs[l].1)
  }

  /** One assignment of that shape: the diagonal. */
  function DiagonalAssignment(m: seq<seq<real>>, cols: nat): (pairs: seq<(nat, nat)>)
    ensures IsAssignment(pairs, |m|, cols)
  {
    seq(MinLen(|m|, cols), k requires 0 <= k => (k, k))
  }

  /**
   * The assignment solver, given the score matrix and its number of columns.
   * Its optimality is not modelled, only the shape of what it returns.
   */
  type Solver = f: (seq<seq<real>>, nat) -> seq<(nat, nat)> | forall m, cols :: IsAssignment(f(m, cols), |m|, cols)
    witness DiagonalAssignment

  /** The fold of `max_scores[row] = max(max_scores[row], scores[row, column])` over the pairs. */
  function Accumulate(m: seq<seq<real>>, pairs: seq<(nat, nat)>, len: nat): (r: seq<real>)
    requires forall k :: 0 <= k < |pairs| ==> pairs[k].0 < |m| && pairs[k].0 < len && pairs[k].1 < |m[pairs[k].0]|
    ensures |r| == len
  {
    if |pairs| == 0 then seq(len, _ => 0.0)
    else
      var prev := Accumulate(m, pairs[..|pairs| - 1], len);
      var (row, column) := pairs[|pairs| - 1];
      prev[row := Max(prev[row], m[row][column])]
  }

  /**
   * With no row used twice, a matched row holds its matched score (floored at
   * 0) and every other row holds 0.
   */
  lemma {:induction false} AccumulateAt(m: seq<seq<real>>, pairs: seq<(nat, nat)>, len: nat)
    requires forall k :: 0 <= k < |pairs| ==> pairs[k].0 < |m| && pairs[k].0 < len && pairs[k].1 < |m[pairs[k].0]|
    requires forall k, l :: 0 <= k < l < |pairs| ==> pairs[k].0 != pairs[l].0
    ensures forall k :: 0 <= k < |pairs| ==>
      Accumulate(m, pairs, len)[pairs[k].0] == Max(0.0, m[pairs[k].0][pairs[k].1])
    ensures forall row :: 0 <= row < len && (forall k :: 0 <= k < |pairs| ==> pairs[k].0 != row) ==>
      Accumulate(m, pairs, len)[row] == 0.0
  {
    if |pairs| > 0 {
      var front := pairs[..|pairs| - 1];
      AccumulateAt(m, front, len);
      var last := pairs[|pairs| - 1];
      var prev := Accumulate(m, front, len);
      assert prev[last.0] == 0.0 by {
        assert forall k :: 0 <= k < |front| ==> front[k].0 != last.0 by {
          forall k | 0 <= k < |front| ensures front[k].0 != last.0 {
            assert front[k] == pairs[k];
          }
        }
      }
      forall k | 0 <= k < |pairs| - 1
        ensures Accumulate(m, pairs, len)[pairs[k].0] == Max(0.0, m[pairs[k].0][pairs[k].1])
      {
        assert front[k] == pairs[k];
      }
      forall row | 0 <= row < len && (forall k :: 0 <= k < |pairs| ==> pairs[k].0 != row)
        ensures Accumulate(m, pairs, len)[row] == 0.0
      {
        assert forall k :: 0 <= k < |front| ==> front[k].0 != row by {
          forall k | 0 <= k < |front| ensures front[k].0 != row {
            assert front[k] == pairs[k];
          }
        }
      }
    }
  }

  /** What `_align_bags` returns for the given bags. */
  function AlignedScores(o: TextOracle, solver: Solver, predicted: seq<Bag>, gold: seq<Bag>): (scores: seq<real>)
    ensures |scores| == MaxLen(|gold|, |predicted|)
  {
    var m := ScoreMatrix(o, predicted, gold);
    Accumulate(m, solver(m, |predicted|), MaxLen(|gold|, |predicted|))
  }

  /** Every aligned score is in [0, 1]. */
  lemma AlignedScoresBounds(o: TextOracle, solver: Solver, predicted: seq<Bag>, gold: seq<Bag>)
    ensures var scores := AlignedScores(o, solver, predicted, gold);
      forall k :: 0 <= k < |scores| ==> 0.0 <= scores[k] <= 1.0
  {
    var m := ScoreMatrix(o, predicted, gold);
    var pairs := solver(m, |predicted|);
    var len := MaxLen(|gold|, |predicted|);
    var r := Accumulate(m, pairs, len);
    AccumulateAt(m, pairs, len);
    forall k | 0 <= k < len ensures 0.0 <= r[k] <= 1.0 {
      if l :| 0 <= l < |pairs| && pairs[l].0 == k {
        assert r[k] == Max(0.0, m[pairs[l].0][pairs[l].1]);
      }
    }
  }

  /**
   * Each gold bag that the assignment matches scores exactly its matched cell
   * of the score matrix; every other position scores 0.
   */
  lemma AlignedScoresAt(o: TextOracle, solver: Solver, predicted: seq<Bag>, gold: seq<Bag>)
    ensures var m := ScoreMatrix(o, predicted, gold);
      var pairs := solver(m, |predicted|);
      var scores := AlignedScores(o, solver, predicted, gold);
      && (forall k :: 0 <= k < |pairs| ==> scores[pairs[k].0] == m[pairs[k].0][pairs[k].1])
      && (forall row :: 0 <= row < |scores| && (forall k :: 0 <= k < |pairs| ==> pairs[k].0 != row) ==> scores[row] == 0.0)
  {
    var m := ScoreMatrix(o, predicted, gold);
    var pairs := solver(m, |predicted|);
    AccumulateAt(m, pairs, MaxLen(|gold|, |predicted|));
  }

  /** The first loop nest of `_align_bags`: a zero matrix, with each cell set to the F1 where the numbers match. */
  method FillScores(o: TextOracle, predicted: seq<Bag>, gold: seq<Bag>) returns (scores: array2<real>)
    ensures fresh(scores)
    ensures scores.Length0 == |gold| && scores.Length1 == |predicted|
    ensures forall i, j :: 0 <= i < |gold| && 0 <= j < |predicted| ==> scores[i, j] == PairScore(o, predicted[j], gold[i])
  {
    scores := new real[|gold|, |predicted|]((_, _) => 0.0);
    for g := 0 to |gold|
      invariant forall i, j :: 0 <= i < |gold| && 0 <= j < |predicted| ==>
        scores[i, j] == if i < g then PairScore(o, predicted[j], gold[i]) else 0.0
    {
      for p := 0 to |predicted|
        invariant forall i, j :: 0 <= i < |gold| && 0 <= j < |predicted| ==>
          scores[i, j] == if i < g || (i == g && j < p) then PairScore(o, predicted[j], gold[i]) else 0.0
      {
        var numbersMatch := MatchNumbersIfPresent(o, gold[g], predicted[p]);
        if numbersMatch {
          scores[g, p] := ComputeF1(predicted[p], gold[g]);
        }
      }
    }
  }

  /** The contents of a two-dimensional array, row by row. */
  function Rows(a: array2<real>): (m: seq<seq<real>>)
    reads a
    ensures |m| == a.Length0
    ensures forall i :: 0 <= i < |m| ==> |m[i]| == a.Length1
    ensures forall i, j :: 0 <= i < a.Length0 && 0 <= j < a.Length1 ==> m[i][j] == a[i, j]
  {
    seq(a.Length0, i requires 0 <= i < a.Length0 reads a =>
      seq(a.Length1, j requires 0 <= j < a.Length1 reads a => a[i, j]))
  }

  /** Two matrices with the same shape and the same cells are equal. */
  lemma MatrixExt(m: seq<seq<real>>, n: seq<seq<real>>, cols: nat)
    requires |m| == |n|
    requires forall i :: 0 <= i < |m| ==> |m[i]| == cols && |n[i]| == cols
    requires forall i, j :: 0 <= i < |m| && 0 <= j < cols ==> m[i][j] == n[i][j]
    ensures m == n
  {
    forall i | 0 <= i < |m| ensures m[i] == n[i] {
      assert |m[i]| == |n[i]|;
    }
  }

  /**
   * `_align_bags`: fills the score matrix, asks the solver for an assignment
   * and keeps, per row, the best assigned score.
   */
  method AlignBags(o: TextOracle, solver: Solver, predicted: seq<Bag>, gold: seq<Bag>) returns (maxScores: seq<real>)
    ensures maxScores == AlignedScores(o, solver, predicted, gold)
  {
    var scores := FillScores(o, predicted, gold);
    var matrix := Rows(scores);
    MatrixExt(matrix, ScoreMatrix(o, predicted, gold), |predicted|);
    var pairs := solver(matrix, |predicted|);
    var best := new real[MaxLen(|gold|, |predicted|)](_ => 0.0);
    assert best[..] == Accumulate(matrix, pairs[..0], best.Length);
    for k := 0 to |pairs|
      invariant matrix == Rows(scores)
      invariant best[..] == Accumulate(matrix, pairs[..k], best.Length)
    {
      var (row, column) := pairs[k];
      assert pairs[..k + 1][..k] == pairs[..k];
      assert scores[row, column] == matrix[row][column];
      ghost var prev := best[..];
      best[row] := Max(best[row], scores[row, column]);
      assert best[..] == prev[row := Max(prev[row], matrix[row][column])];
    }
    assert pairs[..|pairs|] == pairs;
    maxScores := best[..];
  }

  // ---------------------------------------------------------------------
  // `get_metrics`
  // ---------------------------------------------------------------------

  function Sum(xs: seq<real>): real {
    if |xs| == 0 then 0.0 else Sum(xs[..|xs| - 1]) + xs[|xs| - 1]
  }

  lemma {:induction false} SumBounds(xs: seq<real>)
    requires forall k :: 0 <= k < |xs| ==> 0.0 <= xs[k] <= 1.0
    ensures 0.0 <= Sum(xs) <= |xs| as real
  {
    if |xs| > 0 {
      SumBounds(xs[..|xs| - 1]);
    }
  }

  /** `np.mean` of a non-empty array, over exact reals. */
  function Mean(xs: seq<real>): real
    requires |xs| > 0
  {
    Sum(xs) / (|xs| as real)
  }

  /** The mean of scores in [0, 1] is in [0, 1]. */
  lemma MeanBounds(xs: seq<real>)
    requires |xs| > 0
    requires forall k :: 0 <= k < |xs| ==> 0.0 <= xs[k] <= 1.0
    ensures 0.0 <= Mean(xs) <= 1.0
  {
    SumBounds(xs);
  }

  /** The exact-match test of `get_metrics` on normalised spans: equal sets and equal lengths. */
  function ExactMatch(predictedSpans: seq<string>, goldSpans: seq<string>): (em: real)
    ensures em == 0.0 || em == 1.0
    ensures em == 1.0 <==> Elems(predictedSpans) == Elems(goldSpans) && |predictedSpans| == |goldSpans|
  {
    if Elems(predictedSpans) == Elems(goldSpans) && |predictedSpans| == |goldSpans| then 1.0 else 0.0
  }

  /** The exact match of `get_metrics` for two answers. */
  function ExactMatchOf(e: Evaluator, predicted: Answer, gold: Answer): real {
    ExactMatch(NormalizedSpans(e, predicted), NormalizedSpans(e, gold))
  }

  /** An answer matches itself exactly. */
  lemma ExactMatchReflexive(e: Evaluator, answer: Answer)
    ensures ExactMatchOf(e, answer, answer) == 1.0
  {
  }

  lemma ExactMatchSymmetric(e: Evaluator, a: Answer, b: Answer)
    ensures ExactMatchOf(e, a, b) == ExactMatchOf(e, b, a)
  {
  }

  /**
   * The exact-match test compares sets and lengths, not multisets: spans that
   * normalise to ["x", "x", "y"] and ["x", "y", "y"] match exactly.
   */
  lemma ExactMatchIgnoresMultiplicity()
    ensures ExactMatch(["x", "x", "y"], ["x", "y", "y"]) == 1.0
  {
    assert Elems(["x", "x", "y"]) == {"x", "y"};
    assert Elems(["x", "y", "y"]) == {"x", "y"};
  }

  /** The F1 of `get_metrics` before rounding; `None` is the NaN of `np.mean([])`. */
  function F1Of(e: Evaluator, predicted: Answer, gold: Answer): (f1: Option<real>)
    ensures f1.Some? <==> |RawSpans(predicted)| > 0 || |RawSpans(gold)| > 0
    ensures f1.Some? ==> 0.0 <= f1.value <= 1.0
  {
    var scores := AlignedScores(e.o, e.solver, TokenBags(e, predicted), TokenBags(e, gold));
    if |scores| == 0 then None
    else
      AlignedScoresBounds(e.o, e.solver, TokenBags(e, predicted), TokenBags(e, gold));
      MeanBounds(scores);
      Some(Mean(scores))
  }

  /** `get_metrics`. */
  method GetMetrics(e: Evaluator, predicted: Answer, gold: Answer)
    returns (exactMatch: real, f1: Option<real>)
    ensures exactMatch == ExactMatchOf(e, predicted, gold)
    ensures f1 == F1Of(e, predicted, gold)
  {
    var predictedSpans, predictedBags := AnswerToBags(e, predicted);
    var goldSpans, goldBags := AnswerToBags(e, gold);
    if Elems(predictedSpans) == Elems(goldSpans) && |predictedSpans| == |goldSpans| {
      exactMatch := 1.0;
    } else {
      exactMatch := 0.0;
    }
    assert exactMatch == ExactMatchOf(e, predicted, gold) by {
      assert exactMatch == ExactMatch(predictedSpans, goldSpans);
    }
    var f1PerBag := AlignBags(e.o, e.solver, predictedBags, goldBags);
    if |f1PerBag| == 0 {
      f1 := None;
    } else {
      f1 := Some(Mean(f1PerBag));
    }
    assert f1 == F1Of(e, predicted, gold) by {
      assert f1PerBag == AlignedScores(e.o, e.solver, TokenBags(e, predicted), TokenBags(e, gold));
    }
  }

  // ---------------------------------------------------------------------
  // `process_results`
  // ---------------------------------------------------------------------

  /** A gold answer takes part in the maximum when it has a first span and that span is not blank. */
  predicate Scored(gold: seq<string>) {
    |gold| > 0 && Strip(gold[0]) != []
  }

  /**
   * The F1 of the predictions against one gold tuple. It is never NaN for a
   * non-empty tuple (`F1Of`'s contract); 0 stands in for the empty tuple,
   * which `process_results` never scores.
   */
  function GoldF1(e: Evaluator, results: seq<string>, gold: seq<string>): (f1: real)
    ensures 0.0 <= f1 <= 1.0
  {
    match F1Of(e, Spans(results), Spans(gold))
    case Some(v) => v
    case None => 0.0
  }

  /** Every gold tuple of a document is non-empty, as `get_answers` builds them. */
  predicate NonEmptyGolds(golds: seq<seq<string>>) {
    forall k :: 0 <= k < |golds| ==> |golds[k]| > 0
  }

  /** Whether each gold answer takes part in the maximum. */
  function ScoredMask(golds: seq<seq<string>>): (mask: seq<bool>) {
    seq(|golds|, k requires 0 <= k < |golds| => Scored(golds[k]))
  }

  /** The exact match of the predictions against each gold answer. */
  function ExactMatches(e: Evaluator, results: seq<string>, golds: seq<seq<string>>): (ems: seq<real>) {
    seq(|golds|, k requires 0 <= k < |golds| => ExactMatchOf(e, Spans(results), Spans(golds[k])))
  }

  /** The F1 of the predictions against each gold answer. */
  function GoldF1s(e: Evaluator, results: seq<string>, golds: seq<seq<string>>): (f1s: seq<real>) {
    seq(|golds|, k requires 0 <= k < |golds| => GoldF1(e, results, golds[k]))
  }

  /** The running `max(best, value)` over the values whose mask is set, starting from 0. */
  function MaxScored(values: seq<real>, mask: seq<bool>): real
    requires |values| == |mask|
  {
    if |values| == 0 then 0.0
    else
      var best := MaxScored(values[..|values| - 1], mask[..|mask| - 1]);
      if mask[|mask| - 1] then Max(best, values[|values| - 1]) else best
  }

  /** One more step of the running maximum over a prefix. */
  lemma MaxScoredStep(values: seq<real>, mask: seq<bool>, i: nat)
    requires |values| == |mask| && i < |values|
    ensures MaxScored(values[..i + 1], mask[..i + 1]) ==
      if mask[i] then Max(MaxScored(values[..i], mask[..i]), values[i]) else MaxScored(values[..i], mask[..i])
  {
    assert values[..i + 1][..i] == values[..i];
    assert mask[..i + 1][..i] == mask[..i];
  }

  /** The running maximum bounds every selected value from above. */
  lemma {:induction false} MaxScoredUpper(values: seq<real>, mask: seq<bool>, k: nat)
    requires |values| == |mask| && k < |values| && mask[k]
    ensures values[k] <= MaxScored(values, mask)
  {
    if k < |values| - 1 {
      MaxScoredUpper(values[..|values| - 1], mask[..|mask| - 1], k);
    }
  }

  /** The running maximum is 0 or one of the selected values. */
  lemma {:induction false} MaxScoredAttained(values: seq<real>, mask: seq<bool>)
    requires |values| == |mask|
    ensures MaxScored(values, mask) == 0.0 || exists k :: 0 <= k < |values| && mask[k] && MaxScored(values, mask) == values[k]
  {
    if |values| > 0 {
      var n := |values| - 1;
      MaxScoredAttained(values[..n], mask[..n]);
      var best := MaxScored(values[..n], mask[..n]);
      if best != 0.0 && MaxScored(values, mask) == best {
        var k :| 0 <= k < n && mask[..n][k] && best == values[..n][k];
        assert mask[k] && values[k] == best;
      }
    }
  }

  /** With every value in [0, 1], so is the running maximum. */
  lemma {:induction false} MaxScoredBounds(values: seq<real>, mask: seq<bool>)
    requires |values| == |mask|
    requires forall k :: 0 <= k < |values| ==> 0.0 <= values[k] <= 1.0
    ensures 0.0 <= MaxScored(values, mask) <= 1.0
  {
    if |values| > 0 {
      var n := |values| - 1;
      MaxScoredBounds(values[..n], mask[..n]);
    }
  }

  /** With nothing selected the running maximum stays 0. */
  lemma {:induction false} MaxScoredNone(values: seq<real>, mask: seq<bool>)
    requires |values| == |mask|
    requires forall k :: 0 <= k < |mask| ==> !mask[k]
    ensures MaxScored(values, mask) == 0.0
  {
    if |values| > 0 {
      var n := |values| - 1;
      MaxScoredNone(values[..n], mask[..n]);
    }
  }

  /** The value `process_results` returns under "em". */
  function BestExactMatch(e: Evaluator, results: seq<string>, golds: seq<seq<string>>): real {
    MaxScored(ExactMatches(e, results, golds), ScoredMask(golds))
  }

  /** The value `process_results` returns under "f1", before rounding. */
  function BestF1(e: Evaluator, results: seq<string>, golds: seq<seq<string>>): real {
    MaxScored(GoldF1s(e, results, golds), ScoredMask(golds))
  }

  /**
   * `process_results`: the best exact match and the best F1 over the gold
   * answers, folding in only those whose first span is not blank.
   */
  method ProcessResults(e: Evaluator, results: seq<string>, golds: seq<seq<string>>)
    returns (em: real, f1: real)
    requires NonEmptyGolds(golds)
    ensures em == BestExactMatch(e, results, golds)
    ensures f1 == BestF1(e, results, golds)
  {
    ghost var ems, f1s, mask := ExactMatches(e, results, golds), GoldF1s(e, results, golds), ScoredMask(golds);
    em, f1 := 0.0, 0.0;
    for i := 0 to |golds|
      invariant em == MaxScored(ems[..i], mask[..i])
      invariant f1 == MaxScored(f1s[..i], mask[..i])
    {
      var goldAnswer := golds[i];
      var exactMatch, f1Score := GetMetrics(e, Spans(results), Spans(goldAnswer));
      MaxScoredStep(ems, mask, i);
      MaxScoredStep(f1s, mask, i);
      if Strip(goldAnswer[0]) != [] {
        em := Max(em, exactMatch);
        f1 := Max(f1, f1Score.value);
      }
    }
    assert ems[..|golds|] == ems && f1s[..|golds|] == f1s && mask[..|golds|] == mask;
  }

  /** Both maxima are at least the scores of every gold answer that takes part. */
  lemma BestAtLeastEach(e: Evaluator, results: seq<string>, golds: seq<seq<string>>, k: nat)
    requires k < |golds| && Scored(golds[k])
    ensures ExactMatchOf(e, Spans(results), Spans(golds[k])) <= BestExactMatch(e, results, golds)
    ensures GoldF1(e, results, golds[k]) <= BestF1(e, results, golds)
  {
    MaxScoredUpper(ExactMatches(e, results, golds), ScoredMask(golds), k);
    MaxScoredUpper(GoldF1s(e, results, golds), ScoredMask(golds), k);
  }

  /** The best exact match is 0 or 1, and it is 0 or the exact match of a gold answer that takes part. */
  lemma BestExactMatchAttained(e: Evaluator, results: seq<string>, golds: seq<seq<string>>)
    ensures var em := BestExactMatch(e, results, golds);
      && (em == 0.0 || em == 1.0)
      && (em == 0.0 || exists k :: 0 <= k < |golds| && Scored(golds[k]) && em == ExactMatchOf(e, Spans(results), Spans(golds[k])))
  {
    var ems, mask := ExactMatches(e, results, golds), ScoredMask(golds);
    MaxScoredAttained(ems, mask);
    var em := MaxScored(ems, mask);
    if em != 0.0 {
      var k :| 0 <= k < |ems| && mask[k] && em == ems[k];
      assert Scored(golds[k]) && em == ExactMatchOf(e, Spans(results), Spans(golds[k]));
    }
  }

  /** The best F1 is in [0, 1], and it is 0 or the F1 of a gold answer that takes part. */
  lemma BestF1Attained(e: Evaluator, results: seq<string>, golds: seq<seq<string>>)
    ensures var f1 := BestF1(e, results, golds);
      && 0.0 <= f1 <= 1.0
      && (f1 == 0.0 || exists k :: 0 <= k < |golds| && Scored(golds[k]) && f1 == GoldF1(e, results, golds[k]))
  {
    var f1s, mask := GoldF1s(e, results, golds), ScoredMask(golds);
    MaxScoredBounds(f1s, mask);
    MaxScoredAttained(f1s, mask);
    var f1 := MaxScored(f1s, mask);
    if f1 != 0.0 {
      var k :| 0 <= k < |f1s| && mask[k] && f1 == f1s[k];
      assert Scored(golds[k]) && f1 == GoldF1(e, results, golds[k]);
    }
  }

  /** With no gold answer taking part, both maxima are 0. */
  lemma BestNoneScored(e: Evaluator, results: seq<string>, golds: seq<seq<string>>)
    requires forall k :: 0 <= k < |golds| ==> !Scored(golds[k])
    ensures BestExactMatch(e, results, golds) == 0.0 && BestF1(e, results, golds) == 0.0
  {
    MaxScoredNone(ExactMatches(e, results, golds), ScoredMask(golds));
    MaxScoredNone(GoldF1s(e, results, golds), ScoredMask(golds));
  }
}
