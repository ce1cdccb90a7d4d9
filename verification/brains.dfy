/** `BrainsService`: the frequency table a finished run trains and the
    scan over candidate outcomes that predicts the next one. The table maps
    a key (`getInputAsJSON` of the current slider values) to the outputs
    trained under it. Scores are exact reals; where JavaScript would
    compute 0/0 (NaN) a score is `None`, which, like NaN, never compares
    greater than the running maximum. */
module Brains {
  import opened Options
  import opened Config
  import opened Json

  /** One element of `frequency`: `{key, output}`. */
  datatype Entry = Entry(key: string, output: seq<int>)

  /** `output.filter(o => o === v).length`. */
  function Count(s: seq<int>, v: int): (n: nat)
    ensures n <= |s|
    ensures n > 0 <==> v in s
    ensures n == |s| <==> forall k :: 0 <= k < |s| ==> s[k] == v
  {
    if |s| == 0 then 0 else Count(s[..|s| - 1], v) + (if s[|s| - 1] == v then 1 else 0)
  }

  /** `frequency.find(e => e.key === key)` from index `from` on. */
  function FindFrom(t: seq<Entry>, key: string, from: nat): (r: Option<nat>)
    requires from <= |t|
    ensures r.None? <==> forall i :: from <= i < |t| ==> t[i].key != key
    ensures r.Some? ==> from <= r.value < |t| && t[r.value].key == key
    ensures r.Some? ==> forall i :: from <= i < r.value ==> t[i].key != key
    decreases |t| - from
  {
    if from == |t| then None
    else if t[from].key == key then Some(from)
    else FindFrom(t, key, from + 1)
  }

  /** The index of the first entry with `key`, or `None`. */
  function Find(t: seq<Entry>, key: string): (r: Option<nat>)
    ensures r.None? <==> forall i :: 0 <= i < |t| ==> t[i].key != key
    ensures r.Some? ==> r.value < |t| && t[r.value].key == key
    ensures r.Some? ==> forall i :: 0 <= i < r.value ==> t[i].key != key
  {
    FindFrom(t, key, 0)
  }

  /** No two entries share a key. */
  predicate DistinctKeys(t: seq<Entry>)
  {
    forall i, j :: 0 <= i < j < |t| ==> t[i].key != t[j].key
  }

  /** `train(output)`: appends the output to the current key's list, or adds
      a new entry with just that output when the key is new. */
  function Train(t: seq<Entry>, params: Params, o: int): (r: seq<Entry>)
    ensures var key := InputAsJson(params);
            Find(t, key).None? ==> |r| == |t| + 1 && t <= r && r[|t|] == Entry(key, [o])
    ensures var key := InputAsJson(params);
            Find(t, key).Some? ==>
              var i := Find(t, key).value;
              && |r| == |t|
              && r[i] == Entry(key, t[i].output + [o])
              && (forall j :: 0 <= j < |t| && j != i ==> r[j] == t[j])
    ensures DistinctKeys(t) ==> DistinctKeys(r)
  {
    var key := InputAsJson(params);
    match Find(t, key)
    case None => t + [Entry(key, [o])]
    case Some(i) => t[i := t[i].(output := t[i].output + [o])]
  }

  /** `calculateLikelihood`: the share of `v` among the outputs trained under
      `key`; 0 for an unseen key; `None` (NaN) only for an empty list, which
      training never creates. */
  function Likelihood(t: seq<Entry>, key: string, v: int): (r: Option<real>)
    ensures Find(t, key).None? ==> r == Some(0.0)
    ensures r.None? <==> Find(t, key).Some? && |t[Find(t, key).value].output| == 0
  {
    match Find(t, key)
    case None => Some(0.0)
    case Some(i) =>
      var out := t[i].output;
      if |out| == 0 then None
      else Some(Count(out, v) as real / |out| as real)
  }

  /** The likelihood is a share: within [0, 1], positive exactly when `v`
      was trained under `key`, and 1 exactly when nothing else was. */
  lemma {:induction false} LikelihoodIsShare(t: seq<Entry>, key: string, v: int)
    ensures var r := Likelihood(t, key, v);
            && (r.Some? ==> 0.0 <= r.value <= 1.0)
            && ((r.Some? && r.value > 0.0) <==> Find(t, key).Some? && v in t[Find(t, key).value].output)
            && (r == Some(1.0) <==>
                  && Find(t, key).Some?
                  && |t[Find(t, key).value].output| > 0
                  && forall k :: 0 <= k < |t[Find(t, key).value].output| ==> t[Find(t, key).value].output[k] == v)
  {
    if Find(t, key).Some? {
      var out := t[Find(t, key).value].output;
      if |out| > 0 {
        Ratio(Count(out, v), |out|);
      }
    }
  }

  /** The share `c / n` of a count within a non-empty list. */
  lemma Ratio(c: nat, n: nat)
    requires 0 < n && c <= n
    ensures 0.0 <= c as real / n as real <= 1.0
    ensures c as real / n as real > 0.0 <==> c > 0
    ensures c as real / n as real == 1.0 <==> c == n
  {
    var q := c as real / n as real;
    assert q * n as real == c as real;
  }

  /** `calculatePriorProbability`: the length of `key`'s list over the
      number of entries; 0 for an unseen key. It is not bounded by 1. */
  function Prior(t: seq<Entry>, key: string): (r: real)
    ensures r >= 0.0
    ensures Find(t, key).None? ==> r == 0.0
    ensures Find(t, key).Some? ==> (r > 0.0 <==> |t[Find(t, key).value].output| > 0)
  {
    match Find(t, key)
    case None => 0.0
    case Some(i) => |t[i].output| as real / |t| as real
  }

  /** `calculatePredictor`: how often `v` was trained, under any key. */
  function Predictor(t: seq<Entry>, v: int): (n: nat)
    ensures n == 0 <==> forall i :: 0 <= i < |t| ==> v !in t[i].output
  {
    if |t| == 0 then 0
    else
      assert forall i :: 0 <= i < |t| - 1 ==> t[..|t| - 1][i] == t[i];
      Predictor(t[..|t| - 1], v) + Count(t[|t| - 1].output, v)
  }

  /** Every list's count of `v` is part of the predictor. */
  lemma {:induction false} PredictorCoversEntry(t: seq<Entry>, i: nat, v: int)
    requires i < |t|
    ensures Count(t[i].output, v) <= Predictor(t, v)
  {
    if i < |t| - 1 {
      PredictorCoversEntry(t[..|t| - 1], i, v);
    }
  }

  lemma EvidenceCoversKey(t: seq<Entry>, key: string, v: int)
    ensures Find(t, key).Some? ==> Count(t[Find(t, key).value].output, v) <= Predictor(t, v)
  {
    if Find(t, key).Some? {
      PredictorCoversEntry(t, Find(t, key).value, v);
    }
  }

  /** `likelihood * priorProbability / predictor` for candidate `v`. A
      value never trained under any key has predictor 0, and the quotient is
      0/0: `None`. */
  function Score(t: seq<Entry>, key: string, v: int): (r: Option<real>)
    ensures Predictor(t, v) == 0 ==> r.None?
    ensures Find(t, key).None? && Predictor(t, v) > 0 ==> r == Some(0.0)
  {
    var l := Likelihood(t, key, v);
    var evidence := Predictor(t, v);
    if l.None? || evidence == 0 then None
    else Some(Quotient(l.value, Prior(t, key), evidence as real))
  }

  /** `likelihood * priorProbability / predictor`, kept apart so that the
      score's arithmetic is reasoned about in one place. */
  function Quotient(a: real, b: real, c: real): real
    requires c != 0.0
  {
    a * b / c
  }

  /** A score is never negative, and it is positive exactly for the values
      trained under `key`: every other candidate scores 0 or NaN. In
      particular a predictor of 0 comes with a likelihood of 0, so the
      division by zero is always 0/0, never a positive number over 0. */
  lemma {:induction false} ScoreSign(t: seq<Entry>, key: string, v: int)
    ensures Score(t, key, v).Some? ==> Score(t, key, v).value >= 0.0
    ensures (Score(t, key, v).Some? && Score(t, key, v).value > 0.0)
            <==> Find(t, key).Some? && v in t[Find(t, key).value].output
    ensures Predictor(t, v) == 0 ==> Likelihood(t, key, v).None? || Likelihood(t, key, v).value == 0.0
  {
    LikelihoodIsShare(t, key, v);
    EvidenceCoversKey(t, key, v);
    if Likelihood(t, key, v).Some? && Predictor(t, v) > 0 {
      QuotientSign(t, key, v);
    }
  }

  /** Where neither the likelihood nor the predictor makes the score NaN,
      the score has the sign of likelihood times prior. */
  lemma {:induction false} QuotientSign(t: seq<Entry>, key: string, v: int)
    requires Likelihood(t, key, v).Some? && Likelihood(t, key, v).value >= 0.0
    requires Predictor(t, v) > 0
    ensures Score(t, key, v).Some? && Score(t, key, v).value >= 0.0
    ensures Score(t, key, v).value > 0.0 <==> Likelihood(t, key, v).value > 0.0 && Prior(t, key) > 0.0
  {
    ProductSign(Likelihood(t, key, v).value, Prior(t, key), Predictor(t, v) as real);
  }

  /** Where neither the likelihood nor the predictor makes the score NaN,
      the score is the quotient `predict` computes. */
  lemma {:induction false} ScoreIsQuotient(t: seq<Entry>, key: string, v: int, l: real, p: real, e: nat)
    requires Likelihood(t, key, v) == Some(l) && Prior(t, key) == p && Predictor(t, v) == e
    requires e > 0
    ensures Score(t, key, v) == Some(Quotient(l, p, e as real))
  {
  }

  lemma ProductSign(a: real, b: real, c: real)
    requires a >= 0.0 && b >= 0.0 && c > 0.0
    ensures Quotient(a, b, c) >= 0.0
    ensures Quotient(a, b, c) > 0.0 <==> a > 0.0 && b > 0.0
  {
    if a > 0.0 && b > 0.0 {
      assert a * b > 0.0;
    } else {
      assert a * b == 0.0;
    }
  }

  /** The running maximum never moves on an absent (NaN) score. */
  predicate NotAbove(s: Option<real>, highest: real)
  {
    s.None? || s.value <= highest
  }

  /** One iteration of the loop of `predict`: candidate `v` replaces the
      current best only when its score is strictly higher. */
  function Consider(t: seq<Entry>, key: string, v: int, highest: real, best: int): (r: (real, int))
    ensures r.0 >= highest && NotAbove(Score(t, key, v), r.0)
    ensures r.0 > highest <==> Score(t, key, v).Some? && Score(t, key, v).value > highest
    ensures r.0 > highest ==> r == (Score(t, key, v).value, v)
    ensures r.0 == highest ==> r.1 == best
  {
    var s := Score(t, key, v);
    if s.Some? && s.value > highest then (s.value, v) else (highest, best)
  }

  /** A score that beats the initial maximum of 0. */
  predicate Positive(s: Option<real>)
  {
    s.Some? && s.value > 0.0
  }

  /** What the loop of `predict` keeps true from candidate to candidate:
      no candidate below `v` beats the running maximum, and a positive
      maximum belongs to the lowest candidate below `v` that reaches it. */
  predicate ScanState(t: seq<Entry>, key: string, v: int, highest: real, best: int)
  {
    && highest >= 0.0
    && (forall u :: 0 <= u < v ==> NotAbove(Score(t, key, u), highest))
    && (highest > 0.0 ==>
          && 0 <= best < v && Score(t, key, best) == Some(highest)
          && forall u :: 0 <= u < best ==> Score(t, key, u) != Some(highest))
    && (highest == 0.0 ==> best == 0)
  }

  /** The loop of `predict` from candidate `v` on, carrying the highest score
      so far and the candidate that reached it. Answers both, and keeps
      `ScanState` up to the last candidate. */
  function Scan(t: seq<Entry>, key: string, maxValue: int, v: int, highest: real, best: int): (r: (int, real))
    requires 0 <= v
    requires ScanState(t, key, v, highest, best)
    ensures ScanState(t, key, if v < maxValue then maxValue else v, r.1, r.0)
    decreases maxValue - v
  {
    if v >= maxValue then (best, highest)
    else
      var next := Consider(t, key, v, highest, best);
      Scan(t, key, maxValue, v + 1, next.0, next.1)
  }

  /** `predict()`, with `getMaxAmountOfSlider()` as `maxValue`: scans the
      candidates 0, 1, …, `maxValue - 1`, starting from score 0 and value 0.
      It answers the lowest candidate with the highest score when some score
      is positive, and 0 otherwise: the strict comparison keeps the first of
      equal scores, and a NaN never wins. So the answer is 0 or a value
      trained under the current key. */
  function Predict(t: seq<Entry>, params: Params, maxValue: int): (r: int)
    ensures var key := InputAsJson(params);
            (exists u :: 0 <= u < maxValue && Positive(Score(t, key, u))) ==>
              && 0 <= r < maxValue && Positive(Score(t, key, r))
              && (forall u :: 0 <= u < maxValue ==> NotAbove(Score(t, key, u), Score(t, key, r).value))
              && (forall u :: 0 <= u < r ==> Score(t, key, u) != Score(t, key, r))
    ensures var key := InputAsJson(params);
            !(exists u :: 0 <= u < maxValue && Positive(Score(t, key, u))) ==> r == 0
    ensures var i := Find(t, InputAsJson(params));
            r == 0 || (0 < r < maxValue && i.Some? && r in t[i.value].output)
  {
    var key := InputAsJson(params);
    var r := Scan(t, key, maxValue, 0, 0.0, 0).0;
    ScoreSign(t, key, r);
    r
  }
}
