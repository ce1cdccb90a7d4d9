/** Properties of training and prediction that relate several calls. */
module BrainsProofs {
  import opened Options
  import opened Config
  import opened Json
  import opened Brains

  // ---------------------------------------------------------------------
  // Training

  /** The number of outputs stored in the table, over all keys. */
  function Total(t: seq<Entry>): nat
  {
    if |t| == 0 then 0 else Total(t[..|t| - 1]) + |t[|t| - 1].output|
  }

  lemma {:induction false} TotalUpdate(t: seq<Entry>, i: nat, e: Entry)
    requires i < |t|
    ensures Total(t[i := e]) + |t[i].output| == Total(t) + |e.output|
  {
    var u := t[i := e];
    if i < |t| - 1 {
      assert u[..|u| - 1] == t[..|t| - 1][i := e];
      TotalUpdate(t[..|t| - 1], i, e);
    } else {
      assert u[..|u| - 1] == t[..|t| - 1];
    }
  }

  lemma {:induction false} PredictorUpdate(t: seq<Entry>, i: nat, e: Entry, v: int)
    requires i < |t|
    ensures Predictor(t[i := e], v) + Count(t[i].output, v) == Predictor(t, v) + Count(e.output, v)
  {
    var u := t[i := e];
    if i < |t| - 1 {
      assert u[..|u| - 1] == t[..|t| - 1][i := e];
      PredictorUpdate(t[..|t| - 1], i, e, v);
    } else {
      assert u[..|u| - 1] == t[..|t| - 1];
    }
  }

  lemma {:induction false} CountAppend(s: seq<int>, o: int, v: int)
    ensures Count(s + [o], v) == Count(s, v) + (if o == v then 1 else 0)
  {
    assert (s + [o])[..|s|] == s;
  }

  /** `train` stores exactly one more output, and adds at most one entry. */
  lemma {:induction false} TrainAddsOneOutput(t: seq<Entry>, params: Params, o: int)
    ensures Total(Train(t, params, o)) == Total(t) + 1
    ensures |t| <= |Train(t, params, o)| <= |t| + 1
  {
    var key := InputAsJson(params);
    var r := Train(t, params, o);
    match Find(t, key)
    case None =>
      assert r[..|r| - 1] == t;
    case Some(i) =>
      assert r == t[i := Entry(key, t[i].output + [o])];
      TotalUpdate(t, i, Entry(key, t[i].output + [o]));
  }

  /** Training `o` raises the predictor of `o` by one and of nothing else. */
  lemma {:induction false} TrainPredictor(t: seq<Entry>, params: Params, o: int, v: int)
    ensures Predictor(Train(t, params, o), v) == Predictor(t, v) + (if o == v then 1 else 0)
  {
    var key := InputAsJson(params);
    var r := Train(t, params, o);
    match Find(t, key)
    case None =>
      assert r[..|r| - 1] == t;
      assert Count([o], v) == (if o == v then 1 else 0) by {
        assert [o][..0] == [];
      }
    case Some(i) =>
      assert r == t[i := Entry(key, t[i].output + [o])];
      PredictorUpdate(t, i, Entry(key, t[i].output + [o]), v);
      CountAppend(t[i].output, o, v);
  }

  /** All trained outputs, entry by entry. */
  function AllOutputs(t: seq<Entry>): seq<int>
  {
    if |t| == 0 then [] else AllOutputs(t[..|t| - 1]) + t[|t| - 1].output
  }

  lemma {:induction false} CountConcat(a: seq<int>, b: seq<int>, v: int)
    ensures Count(a + b, v) == Count(a, v) + Count(b, v)
    decreases |b|
  {
    if |b| > 0 {
      assert (a + b)[..|a + b| - 1] == a + b[..|b| - 1];
      CountConcat(a, b[..|b| - 1], v);
    } else {
      assert a + b == a;
    }
  }

  /** The predictor is the count of `v` among all trained outputs. */
  lemma {:induction false} PredictorCountsAllOutputs(t: seq<Entry>, v: int)
    ensures Predictor(t, v) == Count(AllOutputs(t), v)
  {
    if |t| > 0 {
      PredictorCountsAllOutputs(t[..|t| - 1], v);
      CountConcat(AllOutputs(t[..|t| - 1]), t[|t| - 1].output, v);
    }
  }

  /** The set of keys in the table. */
  function Keys(t: seq<Entry>): set<string>
  {
    set i | 0 <= i < |t| :: t[i].key
  }

  /** With distinct keys the number of entries is the number of keys, so
      the prior's denominator counts distinct parameter vectors. */
  lemma {:induction false} DistinctKeysCount(t: seq<Entry>)
    requires DistinctKeys(t)
    ensures |Keys(t)| == |t|
  {
    if |t| > 0 {
      var init := t[..|t| - 1];
      DistinctKeysCount(init);
      assert Keys(t) == Keys(init) + {t[|t| - 1].key} by {
        forall k | k in Keys(t) ensures k in Keys(init) + {t[|t| - 1].key} {
          var i :| 0 <= i < |t| && t[i].key == k;
          if i < |t| - 1 {
            assert init[i] == t[i];
          }
        }
        forall k | k in Keys(init) ensures k in Keys(t) {
          var i :| 0 <= i < |init| && init[i].key == k;
          assert t[i] == init[i];
        }
      }
      assert t[|t| - 1].key !in Keys(init);
    }
  }

  /** `calculatePriorProbability` divides by the number of entries, which in
      a table `train` built is the number of distinct keys seen. */
  lemma {:induction false} PriorOverDistinctKeys(t: seq<Entry>, key: string)
    requires DistinctKeys(t) && Find(t, key).Some?
    ensures |Keys(t)| == |t|
    ensures Prior(t, key) == |t[Find(t, key).value].output| as real / |Keys(t)| as real
  {
    DistinctKeysCount(t);
    var i := Find(t, key).value;
    assert Prior(t, key) == |t[i].output| as real / |t| as real;
  }

  /** The prior is a share of the entries, not of the outputs, so it can
      exceed 1: three outputs under one key, one under another, gives 3/2. */
  lemma {:induction false} PriorCanExceedOne(k1: string, k2: string)
    requires k1 != k2
    ensures Prior([Entry(k1, [1, 2, 3]), Entry(k2, [4])], k1) == 1.5
  {
    assert Find([Entry(k1, [1, 2, 3]), Entry(k2, [4])], k1) == Some(0);
  }

  // ---------------------------------------------------------------------
  // Prediction

  /** Cold start: with an empty table, or a key never trained, `predict`
      answers 0. */
  lemma {:induction false} PredictUnseenKey(t: seq<Entry>, params: Params, maxValue: int)
    requires t == [] || Find(t, InputAsJson(params)).None?
    ensures Predict(t, params, maxValue) == 0
  {
    var key := InputAsJson(params);
    if exists u :: 0 <= u < maxValue && Positive(Score(t, key, u)) {
      var u :| 0 <= u < maxValue && Positive(Score(t, key, u));
      ScoreSign(t, key, u);
      assert false;
    }
  }

  /** When every output under the current key is `o`, and `o` is a
      candidate, `predict` answers `o`, whatever other keys hold. */
  lemma {:induction false} PredictOnlyValue(t: seq<Entry>, params: Params, maxValue: int, o: int)
    requires Find(t, InputAsJson(params)).Some?
    requires var out := t[Find(t, InputAsJson(params)).value].output;
             |out| > 0 && forall k :: 0 <= k < |out| ==> out[k] == o
    requires 0 <= o < maxValue
    ensures Predict(t, params, maxValue) == o
  {
    var key := InputAsJson(params);
    var out := t[Find(t, key).value].output;
    assert out[0] == o;
    ScoreSign(t, key, o);
    var r := Predict(t, params, maxValue);
    ScoreSign(t, key, r);
    assert r in out;
  }

  /** `train` called `n` times with the same output. */
  function TrainTimes(t: seq<Entry>, params: Params, o: int, n: nat): seq<Entry>
  {
    if n == 0 then t else Train(TrainTimes(t, params, o, n - 1), params, o)
  }

  lemma {:induction false} TrainTimesFromEmpty(params: Params, o: int, n: nat)
    requires n > 0
    ensures TrainTimes([], params, o, n) == [Entry(InputAsJson(params), seq(n, _ => o))]
  {
    var key := InputAsJson(params);
    if n == 1 {
      assert seq(1, _ => o) == [o];
    } else {
      TrainTimesFromEmpty(params, o, n - 1);
      var before := [Entry(key, seq(n - 1, _ => o))];
      assert TrainTimes([], params, o, n) == Train(before, params, o);
      assert Find(before, key) == Some(0);
      var after := Train(before, params, o);
      assert |after| == 1 && after[0] == Entry(key, seq(n - 1, _ => o) + [o]);
      assert seq(n - 1, _ => o) + [o] == seq(n, _ => o);
    }
  }

  /** Training one parameter vector `n` times with the same outcome, then
      predicting for it, answers that outcome. */
  lemma {:induction false} TrainThenPredict(params: Params, o: int, n: nat, maxValue: int)
    requires n > 0 && 0 <= o < maxValue
    ensures Predict(TrainTimes([], params, o, n), params, maxValue) == o
  {
    TrainTimesFromEmpty(params, o, n);
    var t := TrainTimes([], params, o, n);
    assert Find(t, InputAsJson(params)) == Some(0);
    PredictOnlyValue(t, params, maxValue, o);
  }

  /** With a single entry every observed value scores exactly 1: the share of
      the value, times the list length, over the value's own count. */
  lemma {:induction false} SingleKeyScoresEqual(t: seq<Entry>, v: int)
    requires |t| == 1 && v in t[0].output
    ensures Score(t, t[0].key, v) == Some(1.0)
  {
    SingleKeyParts(t, v);
    var c := Count(t[0].output, v);
    var n := |t[0].output|;
    ScoreIsQuotient(t, t[0].key, v, c as real / n as real, n as real / 1 as real, c);
    CancelRatio(c, n);
  }

  /** The three factors of a score in a table of one entry. */
  lemma {:induction false} SingleKeyParts(t: seq<Entry>, v: int)
    requires |t| == 1 && v in t[0].output
    ensures var out := t[0].output;
            && Count(out, v) > 0 && |out| > 0
            && Likelihood(t, t[0].key, v) == Some(Count(out, v) as real / |out| as real)
            && Prior(t, t[0].key) == |out| as real / 1 as real
            && Predictor(t, v) == Count(out, v)
  {
    assert Find(t, t[0].key) == Some(0);
    assert Predictor(t[..0], v) == 0;
  }

  /** (c / n) * (n / 1) / c is 1. */
  lemma CancelRatio(c: nat, n: nat)
    requires c > 0 && n > 0
    ensures Quotient(c as real / n as real, n as real / 1 as real, c as real) == 1.0
  {
    var l := c as real / n as real;
    assert l * n as real == c as real;
    assert n as real / 1 as real == n as real;
    assert l * (n as real) / c as real == 1.0;
  }

  /** Hence, with a single entry, `predict` answers the smallest observed value
      in [0, maxValue), and 0 when there is none: how often a value was seen
      plays no part. */
  lemma {:induction false} SingleKeyPredictsSmallestObserved(params: Params, out: seq<int>, maxValue: int)
    ensures var r := Predict([Entry(InputAsJson(params), out)], params, maxValue);
            && ((exists v :: v in out && 0 <= v < maxValue) ==>
                  && r in out && 0 <= r < maxValue
                  && forall u :: u in out && 0 <= u < maxValue ==> r <= u)
            && (!(exists v :: v in out && 0 <= v < maxValue) ==> r == 0)
  {
    var key := InputAsJson(params);
    var t := [Entry(key, out)];
    assert t[0].key == key && t[0].output == out;
    assert Find(t, key) == Some(0);
    var r := Predict(t, params, maxValue);
    if exists v :: v in out && 0 <= v < maxValue {
      var v :| v in out && 0 <= v < maxValue;
      SingleKeyScoresEqual(t, v);
      assert Positive(Score(t, key, v));
      ScoreSign(t, key, r);
      assert r in out;
      SingleKeyScoresEqual(t, r);
      forall u | u in out && 0 <= u < maxValue ensures r <= u {
        SingleKeyScoresEqual(t, u);
      }
    }
  }

  lemma {:induction false} TrainThree(params: Params, a: int, b: int, c: int)
    ensures Train(Train(Train([], params, a), params, b), params, c) == [Entry(InputAsJson(params), [a, b, c])]
  {
    var key := InputAsJson(params);
    var one := Train([], params, a);
    assert one == [Entry(key, [a])];
    assert Find(one, key) == Some(0);
    assert [a] + [b] == [a, b];
    var two := Train(one, params, b);
    assert two == [Entry(key, [a, b])];
    assert Find(two, key) == Some(0);
    assert [a, b] + [c] == [a, b, c];
  }

  /** Training 2, 2, 5 under one key predicts 2; so does 5, 5, 2. */
  lemma {:induction false} FrequencyDoesNotDecide(params: Params, maxValue: int)
    requires maxValue > 5
    ensures Predict(Train(Train(Train([], params, 2), params, 2), params, 5), params, maxValue) == 2
    ensures Predict(Train(Train(Train([], params, 5), params, 5), params, 2), params, maxValue) == 2
  {
    TrainThree(params, 2, 2, 5);
    SmallestOfThree(params, [2, 2, 5], maxValue);
    TrainThree(params, 5, 5, 2);
    SmallestOfThree(params, [5, 5, 2], maxValue);
  }

  lemma {:induction false} SmallestOfThree(params: Params, out: seq<int>, maxValue: int)
    requires maxValue > 5
    requires out == [2, 2, 5] || out == [5, 5, 2]
    ensures Predict([Entry(InputAsJson(params), out)], params, maxValue) == 2
  {
    assert 2 in out;
    SingleKeyPredictsSmallestObserved(params, out, maxValue);
    var r := Predict([Entry(InputAsJson(params), out)], params, maxValue);
    assert r in out && r <= 2;
  }
}
