/** Scoring the options of a utility node (utility.rs): every consideration is a script call, and the option
    that is chosen is the last of those with the highest score, if that is above zero. */
module Utility {
  import opened Prelude
  import opened BehaviorTree

  datatype UtilityScore = UtilityScore(option: UtilityOption, considerationScores: seq<real>, raw: real, final: real)

  function ClampUnit(x: real): (y: real)
    ensures 0.0 <= y <= 1.0
  {
    if x < 0.0 then 0.0 else if x > 1.0 then 1.0 else x
  }

  function Product(scores: seq<real>): real {
    if scores == [] then 1.0 else Product(scores[..|scores| - 1]) * ClampUnit(scores[|scores| - 1])
  }

  function Weighted(raw: real, weight: real): real { raw * weight }

  function Score(option: UtilityOption, scores: seq<real>): UtilityScore {
    UtilityScore(option, scores, Product(scores), Weighted(Product(scores), option.weight))
  }

  /** The index of the chosen option: among equals the later one wins. */
  function Best(scores: seq<UtilityScore>): (best: Option<nat>)
    ensures best.Some? ==> best.value < |scores|
  {
    if scores == [] then None
    else
      var (best, last) := (Best(scores[..|scores| - 1]), |scores| - 1);
      if scores[last].final > 0.0 && (best.None? || scores[last].final >= scores[best.value].final) then Some(last) else best
  }

  /** Calls the considerations of one option in turn. One that fails scores zero. */
  function Consider(o: Oracle, names: seq<string>, ctx: Context, log: seq<Call>): (seq<real>, seq<Call>) {
    if names == [] then ([], log)
    else
      var (scores, before) := Consider(o, names[..|names| - 1], ctx, log);
      var after := before + [ConsiderCall(names[|names| - 1], ctx)];
      (scores + [ClampUnit(o(after).score.GetOr(0.0))], after)
  }

  function ScoreAll(o: Oracle, options: seq<UtilityOption>, ctx: Context, log: seq<Call>): (seq<UtilityScore>, seq<Call>) {
    if options == [] then ([], log)
    else
      var (scores, before) := ScoreAll(o, options[..|options| - 1], ctx, log);
      var option := options[|options| - 1];
      var (considered, after) := Consider(o, option.considerations, ctx, before);
      (scores + [Score(option, considered)], after)
  }

  /** The chosen option has the highest score there is, above zero, and every later one a lower score. There
      is none exactly when no score is above zero. */
  lemma {:induction false} BestIsHighest(scores: seq<UtilityScore>)
    ensures match Best(scores)
            case None => forall j | 0 <= j < |scores| :: scores[j].final <= 0.0
            case Some(i) =>
              && scores[i].final > 0.0
              && (forall j | 0 <= j < |scores| :: scores[j].final <= scores[i].final)
              && (forall j | i < j < |scores| :: scores[j].final < scores[i].final)
  {
    if scores != [] {
      BestIsHighest(scores[..|scores| - 1]);
      assert forall j | 0 <= j < |scores| - 1 :: scores[j] == scores[..|scores| - 1][j];
    }
  }

  lemma {:induction false} ProductVetoed(scores: seq<real>)
    ensures 0.0 <= Product(scores) <= 1.0
    ensures Product(scores) > 0.0 <==> forall i | 0 <= i < |scores| :: scores[i] > 0.0
    decreases |scores|
  {
    if scores != [] {
      var (front, last) := (scores[..|scores| - 1], scores[|scores| - 1]);
      ProductVetoed(front);
      hide Product;
      ProductBounds(Product(front), ClampUnit(last));
      assert forall i | 0 <= i < |front| :: front[i] == scores[i];
    }
  }

  /** An option is scored between zero and its weight, and above zero exactly when its weight and all its
      considerations are: one that scores nothing rules it out. */
  lemma ConsiderationsVeto(option: UtilityOption, scores: seq<real>)
    ensures var s := Score(option, scores);
            && (s.final > 0.0 <==> option.weight > 0.0 && forall i | 0 <= i < |scores| :: scores[i] > 0.0)
            && (option.weight >= 0.0 ==> 0.0 <= s.final <= option.weight)
  {
    ProductVetoed(scores);
    WeightedBounds(Product(scores), option.weight);
    hide Product, Weighted;
  }

  lemma ProductBounds(a: real, b: real)
    requires 0.0 <= a <= 1.0 && 0.0 <= b <= 1.0
    ensures 0.0 <= a * b <= 1.0 && (a * b > 0.0 <==> a > 0.0 && b > 0.0)
  {
    assert a * b <= 1.0 * b;
  }

  lemma WeightedBounds(a: real, w: real)
    requires 0.0 <= a <= 1.0
    ensures Weighted(a, w) > 0.0 <==> a > 0.0 && w > 0.0
    ensures w >= 0.0 ==> 0.0 <= Weighted(a, w) <= w
  {
    if w >= 0.0 {
      assert a * w <= 1.0 * w;
    }
  }
}
