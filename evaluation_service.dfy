/**
 * The engine as the bridge sees it, and the `evaluateAll` response it builds
 * (src/main.ts:24-30). The rule base is fixed for the life of the process, so
 * the engine is a function of the situation and the requested rule name.
 */
module EvaluationService {
  import opened Wrappers
  import opened SituationStore

  /**
   * What `engine.evaluate(rule)` returns, cut down to the one field the bridge
   * reads. `nodeValue == None` stands for both an undefined and a null value.
   */
  datatype Evaluation<V> = Evaluation(nodeValue: Option<V>)

  /** The engine loaded with the rule base; `None` is an undefined evaluation. */
  type Evaluator<!E, V> = (Situation<E>, RuleName) -> Option<Evaluation<V>>

  /** One pair of an `evaluatedRules` response: the rule and its value, `None` for null. */
  type RuleValue<V> = (RuleName, Option<V>)

  /**
   * The value reported for one rule (src/main.ts:27): the evaluation's node
   * value when the evaluation and that value are both defined, null otherwise.
   */
  function ValueOrNull<V>(evaluation: Option<Evaluation<V>>): (r: Option<V>)
    ensures r.Some? <==> evaluation.Some? && evaluation.value.nodeValue.Some?
    ensures r.Some? ==> r.value == evaluation.value.nodeValue.value
  {
    match evaluation
    case None => None
    case Some(e) => e.nodeValue
  }

  /**
   * The `evaluatedRules` response to a request for `rules` under situation `s`
   * (src/main.ts:25-28): each requested rule paired with its reported value,
   * in request order.
   */
  function EvaluateAll<E, V>(eval: Evaluator<E, V>, s: Situation<E>, rules: seq<RuleName>): (r: seq<RuleValue<V>>)
    ensures |r| == |rules|
    ensures forall i :: 0 <= i < |r| ==> r[i].0 == rules[i] && r[i].1 == ValueOrNull(eval(s, rules[i]))
  {
    if rules == [] then []
    else [(rules[0], ValueOrNull(eval(s, rules[0])))] + EvaluateAll(eval, s, rules[1..])
  }

  /** The rule names of a response, in order. */
  function Names<V>(results: seq<RuleValue<V>>): seq<RuleName>
  {
    seq(|results|, i requires 0 <= i < |results| => results[i].0)
  }

  /** A response names exactly the requested rules, in the requested order. */
  lemma EvaluateAllNames<E, V>(eval: Evaluator<E, V>, s: Situation<E>, rules: seq<RuleName>)
    ensures Names(EvaluateAll(eval, s, rules)) == rules
  {
  }

  /** The evaluation of `rule` depends on no binding of the situation but that of `input`. */
  ghost predicate DependsOnlyOn<E(!new), V>(eval: Evaluator<E, V>, rule: RuleName, input: RuleName)
  {
    forall s1: Situation<E>, s2: Situation<E> ::
      Lookup(s1, input) == Lookup(s2, input) ==> eval(s1, rule) == eval(s2, rule)
  }

  /**
   * Read your write: once `input` is bound to `value`, a rule that depends
   * only on `input` evaluates as it would with `value` as the only answer.
   */
  lemma ReadYourWrite<E(!new), V>(eval: Evaluator<E, V>, s: Situation<E>, input: RuleName, value: E, rule: RuleName)
    requires DependsOnlyOn(eval, rule, input)
    ensures EvaluateAll(eval, Merge(s, input, value), [rule])
         == [(rule, ValueOrNull(eval(map[input := value], rule)))]
  {
  }
}
