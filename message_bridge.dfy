/**
 * The bridge between the Elm app and the engine (src/main.ts): startup, the
 * `evaluateAll` handler and the `updateSituation` handler. Each handler runs
 * to completion, so each is one method call on a `Bridge`.
 */
module MessageBridge {
  import opened Wrappers
  import opened SituationStore
  import opened EvaluationService

  /** What the bridge sends to the Elm app on its outgoing ports. */
  datatype Message<V> =
    | EvaluatedRules(results: seq<RuleValue<V>>)
    | SituationUpdated

  /** An effect the bridge has on the world outside it, in the order it has it. */
  datatype Effect<E, V> =
    | EngineSet(situation: Situation<E>)     // the engine is given a situation (src/main.ts:12, 37)
    | StorageWrite(situation: Situation<E>)  // the storage entry is overwritten (src/main.ts:38)
    | UiInit(flags: Situation<E>)            // the Elm app starts with this situation in its flags (src/main.ts:15-18)
    | Sent(message: Message<V>)              // a message goes out on a port (src/main.ts:29, 39)

  /** The messages sent to the Elm app by a run of effects, in order. */
  function SentMessages<E, V>(trace: seq<Effect<E, V>>): seq<Message<V>>
  {
    if trace == [] then []
    else
      var last := trace[|trace| - 1];
      SentMessages(trace[..|trace| - 1]) + if last.Sent? then [last.message] else []
  }

  /** The situation the engine was last configured with, if it ever was. */
  function LastConfigured<E, V>(trace: seq<Effect<E, V>>): Option<Situation<E>>
  {
    if trace == [] then None
    else if trace[|trace| - 1].EngineSet? then Some(trace[|trace| - 1].situation)
    else LastConfigured(trace[..|trace| - 1])
  }

  /** A completion signal comes right after the engine and then storage received the same situation. */
  ghost predicate AckFollowsWrites<E, V>(trace: seq<Effect<E, V>>, i: nat)
    requires i < |trace|
  {
    trace[i].Sent? && trace[i].message.SituationUpdated? ==>
      2 <= i && trace[i - 2].EngineSet? && trace[i - 1] == StorageWrite(trace[i - 2].situation)
  }

  /** A response answers its rules under the situation the engine held when it was sent. */
  ghost predicate ResponseFresh<E, V>(eval: Evaluator<E, V>, trace: seq<Effect<E, V>>, i: nat)
    requires i < |trace|
  {
    trace[i].Sent? && trace[i].message.EvaluatedRules? ==>
      var results := trace[i].message.results;
      LastConfigured(trace[..i]).Some? &&
      results == EvaluateAll(eval, LastConfigured(trace[..i]).value, Names(results))
  }

  /** The ordering guarantees, at every point of a run. */
  ghost predicate WellOrdered<E, V>(eval: Evaluator<E, V>, trace: seq<Effect<E, V>>)
  {
    forall i: nat :: i < |trace| ==> AckFollowsWrites(trace, i) && ResponseFresh(eval, trace, i)
  }

  /** Effects appended to a well-ordered run leave the guarantees of its earlier effects intact. */
  lemma WellOrderedPrefix<E, V>(eval: Evaluator<E, V>, trace: seq<Effect<E, V>>, more: seq<Effect<E, V>>, i: nat)
    requires WellOrdered(eval, trace)
    requires i < |trace|
    ensures AckFollowsWrites(trace + more, i) && ResponseFresh(eval, trace + more, i)
  {
    assert (trace + more)[..i] == trace[..i];
    assert AckFollowsWrites(trace, i) && ResponseFresh(eval, trace, i);
  }

  /** Appending one effect extends the messages sent by at most that effect's message. */
  lemma SentMessagesSnoc<E, V>(trace: seq<Effect<E, V>>, e: Effect<E, V>)
    ensures SentMessages(trace + [e]) == SentMessages(trace) + if e.Sent? then [e.message] else []
    ensures LastConfigured(trace + [e]) == if e.EngineSet? then Some(e.situation) else LastConfigured(trace)
  {
  }

  class Bridge<E, V> {
    /** The engine, built once from the rule base. */
    const evaluate: Evaluator<E, V>
    /** The situation handed to the Elm app at startup, beside the rule base, in its flags. */
    const flags: Situation<E>
    /** The engine's current situation (`engine.getSituation()`). */
    var situation: Situation<E>
    /** The storage entry under the key "situation"; `None` when absent. */
    var stored: Option<Situation<E>>
    /** Every message sent to the Elm app, oldest first. */
    var outbox: seq<Message<V>>
    /** Every `updateSituation` request handled, oldest first. */
    ghost var history: seq<Binding<E>>
    /** Every effect the bridge has had, oldest first. */
    ghost var trace: seq<Effect<E, V>>

    /**
     * The engine, the storage entry and the Elm app agree: restarting would
     * load the engine's situation, which is the startup situation with every
     * handled update merged in; signals and responses keep their order.
     */
    ghost predicate Valid()
      reads this
    {
      && Load(stored) == situation
      && situation == Replay(flags, history)
      && LastConfigured(trace) == Some(situation)
      && SentMessages(trace) == outbox
      && WellOrdered(evaluate, trace)
    }

    /**
     * Startup: read the stored situation (or `{}`), configure the engine with
     * it, then start the Elm app with the same situation in its flags.
     */
    constructor (evaluate: Evaluator<E, V>, persisted: Option<Situation<E>>)
      ensures Valid()
      ensures this.evaluate == evaluate && stored == persisted
      ensures situation == Load(persisted) && flags == situation
      ensures outbox == [] && history == []
      ensures trace == [EngineSet(situation), UiInit(flags)]
    {
      var initial := Load(persisted);
      this.evaluate := evaluate;
      flags := initial;
      situation := initial;
      stored := persisted;
      outbox := [];
      history := [];
      trace := [EngineSet(initial), UiInit(initial)];
      new;
      SentMessagesSnoc<E, V>([], EngineSet(initial));
      SentMessagesSnoc<E, V>([EngineSet(initial)], UiInit(initial));
      assert trace[..1] == [EngineSet(initial)];
    }

    /**
     * `evaluateAll`: answer every requested rule under the current situation
     * and send the whole response at once; nothing else changes.
     */
    method OnEvaluateAll(rules: seq<RuleName>)
      requires Valid()
      modifies this
      ensures Valid()
      ensures situation == old(situation) && stored == old(stored) && history == old(history)
      ensures outbox == old(outbox) + [EvaluatedRules(EvaluateAll(evaluate, situation, rules))]
      ensures trace == old(trace) + [Sent(EvaluatedRules(EvaluateAll(evaluate, situation, rules)))]
    {
      var results := EvaluateAll(evaluate, situation, rules);
      ghost var before := trace;
      outbox := outbox + [EvaluatedRules(results)];
      trace := trace + [Sent(EvaluatedRules(results))];
      SentMessagesSnoc(before, Sent(EvaluatedRules(results)));
      EvaluateAllNames(evaluate, situation, rules);
      forall i: nat | i < |trace| ensures AckFollowsWrites(trace, i) && ResponseFresh(evaluate, trace, i) {
        if i < |before| {
          WellOrderedPrefix(evaluate, before, [Sent(EvaluatedRules(results))], i);
        } else {
          assert trace[..i] == before;
        }
      }
    }

    /**
     * `updateSituation`: merge the binding into the engine's situation, give
     * the result to the engine, write it to storage, then signal completion.
     */
    method OnUpdateSituation(rule: RuleName, value: E)
      requires Valid()
      modifies this
      ensures Valid()
      ensures situation == Merge(old(situation), rule, value)
      ensures stored == Some(situation)
      ensures history == old(history) + [(rule, value)]
      ensures outbox == old(outbox) + [SituationUpdated]
      ensures trace == old(trace) + [EngineSet(situation), StorageWrite(situation), Sent(SituationUpdated)]
    {
      ghost var before := trace;
      var newSituation := Merge(situation, rule, value);
      situation := newSituation;
      trace := trace + [EngineSet(newSituation)];
      stored := Some(newSituation);
      trace := trace + [StorageWrite(newSituation)];
      outbox := outbox + [SituationUpdated];
      trace := trace + [Sent(SituationUpdated)];
      history := history + [(rule, value)];

      ReplaySnoc(flags, old(history), (rule, value));
      ghost var more := [EngineSet(newSituation), StorageWrite(newSituation), Sent(SituationUpdated)];
      assert trace == before + more;
      SentMessagesSnoc(before, more[0]);
      SentMessagesSnoc(before + [more[0]], more[1]);
      SentMessagesSnoc(before + [more[0]] + [more[1]], more[2]);
      assert before + [more[0]] + [more[1]] + [more[2]] == trace;
      forall i: nat | i < |trace| ensures AckFollowsWrites(trace, i) && ResponseFresh(evaluate, trace, i) {
        if i < |before| {
          WellOrderedPrefix(evaluate, before, more, i);
        }
      }
    }
  }
}
