# Elm ↔ publicodes bridge, modelled in Dafny

The example app `publicodes/elm-app-example` keeps its UI in Elm and evaluates
its rules with the publicodes engine. A short TypeScript bridge,
`src/main.ts`, connects the two. Everything it does concerns the *situation*:
a map from rule name to the expression the user answered for that rule.

- **Startup** (`src/main.ts:9-18`). The bridge reads the situation from the
  storage key `"situation"`, or uses `{}` when the key is absent. It
  configures the engine with that map, then starts the Elm app with that map
  (beside the rule base) in its flags.
- **`evaluateAll`** (`src/main.ts:24-30`). The bridge turns a list of rule
  names into a list of `(name, nodeValue or null)` pairs under the engine's
  current situation. It sends the whole list in one message.
- **`updateSituation`** (`src/main.ts:34-41`). The bridge merges one
  `(rule, value)` binding into the engine's situation, and the last write
  wins. It hands the result to the engine, writes it to storage, and only then
  sends the completion signal.

The model has four modules:

- `Wrappers` (`wrappers.dfy`): `Option`.
- `SituationStore` (`situation_store.dfy`): the situation, loading it at
  startup, the merge, and `Replay`. `Replay` is the situation reached after a
  run of updates.
- `EvaluationService` (`evaluation_service.dfy`): the engine as a function of
  the situation and the rule name, the `?.nodeValue ?? null` fallback, and
  the `evaluateAll` response as a function over sequences.
- `MessageBridge` (`message_bridge.dfy`): a `Bridge` class. Its fields are the
  engine's situation, the storage entry and the outbox of port messages. Two
  ghost fields record every handled update and every external effect in
  order. Its constructor is startup, and its two methods are the two port
  handlers.

`Bridge.Valid()` is the invariant that both handlers keep:

- reloading the storage entry gives exactly the engine's situation;
- that situation is the startup situation with every handled update merged in,
  in order;
- every completion signal comes right after an engine write and then a
  storage write of the same situation;
- every `evaluatedRules` response was computed under the situation the engine
  held when it was sent.

## Model

| member | source | states |
|---|---|---|
| `SituationStore.Load` | src/main.ts:9 | An absent storage key gives the empty situation. A stored situation is restored unchanged. |
| `SituationStore.Merge` | src/main.ts:36 | The merged situation binds `rule` to `value` (insert or overwrite). Every other binding is kept. The keys are the old keys plus `rule`, so none is removed. |
| `SituationStore.MergeIdempotent` | src/main.ts:36 | Merging the same binding twice gives the same situation as merging it once. |
| `SituationStore.MergeLastWriteWins` | src/main.ts:36 | Of two merges for the same rule, the later value wins. |
| `SituationStore.MergeNoCrossTalk` | src/main.ts:34-41 | Updates for two different rules commute, and both bindings hold afterwards. |
| `SituationStore.ReplaySnoc` | src/main.ts:34-41 | Handling one more update after a run is one more merge of that binding. |
| `SituationStore.ReplayKeys` | src/main.ts:36 | After a run of updates, the answered rules are the rules answered before plus the rules updated. |
| `SituationStore.ReplayLastWriteWins` | src/main.ts:34-41 | After a run of updates, a rule is bound to the value of the last update that named it. |
| `SituationStore.ReplayUntouched` | src/main.ts:34-41 | A rule that no update of a run names keeps its binding, or stays unbound. |
| `EvaluationService.ValueOrNull` | src/main.ts:27 | The value is present exactly when the evaluation and its `nodeValue` are both defined, and it is then that `nodeValue`. Otherwise it is null. |
| `EvaluationService.EvaluateAll` | src/main.ts:25-28 | The response has one pair per requested name (so an empty request gets an empty response). The i-th pair names the i-th requested rule and holds that rule's value-or-null under the situation. |
| `EvaluationService.EvaluateAllNames` | src/main.ts:25-26 | The names of a response are exactly the request, in order. |
| `EvaluationService.ReadYourWrite` | src/main.ts:27-37 | After `input` is merged with `value`, a rule that depends only on `input` evaluates as it would with `value` alone. |
| `MessageBridge.Bridge.constructor` | src/main.ts:9-18 | Startup loads the stored situation, or `{}`. It sets the engine to that situation, then starts the UI with it (beside the rule base) in its flags. Nothing is sent, and the invariant holds. |
| `MessageBridge.Bridge.OnEvaluateAll` | src/main.ts:24-30 | Exactly one response is appended: `EvaluateAll` under the engine's situation. The engine's situation, the storage entry and the update history are unchanged. |
| `MessageBridge.Bridge.OnUpdateSituation` | src/main.ts:34-41 | The new situation is the old one merged with `(rule, value)`. The engine is set to it, then storage holds it, then exactly one completion signal is sent, in that order. The invariant is kept. |

## Left out

- The Elm app, its ports and the DOM (`src/main.ts:1-2, 15-18, 29, 39`) are transport. A port send is an append to `outbox`, and starting the app is the `UiInit` effect carrying the situation part of the flags. The `rules` part of the flags (the rule base) is dropped.
- The publicodes engine and `model.json` are a foreign library. Evaluation is a function of the situation and the rule name, given to the constructor. Whatever `setSituation` checks or reports is not modelled. `getSituation()` is taken to return the map last set.
- The model has no exceptions. `engine.evaluate` has no `try`/`catch` around it (`src/main.ts:27`), so a rule that throws aborts the whole handler and sends no response. The model's evaluator is total and does not show this.
- The storage entry holds the situation map directly. `JSON.stringify`/`JSON.parse` are not modelled, and the model assumes they round-trip exactly. A malformed stored string makes `JSON.parse` throw at startup (`src/main.ts:9`). Only an absent key falls back to `{}`.
- A storage write can fail (for example when the quota is full). The engine has then already been given the new situation (`src/main.ts:37-38`) and nothing rolls it back. The model's write always succeeds.
- `nodeValue` being `undefined` and being `null` are not told apart. `?? null` maps both to null, and the model uses `None` for both.
- Concurrency is not modelled. JavaScript event handlers run to completion, so each handler is one atomic method call.
