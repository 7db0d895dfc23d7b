# linkeddevices: the link reconciliation pass

This project models the reconciliation pass of the ioBroker `linkeddevices` adapter, in `main.js`, and proves its properties.

An instance with namespace `linkeddevices.<n>` mirrors "parent" objects into "linked" objects of its own. A parent opts in through its custom block `common.custom[<namespace>]`, with the fields `enabled`, `id` and `name` (an absent `name` aborts the pass, see below). `initialObjects` runs two phases in sequence:

1. **Status reset** (`resetLinkedObjectsStatus`). Every own object that carries a custom block for the namespace is written back with `linked: false`.
2. **Generation** (`generateLinkedObjects`). The pass scans every object in the store.
   - It skips objects whose id contains the namespace as a substring.
   - It skips objects whose custom block is missing or disabled.
   - It logs a configuration error when the configured `id` is missing or empty.
   - It logs a configuration error when the derived id `<namespace>.<id>` contains one of `* ? " ' [ ]`.
   - It hands every other parent to the builder (`createLinkedObject`). The builder resolves the display name, then upserts the linked object: the parent's `type` and `common`, the description `Created by linkeddevices`, and the custom block `{parentId, linked: true}`. It then copies the parent's state value, acknowledged.

The store is a pair of maps, `objects` and `states`. The adapter's error log is a sequence of abstract entries: the kind of error and the parent id. The enumeration order of the store's listings is a parameter, a sequence of ids. Each listing is a snapshot taken when its phase starts, as in the source.

Modules:

- `StoreModel` (`store.dfy`): objects, custom blocks, states, the error log, and the outcome of a pass.
- `LinkIds` (`link_ids.dfy`): the substring test, the id derivation `getLinkedObjectId`, and the illegal-character test.
- `Reconcile` (`reconcile.dfy`): each phase as a function on store values.
  - `Reset`, `Visit`, `Create`, `Generate` and `Pass`.
  - Store-free reference definitions of what generation writes and logs: `WrittenObjects`, `WrittenStates` and `ErrorLog`.
- `ReconcileProofs` (`reconcile_proofs.dfy`): the properties of those functions.
- `Adapter` (`adapter.dfy`): the class `Linkeddevices`. Its fields `objects`, `states` and `errors` are updated by imperative methods with loops. Each method is proved to compute exactly the matching function of `Reconcile`.
- `Scenarios` (`scenarios.dfy`): concrete passes over a one-parent store (`sensors.temp1`) and over a two-parent store (`a.x` with a state, `b.x` without).

An absent custom `name` aborts the pass. At `main.js:205` the source reads `.length` of `undefined`, which throws a `TypeError`, and the rejection propagates out of `initialObjects`. The model returns the outcome `Aborted(parentId)`. Writes made before the abort remain in the store.

Where the source's own comments and its code disagree, the model follows the code:

- The comment at `main.js:206` says the custom name is taken "sofern vorhanden" ("if present"), which suggests a fallback to the parent's name when it is absent. The code instead throws when the name is absent (see above). It falls back to the parent's name only for an empty string.
- The comment at `main.js:157` says the reset applies "if the data point has the property 'linked'". The code's test at `main.js:156` (`linked || !linked`) always holds. So every own object with a custom block for the namespace is reset, whatever its `linked` field holds.

Two consequences of the code that are easy to miss:

- The namespace test at `main.js:175` is a substring test. In an instance whose namespace is `ns`, the parent `sensors.temp1` is never visited, because `sensors` contains `ns` (`Scenarios.ShortNamespaceSkipsParent`).
  - In `linkeddevices.0` the same parent is visited, but it is linked only when its custom name is present. With an absent name the pass aborts (`Scenarios.AbsentNameAborts`). `Scenarios.EmptyNameUsesParentName` changes the input to an empty name, and the linked object then takes the parent's name.
- Last write wins separately for the object and for the state. A later parent deriving the same id always replaces the object. It replaces the state only when it has a state itself. So the object at a shared id can name one parent while its state holds an earlier parent's value (`Scenarios.ObjectAndStateFromDifferentParents`, `ReconcileProofs.WrittenStateByLastStateWriter`).

## Model

| member | source | states |
|---|---|---|
| LinkIds.LinkedObjectId | main.js:247-251 | The derived id is the namespace, a dot, and the configured id, with nothing trimmed. It lies in the adapter's own namespace, and dropping the namespace and dot gives back the configured id. |
| LinkIds.LinkedObjectIdInjective | main.js:247-251 | Two configured ids derive the same linked id only if they are equal. |
| LinkIds.LinkedObjectIdIllegalIff | main.js:183-185 | The derived id matches `[*?"'\[\]]` exactly when the namespace or the configured id holds one of those characters. |
| LinkIds.ContainsAt | main.js:175 | The namespace test `indexOf(ns) !== -1` holds exactly when the namespace occurs at some position of the id: a substring test, not a prefix test. |
| LinkIds.NotContainsFirstChar | main.js:175 | An id that lacks the namespace's first character does not contain the namespace. |
| LinkIds.OwnIdContainsNamespace | main.js:175 | An own id (`<namespace>.<rest>`) contains the namespace, so generation never takes an own object for a parent. |
| Reconcile.ResetObject | main.js:155-160 | The reset copy of an own object has `linked: false` in its own custom block. Every other field of the object and of the block is unchanged, and so are the blocks of other namespaces. |
| Reconcile.Reset | main.js:149-164 | The reset loop never removes an object from the store. |
| Reconcile.ResetStep | main.js:153-162 | One step of the reset loop changes only the enumerated id. When the snapshot's object has a custom block for the namespace, it writes back exactly that object's reset copy (`ResetObject`), whose block says `linked: false`. Otherwise it changes nothing. |
| Reconcile.ConfigErrorOf | main.js:175-187 | A visited object gets a configuration error exactly when it is a candidate (foreign id, enabled block) whose configuration fails a check. The error names that object. |
| Reconcile.ResolveName | main.js:203-214 | The name is absent (the source throws) exactly when the custom name is absent. An empty custom name falls back to the parent's `common.name`. A non-empty custom name is used as is. |
| Reconcile.Visit | main.js:172-193 | A visit aborts exactly when the parent reaches the builder without a custom name, and then leaves the store untouched. A parent that does not reach the builder writes no object and no state. One that does logs nothing. The full effect is in `ReconcileProofs.VisitEffect`. |
| Reconcile.Create | main.js:200-233 | The builder aborts with the store untouched exactly when the custom name is absent. Otherwise it writes only at the derived id: there the object carries `{parentId, linked: true}`, and there is a state exactly when the parent has one or the id had one already. It never logs. |
| Reconcile.BuildLinkedObject | main.js:216-224 | Builds the object the builder stores. Its shape is stated by `ReconcileProofs.LinkedObjectShape`. |
| Reconcile.LinkedState | main.js:230-233 | The state the builder writes is the parent's value with `ack = true`. It is used by `ReconcileProofs.PassRelinks` and `ReconcileProofs.PassLinkState`. |
| Reconcile.Generate | main.js:169-195 | The generation loop, stopping at the first abort. Its effect is stated by `ReconcileProofs.GenerateOverlay` and `ReconcileProofs.GenerateOutcome`. |
| Reconcile.Pass | main.js:130-144 | Reset, then generation over the reset store. Its effect is stated by `ReconcileProofs.PassEffect`. |
| ReconcileProofs.ResetEffect | main.js:149-164 | After the reset loop, every enumerated own object with a custom block is its reset copy. Every other key, including own objects without a block, is as before (not written). |
| ReconcileProofs.ResetObjectIdempotent | main.js:155-160 | Resetting an already reset object changes nothing. |
| ReconcileProofs.VisitSkips | main.js:175-176 | An object whose id contains the namespace, or that has no custom block for it, or whose block is disabled, leads to no write, no log entry and no abort. |
| ReconcileProofs.VisitRejects | main.js:178-187 | A candidate with a missing or empty `id` logs `MissingLinkId(parent)`. One whose derived id is illegal logs `InvalidLinkId(parent, derived id)`. Either way there is no object or state write and the scan continues. |
| ReconcileProofs.LinkedObjectShape | main.js:217-224 | The built object has the parent's type, and the parent's common with its other fields and every other namespace's block. It has the resolved name, the provenance description, and `{parentId, linked: true}` as its own block. It has no native part. |
| ReconcileProofs.VisitEffect | main.js:171-191 | One visit either aborts with the store untouched (a linkable parent without a custom name). Otherwise it overlays the object and state that parent writes and appends its log entry. |
| ReconcileProofs.WritesAgree | main.js:175-191 | For a parent id outside the namespace, what a visit writes and logs, and whether it aborts, depend only on the parent object and that parent's own state. For an id inside the namespace they depend on nothing. |
| ReconcileProofs.OverlaysAgree | main.js:169-195 | Two snapshots that agree at every enumerated id outside the namespace make generation write, log and abort alike. |
| ReconcileProofs.LinkTargetContainsNamespace | main.js:247-251 | Every derived id is an own id and contains the namespace. |
| ReconcileProofs.VisitKeepsParentStates | main.js:230-233 | A visit never changes the state of an id outside the namespace, so every parent's state is read unchanged during generation. |
| ReconcileProofs.GenerateOverlay | main.js:169-195 | Generation leaves the objects overlaid with `WrittenObjects`, a later parent overriding an earlier one. It leaves the states overlaid with `WrittenStates`, and the log extended by `ErrorLog`. All three stop at the first abort. |
| ReconcileProofs.GenerateOutcome | main.js:171-190 | Generation completes exactly when no enumerated parent reaches the builder without a custom name. When it aborts, it names such a parent. |
| ReconcileProofs.OwnIdWritesNothing | main.js:175 | An enumerated id that contains the namespace writes, logs and aborts nothing. |
| ReconcileProofs.ObjectsIgnoreOwn | main.js:175 | The objects generation writes depend only on the enumerated ids outside the namespace, in their order. |
| ReconcileProofs.StatesIgnoreOwn | main.js:175 | The states generation writes depend only on the enumerated ids outside the namespace, in their order. |
| ReconcileProofs.ErrorsIgnoreOwn | main.js:175 | The log generation writes depends only on the enumerated ids outside the namespace, in their order. |
| ReconcileProofs.AbortsIgnoreOwn | main.js:175 | Whether generation aborts depends only on the enumerated ids outside the namespace. |
| ReconcileProofs.WriteKeys | main.js:217-233 | A visit writes at most one object, at the derived id. It writes it whenever the parent reaches the builder with a name. It writes a state only where it writes an object. |
| ReconcileProofs.WrittenKeysDerived | main.js:201-227 | Every id generation writes an object at is an own id derived by some enumerated parent that reaches the builder. |
| ReconcileProofs.WrittenStatesKeys | main.js:227-233 | Generation writes a state only at ids where it writes an object. |
| ReconcileProofs.WrittenCoversDerived | main.js:171-190 | Without an abort, every id derived by an enumerated parent that reaches the builder receives an object. |
| ReconcileProofs.WrittenIffWritesAt | main.js:171-193 | Generation writes an object at an id exactly when some enumerated parent derives it, reaches the builder with a name, and comes before every aborting parent. |
| ReconcileProofs.WrittenByLastWriter | main.js:171-190 | Without an abort, the object at a derived id is the linked object of the last parent deriving it (last write wins). The state there is that parent's value, acknowledged, when that parent has a state. When it has none and some deriving parent has a state, a last such parent exists, comes earlier, and the state is its value, acknowledged. When no deriving parent has a state, no state is written. |
| ReconcileProofs.WrittenObjectByLastWriter | main.js:171-190 | Without an abort, the object written at a derived id is the linked object of the last parent deriving it. |
| ReconcileProofs.WrittenStatesDerived | main.js:230-233 | Generation writes a state at an id only if some enumerated parent that derives the id has a state. |
| ReconcileProofs.WrittenStateByLastStateWriter | main.js:171-190 | Without an abort, the state written at a derived id is the acknowledged value of the last parent that derives the id and has a state, even when a later parent without a state rewrote the object. |
| ReconcileProofs.LastStateWriterExists | main.js:171-190 | Every id derived by an enumerated parent with a state has a last such parent, at or after that one. |
| ReconcileProofs.WrittenStatesCoverDerived | main.js:227-233 | Without an abort, every id derived by an enumerated parent with a state receives a state, whatever parents without a state derive it later. |
| ReconcileProofs.LastWriterExists | main.js:171-190 | Every derived id has a last parent deriving it. |
| ReconcileProofs.ErrorLogSound | main.js:178-187 | Every logged error names an enumerated parent and is exactly that parent's configuration error. |
| ReconcileProofs.ErrorLogExactlyOnce | main.js:178-187 | With distinct enumerated ids and no abort, a parent with a configuration error is logged exactly once, and any other id is never logged. |
| ReconcileProofs.ResetKeepsForeign | main.js:149-164 | The reset changes no object outside the namespace. |
| ReconcileProofs.PassEffect | main.js:130-144 | The pass, stated on the store it starts from, gives four things. Objects: the own objects are reset, then overlaid with what generation writes. States: the parents' states are copied. Log: the configuration errors are appended. Outcome: the pass completes exactly when no parent aborts. |
| ReconcileProofs.PassLinkedOnlyIfDerived | main.js:136-137 | After a pass, an own object whose custom block says `linked: true` has an id that generation wrote in this pass. Some enumerated parent derived it and reached the builder with a name before any parent aborted the pass. |
| ReconcileProofs.PassRelinks | main.js:171-190 | After a completed pass, each derived id holds the last deriving parent's linked object, which says `linked: true` and names that parent. Its state is that parent's value with `ack = true` when the parent has a state. |
| ReconcileProofs.PassLinkState | main.js:227-233 | After a completed pass, the state at a derived id is the acknowledged value of the last deriving parent that has a state. |
| ReconcileProofs.PassNoStateWritten | main.js:230-233 | When no enumerated parent deriving an id has a state, the pass leaves the state at that id as it was: absent stays absent. |
| ReconcileProofs.PassKeepsForeign | main.js:130-144 | A pass leaves objects and states unchanged at every id outside the namespace. |
| ReconcileProofs.SecondPassWritesSame | main.js:169-195 | A second pass over the first pass's result, with the same foreign ids in the same order, writes, logs and aborts as the first. |
| ReconcileProofs.ResetAgainUnderOverlay | main.js:149-164 | Resetting again a store that was reset and overlaid with linked objects, then overlaying them again, gives that store back. |
| ReconcileProofs.PassAgainKeepsObjects | main.js:130-144 | A second pass over a pass's result, enumerating the same foreign ids in the same order, leaves the objects as they were. |
| ReconcileProofs.PassAgainKeepsStates | main.js:130-144 | A second pass over a pass's result, enumerating the same foreign ids in the same order, leaves the states as they were. |
| ReconcileProofs.PassIdempotent | main.js:130-144 | A second pass over the store left by a completed pass, with the same foreign ids in the same order, also completes. It leaves objects and states unchanged and logs the same configuration errors again. |
| Adapter.Linkeddevices.ResetLinkedObjectsStatus | main.js:149-164 | The loop over the enumerated own ids leaves the objects as `Reset` of the enumeration snapshot, and the states and the log unchanged. |
| Adapter.Linkeddevices.GenerateLinkedObjects | main.js:169-195 | The scan over the enumerated ids leaves the store, the log and the outcome as `Generate` of the snapshot describes. It returns at the first abort. |
| Adapter.Linkeddevices.CreateLinkedObject | main.js:200-242 | The builder leaves the store and outcome as `Create` describes. Without a custom name it aborts before writing. Otherwise it upserts the linked object, then writes the acknowledged state if the parent has one. |
| Adapter.Linkeddevices.InitialObjects | main.js:130-144 | The reset then generation leave the store and outcome as `Pass` describes. |
| Scenarios.ParentIsLinkable | main.js:175-185 | In instance `linkeddevices.0`, `sensors.temp1` configured as `livingroom.temp` is a candidate. It derives `linkeddevices.0.livingroom.temp` and passes both checks. |
| Scenarios.EmptyNameUsesParentName | main.js:205-233 | With an empty custom name, the pass completes. The linked object has the parent's name `Temp1`, the provenance description, `{parentId: sensors.temp1, linked: true}` and no native part. Its state is 21.5, acknowledged. Nothing is logged. |
| Scenarios.AbsentNameAborts | main.js:205 | With no custom name the pass aborts at that parent and writes nothing. |
| Scenarios.ShortNamespaceSkipsParent | main.js:175 | In namespace `ns`, the id `sensors.temp1` contains `ns`, so the pass leaves the store as it was and completes. |
| Scenarios.TParentIsLinkable | main.js:175-185 | The parents `a.x` and `b.x`, both configured as `t` in `linkeddevices.0`, pass both checks and derive `linkeddevices.0.t`. |
| Scenarios.ObjectAndStateFromDifferentParents | main.js:171-233 | Enumerating `a.x` (with state 1.0) then `b.x` (without a state), the pass completes. The object at `linkeddevices.0.t` names `b.x`, while its state is `a.x`'s 1.0, acknowledged. |

## Left out

- The template state and `subscribeStates('*')` in `onReady` (`main.js:50-63`): setup boilerplate, not part of the pass.
- `unsubscribeForeignStates('*')` at `main.js:134` and the commented-out subscriptions at `main.js:238-241`: notification plumbing, with no effect on objects, states or the log.
- `onObjectChange`, `onStateChange`, `onUnload` and the event wiring in the constructor (`main.js:19-31`, `91-128`): they register handlers, log, or call back. None of them touches objects, states or the configuration-error log.
- `dicParentId` (`main.js:30`): the constructor sets it to an empty object, and nothing fills it.
- Log texts and debug logs: errors are abstract entries (kind, parent id, and the derived id for an illegal id).
- Asynchrony: every awaited store call, the `setForeignState` at `main.js:232` included, is a sequential step whose write takes effect at once.
- Store failures: store reads and writes never fail in the model.
- The store library behind `getAdapterObjectsAsync`, `getForeignObjectsAsync`, `setForeignObjectAsync`, `getForeignStateAsync` and `setForeignState` is not part of this model. It is replaced by the two maps, with full-replace upsert.
  - Enumeration order is a parameter.
  - The reset's enumeration is assumed to list exactly the own objects (`EnumeratesOwn`).
  - Generation's enumeration `getForeignObjectsAsync('')` is assumed to list objects of the store.
- Objects without `common` or `common.custom`, and a custom block that is `null`, are modelled as having no custom block for the namespace.
- Non-string values of `id`, `name` and `common.name` are not modelled. `enabled` is its truthiness, a boolean.
- State metadata (timestamps, `from`, `lc`, `q`) is not modelled. A state is its value and its `ack` flag.
- The in-memory aliasing `linkedObj.common = parentObj.common` (`main.js:219`) is not modelled. The builder does modify the parent's snapshot copy in memory. But that copy is never written back or visited again, so value semantics give the same store.
- The linked object's `native` part: the source builds the object without a `native` key (`main.js:221` is commented out). The model has no notion of an absent key here, so it stores an empty `native` map.
- `module.exports` and the direct start (`main.js:273-282`): process wiring.
- ReconcileProofs.PassRelinks: stated for passes that complete. After an abort, the same holds for the parents before the aborting one (by `GenerateOverlay` and `GenerateOutcome`), but it is not stated as a lemma of its own.
- ReconcileProofs.PassIdempotent: requires the second enumeration to list the same foreign ids in the same order. The store's listing order is not modelled, so this is an assumption about it.
