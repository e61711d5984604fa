# standardSchemaValidator, modelled in Dafny

A model of `src/standard-schema/index.ts` from svelte-simple-form-validators.
That file adapts a Standard Schema validator (an opaque, asynchronous "validate
this value, return issues" engine) to a svelte-simple-form form: it converts
the engine's flat issue list into an error map from dotted path to messages,
guards against stale asynchronous results with per-call tokens, and
reconciles the result into the form's errors, for the whole form
(`validateForm`) or for one field, its configured dependents and their
children (`validateField`).

Files, one module each:

- `wrappers.dfy` (`Wrappers`): `Option` and map `Lookup`.
- `issues.dfy` (`Issues`): the `Issue` datatype, `convertIssues` as a method
  (`ConvertIssues`) proved against the fold `Convert`, and lemmas relating it
  to an independent filter definition (`MessagesFor`) and a message count
  (`TotalMessages`).
- `reconcile.dfy` (`Reconcile`): the clear-then-set policy of `validateField`
  as functions (`Cleared`, `DirectErrors`, `ChildErrors`, `ApplyField`, and
  `ApplyFields` over all fields to check). The lemmas compare the result with
  a reference definition (`Promised`) of what each key must hold.
- `form.dfy` (`Form`): the `FormControl` class, an error map and an
  `isValidating` flag with the four mutators the validators call.
- `validation.dfy` (`Validation`): the `Validator` class. It holds the
  dependency configuration and the two token registries, `latestFormCall`
  and `latestCall`. Each async operation is split at its `await` into a
  `Begin…` method and a `Finish…` method, and the engine's result is a
  parameter of the `Finish…` method. The loops of `validateField` are the
  methods `ReconcileFields`, `ReconcileField`, `ClearCovered` and `SetAll`.
- `scenarios.dfy` (`Scenarios`): whole calls driven end to end. They cover
  overlapping calls on one field, independent form and field registries, a
  dependency cascade and a list field's summary message.

Three behaviours of the code worth noting:

- On a current `validateField` call whose result has no issues, the code
  removes the error at the field and returns `true`. It does not reset the
  validating flag (lines 73-76), and `FinishValidateField` states exactly that.
- `!result.issues` is false for an empty `issues` array. So a result carrying
  `issues: []` takes the issues path. `validateForm` then returns `false` with
  an empty error map. `validateField` then clears the checked fields and
  their children, resets the flag and returns `true`.
  `SchemaResult.Failed([])` models that case.
- Only the hierarchical clear-then-set policy is in the code. The
  touched-gated policy is not.

## Model

| member | source | states |
|---|---|---|
| `Issues.IssueKey` | src/standard-schema/index.ts:22 | an issue whose dotted path is absent or `""` is filed under `"_form"`; every other issue under its dotted path |
| `Issues.ConvertIssues` | src/standard-schema/index.ts:18-27 | the dictionary-filling loop computes exactly `Convert(issues)`, the issues filed one after another |
| `Issues.ConvertIsFilter` | src/standard-schema/index.ts:21-24 | the list at each key is the messages of the issues with that key, in issue order, duplicates kept; a key is present iff that list is non-empty |
| `Issues.ConvertKeys` | src/standard-schema/index.ts:21-24 | the keys of the converted map are exactly the keys of the issues |
| `Issues.ConvertNonEmpty` | src/standard-schema/index.ts:23 | every key of the converted map carries a non-empty message list |
| `Issues.ConvertFilesEach` | src/standard-schema/index.ts:22-23 | each issue's message appears in the list at that issue's key |
| `Issues.ConvertTotal` | src/standard-schema/index.ts:21-24 | the converted map holds as many messages, over all keys, as there are issues |
| `Issues.ConvertSingle` | src/standard-schema/index.ts:18-27 | one issue yields one entry holding its message |
| `Issues.ConvertExample` | src/standard-schema/index.ts:18-27 | issues at `user.name` and with no path convert to `{"user.name": ["required"], "_form": ["form invalid"]}` |
| `Reconcile.HasAnyErrorIff` | src/standard-schema/index.ts:118-119 | with non-empty lists, `hasAnyError` for a field holds iff the run's map has an entry at the field or under `field + "."` |
| `Reconcile.ApplyFieldFrame` | src/standard-schema/index.ts:87-138 | reconciling one field leaves every key that is neither the field nor under it unchanged |
| `Reconcile.ApplyFieldCovered` | src/standard-schema/index.ts:87-137 | after one field is reconciled, every key at or under it holds only what the run's map gives: the direct messages verbatim at the field, else the summary when some child has errors, else nothing; each child its own messages verbatim; no earlier entry survives |
| `Reconcile.ApplyFieldsFrame` | src/standard-schema/index.ts:82-139 | keys covered by none of the checked fields keep their earlier entry |
| `Reconcile.ApplyFieldsAt` | src/standard-schema/index.ts:82-139 | after all checked fields, a key holds its earlier entry if no checked field covers it, otherwise what the run's map gives for the last checked field covering it |
| `Reconcile.ApplyFieldsForgetsPrior` | src/standard-schema/index.ts:84-91 | at keys covered by a checked field the result does not depend on the earlier errors (clear first, unconditionally) |
| `Reconcile.ApplyFieldsKeepsNonEmpty` | src/standard-schema/index.ts:124-137 | reconciliation only ever sets non-empty lists (direct messages when there are some, the one-message summary, converted child lists), so a form whose lists are all non-empty stays so |
| `Reconcile.AllClearIff` | src/standard-schema/index.ts:118-125 | the loop's `valid` is true iff no checked field has an entry at or under it in the run's map |
| `Form.FormControl.SetErrors` | src/standard-schema/index.ts:44 | `setErrors` replaces the whole error map and leaves the flag |
| `Form.FormControl.SetError` | src/standard-schema/index.ts:129 | `setError` sets one path's messages and touches nothing else |
| `Form.FormControl.RemoveError` | src/standard-schema/index.ts:89 | `removeError` drops one path's entry and touches nothing else |
| `Form.FormControl.SetIsValidating` | src/standard-schema/index.ts:39 | `setIsValidating` sets the flag and leaves the errors |
| `Validation.Validator.constructor` | src/standard-schema/index.ts:29-30 | a new validator has no form token and an empty per-field registry |
| `Validation.Validator.FieldsToCheck` | src/standard-schema/index.ts:32-34 | the field first, then exactly its configured dependents in configured order; `[field]` when none are configured |
| `Validation.Validator.BeginValidateForm` | src/standard-schema/index.ts:37-44 | sets the flag, mints a token newer than every earlier one, makes it the only current form token, leaves the field registry alone, and empties the errors |
| `Validation.Validator.FinishValidateForm` | src/standard-schema/index.ts:46-59 | a superseded call returns false and changes nothing; with no issues it returns true, keeps the errors and clears the flag; with issues it returns false, sets the errors to the converted map and clears the flag; every list of the form stays non-empty if it was |
| `Validation.Validator.BeginValidateField` | src/standard-schema/index.ts:62-67 | sets the flag and mints a token newer than every earlier one; that token becomes the only current one for the field, with other fields and the form slot unchanged |
| `Validation.Validator.FinishValidateField` | src/standard-schema/index.ts:69-143 | a superseded call returns false and changes nothing; with no issues only the field's own entry is removed, true is returned and the flag is left set; with issues the errors become the reconciliation over the fields to check, the flag is cleared and the result is their joint validity; every list of the form stays non-empty if it was |
| `Validation.ReconcileFields` | src/standard-schema/index.ts:80-139 | the loop over the fields to check reconciles each in order and ANDs their validity |
| `Validation.ReconcileField` | src/standard-schema/index.ts:82-138 | one loop pass: clear the field and its children, then set the direct messages or the summary, then every child entry |
| `Validation.ClearCovered` | src/standard-schema/index.ts:87-91 | removing over a snapshot of the keys deletes exactly the entries at or under the field |
| `Validation.SetAll` | src/standard-schema/index.ts:135-137 | setting the child entries one by one overlays them on the errors |
| `Scenarios.SupersededFieldCall` | src/standard-schema/index.ts:66-76 | two overlapping calls on `email`: in either order of resolution the older returns false and the newer's "no issues" result wins, leaving no `email` error |
| `Scenarios.FormCallSurvivesFieldCall` | src/standard-schema/index.ts:29-55 | a field call begun while a form call is pending does not supersede it |
| `Scenarios.DependencyCascade` | src/standard-schema/index.ts:32-138 | validating `password` with dependent `confirmPassword` and an issue only on the latter removes the stale `password` error, sets the `confirmPassword` one and returns false |
| `Scenarios.ListSummary` | src/standard-schema/index.ts:87-137 | validating `items` with an issue only at `items.0.name` sets the one summary message on `items`, the original message on `items.0.name`, and removes the stale `items.3.name` error |

## Left out

- The schema engine call and its Promise handling (lines 13-17) are a foreign asynchronous call. The engine's result is the `result` parameter of the `Finish…` methods instead.
- `getDotPath` from `@standard-schema/utils` is not part of this model. An `Issue` carries its result as `dotPath: Option<string>`. The model assumes it is `None` for a missing or unrenderable path and the dotted string otherwise.
- FormControlContext from svelte-simple-form is not part of this model. `FormControl` assumes that `setErrors`, `setError`, `removeError` and `setIsValidating` replace, set, delete and set as their names say. `form.data` is left out because it only feeds the engine.
- Concurrency and `Symbol` identity are replaced by a counter that mints a new token per call, and by the begin/finish split at the `await`. Interleavings are whatever order a caller invokes the methods in.
- The `force` parameter of `validateField` is unused by the code, and is left out.
- Exceptions thrown by the engine are not handled by the code, and are left out. On that path the flag stays set.
- The order of `Object.keys`/`Object.entries` is not modelled. The removal and child-setting loops visit a key set in arbitrary order, and their result does not depend on it. `allChildMsgs` is only tested for non-emptiness, so it is modelled as "some child list is non-empty".
- The maps are Dafny maps, so plain-object quirks of the three JavaScript objects used as dictionaries are not modelled:
  - In the error maps, a path equal to an inherited property name such as `constructor` makes `errors[path] ??= []` find a non-array. Message arrays are also shared between the converted map and the form.
  - In `latestCall` (lines 30, 67, 71), a field named `__proto__` hits the prototype setter at line 67 and nothing is stored. Line 71 then always returns false, while `BeginValidateField` and `FinishValidateField` treat that token as current.
  - In `dependencies` (line 33), when dependencies are configured and the field is named after an inherited property such as `constructor`, `dependencies[field]` is a function rather than nullish. Spreading it throws a TypeError on the issues path, while `FieldsToCheck` returns `[field]`.
