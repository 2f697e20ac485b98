# redux-lzw helper layer in Dafny

This project models the core of redux-lzw, a helper library that derives a
Redux setup from one declarative configuration. A configuration maps item
names to lists of reducer items. Each item declares named actions.

The library has two builds, and the model treats them as one design with a
`Variant` parameter:
- `CommonJs` stands for `src/main.js`.
- `EsModule` stands for `index.js`.

The modelled parts are:
- **the object merger** `merge`/`extend`, with three modes: deep (the default or `true`), shallow (`false`) and `'merge'`, which is deep without array truncation. `promiseData` folds a list of results into one record with it;
- **the type namer** `getActionType`: `action_<key>` in `src/main.js`, `<key>_action` in `index.js`, plus `_error` for the error type;
- **the action compiler** `createAction`/`createActions` and the creators it builds:
  - `baseAction` is sync;
  - `asyncAction` is async, including its settle step;
  - service lookup follows a fixed priority order;
  - explicit `type`/`errorType` override the canonical names;
  - later entries override earlier ones;
- **the persistent-map projector** `toMap`/`setMap`, which turns nested plain records into maps and leaves arrays untouched;
- **the reducer compiler** `createReducer`/`createReducers`: a first-match scan over the action entries, with custom, named and default merges, the `errorInfo` branch and the identity fallback;
- **the store filter** of `createStores`, whose polarity is opposite in the two files.

Modelling conventions:
- JavaScript values are the `Values.Value` datatype.
- A function whose body is unknown is `Fn(id)`. What the host computes with it is a Dafny function parameter: `Actions.Call` for services, `Reducers.Host` for custom merges, named map methods and `immutableState`.
- A thrown `TypeError` is `Result.Thrown`.
- Parts the source mutates in place are imperative:
  - `extend`'s loops are the methods `AssignSlot`, `ExtendFields` and `ExtendElems`;
  - the merge target is the class `Merger.Record`;
  - the `reduce` accumulators are loops in `CompileEntries`, `CreateAction`, `CreateActions`, `CreateReducer` and `CreateReducers`;
  - `setMap` is a method;
  - the compiled reducer is `Reducers.Dispatch`, a loop with early returns.
- Each of these methods is proved equal to a specification function, and the properties are proved about those functions.

Where the code and its description differ, the model follows the code. The
comment at src/main.js:42 (and index.js:15) says the default deep merge does
not merge objects inside arrays. The code recurses into non-empty arrays
element by element in both deep modes. The modes differ only in the final
`target.length = source.length` (src/main.js:59-61).

## Model

| member | source | states |
|---|---|---|
| Values.Enumerate | src/main.js:48 | the keys `for...in` visits: a record's own fields, an array's indices as decimal keys, a string's characters; nothing for other values |
| Merger.ModeOf | src/main.js:64-68 | a boolean or the tag 'merge' is taken as the mode, anything else is the target; `false` is shallow and 'merge' keeps lengths |
| Merger.MergeCall | src/main.js:64-72 | the first argument is taken as the mode through `ModeOf`, the next one then being the target; otherwise it is the target and the mode is deep; the target merged with the remaining sources in order is returned |
| Merger.Assign | src/main.js:49-57 | definition of one slot of `extend`: a record or non-empty array in a deep mode resets a mismatched slot and recurses, a defined value is assigned, undefined keeps the slot; its laws are the `MergerLaws` rows |
| Merger.Extended | src/main.js:47-61 | `extend` on a record or array target keeps the source's kind: a record source gives a record, an array source an array |
| Merger.ExtendRecord | src/main.js:47-61 | definition of the top-level `extend` into a record, including `length` for an array source in deep mode; `MergerLaws.ArraySourceSetsLength` and `MergerLaws.ExtendRecordIdempotent` state its properties |
| Merger.MergeAll | src/main.js:69-71 | definition of the left fold of `merge`'s sources; `MergerLaws.LaterSourceWins` states what it promises |
| Merger.AssignSlot | src/main.js:49-57 | one loop iteration equals `Assign`: a record or non-empty array in a deep mode resets a mismatched slot to {} or [] and recurses; a defined value is assigned; undefined leaves the slot |
| Merger.ExtendFields | src/main.js:47-58 | the for...in loop over a record source computes `Extended`: written keys merged, other target keys kept |
| Merger.ExtendElems | src/main.js:47-61 | the loop over an array source computes `Extended`, including holes past the end and the truncation or extension to the source length in deep mode |
| Merger.Record.Extend | src/main.js:47-61 | the record's new fields are `ExtendRecord(old fields, source, mode)`, including `length` for an array source in deep mode |
| Merger.Merge | src/main.js:64-72 | sources are applied left to right into the target, which is returned as the same object |
| Merger.PromiseData | src/main.js:80-90 | an array of results folds into a fresh record by deep merges in list order; any other value is returned unchanged |
| MergerLaws.UndefinedNeverOverwrites | src/main.js:57 | in every mode an undefined or missing source value leaves the target slot as it was, present or absent; the one exception is the `length` key, which an array source sets in deep mode |
| MergerLaws.ShallowReplacesWholesale | src/main.js:49 | in shallow mode each defined top-level value replaces its slot without merging into it; all other slots are untouched |
| MergerLaws.DeepMergesRecords | src/main.js:50-56 | in deep modes a record source value yields a record keeping the old slot's unwritten keys (none if the slot was not a record) plus every defined source key |
| MergerLaws.DeepResetsMismatchedSlot | src/main.js:49-56 | in deep modes a record source value merges into a slot reset to {} when it is not a record, and a non-empty array into a slot reset to [] when it is not an array |
| MergerLaws.DeepArrayTakesSourceLength | src/main.js:53-60 | in deep mode a non-empty array source leaves an array slot of exactly the source's length |
| MergerLaws.KeepLengthDoesNotTruncate | src/main.js:59-61 | in 'merge' mode the array slot's length is the max of its old length and the last written index, and elements past the source are kept |
| MergerLaws.EmptyArrayIsLeaf | src/main.js:49 | an empty array is assigned as a leaf in every mode |
| MergerLaws.ArraySourceSetsLength | src/main.js:59-61 | a top-level array source in deep mode sets the record target's `length` to the source length |
| MergerLaws.LaterSourceWins | src/main.js:69-71 | a defined leaf in the last source decides that key of the result |
| MergerLaws.MergeOfFunctionsIsUnion | src/main.js:207 | merging a record of functions (compiled creators or reducers) is map union with the later record winning |
| MergerLaws.AssignIdempotent | src/main.js:49-57 | merging the same source value into a slot twice equals merging it once |
| MergerLaws.ExtendedIdempotent | src/main.js:47-61 | `extend` with the same source twice equals once, for records and arrays |
| MergerLaws.ExtendRecordIdempotent | src/main.js:47-61 | the top-level extend, including the `length` write, is idempotent |
| MergerLaws.CopyIntoEmpty | src/main.js:49-57 | a deep merge into an empty slot reproduces the source exactly when no record inside it has an undefined field |
| MergerLaws.CopyRecordIntoEmpty | src/main.js:81-85 | a single such record merged into `{}` is that record |
| Naming.GetActionType | src/main.js:98-101 | without the flag only the success type; with it the pair whose error type is the success type plus `_error` |
| Naming.SuccessTypeInjective | src/main.js:99 | different keys never share a success type |
| Naming.ErrorTypeInjective | src/main.js:99 | different keys never share an error type |
| Naming.EsModuleErrorTypeIsNoSuccessType | index.js:73 | with the `<key>_action` template no error type equals any success type |
| Naming.CommonJsErrorTypeIsSuccessType | src/main.js:99 | with the `action_<key>` template the error type of `k` is the success type of `k_error` |
| Config.ReducerName | src/main.js:171 | the item's name when truthy, else the item name; nonempty whenever the item name is |
| Config.ActionsOf | src/main.js:174 | the item's actions record, or the single default entry `{[reducerName]: {}}` |
| Config.GetReducersConfig | src/main.js:155-157 | a bare list as it is, otherwise the `reducers` field |
| Config.StoreItems | src/main.js:344-351 | an item name gets a store exactly when its group holds a list and passes the variant's store test |
| Config.GetsStore | src/main.js:347 | definition of the store test: a list-holding group whose `store` flag passes the variant's test; `Config.StoreItems` and `Config.StorePolarityIsOpposite` state its properties |
| Config.StorePolarityIsOpposite | src/main.js:347 | for a list-holding group the `store !== false` test of src/main.js and the `store === false` test of index.js:316 are complementary |
| Config.CollectLastWins | src/main.js:202 | a key written pair by pair is present iff some pair has it, and it holds the last such pair's value |
| Config.CollectAppend | src/main.js:207 | collecting two runs of pairs is the union of the two namespaces, the later one winning |
| Actions.NormalizeSpec | src/main.js:177-180 | src/main.js keeps exactly records and entries equal to `true` (as `{}`); index.js (index.js:152) keeps every entry |
| Actions.ResolveTypes | src/main.js:183-188 | the canonical pair unless `type` is a string; then that is the success type and the error type is a nonempty `errorType` or `type + "_error"` |
| Actions.ResolveService | src/main.js:190-200 | definition of the service lookup; `ActionsLaws.ResolveServiceIsFirstFunction` proves it equal to the first function among the candidates, with each file's fallback |
| Actions.FirstFunction | src/main.js:190-200 | reference for the service lookup: the first function among the candidates, if any |
| Actions.CompileEntry | src/main.js:176-205 | throws iff index.js meets a null or undefined entry; skips iff src/main.js meets a non-record other than `true`; otherwise keyed by the resolved success type, sync iff `mode` is 'base', with the resolved service and error type |
| Actions.CompileEntries | src/main.js:176-205 | the inner reduce builds the namespace of the entries' pairs, later keys winning, or throws |
| Actions.CreateAction | src/main.js:166-209 | each item's creators merged into one namespace, later items winning |
| Actions.CreateActions | src/main.js:217-227 | every list-holding group compiled under its key and merged, later groups winning; other groups skipped |
| Actions.InvokeSync | src/main.js:148-152 | a sync creator returns its success type with the service's result, or with the argument itself when there is no service function |
| Actions.AsyncRequests | src/main.js:122-127 | the service result as a list (a single value wrapped), or one computation yielding `{param: args}` without a service |
| Actions.SomeRejection | src/main.js:133-135 | the reported error is one of the rejections |
| Actions.Settle | src/main.js:128-137 | all fulfilled gives the success type with the values deep-merged into `{}` in order; otherwise the error type with a rejection; src/main.js resolves or rejects; index.js (index.js:103-111) dispatches, reports an exception from the success dispatch under the error type, and after reporting resolves to false unless that dispatch throws |
| Actions.Recover | index.js:107-111 | the `.catch` handler resolves to false after dispatching the error, unless that dispatch throws, which rejects |
| ActionsLaws.ThunkOutcome | index.js:103-111 | every failure of the index.js thunk (a rejection, or a throwing success dispatch) is dispatched under the error type and the thunk then resolves to false; it rejects only when dispatching an error action throws; a clean dispatch's return value is passed on |
| ActionsLaws.ResolveServiceIsFirstFunction | src/main.js:190-200 | the lookup is the first function among own service, `service[successType]`, `service[actionName]`; otherwise `defaultService` if truthy, else null (index.js:161-169: null) |
| ActionsLaws.VariantsAgreeOnFoundServices | index.js:161-169 | the two files pick the same function whenever one of the three places holds one |
| ActionsLaws.ExplicitTypeOverrides | src/main.js:185-188 | a string `type` becomes the key and success type; without `errorType` the error type is `type + "_error"` |
| ActionsLaws.DefaultActionIsAsync | src/main.js:174-182 | an item without actions compiles to one async creator under the canonical types of its reducer name |
| ActionsLaws.EntriesCoverage | src/main.js:177-180 | index.js throws iff some entry is null or undefined and otherwise yields one creator per entry; src/main.js never throws and yields one per kept entry |
| ActionsLaws.LaterGroupOverrides | src/main.js:217-227 | a later group's creators override earlier ones on every success type it defines |
| ActionsLaws.SyncWithoutServiceEchoes | src/main.js:148-152 | a 'base' entry with no service anywhere yields a creator returning `{type: successType, data: param}` |
| ActionsLaws.PromiseDataExample | src/main.js:80-90 | results `{a:1}` and `{a:2,b:3}` combine to `{a:2,b:3}` |
| ActionsLaws.SingleResultIsDelivered | src/main.js:128-132 | one fulfilled record without undefined parts is delivered unchanged under the success type |
| ActionsLaws.AsyncWithoutServiceDeliversArguments | src/main.js:122-132 | without a service the delivered data is `{param: args}` when no record among the arguments has an undefined field; such fields are dropped by the deep merge |
| Projector.Project | src/main.js:237-241 | a plain record becomes a map with the same keys; everything else is kept as it is |
| Projector.ToMap | src/main.js:234-247 | a map over exactly the enumerated keys of the input, each projected |
| Projector.SetMap | src/main.js:235-244 | the loop filling the fresh target computes the projection of the source record |
| Projector.ToMapOf | src/main.js:246 | `Map(setMap(json, {}))` equals `ToMap(json)` |
| Projector.ToPlainProject | src/main.js:277 | reading a projection back with `toJSON` gives the value again |
| Projector.ToPlain | src/main.js:277 | definition of `toJSON`; `Projector.ToPlainProject` proves it inverts the projection |
| Projector.ToMapRoundTrip | src/main.js:234-247 | `toMap` of a record read back is that record |
| Projector.ProjectRecordFree | src/main.js:237-238 | no plain record survives a projection at any depth |
| Projector.ToMapRecordFree | src/main.js:234-247 | `toMap` leaves no plain record at any depth |
| Projector.ArrayFieldsUntouched | src/main.js:239-240 | an array field is kept as the same plain array |
| Reducers.Decide | src/main.js:267-297 | definition of the first-match scan; `Reducers.DecidePasses` and `Reducers.DecideFindsFirstDecider` characterise it |
| Reducers.Current | src/main.js:266 | definition of the default parameter; `ReducersLaws.UndefinedStateIsInitial` states it |
| Reducers.Reduce | src/main.js:266-299 | definition of the compiled reducer; `Reducers.Dispatch` is proved equal to it, and the `ReducersLaws` rows state its properties |
| Reducers.Combine | src/main.js:283-291 | definition of the default merge at one key; `ReducersLaws.CombineIdempotent` and `ReducersLaws.CombineWithOwnProjection` state its properties |
| Reducers.DefaultMerge | src/main.js:283-291 | definition of `mergeDeepWith` on the state: only record data is merged; `ReducersLaws.DefaultMergeKeepsPrevious` and `ReducersLaws.DefaultMergeReplacesOrDescends` state its properties |
| Reducers.DecidePasses | src/main.js:267-298 | the scan falls through to the end iff every entry is passed over (no throw, no success match, no canonical error match) |
| Reducers.DecideFindsFirstDecider | src/main.js:267-297 | otherwise the verdict comes from the first entry not passed over: a throw, a success match with that entry's spec, or else the error branch |
| Reducers.MergeWith | src/main.js:283-291 | the merged state has the state's keys and the data's keys |
| Reducers.Dispatch | src/main.js:266-299 | the loop with early returns computes `Reduce`: the initial state when the state is missing or undefined, custom, named or default merge on success (each throwing on a state it cannot be called on, a named merge on a null or undefined state), `errorInfo` on error, identity otherwise |
| Reducers.ReducerOf | src/main.js:258-264 | keyed by the reducer name, scanning the item's actions, starting from `immutableState(initialState)` when that is a function, else `toMap(initialState)` |
| Reducers.ReducerPairs | src/main.js:256-302 | one reducer per item, in item order |
| Reducers.CreateReducer | src/main.js:255-303 | the namespace of the items' reducers, later items winning |
| Reducers.CreateReducers | src/main.js:310-320 | every list-holding group's reducers merged, later groups winning |
| ReducersLaws.UndefinedStateIsInitial | src/main.js:266 | a missing or undefined state is replaced by the initial state; every other state is used as passed |
| ReducersLaws.NullStateThrowsOnMatch | src/main.js:275-295 | on a matching entry a null or undefined state throws in every branch, since each reads a property of the state |
| ReducersLaws.NoMatchIsIdentity | src/main.js:298 | with no matching entry the state is returned unchanged, or the initial state when the state is undefined |
| ReducersLaws.LaterEntriesIgnored | src/main.js:267-297 | entries after the deciding one never influence the verdict |
| ReducersLaws.SkippedPrefixIgnored | src/main.js:267-297 | entries passed over can be dropped from the front |
| ReducersLaws.ErrorBranchSetsOnlyErrorInfo | src/main.js:293-296 | a canonical error match keeps every key but `errorInfo` and stores the data there with its plain records converted to maps, as `state.merge` converts a plain argument |
| ReducersLaws.DefaultMergeKeepsPrevious | src/main.js:283-286 | an undefined or null incoming value, or a key the data lacks, keeps the previous value |
| ReducersLaws.DefaultMergeReplacesOrDescends | src/main.js:287-290 | an incoming array is stored as a plain array; an incoming record merges into an existing map, else becomes a map; a defined scalar or function replaces the slot |
| ReducersLaws.CombineWithOwnProjection | src/main.js:283-291 | merging a value into its own projection changes nothing |
| ReducersLaws.CombineIdempotent | src/main.js:283-291 | combining the same incoming value twice equals once |
| ReducersLaws.MergeWithIdempotent | src/main.js:283-291 | dispatching the same data twice through the default merge equals dispatching it once |
| ReducersLaws.CreatorTypeIsHandled | src/main.js:273 | the success type a compiled creator reports is matched by the entry it came from |
| ReducersLaws.CanonicalErrorIsHandled | src/main.js:293 | without an explicit type the creator's error type is canonical and the reducer takes the error branch |
| ReducersLaws.ExplicitErrorTypeIsIgnored | src/main.js:293 | with an explicit non-canonical `type` the creator's `type + "_error"` failures leave the reducer's state unchanged |
| ReducersLaws.CreateReducerLastWins | src/main.js:266 | a reducer name is defined iff some item carries it and holds the last such item's reducer |
| ReducersLaws.LaterGroupReducersOverride | src/main.js:315 | a later group's reducers override earlier groups on every name it defines |

## Left out

- Redux store wiring is left out because it consists of host-framework calls: `reducersToStore`, `combineReducers`, `createStore`, the middleware, the dev-tools hook, `window.__INITIAL_STATE__` and the `otherReducers` merge in `createStores`. Only the store-selection test is modelled.
- `connectStateData` and the React binding are not part of this model.
- Promise scheduling and `console.error` are left out. The async creator's settle step takes the settled outcomes as input.
- Actions.SomeRejection: `Promise.all` reports the rejection that happens first in time. The model picks the first rejection in list order, and its contract only promises one of them.
- Actions.Settle: `dispatch` is a parameter that returns a value or throws; what the store does with the action is not part of this model.
- Reducers.Host: a named map method may throw, for example when the state has no method of that name. Custom merges and `immutableState` are total functions.
- User callbacks are total Dafny functions here, so an exception thrown inside a service, a custom merge or `immutableState` is not modelled. The bodies of services, custom `merge` functions, named map methods and `immutableState` are not known, so they are parameters.
- Reducers.DefaultMerge: The Immutable.js version is not pinned in the modelled files. The model follows Immutable 3, the version the `List.isList(next)` test (src/main.js:287-288) is written for: a plain argument is converted with `fromJS`, so incoming records become maps. Immutable 3 also turns arrays into `List`s; the model keeps them as plain arrays.
- Reducers.DefaultMerge: an incoming array stored under a new key stays a plain array here, where Immutable 3 stores a `List`. A later array at that key is then merged into the `List` by index in Immutable 3, and the merger's `next.toJSON()` never runs: from a state without `items`, data `{items: [1, 2, 3]}` then `{items: [4]}` leaves `List [4, 2, 3]` in the source and `[4]` here.
- Reducers.DefaultMerge: an incoming array over an existing map replaces it here; Immutable 3 merges the list into the map by index.
- Reducers.Combine: an incoming array over an existing map replaces it, where Immutable 3 merges the list in by index, and arrays stay plain instead of becoming `List`s; see the `Reducers.DefaultMerge` lines.
- Reducers.DefaultMerge: undefined or null data leaves the state unchanged, as in Immutable. Other data that is not a record also leaves it unchanged here; Immutable 3 reads an array as a list of `[key, value]` entries and throws on a scalar.
- Reducers.MergeWith: it is the model's deep merge described on the `Reducers.DefaultMerge` lines, with `List`s kept as plain arrays.
- ReducersLaws.DefaultMergeReplacesOrDescends: an incoming array is stated to be stored as a plain array, not as an Immutable `List`; see the `Reducers.DefaultMerge` lines.
- Reducers.Reduce: the error branch stores the data projected by `Project`, following Immutable 3's conversion of `{errorInfo: result.data}` with `fromJS`. Arrays inside stay plain arrays instead of becoming `List`s. Immutable 4 would store the data unconverted.
- ReducersLaws.ErrorBranchSetsOnlyErrorInfo: `errorInfo` holds `Project(result.data)`, the Immutable 3 conversion except that arrays are not turned into `List`s.
- Reducers.Decide: `SuccessMatch` compares `result.type == action.type` as strings. JavaScript's loose coercion, for example a number `type` matching the string "5", is not modelled.
- Reducers.Reduce: `result.type == action.type` is a string comparison. JavaScript's loose coercion, for example a number `type` matching the string "5", is not modelled.
- Projector.ToPlain: `toJSON` is a full conversion back to plain values. Dates and other objects with their own `toJSON` are not modelled.
- Actions.ResolveTypes: a truthy `errorType` that is not a string (which JavaScript would use as the error type) falls back to `type + "_error"`.
- Actions.LooselyTrue: `== true` is modelled for `true` and the number 1 only. Strings such as "1" are not.
- Actions.CompileEntry: `actionConfig.mode != 'base'` (src/main.js:182, index.js:153) is a loose comparison, so a mode such as `['base']` also gives a sync creator. The model gives a sync creator only for the string.
- Actions.NormalizeSpec: src/main.js keeps an entry that is `== true`; only `true` and the number 1 count as such here, not values such as "1" or [1].
- Actions.ResolveService: `service[successType]` and `service[actionName]` (src/main.js:193-196, index.js:164-166) also find members inherited from `Object.prototype`; an action named `toString` gets `Object.prototype.toString` as its service. The services record is a map here, which has no inherited members.
- Merger.ModeOf: `firstObj == 'merge'` is a loose comparison, so an array `['merge']` or an object whose string form is "merge" is also taken as the mode. The model takes only the string.
- Merger.MergeCall: the target must be a record, and the merged record is returned as a value. `Merger.Merge` models the update of the same object in place.
- Values.Enumerate: `for...in` skips array holes but visits elements that are explicitly `undefined`. Both are `Undef` here and both are visited, so `ToMap` of an array with holes has keys that the source's map lacks.
- Values.Enumerate: `for...in` over a string visits UTF-16 code units. A Dafny `char` is a Unicode scalar value, so a string with characters outside the Basic Multilingual Plane has fewer keys here.
- Config.Item: a name is a string, and "" stands for every falsy name. Non-string names are not modelled. Null or undefined items and groups are ruled out by the types; JavaScript throws on them.
- isPlainObject: the prototype check becomes a constructor test, so class instances and objects with a null prototype are not modelled.
- `for...in` order is not modelled: integer-like keys first, otherwise insertion order. Record keys are a map; action entries are a sequence in declaration order.
- Numbers are unbounded integers. Floating point is not modelled.
- Aliasing is not modelled: source records are shared by reference after a shallow assignment, and a later in-place merge into them is visible elsewhere. The merged values are modelled without that sharing.
- Merger.Merge: the target is a record. An array passed as the top-level target is not modelled; every caller in the core passes a record.
