# NiftyNet application variables, modelled in Dafny

This project models `niftynet/engine/application_variables.py`. That module
holds the bookkeeping an application driver does while it builds a
TensorFlow graph on one or more devices:

- **`GradientsCollector`** (`gradients.dfy`, module `Gradients`) takes one
  gradient set per device. It refuses a set once every device has
  contributed. It hands out the average of the collected sets, and refuses
  when nothing was collected.
- **`OutputsCollector`** (`outputs.dfy`, module `Outputs`) keeps three
  dictionaries of named tensors: console, network output and TensorBoard
  summaries.
  - A tensor added without averaging is stored under a fresh name. That name
    is `name`, else `name_1`, `name_2`, ... up to the first one that is free.
  - A tensor added with averaging on several devices is appended to a
    per-name list, which holds at most one tensor per device. A name that
    already holds a single tensor is refused. A list that grows past the
    device count is stored first, and then the add fails.
  - Finalising replaces every list by its mean. For the summary dictionary
    it also registers one `<name>_device_average_` scalar summary per
    averaged entry. Last, it merges all registered summaries into the op
    that `variables(TF_SUMMARIES)` returns.
- **`global_vars_init_or_restore`** (`restore.dfy`, module `Restore`) plans
  how the graph's variables are initialised.
  - Registry entries `(scope, checkpoint, checkpoint scope)` are stably
    sorted by scope.
  - Each variable is claimed by the first entry that can restore it: the
    variable is a global variable whose name starts with the entry's scope,
    it is in `var_list`, and the entry's checkpoint lists its renamed name.
    The rename replaces every occurrence of the scope by the checkpoint
    scope and then removes every `:0`.
  - The claimed name is split at its last `/` into the sub-scope and the
    leaf name that the restoring initialiser receives.
  - Every other variable of `var_list` is initialised fresh. A checkpoint
    that cannot be found aborts the whole plan.

`strings.dfy` (module `Strings`) gives the Python string behaviour the
source relies on:
- `str(n)` for the rename suffix;
- ordering of `str` values for the sort;
- `str.replace`, including its treatment of an empty pattern;
- `str.rsplit('/', 1)`;
- `StartsWith`, a plain prefix test that stands in for the scope match of
  `tf.get_collection`, which is a regular-expression match at the start of
  the name (see "Left out").

`wrappers.dfy` holds `Option`, `Result`, `Outcome`, and the `Error`
constructors for the failures the model keeps. `UnknownCollection` stands
for both raises on an unknown tag (lines 168 and 186). The asserts at lines
105 and 109 and the re-raise at line 67 have no constructor; they are
listed under "Left out".

Exceptions become `Err`/`Fail` results. Where the source has already
changed a dictionary before it raises, the model keeps that change too. The
TensorFlow graph operations are modelled as data. A tensor is a value of a
type parameter. `reduce_mean` becomes `Mean(list)`, `average_gradients`
becomes `AveragedGradients(sets)`, and a summary op is a
`SummaryOp(type, tag, value)` record. The graph's summary collection is a
sequence field of the collector.

`_add_to_tf_summary` stores the tensor (lines 218-219) before the
summary-type lookup can fail (line 224), so an unsupported summary type
leaves the tensor stored; see `UnsupportedTypeStillStores`.

## Model

| member | source | states |
|---|---|---|
| `Gradients.GradientsCollector.constructor` | niftynet/engine/application_variables.py:39-41 | a new collector holds no gradients and remembers the device count |
| `Gradients.GradientsCollector.AddToCollection` | niftynet/engine/application_variables.py:43-56 | below the device count the set is appended; at or above it the add fails and nothing changes; at most one set per device is ever held |
| `Gradients.GradientsCollector.CurrentTowerId` | niftynet/engine/application_variables.py:58-64 | computes the index of the next device as the number of sets collected so far |
| `Gradients.GradientsCollector.Gradients` | niftynet/engine/application_variables.py:69-78 | fails exactly when nothing was collected; otherwise averages exactly the collected sets, in device order |
| `Gradients.TwoDeviceScenario` | niftynet/engine/application_variables.py:43-78 | with two devices, the third add fails and the average covers the first two sets |
| `Outputs.BucketOf` | niftynet/engine/application_variables.py:160-169 | a collection tag selects a dictionary exactly when it is one of the three known tags, and each tag selects its own dictionary |
| `Outputs.CandidateInjective` | niftynet/engine/application_variables.py:130-134 | different suffix numbers give different names |
| `Outputs.Candidate` | niftynet/engine/application_variables.py:130-134 | computes the k-th name the rename loop tries: `name` for 0, else `name_k` with k in decimal |
| `Outputs.CandidatesCount` | niftynet/engine/application_variables.py:130-134 | the first n names tried are n distinct names, so the rename loop ends |
| `Outputs.FirstFreeIndex` | niftynet/engine/application_variables.py:130-134 | the suffix chosen is free and every smaller suffix is taken |
| `Outputs.UniqueName` | niftynet/engine/application_variables.py:130-134 | the rename loop returns a name not in the dictionary, with the smallest free suffix |
| `Outputs.AddToDictSpec` | niftynet/engine/application_variables.py:98-136 | renaming path: a fresh key equal to the name or starting with `name_`, bound to the tensor, other keys untouched; averaging path: a single tensor under the name is an error with nothing changed, else the list grows by the tensor and the add succeeds exactly when the old list was shorter than the device count |
| `Outputs.PendingList` | niftynet/engine/application_variables.py:115 | computes `var_dict.get(name, [])` as seen by the averaging path: the list under the name, or empty when there is none; a single tensor under the name is handled by `AddToDictSpec` as the `AttributeError` path |
| `Outputs.AddKeepsListsBounded` | niftynet/engine/application_variables.py:113-127 | a successful add keeps every list within the device count; a full list makes the next add fail and leaves an over-long list stored |
| `Outputs.ThreeAddsOfOneName` | niftynet/engine/application_variables.py:128-136 | three adds of `a` without averaging give `a`, `a_1`, `a_2` |
| `Outputs.AveragedNameTakesOnePerDevice` | niftynet/engine/application_variables.py:113-127 | with two devices, two averaged adds of `loss` succeed and the third fails with the three-element list stored |
| `Outputs.Finalised` | niftynet/engine/application_variables.py:233-237 | a list becomes its mean; anything else is kept |
| `Outputs.Averaged` | niftynet/engine/application_variables.py:227-237 | averaging keeps the keys, leaves no list, keeps every non-list value and turns every list into its mean |
| `Outputs.AveragedIdempotent` | niftynet/engine/application_variables.py:227-237 | averaging twice is the same as averaging once |
| `Outputs.PendingKeysDoneStep` | niftynet/engine/application_variables.py:233-242 | each key the averaging loop visits adds one to the count of lists averaged exactly when its value is a list |
| `Outputs.NoSummariesAfterAveraging` | niftynet/engine/application_variables.py:233-242 | a second averaging pass registers no device-average summary |
| `Outputs.DeviceAverage` | niftynet/engine/application_variables.py:240-242 | computes the summary registered for a list: a scalar tagged `<name>_device_average_` on the mean of the list |
| `Outputs.MergeAll` | niftynet/engine/application_variables.py:199 | merging gives no op exactly when no summary is registered, else all of them |
| `Outputs.OutputsCollector.constructor` | niftynet/engine/application_variables.py:90-96 | three empty dictionaries, no summaries, no merge op |
| `Outputs.OutputsCollector.AddToDict` | niftynet/engine/application_variables.py:98-136 | the chosen dictionary becomes the one `AddToDictSpec` gives, with the key or error it gives; the other dictionaries and the summaries do not change |
| `Outputs.OutputsCollector.AddToTfSummary` | niftynet/engine/application_variables.py:213-225 | the tensor is stored as `_add_to_dict` stores it; a summary op tagged with the returned name is registered only for a single tensor and a supported type; an unsupported type fails after the store; console and output dictionaries unchanged |
| `Outputs.OutputsCollector.AddToCollection` | niftynet/engine/application_variables.py:139-169 | an unknown tag fails and changes no dictionary and registers no summary; a known tag changes only its own dictionary; console and network output register no summary; the summary tag behaves as `_add_to_tf_summary` |
| `Outputs.OutputsCollector.Variables` | niftynet/engine/application_variables.py:171-186 | console and output give their dictionaries as they are at the call; summaries give the merge op once set and an empty dictionary before; any other tag fails |
| `Outputs.OutputsCollector.AverageEntry` | niftynet/engine/application_variables.py:233-242 | one loop pass: a list under the key becomes its mean and, when asked, its device-average summary is appended; any other value and the other dictionaries are unchanged |
| `Outputs.OutputsCollector.AverageVariablesOverDevices` | niftynet/engine/application_variables.py:227-242 | the dictionary becomes its average; other dictionaries unchanged; earlier summaries kept; with summary creation, the added summaries are exactly the device averages of the lists that were there, one per list |
| `Outputs.OutputsCollector.FinaliseOutputOp` | niftynet/engine/application_variables.py:188-199 | all three dictionaries averaged; device-average summaries only for the summary dictionary, one per list; the merge op covers every registered summary |
| `OutputsScenarios.LossDeviceAverage` | niftynet/engine/application_variables.py:238-242 | a two-device list under `loss` yields the one summary `loss_device_average_` of its mean, from one list-valued key |
| `OutputsScenarios.AveragedSummaryAfterFinalise` | niftynet/engine/application_variables.py:188-242 | an averaged summary is invisible before finalising; afterwards the merged op is exactly the one device-average scalar |
| `OutputsScenarios.UnsupportedTypeStillStores` | niftynet/engine/application_variables.py:218-225 | an unsupported summary type fails, yet the tensor is already stored under its name |
| `Strings.Decimal` | niftynet/engine/application_variables.py:134 | the suffix is a non-empty string of digits without a leading zero |
| `Strings.DecimalRoundTrip` | niftynet/engine/application_variables.py:134 | reading the suffix back gives the number |
| `Strings.DecimalInjective` | niftynet/engine/application_variables.py:134 | different numbers render differently |
| `Strings.StrLe` | niftynet/engine/application_variables.py:254 | computes Python's `<=` on strings: lexicographic by code point, a prefix first |
| `Strings.StrLeTotal` | niftynet/engine/application_variables.py:254 | any two scopes are ordered one way or the other |
| `Strings.StrLeTransitive` | niftynet/engine/application_variables.py:254 | the scope order is transitive |
| `Strings.StrLeAntisymmetric` | niftynet/engine/application_variables.py:254 | scopes ordered both ways are equal |
| `Strings.PrefixLe` | niftynet/engine/application_variables.py:254 | a scope sorts no later than any scope it is a prefix of |
| `Strings.ReplaceAll` | niftynet/engine/application_variables.py:261 | computes `str.replace` without a count: every non-overlapping occurrence, left to right, is replaced; an empty pattern inserts the replacement before every character and at the end |
| `Strings.ReplaceAbsent` | niftynet/engine/application_variables.py:261 | replacing a pattern that does not occur leaves the name unchanged |
| `Strings.ReplaceLeading` | niftynet/engine/application_variables.py:261 | a leading occurrence is replaced and the scan resumes after it |
| `Strings.DropOutputSuffix` | niftynet/engine/application_variables.py:261 | removing `:0` from a name ending in `:0` removes that suffix |
| `Strings.LastIndexOf` | niftynet/engine/application_variables.py:266-269 | the position found holds the character and none follows it; no position means the character is absent |
| `Strings.SplitLast` | niftynet/engine/application_variables.py:266-271 | sub-scope, `/` and leaf give the name back with no `/` in the leaf; a name without `/` has no sub-scope |
| `Strings.SplitLastUnique` | niftynet/engine/application_variables.py:266-269 | splitting `sub/leaf` with a `/`-free leaf gives exactly `sub` and `leaf` |
| `Restore.Filter` | niftynet/engine/application_variables.py:262-263 | a list comprehension with a condition (lines 262-263 and 276) keeps exactly the elements that meet it and is no longer than its input |
| `Restore.InsertByScope` | niftynet/engine/application_variables.py:254 | insertion adds exactly the one entry |
| `Restore.InsertKeepsSorted` | niftynet/engine/application_variables.py:254 | insertion into a sorted list keeps it sorted |
| `Restore.InsertStable` | niftynet/engine/application_variables.py:254 | the inserted entry comes before every entry of its own scope |
| `Restore.SortByScope` | niftynet/engine/application_variables.py:254 | the result is sorted by scope and is a permutation of the registry |
| `Restore.SortByScopeStable` | niftynet/engine/application_variables.py:254 | entries of equal scope keep their registration order |
| `Restore.Rename` | niftynet/engine/application_variables.py:261 | computes the `rename` lambda: every occurrence of the scope becomes the checkpoint scope, then every `:0` is removed |
| `Restore.RenameScopedName` | niftynet/engine/application_variables.py:261 | `scope + rest + ":0"` is renamed to `checkpointScope + rest` when the scope does not recur and no `:` remains |
| `Restore.RestorationFor` | niftynet/engine/application_variables.py:264-271 | the initialiser gets the entry's checkpoint and a `/`-free leaf; sub-scope and leaf rebuild the renamed name |
| `Restore.RestoreNestedName` | niftynet/engine/application_variables.py:261-271 | `scope/sub/leaf:0` is restored as `leaf` from sub-scope `checkpointScope/sub` |
| `Restore.VariablesInScope` | niftynet/engine/application_variables.py:257-258 | holds exactly the global variables whose name starts with the scope |
| `Restore.Matches` | niftynet/engine/application_variables.py:257-263 | an entry can restore a variable exactly when the variable is a global variable in the entry's scope, is in `var_list`, the checkpoint is found, and its renamed name is listed in the checkpoint |
| `Restore.FirstMatch` | niftynet/engine/application_variables.py:255-274 | the position found can restore the variable and no earlier entry can; none found means no entry can |
| `Restore.AncestorCannotRestore` | niftynet/engine/application_variables.py:247-251 | for every registry and variable, no entry whose scope is a proper prefix of the claiming entry's scope can restore the variable |
| `Restore.AncestorSortsEarlier` | niftynet/engine/application_variables.py:254 | in the sorted registry an entry whose scope is a proper prefix of another's comes first |
| `Restore.FirstMatchExtend` | niftynet/engine/application_variables.py:264-266 | one more entry leaves a claimed variable with its entry, otherwise claims it when it matches |
| `Restore.ClaimVariables` | niftynet/engine/application_variables.py:264-274 | the claimed variables are the old ones plus the list; old claims keep their values; new claims get this entry's restoration |
| `Restore.ClaimInOrder` | niftynet/engine/application_variables.py:255-274 | fails exactly when some entry's checkpoint is missing, reporting the first such entry; otherwise each variable is claimed by its first matching entry, with that entry's restoration |
| `Restore.GlobalVarsInitOrRestore` | niftynet/engine/application_variables.py:246-278 | fails exactly when a registered checkpoint is missing, with the first one in scope order; otherwise restores exactly the variables some entry can restore, each from the first entry in scope order, and initialises the rest of `var_list` fresh, in its order; restored and fresh partition `var_list` |
| `Restore.VarListOr` | niftynet/engine/application_variables.py:252-253 | computes `var_list`, or every global variable when it is not given |
| `RestoreScenarios.ParentEntryRestores` | niftynet/engine/application_variables.py:261-271 | `A/B/w:0` through the entry for `A` is `A/B/w` in the checkpoint, restored as `w` from sub-scope `A/B` |
| `RestoreScenarios.ParentSortsFirst` | niftynet/engine/application_variables.py:254 | the entry for `A` sorts before the entry for `A/B` registered earlier |
| `RestoreScenarios.ParentMatchesFirst` | niftynet/engine/application_variables.py:255-266 | of the sorted entries, the one for `A` is the first that can restore `A/B/w:0` |
| `RestoreScenarios.ParentPlan` | niftynet/engine/application_variables.py:264-276 | a plan that agrees with the sorted entries restores only `A/B/w:0`, from `A`, and initialises nothing fresh |
| `RestoreScenarios.ParentScopeClaimsFirst` | niftynet/engine/application_variables.py:246-278 | when entries for `A` and `A/B` can both restore a variable, the ancestor scope `A` restores it |

## Left out

- TensorFlow graph construction is not modelled. `reduce_mean`, `average_gradients`, the `tf.summary.*` builders, `restore_initializer`, `tf.assign`, `variables_initializer` and `tf.group` are recorded as the arguments they receive. Their numerics and graph effects are outside the model.
- `tf.logging.fatal` calls are output only and are left out.
- The `TypeError` branch of `_current_tower_id` is left out: the collected gradients are always a list here.
- The `isinstance(var, tf.Tensor)` and `name is not None` assertions of `_add_to_dict` are left out: the model's types rule both out.
- The source of `look_up_operations` is not part of this model; the model stands in for it with membership in the keys of `SUPPORTED_SUMMARY`, and for its failure with `UnsupportedSummaryType`. Its own exception type and message are not modelled.
- The collector's `summaryOps` field holds only the summaries this collector registers. The graph-wide `TF_SUMMARIES` collection can also hold summaries from other code, and `merge_all` would merge those too. `merge_all` on an empty collection is taken to give no op, as TensorFlow 1 does.
- Outputs.OutputsCollector.Variables: the source returns the dictionary object itself, so a reference fetched earlier also shows later adds and the in-place averaging of `finalise_output_op`. The model returns the dictionary's value at the time of the call; this aliasing is not modelled.
- Outputs.OutputsCollector.AverageVariablesOverDevices: the order of the added device-average summaries is left open, because Python's dictionary iteration order is not fixed for this code. Which summaries are added, and that there is one per list, is stated.
- Outputs.OutputsCollector.FinaliseOutputOp: the order of the added summaries is left open, for the same reason.
- Restore.GlobalVarsInitOrRestore: `tf.get_collection(GLOBAL_VARIABLES, scope=...)` matches the scope as a regular expression at the start of the name. The model uses a plain prefix test, so scopes containing regular-expression metacharacters are outside it.
- `tf.get_collection(RESTORABLE)`, `tf.global_variables()`, `resolve_checkpoint` and `list_variables` read graph and file-system state. They are parameters of the model: the registry, the global variables, and a map from checkpoint name to listed names. The source of `resolve_checkpoint` is not part of this model; the model stands in for its failure to find a checkpoint with `CheckpointNotFound`.
- A variable is modelled by an identity and its name. Its shape and dtype are only passed to the initialiser and are left out.
- Restore.ClaimInOrder: the source reads the entry's variables in scope before it resolves the checkpoint. The model does the same, and the read cannot fail, so the order makes no difference.
