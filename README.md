# Progress-task tree, modelled and proved in Dafny

This project models the progress-tracking core of a small Python logging library.

**Tasks.** A task is a unit of work that reports how complete it is and calls its listeners when its state changes. There are three kinds:
- a `SimpleTask` is a done/not-done flag;
- a `CounterTask` counts towards a length;
- a `MultiTask` is a composite. At construction it subscribes its own `update` on every sub-task. It is done when all its sub-tasks are done, and its completeness is the mean of theirs.

**Operations.** Every task keeps a dictionary from integer ids to listener callbacks:
- `add` stores a listener under a fresh id. The id comes from the allocator `unique_integer_key`.
- `remove` deletes one id.
- `update` takes one step and then calls every listener, but only when the task is not already done.
- `reset` always clears the task and then calls every listener. For a composite, that means resetting each sub-task in order first.

**Formatter.** The library's duration formatter `expand` takes a duration in seconds, here taken as integer milliseconds, and renders it as `"HHh MMm SSs mmmms"`, dropping the leading units while they are zero. The model includes it.

**Files.**
- `utils.dfy` (module `Utils`): the allocator and the formatter.
  - `UniqueIntegerKey` is the allocator's loop, proved against the function `UniqueKey`.
  - `Expand` is the formatter. `Parse` reads its output back.
- `tasks.dfy` (module `Tasks`): the tasks, and the meaning of every operation on the value of the whole tree:
  - `UpdateRun` and `ResetRun`;
  - `IsDone` and `CompletenessOf`;
  - `Notify`, the external listeners one round of notifications calls, in order.

  The class `TaskTree` holds the tasks and is the mutable store. Its methods are the operations of the source: `Add`, `Remove`, `Update`, `Reset`, `Completeness` and the three constructors. Each method is proved to produce exactly the state and the listener calls that the functions describe.
- `task_properties.dfy` (module `TaskProperties`): what the tree promises, proved about those functions. That covers ids, the update guard, counter runs, aggregation, propagation through composites and the effect of `reset`.

**How the tree is stored.** All tasks live in one `TaskTree`, and a task is referred to by its index in `TaskTree.tasks`.
- A composite is built after its sub-tasks, so every sub-task has a smaller index than its composite.
- A listener `Parent(owner)` always points to a larger index, and only a composite's `update` can be a listener inside the tree. `Tasks.TaskTree.Add` demands the same of every listener it adds. Index order is therefore a rank that strictly rises along every listener edge, and that is what keeps the task graph acyclic and every `update` terminating.
- Listeners outside the tree are `External(tag)` values. Every call of one is appended to the ghost log `TaskTree.fired`.
- The dictionary is a sequence of `(id, listener)` entries in insertion order, matching the iteration order of a Python dict. `AsMap` gives it as a map.

**Consequences of the code worth knowing:**
- The allocator does not hand out the smallest free id. It returns one below the first key that breaks the chain 1, 2, 3, …, which is the top of the first gap. For the keys {1, 4} it returns 3, not 2 (`Utils.UniqueKeyExamples`).
- Resetting a composite can call the composite's listeners several times. Every sub-task's `reset` calls the composite's `update`. When that sub-task is a leaf, it is not done right after its reset, so neither is the composite, and that `update` notifies the composite's listeners. The composite then notifies them once more itself: |sub-tasks| + 1 rounds for a composite over distinct leaf sub-tasks whose only listener is the composite's `update` (`TaskProperties.ResetFanOut`). A leaf listed twice holds two subscriptions and is also reset twice, so it contributes more rounds. A sub-task that is itself a composite without sub-tasks stays done through its reset, so its reset does not by itself make the composite not done.
- Completeness is not confined to [0, 1]: a counter whose length is not whole overshoots, so length 2.5 stops at progress 3 with completeness 1.2 (`TaskProperties.CounterOvershoot`). A leaf is done exactly when its completeness is at least 1.0 (`Tasks.IsDone`). A composite is not: it can have completeness exactly 1.0 without being done (`TaskProperties.MeanOneNotDone`).

## Model

| member | source | states |
|---|---|---|
| Utils.UniqueIntegerKey | src/logger/utils.py:1-7 | the loop over the sorted keys returns `UniqueKey(keys)`; that id is not a key, and it is at least 1 when every key is |
| Utils.SortedKeys | src/logger/utils.py:3 | `sorted(dictionary.keys())` has one entry per key |
| Utils.SortedKeysSpec | src/logger/utils.py:3 | the sorted keys are strictly increasing and hold exactly the keys |
| Utils.SortedKeysUnique | src/logger/utils.py:3 | any strictly increasing sequence of exactly the keys is that sorted sequence |
| Utils.UniqueKeyEmpty | src/logger/utils.py:2-7 | with no keys the loop does not run and the id is `prev + 1 = 1` |
| Utils.UniqueKeyFresh | src/logger/utils.py:1-7 | the id `UniqueKey` (the scan `Scan` over the sorted keys) allocates is never an existing key |
| Utils.UniqueKeyPositive | src/logger/utils.py:1-7 | if every key is at least 1, so is the allocated id; ids handed out from an empty dictionary stay positive and distinct |
| Utils.UniqueKeyDense | src/logger/utils.py:3-7 | when the keys are exactly 1..n the id is n + 1 |
| Utils.UniqueKeyGap | src/logger/utils.py:4-5 | when the first break of the unit-step chain is at sorted position g, the id is one below the key there |
| Utils.UniqueKeyNoGap | src/logger/utils.py:6-7 | when the chain never breaks, the id is one above the largest key |
| Utils.UniqueKeyExamples | src/logger/utils.py:3-7 | {1,3} gives 2, {2,3} gives 1, {1,4} gives 3 (the top of the gap, not the smallest free id) |
| Utils.Decimal | src/logger/utils.py:16-22 | the decimal digits of n: all digits, reading back to n, no leading zero |
| Utils.ZeroPad | src/logger/utils.py:16-22 | `{:0Nd}` of a non-negative n: digits reading back to n, of length max(N, number of digits) |
| Utils.FormatSigned | src/logger/utils.py:16-22 | `Format`, the `{:0Nd}` field of any integer: a leading `-` exactly for a negative n, then digits reading back to abs(n); the width counts the sign, so the length is max(N, sign + number of digits) |
| Utils.Split | src/logger/utils.py:12-14 | the three floor `divmod`s: `h*3600000 + m*60000 + s*1000 + ms` equals the clock, with ms < 1000, s < 60, m < 60, and h >= 0 exactly when the clock is |
| Utils.SplitUnique | src/logger/utils.py:12-14 | the decomposition is the only one with those bounds |
| Utils.Render | src/logger/utils.py:15-22 | the if/elif chain always ends with `"ms"` |
| Utils.Expand | src/logger/utils.py:10-22 | `expand` of an integer millisecond clock always ends with `"ms"` |
| Utils.ExpandShape | src/logger/utils.py:15-22 | hours appear iff h != 0, minutes iff h or m != 0, seconds iff h, m or s != 0, milliseconds always; the ms token is exactly 3 digits, the s and m tokens at least 2 digits, h padded to at least 2 |
| Utils.RenderShape | src/logger/utils.py:15-22 | the same on the decomposed fields |
| Utils.ParseExpand | src/logger/utils.py:10-22 | formatting loses nothing: reading the tokens back gives the clock |
| Tasks.TaskTree.NewSimpleTask | src/tasks.py:53-56 | appends a not-done flag task with no listeners, named `name or "task"` |
| Tasks.TaskTree.NewCounterTask | src/tasks.py:71-75 | appends a counter at progress 0 with the given length and no listeners |
| Tasks.TaskTree.NewMultiTask | src/tasks.py:93-98 | subscribes the new composite's `update` on each sub-task in order, through `add`, and records the sub-tasks in that order: the tasks become `Subscribe(...)` plus the new composite, whose properties are proved by `TaskProperties.SubscribeKeeps`, `SubscribeWellFormed` and `FreshComposite` |
| Tasks.TaskTree.Add | src/tasks.py:17-20 | stores the listener under `unique_integer_key` of the current ids; the id was not a key and is at least 1; nothing else changes |
| Tasks.TaskTree.Remove | src/tasks.py:22-23 | a present id is deleted from the dictionary, keeping the order of the rest; an absent id gives `KeyError` and changes nothing |
| Tasks.TaskTree.Update | src/tasks.py:25-29 | the new tasks and the external listeners called are those of `UpdateRun` |
| Tasks.TaskTree.NotifyListeners | src/tasks.py:28-29 | calling every listener in dictionary order changes no task and calls exactly the external listeners of `Notify` |
| Tasks.TaskTree.NotifyOne | src/tasks.py:28-29 | one round of that loop: an external listener is recorded, a parent's `update` runs; no task changes and the calls so far are those of `NotifyPrefix` |
| Tasks.TaskTree.Reset | src/tasks.py:31-34 | the new tasks and the external listeners called are those of `ResetRun` |
| Tasks.TaskTree.ResetSubTasks | src/tasks.py:106-108 | resets each sub-task in order, giving the state and calls of `ResetChildren` |
| Tasks.TaskTree.Completeness | src/tasks.py:110-115 | the accumulating loop returns `CompletenessOf` |
| Tasks.DisplayName | src/tasks.py:14 | `name or "task"`: a given name is kept, and the result is never empty |
| Tasks.IsDone | src/tasks.py:58-101 | for a leaf, done holds exactly when its completeness reaches 1.0 (a flag is set, a counter has reached its length); the composite case is related to its leaves by `TaskProperties.DoneIffLeavesDone` |
| Tasks.CompletenessOf | src/tasks.py:67-115 | completeness is never negative; `TaskProperties.CompletenessIsMean` and `CompletenessBounds` give the mean and the bound for a done task |
| Tasks.ChildSum | src/tasks.py:112-114 | the accumulator `acc` is never negative; `TaskProperties.ChildSumIsSum` shows it is the sum of the sub-tasks' completeness |
| Tasks.Advance | src/tasks.py:61-104 | `_update` sets a flag, raises a counter by exactly 1, and changes nothing else of the task (a composite not at all) |
| Tasks.Cleared | src/tasks.py:64-86 | `_reset` of a leaf clears a flag or sets a counter to 0 and changes nothing else of the task |
| Tasks.UpdateComposite | src/tasks.py:25-29 | the `update` a composite subscribes (its `_update` is a no-op) changes no task and calls the composite's listeners exactly when it is not done |
| Tasks.NotifyNext | src/tasks.py:28-29 | the listener round `Notify` grows by the tag of an external listener, or by the round of a parent that is not done |
| Tasks.UpdateRun | src/tasks.py:25-29 | an update keeps the tree well formed and changes only the progress state |
| Tasks.ResetRun | src/tasks.py:31-34 | a reset keeps the tree well formed and changes only the progress state |
| Tasks.ResetChildren | src/tasks.py:106-108 | resetting the sub-tasks one after another keeps the tree well formed and its structure unchanged |
| Tasks.Subscribe | src/tasks.py:96-98 | the sub-tasks' dictionaries after the composite's `add` on each of them in order; subscribing creates no task; characterised task by task by `TaskProperties.SubscribeAt` and `SubscribeKeeps` |
| Tasks.WithoutKeeps | src/tasks.py:22-23 | `del`, modelled by `Without`, keeps only entries that were there, with distinct ids, and removes exactly that id from the key set |
| TaskProperties.AsMapKeys | src/tasks.py:17-20 | the keys of the dictionary view are exactly the stored ids |
| TaskProperties.AsMapAt | src/tasks.py:17-20 | with distinct ids each stored id maps to its own listener |
| TaskProperties.AddFresh | src/tasks.py:17-20 | `add`, modelled by `AddListener`, returns an id that was not a key, positive when the keys are |
| TaskProperties.RegisteredDistinct | src/tasks.py:17-20 | the dictionary after `add` (`Registered`) keeps the ids distinct |
| TaskProperties.AddStores | src/tasks.py:17-20 | after `add` the dictionary is the old one with the new id mapped to the listener; no other entry and no other task changes |
| TaskProperties.WithoutMap | src/tasks.py:22-23 | after `remove(uid)` the dictionary is the old one without `uid` |
| TaskProperties.WithoutLength | src/tasks.py:22-23 | removing a present id drops exactly one entry; an absent one changes nothing |
| TaskProperties.ListenerIdReuse | src/tasks.py:17-23 | adding three listeners gives ids 1, 2, 3; after removing 2 the next one gets 2, stored last |
| TaskProperties.NotifyExternal | src/tasks.py:28-29 | with only external listeners, `Notify` calls each one exactly once, in dictionary order |
| TaskProperties.NotifyExternalPrefix | src/tasks.py:28-29 | the same for the first k listeners (`NotifyPrefix`): k calls, the first k tags in order |
| TaskProperties.UpdateDone | src/tasks.py:25-26 | `update` on a done task changes nothing and calls no listener |
| TaskProperties.UpdatePending | src/tasks.py:25-29 | `update` on a task that is not done takes one `_update` step on that task only, then calls each external listener once |
| TaskProperties.ResetLeaf | src/tasks.py:31-34 | `reset` of a leaf clears it (not done, completeness 0) and calls each external listener once, whether or not it was done |
| TaskProperties.SimpleLifecycle | src/tasks.py:53-68 | a fresh flag is not done with completeness 0; one update makes it done with completeness 1; further updates are no-ops; reset makes it not done |
| TaskProperties.CounterStep | src/tasks.py:77-82 | an effective update raises progress by exactly 1; an update of a done counter leaves it |
| TaskProperties.CounterUpdates | src/tasks.py:77-82 | from progress p below the length, n updates leave progress at min(p + n, ceil(length)) |
| TaskProperties.CounterExact | src/tasks.py:77-89 | with whole length n, n - 1 updates are not enough, n updates give done with completeness 1, and progress then stays at n |
| TaskProperties.CounterOvershoot | src/tasks.py:77-89 | with length 2.5, two updates are not enough, the third brings progress to 3 with completeness 1.2, and a fourth changes nothing |
| TaskProperties.DoneIffLeavesDone | src/tasks.py:100-101 | a task is done iff every leaf below it is done |
| TaskProperties.CompletenessIsMean | src/tasks.py:110-115 | a composite's completeness is the arithmetic mean of its sub-tasks' completeness, and 1.0 with none |
| TaskProperties.ChildSumIsSum | src/tasks.py:112-114 | the accumulator after k sub-tasks is the sum of their completeness |
| TaskProperties.CompletenessBounds | src/tasks.py:67-115 | completeness is never negative, and is at least 1 for a done task |
| TaskProperties.AddedTimesShape | src/tasks.py:17-20 | n calls of `add(l)` keep the old items in front and append n items holding `l` |
| TaskProperties.AddedTimesPositive | src/tasks.py:17-20 | ids handed out by n calls of `add` on a dictionary with distinct positive ids stay distinct and positive |
| TaskProperties.SubscribeAt | src/tasks.py:96-98 | after the composite subscribes on `subs`, each task is as before except its dictionary, which got one `add` of the composite's `update` per occurrence of the task in `subs` |
| TaskProperties.SubscribeKeeps | src/tasks.py:96-98 | every task keeps name, kind and progress; its dictionary keeps the old items in front, then one `Parent(owner)` item per occurrence in `subs`; positive distinct ids stay so; tasks not in `subs` are unchanged |
| TaskProperties.SubscribeKeepsAt | src/tasks.py:96-98 | the same for one task |
| TaskProperties.SubscribeWellFormed | src/tasks.py:93-98 | building a composite keeps the tree well formed: every subscription points from a sub-task to a later composite |
| TaskProperties.FreshComposite | src/tasks.py:93-98 | over distinct leaves without listeners, each leaf ends up holding exactly the composite's `update` under id 1, which is the setting of `ResetFanOut` |
| TaskProperties.SubscribeExample | src/tasks.py:93-98 | `MultiTask` over two fresh flags 0 and 1, built at index 2, leaves each of them with the dictionary `{1: update of 2}` |
| TaskProperties.EmptyMulti | src/tasks.py:100-111 | a composite with no sub-tasks is done, with completeness 1.0 |
| TaskProperties.MeanExample | src/tasks.py:110-115 | counters at 2 of 2 and 2 of 4 give a composite completeness of 0.75, not done |
| TaskProperties.MeanOneNotDone | src/tasks.py:77-115 | counters at 3 of 2.5 and 4 of 5 give a composite completeness of exactly 1.0 while it is not done |
| TaskProperties.ParentRebroadcast | src/tasks.py:25-29 | a sub-task update calls the composite's listeners iff the sub-task was not done and the composite is still not done afterwards; the update that completes the last sub-task is silent at the composite |
| TaskProperties.ResetFanOut | src/tasks.py:31-34 | resetting a composite over distinct leaf sub-tasks whose only listener is the composite's `update` calls the composite's listeners once per sub-task plus once at the end |
| TaskProperties.ResetChildrenFanOut | src/tasks.py:106-108 | after the first k sub-task resets, the composite's listeners have been called k times |
| TaskProperties.FanOutStep | src/tasks.py:106-108 | each sub-task reset adds exactly one round of the composite's listeners |
| TaskProperties.ResetClearsSubtree | src/tasks.py:106-108 | `reset` clears every task below the one reset and leaves every other task unchanged |
| TaskProperties.ResetDone | src/tasks.py:31-34 | after `reset` a task is done iff there is no leaf below it |

## Left out

- Shared memory and locking (`multiprocessing.Value`, `get_lock`) are not modelled: calls are sequential. The race between the done check and the locked increment, which can overshoot a counter under concurrent callers, is therefore not captured.
- `Value("i", ...)` is a 32-bit C integer. Progress is an unbounded `int`, so wrap-around after 2^31 updates is not modelled.
- Completeness is an exact `real`, not an IEEE float, so rounding is not modelled.
- `Utils.Expand` takes the integer clock in milliseconds. The float step `int(clock * 1000)` is not modelled.
- `Utils.ExpandShape`: the shape and round-trip lemmas are stated for non-negative clocks only. `Utils.Expand` itself also follows Python's floor `divmod` and sign-aware padding for negative ones.
- External listener callbacks are opaque tags. Their side effects, including adding or removing listeners while the dictionary is being iterated (a RuntimeError in Python), are not modelled.
- Separate task objects and aliasing are modelled as indices into one `TaskTree`:
  - a task belongs to exactly one store;
  - a composite can only be built over tasks that already exist.
- Tasks.TaskTree.Add: requires `ListenerOk`, so a tree listener must be `Parent(o)` with `o` a composite of larger index than the task it is added to. Python's `add` accepts any callable: a leaf's `update` as a listener, `b.add(m.update)` for a `b` built after `m`, and cycles such as `m.add(m.update)`, which recurse forever in Python, are not modelled. The index order is the rank that keeps the model's listener graph acyclic, and cycles could only come in through `add`.
- `Tasks.TaskTree.NewCounterTask` requires a positive length. The source accepts any length, and a length of 0 makes `completeness` divide by zero.
- The abstract base class machinery is replaced by a closed set of three task kinds.
- The `name` property is modelled as the `name` field of each task, not as a separate member.
- The driver script test6.py is not part of this model. Its fractional counter length `len(data)/2` is why lengths are `real`.

The methods of `Tasks.TaskTree` describe their new state with `old(...)`. Their properties are proved as lemmas in `TaskProperties` about the functions those methods are proved against.
