# Randomco Flux core, modelled in Dafny

This project models the small Flux runtime of the Randomco Android app. It
also models the deterministic logic of the app that runs on top of it.

The runtime, under `mini/`, is made of these parts:

- **The dispatcher.** It keeps one ordered set of subscriptions per action tag, sorted by priority and then by subscription id. It builds a chain of interceptors, refuses re-entrant dispatches and dispatches only on the UI thread.
- **The store.** Its state is created lazily. Its setter stores and emits a value only when the value differs by `equals`. It offers a stream of states, test helpers and tracked subscriptions.
- **Store initialisation.** Stores are initialised in `initOrder` order.
- **`TypedTask`.** The status envelope of an asynchronous operation.
- **The logging interceptor.** It keeps one snapshot of each store's state, compares snapshots by identity, and writes a log block unless the action is silent.
- **The file logger.** It deletes old log files by age and count, formats log lines, and gates and queues log calls.
- **The test interceptor.** It mutes the dispatcher.

On top of the runtime, the app contributes:

- the person model and the mapper from the network model;
- the `PersonsFilter` pipeline, which filters by text and distance and then sorts;
- the two persons stores, `PersonsStore` and `PersonStore`. Each is a set of reducers registered on the dispatcher, which read the state, compute a new one and assign it.

## How the model is organised

One Dafny module per source concern:

| module | file | models |
|---|---|---|
| `Wrappers` | wrappers.dfy | the Kotlin nullable type, as `Option` |
| `Collections` | collections.dfy | `filter`, `distinctBy` and the stable `sortedBy` of the Kotlin standard library, with their laws |
| `TypedTasks` | typed_task.dfy | TypedTask.kt |
| `Persons`, `PersonMapping`, `PersonsFilters` | person.dfy, person_mapper.dfy, persons_filter.dfy | Person.kt, PersonMapper.kt, PersonsFilter.kt |
| `Actions` | actions.dfy | the actions of the app, their class tags and the `SilentTag` marker |
| `Flux` | dispatcher.dfy | Dispatcher.kt and the interceptor chain |
| `Stores` | store.dfy | Store.kt |
| `FluxUtils` | flux_util.dfy | `initStores` of FluxUtil.kt |
| `PersonLists` | person_reducers.dfy | the list operations the reducers of both persons stores share |
| `PersonsApp`, `PersonApp` | persons_store.dfy, person_store.dfy | PersonsStore.kt and PersonStore.kt |
| `Logging` | logger_interceptor.dfy | LoggerInterceptor.kt |
| `LogFiles` | file_log.dfy | `deleteOldLogs`, `FileTree` and `LogLine` of FileLogController.kt |
| `MiniTest` | test_dispatcher_interceptor.dfy | TestDispatcherInterceptor.kt |

### Objects, values and callbacks

- **State the source updates in place is a class.** This covers the dispatcher, its subscriptions, the stores, the logging interceptor, the file tree and its log lines. The methods carry `modifies` clauses, and their `ensures` clauses state the whole new state.
- **Values are datatypes.** Persons, filters, tasks, actions and log files are datatypes.
- **Two kinds of state equality.** A store's state is a `StateRef<S>` object. Its `value` gives Kotlin's `==`, and the reference gives `===`. The store setter compares with `==`; the logging interceptor compares with `===`.
- **Callbacks become events.** The dispatcher's callbacks are observable through an `events` log, and each store reacts through its own `Receive` method. A delivery to a subscription is the event `Delivered(sub, action)`. Each persons store's `Receive(a)` is the callback that `init` registers for the class of `a`.
- **The crash of `it.persons!!`.** When a successful load carries no list, the reducer fails before assigning anything. The model shows this as the `NullPersons` reduction and the `crashed` result of `Receive`.
- **The persons controller.** `personController.loadPersons(count)` is recorded in `loadRequests`.

Both `PersonsStore.kt` and `PersonStore.kt` declare a `PersonState`, and they differ. They are modelled as `PersonsApp.PersonState` and `PersonApp.PersonState`. Both files also declare the same action classes; the model has one `Action` datatype for both.

The `Action` interface and its `tags` extension are not among the modelled sources. `Actions.Tags` gives an action's class tag followed by `SilentTag` for the one action that implements that marker, `OnActivityLifeCycleAction`.

## Model

| member | source | states |
|---|---|---|
| `TypedTasks.TypedTask.IsTerminal` | app/src/main/java/mini/flux/TypedTask.kt:20 | a task is terminal exactly when it succeeded or failed; a terminal task is not running and an idle task is not terminal |
| `TypedTasks.NewTask` | app/src/main/java/mini/flux/TypedTask.kt:14-16 | the data class constructor keeps its metadata and error, and its status defaults to idle and its error to none |
| `TypedTasks.StatusPredicatesExclusive` | app/src/main/java/mini/flux/TypedTask.kt:17-19 | running, failure and success exclude each other, and a task is idle exactly when none of them holds |
| `TypedTasks.TaskIdle` | app/src/main/java/mini/flux/TypedTask.kt:29 | an idle task neither runs nor is terminal, carries the data and has no error |
| `TypedTasks.TaskSuccess` | app/src/main/java/mini/flux/TypedTask.kt:32 | a successful task is terminal, carries the data and has no error |
| `TypedTasks.TaskRunning` | app/src/main/java/mini/flux/TypedTask.kt:35 | a running task is not terminal, carries the data and has no error |
| `TypedTasks.TaskFailure` | app/src/main/java/mini/flux/TypedTask.kt:38 | a failed task is terminal and carries exactly the error given, none by default |
| `TypedTasks.TaskIdleNull` | app/src/main/java/mini/flux/TypedTask.kt:43 | the nullable idle task has null metadata and no error and is not terminal |
| `TypedTasks.TaskSuccessNull` | app/src/main/java/mini/flux/TypedTask.kt:46 | the nullable successful task is terminal with null metadata |
| `TypedTasks.TaskRunningNull` | app/src/main/java/mini/flux/TypedTask.kt:49 | the nullable running task runs and is not terminal, with null metadata |
| `TypedTasks.TaskFailureNull` | app/src/main/java/mini/flux/TypedTask.kt:52 | the nullable failed task is terminal and keeps the error given |
| `Actions.Tags` | app/src/main/java/mini/app/SystemActions.kt:15-17 | an action's tags start with its class, and `SilentTag` is among them exactly for the activity lifecycle action |
| `Persons.GenderOrdinal` | app/src/main/java/com/randomco/models/Person.kt:19-21 | the genders take the ordinals 0, 1 and 2 in declaration order |
| `Persons.GenderOrdinalInjective` | app/src/main/java/com/randomco/models/Person.kt:19-21 | two genders have the same ordinal only when they are the same |
| `PersonMapping.MapGender` | app/src/main/java/com/randomco/models/PersonMapper.kt:18-22 | "male" maps to male and "female" to female; every other string maps to other |
| `PersonMapping.MapPerson` | app/src/main/java/com/randomco/models/PersonMapper.kt:9-30 | each person field comes from its network field; the large picture becomes `big`, and the person is not a favourite. The random location is a parameter |
| `PersonMapping.MappedIdsFollowEmails` | app/src/main/java/com/randomco/models/PersonMapper.kt:12 | two mapped persons have the same id exactly when their network emails are equal |
| `PersonMapping.MapperExample` | app/src/test/java/com/randomco/models/PersonMapperTest.kt:12-17 | a concrete network person maps to the expected person, up to the location |
| `PersonsFilters.IndexOfIgnoreCase` | app/src/main/java/com/randomco/models/PersonsFilter.kt:15-17 | the result is the first offset from `from` at which the text matches ignoring case, or -1 when there is none |
| `PersonsFilters.ContainsIgnoreCaseIff` | app/src/main/java/com/randomco/models/PersonsFilter.kt:15-17 | `contains(text, true)` holds exactly when some region matches ignoring case; the empty text is always contained |
| `PersonsFilters.ContainsItself` | app/src/main/java/com/randomco/models/PersonsFilter.kt:15-17 | a name always matches a filter text equal to it |
| `PersonsFilters.NameKey` | app/src/main/java/com/randomco/models/PersonsFilter.kt:35 | the name sort key is the name's character codes, in order |
| `PersonsFilters.NameKeyMatchesName` | app/src/main/java/com/randomco/models/PersonsFilter.kt:35 | two persons tie on the name key exactly when their names are equal |
| `PersonsFilters.GenderKeyOrder` | app/src/main/java/com/randomco/models/PersonsFilter.kt:36 | the gender key orders persons as the gender enum's declaration order does |
| `PersonsFilters.Apply` | app/src/main/java/com/randomco/models/PersonsFilter.kt:10-41 | the result is a permutation of the filtered list; it is sorted by name when that flag is set, else by gender when that flag is set, else unchanged |
| `PersonsFilters.ApplyNoOp` | app/src/main/java/com/randomco/models/PersonsFilter.kt:10-41 | the default filter returns the list unchanged |
| `PersonsFilters.TextFilterKeeps` | app/src/main/java/com/randomco/models/PersonsFilter.kt:13-21 | a text filter alone keeps, in order, exactly the persons whose name, surname or email contains the text ignoring case, each matching person as many times as it occurs |
| `PersonsFilters.DistanceStepNeedsBoth` | app/src/main/java/com/randomco/models/PersonsFilter.kt:23-29 | the distance step filters nothing unless both the distance and the current location are set |
| `PersonsFilters.FilteredIsSubsequence` | app/src/main/java/com/randomco/models/PersonsFilter.kt:12-29 | the text and distance steps only drop persons and keep the order of the rest |
| `PersonsFilters.NameSortWins` | app/src/main/java/com/randomco/models/PersonsFilter.kt:34-38 | when both sort flags are set, only the name sort applies |
| `PersonsFilters.ApplySortIsStable` | app/src/main/java/com/randomco/models/PersonsFilter.kt:34-38 | the sorts are stable: persons with the same key keep their filtered order |
| `PersonLists.MergeLoaded` | app/src/main/java/com/randomco/app/PersonsStore.kt:42-45 | the merged list has unique ids; every element comes from the previous or the loaded list, and its ids are the union of both lists' ids |
| `PersonLists.MergeKeepsPrevious` | app/src/main/java/com/randomco/app/PersonsStore.kt:43-45 | a previous list with unique ids stays in front, followed by the loaded persons whose ids are new, once each |
| `PersonLists.MergeIsFirstOccurrences` | app/src/main/java/com/randomco/app/PersonsStore.kt:44-45 | the merge keeps the first person of each id of the concatenation, as `distinctBy` does |
| `PersonLists.LoadingTwiceKeepsOne` | app/src/androidTest/java/com/randomco/app/PersonsStoreTest.kt:36-41 | loading the same person twice into no list gives a list of that person once |
| `PersonLists.DeletePerson` | app/src/main/java/com/randomco/app/PersonsStore.kt:55-60 | no list stays no list; otherwise the result keeps the order, drops every person equal to the deleted one and keeps every other person as many times as it occurs |
| `PersonLists.DeletingTheOnlyPerson` | app/src/androidTest/java/com/randomco/app/PersonsStoreTest.kt:45-53 | deleting the only person of a list leaves an empty list |
| `PersonLists.Flipped` | app/src/main/java/com/randomco/app/PersonsStore.kt:68 | the copy has the opposite favourite flag, the same id, and is otherwise the person |
| `PersonLists.ToggleFavorite` | app/src/main/java/com/randomco/app/PersonsStore.kt:64-72 | no list stays no list; otherwise the length and every id are kept, persons equal to the target are flipped and all others are unchanged |
| `PersonLists.ReducersKeepIdsUnique` | app/src/main/java/com/randomco/app/PersonsStore.kt:55-72 | delete and toggle keep the ids of a list unique |
| `PersonLists.ToggleTwiceRestores` | app/src/main/java/com/randomco/app/PersonsStore.kt:64-72 | toggling a person and then its flipped copy restores the list, when the flipped copy was not already in it |
| `PersonsApp.InitialState` | app/src/main/java/com/randomco/app/PersonsStore.kt:17-21 | the initial state has no list, an idle task and the default filter |
| `PersonsApp.StartLoad` | app/src/main/java/com/randomco/app/PersonsStore.kt:37 | starting a load marks the task running without an error and keeps the list and the filter |
| `PersonsApp.LoadRequest` | app/src/main/java/com/randomco/app/PersonsStore.kt:35-39 | the controller is asked for `count` persons exactly when a load action arrives and no load is running |
| `PersonsApp.Loaded` | app/src/main/java/com/randomco/app/PersonsStore.kt:41-53 | the reducer fails exactly when a successful load has no list. A successful load leaves unique ids whose set is the union of the old and new ids; any other load keeps the list. The task is always the action's, and the filter is kept |
| `PersonsApp.Deleted` | app/src/main/java/com/randomco/app/PersonsStore.kt:55-60 | only the list changes, by `DeletePerson` |
| `PersonsApp.Toggled` | app/src/main/java/com/randomco/app/PersonsStore.kt:64-72 | only the list changes, by `ToggleFavorite` |
| `PersonsApp.FilterUpdated` | app/src/main/java/com/randomco/app/PersonsStore.kt:74-76 | only the filter changes, to the action's |
| `PersonsApp.Reduce` | app/src/main/java/com/randomco/app/PersonsStore.kt:34-77 | the state is unchanged by an action class the store does not subscribe to and by a load while one is running; the reducer fails exactly on a successful load without a list |
| `PersonsApp.ReducePreservesUniqueIds` | app/src/main/java/com/randomco/app/PersonsStore.kt:41-72 | every reducer keeps the ids of the list unique |
| `PersonsApp.SuccessfulLoadAppends` | app/src/main/java/com/randomco/app/PersonsStore.kt:42-45 | a successful load keeps the previous list in front and appends only the persons with new ids |
| `PersonsApp.PersonsStore.constructor` | app/src/main/java/com/randomco/app/PersonsStore.kt:31-32 | a new store has no state object yet, has emitted nothing, uses the default properties, and has asked the controller for nothing |
| `PersonsApp.PersonsStore.Init` | app/src/main/java/com/randomco/app/PersonsStore.kt:34-77 | `init` makes five subscriptions, one per handled action class, in order, at the default priority and with consecutive ids; all stay registered |
| `PersonsApp.PersonsStore.Receive` | app/src/main/java/com/randomco/app/PersonsStore.kt:34-77 | the callback fails exactly when `Reduce` does; otherwise the state becomes `Reduce`'s. A new value is emitted once, an equal one not at all, and the controller is asked exactly as `LoadRequest` says |
| `PersonsApp.DuplicatedUsersGetRemoved` | app/src/androidTest/java/com/randomco/app/PersonsStoreTest.kt:36-41 | after a reset, loading the same person twice leaves a list of one |
| `PersonsApp.DeleteRemovesUser` | app/src/androidTest/java/com/randomco/app/PersonsStoreTest.kt:45-53 | after setting a list of one person, deleting that person leaves an empty list |
| `PersonApp.InitialState` | app/src/main/java/com/randomco/app/PersonStore.kt:16-19 | the initial state has no list and an idle task |
| `PersonApp.LoadRequest` | app/src/main/java/com/randomco/app/PersonStore.kt:32-36 | the controller is asked for `count` persons exactly when a load action arrives and no load is running |
| `PersonApp.Reduce` | app/src/main/java/com/randomco/app/PersonStore.kt:31-70 | each of the four reducers as in the list screen's store: unknown classes and running loads keep the state, a load starts the task, and a successful load merges by id or fails without a list. Other loads keep the list, and delete and toggle change only the list |
| `PersonApp.ReducePreservesUniqueIds` | app/src/main/java/com/randomco/app/PersonStore.kt:38-69 | every reducer keeps the ids of the list unique |
| `PersonApp.PersonStore.constructor` | app/src/main/java/com/randomco/app/PersonStore.kt:28-29 | a new store has no state object yet, has emitted nothing and has asked the controller for nothing |
| `PersonApp.PersonStore.Init` | app/src/main/java/com/randomco/app/PersonStore.kt:31-70 | `init` makes four subscriptions, one per handled action class, in order, at the default priority and with consecutive ids; all stay registered |
| `PersonApp.PersonStore.Receive` | app/src/main/java/com/randomco/app/PersonStore.kt:31-70 | the callback fails exactly when `Reduce` does and otherwise assigns `Reduce`'s state; it emits only a changed value and asks the controller exactly as `LoadRequest` says |
| `Flux.Links` | app/src/main/java/mini/flux/Dispatcher.kt:42-49 | a chain has no interceptors exactly when it is the root chain |
| `Flux.ReachesRoot` | app/src/main/java/mini/flux/Dispatcher.kt:31-49 | an action reaches the root chain exactly when every interceptor proceeds, that is, when no interceptor mutes it |
| `Flux.FirstMuter` | app/src/main/java/mini/flux/Dispatcher.kt:42-49 | a muting interceptor answers exactly when the action does not reach the root, and it is one of the chain's muters |
| `Flux.Answering` | app/src/main/java/mini/flux/Dispatcher.kt:42-49 | the interceptor that answers is one of the chain's muters |
| `Flux.ChainResult` | app/src/main/java/mini/flux/Dispatcher.kt:31-49 | the chain returns the action itself when it reaches the root, and the test placeholder otherwise |
| `Flux.ChainEvents` | app/src/main/java/mini/flux/Dispatcher.kt:42-49 | the interceptors that see the action are a prefix of the chain, outermost first, and they are all observers |
| `Flux.FoldSnoc` | app/src/main/java/mini/flux/Dispatcher.kt:42-49 | folding one more interceptor wraps the chain built so far |
| `Flux.BuildChainSnoc` | app/src/main/java/mini/flux/Dispatcher.kt:42-49 | no interceptors build the root chain, and the last interceptor added is the outermost link |
| `Flux.ChainOrder` | app/src/main/java/mini/flux/Dispatcher.kt:42-49 | the chain holds every interceptor once, the last added first |
| `Flux.MuterShortCircuits` | app/src/main/java/mini/flux/Dispatcher.kt:42-49 | a muting interceptor whose later additions all observe stops the action before the root and answers with the placeholder |
| `Flux.ObserversOnly` | app/src/main/java/mini/flux/Dispatcher.kt:31-49 | with observing interceptors only, the action reaches the root unchanged and every interceptor sees it, the last added first |
| `Flux.ObserverEventsCount` | app/src/main/java/mini/flux/Dispatcher.kt:31-49 | when the action reaches the root, every link of the chain saw it |
| `Flux.RemoveFirst` | app/src/main/java/mini/flux/Dispatcher.kt:64-69 | `remove` drops one occurrence of the interceptor if present, and changes nothing otherwise |
| `Flux.Insert` | app/src/main/java/mini/flux/Dispatcher.kt:138-146 | adding to the sorted subscription set keeps it ordered by priority and then id, and adds the subscription unless one with the same key is there |
| `Flux.InsertKeeps` | app/src/main/java/mini/flux/Dispatcher.kt:138-146 | after an add, the new subscription and every earlier one are in the set |
| `Flux.FilingKeeps` | app/src/main/java/mini/flux/Dispatcher.kt:137-146 | replacing a tag's set with a superset of it keeps every subscription of every tag |
| `Flux.RemoveKey` | app/src/main/java/mini/flux/Dispatcher.kt:149-157 | removing from the sorted set keeps it ordered, drops the subscription with that key and keeps every other one |
| `Flux.Deliveries` | app/src/main/java/mini/flux/Dispatcher.kt:33-36 | each subscription of a tag gets the action once, in set order |
| `Flux.RootEventsMembers` | app/src/main/java/mini/flux/Dispatcher.kt:31-40 | the root chain delivers the action to exactly the subscriptions registered under its tags |
| `Flux.DispatcherSubscription.constructor` | app/src/main/java/mini/flux/Dispatcher.kt:163-167 | a new subscription keeps its dispatcher, id, priority and tag, and is not disposed |
| `Flux.DispatcherSubscription.OnAction` | app/src/main/java/mini/flux/Dispatcher.kt:174-182 | handing an action to a subscription records its delivery |
| `Flux.DispatcherSubscription.Dispose` | app/src/main/java/mini/flux/Dispatcher.kt:208-216 | disposing is idempotent. The first dispose unregisters the subscription, and afterwards it is not registered, no subscription is newly registered, and every registration with another (tag, priority, id) key stays |
| `Flux.Dispatcher.constructor` | app/src/main/java/mini/flux/Dispatcher.kt:19-41 | a new dispatcher has no subscriptions, no interceptors, the root chain and a zero counter |
| `Flux.Dispatcher.Subscribe` | app/src/main/java/mini/flux/Dispatcher.kt:109 | `subscribe(tag)` subscribes at the default priority |
| `Flux.Dispatcher.SubscribeWithPriority` | app/src/main/java/mini/flux/Dispatcher.kt:114-124 | the new subscription takes the next id, higher than every registered one, and is added to its tag's sorted set; every earlier subscription stays registered |
| `Flux.Dispatcher.Register` | app/src/main/java/mini/flux/Dispatcher.kt:135-147 | registering files the subscription into its tag's set, creating the set when missing, and keeps every other subscription |
| `Flux.Dispatcher.Unregister` | app/src/main/java/mini/flux/Dispatcher.kt:149-157 | unregistering removes the subscription and registers nothing new. Every registration with another (tag, priority, id) key stays. When the removal fails, the failure is recorded and nothing changes |
| `Flux.Dispatcher.ClearDispatcher` | app/src/main/java/mini/flux/Dispatcher.kt:130-133 | clearing empties the registry and resets the id counter |
| `Flux.Dispatcher.AddInterceptor` | app/src/main/java/mini/flux/Dispatcher.kt:54-59 | the interceptor is appended, and the chain is rebuilt with it outermost |
| `Flux.Dispatcher.RemoveInterceptor` | app/src/main/java/mini/flux/Dispatcher.kt:64-69 | the first occurrence of the interceptor is removed, and the chain is rebuilt; removing an absent one changes nothing |
| `Flux.Dispatcher.Deliver` | app/src/main/java/mini/flux/Dispatcher.kt:33-36 | each subscription is handed the action once, in order |
| `Flux.Dispatcher.RootProceed` | app/src/main/java/mini/flux/Dispatcher.kt:31-40 | the root chain delivers to the subscriptions of each tag of the action, tag after tag, and returns the action |
| `Flux.ProceedEvents` | app/src/main/java/mini/flux/Dispatcher.kt:31-49 | the trace of proceeding through a chain is the observers' events, followed by the root deliveries when the root is reached |
| `Flux.Dispatcher.Proceed` | app/src/main/java/mini/flux/Dispatcher.kt:31-49 | proceeding through a chain returns `ChainResult` and appends exactly `ProceedEvents` to the trace; a muting interceptor records the action |
| `Flux.Dispatcher.Dispatch` | app/src/main/java/mini/flux/Dispatcher.kt:74-86 | off the UI thread, and while a dispatch is running, nothing is delivered. Otherwise the action goes through the chain once, the counter goes up, and `dispatching` is false again afterwards |
| `Flux.MutedDispatchDeliversNothing` | app/src/main/java/mini/flux/Dispatcher.kt:31-49 | with a muting interceptor outermost among the muters, no subscription is delivered the action |
| `Flux.AddThenRemoveInterceptor` | app/src/main/java/mini/flux/Dispatcher.kt:54-69 | adding and then removing an interceptor that was absent restores the list |
| `Flux.SubscribeKeeping` | app/src/main/java/mini/flux/Dispatcher.kt:109-124 | subscribing at the default priority keeps given earlier subscriptions registered |
| `Stores.DefaultStoreProperties` | app/src/main/java/mini/flux/Store.kt:105-109 | the default `initOrder` is 100 |
| `Stores.StateRef.constructor` | app/src/main/java/mini/flux/Store.kt:38-48 | a state object holds the value it was built with |
| `Stores.Store.constructor` | app/src/main/java/mini/flux/Store.kt:17-24 | a new store has no state object, no emissions and no tracked subscriptions, and it is not closed |
| `Stores.Store.InitialState` | app/src/main/java/mini/flux/Store.kt:38-48 | `initialState()` returns a new object holding the initial value |
| `Stores.Store.State` | app/src/main/java/mini/flux/Store.kt:25-29 | the first read creates the initial state without emitting it; later reads return the same object |
| `Stores.Store.SetState` | app/src/main/java/mini/flux/Store.kt:30-35 | a value equal to the stored one changes nothing and emits nothing; any other value is stored and emitted once |
| `Stores.Store.Seen` | app/src/main/java/mini/flux/Store.kt:53-58 | a stream subscriber sees the state it started with followed by every later emission |
| `Stores.Store.Flowable` | app/src/main/java/mini/flux/Store.kt:53-58 | a new stream starts with the current state |
| `Stores.Store.SetStateObserved` | app/src/main/java/mini/flux/Store.kt:30-35 | a stream subscriber sees a set value once when it differs, and nothing otherwise |
| `Stores.Store.Assign` | app/src/main/java/mini/flux/Store.kt:30-35 | `state = state.copy(...)` leaves the given value stored; an equal value emits nothing and any other value emits once |
| `Stores.Store.SetTestState` | app/src/main/java/mini/flux/Store.kt:78-82 | setting a test state goes through the setter: an equal value changes nothing |
| `Stores.Store.ResetState` | app/src/main/java/mini/flux/Store.kt:90-92 | after a reset the state holds the initial value, emitted only when it differs |
| `Stores.Store.Track` | app/src/main/java/mini/flux/Store.kt:63-65 | `track` on an open store appends the subscription to the tracked ones and touches nothing else. On a closed store, whose `CompositeDisposable` is disposed, it keeps nothing and disposes the subscription at once: it is then disposed and unregistered, only registrations with its key go, and the trace gains at most its removal warning |
| `Stores.Store.Close` | app/src/main/java/mini/flux/Store.kt:68-70 | after `close`, the store is closed and holds no subscriptions. Every formerly tracked subscription is disposed and no longer registered. Nothing is newly registered, and every registration that shares no (tag, priority, id) key with a tracked subscription stays. The trace only gains warnings of failed removals for tracked subscriptions |
| `Stores.DisposeAll` | app/src/main/java/mini/flux/Store.kt:68-70 | disposing the composite's subscriptions one by one leaves each of them disposed and unregistered, registers nothing new, keeps every registration with another (tag, priority, id) key, and only adds removal warnings to the trace |
| `FluxUtils.InitSequence` | app/src/main/java/mini/flux/FluxUtil.kt:41 | the stores are reordered by ascending `initOrder`, as a permutation |
| `FluxUtils.Steps` | app/src/main/java/mini/flux/FluxUtil.kt:44-49 | the loop calls `init()` on each store and then reads its state, store after store |
| `FluxUtils.InitCallsOfSteps` | app/src/main/java/mini/flux/FluxUtil.kt:44-49 | the stores that `init()` is called on are the sorted stores, in order |
| `FluxUtils.InitStores` | app/src/main/java/mini/flux/FluxUtil.kt:38-49 | `initStores` makes exactly those calls and records one time per store |
| `FluxUtils.InitInOrder` | app/src/main/java/mini/flux/FluxUtil.kt:43-49 | the loop over the sorted stores calls `init()` and then `state` on each one in turn, and fills every slot of `initTimes` with that store's measured time |
| `FluxUtils.InitOncePerStore` | app/src/main/java/mini/flux/FluxUtil.kt:38-49 | `init()` is called once per store, and each state is created right after its store's `init()` |
| `FluxUtils.InitOrderIsStable` | app/src/main/java/mini/flux/FluxUtil.kt:41 | stores are initialised by ascending `initOrder`, and stores with the same `initOrder` keep their given order |
| `Logging.SinceLast` | app/src/main/java/mini/log/LoggerInterceptor.kt:28-30 | the time since the last action is capped at 9999 and is exact below it |
| `Logging.Changed` | app/src/main/java/mini/log/LoggerInterceptor.kt:46-49 | a store gets a line exactly when its state object is not the snapshot, by identity; the lines are in store order, and none are written when nothing changed |
| `Logging.ChangedUpTo` | app/src/main/java/mini/log/LoggerInterceptor.kt:46-49 | over the first `n` stores, an index is listed exactly when that store's state object changed, in ascending order |
| `Logging.Refresh` | app/src/main/java/mini/log/LoggerInterceptor.kt:46-62 | after the loop every snapshot is the store's state, and the lines are `Changed` of the old snapshots |
| `Logging.LoggerInterceptor.constructor` | app/src/main/java/mini/log/LoggerInterceptor.kt:17-22 | no snapshots exist before the first invoke, and the counter starts at zero |
| `Logging.LoggerInterceptor.Invoke` | app/src/main/java/mini/log/LoggerInterceptor.kt:24-71 | the action is passed on once and the chain's result returned. The counter goes up and every snapshot becomes the store's state. A silent action writes no block; any other action writes one listing the changed stores |
| `LogFiles.ByRecency` | app/src/main/java/mini/log/FileLogController.kt:84 | the files are a permutation of the listing, most recently modified first |
| `LogFiles.SelectedFrom` | app/src/main/java/mini/log/FileLogController.kt:85-87 | the positions from `start` on that pass the filter, ascending |
| `LogFiles.Selected` | app/src/main/java/mini/log/FileLogController.kt:84-88 | the files tried are exactly those past the first that are too old or beyond the count, in order; the most recent file is never tried |
| `LogFiles.AscendingWithin` | app/src/main/java/mini/log/FileLogController.kt:85-87 | a strictly ascending run of positions in a range is no longer than the range |
| `LogFiles.DefaultCountSelectsByAge` | app/src/main/java/mini/log/FileLogController.kt:79 | with the default count, `Int.MAX_VALUE`, only age decides |
| `LogFiles.DefaultDeleteOldLogsPicks` | app/src/main/java/mini/log/FileLogController.kt:79-87 | with both default arguments, a file is picked exactly when it is not the newest and is more than three days (259,200,000 ms) old |
| `LogFiles.DeleteOldLogs` | app/src/main/java/mini/log/FileLogController.kt:79-91 | a missing folder deletes nothing. Otherwise the selected files are tried in order, and the count is the number of successful deletions, never more than all files but one |
| `LogFiles.DeletePicked` | app/src/main/java/mini/log/FileLogController.kt:88 | each picked file is tried once, in order, and the count is the number of successful deletions |
| `LogFiles.Split` | app/src/main/java/mini/log/FileLogController.kt:238 | `split('\n')` gives at least one segment, none holding a newline |
| `LogFiles.SplitJoin` | app/src/main/java/mini/log/FileLogController.kt:238 | joining the segments with newlines gives back the message |
| `LogFiles.DropTrailingEmpty` | app/src/main/java/mini/log/FileLogController.kt:238 | `dropLastWhile(isEmpty)` keeps a prefix that is empty or ends in a non-empty segment, and drops only empty ones |
| `LogFiles.DropTrailingKeepsText` | app/src/main/java/mini/log/FileLogController.kt:238 | the dropped segments carried only trailing newlines |
| `LogFiles.LevelLetter` | app/src/main/java/mini/log/FileLogController.kt:239-245 | each level has its letter, and every other level prints V |
| `LogFiles.FormattedMessage` | app/src/main/java/mini/log/FileLogController.kt:229-234 | a null or blank message prints the stack trace; any other message is followed by a newline and the trace text |
| `LogFiles.FormatLines` | app/src/main/java/mini/log/FileLogController.kt:236-250 | an empty message writes no line; otherwise one line per kept segment, framed by the prelude and `" \r\n"` |
| `LogFiles.FormatKeepsText` | app/src/main/java/mini/log/FileLogController.kt:238-248 | the written lines, with their frames cut off and joined, lose nothing of the message but trailing newlines |
| `LogFiles.OneLineMessage` | app/src/main/java/mini/log/FileLogController.kt:228-252 | a one-line message without a trace is written as exactly one line |
| `LogFiles.SplitOneLine` | app/src/main/java/mini/log/FileLogController.kt:238 | a line followed by a newline splits into the line and an empty segment |
| `LogFiles.LogLine.constructor` | app/src/main/java/mini/log/FileLogController.kt:209-218 | a new log line carries its creation time as its date and is otherwise empty: level 0, no message, no tag, no throwable |
| `LogFiles.LogLine.Clear` | app/src/main/java/mini/log/FileLogController.kt:220-226 | `clear()` empties every field |
| `LogFiles.LogLine.Format` | app/src/main/java/mini/log/FileLogController.kt:228-252 | a blank message with no trace writes nothing, and every line written starts with the date, level and tag prelude and ends with `" \r\n"` |
| `LogFiles.FileTree.constructor` | app/src/main/java/mini/log/FileLogController.kt:98-108 | a new tree has an empty queue |
| `LogFiles.FileTree.Log` | app/src/main/java/mini/log/FileLogController.kt:147-165 | a priority below the minimum is dropped, and a full queue of 100 refuses the line; otherwise one new line with the call's fields is queued at the end |
| `MiniTest.TestDispatcherInterceptor.constructor` | app/src/androidTest/java/mini/TestDispatcherInterceptor.kt:14 | nothing is recorded at first |
| `MiniTest.TestDispatcherInterceptor.Invoke` | app/src/androidTest/java/mini/TestDispatcherInterceptor.kt:16-20 | the action is recorded at the end and the placeholder returned |
| `MiniTest.RecordsInOrder` | app/src/androidTest/java/mini/TestDispatcherInterceptor.kt:18-22 | two muted actions are recorded in the order they arrived |

## Left out

- Threading: `dispatchOnUi` and `dispatchOnUiSync` post to the main thread, and there is no concurrency in the model. `Dispatch` takes whether it runs on the UI thread as a flag, and its failure is a `DispatchOutcome`.
- RxJava: the `PublishProcessor` of a subscription with its `flowable()`/`observable()`, the store's own `PublishProcessor`, and schedulers are left out. The store's emissions are a log. `Flowable` and `Seen` describe what a subscriber of the store's `flowable()` receives: the `startWith` of the current state, followed by every later emission of the processor.
- The reflective construction in `initialState()` (`newInstance` of the state class) is left out; each store holds its initial value.
- `registerSystemCallbacks` and the Android callbacks are left out. They only dispatch the system actions, which are modelled as values.
- `PersonsApp.Reduce`: its own contract states the unchanged and failing cases only. Each handled action's effect is stated by the reducer it calls (`StartLoad`, `Loaded`, `Deleted`, `Toggled`, `FilterUpdated`).
- `PersonMapping.MapPerson`: `generateRandomLocation` uses `Math.random`, so the location is a parameter.
- `LatLon.distanceTo` is floating-point trigonometry. The filter takes the distance function as a parameter, and `Float` is modelled as `real`.
- `PersonsFilters.ContainsIgnoreCaseIff`: case folding is ASCII only; Kotlin's `contains(…, true)` also folds other letters.
- The LoggerInterceptor's `DiffFinder`, its text layout and the Timber output are left out. A log block records the action, the times, the counter digit and which stores changed.
- `Logging.LoggerInterceptor.Invoke`: the Kotlin `Long` action counter and the clock are unbounded integers, so wrap-around is not modelled.
- `LogFiles.LogLine.Format`: the date formatting, `printStackTrace` and `getStackTraceString` are parameters given as text.
- `LogFiles.IsBlank`: `trim()` whitespace is ASCII only.
- FileTree's writer thread, `flush`, `exit`, the file output and the `LogLine` pool are left out; `Log` allocates a new line. `newFileTree` and the controller's file naming are left out too.
- `LogFiles.DeleteOldLogs`: the file system is the `listing` and `deletes` parameters.
- `Stores.Store.Close`: it requires every tracked subscription to belong to one dispatcher, which is the only use in the app.
- `Flux.Dispatcher.Dispatch`: the global `actionCounter` is an unbounded integer field of the dispatcher.
- `Flux.Dispatcher.Dispatch`: a callback that throws is not modelled. An example is the `it.persons!!` failure, which `Receive` reports as `crashed`. In Kotlin the exception leaves `chain.proceed`: the remaining subscribers of that set, and of later tags, get nothing, the `finally` clears `dispatching`, and the exception escapes `dispatch`. The model records every delivery, so one failing callback never cuts delivery short.
- `Flux.Dispatcher.SubscribeWithPriority`: `subscriptionCounter` is an `AtomicInteger`, whose `getAndIncrement` wraps to negative ids after `Int.MAX_VALUE`. The model's `counter` is an unbounded integer, so a new id being above every registered one holds only without wrap-around.
- Callbacks are modelled as per-store `Receive` methods, not as functions stored in subscriptions. The dispatcher records deliveries, and a store's `Receive` is what a delivery runs.
- `OnActivityLifeCycleAction` keeps only its lifecycle stage. The `activity` it carries is left out, because the model never reads it.
- `PersonsFilters.NameKey`: names are compared by Unicode scalar value. Kotlin's `String.compareTo` compares UTF-16 code units, so names with characters outside the Basic Multilingual Plane can sort differently.
- `FluxUtils.InitStores`: the stores are `StoreEntry` values, an identity plus properties, not `Stores.Store` objects. The loop is modelled as the trace of `init()` calls and state reads it makes, not as the effect of those calls on each store.
- `PersonController`, the network services and the UI (activities, fragments, adapter, extensions) are not part of this model.
- `LoggerStore`, `LoggerState` and `SubscriptionTracker` are not part of this model.
