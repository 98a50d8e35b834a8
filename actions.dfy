/**
 * The actions that travel through the dispatcher: those of the persons
 * feature (com/randomco/app/PersonsStore.kt, PersonStore.kt), the system
 * actions (mini/app/SystemActions.kt) and the placeholder the muting test
 * interceptor returns (TestDispatcherInterceptor.kt).
 */
module Actions {
  import opened Wrappers
  import opened Persons
  import opened TypedTasks
  import opened PersonsFilters

  datatype ActivityStage = Created | Started | Resumed | Paused | Stopped | Restarted | Destroyed

  datatype Action =
    | LoadPersonsAction(count: int)
    | PersonsLoadedAction(persons: Option<seq<Person>>, loadTask: Task)
    | DeletePersonAction(person: Person)
    | TogglePersonFavAction(person: Person)
    | UpdateFilterAction(filter: PersonsFilter)
    | OnTrimMemoryAction(level: int)
    | OnActivityLifeCycleAction(stage: ActivityStage)
    | TestOnlyAction

  /**
   * The keys subscriptions are registered under: one per action class, and
   * one per marker interface an action implements (only `SilentTag` here).
   */
  datatype Tag =
    | LoadPersonsTag
    | PersonsLoadedTag
    | DeletePersonTag
    | TogglePersonFavTag
    | UpdateFilterTag
    | OnTrimMemoryTag
    | OnActivityLifeCycleTag
    | TestOnlyTag
    | SilentTag

  /** The class tag of an action. */
  function ClassTag(a: Action): Tag {
    match a
    case LoadPersonsAction(_) => LoadPersonsTag
    case PersonsLoadedAction(_, _) => PersonsLoadedTag
    case DeletePersonAction(_) => DeletePersonTag
    case TogglePersonFavAction(_) => TogglePersonFavTag
    case UpdateFilterAction(_) => UpdateFilterTag
    case OnTrimMemoryAction(_) => OnTrimMemoryTag
    case OnActivityLifeCycleAction(_) => OnActivityLifeCycleTag
    case TestOnlyAction => TestOnlyTag
  }

  /**
   * `action.tags`: the action's class, then the marker interfaces it
   * implements. Only the activity lifecycle action is a `SilentTag`.
   */
  function Tags(a: Action): (tags: seq<Tag>)
    ensures |tags| > 0 && tags[0] == ClassTag(a)
    ensures SilentTag in tags <==> a.OnActivityLifeCycleAction?
  {
    [ClassTag(a)] + (if a.OnActivityLifeCycleAction? then [SilentTag] else [])
  }

  /** `action is SilentTag`. */
  predicate IsSilent(a: Action) {
    SilentTag in Tags(a)
  }
}
