/**
 * The persons store of the list screen (com/randomco/app/PersonsStore.kt):
 * its state, the five reducers `init` registers, and the store object that
 * runs them and asks the controller for more persons.
 */
module PersonsApp {
  import opened Wrappers
  import opened TypedTasks
  import opened Persons
  import opened PersonsFilters
  import opened Collections
  import opened PersonLists
  import opened Actions
  import opened Flux
  import opened Stores

  /** `PersonState` of PersonsStore.kt: the list, the load task and the active filter. */
  datatype PersonState = PersonState(persons: Option<seq<Person>>, loadPersonsTask: Task, activeFilter: PersonsFilter)

  /** `PersonState()`: no list yet, an idle task, the default filter. */
  function InitialState(): (s: PersonState)
    ensures s.persons.None? && s.activeFilter == DefaultFilter
    ensures s.loadPersonsTask.status == Idle && s.loadPersonsTask.error.None?
  {
    PersonState(None, TaskIdleNull(), DefaultFilter)
  }

  /** What a reducer leaves: a new state, or the failure of `it.persons!!`. */
  datatype Reduction = Reduced(state: PersonState) | NullPersons

  /** The action classes `init` subscribes to, in subscription order. */
  const HandledTags: seq<Tag> := [LoadPersonsTag, PersonsLoadedTag, DeletePersonTag, TogglePersonFavTag, UpdateFilterTag]

  /** `state.copy(loadPersonsTask = taskRunning())`. */
  function StartLoad(s: PersonState): (r: PersonState)
    ensures r.loadPersonsTask.IsRunning() && r.loadPersonsTask.error.None?
    ensures r.persons == s.persons && r.activeFilter == s.activeFilter
  {
    s.(loadPersonsTask := TaskRunningNull())
  }

  /** The load guard: the controller is asked for `count` persons only when no load is running. */
  function LoadRequest(s: PersonState, a: Action): (r: Option<int>)
    ensures r.Some? <==> a.LoadPersonsAction? && !s.loadPersonsTask.IsRunning()
    ensures r.Some? ==> r.value == a.count
  {
    if a.LoadPersonsAction? && !s.loadPersonsTask.IsRunning() then Some(a.count) else None
  }

  /**
   * The `PersonsLoadedAction` reducer. A successful load appends the new
   * persons and keeps one person per id; a successful load without a list
   * fails; any other task keeps the list. The task is always the action's.
   */
  function Loaded(s: PersonState, persons: Option<seq<Person>>, task: Task): (r: Reduction)
    ensures r.NullPersons? <==> task.IsSuccessful() && persons.None?
    ensures r.Reduced? ==> r.state.loadPersonsTask == task && r.state.activeFilter == s.activeFilter
    ensures r.Reduced? && task.IsSuccessful() ==>
              && r.state.persons.Some?
              && UniqueIds(r.state.persons.value)
              && Keys(r.state.persons.value, PersonId) == Keys(s.persons.GetOr([]), PersonId) + Keys(persons.value, PersonId)
    ensures !task.IsSuccessful() ==> r.Reduced? && r.state.persons == s.persons
  {
    if task.IsSuccessful() then
      match persons
      case None => NullPersons
      case Some(loaded) => Reduced(s.(persons := Some(MergeLoaded(s.persons, loaded)), loadPersonsTask := task))
    else
      Reduced(s.(loadPersonsTask := task))
  }

  /** The `DeletePersonAction` reducer: only the list changes. */
  function Deleted(s: PersonState, p: Person): (r: PersonState)
    ensures r.persons == DeletePerson(s.persons, p)
    ensures r.loadPersonsTask == s.loadPersonsTask && r.activeFilter == s.activeFilter
  {
    s.(persons := DeletePerson(s.persons, p))
  }

  /** The `TogglePersonFavAction` reducer: only the list changes. */
  function Toggled(s: PersonState, p: Person): (r: PersonState)
    ensures r.persons == ToggleFavorite(s.persons, p)
    ensures r.loadPersonsTask == s.loadPersonsTask && r.activeFilter == s.activeFilter
  {
    s.(persons := ToggleFavorite(s.persons, p))
  }

  /** The `UpdateFilterAction` reducer: only the filter changes. */
  function FilterUpdated(s: PersonState, f: PersonsFilter): (r: PersonState)
    ensures r.activeFilter == f
    ensures r.persons == s.persons && r.loadPersonsTask == s.loadPersonsTask
  {
    s.(activeFilter := f)
  }

  /**
   * The reducer the store runs for an action. Actions of a class it did not
   * subscribe to, and a load while one is running, leave the state as it is.
   */
  function Reduce(s: PersonState, a: Action): (r: Reduction)
    ensures ClassTag(a) !in HandledTags ==> r == Reduced(s)
    ensures a.LoadPersonsAction? && s.loadPersonsTask.IsRunning() ==> r == Reduced(s)
    ensures r.NullPersons? <==> a.PersonsLoadedAction? && a.loadTask.IsSuccessful() && a.persons.None?
  {
    match a
    case LoadPersonsAction(_) => if s.loadPersonsTask.IsRunning() then Reduced(s) else Reduced(StartLoad(s))
    case PersonsLoadedAction(persons, task) => Loaded(s, persons, task)
    case DeletePersonAction(p) => Reduced(Deleted(s, p))
    case TogglePersonFavAction(p) => Reduced(Toggled(s, p))
    case UpdateFilterAction(f) => Reduced(FilterUpdated(s, f))
    case _ => Reduced(s)
  }

  /** After any successful load from a list with unique ids, the ids are still unique, and so after delete and toggle. */
  lemma ReducePreservesUniqueIds(s: PersonState, a: Action)
    requires s.persons.Some? ==> UniqueIds(s.persons.value)
    ensures var r := Reduce(s, a);
            r.Reduced? && r.state.persons.Some? ==> UniqueIds(r.state.persons.value)
  {
    if s.persons.Some? && (a.DeletePersonAction? || a.TogglePersonFavAction?) {
      ReducersKeepIdsUnique(s.persons.value, a.person);
    }
  }

  /** A successful load keeps the previous list in front, as the test of duplicated users expects. */
  lemma SuccessfulLoadAppends(s: PersonState, loaded: seq<Person>, task: Task)
    requires task.IsSuccessful()
    requires s.persons.Some? ==> UniqueIds(s.persons.value)
    ensures var r := Loaded(s, Some(loaded), task);
            && r.Reduced?
            && r.state.persons == Some(s.persons.GetOr([]) + DistinctByFrom(loaded, PersonId, Keys(s.persons.GetOr([]), PersonId)))
  {
    MergeKeepsPrevious(s.persons.GetOr([]), loaded);
    match s.persons
    case None =>
      assert MergeLoaded(None, loaded) == MergeLoaded(Some([]), loaded);
    case Some(_) =>
  }

  class PersonsStore {
    const store: Store<PersonState>
    /** The `count` of every `personController.loadPersons` call, in call order. */
    var loadRequests: seq<int>

    constructor()
      ensures fresh(store) && store.Valid()
      ensures store.current == null && store.emissions == [] && store.tracked == []
      ensures store.initialValue == InitialState() && store.properties == DefaultStoreProperties()
      ensures loadRequests == []
    {
      store := new Store(DefaultStoreProperties(), InitialState());
      loadRequests := [];
    }

    /**
     * `init`: one subscription per handled action class, at the default
     * priority, with consecutive ids; all of them end up registered.
     */
    method Init(d: Dispatcher) returns (subs: seq<DispatcherSubscription>)
      requires d.Valid()
      modifies d`registry, d`counter
      ensures d.Valid()
      ensures |subs| == |HandledTags| && d.counter == old(d.counter) + |HandledTags|
      ensures forall i :: 0 <= i < |subs| ==>
                && subs[i].tag == HandledTags[i] && subs[i].dispatcher == d
                && subs[i].id == old(d.counter) + i && subs[i].priority == DEFAULT_PRIORITY
                && d.IsRegistered(subs[i])
    {
      var load := SubscribeKeeping(d, LoadPersonsTag, []);
      var loaded := SubscribeKeeping(d, PersonsLoadedTag, [load]);
      var delete := SubscribeKeeping(d, DeletePersonTag, [load, loaded]);
      var toggle := SubscribeKeeping(d, TogglePersonFavTag, [load, loaded, delete]);
      var filter := SubscribeKeeping(d, UpdateFilterTag, [load, loaded, delete, toggle]);
      subs := [load, loaded, delete, toggle, filter];
    }

    /**
     * The callback registered for the action's class, run on delivery. It
     * reads the state, reduces it and assigns the result; a load asks the
     * controller only when none is running; a successful load without a
     * list fails before assigning anything.
     */
    method Receive(a: Action) returns (crashed: bool)
      requires store.Valid()
      modifies store`current, store`emissions, this`loadRequests
      ensures store.Valid()
      ensures crashed <==> Reduce(old(store.Value()), a).NullPersons?
      ensures !crashed ==> store.Value() == Reduce(old(store.Value()), a).state
      ensures crashed ==> store.Value() == old(store.Value())
      ensures store.Value() == old(store.Value()) ==> store.emissions == old(store.emissions)
      ensures store.Value() != old(store.Value()) ==> fresh(store.current) && store.emissions == old(store.emissions) + [store.current]
      ensures loadRequests == old(loadRequests) + (if LoadRequest(old(store.Value()), a).Some? then [a.count] else [])
    {
      crashed := false;
      match a
      case LoadPersonsAction(count) =>
        var s := store.State();
        if !s.value.loadPersonsTask.IsRunning() {
          store.Assign(StartLoad(s.value));
          loadRequests := loadRequests + [count];
        }
      case PersonsLoadedAction(persons, task) =>
        var s := store.State();
        var next := Loaded(s.value, persons, task);
        if next.NullPersons? {
          crashed := true;
        } else {
          store.Assign(next.state);
        }
      case DeletePersonAction(p) =>
        var s := store.State();
        store.Assign(Deleted(s.value, p));
      case TogglePersonFavAction(p) =>
        var s := store.State();
        store.Assign(Toggled(s.value, p));
      case UpdateFilterAction(f) =>
        var s := store.State();
        store.Assign(FilterUpdated(s.value, f));
      case _ =>
    }
  }

  /**
   * `duplicated_users_get_removed`: after a reset, a successful load of the
   * same person twice leaves a list of one.
   */
  method DuplicatedUsersGetRemoved(p: Person) returns (persons: Option<seq<Person>>)
    ensures persons == Some([p])
  {
    var s := new PersonsStore();
    s.store.ResetState();
    var crashed := s.Receive(PersonsLoadedAction(Some([p, p]), TaskSuccessNull()));
    LoadingTwiceKeepsOne(p);
    persons := s.store.Value().persons;
  }

  /** `delete_removes_user`: deleting the only person of the list leaves an empty list. */
  method DeleteRemovesUser(p: Person) returns (persons: Option<seq<Person>>)
    ensures persons == Some([])
  {
    var s := new PersonsStore();
    s.store.ResetState();
    var st := new StateRef(PersonState(Some([p]), TaskIdleNull(), DefaultFilter));
    s.store.SetTestState(st);
    var crashed := s.Receive(DeletePersonAction(p));
    DeletingTheOnlyPerson(p);
    persons := s.store.Value().persons;
  }
}
