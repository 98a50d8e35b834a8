/**
 * The older persons store (com/randomco/app/PersonStore.kt): the same
 * reducers as the list screen's store without the filter, over a state
 * whose task field is `personsTask`.
 */
module PersonApp {
  import opened Wrappers
  import opened TypedTasks
  import opened Persons
  import opened Collections
  import opened PersonLists
  import opened Actions
  import opened Flux
  import opened Stores

  /** `PersonState` of PersonStore.kt: the list and the load task. */
  datatype PersonState = PersonState(persons: Option<seq<Person>>, personsTask: Task)

  /** `PersonState()`: no list yet and an idle task. */
  function InitialState(): (s: PersonState)
    ensures s.persons.None? && s.personsTask.status == Idle && s.personsTask.error.None?
  {
    PersonState(None, TaskIdleNull())
  }

  /** What a reducer leaves: a new state, or the failure of `it.persons!!`. */
  datatype Reduction = Reduced(state: PersonState) | NullPersons

  /** The action classes `init` subscribes to, in subscription order. */
  const HandledTags: seq<Tag> := [LoadPersonsTag, PersonsLoadedTag, DeletePersonTag, TogglePersonFavTag]

  /** The load guard: the controller is asked for `count` persons only when no load is running. */
  function LoadRequest(s: PersonState, a: Action): (r: Option<int>)
    ensures r.Some? <==> a.LoadPersonsAction? && !s.personsTask.IsRunning()
    ensures r.Some? ==> r.value == a.count
  {
    if a.LoadPersonsAction? && !s.personsTask.IsRunning() then Some(a.count) else None
  }

  /**
   * The four reducers. A load while one is running and an action of another
   * class keep the state; a load otherwise only marks the task running; a
   * successful load merges by id and fails without a list; any other load
   * result keeps the list; delete and toggle only change the list.
   */
  function Reduce(s: PersonState, a: Action): (r: Reduction)
    ensures ClassTag(a) !in HandledTags ==> r == Reduced(s)
    ensures a.LoadPersonsAction? ==>
              r.Reduced? && r.state.persons == s.persons
              && (s.personsTask.IsRunning() ==> r.state == s)
              && (!s.personsTask.IsRunning() ==> r.state.personsTask.IsRunning() && r.state.personsTask.error.None?)
    ensures r.NullPersons? <==> a.PersonsLoadedAction? && a.loadTask.IsSuccessful() && a.persons.None?
    ensures a.PersonsLoadedAction? && r.Reduced? ==>
              && r.state.personsTask == a.loadTask
              && (a.loadTask.IsSuccessful() ==> r.state.persons == Some(MergeLoaded(s.persons, a.persons.value)))
              && (!a.loadTask.IsSuccessful() ==> r.state.persons == s.persons)
    ensures a.DeletePersonAction? ==>
              r.Reduced? && r.state.persons == DeletePerson(s.persons, a.person) && r.state.personsTask == s.personsTask
    ensures a.TogglePersonFavAction? ==>
              r.Reduced? && r.state.persons == ToggleFavorite(s.persons, a.person) && r.state.personsTask == s.personsTask
  {
    match a
    case LoadPersonsAction(_) =>
      if s.personsTask.IsRunning() then Reduced(s) else Reduced(s.(personsTask := TaskRunningNull()))
    case PersonsLoadedAction(persons, task) =>
      if task.IsSuccessful() then
        match persons
        case None => NullPersons
        case Some(loaded) => Reduced(PersonState(Some(MergeLoaded(s.persons, loaded)), task))
      else
        Reduced(s.(personsTask := task))
    case DeletePersonAction(p) => Reduced(s.(persons := DeletePerson(s.persons, p)))
    case TogglePersonFavAction(p) => Reduced(s.(persons := ToggleFavorite(s.persons, p)))
    case _ => Reduced(s)
  }

  /** Every reducer keeps the ids of a list unique. */
  lemma ReducePreservesUniqueIds(s: PersonState, a: Action)
    requires s.persons.Some? ==> UniqueIds(s.persons.value)
    ensures var r := Reduce(s, a);
            r.Reduced? && r.state.persons.Some? ==> UniqueIds(r.state.persons.value)
  {
    if s.persons.Some? && (a.DeletePersonAction? || a.TogglePersonFavAction?) {
      ReducersKeepIdsUnique(s.persons.value, a.person);
    }
  }

  class PersonStore {
    const store: Store<PersonState>
    /** The `count` of every `personController.loadPersons` call, in call order. */
    var loadRequests: seq<int>

    constructor()
      ensures fresh(store) && store.Valid()
      ensures store.current == null && store.emissions == [] && store.tracked == []
      ensures store.initialValue == InitialState() && store.properties == DefaultStoreProperties()
      ensures loadRequests == []
    {
      store := new Store(DefaultStoreProperties(), InitialState());
      loadRequests := [];
    }

    /**
     * `init`: one subscription per handled action class, at the default
     * priority, with consecutive ids; all of them end up registered.
     */
    method Init(d: Dispatcher) returns (subs: seq<DispatcherSubscription>)
      requires d.Valid()
      modifies d`registry, d`counter
      ensures d.Valid()
      ensures |subs| == |HandledTags| && d.counter == old(d.counter) + |HandledTags|
      ensures forall i :: 0 <= i < |subs| ==>
                && subs[i].tag == HandledTags[i] && subs[i].dispatcher == d
                && subs[i].id == old(d.counter) + i && subs[i].priority == DEFAULT_PRIORITY
                && d.IsRegistered(subs[i])
    {
      var load := SubscribeKeeping(d, LoadPersonsTag, []);
      var loaded := SubscribeKeeping(d, PersonsLoadedTag, [load]);
      var delete := SubscribeKeeping(d, DeletePersonTag, [load, loaded]);
      var toggle := SubscribeKeeping(d, TogglePersonFavTag, [load, loaded, delete]);
      subs := [load, loaded, delete, toggle];
    }

    /**
     * The callback registered for the action's class, run on delivery: read
     * the state, reduce it and assign the result; a load asks the controller
     * only when none is running; a successful load without a list fails
     * before assigning anything.
     */
    method Receive(a: Action) returns (crashed: bool)
      requires store.Valid()
      modifies store`current, store`emissions, this`loadRequests
      ensures store.Valid()
      ensures crashed <==> Reduce(old(store.Value()), a).NullPersons?
      ensures !crashed ==> store.Value() == Reduce(old(store.Value()), a).state
      ensures crashed ==> store.Value() == old(store.Value())
      ensures store.Value() == old(store.Value()) ==> store.emissions == old(store.emissions)
      ensures store.Value() != old(store.Value()) ==> fresh(store.current) && store.emissions == old(store.emissions) + [store.current]
      ensures loadRequests == old(loadRequests) + (if LoadRequest(old(store.Value()), a).Some? then [a.count] else [])
    {
      crashed := false;
      match a
      case LoadPersonsAction(count) =>
        var s := store.State();
        if !s.value.personsTask.IsRunning() {
          store.Assign(s.value.(personsTask := TaskRunningNull()));
          loadRequests := loadRequests + [count];
        }
      case PersonsLoadedAction(persons, task) =>
        var s := store.State();
        if task.IsSuccessful() && persons.None? {
          crashed := true;
        } else {
          var newPersons := if task.IsSuccessful() then Some(MergeLoaded(s.value.persons, persons.value)) else s.value.persons;
          store.Assign(s.value.(persons := newPersons, personsTask := task));
        }
      case DeletePersonAction(p) =>
        var s := store.State();
        store.Assign(s.value.(persons := DeletePerson(s.value.persons, p)));
      case TogglePersonFavAction(p) =>
        var s := store.State();
        store.Assign(s.value.(persons := ToggleFavorite(s.value.persons, p)));
      case _ =>
    }
  }
}
